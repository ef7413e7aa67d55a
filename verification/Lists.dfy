/**
 The chunked list (ngx_list_t behind NgxList): a first part embedded in the list
 and further parts linked behind it, each an array with a count of elements.
 */
module Lists {

  class Part<T> {
    var elts: array<T>
    var nelts: nat
    var next: Part?<T>

    constructor (elts: array<T>)
      ensures this.elts == elts && nelts == 0 && next == null
    {
      this.elts, nelts, next := elts, 0, null;
    }
  }

  function Concat<T>(chunks: seq<seq<T>>): seq<T> {
    if chunks == [] then [] else chunks[0] + Concat(chunks[1..])
  }

  lemma ConcatSnoc<T>(chunks: seq<seq<T>>, c: seq<T>)
    ensures Concat(chunks + [c]) == Concat(chunks) + c
  {
    if chunks == [] {
      assert chunks + [c] == [c];
      assert Concat([c]) == c + [];
    } else {
      assert (chunks + [c])[1..] == chunks[1..] + [c];
      ConcatSnoc(chunks[1..], c);
    }
  }

  lemma ConcatOne<T>(chunks: seq<seq<T>>)
    requires |chunks| == 1
    ensures Concat(chunks) == chunks[0]
  {
    assert chunks[1..] == [];
  }

  /** The parts reached from the first by next, in order. */
  ghost predicate Linked<T>(parts: seq<Part<T>>)
    reads parts
  {
    && parts != [] && parts[|parts| - 1].next == null
    && (forall i {:trigger parts[i].next} :: 0 <= i < |parts| - 1 ==> parts[i].next == parts[i + 1])
    && (forall i, j :: 0 <= i < j < |parts| ==> parts[i] != parts[j])
  }

  ghost function Arrays<T>(parts: seq<Part<T>>): set<array<T>>
    reads parts
  {
    set p: Part<T> | p in parts :: p.elts
  }

  /**
   The parts hold these chunks: each counts the elements of its chunk, has room
   for nalloc of them, and shares its room with no other.
   */
  ghost predicate Holds<T>(parts: seq<Part<T>>, nalloc: nat, chunks: seq<seq<T>>)
    reads parts, Arrays(parts)
  {
    && |chunks| == |parts|
    && (forall i :: 0 <= i < |parts| ==>
          && parts[i].elts.Length == nalloc && |chunks[i]| == parts[i].nelts <= nalloc
          && parts[i].elts[..parts[i].nelts] == chunks[i])
    && (forall i, j :: 0 <= i < j < |parts| ==> parts[i].elts != parts[j].elts)
  }

  class List<T(0)> {
    const part: Part<T>       // the first part, a member of the list itself
    var last: Part<T>
    const nalloc: nat
    ghost var parts: seq<Part<T>>

    ghost var chunks: seq<seq<T>>   // what the parts hold

    /** The list is well formed. */
    ghost predicate Shaped()
      reads this, parts, Arrays(parts)
    {
      && nalloc > 0 && Linked(parts) && Holds(parts, nalloc, chunks)
      && parts[0] == part && last == parts[|parts| - 1]
    }

    /** Between calls, only the first part may be empty, when it is the only one. */
    ghost predicate Valid()
      reads this, parts, Arrays(parts)
    {
      Shaped() && forall i :: 0 <= i < |chunks| && |chunks| > 1 ==> chunks[i] != []
    }

    ghost function Contents(): seq<T>
      reads this
    {
      Concat(chunks)
    }

    /** ngx_list_create */
    constructor (n: nat)
      requires n > 0
      ensures Valid() && fresh(part) && fresh(part.elts) && parts == [part] && nalloc == n
      ensures Contents() == []
    {
      nalloc := n;
      var elts := new T[n];
      part := new Part(elts);
      last := part;
      parts, chunks := [part], [[]];
      new;
      ConcatOne(chunks);
    }

    /**
     Copy of the list structure by value, as ngx_http_subrequest makes it: `last`
     still points where the original's does. ps are the parts reached from the
     original's first one and cs what they hold.
     */
    constructor CopyOf(l: List<T>, ghost ps: seq<Part<T>>, ghost cs: seq<seq<T>>)
      requires ps != []
      ensures fresh(part) && part.elts == l.part.elts && part.nelts == l.part.nelts && part.next == l.part.next
      ensures last == l.last && nalloc == l.nalloc
      ensures parts == [part] + ps[1..] && chunks == cs
    {
      var first := new Part(l.part.elts);
      first.nelts := l.part.nelts;
      first.next := l.part.next;
      part := first;
      last := l.last;
      nalloc := l.nalloc;
      parts, chunks := [first] + ps[1..], cs;
    }

    /** Link a new, empty part behind the last one. */
    method Grow(elts: array<T>)
      requires Shaped() && elts.Length == nalloc
      requires forall i :: 0 <= i < |parts| ==> parts[i].elts != elts
      modifies this`last, this`parts, this`chunks, last`next
      ensures Shaped() && fresh(last) && last.nelts == 0 && last.elts == elts
      ensures parts == old(parts) + [last] && chunks == old(chunks) + [[]]
    {
      ghost var k := |parts| - 1;
      var l := new Part(elts);
      last.next := l;
      last := l;
      parts, chunks := parts + [l], chunks + [[]];
      assert parts[k].next == l && parts[k + 1] == l;
    }

    /** The first half of ngx_list_push: a new last part when the last one is full. */
    method MakeRoom(granted: bool) returns (ok: bool)
      requires Valid()
      modifies this`last, this`parts, this`chunks, last`next
      ensures Shaped() && Contents() == old(Contents())
      ensures forall i :: 0 <= i < |chunks| - 1 ==> chunks[i] != []
      ensures ok <==> old(last.nelts) < nalloc || granted
      ensures ok ==> last.nelts < nalloc
      ensures ok && old(last.nelts) == nalloc ==>
                && fresh(last)
                && fresh(last.elts)
                && last.nelts == 0
                && parts == old(parts) + [last]
      ensures !ok || old(last.nelts) < nalloc ==>
                && parts == old(parts)
                && chunks == old(chunks)
                && last == old(last)
                && last.next == old(last.next)
    {
      if last.nelts < nalloc {
        return true;
      }
      if !granted {
        return false;
      }
      var elts := new T[nalloc];
      ConcatSnoc(chunks, []);
      Grow(elts);
      ok := true;
    }

    /** The next slot of a part that has room. */
    static method FillPart(p: Part<T>, x: T)
      requires p.nelts < p.elts.Length
      modifies p`nelts, p.elts
      ensures p.nelts == old(p.nelts) + 1 && p.elts[..p.nelts] == old(p.elts[..p.nelts]) + [x]
      ensures forall i :: 0 <= i < p.elts.Length && i != old(p.nelts) ==> p.elts[i] == old(p.elts[i])
    {
      ghost var kept := p.elts[..p.nelts];
      p.elts[p.nelts] := x;
      p.nelts := p.nelts + 1;
    }

    /** The account of a list whose parts have come to hold cs. */
    ghost method Adopt(cs: seq<seq<T>>)
      requires nalloc > 0 && Linked(parts) && parts[0] == part && last == parts[|parts| - 1]
      requires Holds(parts, nalloc, cs)
      modifies this`chunks
      ensures Shaped() && chunks == cs
      ensures (forall i :: 0 <= i < |cs| && |cs| > 1 ==> cs[i] != []) ==> Valid()
    {
      chunks := cs;
    }

    /** The next slot of the last part, which has room. */
    method FillLast(x: T)
      requires Shaped() && last.nelts < nalloc
      modifies this`chunks, last`nelts, last.elts
      ensures Shaped() && last.nelts == old(last.nelts) + 1
      ensures forall i :: 0 <= i < nalloc && i != old(last.nelts) ==> last.elts[i] == old(last.elts[i])
      ensures chunks == old(chunks)[|parts| - 1 := old(chunks)[|parts| - 1] + [x]]
    {
      ghost var k := |parts| - 1;
      assert forall i :: 0 <= i < k ==> parts[i] != last && parts[i].elts != last.elts;
      FillPart(last, x);
      Adopt(chunks[k := chunks[k] + [x]]);
    }

    /** The second half of ngx_list_push. */
    method Fill(x: T)
      requires Shaped() && last.nelts < nalloc
      modifies this`chunks, last`nelts, last.elts
      ensures Shaped() && Contents() == old(Contents()) + [x]
      ensures last.nelts == old(last.nelts) + 1
      ensures forall i :: 0 <= i < nalloc && i != old(last.nelts) ==> last.elts[i] == old(last.elts[i])
      ensures |chunks| == |old(chunks)| && chunks[|chunks| - 1] != []
      ensures forall i :: 0 <= i < |chunks| - 1 ==> chunks[i] == old(chunks[i])
    {
      ghost var was := chunks;
      FillLast(x);
      GrownLast(was, x);
    }

    /**
     NgxList::push over ngx_list_push; `granted` tells whether the memory for a new
     part is there when one is needed.
     */
    method Push(x: T, granted: bool) returns (ok: bool)
      requires Valid()
      modifies this`last, this`parts, this`chunks, last`nelts, last`next, last.elts
      ensures Valid()
      ensures ok <==> old(last.nelts) < nalloc || granted
      ensures Contents() == if ok then old(Contents()) + [x] else old(Contents())
      ensures !ok ==> parts == old(parts)
      ensures ok ==> parts == if old(last.nelts) < nalloc then old(parts) else old(parts) + [last]
      ensures ok && old(last.nelts) == nalloc ==> fresh(last) && fresh(last.elts) && last.nelts == 1
      ensures ok && old(last.nelts) < nalloc ==> last.nelts == old(last.nelts) + 1 && last.next == old(last.next)
      ensures !ok || old(last.nelts) == nalloc ==> old(last).nelts == old(last.nelts)
      ensures forall i :: 0 <= i < nalloc && i != old(last.nelts) ==> old(last.elts)[i] == old(last.elts[i])
    {
      ok := MakeRoom(granted);
      if ok {
        Fill(x);
      }
    }

    /** NgxList::empty */
    method Empty() returns (r: bool)
      requires Valid()
      ensures r <==> Contents() == []
    {
      r := part.nelts == 0;
      assert r ==> |chunks| == 1 && chunks[0] == [];
      if r {
        ConcatOne(chunks);
      }
    }

    /** NgxList::clear: the later parts are dropped, the first keeps its room. */
    method Clear()
      requires Valid()
      modifies this`last, this`parts, this`chunks, part`nelts, part`next
      ensures Valid() && Contents() == [] && parts == [part]
    {
      part.nelts := 0;
      part.next := null;
      last := part;
      parts, chunks := [part], [[]];
      ConcatOne(chunks);
    }
  }

  // ---------- iteration ----------

  /** The elements before slot c of chunk k. */
  function Before<T>(chunks: seq<seq<T>>, k: nat, c: nat): seq<T>
    requires k <= |chunks| && (k < |chunks| ==> c <= |chunks[k]|)
  {
    Concat(chunks[..k]) + if k < |chunks| then chunks[k][..c] else []
  }

  /** The slot after slot c of chunk k. */
  function Next<T>(chunks: seq<seq<T>>, k: nat, c: nat): (nat, nat)
    requires k < |chunks|
  {
    if c + 1 >= |chunks[k]| then (k + 1, 0) else (k, c + 1)
  }

  lemma NextBefore<T>(chunks: seq<seq<T>>, k: nat, c: nat)
    requires k < |chunks| && c < |chunks[k]|
    ensures var (k', c') := Next(chunks, k, c); Before(chunks, k', c') == Before(chunks, k, c) + [chunks[k][c]]
  {
    if c + 1 == |chunks[k]| {
      assert chunks[..k + 1] == chunks[..k] + [chunks[k]];
      ConcatSnoc(chunks[..k], chunks[k]);
      assert chunks[k] == chunks[k][..c] + [chunks[k][c]];
    } else {
      assert chunks[k][..c + 1] == chunks[k][..c] + [chunks[k][c]];
    }
  }

  lemma ConcatAppend<T>(a: seq<seq<T>>, b: seq<seq<T>>)
    ensures Concat(a + b) == Concat(a) + Concat(b)
  {
    if a == [] {
      assert a + b == b;
    } else {
      assert (a + b)[1..] == a[1..] + b;
      ConcatAppend(a[1..], b);
    }
  }

  /** Slot c of chunk k is the element after those before it. */
  lemma SlotIs<T>(chunks: seq<seq<T>>, k: nat, c: nat)
    requires k < |chunks| && c < |chunks[k]|
    ensures |Before(chunks, k, c)| < |Concat(chunks)|
    ensures Concat(chunks)[|Before(chunks, k, c)|] == chunks[k][c]
    ensures Concat(chunks)[..|Before(chunks, k, c)|] == Before(chunks, k, c)
  {
    assert chunks == chunks[..k] + chunks[k..];
    ConcatAppend(chunks[..k], chunks[k..]);
    assert chunks[k..][0] == chunks[k];
  }

  /** NgxListIterator: a value, copied and stepped on its own. */
  datatype ListIterator<T> = ListIterator(part: Part?<T>, data: array?<T>, count: nat) {
    /** equal to NgxList::end() */
    predicate IsEnd() {
      part == null && data == null && count == 0
    }

    /** The negation of operator! */
    predicate More()
      reads part
    {
      part != null && data != null && part.nelts != 0
    }

    /** NgxListIterator::increment */
    function Incremented(): ListIterator<T>
      reads part, if part == null then null else part.next
    {
      if part == null || data == null then this
      else if count + 1 >= part.nelts then
        ListIterator(part.next, if part.next == null then null else part.next.elts, 0)
      else ListIterator(part, data, count + 1)
    }
  }

  /** NgxList::begin */
  function Begin<T(0)>(l: List<T>): ListIterator<T>
    reads l.part
  {
    ListIterator(l.part, l.part.elts, 0)
  }

  /** NgxList::end */
  function End<T>(): ListIterator<T> {
    ListIterator(null, null, 0)
  }

  /** The iterator is at slot c of part k, or past the last part. */
  ghost predicate At<T(0)>(iter: ListIterator<T>, l: List<T>, k: nat, c: nat)
    reads l, l.parts
  {
    && |l.chunks| == |l.parts| && k <= |l.parts|
    && if k < |l.parts| then
         && iter == ListIterator(l.parts[k], l.parts[k].elts, c)
         && (c < |l.chunks[k]| || (c == 0 && l.chunks == [[]]))
       else iter == End() && c == 0
  }

  lemma IncrementedAt<T(0)>(iter: ListIterator<T>, l: List<T>, k: nat, c: nat)
    requires l.Valid() && At(iter, l, k, c) && k < |l.parts|
    ensures var (k', c') := Next(l.chunks, k, c); At(iter.Incremented(), l, k', c')
  {
    assert l.parts[k].nelts == |l.chunks[k]| && l.parts[k].next == if k + 1 < |l.parts| then l.parts[k + 1] else null;
    assert k + 1 < |l.parts| ==> l.chunks[k + 1] != [];
  }

  /** NgxListIterator::dereference */
  method Item<T(0)>(iter: ListIterator<T>, ghost l: List<T>, ghost k: nat, ghost c: nat) returns (x: T)
    requires l.Valid() && At(iter, l, k, c) && iter.More()
    ensures k < |l.parts| && c < |l.chunks[k]| && x == l.chunks[k][c]
  {
    assert l.parts[k].elts[..l.parts[k].nelts][c] == l.chunks[k][c];
    x := iter.data[iter.count];
  }

  /** One turn of a loop over the list: the current element, then ++iter. */
  method Turn<T(0)>(l: List<T>, iter: ListIterator<T>, ghost k: nat, ghost c: nat)
    returns (x: T, next: ListIterator<T>, ghost k': nat, ghost c': nat)
    requires l.Valid() && At(iter, l, k, c) && iter.More()
    ensures At(next, l, k', c') && InRange(l.chunks, k', c')
    ensures InRange(l.chunks, k, c) && Before(l.chunks, k', c') == Before(l.chunks, k, c) + [x]
    ensures |Before(l.chunks, k, c)| < |l.Contents()| && x == l.Contents()[|Before(l.chunks, k, c)|]
  {
    x := Item(iter, l, k, c);
    NextBefore(l.chunks, k, c);
    SlotIs(l.chunks, k, c);
    IncrementedAt(iter, l, k, c);
    next := iter.Incremented();
    ghost var slot := Next(l.chunks, k, c);
    k', c' := slot.0, slot.1;
  }

  predicate InRange<T>(chunks: seq<seq<T>>, k: nat, c: nat) {
    k <= |chunks| && (k < |chunks| ==> c <= |chunks[k]|)
  }

  lemma AtBegin<T(0)>(l: List<T>)
    requires l.Valid()
    ensures At(Begin(l), l, 0, 0) && InRange(l.chunks, 0, 0) && Before(l.chunks, 0, 0) == []
  {
    assert l.chunks[..0] == [];
  }

  lemma AtEnd<T(0)>(l: List<T>, iter: ListIterator<T>, k: nat, c: nat)
    requires l.Valid() && At(iter, l, k, c) && InRange(l.chunks, k, c) && !iter.More()
    ensures Before(l.chunks, k, c) == l.Contents()
    ensures At(End(), l, |l.chunks|, 0) && Before(l.chunks, |l.chunks|, 0) == l.Contents()
  {
    assert l.chunks[..|l.chunks|] == l.chunks;
    if k < |l.parts| {
      ConcatOne(l.chunks);
      assert l.chunks[..0] == [];
    }
  }

  /** NgxList::visit: what the visitor is given, in order. */
  method Visit<T(0)>(l: List<T>) returns (seen: seq<T>)
    requires l.Valid()
    ensures seen == l.Contents()
  {
    seen := [];
    var iter := Begin(l);
    ghost var k: nat, c: nat := 0, 0;
    AtBegin(l);
    while iter.More()
      invariant At(iter, l, k, c) && InRange(l.chunks, k, c)
      invariant seen == Before(l.chunks, k, c) && |seen| <= |l.Contents()|
      decreases |l.Contents()| - |seen|
    {
      var x;
      x, iter, k, c := Turn(l, iter, k, c);
      seen := seen + [x];
    }
    AtEnd(l, iter, k, c);
  }

  /** p holds of none of the first n elements. */
  predicate NoneOf<T>(p: T -> bool, s: seq<T>, n: nat)
    requires n <= |s|
  {
    forall i :: 0 <= i < n ==> !p(s[i])
  }

  /** NgxList::find: the first element p holds of, or the end. */
  method Find<T(0)>(l: List<T>, p: T -> bool) returns (iter: ListIterator<T>, ghost n: nat, ghost k: nat,
                ghost c: nat)
    requires l.Valid()
    ensures At(iter, l, k, c) && InRange(l.chunks, k, c) && n == |Before(l.chunks, k, c)|
    ensures n <= |l.Contents()| && NoneOf(p, l.Contents(), n)
    ensures iter.IsEnd() <==> n == |l.Contents()|
    ensures n < |l.Contents()| ==> iter.More() && p(l.Contents()[n])
  {
    iter := Begin(l);
    n, k, c := 0, 0, 0;
    AtBegin(l);
    while iter.More()
      invariant At(iter, l, k, c) && InRange(l.chunks, k, c) && n == |Before(l.chunks, k, c)|
      invariant n <= |l.Contents()| && NoneOf(p, l.Contents(), n)
      decreases |l.Contents()| - n
    {
      var x, next;
      ghost var k', c';
      x, next, k', c' := Turn(l, iter, k, c);
      if p(x) {
        return;
      }
      iter, k, c := next, k', c';
      n := n + 1;
    }
    AtEnd(l, iter, k, c);
    iter := End();
    k, c := |l.chunks|, 0;
  }

  /** The one turn a range-for makes over an empty list, at a slot that holds no element. */
  method PhantomTurn<T(0)>(l: List<T>, iter: ListIterator<T>, ghost k: nat, ghost c: nat)
    returns (x: T, next: ListIterator<T>)
    requires l.Valid() && At(iter, l, k, c) && InRange(l.chunks, k, c) && !iter.More() && iter != End()
    ensures l.Contents() == [] && next == End()
    ensures At(next, l, k + 1, 0) && InRange(l.chunks, k + 1, 0)
  {
    AtEnd(l, iter, k, c);
    x := iter.data[iter.count];
    IncrementedAt(iter, l, k, c);
    next := iter.Incremented();
  }

  /**
   A range-for over the list compares with end() instead: on an empty list it
   hands out one slot that holds no element, otherwise exactly the elements.
   */
  method RangeFor<T(0)>(l: List<T>) returns (seen: seq<T>)
    requires l.Valid()
    ensures l.Contents() != [] ==> seen == l.Contents()
    ensures l.Contents() == [] ==> |seen| == 1
  {
    seen := [];
    var iter := Begin(l);
    ghost var k: nat, c: nat := 0, 0;
    AtBegin(l);
    while iter != End()
      invariant At(iter, l, k, c) && InRange(l.chunks, k, c)
      invariant l.Contents() == [] ==> if iter == End() then |seen| == 1 else seen == []
      invariant l.Contents() != [] ==> seen == Before(l.chunks, k, c) && |seen| <= |l.Contents()|
      decreases |l.Contents()| - |seen|, iter != End()
    {
      var x;
      if iter.More() {
        x, iter, k, c := Turn(l, iter, k, c);
      } else {
        x, iter := PhantomTurn(l, iter, k, c);
        k, c := k + 1, 0;
      }
      seen := seen + [x];
    }
    if l.Contents() != [] {
      AtEnd(l, iter, k, c);
    }
  }

  /** The list does not use the part p nor its room. */
  ghost predicate Avoids<T(0)>(l: List<T>, p: Part<T>, elts: array<T>)
    reads l, l.parts
  {
    forall i :: 0 <= i < |l.parts| ==> l.parts[i] != p && l.parts[i].elts != elts
  }

  /** Two lists, the second of which does not use the last part of the first. */
  ghost predicate Beside<T(0)>(target: List<T>, l: List<T>)
    reads target, target.parts, target.last, Arrays(target.parts), l, l.parts, Arrays(l.parts)
  {
    target.Valid() && l.Valid() && target != l && Avoids(l, target.last, target.last.elts)
  }

  /** The last part is the one it was or a new one. */
  twostate predicate SameOrNewLast<T(0)>(target: List<T>)
    reads target, target.last
  {
    || (target.last == old(target.last) && target.last.elts == old(target.last.elts))
    || (fresh(target.last) && fresh(target.last.elts))
  }

  /** A push that says of the last part only whether it is new. */
  method PushEnd<T(0)>(target: List<T>, x: T, granted: bool) returns (ok: bool)
    requires target.Valid()
    modifies target, target.last, target.last.elts
    ensures target.Valid() && SameOrNewLast(target)
    ensures target.Contents() == if ok then old(target.Contents()) + [x] else old(target.Contents())
    ensures granted ==> ok
  {
    ok := target.Push(x, granted);
  }

  /** A push on another list whose last part this one does not use. */
  method PushBeside<T(0)>(target: List<T>, l: List<T>, x: T, granted: bool) returns (ok: bool)
    requires Beside(target, l)
    modifies target, target.last, target.last.elts
    ensures Beside(target, l) && unchanged(l) && SameOrNewLast(target)
    ensures target.Contents() == if ok then old(target.Contents()) + [x] else old(target.Contents())
    ensures granted ==> ok
  {
    ok := PushEnd(target, x, granted);
    assert l.Valid();
  }

  lemma TakeSnoc<T>(t: seq<T>, s: seq<T>, n: nat)
    requires n < |s|
    ensures t + s[..n] + [s[n]] == t + s[..n + 1]
  {
  }

  /** Part way through a merge: the first n elements of s have gone behind t. */
  ghost predicate Merged<T(0)>(target: List<T>, l: List<T>, iter: ListIterator<T>, k: nat, c: nat, t: seq<T>,
                           s: seq<T>, n: nat)
    reads target, target.parts, target.last, Arrays(target.parts), l, l.parts, Arrays(l.parts)
  {
    && Beside(target, l) && l.Contents() == s
    && At(iter, l, k, c) && InRange(l.chunks, k, c) && n == |Before(l.chunks, k, c)| <= |s|
    && target.Contents() == t + s[..n]
  }

  /** One turn of a merge: visit one element and push it. */
  method MergeTurn<T(0)>(target: List<T>, l: List<T>, iter: ListIterator<T>, granted: bool,
                         ghost k: nat, ghost c: nat, ghost t: seq<T>, ghost s: seq<T>, ghost n: nat)
    returns (ok: bool, next: ListIterator<T>, ghost k': nat, ghost c': nat)
    requires Merged(target, l, iter, k, c, t, s, n) && iter.More()
    modifies target, target.last, target.last.elts
    ensures ok ==> Merged(target, l, next, k', c', t, s, n + 1)
    ensures !ok ==> Beside(target, l) && target.Contents() == t + s[..n]
    ensures SameOrNewLast(target) && unchanged(l)
    ensures granted ==> ok
  {
    var x;
    x, next, k', c' := Turn(l, iter, k, c);
    TakeSnoc(t, s, n);
    ok := PushBeside(target, l, x, granted);
  }

  /** The iterator of an empty list is over from the start. */
  lemma EmptyIsOver<T(0)>(l: List<T>)
    requires l.Valid()
    ensures l.Contents() == [] <==> !Begin(l).More()
  {
    if Begin(l).More() {
      assert l.chunks[0] != [];
    } else {
      assert |l.chunks| == 1 && l.chunks[0] == [];
      ConcatOne(l.chunks);
    }
  }

  /** The loop of a merge, from the first element on. */
  method MergeFrom<T(0)>(target: List<T>, l: List<T>, first: ListIterator<T>, granted: nat -> bool)
    returns (ok: bool, n: nat)
    requires Beside(target, l) && first == Begin(l)
    modifies target, target.last, target.last.elts
    ensures target.Valid() && l.Valid() && unchanged(l)
    ensures n <= |l.Contents()| && target.Contents() == old(target.Contents()) + l.Contents()[..n]
    ensures ok ==> n == |l.Contents()|
    ensures (forall i: nat :: granted(i)) ==> ok
  {
    ghost var s, t := l.Contents(), target.Contents();
    var iter := first;
    ghost var k: nat, c: nat := 0, 0;
    n := 0;
    AtBegin(l);
    while iter.More()
      invariant Merged(target, l, iter, k, c, t, s, n) && SameOrNewLast(target) && unchanged(l)
      decreases |s| - n
    {
      ok, iter, k, c := MergeTurn(target, l, iter, granted(n), k, c, t, s, n);
      if !ok {
        return;
      }
      n := n + 1;
    }
    AtEnd(l, iter, k, c);
    ok := true;
  }

  /**
   NgxList::merge: visit with a push. A list that is not empty must not use the
   last part of the one it is merged into. `granted` tells which pushes find
   memory; the first that does not throws.
   */
  method Merge<T(0)>(target: List<T>, l: List<T>, granted: nat -> bool) returns (ok: bool, n: nat)
    requires target.Valid() && l.Valid() && (l.Contents() != [] ==> Beside(target, l))
    modifies target, target.last, target.last.elts
    ensures target.Valid() && l.Valid() && unchanged(l)
    ensures n <= |l.Contents()| && target.Contents() == old(target.Contents()) + l.Contents()[..n]
    ensures ok ==> n == |l.Contents()|
    ensures (forall i: nat :: granted(i)) ==> ok
  {
    EmptyIsOver(l);
    var iter := Begin(l);
    if !iter.More() {
      return true, 0;
    }
    ok, n := MergeFrom(target, l, iter, granted);
  }

  lemma ConcatUpdate<T>(chunks: seq<seq<T>>, k: nat, c: nat, x: T)
    requires k < |chunks| && c < |chunks[k]|
    ensures |Before(chunks, k, c)| < |Concat(chunks)|
    ensures Concat(chunks[k := chunks[k][c := x]]) == Concat(chunks)[|Before(chunks, k, c)| := x]
  {
    var now := chunks[k := chunks[k][c := x]];
    assert chunks == chunks[..k] + chunks[k..] && now == chunks[..k] + now[k..];
    ConcatAppend(chunks[..k], chunks[k..]);
    ConcatAppend(chunks[..k], now[k..]);
    assert now[k..][1..] == chunks[k..][1..];
    assert Concat(now[k..]) == chunks[k][c := x] + Concat(chunks[k..][1..]);
    assert Concat(chunks[k..]) == chunks[k] + Concat(chunks[k..][1..]);
  }

  /** Assignment through the reference an iterator gives out: one slot of one part. */
  method AssignSlot<T(0)>(l: List<T>, iter: ListIterator<T>, x: T, ghost k: nat, ghost c: nat)
    requires l.Valid() && At(iter, l, k, c) && k < |l.chunks| && c < |l.chunks[k]|
    modifies l`chunks, l.parts[k].elts
    ensures l.Valid() && l.chunks == old(l.chunks)[k := old(l.chunks)[k][c := x]]
  {
    iter.data[iter.count] := x;
    l.chunks := l.chunks[k := l.chunks[k][c := x]];
  }

  /** The same, by place in the list. */
  method Assign<T(0)>(l: List<T>, iter: ListIterator<T>, x: T, ghost k: nat, ghost c: nat)
    requires l.Valid() && At(iter, l, k, c) && iter.More()
    modifies l`chunks, l.parts[k].elts
    ensures l.Valid() && l.parts == old(l.parts) && InRange(old(l.chunks), k, c)
    ensures var n := |Before(old(l.chunks), k, c)|;
            n < |old(l.Contents())| && l.Contents() == old(l.Contents())[n := x]
  {
    ConcatUpdate(l.chunks, k, c, x);
    AssignSlot(l, iter, x, k, c);
  }

  lemma GrownLast<T>(was: seq<seq<T>>, x: T)
    requires was != []
    ensures var k := |was| - 1; Concat(was[k := was[k] + [x]]) == Concat(was) + [x]
  {
    var k := |was| - 1;
    var init, c := was[..k], was[k];
    ConcatSnoc(init, c);
    ConcatSnoc(init, c + [x]);
    assert was == init + [c];
    assert was[k := c + [x]] == init + [c + [x]];
    assert Concat(init) + (c + [x]) == Concat(init) + c + [x];
  }
}
