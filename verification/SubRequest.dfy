/**
 The header list of a subrequest (NgxSubRequest::create): nginx copies the parent's
 list structure by value, and a list whose only part is its own first one points
 into itself.
 */
module SubRequest {
  import opened Lists

  /** What a visit of the list sees: the parts reached from its first one and what they hold. */
  ghost predicate Visible<T(0)>(l: List<T>, ps: seq<Part<T>>, cs: seq<seq<T>>)
    reads l, ps, Arrays(ps)
  {
    Linked(ps) && ps[0] == l.part && Holds(ps, l.nalloc, cs)
  }

  lemma CopyVisible<T(0)>(parent: List<T>, sub: List<T>, ps: seq<Part<T>>, cs: seq<seq<T>>)
    requires Visible(parent, ps, cs) && sub.nalloc == parent.nalloc && sub.part !in ps
    requires sub.part.elts == ps[0].elts && sub.part.nelts == ps[0].nelts && sub.part.next == ps[0].next
    ensures Visible(sub, [sub.part] + ps[1..], cs)
  {
    var qs := [sub.part] + ps[1..];
    assert forall i :: 0 < i < |qs| ==> qs[i] == ps[i];
    assert forall i :: 0 <= i < |qs| ==> qs[i].elts == ps[i].elts;
  }

  /**
   NgxSubRequest::create, when ngx_http_subrequest returns `rc`; None stands for
   the exception. What the subrequest's list shows is what the parent's shows;
   its last pointer is right exactly when the parent's was.
   */
  method Create<T(0)>(parent: List<T>, rc: int, ghost ps: seq<Part<T>>, ghost cs: seq<seq<T>>)
    returns (sub: List?<T>)
    requires Visible(parent, ps, cs)
    ensures sub == null <==> rc != 0
    ensures sub != null ==>
              && fresh(sub) && fresh(sub.part) && sub.nalloc == parent.nalloc
              && sub.part.elts == parent.part.elts && sub.part.nelts == parent.part.nelts
              && sub.parts == [sub.part] + ps[1..] && sub.chunks == cs && Visible(sub, sub.parts, cs)
              && (sub.last == sub.parts[|ps| - 1] <==> parent.last == ps[|ps| - 1])
  {
    if rc != 0 {
      return null;
    }
    var sr := new List.CopyOf(parent, ps, cs);
    if parent.last == parent.part {
      sr.last := sr.part;
    }
    CopyVisible(parent, sr, ps, cs);
    return sr;
  }

  /** A parent with a single part, and a subrequest whose first part shares the parent's room but not its count. */
  ghost predicate Twins<T(0)>(parent: List<T>, sub: List<T>)
    reads parent, parent.parts, Arrays(parent.parts), sub, sub.parts, Arrays(sub.parts)
  {
    && parent.Valid() && sub.Valid() && parent != sub
    && parent.parts == [parent.part] && parent.part !in sub.parts
    && sub.part.elts == parent.part.elts && sub.nalloc == parent.nalloc && parent.part.nelts <= sub.part.nelts
  }

  /** A push, and what it leaves of the first part. */
  method PushKeepsFirst<T(0)>(l: List<T>, x: T, granted: bool) returns (ok: bool)
    requires l.Valid()
    modifies l`last, l`parts, l`chunks, l.last`nelts, l.last`next, l.last.elts
    ensures l.Valid() && l.Contents() == if ok then old(l.Contents()) + [x] else old(l.Contents())
    ensures ok <==> old(l.last.nelts) < l.nalloc || granted
    ensures SameOrNewLast(l) && (l.parts == old(l.parts) || (fresh(l.last) && l.parts == old(l.parts) + [l.last]))
    ensures old(l.part.nelts) <= l.part.nelts
    ensures forall i :: 0 <= i < old(l.part.nelts) && i < l.nalloc ==> l.part.elts[i] == old(l.part.elts[i])
  {
    assert l.part == l.parts[0] && l.part.elts.Length == l.nalloc;
    assert l.last != l.part ==> l.last.elts != l.part.elts;
    ok := l.Push(x, granted);
  }

  /** The push of PushSingle, and what it leaves of the shared room. */
  method PushOwn<T(0)>(parent: List<T>, sub: List<T>, x: T, granted: bool) returns (ok: bool)
    requires Twins(parent, sub)
    modifies sub`last, sub`parts, sub`chunks, sub.last`nelts, sub.last`next, sub.last.elts
    ensures sub.Valid() && sub.Contents() == if ok then old(sub.Contents()) + [x] else old(sub.Contents())
    ensures ok <==> old(sub.last.nelts) < sub.nalloc || granted
    ensures SameOrNewLast(sub) && parent.part !in sub.parts && parent.part.nelts <= sub.part.nelts
    ensures parent.part.elts[..parent.part.nelts] == old(parent.part.elts[..parent.part.nelts])
  {
    assert sub.last in sub.parts && parent.part.nelts <= parent.nalloc;
    ok := PushKeepsFirst(sub, x, granted);
  }

  /** With a single-part parent, a push on the subrequest is seen by the subrequest alone, and again next time. */
  method PushSingle<T(0)>(parent: List<T>, sub: List<T>, x: T, granted: bool) returns (ok: bool)
    requires Twins(parent, sub)
    modifies sub`last, sub`parts, sub`chunks, sub.last`nelts, sub.last`next, sub.last.elts
    ensures Twins(parent, sub)
    ensures unchanged(parent) && unchanged(parent.part)
    ensures sub.Contents() == if ok then old(sub.Contents()) + [x] else old(sub.Contents())
    ensures ok <==> old(sub.last.nelts) < sub.nalloc || granted
    ensures SameOrNewLast(sub)
  {
    assert sub.last in sub.parts;
    ok := PushOwn(parent, sub, x, granted);
  }

  /** Any number of pushes on the subrequest of a single-part parent. */
  method PushMany<T(0)>(parent: List<T>, sub: List<T>, xs: seq<T>, granted: nat -> bool) returns (n: nat)
    requires Twins(parent, sub)
    modifies sub, sub.last, sub.last.elts
    ensures Twins(parent, sub) && unchanged(parent) && unchanged(parent.part)
    ensures n <= |xs| && sub.Contents() == old(sub.Contents()) + xs[..n]
    ensures (forall i: nat :: granted(i)) ==> n == |xs|
  {
    n := 0;
    ghost var were := sub.Contents();
    while n < |xs|
      invariant n <= |xs| && Twins(parent, sub) && unchanged(parent) && unchanged(parent.part)
      invariant sub.Contents() == were + xs[..n]
      invariant SameOrNewLast(sub)
    {
      var ok := PushSingle(parent, sub, xs[n], granted(n));
      if !ok {
        return;
      }
      TakeSnoc(were, xs, n);
      n := n + 1;
    }
  }

  /**
   `create`, then any number of pushes on the subrequest of a parent whose list is
   a single part: the parent's list is what it was, although the room is shared.
   */
  method CreateAndPush<T(0)>(parent: List<T>, rc: int, xs: seq<T>, granted: nat -> bool)
    returns (sub: List?<T>, n: nat)
    requires parent.Valid() && |parent.parts| == 1
    modifies parent.part.elts
    ensures parent.Valid() && parent.Contents() == old(parent.Contents())
    ensures sub == null <==> rc != 0
    ensures sub != null ==>
              && fresh(sub) && Twins(parent, sub)
              && n <= |xs| && sub.Contents() == parent.Contents() + xs[..n]
              && ((forall i: nat :: granted(i)) ==> n == |xs|)
  {
    n := 0;
    sub := Create(parent, rc, parent.parts, parent.chunks);
    if sub != null {
      n := PushMany(parent, sub, xs, granted);
    }
  }

  /** The subrequest of a parent with more parts shares all but the first, the last one's count included. */
  ghost predicate Siblings<T(0)>(parent: List<T>, sub: List<T>)
    reads parent, parent.parts, Arrays(parent.parts), sub, sub.parts, Arrays(sub.parts)
  {
    && parent.Valid() && sub.Valid() && parent != sub && sub.part != parent.part
    && |parent.parts| > 1 && sub.parts == [sub.part] + parent.parts[1..] && sub.chunks == parent.chunks
    && sub.part.elts == parent.part.elts && sub.nalloc == parent.nalloc
  }

  /** The push of PushShared, and what it leaves of the two first parts. */
  method PushTail<T(0)>(parent: List<T>, sub: List<T>, x: T, granted: bool) returns (ok: bool)
    requires sub.Valid() && parent != sub && sub.last != sub.part && sub.last != parent.part
    modifies sub`last, sub`parts, sub`chunks, sub.last`nelts, sub.last`next, sub.last.elts
    ensures ok <==> old(sub.last.nelts) < sub.nalloc || granted
    ensures sub.Valid() && sub.Contents() == if ok then old(sub.Contents()) + [x] else old(sub.Contents())
    ensures sub.parts == if ok && old(sub.last.nelts) == sub.nalloc then old(sub.parts) + [sub.last] else old(sub.parts)
    ensures sub.last == old(sub.last) <==> !ok || old(sub.last.nelts) < sub.nalloc
    ensures sub.last == old(sub.last) || fresh(sub.last)
    ensures unchanged(parent) && unchanged(parent.part) && unchanged(sub.part)
  {
    ok := sub.Push(x, granted);
  }

  /**
   With a parent of more than one part, a push on the fresh subrequest is seen by
   the parent too; when it needed a new part, the parent's own last pointer is
   left on the one before.
   */
  method PushShared<T(0)>(parent: List<T>, sub: List<T>, x: T, granted: bool) returns (ok: bool,
                      ghost ps: seq<Part<T>>, ghost cs: seq<seq<T>>)
    requires Siblings(parent, sub)
    modifies sub`last, sub`parts, sub`chunks, sub.last`nelts, sub.last`next, sub.last.elts
    ensures ok <==> old(sub.last.nelts) < sub.nalloc || granted
    ensures sub.Valid() && sub.Contents() == if ok then old(sub.Contents()) + [x] else old(sub.Contents())
    ensures Visible(parent, ps, cs) && Concat(cs) == sub.Contents()
    ensures unchanged(parent)
    ensures parent.last == ps[|ps| - 1] <==> !ok || old(sub.last.nelts) < sub.nalloc
  {
    SiblingsApart(parent, sub);
    ok := PushTail(parent, sub, x, granted);
    assert parent.part !in sub.parts && parent.part.next == sub.parts[1];
    ps, cs := [parent.part] + sub.parts[1..], sub.chunks;
    VisibleThrough(parent, sub);
  }

  /** `create` on a parent of more parts, then a push on the subrequest: the parent sees the element too. */
  method CreateAndPushShared<T(0)>(parent: List<T>, rc: int, x: T, granted: bool)
    returns (sub: List?<T>, ok: bool, ghost ps: seq<Part<T>>, ghost cs: seq<seq<T>>)
    requires parent.Valid() && |parent.parts| > 1
    modifies parent.last`nelts, parent.last`next, parent.last.elts
    ensures sub == null <==> rc != 0
    ensures unchanged(parent) && Visible(parent, ps, cs)
    ensures sub == null ==> Concat(cs) == old(parent.Contents())
    ensures sub != null ==>
              && fresh(sub) && sub.Valid() && Concat(cs) == sub.Contents()
              && (ok <==> old(parent.last.nelts) < parent.nalloc || granted)
              && sub.Contents() == (if ok then old(parent.Contents()) + [x] else old(parent.Contents()))
              && (parent.last == ps[|ps| - 1] <==> !ok || old(parent.last.nelts) < parent.nalloc)
  {
    ok, ps, cs := false, parent.parts, parent.chunks;
    sub := Create(parent, rc, ps, cs);
    if sub != null {
      ok, ps, cs := PushShared(parent, sub, x, granted);
    }
  }

  lemma SiblingsApart<T(0)>(parent: List<T>, sub: List<T>)
    requires Siblings(parent, sub)
    ensures parent.part !in sub.parts && parent.part.nelts == sub.part.nelts && parent.part.next == sub.parts[1]
    ensures parent.last == sub.last && |sub.parts| > 1
  {
    assert forall i :: 0 < i < |sub.parts| ==> sub.parts[i] == parent.parts[i];
    assert parent.part.nelts == |parent.chunks[0]| == sub.part.nelts;
  }

  lemma VisibleThrough<T(0)>(parent: List<T>, sub: List<T>)
    requires sub.Valid() && parent.nalloc == sub.nalloc && |sub.parts| > 1 && parent.part !in sub.parts
    requires parent.part.elts == sub.part.elts && parent.part.nelts == sub.part.nelts
            && parent.part.next == sub.parts[1]
    ensures var ps := [parent.part] + sub.parts[1..];
            Visible(parent, ps, sub.chunks) && ps[|ps| - 1] == sub.last
  {
    var ps := [parent.part] + sub.parts[1..];
    assert forall i :: 0 < i < |ps| ==> ps[i] == sub.parts[i];
    assert forall i {:trigger ps[i].next} :: 0 < i < |ps| - 1 ==> ps[i].next == sub.parts[i].next;
  }

  /** The push of PushParent, and what it writes of the shared room. */
  method PushFirst<T(0)>(parent: List<T>, sub: List<T>, y: T, granted: bool) returns (ok: bool)
    requires Twins(parent, sub)
    modifies parent`last, parent`parts, parent`chunks, parent.part`nelts, parent.part`next, parent.part.elts
    ensures ok <==> old(parent.part.nelts) < parent.nalloc || granted
    ensures parent.Valid() && parent.Contents() == if ok then old(parent.Contents()) + [y] else old(parent.Contents())
    ensures forall i :: 0 <= i < sub.nalloc && i != old(parent.part.nelts) ==> sub.part.elts[i] == old(sub.part.elts[i])
    ensures ok && old(parent.part.nelts) < parent.nalloc ==> sub.part.elts[old(parent.part.nelts)] == y
  {
    ghost var n := parent.part.nelts;
    assert parent.last == parent.part;
    ConcatOne(parent.chunks);
    ok := parent.Push(y, granted);
    if n < parent.nalloc {
      ConcatOne(parent.chunks);
      assert parent.part.elts[..parent.part.nelts] == parent.chunks[0];
      assert parent.chunks[0][n] == y;
    }
  }

  /** What the subrequest's parts hold once its neighbour has written y at slot n. */
  function Overwritten<T>(cs: seq<seq<T>>, n: nat, y: T): seq<seq<T>> {
    if cs != [] && n < |cs[0]| then cs[0 := cs[0][n := y]] else cs
  }

  lemma OverwrittenSizes<T>(cs: seq<seq<T>>, n: nat, y: T)
    ensures |Overwritten(cs, n, y)| == |cs|
    ensures forall i :: 0 <= i < |cs| ==> |Overwritten(cs, n, y)[i]| == |cs[i]|
  {
  }

  lemma OverwrittenIs<T>(cs: seq<seq<T>>, n: nat, y: T)
    requires cs != [] && n <= |cs[0]|
    ensures n < |cs[0]| ==> n < |Concat(cs)| && Concat(Overwritten(cs, n, y)) == Concat(cs)[n := y]
    ensures Concat(Overwritten(cs, n, y)) == Concat(cs) <==> n == |cs[0]| || y == Concat(cs)[n]
  {
    if n < |cs[0]| {
      assert cs[..0] == [];
      ConcatUpdate(cs, 0, n, y);
      SlotIs(cs, 0, n);
      assert Concat(cs)[n := y][n] == y;
    }
  }

  lemma FirstHolds<T>(parts: seq<Part<T>>, nalloc: nat, cs: seq<seq<T>>, n: nat, y: T)
    requires parts != [] && |cs| == |parts|
    requires forall i :: 0 <= i < |parts| ==> parts[i].elts.Length == nalloc && |cs[i]| == parts[i].nelts <= nalloc
    requires forall i, j :: 0 <= i < j < |parts| ==> parts[i].elts != parts[j].elts
    requires forall i :: 0 < i < |parts| ==> parts[i].elts[..parts[i].nelts] == cs[i]
    requires forall i :: 0 <= i < parts[0].nelts ==> parts[0].elts[i] == if i == n then y else cs[0][i]
    ensures Holds(parts, nalloc, Overwritten(cs, n, y))
  {
  }

  /** The same, on the parts. */
  method WriteFirst<T(0)>(parent: List<T>, sub: List<T>, y: T, granted: bool) returns (ok: bool)
    requires Twins(parent, sub)
    modifies parent`last, parent`parts, parent`chunks, parent.part`nelts, parent.part`next, parent.part.elts
    ensures ok <==> old(parent.part.nelts) < parent.nalloc || granted
    ensures parent.Valid() && parent.Contents() == if ok then old(parent.Contents()) + [y] else old(parent.Contents())
    ensures Visible(sub, sub.parts, Overwritten(sub.chunks, old(parent.part.nelts), y))
  {
    ghost var n := parent.part.nelts;
    assert sub.part == sub.parts[0];
    assert forall i :: 0 < i < |sub.parts| ==> sub.parts[i].elts != parent.part.elts;
    assert forall i :: 0 <= i < sub.part.nelts ==> sub.part.elts[i] == sub.part.elts[..sub.part.nelts][i];
    ok := PushFirst(parent, sub, y, granted);
    FirstHolds(sub.parts, sub.nalloc, sub.chunks, n, y);
  }

  /** The push of PushParent, on the two lists. */
  method PushOver<T(0)>(parent: List<T>, sub: List<T>, y: T, granted: bool) returns (ok: bool)
    requires Twins(parent, sub)
    modifies parent`last, parent`parts, parent`chunks, parent.part`nelts, parent.part`next, parent.part.elts
    modifies sub`chunks
    ensures ok <==> old(parent.part.nelts) < parent.nalloc || granted
    ensures parent.Valid() && parent.Contents() == if ok then old(parent.Contents()) + [y] else old(parent.Contents())
    ensures sub.Valid() && sub.chunks == Overwritten(old(sub.chunks), old(parent.part.nelts), y)
  {
    ghost var n := parent.part.nelts;
    OverwrittenSizes(sub.chunks, n, y);
    ok := WriteFirst(parent, sub, y, granted);
    sub.Adopt(Overwritten(sub.chunks, n, y));
  }

  /**
   A push on the single-part parent takes the slot of the shared room that the
   parent's count says is free. Where the subrequest has pushed, its element there
   is overwritten: its contents are left alone exactly when it has not pushed, or
   the same element is pushed again.
   */
  method PushParent<T(0)>(parent: List<T>, sub: List<T>, y: T, granted: bool) returns (ok: bool)
    requires Twins(parent, sub)
    modifies parent`last, parent`parts, parent`chunks, parent.part`nelts, parent.part`next, parent.part.elts
    modifies sub`chunks
    ensures ok <==> old(parent.part.nelts) < parent.nalloc || granted
    ensures parent.Valid() && parent.Contents() == if ok then old(parent.Contents()) + [y] else old(parent.Contents())
    ensures sub.Valid() && sub.parts == old(sub.parts) && old(parent.part.nelts) <= old(sub.part.nelts)
    ensures old(parent.part.nelts) < old(sub.part.nelts) ==>
              var n := old(parent.part.nelts);
              n < |old(sub.Contents())| && ok && sub.Contents() == old(sub.Contents())[n := y]
    ensures sub.Contents() == old(sub.Contents()) <==>
            old(parent.part.nelts) == old(sub.part.nelts) || y == old(sub.Contents())[old(parent.part.nelts)]
  {
    ghost var n, cs := parent.part.nelts, sub.chunks;
    assert n <= |cs[0]| == sub.part.nelts <= sub.nalloc;
    OverwrittenIs(cs, n, y);
    ok := PushOver(parent, sub, y, granted);
  }
}
