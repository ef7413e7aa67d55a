/**
 Chains of buffers (ngx_chain_t behind NgxChain and NgxChainNode) and the pool
 that hands out their links and takes them back.

 A chain is described by the ghost sequence of its links, in order.
 */
module Chains {
  import opened Buffers

  class Link {
    var buf: Buf?
    var next: Link?

    constructor ()
      ensures buf == null && next == null
    {
      buf, next := null, null;
    }
  }

  ghost predicate IsChain(head: Link?, s: seq<Link>)
    reads s
  {
    && (s == [] ==> head == null)
    && (s != [] ==> head == s[0] && s[|s| - 1].next == null)
    && (forall i {:trigger s[i].next} :: 0 <= i < |s| - 1 ==> s[i].next == s[i + 1])
    && (forall i, j :: 0 <= i < j < |s| ==> s[i] != s[j])
  }

  ghost function Bufs(s: seq<Link>): set<Buf?>
    reads s`buf
  {
    set l: Link | l in s :: l.buf
  }

  /** Every link carries a buffer; two links may carry the same one. */
  ghost predicate Filled(s: seq<Link>)
    reads s`buf
  {
    forall i :: 0 <= i < |s| ==> s[i].buf != null
  }

  /** The chain as the next filter sees it. */
  ghost function Pieces(s: seq<Link>): (r: seq<Piece>)
    requires Filled(s)
    reads s, Bufs(s)
    ensures |r| == |s|
    ensures forall i :: 0 <= i < |s| ==> r[i] == s[i].buf.ToPiece()
  {
    seq(|s|, i requires 0 <= i < |s| && Filled(s) reads s, Bufs(s) => s[i].buf.ToPiece())
  }

  lemma PiecesAre(t: seq<Link>, ps: seq<Piece>)
    requires Filled(t) && |t| == |ps|
    requires forall i :: 0 <= i < |t| ==> t[i].buf.ToPiece() == ps[i]
    ensures Pieces(t) == ps
  {
  }

  function Flatten(ps: seq<Piece>): seq<Byte> {
    if ps == [] then [] else ps[0].bytes + Flatten(ps[1..])
  }

  lemma FlattenConcat(ps: seq<Piece>, qs: seq<Piece>)
    ensures Flatten(ps + qs) == Flatten(ps) + Flatten(qs)
  {
    if ps == [] {
      assert ps + qs == qs;
    } else {
      assert (ps + qs)[1..] == ps[1..] + qs;
      FlattenConcat(ps[1..], qs);
    }
  }

  lemma FlattenSnoc(ps: seq<Piece>, p: Piece)
    ensures Flatten(ps + [p]) == Flatten(ps) + p.bytes
  {
    FlattenConcat(ps, [p]);
    assert Flatten([p]) == p.bytes;
  }

  function Reverse<T>(s: seq<T>): (r: seq<T>)
    ensures |r| == |s|
  {
    if s == [] then [] else Reverse(s[1..]) + [s[0]]
  }

  lemma ReverseSnoc<T>(s: seq<T>, x: T)
    ensures Reverse(s + [x]) == [x] + Reverse(s)
  {
    if s != [] {
      assert (s + [x])[1..] == s[1..] + [x];
      ReverseSnoc(s[1..], x);
    }
  }

  /** The pool's answers once k requests have been made. */
  function After(grants: seq<bool>, k: nat): seq<bool> {
    if k <= |grants| then grants[k..] else []
  }

  /** The first k requests are granted. */
  predicate AllGranted(grants: seq<bool>, k: nat) {
    forall i :: 0 <= i < k && i < |grants| ==> grants[i]
  }

  predicate AllTrue(grants: seq<bool>) {
    forall i :: 0 <= i < |grants| ==> grants[i]
  }

  lemma GrantedFurther(grants: seq<bool>, k: nat, more: nat)
    requires AllGranted(grants, k)
    ensures AllGranted(After(grants, k), more) <==> AllGranted(grants, k + more)
    ensures After(After(grants, k), more) == After(grants, k + more)
  {
    if AllGranted(After(grants, k), more) {
      forall i | 0 <= i < k + more && i < |grants|
        ensures grants[i]
      {
        assert i >= k ==> After(grants, k)[i - k] == grants[i];
      }
    }
  }

  /**
   ngx_pool_t. `grants` tells how the system answers the coming requests for
   memory, in order; once it runs out every request is granted.
   */
  class Pool {
    var chain: Link?
    var grants: seq<bool>
    ghost var free: seq<Link>

    constructor (answers: seq<bool>)
      ensures Valid() && free == [] && grants == answers
    {
      chain, grants, free := null, answers, [];
    }

    ghost predicate Valid()
      reads this`chain, this`free, free
    {
      IsChain(chain, free)
    }

    predicate Granted(i: nat)
      reads this
    {
      |grants| <= i || grants[i]
    }

    /** ngx_palloc: only whether the memory was there. */
    method Palloc() returns (ok: bool)
      modifies this`grants
      ensures ok == old(Granted(0))
      ensures grants == After(old(grants), 1)
    {
      ok := Granted(0);
      if |grants| > 0 {
        grants := grants[1..];
      }
    }

    /**
     NgxPool::buffer; null stands for the exception. With a size the buffer owns
     that much memory, none of it filled, which is one request more.
     */
    method Buffer(n: nat) returns (b: Buf?)
      modifies this`grants
      ensures b != null <==> AllGranted(old(grants), if n == 0 then 1 else 2)
      ensures n == 0 || b != null ==> grants == After(old(grants), if n == 0 then 1 else 2)
      ensures b != null ==>
                && fresh(b) && b.bytes == [] && !b.lastBuf && !b.lastInChain
                && (b.memory <==> n > 0) && b.room == n
    {
      var ok := Palloc();
      if !ok {
        return null;
      }
      b := new Buf();
      if n > 0 {
        ok := Palloc();
        if !ok {
          return null;
        }
        b.memory, b.room := true, n;
      }
    }

    /** NgxPool::chain over ngx_alloc_chain_link: reuse the first free link, else ask for memory. */
    method Chain() returns (l: Link?)
      requires Valid()
      modifies this`chain, this`grants, this`free, free`next
      ensures Valid()
      ensures l == null <==> old(free) == [] && !old(Granted(0))
      ensures l == null ==> free == []
      ensures l != null ==> l.next == null && l !in free
      ensures old(free) == [] ==>
        && free == []
        && (l != null ==> fresh(l))
        && grants == After(old(grants), 1)
      ensures old(free) != [] ==> l == old(free[0]) && free == old(free[1..]) && grants == old(grants)
    {
      if chain != null {
        l := chain;
        chain := l.next;
        free := free[1..];
      } else {
        var ok := Palloc();
        if !ok {
          return null;
        }
        l := new Link();
      }
      l.next := null;
    }

    /** ngx_free_chain: overwrites the link's next. */
    method FreeLink(l: Link)
      requires Valid() && l !in free
      modifies this`chain, this`free, l`next
      ensures Valid() && free == [l] + old(free)
    {
      l.next := chain;
      chain := l;
      free := [l] + free;
    }
  }

  /** NgxChain::size */
  method Size(head: Link?, ghost s: seq<Link>) returns (len: nat)
    requires IsChain(head, s) && Filled(s)
    ensures len == |Flatten(Pieces(s))|
  {
    len := 0;
    var c := head;
    ghost var i := 0;
    while c != null
      invariant 0 <= i <= |s| && c == (if i < |s| then s[i] else null)
      invariant len == |Flatten(Pieces(s)[..i])|
      decreases |s| - i
    {
      assert Pieces(s)[..i + 1] == Pieces(s)[..i] + [s[i].buf.ToPiece()];
      FlattenSnoc(Pieces(s)[..i], s[i].buf.ToPiece());
      len := len + c.buf.Size();
      c := c.next;
      i := i + 1;
    }
    assert Pieces(s)[..i] == Pieces(s);
  }

  /** ngx_copy */
  method CopyBytes(dst: array<Byte>, at: nat, bytes: seq<Byte>) returns (end: nat)
    requires at + |bytes| <= dst.Length
    modifies dst
    ensures end == at + |bytes| && dst[..] == old(dst[..at]) + bytes + old(dst[end..])
  {
    forall i | 0 <= i < |bytes| {
      dst[at + i] := bytes[i];
    }
    end := at + |bytes|;
  }

  /** How a loop over the rest of a chain accounts for its next buffer. */
  lemma FlattenFrom(ps: seq<Piece>, i: nat, before: seq<Byte>)
    requires i < |ps| && before + Flatten(ps[i..]) == Flatten(ps)
    ensures (before + ps[i].bytes) + Flatten(ps[i + 1..]) == Flatten(ps)
  {
    assert ps[i..][1..] == ps[i + 1..];
    assert before + (ps[i].bytes + Flatten(ps[i + 1..])) == (before + ps[i].bytes) + Flatten(ps[i + 1..]);
  }

  /** Part way through a copy: the first i pieces are at the destination. */
  ghost predicate Copied(ps: seq<Piece>, i: nat, was: seq<Byte>, at: nat, p: nat, now: seq<Byte>) {
    && i <= |ps| && p <= |was| && at <= p
    && at + |Flatten(ps)| <= |was| && |now| == |was|
    && now[at..p] + Flatten(ps[i..]) == Flatten(ps) && now[..at] == was[..at] && now[p..] == was[p..]
  }

  /** One turn of a copy. */
  method CopyTurn(dst: array<Byte>, p: nat, b: Buf, ghost ps: seq<Piece>, ghost i: nat, ghost was: seq<Byte>,
                  ghost at: nat) returns (p': nat)
    requires i < |ps| && b.bytes == ps[i].bytes && Copied(ps, i, was, at, p, dst[..])
    modifies dst
    ensures Copied(ps, i + 1, was, at, p', dst[..])
  {
    ghost var before := dst[at..p];
    FlattenFrom(ps, i, before);
    p' := CopyBytes(dst, p, b.bytes);
    assert dst[at..p'] == before + b.bytes;
  }

  /** NgxChain::copy, for buffers in memory: the destination from `at` on receives the chain's bytes. */
  method Copy(head: Link?, ghost s: seq<Link>, dst: array<Byte>, at: nat)
    requires IsChain(head, s) && Filled(s)
    requires forall l :: l in s ==> l.buf.memory
    requires at + |Flatten(Pieces(s))| <= dst.Length
    modifies dst
    ensures dst[..] == old(dst[..at]) + Flatten(Pieces(s)) + old(dst[at + |Flatten(Pieces(s))|..])
  {
    var c, p := head, at;
    ghost var i, was, ps := 0, dst[..], Pieces(s);
    while c != null
      invariant 0 <= i <= |s| && c == (if i < |s| then s[i] else null)
      invariant Pieces(s) == ps && Copied(ps, i, was, at, p, dst[..])
      decreases |s| - i
    {
      p := CopyTurn(dst, p, c.buf, ps, i, was, at);
      c := c.next;
      i := i + 1;
    }
    CopiedAll(ps, was, at, p, dst[..]);
  }

  lemma CopiedAll(ps: seq<Piece>, was: seq<Byte>, at: nat, p: nat, now: seq<Byte>)
    requires Copied(ps, |ps|, was, at, p, now)
    ensures now == was[..at] + Flatten(ps) + was[at + |Flatten(ps)|..]
  {
    assert now[at..p] + [] == now[at..p];
    assert now == now[..at] + now[at..p] + now[p..];
  }

  /** NgxChain::tail, for a chain that is not empty. */
  method Tail(head: Link, ghost s: seq<Link>) returns (p: Link)
    requires IsChain(head, s)
    ensures p == s[|s| - 1]
  {
    p := head;
    ghost var i := 0;
    while p.next != null
      invariant 0 <= i < |s| && p == s[i]
      decreases |s| - i
    {
      p := p.next;
      i := i + 1;
    }
  }

  /** NgxChain::append */
  method Append(head: Link, ghost s: seq<Link>, more: Link?, ghost t: seq<Link>)
    requires IsChain(head, s) && IsChain(more, t)
    requires forall l :: l in s ==> l !in t
    modifies s`next
    ensures IsChain(head, s + t)
    ensures forall l :: l in s ==> l.buf == old(l.buf)
  {
    var p := Tail(head, s);
    p.next := more;
    var u := s + t;
    assert forall i :: 0 <= i < |s| - 1 ==> s[i].next == s[i + 1];
    forall i | 0 <= i < |u| - 1
      ensures u[i].next == u[i + 1]
    {
      if i < |s| - 1 {
        assert s[i].next == s[i + 1];
      } else if i > |s| - 1 {
        assert t[i - |s|].next == t[i - |s| + 1];
      }
    }
    assert t == [] ==> u[|u| - 1] == p;
    assert t != [] ==> t[|t| - 1] in t && u[|u| - 1] == t[|t| - 1];
    forall i, j | 0 <= i < j < |u|
      ensures u[i] != u[j]
    {
      if i < |s| <= j {
        assert s[i] !in t && t[j - |s|] in t;
      }
    }
  }

  /** A chain whose links carry these buffers. */
  ghost predicate Carries(s: seq<Link>, bufs: seq<Buf>)
    reads s`buf
  {
    |s| == |bufs| && forall i :: 0 <= i < |s| ==> s[i].buf == bufs[i]
  }

  ghost predicate Apart(s: seq<Link>, t: seq<Link>) {
    forall i :: 0 <= i < |s| ==> s[i] !in t
  }

  /** How many of `want` links the pool can give: free ones first, then one request each. */
  function Supply(free: nat, grants: seq<bool>, want: nat): (n: nat)
    ensures n <= want
  {
    if want == 0 then 0
    else if free > 0 then 1 + Supply(free - 1, grants, want - 1)
    else if AllGranted(grants, 1) then 1 + Supply(0, After(grants, 1), want - 1)
    else 0
  }

  /** All are there exactly when every request beyond the free links is granted; else the first refusal ends it. */
  lemma SupplyIs(free: nat, grants: seq<bool>, want: nat)
    ensures Supply(free, grants, want) == want <==> forall i :: 0 <= i < want - free && i < |grants| ==> grants[i]
    ensures var n := Supply(free, grants, want);
            n < want ==>
              && free <= n < free + |grants| && !grants[n - free]
              && forall i :: 0 <= i < n - free ==> grants[i]
    decreases want
  {
    if want > 0 && free > 0 {
      SupplyIs(free - 1, grants, want - 1);
    } else if want > 0 && AllGranted(grants, 1) {
      SupplyIs(0, After(grants, 1), want - 1);
      SupplyShift(grants, want);
    }
  }

  lemma SupplyShift(grants: seq<bool>, want: nat)
    requires want > 0 && AllGranted(grants, 1)
    ensures (forall i :: 0 <= i < want && i < |grants| ==> grants[i]) <==>
            forall i :: 0 <= i < want - 1 && i < |After(grants, 1)| ==> After(grants, 1)[i]
    ensures forall i :: 0 <= i < |After(grants, 1)| ==> i + 1 < |grants| && After(grants, 1)[i] == grants[i + 1]
  {
    assert |After(grants, 1)| == if |grants| == 0 then 0 else |grants| - 1;
    if forall i :: 0 <= i < want - 1 && i < |After(grants, 1)| ==> After(grants, 1)[i] {
      forall i | 0 <= i < want && i < |grants|
        ensures grants[i]
      {
        if i > 0 {
          assert After(grants, 1)[i - 1] == grants[i];
        }
      }
    }
  }

  /** A chain whose links all carry a buffer and are not on the free list. */
  ghost predicate InUse(pool: Pool, head: Link?, s: seq<Link>)
    reads s, pool`free
  {
    IsChain(head, s) && Filled(s) && Apart(s, pool.free)
  }

  lemma ChainSnoc(head: Link?, s: seq<Link>, l: Link)
    requires s != [] ==> head == s[0] && s[|s| - 1].next == l
    requires s == [] ==> head == l
    requires forall i {:trigger s[i].next} :: 0 <= i < |s| - 1 ==> s[i].next == s[i + 1]
    requires forall i, j :: 0 <= i < j < |s| ==> s[i] != s[j]
    requires l !in s && l.next == null
    ensures IsChain(head, s + [l])
  {
    var u := s + [l];
    forall i {:trigger u[i].next} | 0 <= i < |u| - 1
      ensures u[i].next == u[i + 1]
    {
      assert u[i] == s[i];
      assert i < |s| - 1 ==> s[i].next == s[i + 1];
    }
  }

  /** The links whose `next` an append at the end writes: the last one, if any. */
  function Lasts(w: seq<Link>): set<Link> {
    if w == [] then {} else {w[|w| - 1]}
  }

  /** Hang a link with the buffer at the end of a chain whose last link is `tail`. */
  method HangLink(head: Link?, tail: Link?, ghost s: seq<Link>, l: Link, buf: Buf) returns (head': Link)
    requires IsChain(head, s) && Filled(s) && tail == (if s == [] then null else s[|s| - 1])
    requires l !in s && l.next == null
    modifies l`buf, Lasts(s)`next
    ensures IsChain(head', s + [l]) && Filled(s + [l])
    ensures l.buf == buf
  {
    l.buf := buf;
    if tail == null {
      head' := l;
    } else {
      tail.next := l;
      head' := head;
    }
    ChainSnoc(head', s, l);
  }

  /** The last link of a chain, null when there is none. */
  function LastOf(w: seq<Link>): Link? {
    if w == [] then null else w[|w| - 1]
  }

  /**
   What ngx_chain_add_copy has when it has copied some links of t behind a chain
   that carried bs: the chain w, the rest of t to come at p, and the links it may
   write, fp, which are none of t's.
   */
  ghost predicate Adding(pool: Pool, head: Link?, p: Link?, w: seq<Link>, bs: seq<Buf>, more: Link?, t: seq<Link>,
                         fp: set<Link>)
    reads pool, pool.free, w, t
  {
    && pool.Valid() && InUse(pool, head, w) && InUse(pool, more, t)
    && |bs| <= |w| <= |bs| + |t| && p == (if |w| < |bs| + |t| then t[|w| - |bs|] else null)
    && (forall i :: 0 <= i < |w| ==> w[i].buf == if i < |bs| then bs[i] else t[i - |bs|].buf)
    && (forall i :: 0 <= i < |pool.free| ==> pool.free[i] in fp)
    && (forall i :: 0 <= i < |w| ==> w[i] in fp)
    && (forall i :: 0 <= i < |t| ==> t[i] !in fp)
  }

  /** NgxPool::chain in the middle of it. */
  method ChainBeside(pool: Pool, ghost head: Link?, ghost p: Link?, ghost w: seq<Link>, ghost bs: seq<Buf>,
                     ghost more: Link?, ghost t: seq<Link>, ghost fp: set<Link>, ghost left: nat)
    returns (l: Link?, ghost left': nat)
    requires Adding(pool, head, p, w, bs, more, t, fp) && p != null
    requires left == Supply(|pool.free|, pool.grants, |bs| + |t| - |w|)
    modifies pool`chain, pool`grants, pool`free, fp`next
    ensures Adding(pool, head, p, w, bs, more, t, fp)
    ensures l != null ==> l.next == null && l !in pool.free && l !in w && l !in t && (l in fp || fresh(l))
    ensures left == (if l == null then 0 else left' + 1)
    ensures l != null ==> left' == Supply(|pool.free|, pool.grants, |bs| + |t| - |w| - 1)
  {
    l := pool.Chain();
    left' := if l == null then 0 else left - 1;
  }

  /** The new link l takes its place at the end, with the next buffer of t. */
  method HangNext(pool: Pool, head: Link?, tail: Link?, p: Link, l: Link, ghost w: seq<Link>, ghost bs: seq<Buf>,
                  ghost more: Link?, ghost t: seq<Link>, ghost fp: set<Link>)
    returns (head': Link, p': Link?, ghost w': seq<Link>, ghost fp': set<Link>)
    requires Adding(pool, head, p, w, bs, more, t, fp) && tail == LastOf(w)
    requires l.next == null && l !in pool.free && l !in w && l !in t
    modifies l`buf, Lasts(w)`next
    ensures Adding(pool, head', p', w', bs, more, t, fp') && LastOf(w') == l
    ensures |w'| == |w| + 1 && fp' == fp + {l}
  {
    w', fp' := w + [l], fp + {l};
    head' := HangLink(head, tail, w, l, p.buf);
    p' := p.next;
    assert t[|w| - |bs|].next == if |w| - |bs| < |t| - 1 then t[|w| - |bs| + 1] else null;
  }

  /** One turn of ngx_chain_add_copy: a link of its own for the next buffer, if there is memory. */
  method AddTurn(pool: Pool, head: Link?, tail: Link?, p: Link, ghost w: seq<Link>, ghost bs: seq<Buf>,
                 ghost more: Link?, ghost t: seq<Link>, ghost fp: set<Link>, ghost left: nat)
    returns (ok: bool, head': Link?, tail': Link?, p': Link?, ghost w': seq<Link>, ghost fp': set<Link>,
             ghost left': nat)
    requires Adding(pool, head, p, w, bs, more, t, fp) && tail == LastOf(w)
    requires left == Supply(|pool.free|, pool.grants, |bs| + |t| - |w|)
    modifies pool`chain, pool`grants, pool`free, fp`next, fp`buf
    ensures Adding(pool, head', p', w', bs, more, t, fp') && tail' == LastOf(w')
    ensures fp <= fp' && fresh(fp' - fp)
    ensures |w'| == |w| + if ok then 1 else 0
    ensures if ok then left == left' + 1 && left' == Supply(|pool.free|, pool.grants, |bs| + |t| - |w'|) else left == 0
  {
    var l;
    l, left' := ChainBeside(pool, head, p, w, bs, more, t, fp, left);
    if l == null {
      return false, head, tail, p, w, fp, left';
    }
    var last: Link := l;
    head', p', w', fp' := HangNext(pool, head, tail, p, last, w, bs, more, t, fp);
    ok, tail' := true, last;
  }

  /** The loop of ngx_chain_add_copy, from the last link of the chain on. */
  method CopyLinks(pool: Pool, head: Link?, last: Link?, ghost s: seq<Link>, more: Link?, ghost t: seq<Link>,
                   ghost bs: seq<Buf>, ghost bufs: seq<Buf>, ghost fp: set<Link>)
    returns (ok: bool, head': Link?, ghost w: seq<Link>, ghost n: nat, ghost fp': set<Link>)
    requires Adding(pool, head, more, s, bs, more, t, fp) && |bs| == |s| && Carries(t, bufs) && last == LastOf(s)
    modifies pool`chain, pool`grants, pool`free, fp`next, fp`buf
    ensures pool.Valid() && InUse(pool, head', w) && InUse(pool, more, t) && Carries(t, bufs)
    ensures n == old(Supply(|pool.free|, pool.grants, |t|)) && (ok <==> n == |t|)
    ensures Carries(w, bs + bufs[..n])
    ensures fp <= fp' && fresh(fp' - fp)
    ensures forall i :: 0 <= i < |w| ==> w[i] in fp'
    ensures forall i :: 0 <= i < |pool.free| ==> pool.free[i] in fp'
  {
    var tail, p := last, more;
    n := Supply(|pool.free|, pool.grants, |t|);
    ghost var left := n;
    ok, head', w, fp' := true, head, s, fp;
    while ok && p != null
      invariant Adding(pool, head', p, w, bs, more, t, fp') && tail == LastOf(w)
      invariant fp <= fp' && fresh(fp' - fp)
      invariant |w| + left == |bs| + n
      invariant if ok then left == Supply(|pool.free|, pool.grants, |bs| + |t| - |w|) else left == 0 && p != null
      decreases |bs| + |t| - |w|, ok
    {
      ok, head', tail, p, w, fp', left := AddTurn(pool, head', tail, p, w, bs, more, t, fp', left);
      if !ok {
        left := 0;
      }
    }
  }

  /**
   ngx_chain_add_copy: new links behind the chain s that carry the buffers of the
   chain `more`, free links first and then new ones, until a link finds no memory.
   `more` itself is left as it was.
   */
  method AddCopy(pool: Pool, head: Link?, ghost s: seq<Link>, more: Link?, ghost t: seq<Link>, ghost bs: seq<Buf>,
                 ghost bufs: seq<Buf>, ghost fp: set<Link>)
    returns (ok: bool, head': Link?, ghost w: seq<Link>, ghost n: nat, ghost fp': set<Link>)
    requires Adding(pool, head, more, s, bs, more, t, fp) && |bs| == |s| && Carries(t, bufs)
    modifies pool`chain, pool`grants, pool`free, fp`next, fp`buf
    ensures pool.Valid() && InUse(pool, head', w) && InUse(pool, more, t) && Carries(t, bufs)
    ensures n == old(Supply(|pool.free|, pool.grants, |t|)) && (ok <==> n == |t|)
    ensures ok <==> AllGranted(old(pool.grants), if |t| <= |old(pool.free)| then 0 else |t| - |old(pool.free)|)
    ensures !ok ==>
              && |old(pool.free)| <= n < |old(pool.free)| + |old(pool.grants)|
              && !old(pool.grants)[n - |old(pool.free)|] && AllGranted(old(pool.grants), n - |old(pool.free)|)
    ensures Carries(w, bs + bufs[..n])
    ensures fp <= fp' && fresh(fp' - fp)
    ensures forall i :: 0 <= i < |w| ==> w[i] in fp'
    ensures forall i :: 0 <= i < |pool.free| ==> pool.free[i] in fp'
  {
    SupplyIs(|pool.free|, pool.grants, |t|);
    var tail: Link? := null;
    if head != null {
      tail := Tail(head, s);
    }
    ok, head', w, n, fp' := CopyLinks(pool, head, tail, s, more, t, bs, bufs, fp);
  }

  /** One turn of NgxChain::free: step past the link, then give it up. */
  method FreeFirst(pool: Pool, cur: Link, ghost s: seq<Link>) returns (iter: Link?)
    requires pool.Valid() && IsChain(cur, s) && forall l :: l in s ==> l !in pool.free
    modifies pool`chain, pool`free, cur`next
    ensures pool.Valid() && pool.free == [cur] + old(pool.free)
    ensures IsChain(iter, s[1..]) && forall l :: l in s[1..] ==> l !in pool.free
  {
    iter := cur.next;
    assert cur in s;
    pool.FreeLink(cur);
    forall i {:trigger s[1..][i].next} | 0 <= i < |s[1..]| - 1
      ensures s[1..][i].next == s[1..][i + 1]
    {
      assert s[i + 1].next == s[i + 2];
    }
  }

  lemma FreedSnoc<T>(done: seq<T>, x: T, were: seq<T>)
    ensures Reverse(done + [x]) + were == [x] + (Reverse(done) + were)
  {
    ReverseSnoc(done, x);
  }

  /** A link not yet freed is one of the chain, and freeing it keeps the account. */
  lemma Partway(s: seq<Link>, freed: seq<Link>, kept: seq<Link>)
    requires s == freed + kept && kept != []
    ensures kept[0] in s && s == freed + [kept[0]] + kept[1..]
  {
    assert s[|freed|] == kept[0];
  }

  /** NgxChain::free part way: the links `freed` are on top of those free before, `kept` hang together at iter. */
  ghost predicate Freeing(pool: Pool, iter: Link?, pos: Link?, s: seq<Link>, freed: seq<Link>, kept: seq<Link>,
                          were: seq<Link>)
    reads pool, pool.free, kept
  {
    && s == freed + kept && pool.Valid() && pool.free == Reverse(freed) + were
    && IsChain(iter, kept) && (forall l :: l in kept ==> l !in pool.free)
    && forall i :: 0 <= i < |freed| ==> freed[i] != pos
  }

  method FreeTurn(pool: Pool, cur: Link, ghost pos: Link?, ghost s: seq<Link>, ghost freed: seq<Link>,
                  ghost kept: seq<Link>, ghost were: seq<Link>)
    returns (iter: Link?, ghost freed': seq<Link>, ghost kept': seq<Link>)
    requires Freeing(pool, cur, pos, s, freed, kept, were) && cur != pos
    modifies pool`chain, pool`free, cur`next
    ensures Freeing(pool, iter, pos, s, freed', kept', were) && |kept'| == |kept| - 1
  {
    Partway(s, freed, kept);
    iter := FreeFirst(pool, cur, kept);
    FreedSnoc<Link>(freed, cur, were);
    freed', kept' := freed + [cur], kept[1..];
  }

  lemma FreeingIn(pool: Pool, iter: Link, pos: Link?, s: seq<Link>, freed: seq<Link>, kept: seq<Link>, were: seq<Link>)
    requires Freeing(pool, iter, pos, s, freed, kept, were)
    ensures iter in s
  {
    Partway(s, freed, kept);
  }

  /**
   NgxChain::free. The links before `pos` go onto the free list, last one on
   top; when `pos` is not in the chain that is every link. Each `next` is read
   before the link is given up.
   */
  method Free(head: Link?, ghost s: seq<Link>, pool: Pool, pos: Link?)
    returns (rest: Link?, ghost freed: seq<Link>, ghost kept: seq<Link>)
    requires pool.Valid() && IsChain(head, s) && forall l :: l in s ==> l !in pool.free
    modifies pool`chain, pool`free, s`next
    ensures rest == pos
    ensures s == freed + kept && pos !in freed && (kept != [] ==> kept[0] == pos)
    ensures pool.Valid() && pool.free == Reverse(freed) + old(pool.free)
    ensures IsChain(if kept == [] then null else pos, kept) && forall l :: l in kept ==> l !in pool.free
  {
    var iter := head;
    ghost var were := pool.free;
    freed, kept := [], s;
    while iter != null && iter != pos
      invariant Freeing(pool, iter, pos, s, freed, kept, were)
      decreases |kept|
    {
      FreeingIn(pool, iter, pos, s, freed, kept, were);
      iter, freed, kept := FreeTurn(pool, iter, pos, s, freed, kept, were);
    }
    rest := pos;
  }
}
