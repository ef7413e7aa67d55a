/**
 The footer filter on the request and on the chain in place: http/filter, and the
 older legacy/footer that walks the chain with iterators.
 */
module FooterFilter {
  import opened Buffers
  import opened Chains
  import opened Entries
  import opened FooterSpec

  class Request {
    const pool: Pool
    const main: bool           // r == r->main
    const headerOnly: bool
    var headerSent: bool
    var status: nat
    var contentLength: int     // content_length_n, negative when unknown
    var headers: seq<Kv>       // headers_out.headers, as the chunked list holds them
    const nalloc: Positive     // entries to a part of that list
    var room: nat              // entries its last part still has room for
    var ctx: map<nat, nat>     // the flag in each filter's context; no entry while the slot is empty
    ghost var received: seq<Msg>  // the calls that reached nginx's own filters

    constructor (pool: Pool, main: bool, headerOnly: bool, nalloc: Positive)
      ensures this.pool == pool && this.main == main && this.headerOnly == headerOnly && this.nalloc == room == nalloc
      ensures !headerSent && status == 0 && contentLength == -1 && headers == [] && ctx == map[] && received == []
    {
      this.pool, this.main, this.headerOnly, this.nalloc := pool, main, headerOnly, nalloc;
      room := nalloc;
      headerSent, status, contentLength, headers, ctx, received := false, 0, -1, [], map[], [];
    }

    function HeaderMsg(): Msg
      reads this
    {
      Header(contentLength, headers)
    }

    /** NgxModuleCtx::data: creates the context on first use; false stands for the exception. */
    method Data(tag: nat) returns (ok: bool)
      modifies this`ctx, pool`grants
      ensures ok == (tag in old(ctx) || old(pool.Granted(0)))
      ensures ctx == if tag in old(ctx) || !ok then old(ctx) else old(ctx)[tag := 0]
      ensures pool.grants == if tag in old(ctx) then old(pool.grants) else After(old(pool.grants), 1)
    {
      if tag in ctx {
        return true;
      }
      ok := pool.Palloc();
      if ok {
        ctx := ctx[tag := 0];
      }
    }

    /** NgxHeaders::add: one more entry, by the contract that Headers.AddFrom meets on the chunked list. */
    method AddHeader(kv: Kv) returns (ok: bool)
      modifies this`headers, this`room, pool`grants
      ensures ok <==> old(room) > 0 || AllGranted(old(pool.grants), 2)
      ensures headers == if ok then old(headers) + [Kv(if kv.hash == 0 then 1 else kv.hash, kv.key, kv.value)]
                         else old(headers)
      ensures ok ==> room == if old(room) == 0 then nalloc - 1 else old(room) - 1
      ensures ok ==> pool.grants == if old(room) == 0 then After(old(pool.grants), 2) else old(pool.grants)
    {
      if room == 0 {
        ok := pool.Palloc();
        if ok {
          ok := pool.Palloc();
        }
        if !ok {
          return;
        }
        room := nalloc;
      }
      var tmp := kv;
      if tmp.hash == 0 {
        tmp := tmp.(hash := 1);
      }
      headers := headers + [tmp];
      room := room - 1;
      ok := true;
    }
  }

  /** The room that n more entries leave. */
  function RoomAfter(n: nat, room: nat, nalloc: Positive): nat {
    if n == 0 then room else RoomAfterOne(RoomAfter(n - 1, room, nalloc), nalloc)
  }

  /** The requests for memory that n more entries make. */
  function ListNeeds(n: nat, room: nat, nalloc: Positive): nat {
    if n == 0 then 0 else ListNeeds(n - 1, room, nalloc) + PartNeeds(RoomAfter(n - 1, room, nalloc))
  }

  lemma ListNeedsGrow(m: nat, n: nat, room: nat, nalloc: Positive)
    requires m <= n
    ensures ListNeeds(m, room, nalloc) <= ListNeeds(n, room, nalloc)
  {
  }

  /**
   In parts: n more entries take as few new parts as they can, k of them with two
   requests each, and leave the rest of the last one free.
   */
  lemma ListNeedsParts(n: nat, room: nat, nalloc: Positive) returns (k: nat)
    ensures ListNeeds(n, room, nalloc) == 2 * k
    ensures RoomAfter(n, room, nalloc) == room + k * nalloc - n
    ensures k > 0 ==> room + k * nalloc - n < nalloc
  {
    if n == 0 {
      k := 0;
    } else {
      k := ListNeedsParts(n - 1, room, nalloc);
      if RoomAfter(n - 1, room, nalloc) == 0 {
        assert (k + 1) * nalloc == k * nalloc + nalloc;
        k := k + 1;
      }
    }
  }

  function FlagOf(ctx: map<nat, nat>, tag: nat): nat {
    if tag in ctx then ctx[tag] else 0
  }

  /** The memory a header call asks for: the context on first use, and new parts for the configured headers. */
  function HeaderNeeds(ctx: map<nat, nat>, tag: nat, cf: Conf, room: nat, nalloc: Positive): nat {
    (if tag in ctx then 0 else 1) + (if FlagOf(ctx, tag) == 0 then ListNeeds(|cf.headers|, room, nalloc) else 0)
  }

  /** Of `count` entries, n found memory and the next did not; k requests were made before them. */
  predicate FirstRefused(grants: seq<bool>, k: nat, n: nat, count: nat, room: nat, nalloc: Positive) {
    && n < count
    && AllGranted(grants, k + ListNeeds(n, room, nalloc)) && !AllGranted(grants, k + ListNeeds(n + 1, room, nalloc))
  }

  lemma RefusedFurther(grants: seq<bool>, k: nat, n: nat, count: nat, room: nat, nalloc: Positive)
    requires AllGranted(grants, k) && FirstRefused(After(grants, k), 0, n, count, room, nalloc)
    ensures FirstRefused(grants, k, n, count, room, nalloc)
  {
    GrantedFurther(grants, k, ListNeeds(n, room, nalloc));
    GrantedFurther(grants, k, ListNeeds(n + 1, room, nalloc));
  }

  /** A refused header call: no header without a context, otherwise those that found memory. */
  ghost predicate HeaderRefused(ctx: map<nat, nat>, tag: nat, cf: Conf, room: nat, nalloc: Positive,
                                grants: seq<bool>, hs: seq<Kv>, hs': seq<Kv>) {
    if tag !in ctx && !AllGranted(grants, 1) then hs' == hs
    else
      exists n: nat :: FirstRefused(grants, if tag in ctx then 0 else 1, n, |cf.headers|, room, nalloc)
                       && hs' == hs + Listed(cf.headers)[..n]
  }

  /** n of the configured headers have been added, with the memory they needed. */
  ghost predicate Adding(r: Request, cf: Conf, n: nat, hs: seq<Kv>, room: nat, grants: seq<bool>)
    reads r, r.pool
  {
    && n <= |cf.headers| && r.headers == hs + Listed(cf.headers)[..n] && r.room == RoomAfter(n, room, r.nalloc)
    && AllGranted(grants, ListNeeds(n, room, r.nalloc))
    && r.pool.grants == After(grants, ListNeeds(n, room, r.nalloc))
  }

  /** One turn of the loop over the configured headers. */
  method AddNext(r: Request, cf: Conf, i: nat, ghost hs: seq<Kv>, ghost room: nat, ghost grants: seq<bool>)
    returns (ok: bool)
    requires Adding(r, cf, i, hs, room, grants) && i < |cf.headers|
    modifies r`headers, r`room, r.pool`grants
    ensures ok ==> Adding(r, cf, i + 1, hs, room, grants)
    ensures !ok ==> FirstRefused(grants, 0, i, |cf.headers|, room, r.nalloc) && r.headers == old(r.headers)
  {
    GrantedFurther(grants, ListNeeds(i, room, r.nalloc), PartNeeds(r.room));
    ok := r.AddHeader(Kv(1, cf.headers[i].key, cf.headers[i].value));
  }

  /** The loop over the configured headers; it stops where an entry finds no memory. */
  method AddHeaders(r: Request, cf: Conf) returns (ok: bool, ghost n: nat)
    modifies r`headers, r`room, r.pool`grants
    ensures ok <==> AllGranted(old(r.pool.grants), ListNeeds(|cf.headers|, old(r.room), r.nalloc))
    ensures n <= |cf.headers| && (ok ==> n == |cf.headers|)
    ensures r.headers == old(r.headers) + Listed(cf.headers)[..n]
    ensures |r.headers| == |old(r.headers)| + n && forall i :: 0 <= i < n ==>
              r.headers[|old(r.headers)| + i] == Kv(1, cf.headers[i].key, cf.headers[i].value)
    ensures ok ==> r.pool.grants == After(old(r.pool.grants), ListNeeds(n, old(r.room), r.nalloc))
    ensures !ok ==> FirstRefused(old(r.pool.grants), 0, n, |cf.headers|, old(r.room), r.nalloc)
  {
    var i := 0;
    ghost var hs, room, grants := r.headers, r.room, r.pool.grants;
    assert hs == hs + Listed(cf.headers)[..0];
    while i < |cf.headers|
      invariant 0 <= i <= |cf.headers| && Adding(r, cf, i, hs, room, grants)
    {
      ok := AddNext(r, cf, i, hs, room, grants);
      if !ok {
        ListNeedsGrow(i + 1, |cf.headers|, room, r.nalloc);
        return ok, i;
      }
      i := i + 1;
    }
    return true, i;
  }

  /** The end of do_header_filter: the declared length grows by the footer's size. */
  method GrowLength(r: Request, cf: Conf)
    modifies r`contentLength
    ensures r.contentLength == old(r.contentLength) + if old(r.contentLength) > 0 then |cf.footer| else 0
  {
    if cf.footer == [] {
      return;
    }
    var len := r.contentLength;
    if len > 0 {
      r.contentLength := len + |cf.footer|;
    }
  }

  /** do_header_filter, the same in both filters, as one step of the specification. */
  method EditHeader(r: Request, tag: nat, cf: Conf) returns (ok: bool)
    modifies r`ctx, r`headers, r`room, r`contentLength, r.pool`grants
    ensures ok <==> AllGranted(old(r.pool.grants), HeaderNeeds(old(r.ctx), tag, cf, old(r.room), r.nalloc))
    ensures ok ==>
              && (FlagOf(r.ctx, tag), r.HeaderMsg()) == Stage(FlagOf(old(r.ctx), tag), cf, old(r.HeaderMsg()))
              && r.pool.grants == After(old(r.pool.grants), HeaderNeeds(old(r.ctx), tag, cf, old(r.room), r.nalloc))
    ensures forall x :: x != tag ==> (x in r.ctx <==> x in old(r.ctx)) && FlagOf(r.ctx, x) == FlagOf(old(r.ctx), x)
    ensures (ok ==> tag in r.ctx) && forall x :: x in old(r.ctx) ==> x in r.ctx
    ensures !ok ==> HeaderRefused(old(r.ctx), tag, cf, old(r.room), r.nalloc, old(r.pool.grants), old(r.headers),
                                  r.headers)
    ensures !ok ==>
              && r.contentLength == old(r.contentLength)
              && FlagOf(r.ctx, tag) == (if tag !in old(r.ctx) && !AllGranted(old(r.pool.grants), 1) then 0 else 1)
  {
    ghost var first, grants, room := if tag in r.ctx then 0 else 1, r.pool.grants, r.room;
    ok := r.Data(tag);
    if !ok {
      return;
    }
    GrantedFurther(old(r.pool.grants), first, if r.ctx[tag] == 0 then ListNeeds(|cf.headers|, r.room, r.nalloc) else 0);
    if r.ctx[tag] != 0 {
      return;
    }
    r.ctx := r.ctx[tag := 1];
    ghost var n;
    ok, n := AddHeaders(r, cf);
    if !ok {
      RefusedFurther(grants, first, n, |cf.headers|, room, r.nalloc);
      return;
    }
    assert Listed(cf.headers)[..n] == Listed(cf.headers);
    GrowLength(r, cf);
  }

  lemma StageHeader(flag: nat, cf: Conf, n: int, hs: seq<Kv>)
    ensures var (flag', m) := Stage(flag, cf, Header(n, hs));
            && m.Header?
            && (flag != 0 ==> flag' == flag && m == Header(n, hs))
            && (flag == 0 ==>
                  && flag' == 1 && m.length == (if n > 0 then n + |cf.footer| else n)
                  && |m.headers| == |hs| + |cf.headers| && m.headers[..|hs|] == hs
                  && forall i :: 0 <= i < |cf.headers| ==>
                       m.headers[|hs| + i] == Kv(1, cf.headers[i].key, cf.headers[i].value))
  {
  }

  /**
   do_header_filter. The first call adds each configured header behind those there,
   and the footer's size to a positive length; a later one does nothing.
   */
  method DoHeaderFilter(r: Request, tag: nat, cf: Conf) returns (ok: bool)
    modifies r`ctx, r`headers, r`room, r`contentLength, r.pool`grants
    ensures ok <==> AllGranted(old(r.pool.grants), HeaderNeeds(old(r.ctx), tag, cf, old(r.room), r.nalloc))
    ensures ok ==>
              && (FlagOf(r.ctx, tag), r.HeaderMsg()) == Stage(FlagOf(old(r.ctx), tag), cf, old(r.HeaderMsg()))
              && r.pool.grants == After(old(r.pool.grants), HeaderNeeds(old(r.ctx), tag, cf, old(r.room), r.nalloc))
    ensures ok ==>
              var n := |old(r.headers)|;
              tag in r.ctx &&
              if tag in old(r.ctx) && old(r.ctx)[tag] != 0 then
                r.ctx == old(r.ctx) && r.headers == old(r.headers) && r.contentLength == old(r.contentLength)
              else
                && r.ctx[tag] == 1
                && r.contentLength == old(r.contentLength) + (if old(r.contentLength) > 0 then |cf.footer| else 0)
                && |r.headers| == n + |cf.headers| && r.headers[..n] == old(r.headers)
                && forall i :: 0 <= i < |cf.headers| ==>
                     r.headers[n + i] == Kv(1, cf.headers[i].key, cf.headers[i].value)
    ensures forall x :: x != tag ==> (x in r.ctx <==> x in old(r.ctx)) && FlagOf(r.ctx, x) == FlagOf(old(r.ctx), x)
    ensures forall x :: x in old(r.ctx) ==> x in r.ctx
    ensures !ok ==> HeaderRefused(old(r.ctx), tag, cf, old(r.room), r.nalloc, old(r.pool.grants), old(r.headers),
                                  r.headers)
    ensures !ok ==>
              && r.contentLength == old(r.contentLength)
              && FlagOf(r.ctx, tag) == (if tag !in old(r.ctx) && !AllGranted(old(r.pool.grants), 1) then 0 else 1)
  {
    StageHeader(FlagOf(r.ctx, tag), cf, r.contentLength, r.headers);
    ok := EditHeader(r, tag, cf);
  }

  /** The memory an edit at link k asks for: a buffer, and a link when the body ends in bytes and no link is free. */
  predicate EditGranted(grants: seq<bool>, free: nat, ps: seq<Piece>, k: nat)
    requires k < |ps|
  {
    AllGranted(grants, if ps[k].bytes == [] || free > 0 then 1 else 2)
  }

  /** Whether a body call whose edit would be at link k gets the memory it asks for. */
  predicate BodyGranted(ctx: map<nat, nat>, tag: nat, cf: Conf, grants: seq<bool>, free: nat, ps: seq<Piece>, k: nat)
    requires k <= |ps|
  {
    if cf.footer == [] then true
    else if tag !in ctx then AllGranted(grants, 1)
    else if ctx[tag] != 1 || k == |ps| then true
    else EditGranted(grants, free, ps, k)
  }

  /** The search both filters start with: the first link whose buffer ends the response. */
  method FindEof(head: Link?, ghost s: seq<Link>) returns (p: Link?, ghost k: nat)
    requires IsChain(head, s) && Filled(s)
    ensures k == FirstEof(Pieces(s))
    ensures p == if k < |s| then s[k] else null
    ensures p != null ==> forall i :: 0 <= i < k ==> s[i].buf != p.buf
  {
    p := head;
    k := 0;
    while p != null
      invariant 0 <= k <= |s| && p == (if k < |s| then s[k] else null)
      invariant forall i :: 0 <= i < k ==> !Pieces(s)[i].lastBuf
      decreases |s| - k
    {
      if p.buf.lastBuf {
        break;
      }
      p := p.next;
      k := k + 1;
    }
    FirstEofIs(Pieces(s), k);
    assert forall i :: 0 <= i < k ==> Pieces(s)[i] == s[i].buf.ToPiece();
  }

  /** Set to the last node. */
  method ReplaceLast(head: Link?, ghost s: seq<Link>, p: Link, ghost k: nat, b: Buf)
    requires IsChain(head, s) && Filled(s) && k < |s| && s[k] == p
    modifies p`buf
    ensures IsChain(head, s) && Filled(s)
    ensures Pieces(s) == old(Pieces(s))[k := old(b.ToPiece())]
    ensures p.buf == b
  {
    p.buf := b;
    assert forall i :: 0 <= i < |s| && i != k ==> s[i] != p;
  }

  /** The links up to the one that ends the response, as they hang together. */
  ghost predicate Segment(head: Link?, u: seq<Link>)
    reads u`next
  {
    && u != [] && u[0] == head
    && (forall i {:trigger u[i].next} :: 0 <= i < |u| - 1 ==> u[i].next == u[i + 1])
    && (forall i, j :: 0 <= i < j < |u| ==> u[i] != u[j])
  }

  /** Link to the new node: whatever followed the last link of u is no longer part of the chain. */
  method LinkLast(head: Link?, ghost u: seq<Link>, p: Link, out: Link)
    requires Segment(head, u) && u[|u| - 1] == p && out !in u
    modifies out`next, p`next
    ensures IsChain(head, u + [out])
  {
    out.next := null;
    p.next := out;
    ghost var t := u + [out];
    forall i {:trigger t[i].next} | 0 <= i < |t| - 1
      ensures t[i].next == t[i + 1]
    {
      assert t[i] == u[i];
    }
  }

  /** Add a new last node carrying b. Earlier links do not share p's buffer,
      which is the first to end the response. */
  method AddLast(head: Link?, ghost u: seq<Link>, p: Link, out: Link, b: Buf)
    requires Segment(head, u) && Filled(u) && u[|u| - 1] == p && out !in u
    requires forall i :: 0 <= i < |u| - 1 ==> u[i].buf != p.buf
    requires p.buf != b
    modifies out`next, out`buf, p`next, p.buf`lastBuf, p.buf`lastInChain
    ensures IsChain(head, u + [out])
    ensures out.buf == b && b.ToPiece() == old(b.ToPiece())
    ensures p.buf == old(p.buf) && p.buf.ToPiece() == Piece(old(p.buf.bytes), false, false)
    ensures forall i :: 0 <= i < |u| - 1 ==>
              && u[i].buf == old(u[i].buf)
              && u[i].buf.ToPiece() == old(u[i].buf.ToPiece())
  {
    LinkLast(head, u, p, out);
    out.buf := b;
    p.buf.lastBuf := false;
    p.buf.lastInChain := false;
  }

  /** The links and buffers of a chain lie in the footprint. */
  ghost predicate Within(s: seq<Link>, footprint: set<object?>)
    reads s`buf
  {
    forall i :: 0 <= i < |s| ==> s[i] in footprint && s[i].buf in footprint
  }

  ghost predicate FreeWithin(pool: Pool, footprint: set<object?>)
    reads pool`free
  {
    pool in footprint && forall l :: l in pool.free ==> l in footprint
  }

  /** A chain before an edit: well formed, apart from the free links, and all of it in the footprint. */
  ghost predicate Ready(pool: Pool, head: Link?, s: seq<Link>, footprint: set<object?>)
    reads pool`chain, pool`free, pool.free, s
  {
    && pool.Valid() && IsChain(head, s) && Filled(s) && Apart(s, pool.free)
    && Within(s, footprint) && FreeWithin(pool, footprint)
  }

  /** The footer buffer beside a chain in use, which it leaves alone. */
  method FooterBeside(pool: Pool, footer: seq<Byte>, head: Link?, ghost s: seq<Link>, ghost footprint: set<object?>,
                      ghost ps: seq<Piece>)
    returns (b: Buf?, ghost footprint': set<object?>)
    requires Ready(pool, head, s, footprint) && ps == Pieces(s)
    modifies pool`grants
    ensures Ready(pool, head, s, footprint') && ps == Pieces(s)
    ensures footprint <= footprint' && fresh(footprint' - footprint)
    ensures b != null <==> old(pool.Granted(0))
    ensures pool.grants == After(old(pool.grants), 1)
    ensures b != null ==>
              && b in footprint' && b.ToPiece() == FooterPiece(footer)
              && forall i :: 0 <= i < |s| ==> s[i].buf != b
  {
    b := NewFooter(pool, footer);
    PiecesAre(s, ps);
    footprint' := if b == null then footprint else footprint + {b};
    ReadyMore(pool, head, s, footprint, footprint');
  }

  lemma ReadyMore(pool: Pool, head: Link?, s: seq<Link>, footprint: set<object?>, more: set<object?>)
    requires Ready(pool, head, s, footprint) && footprint <= more
    ensures Ready(pool, head, s, more)
  {
  }

  /** The footer buffer; null stands for the exception. */
  method NewFooter(pool: Pool, footer: seq<Byte>) returns (b: Buf?)
    modifies pool`grants
    ensures b != null <==> old(pool.Granted(0))
    ensures pool.grants == After(old(pool.grants), 1)
    ensures b != null ==> fresh(b) && b.ToPiece() == FooterPiece(footer)
  {
    b := pool.Buffer(0);
    if b != null {
      b.Range(footer);
      b.Finish(true);
    }
  }

  /** NgxPool::chain beside a chain in use, which it leaves alone. */
  method TakeLink(pool: Pool, head: Link?, ghost s: seq<Link>) returns (out: Link?)
    requires pool.Valid() && Segment(head, s) && Apart(s, pool.free)
    modifies pool`chain, pool`grants, pool`free, pool.free`next
    ensures pool.Valid() && Segment(head, s) && Apart(s, pool.free)
    ensures out == null <==> old(pool.free) == [] && !old(pool.Granted(0))
    ensures out == null ==> pool.free == []
    ensures out != null ==> (out in old(pool.free) || fresh(out)) && out !in s && out !in pool.free
    ensures forall l :: l in pool.free ==> l in old(pool.free)
    ensures pool.grants == if old(pool.free) == [] then After(old(pool.grants), 1) else old(pool.grants)
  {
    out := pool.Chain();
  }

  lemma SegmentOf(head: Link?, s: seq<Link>, k: nat, free: seq<Link>)
    requires IsChain(head, s) && Filled(s) && Apart(s, free) && k < |s|
    ensures Segment(head, s[..k + 1]) && Filled(s[..k + 1]) && Apart(s[..k + 1], free)
  {
  }

  lemma EditedPieces(s: seq<Link>, k: nat, out: Link, ps: seq<Piece>, footer: seq<Byte>)
    requires k < |s| == |ps| && ps[k].bytes != []
    requires forall i :: 0 <= i < k ==> s[i].buf != null && s[i].buf.ToPiece() == ps[i]
    requires s[k].buf != null && s[k].buf.ToPiece() == Piece(ps[k].bytes, false, false)
    requires out.buf != null && out.buf.ToPiece() == FooterPiece(footer)
    ensures Filled(s[..k + 1] + [out]) && Pieces(s[..k + 1] + [out]) == EditAt(ps, k, footer)
  {
    PiecesAre(s[..k + 1] + [out], EditAt(ps, k, footer));
  }

  /** A new last node for the buffer b behind p, the last link of u. */
  method InsertLink(pool: Pool, head: Link?, ghost u: seq<Link>, p: Link, b: Buf) returns (out: Link?)
    requires pool.Valid() && Segment(head, u) && Filled(u) && Apart(u, pool.free) && u[|u| - 1] == p
    requires forall i :: 0 <= i < |u| - 1 ==> u[i].buf != p.buf
    requires p.buf != b
    modifies pool`chain, pool`grants, pool`free, pool.free, p`next, p.buf`lastBuf, p.buf`lastInChain
    ensures pool.Valid()
    ensures out != null <==> old(pool.free) != [] || old(pool.Granted(0))
    ensures forall l :: l in pool.free ==> l in old(pool.free)
    ensures AllTrue(old(pool.grants)) ==> AllTrue(pool.grants)
    ensures out == null ==> p.next == old(p.next) && p.buf.ToPiece() == old(p.buf.ToPiece()) && pool.free == []
    ensures out != null ==>
              && (fresh(out) || out in old(pool.free)) && IsChain(head, u + [out]) && Apart(u + [out], pool.free)
              && out.buf == b && b.ToPiece() == old(b.ToPiece())
              && p.buf.ToPiece() == Piece(old(p.buf.bytes), false, false)
  {
    assert p in u;
    out := TakeLink(pool, head, u);
    if out == null {
      return;
    }
    AddLast(head, u, p, out, b);
  }

  /** The links up to k keep their place. */
  predicate KeptUpTo(s: seq<Link>, t: seq<Link>, k: nat) {
    k < |s| && |t| == k + 2 && forall i :: 0 <= i <= k ==> t[i] == s[i]
  }

  /** The edit at a link whose buffer has bytes. */
  method InsertAfter(pool: Pool, head: Link?, p: Link, b: Buf, ghost s: seq<Link>, ghost k: nat,
                     ghost footprint: set<object?>, ghost ps: seq<Piece>)
    returns (ok: bool, ghost t: seq<Link>, ghost footprint': set<object?>)
    requires Ready(pool, head, s, footprint) && ps == Pieces(s)
    requires k < |s| && s[k] == p && p.buf.bytes != [] && forall i :: 0 <= i < k ==> s[i].buf != p.buf
    requires b in footprint && b.lastBuf && b.lastInChain && forall i :: 0 <= i < |s| ==> s[i].buf != b
    modifies footprint
    ensures Ready(pool, head, t, footprint') && footprint <= footprint' && fresh(footprint' - footprint)
    ensures ok <==> old(pool.free) != [] || old(pool.Granted(0))
    ensures Pieces(t) == if ok then EditAt(ps, k, old(b.bytes)) else ps
    ensures if ok then KeptUpTo(s, t, k) else t == s
    ensures AllTrue(old(pool.grants)) ==> AllTrue(pool.grants)
  {
    SegmentOf(head, s, k, pool.free);
    var out := InsertLink(pool, head, s[..k + 1], p, b);
    if out != null {
      ghost var last: Link := out;
      EditedPieces(s, k, last, ps, b.bytes);
      return true, s[..k + 1] + [last], footprint + {last};
    }
    PiecesAre(s, ps);
    return false, s, footprint;
  }

  /** Set to the last node: the edit at a link whose buffer is empty. */
  method InsertInPlace(pool: Pool, head: Link?, p: Link, b: Buf, ghost s: seq<Link>, ghost k: nat,
                       ghost footprint: set<object?>, ghost ps: seq<Piece>)
    requires Ready(pool, head, s, footprint) && ps == Pieces(s)
    requires k < |s| && s[k] == p && p.buf.bytes == [] && b in footprint && b.lastBuf && b.lastInChain
    modifies p`buf
    ensures Ready(pool, head, s, footprint) && Pieces(s) == EditAt(ps, k, b.bytes)
  {
    ReplaceLast(head, s, p, k, b);
  }

  /** Put the footer buffer b at p, link k: in place of a zero-size buffer, else on a link of its own. */
  method InsertBuf(pool: Pool, head: Link?, p: Link, b: Buf, ghost s: seq<Link>, ghost k: nat,
                   ghost footprint: set<object?>, ghost ps: seq<Piece>)
    returns (ok: bool, ghost t: seq<Link>, ghost footprint': set<object?>)
    requires Ready(pool, head, s, footprint) && ps == Pieces(s)
    requires k < |s| && s[k] == p && forall i :: 0 <= i < k ==> s[i].buf != p.buf
    requires b in footprint && b.lastBuf && b.lastInChain && forall i :: 0 <= i < |s| ==> s[i].buf != b
    modifies footprint
    ensures Ready(pool, head, t, footprint') && footprint <= footprint' && fresh(footprint' - footprint)
    ensures ok <==> ps[k].bytes == [] || old(pool.free) != [] || old(pool.Granted(0))
    ensures Pieces(t) == if ok then EditAt(ps, k, old(b.bytes)) else ps
    ensures t == s || (ok && ps[k].bytes != [] && KeptUpTo(s, t, k))
    ensures AllTrue(old(pool.grants)) ==> AllTrue(pool.grants)
  {
    if p.buf.Size() == 0 {
      InsertInPlace(pool, head, p, b, s, k, footprint, ps);
      return true, s, footprint;
    }
    ok, t, footprint' := InsertAfter(pool, head, p, b, s, k, footprint, ps);
  }

  /** An edit gets its memory when the buffer does and then the link, if one must be asked for. */
  lemma EditNeeds(grants: seq<bool>, free: nat, ps: seq<Piece>, k: nat)
    requires k < |ps|
    ensures EditGranted(grants, free, ps, k) <==>
            AllGranted(grants, 1) && (ps[k].bytes == [] || free > 0 || AllGranted(After(grants, 1), 1))
  {
    if AllGranted(grants, 1) {
      GrantedFurther(grants, 1, 1);
    }
  }

  /** The edit both filters make at p, link k. */
  method InsertFooter(pool: Pool, head: Link?, p: Link, footer: seq<Byte>, ghost s: seq<Link>, ghost k: nat,
                      ghost footprint: set<object?>, ghost ps: seq<Piece>)
    returns (ok: bool, ghost t: seq<Link>, ghost footprint': set<object?>)
    requires Ready(pool, head, s, footprint) && ps == Pieces(s)
    requires k < |s| && s[k] == p && forall i :: 0 <= i < k ==> s[i].buf != p.buf
    modifies footprint
    ensures Ready(pool, head, t, footprint') && footprint <= footprint' && fresh(footprint' - footprint)
    ensures ok <==> EditGranted(old(pool.grants), |old(pool.free)|, ps, k)
    ensures Pieces(t) == if ok then EditAt(ps, k, footer) else ps
    ensures t == s || (ok && ps[k].bytes != [] && KeptUpTo(s, t, k))
    ensures AllTrue(old(pool.grants)) ==> AllTrue(pool.grants)
  {
    EditNeeds(pool.grants, |pool.free|, ps, k);
    var b;
    b, footprint' := FooterBeside(pool, footer, head, s, footprint, ps);
    if b == null {
      return false, s, footprint';
    }
    ghost var mid := footprint';
    ok, t, footprint' := InsertBuf(pool, head, p, b, s, k, mid, ps);
    assert footprint' - footprint <= (footprint' - mid) + (mid - footprint);
  }

  /** The tests both body filters start with: a footer is configured and the header has gone by,
      but not the footer. */
  method FooterDue(r: Request, tag: nat, cf: Conf) returns (ok: bool, due: bool)
    modifies r`ctx, r.pool`grants
    ensures ok <==> cf.footer == [] || tag in old(r.ctx) || AllGranted(old(r.pool.grants), 1)
    ensures due <==> cf.footer != [] && tag in old(r.ctx) && old(r.ctx)[tag] == 1
    ensures due ==> ok && r.ctx == old(r.ctx) && r.pool.grants == old(r.pool.grants)
    ensures !ok ==> r.ctx == old(r.ctx)
    ensures forall x :: FlagOf(r.ctx, x) == FlagOf(old(r.ctx), x)
    ensures forall x :: x != tag ==> (x in r.ctx <==> x in old(r.ctx))
    ensures tag in old(r.ctx) ==> tag in r.ctx
    ensures AllTrue(old(r.pool.grants)) ==> AllTrue(r.pool.grants)
  {
    if cf.footer == [] {
      return true, false;
    }
    ok := r.Data(tag);
    due := ok && r.ctx[tag] == 1;
  }

  /** What a body call starts from: contexts, the pool's answers and free links, and the chain as it reads. */
  datatype Start = Start(ctx: map<nat, nat>, grants: seq<bool>, free: nat, ps: seq<Piece>)

  ghost function Now(r: Request, s: seq<Link>): Start
    requires Filled(s)
    reads r, r.pool, s, Bufs(s)
  {
    Start(r.ctx, r.pool.grants, |r.pool.free|, Pieces(s))
  }

  /** The flag and the chain after a body call whose edit belongs at link k. */
  ghost predicate BodyDone(b: Start, tag: nat, cf: Conf, k: nat, ok: bool, ctx: map<nat, nat>, qs: seq<Piece>)
    requires k <= |b.ps|
  {
    var edited := cf.footer != [] && FlagOf(b.ctx, tag) == 1 && k < |b.ps|;
    && (ok <==> BodyGranted(b.ctx, tag, cf, b.grants, b.free, b.ps, k))
    && qs == (if ok && edited then EditAt(b.ps, k, cf.footer) else b.ps)
    && FlagOf(ctx, tag) == (if edited then 2 else FlagOf(b.ctx, tag)) && (tag in b.ctx ==> tag in ctx)
    && (forall x :: x != tag ==> FlagOf(ctx, x) == FlagOf(b.ctx, x) && (x in ctx <==> x in b.ctx))
  }

  /** The state after a body call on the chain s that left the chain t. */
  ghost predicate BodyCall(b: Start, r: Request, tag: nat, cf: Conf, head: Link?, s: seq<Link>, k: nat,
                           ok: bool, t: seq<Link>, footprint: set<object?>)
    reads r, r.pool, r.pool.free, t, Bufs(t)
  {
    && Ready(r.pool, head, t, footprint)
    && k <= |b.ps| && BodyDone(b, tag, cf, k, ok, r.ctx, Pieces(t))
    && (t == s || (ok && k < |b.ps| && b.ps[k].bytes != [] && KeptUpTo(s, t, k)))
    && (AllTrue(b.grants) ==> AllTrue(r.pool.grants))
  }

  lemma EditDone(b: Start, tag: nat, cf: Conf, k: nat, ok: bool, qs: seq<Piece>)
    requires cf.footer != [] && tag in b.ctx && b.ctx[tag] == 1 && k < |b.ps|
    requires ok <==> EditGranted(b.grants, b.free, b.ps, k)
    requires qs == if ok then EditAt(b.ps, k, cf.footer) else b.ps
    ensures BodyDone(b, tag, cf, k, ok, b.ctx[tag := 2], qs)
  {
  }

  lemma EditCall(b: Start, r: Request, tag: nat, cf: Conf, head: Link?, s: seq<Link>, k: nat, ok: bool, t: seq<Link>,
                 footprint: set<object?>)
    requires Ready(r.pool, head, t, footprint) && cf.footer != [] && tag in b.ctx && b.ctx[tag] == 1 && k < |b.ps|
    requires r.ctx == b.ctx[tag := 2] && (ok <==> EditGranted(b.grants, b.free, b.ps, k))
    requires Pieces(t) == if ok then EditAt(b.ps, k, cf.footer) else b.ps
    requires t == s || (ok && b.ps[k].bytes != [] && KeptUpTo(s, t, k))
    requires AllTrue(b.grants) ==> AllTrue(r.pool.grants)
    ensures BodyCall(b, r, tag, cf, head, s, k, ok, t, footprint)
  {
    EditDone(b, tag, cf, k, ok, Pieces(t));
  }

  /** The flag goes to 2; the chain is not touched. */
  method MoveFlag(r: Request, tag: nat, ghost head: Link?, ghost s: seq<Link>, ghost footprint: set<object?>,
                  ghost b: Start)
    requires Ready(r.pool, head, s, footprint) && r !in footprint && b == Now(r, s)
    modifies r`ctx
    ensures r.ctx == b.ctx[tag := 2] && Ready(r.pool, head, s, footprint) && b.ps == Pieces(s)
    ensures r.pool.grants == b.grants && |r.pool.free| == b.free
  {
    r.ctx := r.ctx[tag := 2];
    PiecesAre(s, b.ps);
  }

  /** Once the end is found at p, link k: move the flag on, then make the edit. */
  method EditBody(r: Request, tag: nat, cf: Conf, head: Link?, p: Link, ghost s: seq<Link>, ghost k: nat,
                  ghost footprint: set<object?>, ghost b: Start)
    returns (ok: bool, ghost t: seq<Link>, ghost footprint': set<object?>)
    requires Ready(r.pool, head, s, footprint) && r !in footprint && b == Now(r, s)
    requires cf.footer != [] && tag in r.ctx && r.ctx[tag] == 1
    requires k < |s| && s[k] == p && forall i :: 0 <= i < k ==> s[i].buf != p.buf
    modifies r`ctx, footprint
    ensures BodyCall(b, r, tag, cf, head, s, k, ok, t, footprint') && footprint <= footprint'
            && fresh(footprint' - footprint)
  {
    MoveFlag(r, tag, head, s, footprint, b);
    ok, t, footprint' := InsertFooter(r.pool, head, p, cf.footer, s, k, footprint, b.ps);
    EditCall(b, r, tag, cf, head, s, k, ok, t, footprint');
  }

  /** The search and the edit, when a footer is due. */
  method EditAtEof(r: Request, tag: nat, cf: Conf, head: Link?, ghost s: seq<Link>,
                   ghost footprint: set<object?>, ghost b: Start)
    returns (ok: bool, ghost t: seq<Link>, ghost footprint': set<object?>)
    requires Ready(r.pool, head, s, footprint) && r !in footprint && b == Now(r, s)
    requires cf.footer != [] && tag in r.ctx && r.ctx[tag] == 1
    modifies r`ctx, footprint
    ensures BodyCall(b, r, tag, cf, head, s, FirstEof(b.ps), ok, t, footprint') && footprint <= footprint'
            && fresh(footprint' - footprint)
  {
    var p;
    ghost var k;
    p, k := FindEof(head, s);
    if p == null {
      return true, s, footprint;
    }
    ok, t, footprint' := EditBody(r, tag, cf, head, p, s, k, footprint, b);
  }

  /** A body call that makes no edit leaves the chain as it was. */
  lemma Untouched(b: Start, r: Request, tag: nat, cf: Conf, head: Link?, s: seq<Link>, k: nat, ok: bool,
                  footprint: set<object?>)
    requires Ready(r.pool, head, s, footprint) && Pieces(s) == b.ps && k <= |b.ps|
    requires !(cf.footer != [] && tag in b.ctx && b.ctx[tag] == 1)
    requires ok <==> cf.footer == [] || tag in b.ctx || AllGranted(b.grants, 1)
    requires (forall x :: FlagOf(r.ctx, x) == FlagOf(b.ctx, x)) && (tag in b.ctx ==> tag in r.ctx)
    requires forall x :: x != tag ==> (x in r.ctx <==> x in b.ctx)
    requires AllTrue(b.grants) ==> AllTrue(r.pool.grants)
    ensures BodyCall(b, r, tag, cf, head, s, k, ok, s, footprint)
  {
  }

  /** http/filter: do_body_filter, on the chain `head` whose links are s. */
  method DoBodyFilter(r: Request, tag: nat, cf: Conf, head: Link?, ghost s: seq<Link>,
                      ghost footprint: set<object?>, ghost b: Start)
    returns (ok: bool, ghost t: seq<Link>, ghost footprint': set<object?>)
    requires Ready(r.pool, head, s, footprint) && r !in footprint && b == Now(r, s)
    modifies r`ctx, footprint
    ensures BodyCall(b, r, tag, cf, head, s, FirstEof(b.ps), ok, t, footprint') && footprint <= footprint'
            && fresh(footprint' - footprint)
  {
    var due;
    ok, due := FooterDue(r, tag, cf);
    PiecesAre(s, b.ps);
    if !due {
      Untouched(b, r, tag, cf, head, s, FirstEof(b.ps), ok, footprint);
      return ok, s, footprint;
    }
    ok, t, footprint' := EditAtEof(r, tag, cf, head, s, footprint, b);
  }

  /**
   http/filter: a body call that gets its memory is one step of the specification;
   one that does not moves the flag all the same.
   */
  lemma BodyIsStage(b: Start, tag: nat, cf: Conf, ok: bool, ctx: map<nat, nat>, qs: seq<Piece>)
    requires BodyDone(b, tag, cf, FirstEof(b.ps), ok, ctx, qs)
    ensures tag in b.ctx || ok ==>
              StageOr(FlagOf(b.ctx, tag), cf, Body(b.ps), ok) == (FlagOf(ctx, tag), if ok then [Body(qs)] else [])
    ensures tag !in b.ctx && !ok ==> FlagOf(ctx, tag) == 0 && qs == b.ps
    ensures AllTrue(b.grants) ==> ok
  {
  }

  /**
   What a body call leaves on the links, in either filter, when its edit belongs at
   link k: the flag is 2 in any case. With memory the footer's buffer, which ends the
   response, stands in the place of an empty one or on a new last link behind one that
   keeps its bytes and loses both marks; every earlier link is as it was. Without
   memory every link is.
   */
  lemma EditedLinks(b: Start, r: Request, tag: nat, cf: Conf, head: Link?, s: seq<Link>, k: nat, ok: bool,
                    t: seq<Link>, footprint: set<object?>)
    requires BodyCall(b, r, tag, cf, head, s, k, ok, t, footprint) && |s| == |b.ps|
    requires cf.footer != [] && tag in b.ctx && b.ctx[tag] == 1 && k < |b.ps|
    ensures tag in r.ctx && r.ctx[tag] == 2
    ensures ok <==> AllGranted(b.grants, if b.ps[k].bytes == [] || b.free > 0 then 1 else 2)
    ensures !ok ==> t == s && forall i :: 0 <= i < |t| ==> t[i].buf.ToPiece() == b.ps[i]
    ensures ok ==> k < |t| && forall i :: 0 <= i < k ==> t[i] == s[i] && t[i].buf.ToPiece() == b.ps[i]
    ensures ok && b.ps[k].bytes == [] ==> t == s && EndsWith(t[k], cf.footer)
    ensures ok && b.ps[k].bytes != [] ==>
              && |t| == k + 2 && t[k] == s[k] && t[k].next == t[k + 1] && t[k + 1].next == null
              && t[k].buf.bytes == b.ps[k].bytes && !t[k].buf.lastBuf && !t[k].buf.lastInChain
              && EndsWith(t[k + 1], cf.footer)
  {
    assert forall i :: 0 <= i < |t| ==> Pieces(t)[i] == t[i].buf.ToPiece();
  }

  /** A link whose buffer is these bytes and ends the response. */
  ghost predicate EndsWith(l: Link, bytes: seq<Byte>)
    reads l, l.buf
  {
    l.buf != null && l.buf.bytes == bytes && l.buf.lastBuf && l.buf.lastInChain
  }

  /** The iterator loop of legacy/footer: the first link whose buffer carries either end flag. */
  method FindLast(head: Link?, ghost s: seq<Link>) returns (p: Link?, ghost k: nat)
    requires IsChain(head, s) && Filled(s)
    ensures k == FirstLast(Pieces(s))
    ensures p == if k < |s| then s[k] else null
    ensures p != null ==> forall i :: 0 <= i < k ==> s[i].buf != p.buf
  {
    p := head;
    k := 0;
    while p != null
      invariant 0 <= k <= |s| && p == (if k < |s| then s[k] else null)
      invariant forall i :: 0 <= i < k ==> !Pieces(s)[i].lastBuf && !Pieces(s)[i].lastInChain
      decreases |s| - k
    {
      if p.buf.Last() {
        break;
      }
      p := p.next;
      k := k + 1;
    }
    FirstLastIs(Pieces(s), k);
    assert forall i :: 0 <= i < k ==> Pieces(s)[i] == s[i].buf.ToPiece();
  }

  /** The older filter's search and edit, when a footer is due. */
  method EditAtLast(r: Request, tag: nat, cf: Conf, head: Link?, ghost s: seq<Link>,
                    ghost footprint: set<object?>, ghost b: Start)
    returns (ok: bool, ghost t: seq<Link>, ghost footprint': set<object?>)
    requires Ready(r.pool, head, s, footprint) && r !in footprint && b == Now(r, s)
    requires cf.footer != [] && tag in r.ctx && r.ctx[tag] == 1
    modifies r`ctx, footprint
    ensures BodyCall(b, r, tag, cf, head, s, FirstLast(b.ps), ok, t, footprint') && footprint <= footprint'
            && fresh(footprint' - footprint)
  {
    var p;
    ghost var k;
    p, k := FindLast(head, s);
    if p == null {
      return true, s, footprint;
    }
    ok, t, footprint' := EditBody(r, tag, cf, head, p, s, k, footprint, b);
  }

  /** legacy/footer: the same edit at the first end mark of either kind. */
  method LegacyDoBodyFilter(r: Request, tag: nat, cf: Conf, head: Link?, ghost s: seq<Link>,
                            ghost footprint: set<object?>, ghost b: Start)
    returns (ok: bool, ghost t: seq<Link>, ghost footprint': set<object?>)
    requires Ready(r.pool, head, s, footprint) && r !in footprint && b == Now(r, s)
    modifies r`ctx, footprint
    ensures BodyCall(b, r, tag, cf, head, s, FirstLast(b.ps), ok, t, footprint') && footprint <= footprint'
            && fresh(footprint' - footprint)
  {
    var due;
    ok, due := FooterDue(r, tag, cf);
    PiecesAre(s, b.ps);
    if !due {
      Untouched(b, r, tag, cf, head, s, FirstLast(b.ps), ok, footprint);
      return ok, s, footprint;
    }
    ok, t, footprint' := EditAtLast(r, tag, cf, head, s, footprint, b);
  }

  /** The same for the older filter. */
  lemma BodyIsLegacyStage(b: Start, tag: nat, cf: Conf, ok: bool, ctx: map<nat, nat>, qs: seq<Piece>)
    requires BodyDone(b, tag, cf, FirstLast(b.ps), ok, ctx, qs)
    ensures tag in b.ctx || ok ==>
              LegacyStageOr(FlagOf(b.ctx, tag), cf, Body(b.ps), ok) == (FlagOf(ctx, tag), if ok then [Body(qs)] else [])
    ensures tag !in b.ctx && !ok ==> FlagOf(ctx, tag) == 0 && qs == b.ps
    ensures AllTrue(b.grants) ==> ok
  {
  }
}
