/**
 The filter stack at work: a header or a body call enters at the top, each footer
 filter edits it and calls NgxFilter::next, and nginx's own filter ends it.
 */
module Pipeline {
  import opened Buffers
  import opened Chains
  import opened Entries
  import opened FooterSpec
  import opened FooterStack
  import opened Filters
  import opened FooterFilter

  const NGX_OK := 0
  const NGX_ERROR := -1

  /** How many header calls are among these. */
  function HeaderCount(ms: seq<Msg>): nat {
    if ms == [] then 0 else HeaderCount(ms[..|ms| - 1]) + if ms[|ms| - 1].Header? then 1 else 0
  }

  /** Header calls received beyond the one that header_sent admits. */
  ghost function Surplus(r: Request): int
    reads r
  {
    HeaderCount(r.received) - if r.headerSent then 1 else 0
  }

  function FlagsOf(ctx: map<nat, nat>, order: seq<nat>): (r: seq<nat>)
    ensures |r| == |order|
    ensures forall i :: 0 <= i < |order| ==> r[i] == if order[i] in ctx then ctx[order[i]] else 0
  {
    if order == [] then [] else [FlagOf(ctx, order[0])] + FlagsOf(ctx, order[1..])
  }

  function ConfsOf(confs: map<nat, Conf>, order: seq<nat>): (r: seq<Conf>)
    requires forall x :: x in order ==> x in confs
    ensures |r| == |order|
    ensures forall i :: 0 <= i < |order| ==> r[i] == confs[order[i]]
  {
    if order == [] then []
    else
      assert forall x :: x in order[1..] ==> x in order;
      [confs[order[0]]] + ConfsOf(confs, order[1..])
  }

  lemma FlagsKept(ctx: map<nat, nat>, ctx': map<nat, nat>, order: seq<nat>)
    requires forall x :: x in order ==> FlagOf(ctx', x) == FlagOf(ctx, x)
    ensures FlagsOf(ctx', order) == FlagsOf(ctx, order)
  {
    if order != [] {
      assert forall x :: x in order[1..] ==> x in order;
      FlagsKept(ctx, ctx', order[1..]);
    }
  }

  /** The filters a call meets, top first: a path of the stack on which every filter is configured. */
  ghost predicate Order(s: Stack, from: Ref, order: seq<nat>, confs: map<nat, Conf>) {
    Path(s, from, order) && forall x :: x in order ==> x in confs
  }

  lemma OrderTail(s: Stack, from: Ref, order: seq<nat>, confs: map<nat, Conf>)
    requires Order(s, from, order, confs) && order != []
    ensures order[0] in s.next && order[0] in confs && order[0] !in order[1..]
    ensures from == Filter(order[0]) && Order(s, s.next[order[0]], order[1..], confs)
  {
    PathDistinct(s, from, order);
    assert forall x :: x in order[1..] ==> x in order;
  }

  /** Every filter has its context. */
  ghost predicate AllOpen(ctx: map<nat, nat>, order: seq<nat>) {
    forall x :: x in order ==> x in ctx
  }

  ghost predicate Grows(ctx: map<nat, nat>, ctx': map<nat, nat>) {
    forall x :: x in ctx ==> x in ctx'
  }

  /** A header call refused at the first filter it meets. */
  lemma HeaderFails(ctx: map<nat, nat>, ctx': map<nat, nat>, order: seq<nat>, cfs: seq<Conf>, room: nat,
                    nalloc: Positive, grants: seq<bool>, n: int, hs: seq<Kv>, hs': seq<Kv>)
    requires order != [] && |cfs| == |order| && FlagsOf(ctx', order[1..]) == FlagsOf(ctx, order[1..])
    requires HeaderRefused(ctx, order[0], cfs[0], room, nalloc, grants, hs, hs') && FlagOf(ctx, order[0]) == 0
    requires FlagOf(ctx', order[0]) == if order[0] !in ctx && !AllGranted(grants, 1) then 0 else 1
    ensures FailedCall(FlagsOf(ctx, order), cfs, Header(n, hs), FlagsOf(ctx', order), Header(n, hs'))
  {
    assert hs + Listed(cfs[0].headers)[..0] == hs;
    assert FailedHere(0, cfs[0], Header(n, hs), FlagOf(ctx', order[0]), Header(n, hs'));
  }

  /** The header call at its first filter. */
  method FilterHeader(r: Request, tag: nat, cf: Conf, ghost order: seq<nat>, ghost cfs: seq<Conf>) returns (ok: bool)
    requires order != [] && tag == order[0] && tag !in order[1..] && |cfs| == |order| && cf == cfs[0]
    modifies r`ctx, r`headers, r`room, r`contentLength, r.pool`grants
    ensures ok ==> (FlagOf(r.ctx, tag), r.HeaderMsg()) == Stage(FlagOf(old(r.ctx), tag), cf, old(r.HeaderMsg()))
    ensures !ok ==>
              FailedCall(old(FlagsOf(r.ctx, order)), cfs, old(r.HeaderMsg()), FlagsOf(r.ctx, order), r.HeaderMsg())
    ensures FlagsOf(r.ctx, order[1..]) == old(FlagsOf(r.ctx, order[1..]))
    ensures forall x :: x != tag ==> FlagOf(r.ctx, x) == FlagOf(old(r.ctx), x)
    ensures AllTrue(old(r.pool.grants)) ==> ok && AllTrue(r.pool.grants)
    ensures Grows(old(r.ctx), r.ctx) && (ok ==> tag in r.ctx)
  {
    ghost var ctx, room, grants, n, hs := r.ctx, r.room, r.pool.grants, r.contentLength, r.headers;
    ok := DoHeaderFilter(r, tag, cf);
    FlagsKept(ctx, r.ctx, order[1..]);
    if !ok {
      HeaderFails(ctx, r.ctx, order, cfs, room, r.nalloc, grants, n, hs, r.headers);
    }
  }

  /** The header filter function behind f: NgxFilter::next until nginx's own. */
  method RunHeader(table: FilterTable, confs: map<nat, Conf>, r: Request, f: Ref,
                   ghost order: seq<nat>) returns (rc: int)
    requires Order(table.HeaderStack(), f, order, confs)
    modifies r`ctx, r`headers, r`room, r`contentLength, r`headerSent, r`received, r.pool`grants
    ensures rc == 0 || rc == -1
    ensures rc == NGX_OK ==>
              var (flags, m) := Pass(old(FlagsOf(r.ctx, order)), ConfsOf(confs, order), old(r.HeaderMsg()));
              && FlagsOf(r.ctx, order) == flags && r.HeaderMsg() == m
              && r.headerSent && r.received == old(r.received) + [m]
    ensures rc != NGX_OK ==>
              && r.received == old(r.received) && r.headerSent == old(r.headerSent)
              && FailedCall(old(FlagsOf(r.ctx, order)), ConfsOf(confs, order), old(r.HeaderMsg()),
                            FlagsOf(r.ctx, order), r.HeaderMsg())
    ensures AllTrue(old(r.pool.grants)) ==> rc == NGX_OK && AllTrue(r.pool.grants)
    ensures forall x :: x !in order ==> FlagOf(r.ctx, x) == FlagOf(old(r.ctx), x)
    ensures Grows(old(r.ctx), r.ctx) && (rc == NGX_OK ==> AllOpen(r.ctx, order))
    decreases |order|
  {
    if f == Base {
      r.headerSent := true;
      r.received := r.received + [r.HeaderMsg()];
      return NGX_OK;
    }
    OrderTail(table.HeaderStack(), f, order, confs);
    var ok := FilterHeader(r, f.tag, confs[f.tag], order, ConfsOf(confs, order));
    if !ok {
      return NGX_ERROR;
    }
    rc := RunHeader(table, confs, r, table.nextHeader[f.tag], order[1..]);
  }

  /** A body call refused at the first filter it meets. */
  lemma BodyFails(b: Start, ctx': map<nat, nat>, order: seq<nat>, cfs: seq<Conf>, qs: seq<Piece>)
    requires order != [] && |cfs| == |order| && FlagsOf(ctx', order[1..]) == FlagsOf(b.ctx, order[1..])
    requires BodyDone(b, order[0], cfs[0], FirstEof(b.ps), false, ctx', qs)
    ensures FailedSomewhere(FlagsOf(b.ctx, order), cfs, Body(b.ps), FlagsOf(ctx', order))
  {
    assert FailedHere(FlagOf(b.ctx, order[0]), cfs[0], Body(b.ps), FlagOf(ctx', order[0]), Body(b.ps));
    assert FailedCall(FlagsOf(b.ctx, order), cfs, Body(b.ps), FlagsOf(ctx', order), Body(b.ps));
  }

  /** A body call refused further down. */
  lemma BodyFailsBelow(ctx: map<nat, nat>, ctx': map<nat, nat>, order: seq<nat>, cfs: seq<Conf>, m: Msg, m1: Msg)
    requires order != [] && |cfs| == |order|
    requires Stage(FlagOf(ctx, order[0]), cfs[0], m) == (FlagOf(ctx', order[0]), m1)
    requires FailedSomewhere(FlagsOf(ctx, order[1..]), cfs[1..], m1, FlagsOf(ctx', order[1..]))
    ensures FailedSomewhere(FlagsOf(ctx, order), cfs, m, FlagsOf(ctx', order))
  {
    var m' :| FailedCall(FlagsOf(ctx, order[1..]), cfs[1..], m1, FlagsOf(ctx', order[1..]), m');
    assert FailedCall(FlagsOf(ctx, order), cfs, m, FlagsOf(ctx', order), m');
  }

  /** The body call at its first filter. */
  method FilterBody(r: Request, tag: nat, cf: Conf, head: Link?, ghost order: seq<nat>, ghost cfs: seq<Conf>,
                    ghost s: seq<Link>, ghost footprint: set<object?>)
    returns (ok: bool, ghost t: seq<Link>, ghost footprint': set<object?>)
    requires Ready(r.pool, head, s, footprint) && r !in footprint
    requires order != [] && tag == order[0] && tag !in order[1..] && |cfs| == |order| && cf == cfs[0]
    modifies r`ctx, footprint
    ensures Ready(r.pool, head, t, footprint') && footprint <= footprint' && fresh(footprint' - footprint)
    ensures ok ==> Stage(FlagOf(old(r.ctx), tag), cf, Body(old(Pieces(s)))) == (FlagOf(r.ctx, tag), Body(Pieces(t)))
    ensures !ok ==> FailedSomewhere(old(FlagsOf(r.ctx, order)), cfs, Body(old(Pieces(s))), FlagsOf(r.ctx, order))
    ensures FlagsOf(r.ctx, order[1..]) == old(FlagsOf(r.ctx, order[1..]))
    ensures forall x :: x != tag ==> FlagOf(r.ctx, x) == FlagOf(old(r.ctx), x)
    ensures AllTrue(old(r.pool.grants)) ==> ok && AllTrue(r.pool.grants)
    ensures Grows(old(r.ctx), r.ctx)
    ensures tag in old(r.ctx) && !HasEof(old(Pieces(s))) ==> ok && Pieces(t) == old(Pieces(s))
  {
    ghost var b := Now(r, s);
    ok, t, footprint' := DoBodyFilter(r, tag, cf, head, s, footprint, b);
    BodyIsStage(b, tag, cf, ok, r.ctx, Pieces(t));
    FlagsKept(b.ctx, r.ctx, order[1..]);
    if !ok {
      BodyFails(b, r.ctx, order, cfs, Pieces(t));
    }
  }

  /** The body filter function behind f. */
  method RunBody(table: FilterTable, confs: map<nat, Conf>, r: Request, f: Ref, head: Link?,
                 ghost order: seq<nat>, ghost s: seq<Link>, ghost footprint: set<object?>)
    returns (rc: int, ghost footprint': set<object?>)
    requires Order(table.BodyStack(), f, order, confs)
    requires Ready(r.pool, head, s, footprint) && r !in footprint && table !in footprint
    modifies r`ctx, r`received, footprint
    ensures rc == 0 || rc == -1
    ensures rc == NGX_OK ==>
              var (flags, m) := Pass(old(FlagsOf(r.ctx, order)), ConfsOf(confs, order), Body(old(Pieces(s))));
              FlagsOf(r.ctx, order) == flags && r.received == old(r.received) + [m]
    ensures rc != NGX_OK ==>
              && r.received == old(r.received)
              && FailedSomewhere(old(FlagsOf(r.ctx, order)), ConfsOf(confs, order), Body(old(Pieces(s))),
                                 FlagsOf(r.ctx, order))
    ensures AllTrue(old(r.pool.grants)) ==> rc == NGX_OK && AllTrue(r.pool.grants)
    ensures forall x :: x !in order ==> FlagOf(r.ctx, x) == FlagOf(old(r.ctx), x)
    ensures Grows(old(r.ctx), r.ctx) && (AllOpen(old(r.ctx), order) && !HasEof(old(Pieces(s))) ==> rc == NGX_OK)
    ensures r.pool.Valid() && FreeWithin(r.pool, footprint') && footprint <= footprint'
            && fresh(footprint' - footprint)
    decreases |order|
  {
    if f == Base {
      r.received := r.received + [Body(Pieces(s))];
      return NGX_OK, footprint;
    }
    OrderTail(table.BodyStack(), f, order, confs);
    ghost var m, t := Body(Pieces(s)), s;
    var ok;
    ok, t, footprint' := FilterBody(r, f.tag, confs[f.tag], head, order, ConfsOf(confs, order), s, footprint);
    if !ok {
      return NGX_ERROR, footprint';
    }
    ghost var m1, mid := Body(Pieces(t)), footprint';
    rc, footprint' := RunBody(table, confs, r, table.nextBody[f.tag], head, order[1..], t, mid);
    assert footprint' - footprint <= (footprint' - mid) + (mid - footprint);
    if rc != NGX_OK {
      BodyFailsBelow(old(r.ctx), r.ctx, order, ConfsOf(confs, order), m, m1);
    }
  }
}
