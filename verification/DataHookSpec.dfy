/**
 The data hook (legacy/datahook) as a state machine over the contexts of a tree of
 requests: a request that is hooking takes the headers and the body of its
 subrequests into its own context. A call's memory appears as what it was granted.
 */
module DataHookSpec {
  import opened Buffers
  import opened Chains
  import opened Numbers

  const NGX_OK := 0
  const NGX_HTTP_OK := 200
  const NGX_HTTP_INTERNAL_SERVER_ERROR := 500

  class Request {
    const parent: Request?
    var ctx: HookCtx?         // the module's context slot
    var needInMemory: bool
    var headerSent: bool

    constructor (parent: Request?)
      ensures this.parent == parent && ctx == null && !headerSent && !needInMemory
    {
      this.parent, ctx, needInMemory, headerSent := parent, null, false, false;
    }
  }

  /** NdgDataHookCtx */
  class HookCtx {
    var hook: bool
    var status: int
    var headers: Request?     // whose headers_out
    var body: Link?
    var doHook: bool
    ghost var links: seq<Link>  // the links of the body
    ghost var bufs: seq<Buf>    // and the buffers they carry

    constructor ()
      ensures View() == NEW_CTX && body == null && links == []
    {
      hook, status, headers, body, doHook, links, bufs := false, 0, null, null, false, [], [];
    }

    ghost function View(): Ctx
      reads this
    {
      Ctx(hook, status, headers, bufs, doHook)
    }
  }

  /** What a context holds; the body as the buffers its links carry. */
  datatype Ctx = Ctx(hook: bool, status: int, headers: Request?, body: seq<Buf>, doHook: bool)

  const NEW_CTX := Ctx(false, 0, null, [], false)

  /** A call that the next filters received. */
  datatype Call = HeaderCall(r: Request) | BodyCall(r: Request, chain: seq<Buf>)

  datatype World = World(ctxs: map<Request, Ctx>, passed: seq<Call>)

  const START := World(map[], [])

  /** What becomes of a call: diverted into the parent, handed to the next filter, dropped, or an error. */
  datatype Route = ToParent | ToNext | Dropped | Failed

  datatype Op =
    | Hooking(r: Request, granted: bool)
    | Header(r: Request, granted: bool)
    | Body(r: Request, chain: seq<Buf>, granted: bool, copied: nat)
    | State(r: Request, rc: int, granted: bool)
    | Clear(r: Request)

  function CtxOf(w: World, r: Request): Ctx {
    if r in w.ctxs then w.ctxs[r] else NEW_CTX
  }

  function Hooked(c: Ctx): Ctx {
    c.(hook := true, status := 0, headers := null, body := [])
  }

  function StatusOf(c: Ctx, rc: int): Ctx {
    if c.status != 0 then c
    else if rc == NGX_OK then c.(status := NGX_HTTP_OK)
    else if rc < NGX_OK then c.(status := NGX_HTTP_INTERNAL_SERVER_ERROR)
    else c.(status := rc)
  }

  predicate Hooks(w: World, p: Request) {
    p in w.ctxs && w.ctxs[p].hook
  }

  /** The header filter diverts: the parent exists, has a context and is hooking. */
  predicate ParentHooks(w: World, r: Request) {
    r.parent != null && Hooks(w, r.parent)
  }

  /** A request already marked is one whose body goes to its parent. */
  predicate Marked(w: World, r: Request) {
    r in w.ctxs && w.ctxs[r].doHook
  }

  /** What a filter call does with what it is given; `copied` links find memory. */
  function RouteOf(w: World, op: Op): Route
    requires op.Header? || op.Body?
  {
    match op
    case Header(r, granted) =>
      if !ParentHooks(w, r) then ToNext else if r in w.ctxs || granted then ToParent else Failed
    case Body(r, chain, granted, copied) =>
      if chain == [] then Dropped
      else if !Marked(w, r) then ToNext
      else if r.parent != null && (r.parent in w.ctxs || granted) && copied >= |chain| then ToParent
      else Failed
  }

  function Update(w: World, r: Request, c: Ctx): World {
    w.(ctxs := w.ctxs[r := c])
  }

  function Pass(w: World, call: Call): World {
    w.(passed := w.passed + [call])
  }

  function Step(w: World, op: Op): World {
    match op
    case Hooking(r, granted) => if r in w.ctxs || granted then Update(w, r, Hooked(CtxOf(w, r))) else w
    case State(r, rc, granted) => if r in w.ctxs || granted then Update(w, r, StatusOf(CtxOf(w, r), rc)) else w
    case Clear(r) => w.(ctxs := w.ctxs - {r})
    case Header(r, granted) =>
      if !ParentHooks(w, r) then Pass(w, HeaderCall(r))
      else if r !in w.ctxs && !granted then w
      else
        var w1 := Update(w, r, CtxOf(w, r).(doHook := true));
        Update(w1, r.parent, CtxOf(w1, r.parent).(headers := r))
    case Body(r, chain, granted, copied) =>
      if chain == [] then w
      else if !Marked(w, r) then Pass(w, BodyCall(r, chain))
      else if r.parent == null || (r.parent !in w.ctxs && !granted) then w
      else
        var c := CtxOf(w, r.parent);
        Update(w, r.parent, c.(body := c.body + chain[..Min(copied, |chain|)]))
  }

  // ---------- where calls go, in every reachable state ----------

  ghost predicate ParentsExist(w: World) {
    forall r :: r in w.ctxs && Marked(w, r) ==> r.parent != null
  }

  /** A marked request has a parent whose context exists and is hooking. */
  ghost predicate Routing(w: World) {
    forall r :: r in w.ctxs && Marked(w, r) ==> ParentHooks(w, r)
  }

  /** The run of some operations from no context at all. */
  function Run(ops: seq<Op>): World {
    if ops == [] then START else Step(Run(ops[..|ops| - 1]), ops[|ops| - 1])
  }

  lemma StepKeepsParents(w: World, op: Op)
    requires ParentsExist(w)
    ensures ParentsExist(Step(w, op))
  {
  }

  lemma StepKeepsRouting(w: World, op: Op)
    requires Routing(w) && !op.Clear?
    ensures Routing(Step(w, op))
  {
  }

  /** Clearing a context breaks the routing exactly when another request is marked to go there. */
  lemma ClearBreaksRouting(w: World, p: Request)
    requires Routing(w)
    ensures Routing(Step(w, Clear(p))) <==> forall r :: r in w.ctxs && r != p && r.parent == p ==> !Marked(w, r)
  {
    var n := Step(w, Clear(p));
    assert forall r :: r in w.ctxs && r != p ==> r in n.ctxs && (Marked(n, r) <==> Marked(w, r));
    assert forall r :: r in n.ctxs ==> r in w.ctxs && r != p;
  }

  /** In every run the parent a body call is diverted to exists; with no context cleared it is hooking. */
  lemma {:induction false} RunRoutes(ops: seq<Op>)
    ensures ParentsExist(Run(ops))
    ensures (forall op :: op in ops ==> !op.Clear?) ==> Routing(Run(ops))
    decreases |ops|
  {
    if ops != [] {
      var init, last := ops[..|ops| - 1], ops[|ops| - 1];
      RunRoutes(init);
      StepKeepsParents(Run(init), last);
      if forall op :: op in ops ==> !op.Clear? {
        assert last in ops;
        StepKeepsRouting(Run(init), last);
      }
    }
  }

  /** The header filter creates a context for the request it marks, never for a parent. */
  lemma HeaderCreatesOwnContext(w: World, r: Request, granted: bool)
    ensures Step(w, Header(r, granted)).ctxs.Keys <= w.ctxs.Keys + {r}
    ensures if RouteOf(w, Header(r, granted)) == ToParent
            then Marked(Step(w, Header(r, granted)), r) && Step(w, Header(r, granted)).ctxs[r.parent].headers == r
            else Step(w, Header(r, granted)).ctxs == w.ctxs
  {
  }

  // ---------- where one chain goes ----------

  /** What is collected starts over: hooking is called, or the context is cleared. */
  ghost predicate Resets(w: World, op: Op, p: Request) {
    op == Clear(p) || (op.Hooking? && op.r == p && (p in w.ctxs || op.granted))
  }

  /** The buffers one operation sends from p's subrequests. */
  function FedBy(op: Op, p: Request): seq<Buf> {
    if op.Body? && op.r.parent == p then op.chain else []
  }

  /** What the body of p's context gains by one operation that does not start it over. */
  function Gained(w: World, op: Op, p: Request): seq<Buf> {
    if op.Body? && op.r.parent == p && Marked(w, op.r) && (p in w.ctxs || op.granted)
    then op.chain[..Min(op.copied, |op.chain|)] else []
  }

  /** The buffers of p's subrequests that one operation hands on. */
  function PassedBy(w: World, op: Op, p: Request): seq<Buf> {
    if op.Body? && op.r.parent == p && !Marked(w, op.r) then op.chain else []
  }

  /** What is lost of one call: the buffers whose links, or whose parent's context, found no memory. */
  function Refused(w: World, op: Op, p: Request): seq<Buf> {
    if op.Body? && op.r.parent == p && Marked(w, op.r)
    then if p in w.ctxs || op.granted then op.chain[Min(op.copied, |op.chain|)..] else op.chain
    else []
  }

  /** One chain goes one way: into the parent's body, on to the next filters, or (refused memory) nowhere. */
  lemma OneWay(w: World, op: Op, p: Request)
    ensures multiset(FedBy(op, p)) ==
            multiset(Gained(w, op, p)) + multiset(PassedBy(w, op, p)) + multiset(Refused(w, op, p))
    ensures !Resets(w, op, p) ==> CtxOf(Step(w, op), p).body == CtxOf(w, p).body + Gained(w, op, p)
    ensures Resets(w, op, p) ==> CtxOf(Step(w, op), p).body == []
  {
    if op.Body? && op.r.parent == p && Marked(w, op.r) && (p in w.ctxs || op.granted) {
      var k := Min(op.copied, |op.chain|);
      assert op.chain == op.chain[..k] + op.chain[k..];
    }
  }

  /** The buffers that some calls carry of p's subrequests. */
  function OfChildren(calls: seq<Call>, p: Request): seq<Buf> {
    if calls == [] then []
    else
      var c := calls[|calls| - 1];
      OfChildren(calls[..|calls| - 1], p) + if c.BodyCall? && c.r.parent == p then c.chain else []
  }

  lemma OfChildrenSnoc(calls: seq<Call>, c: Call, p: Request)
    ensures OfChildren(calls + [c], p) == OfChildren(calls, p) + if c.BodyCall? && c.r.parent == p then c.chain else []
  {
    assert (calls + [c])[..|calls|] == calls;
  }

  /** The call, if any, that one operation hands on. */
  function Handed(w: World, op: Op): seq<Call> {
    match op
    case Header(r, _) => if ParentHooks(w, r) then [] else [HeaderCall(r)]
    case Body(r, chain, _, _) => if chain == [] || Marked(w, r) then [] else [BodyCall(r, chain)]
    case _ => []
  }

  lemma StepPasses(w: World, op: Op)
    ensures Step(w, op).passed == w.passed + Handed(w, op)
  {
    assert w.passed + [] == w.passed;
  }

  lemma HandedIs(w: World, op: Op, p: Request)
    ensures OfChildren(Handed(w, op), p) == PassedBy(w, op, p)
  {
    var h := Handed(w, op);
    if h != [] {
      OfChildrenSnoc([], h[0], p);
      assert [] + [h[0]] == h;
    }
  }

  // ---------- the history of a run ----------

  ghost predicate UnclearedSince(ops: seq<Op>, i: nat, r: Request) {
    forall k :: i < k < |ops| ==> ops[k] != Clear(r)
  }

  /** p called hooking, found its context or the memory for one, and has not been cleared since. */
  ghost predicate HookedAt(ops: seq<Op>, p: Request, i: nat) {
    && i < |ops| && ops[i].Hooking? && ops[i].r == p && (p in Run(ops[..i]).ctxs || ops[i].granted)
    && UnclearedSince(ops, i, p)
  }

  ghost predicate HookedIn(ops: seq<Op>, p: Request) {
    exists i: nat :: HookedAt(ops, p, i)
  }

  /** r's header went by while its parent was hooking, likewise. */
  ghost predicate MarkedAt(ops: seq<Op>, r: Request, i: nat) {
    && i < |ops| && ops[i].Header? && ops[i].r == r && (r in Run(ops[..i]).ctxs || ops[i].granted)
    && r.parent != null && HookedIn(ops[..i], r.parent) && UnclearedSince(ops, i, r)
  }

  ghost predicate MarkedIn(ops: seq<Op>, r: Request) {
    exists i: nat :: MarkedAt(ops, r, i)
  }

  ghost predicate HooksNow(ops: seq<Op>, op: Op, p: Request) {
    op.Hooking? && op.r == p && (p in Run(ops).ctxs || op.granted)
  }

  ghost predicate MarksNow(ops: seq<Op>, op: Op, r: Request) {
    op.Header? && op.r == r && (r in Run(ops).ctxs || op.granted) && r.parent != null && HookedIn(ops, r.parent)
  }

  lemma HookedSnoc(ops: seq<Op>, op: Op, p: Request)
    ensures HookedIn(ops + [op], p) <==> op != Clear(p) && (HookedIn(ops, p) || HooksNow(ops, op, p))
  {
    var all := ops + [op];
    forall i: nat | i < |ops|
      ensures HookedAt(all, p, i) <==> HookedAt(ops, p, i) && op != Clear(p)
    {
      assert all[i] == ops[i] && all[..i] == ops[..i];
      assert forall k :: i < k < |all| ==> all[k] == if k < |ops| then ops[k] else op;
      assert all[|ops|] == op;
    }
    assert all[..|ops|] == ops;
    assert HookedAt(all, p, |ops|) <==> HooksNow(ops, op, p);
  }

  lemma MarkedSnoc(ops: seq<Op>, op: Op, r: Request)
    ensures MarkedIn(ops + [op], r) <==> op != Clear(r) && (MarkedIn(ops, r) || MarksNow(ops, op, r))
  {
    var all := ops + [op];
    forall i: nat | i < |ops|
      ensures MarkedAt(all, r, i) <==> MarkedAt(ops, r, i) && op != Clear(r)
    {
      assert all[i] == ops[i] && all[..i] == ops[..i];
      assert forall k :: i < k < |all| ==> all[k] == if k < |ops| then ops[k] else op;
      assert all[|ops|] == op;
    }
    assert all[..|ops|] == ops;
    assert MarkedAt(all, r, |ops|) <==> MarksNow(ops, op, r);
  }

  /** The two flags say exactly what has happened: hooking was called, and the header went by after it. */
  lemma {:induction false} FlagsAreHistory(ops: seq<Op>, r: Request)
    ensures Hooks(Run(ops), r) <==> HookedIn(ops, r)
    ensures Marked(Run(ops), r) <==> MarkedIn(ops, r)
    decreases |ops|
  {
    if ops != [] {
      var init, op := ops[..|ops| - 1], ops[|ops| - 1];
      assert ops == init + [op];
      FlagsAreHistory(init, r);
      HookedSnoc(init, op, r);
      MarkedSnoc(init, op, r);
      if op.Header? && op.r.parent != null {
        FlagsAreHistory(init, op.r.parent);
      }
    }
  }

  /** An operation that finds or makes p's context: one of p's own, or a body call diverted to it. */
  ghost predicate Touches(ops: seq<Op>, op: Op, p: Request) {
    match op
    case Hooking(r, granted) => r == p && (p in Run(ops).ctxs || granted)
    case State(r, _, granted) => r == p && (p in Run(ops).ctxs || granted)
    case Header(_, _) => MarksNow(ops, op, p)
    case Body(r, chain, granted, _) =>
      chain != [] && MarkedIn(ops, r) && r.parent == p && (p in Run(ops).ctxs || granted)
    case Clear(_) => false
  }

  ghost predicate TouchedAt(ops: seq<Op>, p: Request, i: nat) {
    i < |ops| && Touches(ops[..i], ops[i], p) && UnclearedSince(ops, i, p)
  }

  ghost predicate TouchedIn(ops: seq<Op>, p: Request) {
    exists i: nat :: TouchedAt(ops, p, i)
  }

  lemma TouchedSnoc(ops: seq<Op>, op: Op, p: Request)
    ensures TouchedIn(ops + [op], p) <==> op != Clear(p) && (TouchedIn(ops, p) || Touches(ops, op, p))
  {
    var all := ops + [op];
    forall i: nat | i < |ops|
      ensures TouchedAt(all, p, i) <==> TouchedAt(ops, p, i) && op != Clear(p)
    {
      assert all[i] == ops[i] && all[..i] == ops[..i];
      assert forall k :: i < k < |all| ==> all[k] == if k < |ops| then ops[k] else op;
      assert all[|ops|] == op;
    }
    assert all[..|ops|] == ops;
    assert TouchedAt(all, p, |ops|) <==> Touches(ops, op, p);
  }

  /** A request has a context exactly when one was made for it and not cleared since. */
  lemma {:induction false} PresenceIsHistory(ops: seq<Op>, p: Request)
    ensures p in Run(ops).ctxs <==> TouchedIn(ops, p)
    decreases |ops|
  {
    if ops != [] {
      var init, op := ops[..|ops| - 1], ops[|ops| - 1];
      assert ops == init + [op];
      PresenceIsHistory(init, p);
      TouchedSnoc(init, op, p);
      RunRoutes(init);
      if op.Header? && op.r.parent != null {
        FlagsAreHistory(init, op.r.parent);
      } else if op.Body? {
        FlagsAreHistory(init, op.r);
      }
    }
  }

  /** The codes given to p's state(), and heeded, since p last started over. */
  ghost function StatesSince(ops: seq<Op>, p: Request): seq<int> {
    if ops == [] then []
    else
      var init, op := ops[..|ops| - 1], ops[|ops| - 1];
      if Resets(Run(init), op, p) then []
      else if op.State? && op.r == p && (p in Run(init).ctxs || op.granted) then StatesSince(init, p) + [op.rc]
      else StatesSince(init, p)
  }

  /** In every run the status of a context comes from the first of those codes, 0 while there is none. */
  lemma {:induction false} StatusIsHistory(ops: seq<Op>, p: Request)
    ensures
      var rcs := StatesSince(ops, p);
      CtxOf(Run(ops), p).status ==
      if rcs == [] then 0 else if rcs[0] == 0 then 200 else if rcs[0] < 0 then 500 else rcs[0]
    decreases |ops|
  {
    if ops != [] {
      StatusIsHistory(ops[..|ops| - 1], p);
    }
  }

  /** p's subrequests whose headers were diverted to it since p last started over. */
  ghost function DivertedSince(ops: seq<Op>, p: Request): seq<Request> {
    if ops == [] then []
    else
      var init, op := ops[..|ops| - 1], ops[|ops| - 1];
      if Resets(Run(init), op, p) then []
      else if op.Header? && op.r.parent == p && MarksNow(init, op, op.r) then DivertedSince(init, p) + [op.r]
      else DivertedSince(init, p)
  }

  /** In every run the headers a context holds are those of the last of them. */
  lemma {:induction false} HeadersAreHistory(ops: seq<Op>, p: Request)
    ensures
      var rs := DivertedSince(ops, p);
      CtxOf(Run(ops), p).headers == if rs == [] then null else rs[|rs| - 1]
    decreases |ops|
  {
    if ops != [] {
      var init, op := ops[..|ops| - 1], ops[|ops| - 1];
      HeadersAreHistory(init, p);
      if op.Header? && op.r.parent != null {
        FlagsAreHistory(init, op.r.parent);
      }
    }
  }

  // ---------- where every body goes ----------

  /** What is diverted of one call, to a parent that has, or gets, a context. */
  ghost function Diverted(ops: seq<Op>, op: Op, p: Request): seq<Buf> {
    if op.Body? && op.r.parent == p && MarkedIn(ops, op.r) && (p in Run(ops).ctxs || op.granted)
    then op.chain[..Min(op.copied, |op.chain|)] else []
  }

  /** From the history alone: what p's marked subrequests sent since p last started over, in call order. */
  ghost function Collected(ops: seq<Op>, p: Request): seq<Buf> {
    if ops == [] then []
    else
      var init, op := ops[..|ops| - 1], ops[|ops| - 1];
      if Resets(Run(init), op, p) then [] else Collected(init, p) + Diverted(init, op, p)
  }

  /** In every run the body of a request's context is what it collected. */
  lemma {:induction false} BodyIsCollected(ops: seq<Op>, p: Request)
    ensures CtxOf(Run(ops), p).body == Collected(ops, p)
    decreases |ops|
  {
    if ops != [] {
      var init, op := ops[..|ops| - 1], ops[|ops| - 1];
      BodyIsCollected(init, p);
      OneWay(Run(init), op, p);
      if op.Body? {
        FlagsAreHistory(init, op.r);
        assert Diverted(init, op, p) == Gained(Run(init), op, p);
      }
    }
  }

  /** The calls handed on: every header no parent hooks, every chain of a request that is not marked. */
  ghost function HandedOn(ops: seq<Op>): seq<Call> {
    if ops == [] then []
    else
      var init, op := ops[..|ops| - 1], ops[|ops| - 1];
      HandedOn(init) +
      match op
      case Header(r, _) => if r.parent != null && HookedIn(init, r.parent) then [] else [HeaderCall(r)]
      case Body(r, chain, _, _) => if chain == [] || MarkedIn(init, r) then [] else [BodyCall(r, chain)]
      case _ => []
  }

  /** In every run the next filters receive exactly those calls, in order and unchanged. */
  lemma {:induction false} PassedIsHandedOn(ops: seq<Op>)
    ensures Run(ops).passed == HandedOn(ops)
    decreases |ops|
  {
    if ops != [] {
      var init, op := ops[..|ops| - 1], ops[|ops| - 1];
      PassedIsHandedOn(init);
      if op.Body? {
        FlagsAreHistory(init, op.r);
      } else if op.Header? && op.r.parent != null {
        FlagsAreHistory(init, op.r.parent);
      }
    }
  }

  /** Everything p's subrequests sent since p last started over. */
  ghost function FedSince(ops: seq<Op>, p: Request): seq<Buf> {
    if ops == [] then []
    else
      var init, op := ops[..|ops| - 1], ops[|ops| - 1];
      if Resets(Run(init), op, p) then []
      else FedSince(init, p) + FedBy(op, p)
  }

  ghost function RefusedSince(ops: seq<Op>, p: Request): seq<Buf> {
    if ops == [] then []
    else
      var init, op := ops[..|ops| - 1], ops[|ops| - 1];
      if Resets(Run(init), op, p) then [] else RefusedSince(init, p) + Refused(Run(init), op, p)
  }

  /** How many calls had been handed on when p last started over. */
  ghost function MarkSince(ops: seq<Op>, p: Request): (n: nat)
    ensures n <= |Run(ops).passed|
  {
    if ops == [] then 0
    else
      var init, op := ops[..|ops| - 1], ops[|ops| - 1];
      if Resets(Run(init), op, p) then |Run(ops).passed| else MarkSince(init, p)
  }

  ghost function PassedSince(ops: seq<Op>, p: Request): seq<Buf> {
    OfChildren(Run(ops).passed[MarkSince(ops, p)..], p)
  }

  lemma PassedSinceSnoc(init: seq<Op>, op: Op, p: Request)
    requires !Resets(Run(init), op, p)
    ensures PassedSince(init + [op], p) == PassedSince(init, p) + PassedBy(Run(init), op, p)
  {
    var ops, m, w := init + [op], MarkSince(init, p), Run(init);
    assert ops[..|init|] == init;
    StepPasses(w, op);
    HandedIs(w, op, p);
    var h := Handed(w, op);
    assert (w.passed + h)[m..] == w.passed[m..] + h;
    if h == [] {
      assert PassedSince(init, p) + [] == PassedSince(init, p);
    } else {
      OfChildrenSnoc(w.passed[m..], h[0], p);
      OfChildrenSnoc([], h[0], p);
    }
  }

  /** Every chain finds memory: no context and no link is refused. */
  predicate Served(ops: seq<Op>) {
    forall op :: op in ops && op.Body? ==> op.granted && op.copied >= |op.chain|
  }

  lemma {:induction false} NothingRefused(ops: seq<Op>, p: Request)
    requires Served(ops)
    ensures RefusedSince(ops, p) == []
    decreases |ops|
  {
    if ops != [] {
      var init, op := ops[..|ops| - 1], ops[|ops| - 1];
      assert op in ops;
      NothingRefused(init, p);
    }
  }

  lemma SumsUp<T>(f: seq<T>, b: seq<T>, p: seq<T>, r: seq<T>, f': seq<T>, b': seq<T>, p': seq<T>, r': seq<T>)
    requires multiset(f) == multiset(b) + multiset(p) + multiset(r)
    requires multiset(f') == multiset(b') + multiset(p') + multiset(r')
    ensures multiset(f + f') == multiset(b + b') + multiset(p + p') + multiset(r + r')
  {
  }

  /** One more operation, which does not start p over. */
  lemma OneMoreOp(init: seq<Op>, op: Op, p: Request)
    requires !Resets(Run(init), op, p)
    requires multiset(FedSince(init, p)) ==
             multiset(CtxOf(Run(init), p).body) + multiset(PassedSince(init, p)) + multiset(RefusedSince(init, p))
    ensures var ops := init + [op];
            multiset(FedSince(ops, p)) ==
            multiset(CtxOf(Run(ops), p).body) + multiset(PassedSince(ops, p)) + multiset(RefusedSince(ops, p))
  {
    var ops, w := init + [op], Run(init);
    assert ops[..|init|] == init;
    OneWay(w, op, p);
    PassedSinceSnoc(init, op, p);
    SumsUp(FedSince(init, p), CtxOf(w, p).body, PassedSince(init, p), RefusedSince(init, p),
           FedBy(op, p), Gained(w, op, p), PassedBy(w, op, p), Refused(w, op, p));
  }

  /** An operation that starts p over leaves nothing to account for. */
  lemma StartedOver(init: seq<Op>, op: Op, p: Request)
    requires Resets(Run(init), op, p)
    ensures var ops := init + [op];
            && FedSince(ops, p) == CtxOf(Run(ops), p).body == PassedSince(ops, p) == RefusedSince(ops, p) == []
  {
    var ops := init + [op];
    assert ops[..|init|] == init;
    OneWay(Run(init), op, p);
    assert MarkSince(ops, p) == |Run(ops).passed|;
  }

  /**
   Conservation: in every run, of all the buffers that p's subrequests have sent
   since p last started over, each is in p's body, or was handed on, or was lost to
   refused memory, as often as it was sent and no more. With memory granted nothing
   is lost. The body and what was handed on are in call order (BodyIsCollected,
   PassedIsHandedOn).
   */
  lemma {:induction false} BodyGoesOneWay(ops: seq<Op>, p: Request)
    ensures multiset(FedSince(ops, p)) ==
            multiset(CtxOf(Run(ops), p).body) + multiset(PassedSince(ops, p)) + multiset(RefusedSince(ops, p))
    ensures Served(ops) ==> RefusedSince(ops, p) == []
    decreases |ops|
  {
    if ops != [] {
      var init, op := ops[..|ops| - 1], ops[|ops| - 1];
      assert ops == init + [op];
      BodyGoesOneWay(init, p);
      if Resets(Run(init), op, p) {
        StartedOver(init, op, p);
      } else {
        OneMoreOp(init, op, p);
      }
    }
    if Served(ops) {
      NothingRefused(ops, p);
    }
  }
}
