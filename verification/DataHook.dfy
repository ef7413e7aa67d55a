/** The data hook's filters on the requests and chains themselves, proved against DataHookSpec. */
module DataHook {
  import opened Buffers
  import opened Chains
  import opened DataHookSpec

  /** The filters after this one, and what they have received. */
  class NextFilters {
    ghost var received: seq<Call>

    constructor ()
      ensures received == []
    {
      received := [];
    }
  }

  /** A context's body is a chain, whose links carry the buffers collected. */
  ghost predicate Sound(c: HookCtx)
    reads c, c.links
  {
    IsChain(c.body, c.links) && Filled(c.links) && Carries(c.links, c.bufs)
  }

  ghost function Ctxs(reqs: set<Request>): set<HookCtx?>
    reads reqs`ctx
  {
    set r: Request | r in reqs :: r.ctx
  }

  ghost function Links(reqs: set<Request>): set<Link>
    reads reqs`ctx, Ctxs(reqs)
  {
    set r: Request, l: Link | r in reqs && r.ctx != null && l in r.ctx.links :: l
  }

  ghost predicate Disjoint(c: HookCtx, d: HookCtx)
    reads c, d
  {
    c != d && Apart(c.links, d.links) && Apart(d.links, c.links)
  }

  /** The contexts of these requests are sound, objects of their own, and share no link. */
  ghost predicate InOrder(reqs: set<Request>)
    reads reqs`ctx, Ctxs(reqs), Links(reqs)
  {
    && (forall q :: q in reqs && q.ctx != null ==>
          assert forall l :: l in q.ctx.links ==> l in Links(reqs);
          Sound(q.ctx))
    && (forall p, q :: p in reqs && q in reqs && p != q && p.ctx != null && q.ctx != null ==> Disjoint(p.ctx, q.ctx))
  }

  /** None of these links is free. */
  ghost predicate NoneFree(links: set<Link>, pool: Pool)
    reads pool`free
  {
    forall i :: 0 <= i < |pool.free| ==> pool.free[i] !in links
  }

  /** A tree of requests and its pool. */
  ghost predicate Laid(reqs: set<Request>, pool: Pool)
    reads reqs`ctx, Ctxs(reqs), Links(reqs), pool`chain, pool`free, pool.free
  {
    && pool.Valid() && InOrder(reqs) && NoneFree(Links(reqs), pool)
    && forall q :: q in reqs && q.parent != null ==> q.parent in reqs
  }

  /** r's context is sound, apart from the others and from the free links. */
  ghost predicate FitsIn(r: Request, others: set<Request>, pool: Pool)
    reads others`ctx, Ctxs(others), r`ctx, r.ctx, (if r.ctx == null then [] else r.ctx.links), pool`free
  {
    r.ctx != null ==>
      && Sound(r.ctx) && Apart(r.ctx.links, pool.free)
      && r.ctx !in Ctxs(others) && forall i :: 0 <= i < |r.ctx.links| ==> r.ctx.links[i] !in Links(others)
  }

  lemma LinkIn(reqs: set<Request>, r: Request, l: Link)
    requires r in reqs && r.ctx != null && l in r.ctx.links
    ensures l in Links(reqs)
  {
  }

  lemma LinksWithout(reqs: set<Request>, r: Request)
    ensures Links(reqs - {r}) <= Links(reqs)
  {
  }

  lemma OneOut(reqs: set<Request>, pool: Pool, r: Request)
    requires Laid(reqs, pool) && r in reqs
    ensures InOrder(reqs - {r}) && NoneFree(Links(reqs - {r}), pool) && FitsIn(r, reqs - {r}, pool)
  {
    var others := reqs - {r};
    LinksWithout(reqs, r);
    if r.ctx != null {
      forall i | 0 <= i < |r.ctx.links|
        ensures r.ctx.links[i] !in Links(others) && r.ctx.links[i] !in pool.free
      {
        LinkIn(reqs, r, r.ctx.links[i]);
      }
    }
  }

  lemma FitsBeside(r: Request, q: Request, others: set<Request>, pool: Pool)
    requires FitsIn(r, others, pool) && q in others && r.ctx != null && q.ctx != null
    ensures Disjoint(r.ctx, q.ctx)
  {
    forall i | 0 <= i < |q.ctx.links|
      ensures q.ctx.links[i] !in r.ctx.links
    {
      LinkIn(others, q, q.ctx.links[i]);
    }
    assert forall l :: l in q.ctx.links ==> l in Links(others);
  }

  lemma OneIn(reqs: set<Request>, pool: Pool, r: Request)
    requires pool.Valid() && InOrder(reqs - {r}) && NoneFree(Links(reqs - {r}), pool) && FitsIn(r, reqs - {r}, pool)
    requires forall q :: q in reqs && q.parent != null ==> q.parent in reqs
    ensures Laid(reqs, pool)
  {
    var others := reqs - {r};
    forall q | q in others && r.ctx != null && q.ctx != null
      ensures Disjoint(r.ctx, q.ctx) && Disjoint(q.ctx, r.ctx)
    {
      FitsBeside(r, q, others, pool);
    }
    assert forall q :: q in reqs ==> q == r || q in others;
    assert InOrder(reqs);
  }

  /** q's context is the one that w has for it. */
  ghost predicate Agrees(q: Request, w: World)
    reads q`ctx, q.ctx
  {
    if q.ctx == null then q !in w.ctxs else q in w.ctxs && w.ctxs[q] == q.ctx.View()
  }

  ghost predicate AllAgree(reqs: set<Request>, w: World)
    reads reqs`ctx, Ctxs(reqs)
  {
    forall q :: q in reqs ==> Agrees(q, w)
  }

  /** w is the world of these requests, with what the next filters have received. */
  ghost predicate Is(reqs: set<Request>, next: NextFilters, w: World)
    reads reqs`ctx, Ctxs(reqs), next
  {
    w.passed == next.received && (forall q :: q in w.ctxs ==> q in reqs) && AllAgree(reqs, w)
  }

  lemma IsUpdated(reqs: set<Request>, next: NextFilters, w: World, r: Request)
    requires w.passed == next.received && (forall q :: q in w.ctxs ==> q in reqs)
    requires AllAgree(reqs - {r}, w) && r in reqs && r.ctx != null
    ensures Is(reqs, next, Update(w, r, r.ctx.View()))
  {
    forall q | q in reqs && q != r
      ensures Agrees(q, Update(w, r, r.ctx.View()))
    {
      assert q in reqs - {r} && Agrees(q, w);
    }
  }

  /** Where a run starts: no request has a context and nothing has been handed on. */
  lemma FreshTree(reqs: set<Request>, pool: Pool, next: NextFilters)
    requires pool.Valid() && next.received == []
    requires forall r :: r in reqs ==> r.ctx == null && (r.parent != null ==> r.parent in reqs)
    ensures Laid(reqs, pool) && Is(reqs, next, START)
  {
    assert forall r :: r in reqs ==> Agrees(r, START);
  }

  /** A context for a request that has none. */
  method Create(r: Request, ghost pool: Pool, ghost reqs: set<Request>, ghost next: NextFilters, ghost w: World)
    requires r in reqs && r.ctx == null && Laid(reqs, pool) && Is(reqs, next, w)
    modifies r`ctx
    ensures r.ctx != null && fresh(r.ctx)
    ensures !r.ctx.hook && r.ctx.status == 0 && r.ctx.headers == null && r.ctx.body == null && !r.ctx.doHook
    ensures Laid(reqs, pool) && Is(reqs, next, Update(w, r, NEW_CTX))
  {
    OneOut(reqs, pool, r);
    assert AllAgree(reqs - {r}, w);
    r.ctx := new HookCtx();
    OneIn(reqs, pool, r);
    IsUpdated(reqs, next, w, r);
  }

  /** NgxModuleCtx::data; false stands for the exception. */
  method Data(r: Request, pool: Pool, ghost reqs: set<Request>, ghost next: NextFilters, ghost w: World)
    returns (ok: bool)
    requires r in reqs && Laid(reqs, pool) && Is(reqs, next, w)
    modifies r`ctx, pool`grants
    ensures ok <==> old(r.ctx) != null || old(pool.Granted(0))
    ensures ok <==> r in w.ctxs || old(pool.Granted(0))
    ensures r.ctx == null <==> !ok
    ensures Laid(reqs, pool) && Is(reqs, next, if ok then Update(w, r, CtxOf(w, r)) else w)
    ensures pool.grants == if r in w.ctxs then old(pool.grants) else After(old(pool.grants), 1)
    ensures old(r.ctx) != null ==> r.ctx == old(r.ctx)
    ensures old(r.ctx) == null && ok ==>
              && fresh(r.ctx) && !r.ctx.hook && r.ctx.status == 0 && r.ctx.headers == null && r.ctx.body == null
              && !r.ctx.doHook
  {
    assert Agrees(r, w);
    if r.ctx == null {
      ok := pool.Palloc();
      if ok {
        Create(r, pool, reqs, next, w);
      }
      return;
    }
    assert w.ctxs[r := w.ctxs[r]] == w.ctxs;
    ok := true;
  }

  /** NgxModuleCtx::clear */
  method ClearCtx(r: Request, ghost pool: Pool, ghost reqs: set<Request>, ghost next: NextFilters, ghost w: World)
    requires r in reqs && Laid(reqs, pool) && Is(reqs, next, w)
    modifies r`ctx
    ensures r.ctx == null && Laid(reqs, pool) && Is(reqs, next, Step(w, Clear(r)))
  {
    OneOut(reqs, pool, r);
    r.ctx := null;
    OneIn(reqs, pool, r);
    forall q | q in reqs
      ensures Agrees(q, Step(w, Clear(r)))
    {
      assert q != r ==> Agrees(q, w);
    }
  }

  /** NdgDataHookCtx::hooking */
  method Hook(c: HookCtx)
    modifies c
    ensures c.View() == Hooked(old(c.View()))
    ensures c.hook && c.status == 0 && c.headers == null && c.body == null && c.doHook == old(c.doHook)
    ensures c.links == [] && c.bufs == []
  {
    c.hook := true;
    c.status := 0;
    c.headers := null;
    c.body := null;
    c.links, c.bufs := [], [];
  }

  /** NdgDataHookCtx::state */
  method SetStatus(c: HookCtx, rc: int)
    modifies c`status
    ensures c.View() == StatusOf(old(c.View()), rc)
    ensures c.status == if old(c.status) != 0 then old(c.status)
                        else if rc == 0 then 200 else if rc < 0 then 500 else rc
  {
    if c.status != 0 {
      return;
    }
    if rc == NGX_OK {
      c.status := NGX_HTTP_OK;
      return;
    }
    if rc < NGX_OK {
      c.status := NGX_HTTP_INTERNAL_SERVER_ERROR;
      return;
    }
    c.status := rc;
  }

  /** hooking() on a context of the tree. */
  method HookIn(r: Request, ghost pool: Pool, ghost reqs: set<Request>, ghost next: NextFilters, ghost w: World)
    requires r in reqs && r.ctx != null && Laid(reqs, pool) && Is(reqs, next, w)
    modifies r.ctx
    ensures Laid(reqs, pool) && Is(reqs, next, Update(w, r, Hooked(CtxOf(w, r))))
    ensures r.ctx.hook && r.ctx.status == 0 && r.ctx.headers == null && r.ctx.body == null && r.ctx.bufs == []
    ensures r.ctx.doHook == old(r.ctx.doHook)
  {
    OneOut(reqs, pool, r);
    assert Agrees(r, w) && AllAgree(reqs - {r}, w);
    Hook(r.ctx);
    OneIn(reqs, pool, r);
    IsUpdated(reqs, next, w, r);
  }

  /** state() on a context of the tree. */
  method SetStatusIn(r: Request, rc: int, ghost pool: Pool, ghost reqs: set<Request>, ghost next: NextFilters,
                     ghost w: World)
    requires r in reqs && r.ctx != null && Laid(reqs, pool) && Is(reqs, next, w)
    modifies r.ctx`status
    ensures Laid(reqs, pool) && Is(reqs, next, Update(w, r, StatusOf(CtxOf(w, r), rc)))
    ensures r.ctx.status == if old(r.ctx.status) != 0 then old(r.ctx.status)
                            else if rc == 0 then 200 else if rc < 0 then 500 else rc
  {
    OneOut(reqs, pool, r);
    assert Agrees(r, w) && AllAgree(reqs - {r}, w);
    SetStatus(r.ctx, rc);
    OneIn(reqs, pool, r);
    IsUpdated(reqs, next, w, r);
  }

  lemma Updated(w: World, r: Request, c: Ctx, d: Ctx)
    ensures CtxOf(Update(w, r, c), r) == c && Update(Update(w, r, c), r, d) == Update(w, r, d)
  {
    assert w.ctxs[r := c][r := d] == w.ctxs[r := d];
  }

  /** this_module::data(r).hooking() */
  method StartHooking(r: Request, pool: Pool, ghost reqs: set<Request>, ghost next: NextFilters, ghost w: World)
    returns (ok: bool)
    requires r in reqs && Laid(reqs, pool) && Is(reqs, next, w)
    modifies r`ctx, r.ctx, pool`grants
    ensures ok <==> old(r.ctx) != null || old(pool.Granted(0))
    ensures ok <==> r in w.ctxs || old(pool.Granted(0))
    ensures Laid(reqs, pool) && Is(reqs, next, Step(w, Hooking(r, old(pool.Granted(0)))))
    ensures ok ==>
              && r.ctx != null && r.ctx.hook && r.ctx.status == 0 && r.ctx.headers == null && r.ctx.body == null
              && r.ctx.doHook == (old(r.ctx) != null && old(r.ctx.doHook))
  {
    ghost var c := CtxOf(w, r);
    Updated(w, r, c, Hooked(c));
    ok := Data(r, pool, reqs, next, w);
    if ok {
      HookIn(r, pool, reqs, next, Update(w, r, c));
    }
  }

  /** this_module::data(r).state(rc) */
  method SetState(r: Request, rc: int, pool: Pool, ghost reqs: set<Request>, ghost next: NextFilters, ghost w: World)
    returns (ok: bool)
    requires r in reqs && Laid(reqs, pool) && Is(reqs, next, w)
    modifies r`ctx, r.ctx, pool`grants
    ensures ok <==> old(r.ctx) != null || old(pool.Granted(0))
    ensures ok <==> r in w.ctxs || old(pool.Granted(0))
    ensures Laid(reqs, pool) && Is(reqs, next, Step(w, State(r, rc, old(pool.Granted(0)))))
    ensures ok ==>
              && r.ctx != null
              && r.ctx.status == if old(r.ctx) != null && old(r.ctx.status) != 0 then old(r.ctx.status)
                                 else if rc == 0 then 200 else if rc < 0 then 500 else rc
  {
    ghost var c, d := CtxOf(w, r), StatusOf(CtxOf(w, r), rc);
    Updated(w, r, c, d);
    assert Step(w, State(r, rc, pool.Granted(0))) == if (r in w.ctxs || pool.Granted(0)) then Update(w, r, d) else w;
    ok := Data(r, pool, reqs, next, w);
    if ok {
      SetStatusIn(r, rc, pool, reqs, next, Update(w, r, c));
    }
  }

  // ---------- the filters ----------

  /** this_filter::next: the call goes on as it is. */
  method Next(next: NextFilters, ghost call: Call, ghost pool: Pool, ghost reqs: set<Request>, ghost w: World)
    requires Laid(reqs, pool) && Is(reqs, next, w)
    modifies next
    ensures next.received == old(next.received) + [call]
    ensures Laid(reqs, pool) && Is(reqs, next, Pass(w, call))
  {
    next.received := next.received + [call];
    assert Ctxs(reqs) == old(Ctxs(reqs)) && Links(reqs) == old(Links(reqs));
    assert InOrder(reqs) && pool.Valid();
    assert forall q :: q in reqs && Agrees(q, w) ==> Agrees(q, Pass(w, call));
  }

  /** do_hook set in a context of the tree. */
  method Mark(r: Request, ghost pool: Pool, ghost reqs: set<Request>, ghost next: NextFilters, ghost w: World)
    requires r in reqs && r.ctx != null && Laid(reqs, pool) && Is(reqs, next, w)
    modifies r.ctx`doHook
    ensures Laid(reqs, pool) && Is(reqs, next, Update(w, r, CtxOf(w, r).(doHook := true)))
  {
    OneOut(reqs, pool, r);
    assert Agrees(r, w) && AllAgree(reqs - {r}, w);
    r.ctx.doHook := true;
    OneIn(reqs, pool, r);
    IsUpdated(reqs, next, w, r);
  }

  /** The parent's context takes note of r's headers. */
  method TakeHeaders(p: Request, r: Request, ghost pool: Pool, ghost reqs: set<Request>, ghost next: NextFilters,
                     ghost w: World)
    requires p in reqs && p.ctx != null && Laid(reqs, pool) && Is(reqs, next, w)
    modifies p.ctx`headers
    ensures Laid(reqs, pool) && Is(reqs, next, Update(w, p, CtxOf(w, p).(headers := r)))
  {
    OneOut(reqs, pool, p);
    assert Agrees(p, w) && AllAgree(reqs - {p}, w);
    p.ctx.headers := r;
    OneIn(reqs, pool, p);
    IsUpdated(reqs, next, w, p);
  }

  /** this_module::data(r).do_hook = true */
  method MarkOwn(r: Request, pool: Pool, ghost reqs: set<Request>, ghost next: NextFilters, ghost w: World)
    returns (ok: bool)
    requires r in reqs && Laid(reqs, pool) && Is(reqs, next, w)
    modifies r`ctx, r.ctx, pool`grants
    ensures ok <==> old(r.ctx) != null || old(pool.Granted(0))
    ensures ok <==> r in w.ctxs || old(pool.Granted(0))
    ensures Laid(reqs, pool) && Is(reqs, next, if ok then Update(w, r, CtxOf(w, r).(doHook := true)) else w)
    ensures old(r.ctx) != null ==> r.ctx == old(r.ctx)
  {
    ghost var c := CtxOf(w, r);
    ghost var d := c.(doHook := true);
    Updated(w, r, c, d);
    ok := Data(r, pool, reqs, next, w);
    if ok {
      Mark(r, pool, reqs, next, Update(w, r, c));
    }
  }

  /** A request that w has a context for has one. */
  lemma Present(reqs: set<Request>, next: NextFilters, w: World, p: Request)
    requires p in reqs && Is(reqs, next, w)
    ensures p in w.ctxs <==> p.ctx != null
    ensures p.ctx != null ==> p.ctx.View() == w.ctxs[p]
  {
    assert Agrees(p, w);
  }

  /** The contexts once r is marked and p has taken its headers. */
  function DivertedTo(w: World, r: Request, p: Request): World {
    var w1 := Update(w, r, CtxOf(w, r).(doHook := true));
    Update(w1, p, CtxOf(w1, p).(headers := r))
  }

  lemma HeaderStep(w: World, r: Request, granted: bool)
    ensures ParentHooks(w, r) ==>
              && Step(w, Header(r, granted)) == (if r in w.ctxs || granted then DivertedTo(w, r, r.parent) else w)
              && RouteOf(w, Header(r, granted)) == (if r in w.ctxs || granted then ToParent else Failed)
    ensures !ParentHooks(w, r) ==>
              && Step(w, Header(r, granted)) == Pass(w, HeaderCall(r))
              && RouteOf(w, Header(r, granted)) == ToNext
  {
  }

  /** Once the parent is known to hook: r is marked, and the parent takes its headers. */
  method Divert(r: Request, p: Request, pool: Pool, ghost reqs: set<Request>, ghost next: NextFilters, ghost w: World)
    returns (ok: bool)
    requires r in reqs && p in reqs && r.parent == p && Laid(reqs, pool) && Is(reqs, next, w) && p in w.ctxs
    modifies r`ctx, r.ctx, p.ctx, pool`grants
    ensures ok <==> old(r.ctx) != null || old(pool.Granted(0))
    ensures ok <==> r in w.ctxs || old(pool.Granted(0))
    ensures Laid(reqs, pool) && Is(reqs, next, if ok then DivertedTo(w, r, p) else w)
  {
    Present(reqs, next, w, p);
    ok := MarkOwn(r, pool, reqs, next, w);
    if ok {
      ghost var w1 := Update(w, r, CtxOf(w, r).(doHook := true));
      Present(reqs, next, w1, p);
      TakeHeaders(p, r, pool, reqs, next, w1);
    }
  }

  /** Whether the parent is there and hooking. */
  method ParentIsHooking(r: Request, ghost pool: Pool, ghost reqs: set<Request>, ghost next: NextFilters,
                         ghost w: World) returns (hooks: bool)
    requires r in reqs && Laid(reqs, pool) && Is(reqs, next, w)
    ensures hooks <==> ParentHooks(w, r)
    ensures hooks ==> r.parent in reqs
  {
    var pr := r.parent;
    if pr == null {
      return false;
    }
    Present(reqs, next, w, pr);
    if pr.ctx == null {
      return false;
    }
    return pr.ctx.hook;
  }

  /** A diverted header counts as sent. */
  method CountAsSent(r: Request, ghost pool: Pool, ghost reqs: set<Request>, ghost next: NextFilters, ghost w: World)
    requires Laid(reqs, pool) && Is(reqs, next, w)
    modifies r`needInMemory, r`headerSent
    ensures Laid(reqs, pool) && Is(reqs, next, w) && r.needInMemory && r.headerSent
  {
    r.needInMemory := true;
    r.headerSent := true;
    assert Ctxs(reqs) == old(Ctxs(reqs)) && Links(reqs) == old(Links(reqs));
    assert InOrder(reqs) && pool.Valid() && AllAgree(reqs, w);
  }

  /** The rest of the header filter, when the parent is hooking. */
  method DivertHeader(r: Request, p: Request, pool: Pool, ghost reqs: set<Request>, ghost next: NextFilters,
                      ghost w: World) returns (route: Route)
    requires r in reqs && p in reqs && r.parent == p && Laid(reqs, pool) && Is(reqs, next, w) && p in w.ctxs
    modifies r, r.ctx, p.ctx, pool`grants
    ensures route == if (r in w.ctxs || old(pool.Granted(0))) then ToParent else Failed
    ensures Laid(reqs, pool) && Is(reqs, next, if route == ToParent then DivertedTo(w, r, p) else w)
    ensures r.headerSent == (old(r.headerSent) || route == ToParent)
    ensures r.needInMemory == (old(r.needInMemory) || route == ToParent)
  {
    var ok := Divert(r, p, pool, reqs, next, w);
    if !ok {
      return Failed;
    }
    CountAsSent(r, pool, reqs, next, DivertedTo(w, r, p));
    return ToParent;
  }

  /** The header filter, on the machine. */
  method FilterHeader(r: Request, pool: Pool, ghost reqs: set<Request>, next: NextFilters, ghost w: World)
    returns (route: Route)
    requires r in reqs && Laid(reqs, pool) && Is(reqs, next, w)
    modifies r, r.ctx, (if r.parent == null then {} else {r.parent.ctx}), pool`grants, next
    ensures route == RouteOf(w, Header(r, old(pool.Granted(0))))
    ensures Laid(reqs, pool) && Is(reqs, next, Step(w, Header(r, old(pool.Granted(0)))))
    ensures r.headerSent == (old(r.headerSent) || route == ToParent)
    ensures r.needInMemory == (old(r.needInMemory) || route == ToParent)
  {
    HeaderStep(w, r, pool.Granted(0));
    var hooks := ParentIsHooking(r, pool, reqs, next, w);
    if !hooks {
      Next(next, HeaderCall(r), pool, reqs, w);
      return ToNext;
    }
    route := DivertHeader(r, r.parent, pool, reqs, next, w);
  }

  /** p's context hooks. */
  ghost predicate HooksIn(p: Request?)
    reads p, (if p == null then null else p.ctx)
  {
    p != null && p.ctx != null && p.ctx.hook
  }

  /**
   The header filter. With a parent that hooks, r is marked and its header goes no
   further; the parent's context points to it. Otherwise the header goes on as it is.
   */
  method HeaderFilter(r: Request, pool: Pool, ghost reqs: set<Request>, next: NextFilters, ghost w: World)
    returns (route: Route)
    requires r in reqs && Laid(reqs, pool) && Is(reqs, next, w)
    modifies r, r.ctx, (if r.parent == null then {} else {r.parent.ctx}), pool`grants, next
    ensures Laid(reqs, pool) && Is(reqs, next, Step(w, Header(r, old(pool.Granted(0)))))
    ensures route == RouteOf(w, Header(r, old(pool.Granted(0))))
    ensures !old(HooksIn(r.parent)) ==>
              route == ToNext && next.received == old(next.received) + [HeaderCall(r)]
    ensures old(HooksIn(r.parent)) ==>
              && next.received == old(next.received)
              && route == if old(r.ctx) != null || old(pool.Granted(0)) then ToParent else Failed
    ensures route == ToParent ==>
              && r.ctx != null && r.ctx.doHook && HooksIn(r.parent) && r.parent.ctx.headers == r
    ensures r.headerSent == (old(r.headerSent) || route == ToParent)
    ensures r.needInMemory == (old(r.needInMemory) || route == ToParent)
  {
    ghost var w' := Step(w, Header(r, pool.Granted(0)));
    HeaderStep(w, r, pool.Granted(0));
    Present(reqs, next, w, r);
    if r.parent != null {
      Present(reqs, next, w, r.parent);
    }
    route := FilterHeader(r, pool, reqs, next, w);
    Present(reqs, next, w', r);
    if r.parent != null {
      Present(reqs, next, w', r.parent);
    }
  }

  /** The links a copy onto c's body may write: its own and the free ones. */
  ghost function Reach(c: HookCtx, pool: Pool): set<Link>
    reads c, pool`free
  {
    (set l | l in c.links) + (set l | l in pool.free)
  }

  /** A context's body becomes another chain. */
  method SetBody(c: HookCtx, body: Link?, ghost w: seq<Link>, ghost bufs: seq<Buf>)
    requires IsChain(body, w) && Filled(w) && Carries(w, bufs)
    modifies c`body, c`links, c`bufs
    ensures Sound(c) && c.body == body && c.links == w && c.bufs == bufs
  {
    c.body := body;
    c.links, c.bufs := w, bufs;
  }

  lemma ReadyToAdd(c: HookCtx, pool: Pool, more: Link?, t: seq<Link>)
    requires pool.Valid() && Sound(c) && Apart(c.links, pool.free)
    requires InUse(pool, more, t) && Apart(t, c.links)
    ensures Adding(pool, c.body, more, c.links, c.bufs, more, t, Reach(c, pool))
  {
    assert t != [] ==> more == t[0];
  }

  /** ngx_chain_add_copy onto the body of a context. */
  method Collect(c: HookCtx, pool: Pool, more: Link?, ghost t: seq<Link>, ghost bufs: seq<Buf>)
    returns (ok: bool, ghost n: nat, ghost fp: set<Link>)
    requires pool.Valid() && Sound(c) && Apart(c.links, pool.free)
    requires InUse(pool, more, t) && Carries(t, bufs) && Apart(t, c.links)
    modifies c`body, c`links, c`bufs, pool`chain, pool`grants, pool`free, Reach(c, pool)`next, Reach(c, pool)`buf
    ensures pool.Valid() && Sound(c) && Apart(c.links, pool.free)
    ensures InUse(pool, more, t) && Carries(t, bufs)
    ensures n == old(Supply(|pool.free|, pool.grants, |t|)) && c.bufs == old(c.bufs) + bufs[..n]
    ensures ok <==> n == |t|
    ensures old(Reach(c, pool)) <= fp && fresh(fp - old(Reach(c, pool)))
    ensures forall i :: 0 <= i < |c.links| ==> c.links[i] in fp
    ensures forall i :: 0 <= i < |pool.free| ==> pool.free[i] in fp
  {
    ReadyToAdd(c, pool, more, t);
    var body;
    ghost var w;
    ok, body, w, n, fp := AddCopy(pool, c.body, c.links, more, t, c.bufs, bufs, Reach(c, pool));
    SetBody(c, body, w, c.bufs + bufs[..n]);
  }

  lemma ReachApart(r: Request, others: set<Request>, pool: Pool)
    requires FitsIn(r, others, pool) && NoneFree(Links(others), pool) && r.ctx != null
    ensures Reach(r.ctx, pool) !! Links(others)
  {
  }

  /** The same for a context of the tree: the others are left alone. */
  method CollectBeside(p: Request, pool: Pool, more: Link?, ghost t: seq<Link>, ghost bufs: seq<Buf>,
                       ghost others: set<Request>) returns (ok: bool, ghost n: nat)
    requires p.ctx != null && pool.Valid() && InOrder(others)
    requires NoneFree(Links(others), pool) && FitsIn(p, others, pool)
    requires InUse(pool, more, t) && Carries(t, bufs) && Apart(t, p.ctx.links)
    modifies p.ctx`body, p.ctx`links, p.ctx`bufs, pool`chain, pool`grants, pool`free
    modifies Reach(p.ctx, pool)`next, Reach(p.ctx, pool)`buf
    ensures pool.Valid() && InOrder(others) && NoneFree(Links(others), pool) && FitsIn(p, others, pool)
    ensures n == old(Supply(|pool.free|, pool.grants, |t|)) && p.ctx.bufs == old(p.ctx.bufs) + bufs[..n]
    ensures ok <==> n == |t|
    ensures InUse(pool, more, t) && Carries(t, bufs)
  {
    ghost var links := Links(others);
    ReachApart(p, others, pool);
    ghost var fp;
    ok, n, fp := Collect(p.ctx, pool, more, t, bufs);
    assert Links(others) == links && fp !! links;
  }

  /** The world once n of the buffers have been collected for p. */
  function CollectedFor(w: World, p: Request, bufs: seq<Buf>, n: nat): World
    requires n <= |bufs|
  {
    var c := CtxOf(w, p);
    Update(w, p, c.(body := c.body + bufs[..n]))
  }

  method CollectIn(p: Request, pool: Pool, more: Link?, ghost t: seq<Link>, ghost bufs: seq<Buf>,
                   ghost reqs: set<Request>, ghost next: NextFilters, ghost w: World)
    returns (ok: bool, ghost n: nat)
    requires p in reqs && p.ctx != null && Laid(reqs, pool) && Is(reqs, next, w)
    requires InUse(pool, more, t) && Carries(t, bufs) && Apart(t, p.ctx.links)
    modifies p.ctx`body, p.ctx`links, p.ctx`bufs, pool`chain, pool`grants, pool`free
    modifies Reach(p.ctx, pool)`next, Reach(p.ctx, pool)`buf
    ensures n == old(Supply(|pool.free|, pool.grants, |t|)) && (ok <==> n == |t|)
    ensures Laid(reqs, pool) && Is(reqs, next, CollectedFor(w, p, bufs, n))
    ensures InUse(pool, more, t) && Carries(t, bufs)
  {
    ghost var others := reqs - {p};
    OneOut(reqs, pool, p);
    assert Agrees(p, w) && AllAgree(others, w);
    ok, n := CollectBeside(p, pool, more, t, bufs, others);
    assert AllAgree(others, w);
    OneIn(reqs, pool, p);
    IsUpdated(reqs, next, w, p);
  }

  /** How many links a body call from r finds memory for, once its parent's context has found some. */
  ghost function Copies(w: World, p: Request, pool: Pool, want: nat): nat
    reads pool
  {
    Supply(|pool.free|, if p in w.ctxs then pool.grants else After(pool.grants, 1), want)
  }

  /** The links a body call may write: the free ones and those of the parent's body. */
  ghost function ReachOf(p: Request?, pool: Pool): set<Link>
    reads p, (if p == null then null else p.ctx), pool`free
  {
    if p == null || p.ctx == null then set l | l in pool.free else Reach(p.ctx, pool)
  }

  /** this_module::data(r->parent), and the copy of the chain onto its body. */
  method CollectFor(p: Request, pool: Pool, chain: Link?, ghost t: seq<Link>, ghost bufs: seq<Buf>,
                    ghost reqs: set<Request>, ghost next: NextFilters, ghost w: World)
    returns (ok: bool, ghost n: nat)
    requires p in reqs && Laid(reqs, pool) && Is(reqs, next, w)
    requires InUse(pool, chain, t) && Carries(t, bufs) && (p.ctx != null ==> Apart(t, p.ctx.links))
    modifies p`ctx, p.ctx, pool, ReachOf(p, pool)
    ensures n == old(Copies(w, p, pool, |t|)) && (ok <==> (p in w.ctxs || old(pool.Granted(0))) && n == |t|)
    ensures Laid(reqs, pool)
    ensures Is(reqs, next, if (p in w.ctxs || old(pool.Granted(0))) then CollectedFor(w, p, bufs, n) else w)
    ensures InUse(pool, chain, t) && Carries(t, bufs)
  {
    n := Copies(w, p, pool, |t|);
    ghost var c := CtxOf(w, p);
    Updated(w, p, c, c.(body := c.body + bufs[..n]));
    ok := Data(p, pool, reqs, next, w);
    if ok {
      ok, n := CollectIn(p, pool, chain, t, bufs, reqs, next, Update(w, p, c));
    }
  }

  /** Whether r is marked. */
  method IsMarked(r: Request, ghost pool: Pool, ghost reqs: set<Request>, ghost next: NextFilters, ghost w: World)
    returns (marked: bool)
    requires r in reqs && Laid(reqs, pool) && Is(reqs, next, w) && ParentsExist(w)
    ensures marked <==> Marked(w, r)
    ensures marked ==> r.parent != null && r.parent in reqs
  {
    Present(reqs, next, w, r);
    if r.ctx == null {
      return false;
    }
    return r.ctx.doHook;
  }

  /** What a body call is, as an operation on the world. */
  ghost function BodyOp(w: World, r: Request, bufs: seq<Buf>, pool: Pool): Op
    reads pool
  {
    Body(r, bufs, pool.Granted(0), if r.parent == null then 0 else Copies(w, r.parent, pool, |bufs|))
  }

  lemma BodyStep(w: World, r: Request, bufs: seq<Buf>, pool: Pool)
    requires ParentsExist(w)
    ensures
      var op := BodyOp(w, r, bufs, pool);
      && (bufs == [] ==> RouteOf(w, op) == Dropped && Step(w, op) == w)
      && (bufs != [] && !Marked(w, r) ==> RouteOf(w, op) == ToNext && Step(w, op) == Pass(w, BodyCall(r, bufs)))
      && (bufs != [] && Marked(w, r) ==>
            var found := r.parent in w.ctxs || op.granted;
            && RouteOf(w, op) == (if found && op.copied == |bufs| then ToParent else Failed)
            && Step(w, op) == if found then CollectedFor(w, r.parent, bufs, op.copied) else w)
  {
  }

  /** A chain handed to the next filters as it is. */
  method PassBody(r: Request, ghost pool: Pool, ghost chain: Link?, ghost t: seq<Link>, ghost bufs: seq<Buf>,
                  ghost reqs: set<Request>, next: NextFilters, ghost w: World)
    requires Laid(reqs, pool) && Is(reqs, next, w) && InUse(pool, chain, t) && Carries(t, bufs)
    modifies next
    ensures Laid(reqs, pool) && Is(reqs, next, Pass(w, BodyCall(r, bufs)))
    ensures InUse(pool, chain, t) && Carries(t, bufs)
  {
    Next(next, BodyCall(r, bufs), pool, reqs, w);
  }

  /** The body filter, on the machine. */
  method FilterBody(r: Request, pool: Pool, chain: Link?, ghost t: seq<Link>, ghost bufs: seq<Buf>,
                    ghost reqs: set<Request>, next: NextFilters, ghost w: World)
    returns (route: Route)
    requires r in reqs && Laid(reqs, pool) && Is(reqs, next, w) && ParentsExist(w)
    requires InUse(pool, chain, t) && Carries(t, bufs)
    requires r.parent != null && r.parent.ctx != null ==> Apart(t, r.parent.ctx.links)
    modifies next, pool, ReachOf(r.parent, pool), (if r.parent == null then {} else {r.parent, r.parent.ctx})
    ensures route == RouteOf(w, old(BodyOp(w, r, bufs, pool)))
    ensures Laid(reqs, pool) && Is(reqs, next, Step(w, old(BodyOp(w, r, bufs, pool))))
    ensures InUse(pool, chain, t) && Carries(t, bufs)
  {
    BodyStep(w, r, bufs, pool);
    if chain == null {
      return Dropped;
    }
    var marked := IsMarked(r, pool, reqs, next, w);
    if !marked {
      PassBody(r, pool, chain, t, bufs, reqs, next, w);
      return ToNext;
    }
    var ok;
    ghost var n;
    ok, n := CollectFor(r.parent, pool, chain, t, bufs, reqs, next, w);
    return if ok then ToParent else Failed;
  }

  /** The requests for memory that a body call diverted to p makes. */
  function BodyNeeds(unmade: bool, free: nat, want: nat): nat {
    (if unmade then 1 else 0) + if want <= free then 0 else want - free
  }

  lemma CopiesAll(w: World, p: Request, pool: Pool, want: nat)
    ensures (p in w.ctxs || pool.Granted(0)) && Copies(w, p, pool, want) == want <==>
            AllGranted(pool.grants, BodyNeeds(p !in w.ctxs, |pool.free|, want))
  {
    SupplyIs(|pool.free|, if p in w.ctxs then pool.grants else After(pool.grants, 1), want);
    if p !in w.ctxs && pool.Granted(0) {
      GrantedFurther(pool.grants, 1, if want <= |pool.free| then 0 else want - |pool.free|);
    }
  }

  /** What p's context has collected. */
  ghost function BodyIn(p: Request?): seq<Buf>
    reads p, (if p == null then null else p.ctx)
  {
    if p == null || p.ctx == null then [] else p.ctx.bufs
  }

  /**
   The body filter. A chain that is handed on, or copied, is left as it was. The
   chain of a marked request goes onto its parent's body, all of it exactly when the
   context and the links it needs find memory.
   */
  method BodyFilter(r: Request, pool: Pool, chain: Link?, ghost t: seq<Link>, ghost bufs: seq<Buf>,
                    ghost reqs: set<Request>, next: NextFilters, ghost w: World)
    returns (route: Route)
    requires r in reqs && Laid(reqs, pool) && Is(reqs, next, w) && ParentsExist(w)
    requires InUse(pool, chain, t) && Carries(t, bufs)
    requires r.parent != null && r.parent.ctx != null ==> Apart(t, r.parent.ctx.links)
    modifies next, pool, ReachOf(r.parent, pool), (if r.parent == null then {} else {r.parent, r.parent.ctx})
    ensures Laid(reqs, pool) && Is(reqs, next, Step(w, old(BodyOp(w, r, bufs, pool))))
    ensures route == RouteOf(w, old(BodyOp(w, r, bufs, pool)))
    ensures InUse(pool, chain, t) && Carries(t, bufs)
    ensures chain == null ==> route == Dropped
    ensures var marked := old(r.ctx) != null && old(r.ctx.doHook);
            && (chain != null && !marked ==> route == ToNext)
            && (chain != null && marked ==>
                  && r.parent != null
                  && (route == ToParent || route == Failed)
                  && (route == ToParent <==>
                        AllGranted(old(pool.grants), BodyNeeds(old(r.parent.ctx) == null, |old(pool.free)|, |bufs|))))
    ensures AllTrue(old(pool.grants)) && chain != null && old(r.ctx) != null && old(r.ctx.doHook) ==> route == ToParent
    ensures next.received == if route == ToNext then old(next.received) + [BodyCall(r, bufs)] else old(next.received)
    ensures route == ToParent ==> r.parent != null && BodyIn(r.parent) == old(BodyIn(r.parent)) + bufs
    ensures route == ToNext || route == Dropped ==> BodyIn(r.parent) == old(BodyIn(r.parent))
  {
    ghost var op, p := BodyOp(w, r, bufs, pool), r.parent;
    BodyStep(w, r, bufs, pool);
    Present(reqs, next, w, r);
    if p != null {
      Present(reqs, next, w, p);
      CopiesAll(w, p, pool, |bufs|);
    }
    route := FilterBody(r, pool, chain, t, bufs, reqs, next, w);
    if p != null {
      Present(reqs, next, Step(w, op), p);
      assert bufs[..|bufs|] == bufs;
    }
  }
}
