/**
 The recycling timer pool (NgxTimer) as a state machine, beside the simple one
 that allocates a fresh event per add. Callbacks appear as what they do between
 the start of a firing and its return: any further steps at all.
 */
module TimerSpec {
  import opened Numbers

  datatype Option<T> = None | Some(value: T)

  /** Which function object an add was given. */
  type Func = nat

  /** Events are numbered in the order they were allocated, adds in the order they were made. */
  datatype Machine = Machine(
    pool: seq<nat>,         // the deque, front first
    armed: map<nat, nat>,   // an armed event, and the add that armed it
    firing: seq<nat>,       // events whose callback is running, the innermost last
    lost: set<nat>,         // events taken by an add with the unset delay
    funcs: seq<Func>,       // m_func of every event
    adds: seq<Func>)        // the function passed to every add

  datatype Op = Add(f: Func, delayed: bool) | Expire(ev: nat) | Return

  const START := Machine([], map[], [], {}, [], [])

  predicate Enabled(m: Machine, op: Op) {
    match op
    case Add(_, _) => true
    case Expire(ev) => ev in m.armed && ev < |m.funcs|
    case Return => m.firing != []
  }

  /** acquire: the event at the front of the pool, or a new one. */
  function Acquired(m: Machine): nat {
    if m.pool == [] then |m.funcs| else m.pool[0]
  }

  function Step(m: Machine, op: Op): Machine
    requires Enabled(m, op)
  {
    match op
    case Add(f, delayed) =>
      var e := Acquired(m);
      Machine(
        if m.pool == [] then [] else m.pool[1..],
        if delayed then m.armed[e := |m.adds|] else m.armed,
        m.firing,
        if delayed then m.lost else m.lost + {e},
        if e < |m.funcs| then m.funcs[e := f] else m.funcs + [f],
        m.adds + [f])
    case Expire(ev) => m.(armed := m.armed - {ev}, firing := m.firing + [ev])
    case Return => m.(pool := m.pool + [m.firing[|m.firing| - 1]], firing := m.firing[..|m.firing| - 1])
  }

  /** The function a step runs: at expiry, whatever the event holds by then. */
  function Ran(m: Machine, op: Op): Option<Func>
    requires Enabled(m, op)
  {
    if op.Expire? then Some(m.funcs[op.ev]) else None
  }

  // ---------- one event per add ----------

  datatype Simple = Simple(pending: set<nat>, adds: seq<Func>)

  datatype SimpleOp = SAdd(f: Func, delayed: bool) | SExpire(add: nat) | SReturn

  predicate SEnabled(s: Simple, op: SimpleOp) {
    op.SExpire? ==> op.add in s.pending && op.add < |s.adds|
  }

  function SStep(s: Simple, op: SimpleOp): Simple
    requires SEnabled(s, op)
  {
    match op
    case SAdd(f, delayed) => Simple(if delayed then s.pending + {|s.adds|} else s.pending, s.adds + [f])
    case SExpire(add) => s.(pending := s.pending - {add})
    case SReturn => s
  }

  function SRan(s: Simple, op: SimpleOp): Option<Func>
    requires SEnabled(s, op)
  {
    if op.SExpire? then Some(s.adds[op.add]) else None
  }

  // ---------- the invariant ----------

  /** How often each event occurs in the pool, armed, firing and lost together. */
  function Places(m: Machine): multiset<nat> {
    multiset(m.pool) + multiset(m.armed.Keys) + multiset(m.firing) + multiset(m.lost)
  }

  /** Every event allocated is in exactly one place. */
  ghost predicate OnePlace(m: Machine) {
    forall e: nat :: Places(m)[e] == if e < |m.funcs| then 1 else 0
  }

  /** An armed event holds the function of the add that armed it; no two were armed by one add. */
  ghost predicate ArmedRight(m: Machine) {
    && (forall e :: e in m.armed ==> e < |m.funcs| && m.armed[e] < |m.adds| && m.funcs[e] == m.adds[m.armed[e]])
    && (forall d, e :: d in m.armed && e in m.armed && m.armed[d] == m.armed[e] ==> d == e)
  }

  ghost predicate Inv(m: Machine) {
    OnePlace(m) && ArmedRight(m)
  }

  lemma PoolSplit(m: Machine)
    requires m.pool != []
    ensures multiset(m.pool) == multiset{m.pool[0]} + multiset(m.pool[1..])
  {
    assert m.pool == [m.pool[0]] + m.pool[1..];
  }

  /** The event an add takes is idle or new: init never clears one that is armed or whose callback is running. */
  lemma AcquiredIsIdle(m: Machine)
    requires OnePlace(m)
    ensures Acquired(m) !in m.armed && Acquired(m) !in m.firing && Acquired(m) !in m.lost
    ensures m.pool != [] ==> Acquired(m) < |m.funcs| && Acquired(m) !in m.pool[1..]
  {
    var e := Acquired(m);
    assert Places(m)[e] == if e < |m.funcs| then 1 else 0;
    if m.pool != [] {
      PoolSplit(m);
      assert multiset(m.pool)[e] == 1 + multiset(m.pool[1..])[e];
    }
  }

  lemma OneMoreInSet(s: set<nat>, e: nat)
    requires e !in s
    ensures multiset(s + {e}) == multiset(s) + multiset{e}
  {
  }

  lemma Reorder(p: multiset<nat>, p': multiset<nat>, a: multiset<nat>, a': multiset<nat>, f: multiset<nat>,
                l: multiset<nat>, l': multiset<nat>, e: multiset<nat>, made: multiset<nat>)
    requires p' + e == p + made && a' + l' == a + l + e
    ensures p' + a' + f + l' == p + a + f + l + made
  {
    forall x: nat
      ensures (p' + a' + f + l')[x] == (p + a + f + l + made)[x]
    {
      assert (p' + e)[x] == (p + made)[x];
      assert (a' + l')[x] == (a + l + e)[x];
    }
  }

  lemma AddPlaces(m: Machine, f: Func, delayed: bool)
    requires OnePlace(m)
    ensures Places(Step(m, Add(f, delayed))) == Places(m) + if m.pool == [] then multiset{Acquired(m)} else multiset{}
  {
    var e, n := Acquired(m), Step(m, Add(f, delayed));
    AcquiredIsIdle(m);
    assert multiset(n.pool) + multiset{e} == multiset(m.pool) + (if m.pool == [] then multiset{e} else multiset{}) by {
      if m.pool != [] {
        PoolSplit(m);
      }
    }
    assert multiset(n.armed.Keys) + multiset(n.lost) == multiset(m.armed.Keys) + multiset(m.lost) + multiset{e} by {
      if delayed {
        assert n.armed.Keys == m.armed.Keys + {e};
        OneMoreInSet(m.armed.Keys, e);
      } else {
        OneMoreInSet(m.lost, e);
      }
    }
    Reorder(multiset(m.pool), multiset(n.pool), multiset(m.armed.Keys), multiset(n.armed.Keys), multiset(m.firing),
            multiset(m.lost), multiset(n.lost), multiset{e}, if m.pool == [] then multiset{e} else multiset{});
  }

  lemma ReusedEvent(m: Machine, n: Machine)
    requires OnePlace(m) && Places(n) == Places(m) && |n.funcs| == |m.funcs|
    ensures OnePlace(n)
  {
    forall d: nat
      ensures Places(n)[d] == if d < |n.funcs| then 1 else 0
    {
      assert Places(m)[d] == if d < |m.funcs| then 1 else 0;
    }
  }

  lemma NewEvent(m: Machine, n: Machine)
    requires OnePlace(m) && Places(n) == Places(m) + multiset{|m.funcs|} && |n.funcs| == |m.funcs| + 1
    ensures OnePlace(n)
  {
    forall d: nat
      ensures Places(n)[d] == if d < |n.funcs| then 1 else 0
    {
      assert Places(m)[d] == if d < |m.funcs| then 1 else 0;
    }
  }

  lemma AddKeepsPlaces(m: Machine, f: Func, delayed: bool)
    requires OnePlace(m)
    ensures OnePlace(Step(m, Add(f, delayed)))
  {
    var n := Step(m, Add(f, delayed));
    AddPlaces(m, f, delayed);
    if m.pool == [] {
      NewEvent(m, n);
    } else {
      AcquiredIsIdle(m);
      ReusedEvent(m, n);
    }
  }

  lemma MovesKeepPlaces(m: Machine, op: Op)
    requires OnePlace(m) && Enabled(m, op) && !op.Add?
    ensures Places(Step(m, op)) == Places(m)
  {
    var n := Step(m, op);
    if op.Expire? {
      assert n.armed.Keys == m.armed.Keys - {op.ev};
      assert multiset(n.armed.Keys) + multiset{op.ev} == multiset(m.armed.Keys);
    } else {
      var k := |m.firing| - 1;
      assert m.firing == m.firing[..k] + [m.firing[k]];
    }
  }

  lemma AddArmsRight(m: Machine, f: Func, delayed: bool)
    requires Inv(m)
    ensures ArmedRight(Step(m, Add(f, delayed)))
  {
    var e, n := Acquired(m), Step(m, Add(f, delayed));
    AcquiredIsIdle(m);
    assert forall d :: d in m.armed ==> d != e && n.armed[d] == m.armed[d] && n.funcs[d] == m.funcs[d];
  }

  lemma StepKeepsInv(m: Machine, op: Op)
    requires Inv(m) && Enabled(m, op)
    ensures Inv(Step(m, op))
  {
    if op.Add? {
      AddKeepsPlaces(m, op.f, op.delayed);
      AddArmsRight(m, op.f, op.delayed);
    } else {
      MovesKeepPlaces(m, op);
    }
  }

  // ---------- runs ----------

  predicate AllEnabled(m: Machine, ops: seq<Op>)
    decreases |ops|
  {
    ops == [] || (Enabled(m, ops[0]) && AllEnabled(Step(m, ops[0]), ops[1..]))
  }

  function Run(m: Machine, ops: seq<Op>): Machine
    requires AllEnabled(m, ops)
    decreases |ops|
  {
    if ops == [] then m else Run(Step(m, ops[0]), ops[1..])
  }

  function Log(m: Machine, ops: seq<Op>): seq<Option<Func>>
    requires AllEnabled(m, ops)
    decreases |ops|
  {
    if ops == [] then [] else [Ran(m, ops[0])] + Log(Step(m, ops[0]), ops[1..])
  }

  predicate SAllEnabled(s: Simple, ops: seq<SimpleOp>)
    decreases |ops|
  {
    ops == [] || (SEnabled(s, ops[0]) && SAllEnabled(SStep(s, ops[0]), ops[1..]))
  }

  function SLog(s: Simple, ops: seq<SimpleOp>): seq<Option<Func>>
    requires SAllEnabled(s, ops)
    decreases |ops|
  {
    if ops == [] then [] else [SRan(s, ops[0])] + SLog(SStep(s, ops[0]), ops[1..])
  }

  /** The expiry of a recycled event is the expiry of the add that armed it. */
  function Seen(m: Machine, op: Op): SimpleOp
    requires Enabled(m, op)
  {
    match op
    case Add(f, delayed) => SAdd(f, delayed)
    case Expire(ev) => SExpire(m.armed[ev])
    case Return => SReturn
  }

  function SeenAll(m: Machine, ops: seq<Op>): seq<SimpleOp>
    requires AllEnabled(m, ops)
    decreases |ops|
  {
    if ops == [] then [] else [Seen(m, ops[0])] + SeenAll(Step(m, ops[0]), ops[1..])
  }

  function View(m: Machine): Simple {
    Simple(m.armed.Values, m.adds)
  }

  lemma StepRefines(m: Machine, op: Op)
    requires Inv(m) && Enabled(m, op)
    ensures SEnabled(View(m), Seen(m, op))
    ensures View(Step(m, op)) == SStep(View(m), Seen(m, op))
    ensures Ran(m, op) == SRan(View(m), Seen(m, op))
  {
    var n := Step(m, op);
    match op {
      case Add(f, delayed) =>
        var e := Acquired(m);
        AcquiredIsIdle(m);
        if delayed {
          assert n.armed[e] == |m.adds|;
          assert forall d :: d in m.armed ==> d in n.armed && n.armed[d] == m.armed[d];
          assert n.armed.Values == m.armed.Values + {|m.adds|};
        }
      case Expire(ev) =>
        assert m.armed[ev] in m.armed.Values;
        assert forall d :: d in n.armed ==> d in m.armed && d != ev && n.armed[d] == m.armed[d];
        forall t | t in m.armed.Values && t != m.armed[ev]
          ensures t in n.armed.Values
        {
          var d :| d in m.armed && m.armed[d] == t;
          assert d in n.armed && n.armed[d] == t;
        }
        assert n.armed.Values == m.armed.Values - {m.armed[ev]};
      case Return =>
    }
  }

  /**
   The recycling pool refines one event per add: in every run, callbacks that add
   while they fire included, each expiry runs what the simple pool would run.
   */
  lemma {:induction false} RunRefines(m: Machine, ops: seq<Op>)
    requires Inv(m) && AllEnabled(m, ops)
    ensures SAllEnabled(View(m), SeenAll(m, ops))
    ensures SLog(View(m), SeenAll(m, ops)) == Log(m, ops)
    ensures Inv(Run(m, ops))
    decreases |ops|
  {
    if ops != [] {
      StepRefines(m, ops[0]);
      StepKeepsInv(m, ops[0]);
      RunRefines(Step(m, ops[0]), ops[1..]);
    }
  }

  /** Once an add has fired, or before it is made, it does not fire. */
  lemma {:induction false} NotPendingNeverFires(s: Simple, ops: seq<SimpleOp>, add: nat, i: nat)
    requires SAllEnabled(s, ops) && add < |s.adds| && add !in s.pending && i < |ops|
    ensures ops[i] != SExpire(add)
    decreases |ops|
  {
    if i > 0 {
      NotPendingNeverFires(SStep(s, ops[0]), ops[1..], add, i - 1);
    }
  }

  /** Each add of the simple machine fires at most once. */
  lemma {:induction false} SFiresOnce(s: Simple, ops: seq<SimpleOp>, i: nat, j: nat)
    requires SAllEnabled(s, ops) && i < j < |ops| && ops[i].SExpire?
    ensures ops[j] != ops[i]
    decreases |ops|
  {
    if i > 0 {
      SFiresOnce(SStep(s, ops[0]), ops[1..], i - 1, j - 1);
    } else {
      NotPendingNeverFires(SStep(s, ops[0]), ops[1..], ops[0].add, j - 1);
    }
  }

  lemma {:induction false} SeenAllSize(m: Machine, ops: seq<Op>)
    requires AllEnabled(m, ops)
    ensures |SeenAll(m, ops)| == |ops|
    ensures forall i :: 0 <= i < |ops| ==> (SeenAll(m, ops)[i].SExpire? <==> ops[i].Expire?)
    decreases |ops|
  {
    if ops != [] {
      SeenAllSize(Step(m, ops[0]), ops[1..]);
    }
  }

  /** In every run of the recycling pool no two expiries, of whatever events, are of the same add. */
  lemma FiresOnce(m: Machine, ops: seq<Op>, i: nat, j: nat)
    requires Inv(m) && AllEnabled(m, ops) && i < j < |ops| && ops[i].Expire?
    ensures |SeenAll(m, ops)| == |ops| && SeenAll(m, ops)[i].SExpire? && SeenAll(m, ops)[j] != SeenAll(m, ops)[i]
  {
    SeenAllSize(m, ops);
    RunRefines(m, ops);
    SFiresOnce(View(m), SeenAll(m, ops), i, j);
  }

  // ---------- how many events are ever allocated ----------

  /** Events that cannot be handed out. */
  function Busy(m: Machine): nat {
    |m.armed| + |m.firing| + |m.lost|
  }

  /** The most events busy at once at any point of a run. */
  function Peak(m: Machine, ops: seq<Op>): nat
    requires AllEnabled(m, ops)
    decreases |ops|
  {
    if ops == [] then Busy(m) else Max(Busy(m), Peak(Step(m, ops[0]), ops[1..]))
  }

  /** The most events armed or firing at once. */
  function PeakInUse(m: Machine, ops: seq<Op>): nat
    requires AllEnabled(m, ops)
    decreases |ops|
  {
    var now := |m.armed| + |m.firing|;
    if ops == [] then now else Max(now, PeakInUse(Step(m, ops[0]), ops[1..]))
  }

  /** How many adds have the unset delay. */
  function Undelayed(ops: seq<Op>): nat {
    if ops == [] then 0 else (if ops[0].Add? && !ops[0].delayed then 1 else 0) + Undelayed(ops[1..])
  }

  predicate AllDelayed(ops: seq<Op>) {
    forall op :: op in ops && op.Add? ==> op.delayed
  }

  lemma {:induction false} NoneUndelayed(ops: seq<Op>)
    ensures Undelayed(ops) == 0 <==> AllDelayed(ops)
    decreases |ops|
  {
    if ops != [] {
      assert ops[0] in ops && ops == [ops[0]] + ops[1..];
      assert forall op :: op in ops[1..] ==> op in ops;
      NoneUndelayed(ops[1..]);
    }
  }

  lemma AddCounts(m: Machine, f: Func, delayed: bool)
    requires OnePlace(m)
    ensures Busy(Step(m, Add(f, delayed))) == Busy(m) + 1
  {
    var e, n := Acquired(m), Step(m, Add(f, delayed));
    AcquiredIsIdle(m);
    if delayed {
      assert n.armed.Keys == m.armed.Keys + {e};
      assert |n.armed| == |n.armed.Keys| && |m.armed| == |m.armed.Keys|;
    }
  }

  lemma ExpireCounts(m: Machine, ev: nat)
    requires Enabled(m, Expire(ev))
    ensures Busy(Step(m, Expire(ev))) == Busy(m)
  {
    var n := Step(m, Expire(ev));
    assert n.armed.Keys == m.armed.Keys - {ev};
    assert |n.armed| == |n.armed.Keys| && |m.armed| == |m.armed.Keys|;
  }

  lemma StepCounts(m: Machine, op: Op)
    requires OnePlace(m) && Enabled(m, op)
    requires |m.funcs| == |m.pool| + Busy(m)
    ensures var n := Step(m, op); |n.funcs| == |n.pool| + Busy(n) && |n.funcs| == Max(|m.funcs|, Busy(n))
  {
    match op {
      case Add(f, delayed) =>
        AddCounts(m, f, delayed);
        AcquiredIsIdle(m);
      case Expire(ev) =>
        ExpireCounts(m, ev);
      case Return =>
    }
  }

  lemma {:induction false} RunCounts(m: Machine, ops: seq<Op>)
    requires Inv(m) && AllEnabled(m, ops)
    requires |m.funcs| == |m.pool| + Busy(m)
    ensures |Run(m, ops).funcs| == Max(|m.funcs|, Peak(m, ops))
    decreases |ops|
  {
    if ops != [] {
      StepKeepsInv(m, ops[0]);
      StepCounts(m, ops[0]);
      RunCounts(Step(m, ops[0]), ops[1..]);
    }
  }

  /** Every add with the unset delay loses an event of its own, for good. */
  lemma {:induction false} LostCounts(m: Machine, ops: seq<Op>)
    requires Inv(m) && AllEnabled(m, ops)
    ensures |Run(m, ops).lost| == |m.lost| + Undelayed(ops) && m.lost <= Run(m, ops).lost
    decreases |ops|
  {
    if ops != [] {
      AcquiredIsIdle(m);
      StepKeepsInv(m, ops[0]);
      LostCounts(Step(m, ops[0]), ops[1..]);
    }
  }

  lemma {:induction false} PeakWithoutLoss(m: Machine, ops: seq<Op>)
    requires AllEnabled(m, ops) && AllDelayed(ops) && m.lost == {}
    ensures Peak(m, ops) == PeakInUse(m, ops)
    decreases |ops|
  {
    if ops != [] {
      assert ops[0] in ops;
      assert forall op :: op in ops[1..] ==> op in ops;
      PeakWithoutLoss(Step(m, ops[0]), ops[1..]);
    }
  }

  /**
   The pool allocates exactly as many events as were busy at once. Events are lost
   exactly when some add has the unset delay, one for each; otherwise the pool
   allocates exactly as many as were armed or firing at once.
   */
  lemma AllocatesPeak(ops: seq<Op>)
    requires AllEnabled(START, ops)
    ensures |Run(START, ops).funcs| == Peak(START, ops)
    ensures |Run(START, ops).lost| == Undelayed(ops)
    ensures Run(START, ops).lost == {} <==> AllDelayed(ops)
    ensures AllDelayed(ops) ==> |Run(START, ops).funcs| == PeakInUse(START, ops)
  {
    RunCounts(START, ops);
    LostCounts(START, ops);
    NoneUndelayed(ops);
    if AllDelayed(ops) {
      PeakWithoutLoss(START, ops);
    }
  }
}
