/** NgxTimer: timer events recycled through a deque, proved against the state machine of TimerSpec. */
module NgxTimer {
  import opened TimerSpec

  const NGX_OK := 0

  /** ngx_nil as an ngx_msec_t: the unset delay. */
  const UNSET: nat := 0xffff_ffff_ffff_ffff

  /** NgxTimerEv: the nginx event and the function object. */
  class TimerEv {
    var timerSet: bool
    var timedout: bool
    var func: Func

    constructor ()
      ensures !timerSet && !timedout
    {
      timerSet, timedout, func := false, false, 0;
    }

    /** NgxTimerEv::init: clears the nginx event, then arms it unless the delay is unset. */
    method Init(ms: nat, f: Func)
      modifies this
      ensures func == f && !timedout && (timerSet <==> ms != 0xffff_ffff_ffff_ffff)
    {
      func := f;
      timerSet, timedout := false, false;
      if ms == UNSET {
        return;
      }
      timerSet := true;
    }

    /** NgxTimerEv::operator(): which function it runs, if any. */
    method Fire() returns (ran: Option<Func>)
      ensures ran == if timedout then Some(func) else None
    {
      if !timedout {
        return None;
      }
      return Some(func);
    }
  }

  class TimerPool {
    var pool: seq<TimerEv>
    ghost var m: Machine
    ghost var all: seq<TimerEv>   // every event allocated, in order

    ghost predicate Valid()
      reads this, all
    {
      && Inv(m) && |all| == |m.funcs|
      && (forall d, e :: 0 <= d < e < |all| ==> all[d] != all[e])
      && |pool| == |m.pool| && (forall i :: 0 <= i < |pool| ==> m.pool[i] < |all| && pool[i] == all[m.pool[i]])
      && (forall e :: 0 <= e < |all| ==> all[e].func == m.funcs[e] && (all[e].timerSet <==> e in m.armed))
    }

    constructor ()
      ensures Valid() && m == START && all == []
    {
      pool, m, all := [], START, [];
    }

    /** NgxTimer::acquire */
    method Acquire() returns (e: TimerEv)
      requires Valid()
      modifies this`pool
      ensures |m.pool| > 0 ==> e == all[m.pool[0]] && pool == old(pool)[1..]
      ensures |m.pool| == 0 ==> fresh(e) && pool == []
    {
      if pool == [] {
        e := new TimerEv();
        return;
      }
      e := pool[0];
      pool := pool[1..];
    }

    /** The account of an add whose event has been taken and initialised. */
    ghost method Record(e: TimerEv, f: Func, delayed: bool)
      requires Inv(m) && |all| == |m.funcs| && Acquired(m) <= |all|
      requires forall d, d' :: 0 <= d < d' < |all| ==> all[d] != all[d']
      requires |pool| == |Step(m, Op.Add(f, delayed)).pool|
      requires forall i :: 0 <= i < |pool| ==>
                && Step(m, Op.Add(f, delayed)).pool[i] < |all|
                && pool[i] == all[Step(m, Op.Add(f, delayed)).pool[i]]
      requires forall d :: 0 <= d < |all| && d != Acquired(m) ==>
                && all[d] != e
                && all[d].func == m.funcs[d]
                && (all[d].timerSet <==> d in m.armed)
      requires Acquired(m) < |all| ==> e == all[Acquired(m)]
      requires e.func == f && e.timerSet == delayed
      modifies this`m, this`all
      ensures Valid() && m == Step(old(m), Op.Add(f, delayed))
      ensures all == if Acquired(old(m)) == |old(all)| then old(all) + [e] else old(all)
    {
      StepKeepsInv(m, Op.Add(f, delayed));
      AcquiredIsIdle(m);
      if Acquired(m) == |all| {
        all := all + [e];
      }
      m := Step(m, Op.Add(f, delayed));
    }

    /** NgxTimer::add */
    method Add(ms: nat, f: Func) returns (rc: int)
      requires Valid()
      modifies this, all
      ensures Valid() && rc == NGX_OK
      ensures m == Step(old(m), Op.Add(f, ms != UNSET))
      ensures Acquired(old(m)) < |all| && all[Acquired(old(m))].func == f
      ensures all[Acquired(old(m))].timerSet <==> ms != 0xffff_ffff_ffff_ffff
      ensures if old(pool) == [] then pool == [] && fresh(all[Acquired(old(m))])
              else all[Acquired(old(m))] == old(pool[0]) && pool == old(pool[1..])
      ensures old(m).pool != [] ==> all == old(all)
      ensures old(m).pool == [] ==> |all| == |old(all)| + 1 && all[..|old(all)|] == old(all) && fresh(all[|old(all)|])
    {
      AcquiredIsIdle(m);
      var e := Acquire();
      e.Init(ms, f);
      Record(e, f, ms != UNSET);
      return NGX_OK;
    }

    /**
     nginx expires the timer and NgxTimer::call starts: the function object runs
     next, and may call Add before Finish.
     */
    method Expire(ghost e: nat, ev: TimerEv) returns (ran: Option<Func>)
      requires Valid() && e in m.armed && e < |all| && ev == all[e]
      modifies this`m, all
      ensures Valid() && all == old(all)
      ensures m == Step(old(m), Op.Expire(e))
      ensures ran == Ran(old(m), Op.Expire(e))
      ensures ran == Some(old(ev.func)) && ev.timedout && !ev.timerSet && pool == old(pool)
    {
      StepKeepsInv(m, Op.Expire(e));
      ev.timerSet := false;
      ev.timedout := true;
      ran := ev.Fire();
      m := Step(m, Op.Expire(e));
    }

    /** NgxTimer::call ends: release of the event whose function object has returned. */
    method Finish(ev: TimerEv)
      requires Valid() && m.firing != []
      requires m.firing[|m.firing| - 1] < |all| && ev == all[m.firing[|m.firing| - 1]]
      modifies this`m, this`pool
      ensures Valid() && m == Step(old(m), Return)
      ensures pool == old(pool) + [ev]
    {
      StepKeepsInv(m, Return);
      pool := pool + [ev];
      m := Step(m, Return);
    }
  }
}
