/** What the timer protocol guarantees in every reachable state, and the proof that it implements
    the simple barrier machine. */
module TimerSafety {
  import opened Timer
  import Barrier
  import Os

  /** Every event of the run is possible when its turn comes. */
  predicate Runs(s: State, es: seq<Event>)
    requires Inv(s)
    decreases |es|
  {
    es == [] || (Enabled(s, es[0]) && (NextInv(s, es[0]); Runs(Next(s, es[0]), es[1..])))
  }

  function After(s: State, es: seq<Event>): (r: State)
    requires Inv(s) && Runs(s, es)
    ensures Inv(r) && |r.devs| == |s.devs|
    decreases |es|
  {
    if es == [] then s else NextInv(s, es[0]); After(Next(s, es[0]), es[1..])
  }

  /** The run is possible for n devices from the start. */
  predicate RunsFromStart(n: nat, es: seq<Event>) {
    InitInv(n);
    Runs(Init(n), es)
  }

  function Reached(n: nat, es: seq<Event>): (r: State)
    requires RunsFromStart(n, es)
    ensures Inv(r) && |r.devs| == n
  {
    InitInv(n);
    After(Init(n), es)
  }

  /** Lockstep over any run of n devices: a device working in its slot has completed exactly `time`
      next_slot calls, and two devices that have not detached are never more than one slot apart. */
  lemma Lockstep(n: nat, es: seq<Event>, j: nat, k: nat)
    requires RunsFromStart(n, es) && j < n && k < n
    ensures var s := Reached(n, es);
            && (InSlot(s.devs[j]) ==> s.devs[j].slots == s.time)
            && (!s.devs[j].pc.Gone? && !s.devs[k].pc.Gone? ==> -1 <= s.devs[j].slots - s.devs[k].slots <= 1)
  {
    var s := Reached(n, es);
    assert DevOk(s.devs[j], s.pc, s.time, j) && DevOk(s.devs[k], s.pc, s.time, k);
  }

  /** Nothing any thread does can move the clock while a device is working in its slot. */
  lemma TimeStable(s: State, e: Event, k: nat)
    requires Inv(s) && Enabled(s, e) && k < |s.devs| && InSlot(s.devs[k])
    ensures Next(s, e).time == s.time
  {
    assert DevOk(s.devs[k], s.pc, s.time, k);
  }

  /** No wake-up is lost: whoever sleeps although its condition has come true is about to be
      signalled by the thread that made it true. */
  lemma NoLostWakeup(s: State, k: nat)
    requires Inv(s) && k < |s.devs|
    ensures s.devs[k].pc.NsSleep? && !s.devs[k].done ==> s.pc == RSignal(k)
    ensures s.pc == WSleep(k) && (s.devs[k].done || s.devs[k].fsh) ==>
              s.devs[k].pc.NsSignal? || s.devs[k].pc.DtSignal?
  {
    assert DevOk(s.devs[k], s.pc, s.time, k);
  }

  /** The timer's counters decide termination exactly: at the tick they are equal if and only if every
      device has detached, and it leaves at the end of the round exactly when it let nobody go. */
  lemma ExitIsExact(s: State)
    requires Inv(s)
    ensures s.pc.Tick? ==> (s.fsh == s.event <==> AllGone(s.devs, |s.devs|))
    ensures s.pc.Check? ==> (AfterTmStep(s).pc.Exited? <==> !s.cleared)
    ensures s.pc.Check? && AfterTmStep(s).pc.Exited? ==> AllGone(s.devs, |s.devs|)
    ensures s.pc.Exited? ==> AllGone(s.devs, |s.devs|)
  {
    if s.pc.Check? && !s.cleared {
      assert forall k :: 0 <= k < |s.devs| ==> !Unreleased(s.pc, k);
    }
  }

  // ------------------------------------------------------------------ refinement

  function AbsDev(d: Dev, pc: TimerPc, k: nat): Barrier.Dev {
    if d.fsh then Barrier.Detached
    else if d.done && !Unreleased(pc, k) then Barrier.Arrived
    else Barrier.Working
  }

  function Abs(s: State): Barrier.State {
    Barrier.State(s.time, seq(|s.devs|, k requires 0 <= k < |s.devs| => AbsDev(s.devs[k], s.pc, k)))
  }

  /** The abstract event a concrete step stands for, if it is visible at all. */
  function AbsEvent(s: State, e: Event): seq<Barrier.Event>
    requires Inv(s) && Enabled(s, e)
  {
    match e
    case DevStep(k) =>
      if s.devs[k].pc.NsSet? then [Barrier.Arrive(k)]
      else if s.devs[k].pc.DtSet? then [Barrier.Detach(k)]
      else []
    case TmStep => if s.pc.Tick? then [Barrier.Tick] else []
    case _ => []
  }

  lemma TickIsTick(s: State)
    requires Inv(s) && s.pc.Tick?
    ensures Barrier.Enabled(Abs(s), Barrier.Tick)
    ensures Abs(AfterTmStep(s)) == Barrier.Next(Abs(s), Barrier.Tick)
  {
    var s' := AfterTmStep(s);
    forall k | 0 <= k < |s.devs|
      ensures Abs(s).devs[k] != Barrier.Working
      ensures Abs(s').devs[k] == Barrier.Next(Abs(s), Barrier.Tick).devs[k]
    {
      assert DevOk(s.devs[k], s.pc, s.time, k);
    }
  }

  lemma QuietTimerStep(s: State)
    requires Inv(s) && TmCanStep(s) && !s.pc.Tick?
    ensures Abs(AfterTmStep(s)) == Abs(s)
  {
    var s' := AfterTmStep(s);
    forall k | 0 <= k < |s.devs| ensures Abs(s').devs[k] == Abs(s).devs[k] {
      assert DevOk(s.devs[k], s.pc, s.time, k);
    }
  }

  lemma DevStepRefines(s: State, k: nat)
    requires Inv(s) && k < |s.devs| && DevCanStep(s, k)
    ensures var b := AbsEvent(s, DevStep(k));
            if b == [] then Abs(AfterDevStep(s, k)) == Abs(s)
            else Barrier.Enabled(Abs(s), b[0]) && Abs(AfterDevStep(s, k)) == Barrier.Next(Abs(s), b[0])
  {
    var s' := AfterDevStep(s, k);
    assert DevOk(s.devs[k], s.pc, s.time, k);
    forall i | 0 <= i < |s.devs| && i != k ensures Abs(s').devs[i] == Abs(s).devs[i] {
      assert s'.devs[i] == s.devs[i];
    }
    var b := AbsEvent(s, DevStep(k));
    if b == [] {
      assert Abs(s').devs[k] == Abs(s).devs[k];
      assert Abs(s').devs == Abs(s).devs;
    } else {
      assert Abs(s').devs == Barrier.Next(Abs(s), b[0]).devs;
    }
  }

  /** The locks and condition variables implement the barrier: every step of every thread is one
      barrier event or invisible. */
  lemma Refines(s: State, e: Event)
    requires Inv(s) && Enabled(s, e)
    ensures var b := AbsEvent(s, e);
            if b == [] then Abs(Next(s, e)) == Abs(s)
            else Barrier.Enabled(Abs(s), b[0]) && Abs(Next(s, e)) == Barrier.Next(Abs(s), b[0])
  {
    match e
    case DevStep(k) => DevStepRefines(s, k);
    case TmStep => if s.pc.Tick? { TickIsTick(s); } else { QuietTimerStep(s); }
    case _ =>
      var s' := Next(s, e);
      assert forall k :: 0 <= k < |s.devs| ==> Abs(s').devs[k] == Abs(s).devs[k];
  }

  /** Over a whole run: the visible events of any interleaving form a run of the barrier. */
  ghost predicate BarrierRun(b: Barrier.State, bs: seq<Barrier.Event>, b': Barrier.State)
    decreases |bs|
  {
    if bs == [] then b == b' else Barrier.Enabled(b, bs[0]) && BarrierRun(Barrier.Next(b, bs[0]), bs[1..], b')
  }

  function Visible(s: State, es: seq<Event>): seq<Barrier.Event>
    requires Inv(s) && Runs(s, es)
    decreases |es|
  {
    if es == [] then []
    else NextInv(s, es[0]); AbsEvent(s, es[0]) + Visible(Next(s, es[0]), es[1..])
  }

  lemma {:induction false} RunRefines(s: State, es: seq<Event>)
    requires Inv(s) && Runs(s, es)
    ensures BarrierRun(Abs(s), Visible(s, es), Abs(After(s, es)))
    decreases |es|
  {
    if es != [] {
      NextInv(s, es[0]);
      Refines(s, es[0]);
      RunRefines(Next(s, es[0]), es[1..]);
      var b := AbsEvent(s, es[0]);
      if b != [] {
        assert Visible(s, es)[1..] == Visible(Next(s, es[0]), es[1..]);
      } else {
        assert Visible(s, es) == Visible(Next(s, es[0]), es[1..]);
      }
    }
  }

  // ------------------------------------------------------------------ from the start

  /** The protocol starts where the barrier starts: at time 0 with every device in its first slot. */
  lemma InitRefines(n: nat)
    ensures Inv(Init(n)) && Abs(Init(n)) == Barrier.State(0, seq(n, _ => Barrier.Working))
  {}

  /** The barrier the CPU and loader threads start from is the one the protocol for all of them starts from,
      and every run of the protocol is a run of that barrier. */
  lemma StartRefines(c: Os.Config, numCpus: nat, es: seq<Event>)
    requires RunsFromStart(numCpus + 1, es)
    ensures Inv(Init(numCpus + 1)) && Runs(Init(numCpus + 1), es)
    ensures BarrierRun(Os.Boot(c, numCpus).barrier, Visible(Init(numCpus + 1), es), Abs(Reached(numCpus + 1, es)))
  {
    InitRefines(numCpus + 1);
    RunRefines(Init(numCpus + 1), es);
  }

  // ------------------------------------------------------------------ what the counters count

  /** How often device k has begun a next_slot call during the run. */
  function Calls(es: seq<Event>, k: nat): nat {
    if es == [] then 0 else (if es[0] == Call(k) then 1 else 0) + Calls(es[1..], k)
  }

  /** How often device k has come out of one. */
  function Returns(s: State, es: seq<Event>, k: nat): nat
    requires Inv(s) && Runs(s, es)
    decreases |es|
  {
    if es == [] then 0
    else
      NextInv(s, es[0]);
      (if es[0] == DevStep(k) && k < |s.devs| && s.devs[k].pc.NsUnlockTm? then 1 else 0) +
      Returns(Next(s, es[0]), es[1..], k)
  }

  /** How often the timer has moved the clock. */
  function Ticks(s: State, es: seq<Event>): nat
    requires Inv(s) && Runs(s, es)
    decreases |es|
  {
    if es == [] then 0
    else NextInv(s, es[0]); (if es[0] == TmStep && s.pc.Tick? then 1 else 0) + Ticks(Next(s, es[0]), es[1..])
  }

  /** The device is inside next_slot. */
  predicate InCall(d: Dev) {
    !d.pc.Working? && !d.pc.Gone? && !d.pc.DtLockEv? && !d.pc.DtSet? && !d.pc.DtSignal? && !d.pc.DtUnlock?
  }

  function Begun(d: Dev): nat {
    d.slots + if InCall(d) then 1 else 0
  }

  lemma TimerCounts(s: State, k: nat)
    requires InRange(s) && TmCanStep(s) && k < |s.devs|
    ensures var s' := AfterTmStep(s);
            && |s'.devs| == |s.devs| && s'.time == s.time + (if s.pc.Tick? then 1 else 0)
            && s'.devs[k].slots == s.devs[k].slots && (InCall(s'.devs[k]) <==> InCall(s.devs[k]))
  {}

  lemma StepCounts(s: State, e: Event, k: nat)
    requires Inv(s) && Enabled(s, e) && k < |s.devs|
    ensures var s' := Next(s, e);
            && |s'.devs| == |s.devs|
            && s'.time == s.time + (if e == TmStep && s.pc.Tick? then 1 else 0)
            && s'.devs[k].slots == s.devs[k].slots + (if e == DevStep(k) && s.devs[k].pc.NsUnlockTm? then 1 else 0)
            && Begun(s'.devs[k]) == Begun(s.devs[k]) + (if e == Call(k) then 1 else 0)
  {
    if e == TmStep { TimerCounts(s, k); }
  }

  lemma {:induction false} RunCounts(s: State, es: seq<Event>, k: nat)
    requires Inv(s) && Runs(s, es) && k < |s.devs|
    ensures var s' := After(s, es);
            && s'.time == s.time + Ticks(s, es)
            && s'.devs[k].slots == s.devs[k].slots + Returns(s, es, k)
            && Begun(s'.devs[k]) == Begun(s.devs[k]) + Calls(es, k)
    decreases |es|
  {
    if es != [] {
      NextInv(s, es[0]);
      StepCounts(s, es[0], k);
      RunCounts(Next(s, es[0]), es[1..], k);
    }
  }

  /** Over any run from the start, the time is the number of ticks, the slots of a device are the next_slot
      calls it has come out of, and those are the calls it has begun but for the one it may be in. */
  lemma CountersAreExact(n: nat, es: seq<Event>, k: nat)
    requires RunsFromStart(n, es) && k < n
    ensures Inv(Init(n)) && Runs(Init(n), es)
    ensures var s := Reached(n, es);
            && s.time == Ticks(Init(n), es)
            && s.devs[k].slots == Returns(Init(n), es, k)
            && s.devs[k].slots + (if InCall(s.devs[k]) then 1 else 0) == Calls(es, k)
  {
    InitInv(n);
    RunCounts(Init(n), es, k);
  }

  /** The ticks of the round the timer is in. */
  function TicksLeft(pc: TimerPc): nat {
    if pc.WLock? || pc.WTest? || pc.WSleep? || pc.WWake? || pc.WCount? || pc.WUnlock? || pc.Tick? then 1 else 0
  }

  lemma StoppedStep(s: State, e: Event)
    requires Inv(s) && Enabled(s, e) && s.stop
    ensures var s' := Next(s, e);
            s'.stop && (if e == TmStep && s.pc.Tick? then 1 else 0) + TicksLeft(s'.pc) <= TicksLeft(s.pc)
  {}

  /** Once the main thread has asked it to stop, the timer finishes the round it is in and begins no other. */
  lemma {:induction false} StopIsHonoured(s: State, es: seq<Event>)
    requires Inv(s) && Runs(s, es) && s.stop
    ensures Ticks(s, es) <= TicksLeft(s.pc) <= 1
    decreases |es|
  {
    if es != [] {
      NextInv(s, es[0]);
      StoppedStep(s, es[0]);
      StopIsHonoured(Next(s, es[0]), es[1..]);
    }
  }
}
