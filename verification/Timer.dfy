/** The barrier between the timer thread and its devices (src/timer.c), one step per lock operation,
    shared access or condition-variable call. `done` is set under the event lock and cleared under the
    timer lock, so no single lock protects it; the invariant below is what keeps it safe. */
module Timer {
  import Barrier

  /** Where a device thread is. `Ns...` is inside next_slot, `Dt...` inside detach_event. */
  datatype DevPc =
    | Working
    | NsLockEv | NsSet | NsSignal | NsUnlockEv
    | NsLockTm | NsTest | NsSleep | NsWake | NsUnlockTm
    | DtLockEv | DtSet | DtSignal | DtUnlock
    | Gone

  /** `slots` counts the next_slot calls the device has completed. */
  datatype Dev = Dev(pc: DevPc, done: bool, fsh: bool, slots: nat)

  /** Where the timer thread is; j is the device its list pointer is at. */
  datatype TimerPc =
    | Head
    | WLock(j: nat) | WTest(j: nat) | WSleep(j: nat) | WWake(j: nat) | WCount(j: nat) | WUnlock(j: nat)
    | Tick
    | RLock(j: nat) | RClear(j: nat) | RSignal(j: nat) | RUnlock(j: nat)
    | Check
    | Exited

  /** `fsh` and `event` are the timer's counters for the current round; `cleared` is a history
      variable: some `done` flag was cleared in this round. */
  datatype State = State(devs: seq<Dev>, pc: TimerPc, time: nat, fsh: nat, event: nat, stop: bool, cleared: bool)

  /** `Call` and `Leave` are a device's own decisions, `Dev` and `Tm` the protocol's next step,
      `WakeDev` and `WakeTm` spurious wake-ups, `Stop` the main thread after joining every device. */
  datatype Event = Call(k: nat) | Leave(k: nat) | DevStep(k: nat) | TmStep | WakeDev(k: nat) | WakeTm | Stop

  function Init(n: nat): State {
    State(seq(n, _ => Dev(Working, false, false, 0)), Head, 0, 0, 0, false, false)
  }

  // ------------------------------------------------------------------ locks

  predicate TimerHoldsEv(pc: TimerPc, k: nat) {
    pc == WTest(k) || pc == WCount(k) || pc == WUnlock(k)
  }

  predicate TimerHoldsTm(pc: TimerPc, k: nat) {
    pc == RClear(k) || pc == RSignal(k) || pc == RUnlock(k)
  }

  predicate DevHoldsEv(d: Dev) {
    d.pc.NsSet? || d.pc.NsSignal? || d.pc.NsUnlockEv? || d.pc.DtSet? || d.pc.DtSignal? || d.pc.DtUnlock?
  }

  predicate DevHoldsTm(d: Dev) {
    d.pc.NsTest? || d.pc.NsUnlockTm?
  }

  // ------------------------------------------------------------------ steps

  predicate InRange(s: State) {
    match s.pc
    case WLock(j) => j < |s.devs|
    case WTest(j) => j < |s.devs|
    case WSleep(j) => j < |s.devs|
    case WWake(j) => j < |s.devs|
    case WCount(j) => j < |s.devs|
    case WUnlock(j) => j < |s.devs|
    case RLock(j) => j < |s.devs|
    case RClear(j) => j < |s.devs|
    case RSignal(j) => j < |s.devs|
    case RUnlock(j) => j < |s.devs|
    case _ => true
  }

  predicate DevCanStep(s: State, k: nat)
    requires k < |s.devs|
  {
    match s.devs[k].pc
    case Working => false
    case Gone => false
    case NsSleep => false
    case NsLockEv => !TimerHoldsEv(s.pc, k)
    case DtLockEv => !TimerHoldsEv(s.pc, k)
    case NsLockTm => !TimerHoldsTm(s.pc, k)
    case NsWake => !TimerHoldsTm(s.pc, k)
    case _ => true
  }

  predicate TmCanStep(s: State)
    requires InRange(s)
  {
    match s.pc
    case WLock(j) => !DevHoldsEv(s.devs[j])
    case WWake(j) => !DevHoldsEv(s.devs[j])
    case RLock(j) => !DevHoldsTm(s.devs[j])
    case WSleep(_) => false
    case Exited => false
    case _ => true
  }

  predicate Enabled(s: State, e: Event)
    requires InRange(s)
  {
    match e
    case Call(k) => k < |s.devs| && s.devs[k].pc.Working?
    case Leave(k) => k < |s.devs| && s.devs[k].pc.Working?
    case DevStep(k) => k < |s.devs| && DevCanStep(s, k)
    case TmStep => TmCanStep(s)
    case WakeDev(k) => k < |s.devs| && s.devs[k].pc.NsSleep?
    case WakeTm => s.pc.WSleep?
    case Stop => forall k :: 0 <= k < |s.devs| ==> s.devs[k].pc.Gone?
  }

  /** The device's own fields after its next step. */
  function DevAfter(d: Dev): Dev
    requires !d.pc.Working? && !d.pc.Gone? && !d.pc.NsSleep?
  {
    match d.pc
    case NsLockEv => d.(pc := NsSet)
    case NsSet => d.(pc := NsSignal, done := true)
    case NsSignal => d.(pc := NsUnlockEv)
    case NsUnlockEv => d.(pc := NsLockTm)
    case NsLockTm => d.(pc := NsTest)
    case NsTest => if d.done then d.(pc := NsSleep) else d.(pc := NsUnlockTm)
    case NsWake => d.(pc := NsTest)
    case NsUnlockTm => d.(pc := Working, slots := d.slots + 1)
    case DtLockEv => d.(pc := DtSet)
    case DtSet => d.(pc := DtSignal, fsh := true)
    case DtSignal => d.(pc := DtUnlock)
    case DtUnlock => d.(pc := Gone)
  }

  function AfterDevStep(s: State, k: nat): State
    requires k < |s.devs| && DevCanStep(s, k)
  {
    var d := s.devs[k];
    var pc' := if (d.pc.NsSignal? || d.pc.DtSignal?) && s.pc == WSleep(k) then WWake(k) else s.pc;
    s.(devs := s.devs[k := DevAfter(d)], pc := pc')
  }

  function WaitFrom(s: State, j: nat): TimerPc {
    if j < |s.devs| then WLock(j) else Tick
  }

  function ReleaseFrom(s: State, j: nat): TimerPc {
    if j < |s.devs| then RLock(j) else Check
  }

  function AfterTmStep(s: State): State
    requires InRange(s) && TmCanStep(s)
  {
    match s.pc
    case Head =>
      if s.stop then s.(pc := Exited) else s.(pc := WaitFrom(s, 0), fsh := 0, event := 0, cleared := false)
    case WLock(j) => s.(pc := WTest(j))
    case WTest(j) => s.(pc := if !s.devs[j].done && !s.devs[j].fsh then WSleep(j) else WCount(j))
    case WWake(j) => s.(pc := WTest(j))
    case WCount(j) => s.(pc := WUnlock(j), fsh := if s.devs[j].fsh then s.fsh + 1 else s.fsh, event := s.event + 1)
    case WUnlock(j) => s.(pc := WaitFrom(s, j + 1))
    case Tick => s.(pc := ReleaseFrom(s, 0), time := s.time + 1)
    case RLock(j) => s.(pc := RClear(j))
    case RClear(j) =>
      s.(pc := RSignal(j), devs := s.devs[j := s.devs[j].(done := false)], cleared := s.cleared || s.devs[j].done)
    case RSignal(j) =>
      s.(pc := RUnlock(j), devs := if s.devs[j].pc.NsSleep? then s.devs[j := s.devs[j].(pc := NsWake)] else s.devs)
    case RUnlock(j) => s.(pc := ReleaseFrom(s, j + 1))
    case Check => s.(pc := if s.fsh == s.event then Exited else Head)
  }

  function Next(s: State, e: Event): State
    requires InRange(s) && Enabled(s, e)
  {
    match e
    case Call(k) => s.(devs := s.devs[k := s.devs[k].(pc := NsLockEv)])
    case Leave(k) => s.(devs := s.devs[k := s.devs[k].(pc := DtLockEv)])
    case DevStep(k) => AfterDevStep(s, k)
    case TmStep => AfterTmStep(s)
    case WakeDev(k) => s.(devs := s.devs[k := s.devs[k].(pc := NsWake)])
    case WakeTm => s.(pc := WWake(s.pc.j))
    case Stop => s.(stop := true)
  }

  // ------------------------------------------------------------------ invariant

  /** The timer has ticked and is walking the list to let devices go. */
  predicate Releasing(pc: TimerPc) {
    pc.RLock? || pc.RClear? || pc.RSignal? || pc.RUnlock? || pc.Check?
  }

  /** The wait loop has finished with device k in this round. */
  predicate Visited(pc: TimerPc, k: nat) {
    match pc
    case WLock(j) => k < j
    case WTest(j) => k < j
    case WSleep(j) => k < j
    case WWake(j) => k < j
    case WCount(j) => k <= j
    case WUnlock(j) => k <= j
    case Tick => true
    case _ => false
  }

  /** The release loop has not cleared device k yet. */
  predicate Unreleased(pc: TimerPc, k: nat) {
    match pc
    case RLock(j) => k >= j
    case RClear(j) => k >= j
    case RSignal(j) => k > j
    case RUnlock(j) => k > j
    case _ => false
  }

  predicate AwaitsRelease(d: Dev) {
    d.pc.NsLockTm? || d.pc.NsTest? || d.pc.NsSleep? || d.pc.NsWake?
  }

  /** The device has detached for good, or it cannot move before the timer clears its flag. */
  predicate Frozen(d: Dev) {
    d.pc.Gone? || (d.done && AwaitsRelease(d))
  }

  predicate InSlot(d: Dev) {
    d.pc.Working? || d.pc.NsLockEv? || d.pc.NsSet? || d.pc.DtLockEv? || d.pc.DtSet?
  }

  predicate SlotsAgree(d: Dev, pc: TimerPc, time: nat, k: nat) {
    if d.pc.Gone? then d.slots <= time
    else if Unreleased(pc, k) || (!d.done && (AwaitsRelease(d) || d.pc.NsUnlockTm?)) then d.slots + 1 == time
    else d.slots == time
  }

  predicate DevOk(d: Dev, pc: TimerPc, time: nat, k: nat) {
    && (d.fsh <==> d.pc.DtSignal? || d.pc.DtUnlock? || d.pc.Gone?)
    && (d.done ==> d.pc.NsSignal? || d.pc.NsUnlockEv? || AwaitsRelease(d))
    && (d.pc.NsSignal? || d.pc.NsUnlockEv? ==> d.done)
    && (Visited(pc, k) || Unreleased(pc, k) ==> Frozen(d))
    && (d.pc.NsSleep? && !d.done ==> pc == RSignal(k))
    && (pc == RSignal(k) || pc == RUnlock(k) ==> d.pc.Gone? || (!d.done && AwaitsRelease(d)))
    && !(DevHoldsEv(d) && TimerHoldsEv(pc, k))
    && !(DevHoldsTm(d) && TimerHoldsTm(pc, k))
    && (pc == WSleep(k) && d.done ==> d.pc.NsSignal?)
    && (pc == WSleep(k) && d.fsh ==> d.pc.DtSignal?)
    && SlotsAgree(d, pc, time, k)
  }

  function VisitedCount(s: State): nat
    requires InRange(s)
  {
    match s.pc
    case WLock(j) => j
    case WTest(j) => j
    case WSleep(j) => j
    case WWake(j) => j
    case WCount(j) => j
    case WUnlock(j) => j + 1
    case Tick => |s.devs|
    case _ => 0
  }

  predicate AllGone(devs: seq<Dev>, n: nat)
    requires n <= |devs|
  {
    forall k :: 0 <= k < n ==> devs[k].pc.Gone?
  }

  predicate CountersOk(s: State)
    requires InRange(s)
  {
    var waiting := s.pc.WLock? || s.pc.WTest? || s.pc.WSleep? || s.pc.WWake? || s.pc.WCount? || s.pc.WUnlock? ||
                   s.pc.Tick?;
    && s.fsh <= s.event
    && (waiting ==>
          !s.cleared && s.event == VisitedCount(s) && (s.fsh == s.event <==> AllGone(s.devs, VisitedCount(s))))
    && (Releasing(s.pc) && s.fsh == s.event ==> AllGone(s.devs, |s.devs|))
    && (Releasing(s.pc) && !s.cleared ==>
          && (s.fsh == s.event <==> AllGone(s.devs, |s.devs|))
          && forall k :: 0 <= k < |s.devs| && !Unreleased(s.pc, k) ==> s.devs[k].pc.Gone?)
    && (Releasing(s.pc) && s.cleared ==> s.fsh < s.event)
    && (s.stop || s.pc.Exited? ==> AllGone(s.devs, |s.devs|))
  }

  predicate Inv(s: State) {
    && InRange(s)
    && (forall k :: 0 <= k < |s.devs| ==> DevOk(s.devs[k], s.pc, s.time, k))
    && CountersOk(s)
  }

  /** The invariant holds before any thread has moved. */
  lemma InitInv(n: nat)
    ensures Inv(Init(n))
  {}

  lemma SameGone(a: seq<Dev>, b: seq<Dev>, n: nat)
    requires n <= |a| == |b|
    requires forall k :: 0 <= k < n ==> (a[k].pc.Gone? <==> b[k].pc.Gone?)
    ensures AllGone(a, n) <==> AllGone(b, n)
  {
    if AllGone(b, n) {
      forall k | 0 <= k < n ensures a[k].pc.Gone? { assert b[k].pc.Gone?; }
    }
  }

  /** A step that moves one device and leaves the timer's position class alone keeps the counters:
      a device the counters speak about is frozen, so the step neither detaches nor revives it. */
  lemma CountersKeptByDevice(s: State, s': State, k: nat)
    requires Inv(s) && k < |s.devs| && InRange(s')
    requires |s'.devs| == |s.devs| && s'.devs == s.devs[k := s'.devs[k]]
    requires s' == s.(devs := s'.devs, pc := s'.pc)
    requires s'.pc == s.pc || (s.pc.WSleep? && s'.pc == WWake(s.pc.j))
    requires !s.devs[k].pc.Gone?
    requires Frozen(s.devs[k]) ==> !s'.devs[k].pc.Gone?
    ensures CountersOk(s')
  {
    assert DevOk(s.devs[k], s.pc, s.time, k);
    assert VisitedCount(s') == VisitedCount(s);
    if !s.pc.Exited? {
      SameGone(s.devs, s'.devs, VisitedCount(s));
    }
    if Releasing(s.pc) {
      if !s.cleared {
        assert Unreleased(s.pc, k);
        SameGone(s.devs, s'.devs, |s.devs|);
      }
    }
  }

  lemma DevStepInv(s: State, k: nat)
    requires Inv(s) && k < |s.devs| && DevCanStep(s, k)
    ensures Inv(AfterDevStep(s, k))
  {
    var s' := AfterDevStep(s, k);
    forall i | 0 <= i < |s'.devs| ensures DevOk(s'.devs[i], s'.pc, s'.time, i) {
      assert DevOk(s.devs[i], s.pc, s.time, i);
    }
    CountersKeptByDevice(s, s', k);
  }

  /** Looking at one device of the wait loop, and moving on to the next. */
  lemma LookDevOk(s: State, i: nat)
    requires InRange(s) && TmCanStep(s) && (s.pc.WLock? || s.pc.WTest? || s.pc.WWake?) && i < |s.devs|
    requires DevOk(s.devs[i], s.pc, s.time, i)
    ensures var s' := AfterTmStep(s); |s'.devs| == |s.devs| && DevOk(s'.devs[i], s'.pc, s'.time, i)
  {}

  lemma CountDevOk(s: State, i: nat)
    requires InRange(s) && TmCanStep(s) && (s.pc.Head? || s.pc.WCount? || s.pc.WUnlock?) && i < |s.devs|
    requires DevOk(s.devs[i], s.pc, s.time, i)
    ensures var s' := AfterTmStep(s); |s'.devs| == |s.devs| && DevOk(s'.devs[i], s'.pc, s'.time, i)
  {}

  /** Letting one device of the release loop go, and moving on to the next. */
  lemma FreeDevOk(s: State, i: nat)
    requires InRange(s) && TmCanStep(s) && (s.pc.RClear? || s.pc.RSignal?) && i < |s.devs|
    requires DevOk(s.devs[i], s.pc, s.time, i)
    ensures var s' := AfterTmStep(s); |s'.devs| == |s.devs| && DevOk(s'.devs[i], s'.pc, s'.time, i)
  {}

  lemma PassDevOk(s: State, i: nat)
    requires InRange(s) && TmCanStep(s) && i < |s.devs|
    requires s.pc.Tick? || s.pc.RLock? || s.pc.RUnlock? || s.pc.Check?
    requires DevOk(s.devs[i], s.pc, s.time, i)
    ensures var s' := AfterTmStep(s); |s'.devs| == |s.devs| && DevOk(s'.devs[i], s'.pc, s'.time, i)
  {}

  lemma TmStepDevOk(s: State, i: nat)
    requires InRange(s) && TmCanStep(s) && i < |s.devs| && DevOk(s.devs[i], s.pc, s.time, i)
    ensures var s' := AfterTmStep(s); |s'.devs| == |s.devs| && DevOk(s'.devs[i], s'.pc, s'.time, i)
  {
    if s.pc.WLock? || s.pc.WTest? || s.pc.WWake? {
      LookDevOk(s, i);
    } else if s.pc.Head? || s.pc.WCount? || s.pc.WUnlock? {
      CountDevOk(s, i);
    } else if s.pc.RClear? || s.pc.RSignal? {
      FreeDevOk(s, i);
    } else {
      PassDevOk(s, i);
    }
  }

  lemma TmStepDevsOk(s: State)
    requires Inv(s) && TmCanStep(s)
    ensures var s' := AfterTmStep(s);
            InRange(s') && forall i :: 0 <= i < |s'.devs| ==> DevOk(s'.devs[i], s'.pc, s'.time, i)
  {
    var s' := AfterTmStep(s);
    forall i | 0 <= i < |s'.devs| ensures DevOk(s'.devs[i], s'.pc, s'.time, i) {
      TmStepDevOk(s, i);
    }
  }

  /** In the wait loop: counting device j extends what the counters say by one device. */
  lemma WaitCountersOk(s: State)
    requires Inv(s) && TmCanStep(s) && !Releasing(s.pc) && InRange(AfterTmStep(s))
    ensures CountersOk(AfterTmStep(s))
  {
    if s.pc.WCount? {
      var j := s.pc.j;
      assert DevOk(s.devs[j], s.pc, s.time, j);
      assert AllGone(s.devs, j + 1) <==> AllGone(s.devs, j) && s.devs[j].pc.Gone?;
    }
  }

  lemma ReleaseCountersOk(s: State)
    requires Inv(s) && TmCanStep(s) && Releasing(s.pc) && InRange(AfterTmStep(s))
    ensures CountersOk(AfterTmStep(s))
  {
    var s' := AfterTmStep(s);
    forall i | 0 <= i < |s.devs| ensures s'.devs[i].pc.Gone? <==> s.devs[i].pc.Gone? {
      assert DevOk(s.devs[i], s.pc, s.time, i);
    }
    SameGone(s.devs, s'.devs, |s.devs|);
  }

  lemma TmStepInv(s: State)
    requires Inv(s) && TmCanStep(s)
    ensures Inv(AfterTmStep(s))
  {
    TmStepDevsOk(s);
    if Releasing(s.pc) {
      ReleaseCountersOk(s);
    } else {
      WaitCountersOk(s);
    }
  }

  /** What a device's own program does, and a spurious wake-up of it. */
  lemma UserStepInv(s: State, e: Event)
    requires Inv(s) && Enabled(s, e) && !e.DevStep? && !e.TmStep? && !e.Stop? && !e.WakeTm?
    ensures Inv(Next(s, e))
  {
    var s' := Next(s, e);
    forall i | 0 <= i < |s'.devs| ensures DevOk(s'.devs[i], s'.pc, s'.time, i) {
      assert DevOk(s.devs[i], s.pc, s.time, i);
    }
    CountersKeptByDevice(s, s', e.k);
  }

  /** Every step of every thread keeps the invariant, spurious wake-ups included. */
  lemma NextInv(s: State, e: Event)
    requires Inv(s) && Enabled(s, e)
    ensures Inv(Next(s, e))
  {
    match e
    case DevStep(k) => DevStepInv(s, k);
    case TmStep => TmStepInv(s);
    case Stop =>
    case WakeTm =>
    case _ => UserStepInv(s, e);
  }
}
