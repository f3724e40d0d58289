/** Progress of the timer protocol: no state is stuck, and the threads cannot spin. */
module TimerProgress {
  import opened Timer
  import opened TimerSafety

  /** No thread has a protocol step left; only a device's own decision can move the system. */
  predicate Quiet(s: State)
    requires Inv(s)
  {
    !TmCanStep(s) && forall k :: 0 <= k < |s.devs| ==> !DevCanStep(s, k)
  }

  /** The system comes to rest only where it should: either everybody has detached and the timer has
      left, or the timer sleeps on a device that is still working, every device that arrived did so in
      this very slot, and nobody is left over from an earlier one. */
  lemma QuietMeansWaitingForWork(s: State)
    requires Inv(s) && Quiet(s)
    ensures (s.pc.Exited? && AllGone(s.devs, |s.devs|)) || (s.pc.WSleep? && s.devs[s.pc.j].pc.Working?)
    ensures forall k :: 0 <= k < |s.devs| ==>
              || s.devs[k].pc.Gone?
              || (s.devs[k].slots == s.time && (s.devs[k].pc.Working? || (s.devs[k].pc.NsSleep? && s.devs[k].done)))
  {
    forall k | 0 <= k < |s.devs|
      ensures s.devs[k].pc.Gone? || s.devs[k].pc.Working? || (s.devs[k].pc.NsSleep? && s.devs[k].done)
      ensures s.devs[k].pc.Gone? || s.devs[k].slots == s.time || Unreleased(s.pc, k)
    {
      assert !DevCanStep(s, k);
      assert DevOk(s.devs[k], s.pc, s.time, k);
    }
    if s.pc.WSleep? {
      assert DevOk(s.devs[s.pc.j], s.pc, s.time, s.pc.j);
    }
  }

  /** Deadlock freedom: unless the timer has left, some thread can move as soon as no device is
      spending its slot on its own work. */
  lemma NoDeadlock(s: State)
    requires Inv(s) && !s.pc.Exited?
    requires forall k :: 0 <= k < |s.devs| ==> !s.devs[k].pc.Working?
    ensures TmCanStep(s) || exists k :: 0 <= k < |s.devs| && DevCanStep(s, k)
  {
    if Quiet(s) {
      QuietMeansWaitingForWork(s);
    }
  }

  // ------------------------------------------------------------------ amortised work

  /** One round of the timer over n devices takes fewer steps than this. */
  function Round(n: nat): nat {
    13 * n + 4
  }

  /** The device's current slot still has to be paid for by a round of the timer. */
  predicate OwesRound(d: Dev) {
    d.done || d.pc.NsLockEv? || d.pc.NsSet?
  }

  function StepsLeft(d: Dev): nat {
    match d.pc
    case Working => 0
    case NsLockEv => 12
    case NsSet => 11
    case NsSignal => 10
    case NsUnlockEv => 9
    case NsLockTm => if d.done then 8 else 4
    case NsTest => if d.done then 6 else 3
    case NsSleep => 5
    case NsWake => if d.done then 7 else 4
    case NsUnlockTm => 2
    case DtLockEv => 5
    case DtSet => 4
    case DtSignal => 3
    case DtUnlock => 2
    case Gone => 0
  }

  function DevWork(d: Dev, n: nat): nat {
    StepsLeft(d) + if OwesRound(d) then Round(n) else 0
  }

  function DevsWork(devs: seq<Dev>, n: nat): nat {
    if devs == [] then 0 else DevWork(devs[0], n) + DevsWork(devs[1..], n)
  }

  function TimerWork(s: State): nat
    requires InRange(s)
  {
    var n := |s.devs|;
    var rest := 4 * n + 2;
    match s.pc
    case Head => 9 * n + rest + 1
    case WLock(j) => 9 * (n - j) + rest
    case WTest(j) => 9 * (n - j) + rest - (if s.devs[j].done || s.devs[j].fsh then 6 else 3)
    case WSleep(j) => 9 * (n - j) + rest - 4
    case WWake(j) => 9 * (n - j) + rest - (if s.devs[j].done || s.devs[j].fsh then 5 else 2)
    case WCount(j) => 9 * (n - j) + rest - 7
    case WUnlock(j) => 9 * (n - j) + rest - 8
    case Tick => rest
    case RLock(j) => 4 * (n - j) + 1
    case RClear(j) => 4 * (n - j)
    case RSignal(j) => 4 * (n - j) - 1
    case RUnlock(j) => 4 * (n - j) - 2
    case Check => 1
    case Exited => 0
  }

  /** Everything the protocol can still do before some device decides to call or leave again. */
  function Work(s: State): nat
    requires InRange(s)
  {
    DevsWork(s.devs, |s.devs|) + TimerWork(s) + if Releasing(s.pc) && s.cleared then Round(|s.devs|) else 0
  }

  lemma {:induction false} DevsWorkUpdate(devs: seq<Dev>, k: nat, d: Dev, n: nat)
    requires k < |devs|
    ensures DevsWork(devs[k := d], n) == DevsWork(devs, n) - DevWork(devs[k], n) + DevWork(d, n)
  {
    if k == 0 {
      assert devs[0 := d][1..] == devs[1..];
    } else {
      assert devs[k := d][1..] == devs[1..][k - 1 := d];
      DevsWorkUpdate(devs[1..], k - 1, d, n);
    }
  }

  /** The moving device pays for its own step. */
  lemma DevWorkDrops(d: Dev, pc: TimerPc, time: nat, k: nat, n: nat)
    requires DevOk(d, pc, time, k)
    requires !d.pc.Working? && !d.pc.Gone? && !d.pc.NsSleep?
    ensures DevWork(DevAfter(d), n) < DevWork(d, n)
  {}

  /** It never makes the timer's part longer: raising a flag the timer waits for only shortens it. */
  lemma TimerWorkKept(s: State, k: nat)
    requires InRange(s) && k < |s.devs| && DevCanStep(s, k) && DevOk(s.devs[k], s.pc, s.time, k)
    ensures InRange(AfterDevStep(s, k)) && TimerWork(AfterDevStep(s, k)) <= TimerWork(s)
  {}

  lemma DevStepWorks(s: State, k: nat)
    requires Inv(s) && k < |s.devs| && DevCanStep(s, k)
    ensures InRange(AfterDevStep(s, k)) && Work(AfterDevStep(s, k)) < Work(s)
  {
    assert DevOk(s.devs[k], s.pc, s.time, k);
    TimerWorkKept(s, k);
    DevWorkDrops(s.devs[k], s.pc, s.time, k, |s.devs|);
    DevsWorkUpdate(s.devs, k, DevAfter(s.devs[k]), |s.devs|);
  }

  /** Letting device j go: the round its flag owed pays for the round the timer is about to start. */
  lemma ReleaseWorks(s: State, j: nat)
    requires InRange(s) && (s.pc == RClear(j) || s.pc == RSignal(j)) && DevOk(s.devs[j], s.pc, s.time, j)
    ensures InRange(AfterTmStep(s)) && Work(AfterTmStep(s)) < Work(s)
  {
    var d' := AfterTmStep(s).devs[j];
    DevsWorkUpdate(s.devs, j, d', |s.devs|);
    assert s.devs[j := s.devs[j]] == s.devs;
  }

  lemma WaitStepWorks(s: State)
    requires InRange(s) && TmCanStep(s) && !Releasing(s.pc) && (s.cleared ==> s.pc.Head?)
    ensures InRange(AfterTmStep(s)) && Work(AfterTmStep(s)) < Work(s)
  {}

  lemma ReleaseStepWorks(s: State)
    requires InRange(s) && TmCanStep(s) && Releasing(s.pc) && !s.pc.RClear? && !s.pc.RSignal?
    requires s.pc.Check? ==> s.fsh == s.event || s.cleared
    ensures InRange(AfterTmStep(s)) && Work(AfterTmStep(s)) < Work(s)
  {}

  lemma TmStepWorks(s: State)
    requires Inv(s) && TmCanStep(s)
    ensures InRange(AfterTmStep(s)) && Work(AfterTmStep(s)) < Work(s)
  {
    if s.pc.RClear? || s.pc.RSignal? {
      assert DevOk(s.devs[s.pc.j], s.pc, s.time, s.pc.j);
      ReleaseWorks(s, s.pc.j);
    } else {
      if Releasing(s.pc) {
        ExitIsExact(s);
        ReleaseStepWorks(s);
      } else {
        WaitStepWorks(s);
      }
    }
  }

  predicate Requests(e: Event) {
    e.Call? || e.Leave?
  }

  predicate Spurious(e: Event) {
    e.WakeDev? || e.WakeTm?
  }

  /** What one event may add to the outstanding work. */
  function Allowance(e: Event, n: nat): int {
    if Requests(e) then Round(n) + 12
    else if Spurious(e) then 2
    else if e.Stop? then 0
    else -1
  }

  lemma OwnDecisionWorks(s: State, e: Event)
    requires InRange(s) && Enabled(s, e) && (e.Call? || e.Leave? || e.WakeDev?)
    requires DevOk(s.devs[e.k], s.pc, s.time, e.k)
    ensures InRange(Next(s, e)) && Work(Next(s, e)) <= Work(s) + Allowance(e, |s.devs|)
  {
    var k, n := e.k, |s.devs|;
    var d := s.devs[k];
    var d' := Next(s, e).devs[k];
    assert d'.done == d.done && d'.fsh == d.fsh;
    assert TimerWork(Next(s, e)) == TimerWork(s);
    assert DevWork(d', n) <= DevWork(d, n) + Allowance(e, n);
    DevsWorkUpdate(s.devs, k, d', n);
  }

  lemma EventWorks(s: State, e: Event)
    requires Inv(s) && Enabled(s, e)
    ensures InRange(Next(s, e)) && Work(Next(s, e)) <= Work(s) + Allowance(e, |s.devs|)
  {
    match e
    case DevStep(k) => DevStepWorks(s, k);
    case TmStep => TmStepWorks(s);
    case Stop =>
    case WakeTm =>
    case _ =>
      assert DevOk(s.devs[e.k], s.pc, s.time, e.k);
      OwnDecisionWorks(s, e);
  }

  function Count(es: seq<Event>, f: Event -> bool): nat {
    if es == [] then 0 else (if f(es[0]) then 1 else 0) + Count(es[1..], f)
  }

  predicate Protocol(e: Event) {
    e.DevStep? || e.TmStep?
  }

  function Ledger(es: seq<Event>, n: nat): int {
    if es == [] then 0 else Allowance(es[0], n) + Ledger(es[1..], n)
  }

  lemma {:induction false} LedgerCounts(es: seq<Event>, n: nat)
    ensures Ledger(es, n) == (Round(n) + 12) * Count(es, Requests) + 2 * Count(es, Spurious) - Count(es, Protocol)
  {
    if es != [] {
      LedgerCounts(es[1..], n);
      MulSucc(Round(n) + 12, Count(es[1..], Requests));
    }
  }

  lemma MulSucc(c: int, r: int)
    ensures c * (r + 1) == c * r + c
  {}

  lemma {:induction false} WorkFollowsLedger(s: State, es: seq<Event>)
    requires Inv(s) && Runs(s, es)
    ensures Work(After(s, es)) <= Work(s) + Ledger(es, |s.devs|)
    decreases |es|
  {
    if es != [] {
      NextInv(s, es[0]);
      EventWorks(s, es[0]);
      WorkFollowsLedger(Next(s, es[0]), es[1..]);
    }
  }

  /** The threads cannot spin: in any run the number of protocol steps is bounded by the devices' own
      calls, one bounded amount of work for each, plus two per spurious wake-up. */
  lemma WorkIsBounded(s: State, es: seq<Event>)
    requires Inv(s) && Runs(s, es)
    ensures Count(es, Protocol)
              <= Work(s) + (Round(|s.devs|) + 12) * Count(es, Requests) + 2 * Count(es, Spurious)
  {
    WorkFollowsLedger(s, es);
    LedgerCounts(es, |s.devs|);
  }
}
