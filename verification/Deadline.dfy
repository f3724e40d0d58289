/** How long a whole configuration takes: from the last arrival on, no slot is wasted while work is left. */
module Deadline {
  import opened Common
  import opened Queues
  import opened Scheduler
  import opened Os
  import opened Placement
  import opened Completion
  import opened Clock
  import Barrier

  /** The CPU has run an instruction in the current slot. */
  predicate Ran(s: State, k: nat)
    requires |s.barrier.devs| == |s.cpus| + 1 && k < |s.cpus|
  {
    s.cpus[k].proc.Some? && (s.cpus[k].pc.Leaving? || (s.cpus[k].pc.Slot? && s.barrier.devs[k].Arrived?))
  }

  predicate SomeRan(s: State)
    requires |s.barrier.devs| == |s.cpus| + 1
  {
    exists k :: 0 <= k < |s.cpus| && Ran(s, k)
  }

  /** The slot in which the last process is added. */
  function LastRelease(c: Config): nat
    requires c.Valid()
  {
    if c.procs == [] then 0 else ReleaseTime(c.start, |c.procs| - 1)
  }

  lemma {:induction false} ReleaseMonotone(start: seq<nat>, i: nat, j: nat)
    requires i <= j < |start|
    ensures ReleaseTime(start, i) + j - i <= ReleaseTime(start, j)
    decreases j
  {
    if i < j { ReleaseMonotone(start, i, j - 1); }
  }

  /** Each slot so far, after the last arrival and while work is left, is paid for by an instruction run. */
  predicate Paid(c: Config, s: State)
    requires Shape(c, s)
  {
    && (JustAdded(s) && s.loaded == |c.procs| > 0 ==> s.barrier.time == s.addedAt[s.loaded - 1])
    && (s.loaded == |c.procs| && s.live != {} ==>
          s.barrier.time + (if SomeRan(s) then 1 else 0) <= LastRelease(c) + 1 + TotalRuns(c.procs, s.execs))
  }

  // ------------------------------------------------------------------ no slot is wasted

  /** While a process is live, somebody is busy or the process has just arrived. */
  lemma LiveMeansBusy(c: Config, s: State)
    requires Placed(c, s) && Attended(s) && s.live != {}
    ensures JustAdded(s) || SomeBusy(s)
  {
    assert |multiset(s.live)| == |s.live|;
    if k :| 0 <= k < |s.cpus| && s.cpus[k].proc.Some? {
      assert Busy(s, k);
    } else {
      NobodyHeld(s.cpus);
    }
  }

  /** A CPU that is busy when the slot ends has run an instruction in it. */
  lemma BusyAtTickRan(c: Config, s: State, k: nat)
    requires Shape(c, s) && Synced(c, s) && Enabled(c, s, Tick) && k < |s.cpus| && Busy(s, k)
    ensures Ran(s, k)
  {
    TickMakesBusy(c, s, k);
  }

  lemma TickClears(c: Config, s: State)
    requires Shape(c, s) && Synced(c, s) && Enabled(c, s, Tick)
    ensures var s' := Next(c, s, Tick); Shape(c, s') && !SomeRan(s') && (JustAdded(s') ==> s.ldPc.LdLeaving?)
  {
    var s' := Next(c, s, Tick);
    forall k | 0 <= k < |s.cpus| ensures !Ran(s', k) {
      assert s.barrier.devs[k] != Barrier.Working;
    }
    assert s.barrier.devs[LoaderDev(s)] != Barrier.Working;
  }

  /** A slot that ends with work left has been used, unless the work arrived in it. */
  lemma SlotUsed(c: Config, s: State)
    requires Placed(c, s) && Synced(c, s) && Attended(s) && s.live != {} && Enabled(c, s, Tick)
    ensures SomeRan(s) || JustAdded(s)
  {
    LiveMeansBusy(c, s);
    if k :| 0 <= k < |s.cpus| && Busy(s, k) {
      BusyAtTickRan(c, s, k);
    }
  }

  /** When the slot ends the loader has arrived or is gone. */
  lemma LoaderInSlot(c: Config, s: State)
    requires Shape(c, s) && Synced(c, s) && Enabled(c, s, Tick)
    ensures !s.ldPc.LdLeaving?
  {
    assert s.barrier.devs[LoaderDev(s)] != Barrier.Working;
  }

  lemma TickPaid(c: Config, s: State)
    requires Placed(c, s) && Clocked(c, s) && Paid(c, s) && Enabled(c, s, Tick)
    ensures Shape(c, Next(c, s, Tick)) && Paid(c, Next(c, s, Tick))
  {
    TickClears(c, s);
    LoaderInSlot(c, s);
    if s.loaded == |c.procs| && s.live != {} && !SomeRan(s) {
      SlotUsed(c, s);
      assert s.barrier.time == s.addedAt[s.loaded - 1] == LastRelease(c);
    }
  }

  // ------------------------------------------------------------------ the other steps

  /** Within a slot only running an instruction makes a CPU count as having run. */
  lemma RanByRunning(c: Config, s: State, k: nat, j: nat)
    requires Shape(c, s) && k < |s.cpus| && CpuCanStep(s, k) && j < |s.cpus|
    ensures var s' := AfterCpuStep(c, s, k);
            && |s'.cpus| == |s.cpus| && |s'.barrier.devs| == |s.barrier.devs|
            && (Ran(s', j) ==> Ran(s, j) || Occupies(s, CpuStep(k)))
  {
    CpuFrame(c, s, k);
  }

  lemma CpuLive(c: Config, s: State, k: nat)
    requires Shape(c, s) && k < |s.cpus| && CpuCanStep(s, k)
    ensures AfterCpuStep(c, s, k).live <= s.live
  {}

  lemma SomeRanByRunning(c: Config, s: State, k: nat)
    requires Shape(c, s) && k < |s.cpus| && CpuCanStep(s, k)
    ensures var s' := AfterCpuStep(c, s, k);
            |s'.barrier.devs| == |s'.cpus| + 1 && (SomeRan(s') ==> SomeRan(s) || Occupies(s, CpuStep(k)))
  {
    var s' := AfterCpuStep(c, s, k);
    CpuFrame(c, s, k);
    if SomeRan(s') {
      var j :| 0 <= j < |s.cpus| && Ran(s', j);
      RanByRunning(c, s, k, j);
    }
  }

  lemma CpuPaid(c: Config, s: State, k: nat)
    requires Placed(c, s) && Progress(c, s) && Paid(c, s) && k < |s.cpus| && CpuCanStep(s, k)
    requires Shape(c, AfterCpuStep(c, s, k))
    ensures Paid(c, AfterCpuStep(c, s, k))
  {
    CpuFrame(c, s, k);
    CpuLive(c, s, k);
    SomeRanByRunning(c, s, k);
    StepRuns(c, s, CpuStep(k));
    StillPaid(c, s, AfterCpuStep(c, s, k), if Occupies(s, CpuStep(k)) then 1 else 0);
  }

  /** A step within the slot that adds nobody, and runs an instruction whenever it makes a CPU count as having
      run. */
  lemma StillPaid(c: Config, s: State, s': State, run: nat)
    requires Shape(c, s) && Shape(c, s') && Paid(c, s) && run <= 1
    requires s'.loaded == s.loaded && s'.addedAt == s.addedAt && s'.live <= s.live
    requires s'.barrier.time == s.barrier.time && (JustAdded(s') && s.loaded == |c.procs| ==> JustAdded(s))
    requires SomeRan(s') ==> SomeRan(s) || run == 1
    requires TotalRuns(c.procs, s'.execs) == TotalRuns(c.procs, s.execs) + run
    ensures Paid(c, s')
  {}

  /** The loader's steps run nothing, and only an addition makes a process live. */
  lemma LoaderFrame(c: Config, s: State)
    requires Shape(c, s) && Synced(c, s) && LoaderCanStep(c, s)
    ensures var s' := AfterLoaderStep(c, s);
            && s'.cpus == s.cpus && |s'.barrier.devs| == |s.barrier.devs| && s'.barrier.time == s.barrier.time
            && (forall k :: 0 <= k < |s.cpus| ==> s'.barrier.devs[k] == s.barrier.devs[k])
            && s'.execs == s.execs
            && (!Adds(c, s) ==> s'.loaded == s.loaded && s'.addedAt == s.addedAt && s'.live == s.live)
            && (!Adds(c, s) && JustAdded(s') && s.loaded == |c.procs| ==> JustAdded(s))
  {}

  lemma AddPaid(c: Config, s: State)
    requires Placed(c, s) && Clocked(c, s) && LoaderCanStep(c, s) && Adds(c, s)
    requires Shape(c, AfterLoaderStep(c, s))
    ensures Paid(c, AfterLoaderStep(c, s))
  {
    LoaderOnTime(c, s);
  }

  lemma LoaderPaid(c: Config, s: State)
    requires Placed(c, s) && Clocked(c, s) && Paid(c, s) && LoaderCanStep(c, s)
    requires Shape(c, AfterLoaderStep(c, s))
    ensures Paid(c, AfterLoaderStep(c, s))
  {
    if Adds(c, s) {
      AddPaid(c, s);
    } else {
      LoaderFrame(c, s);
      var s' := AfterLoaderStep(c, s);
      assert forall k :: 0 <= k < |s.cpus| ==> (Ran(s', k) <==> Ran(s, k));
      StillPaid(c, s, s', 0);
    }
  }

  lemma NextPaid(c: Config, s: State, e: Event)
    requires Placed(c, s) && Clocked(c, s) && Progress(c, s) && Paid(c, s) && |s.cpus| > 0 && Enabled(c, s, e)
    ensures Placed(c, Next(c, s, e)) && Clocked(c, Next(c, s, e)) && Progress(c, Next(c, s, e))
    ensures Paid(c, Next(c, s, e)) && |Next(c, s, e).cpus| == |s.cpus|
  {
    NextClocked(c, s, e);
    NextProgress(c, s, e);
    match e
    case Tick => TickPaid(c, s);
    case CpuStep(k) => CpuPaid(c, s, k);
    case LoaderStep => LoaderPaid(c, s);
  }

  lemma {:induction false} AfterPaid(c: Config, s: State, es: seq<Event>)
    requires Placed(c, s) && Clocked(c, s) && Progress(c, s) && Paid(c, s) && |s.cpus| > 0 && Runs(c, s, es)
    ensures var r := After(c, s, es); Clocked(c, r) && Progress(c, r) && Paid(c, r)
    decreases |es|
  {
    if es != [] {
      NextPaid(c, s, es[0]);
      AfterPaid(c, Next(c, s, es[0]), es[1..]);
    }
  }

  // ------------------------------------------------------------------ the deadline

  lemma AllLoaded(c: Config, s: State)
    requires Placed(c, s) && Clocked(c, s) && s.barrier.time > LastRelease(c)
    ensures s.loaded == |c.procs|
  {
    if s.loaded < |c.procs| {
      ReleaseMonotone(c.start, s.loaded, |c.procs| - 1);
    }
  }

  lemma NobodyLive(c: Config, s: State)
    requires Placed(c, s) && Progress(c, s) && Paid(c, s) && s.loaded == |c.procs|
    requires s.barrier.time > LastRelease(c) + 1 + TotalCost(c.procs)
    ensures s.live == {}
  {
    forall p | p in c.procs ensures p in s.execs && s.execs[p].runs <= Cost(p) {
      assert ExecOk(p, s.execs[p]);
    }
    TotalRunsBounded(c.procs, s.execs);
  }

  /** End to end: one slot after the last arrival plus the time the programs need in all, every process of the
      configuration has run to its end, however many CPUs there are and however the threads interleave. */
  lemma CompleteByDeadline(c: Config, numCpus: nat, es: seq<Event>)
    requires c.Valid() && numCpus > 0
    requires Placed(c, Boot(c, numCpus)) && Runs(c, Boot(c, numCpus), es)
    requires After(c, Boot(c, numCpus), es).barrier.time > LastRelease(c) + 1 + TotalCost(c.procs)
    ensures var s := After(c, Boot(c, numCpus), es);
            && s.loaded == |c.procs| && s.live == {}
            && forall p :: p in c.procs ==> s.execs[p].pc == p.size && s.execs[p].trace == seq(p.size, i => i)
  {
    var s0, s := Boot(c, numCpus), After(c, Boot(c, numCpus), es);
    BootClocked(c, numCpus);
    BootProgress(c, numCpus);
    AfterPaid(c, s0, es);
    AllLoaded(c, s);
    NobodyLive(c, s);
    AllComplete(c, s);
  }
}
