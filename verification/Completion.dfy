/** How long a dispatch lasts and how much CPU time a process uses in all (src/os.c, src/cpu.c). */
module Completion {
  import opened Common
  import opened Queues
  import opened Scheduler
  import opened Os
  import opened Placement

  /** CPU slots a process needs: one per instruction, and one even for an empty program. */
  function Cost(p: Proc): nat {
    if p.size == 0 then 1 else p.size
  }

  /** Instructions run in order and once each: the trace is exactly 0 .. pc - 1. */
  predicate ExecOk(p: Proc, e: Exec) {
    && e.pc <= p.size
    && |e.trace| == e.pc && (forall i :: 0 <= i < e.pc ==> e.trace[i] == i)
    && (p.size > 0 ==> e.runs == e.pc)
    && e.runs <= Cost(p)
  }

  /** The account of every process: untouched before it is loaded, unfinished while it waits, and
      complete once it is no longer live. */
  predicate Books(execs: map<Proc, Exec>, loaded: set<Proc>, live: set<Proc>, waiting: multiset<Proc>) {
    && (forall p :: p in execs ==> ExecOk(p, execs[p]))
    && (forall p :: p in execs && p !in loaded ==> execs[p].runs == 0)
    && (forall p :: p in loaded && p !in live ==> p in execs && execs[p].runs == Cost(p))
    && (forall p :: p in waiting ==> p in execs && execs[p].runs < Cost(p))
  }

  /** What a CPU may assume about its own time_left, its process and the current dispatch. */
  predicate SliceOk(cpu: Cpu, execs: map<Proc, Exec>) {
    match cpu.proc
    case None => cpu.pc.AfterFinish? || cpu.timeLeft == 0
    case Some(p) =>
      p in execs &&
      if cpu.pc.Recheck? then
        && execs[p].runs < Cost(p)
        && ((cpu.timeLeft == 0 && cpu.ran == 0) || (0 < cpu.timeLeft && cpu.ran + cpu.timeLeft == TIME_SLOT))
      else
        0 <= cpu.timeLeft && 0 < cpu.ran && cpu.ran + cpu.timeLeft == TIME_SLOT && execs[p].runs > 0
  }

  predicate Slices(cpus: seq<Cpu>, execs: map<Proc, Exec>) {
    forall k :: 0 <= k < |cpus| ==> SliceOk(cpus[k], execs)
  }

  predicate Progress(c: Config, s: State)
    requires s.loaded <= |c.procs|
  {
    && Books(s.execs, AsSet(c.procs[..s.loaded]), s.live, Everyone(s.sched.ready))
    && Slices(s.cpus, s.execs)
  }

  lemma BootProgress(c: Config, numCpus: nat)
    requires c.Valid()
    ensures Placed(c, Boot(c, numCpus)) && Progress(c, Boot(c, numCpus))
  {
    BootPlaced(c, numCpus);
    EveryoneEmpty(Scheduler.Init().ready);
    assert c.procs[..0] == [];
  }

  // ------------------------------------------------------------------ the books of one step

  lemma RunOneOk(p: Proc, e: Exec)
    requires ExecOk(p, e) && e.runs < Cost(p)
    ensures ExecOk(p, RunOne(p, e)) && RunOne(p, e).runs == e.runs + 1
  {}

  /** A process at its loop head is complete exactly when its program counter is at the end. */
  lemma EndMeansPaid(p: Proc, e: Exec)
    requires ExecOk(p, e) && e.runs > 0
    ensures e.pc == p.size <==> e.runs == Cost(p)
  {}

  lemma BooksAfterRun(execs: map<Proc, Exec>, loaded: set<Proc>, live: set<Proc>, waiting: multiset<Proc>, p: Proc)
    requires Books(execs, loaded, live, waiting)
    requires p in execs && p in live && p in loaded && p !in waiting && execs[p].runs < Cost(p)
    ensures Books(execs[p := RunOne(p, execs[p])], loaded, live, waiting)
  {
    RunOneOk(p, execs[p]);
  }

  lemma FetchWaiting(s: State, k: nat, idle: CpuPc, left: int)
    requires Core(s) && k < |s.cpus|
    ensures Everyone(Fetch(s, k, idle, left).sched.ready) <= Everyone(s.sched.ready)
    ensures Get(s.sched).1.Some? ==> Get(s.sched).1.value in Everyone(s.sched.ready)
  {
    GetContract(s.sched);
    if Get(s.sched).1.Some? {
      EveryoneEmpty(s.sched.ready);
      assert |multiset(s.live)| == |s.live|;
      GetMoves(s.sched);
    }
  }

  lemma AdmitWaiting(s: State, p: Proc)
    requires Core(s) && p.prio < MAX_PRIO && PidsUnique(s.live)
    requires p in Held(s.cpus) || (|s.live| < MAX_QUEUE_SIZE && forall q :: q in s.live ==> q.pid != p.pid)
    ensures Everyone(Admit(s.sched, p).ready) == Everyone(s.sched.ready) + multiset{p}
  {
    RunningAreLive(s.sched, Held(s.cpus), s.live);
    RoomIn(s.sched, Held(s.cpus), s.live, p.prio);
    AdmitMoves(s.sched, p);
  }

  lemma FewerWaiting(execs: map<Proc, Exec>, loaded: set<Proc>, live: set<Proc>, more: multiset<Proc>,
                     fewer: multiset<Proc>)
    requires Books(execs, loaded, live, more) && fewer <= more
    ensures Books(execs, loaded, live, fewer)
  {}

  lemma CpuMoves(cpus: seq<Cpu>, cpus': seq<Cpu>, execs: map<Proc, Exec>, k: nat)
    requires Slices(cpus, execs) && k < |cpus| == |cpus'| && cpus' == cpus[k := cpus'[k]]
    requires SliceOk(cpus'[k], execs)
    ensures Slices(cpus', execs)
  {}

  lemma FetchProgress(c: Config, s: State, k: nat, idle: CpuPc)
    requires s.loaded <= |c.procs| && Core(s) && Progress(c, s)
    requires k < |s.cpus| && s.cpus[k].proc == None && Carries(idle)
    ensures Progress(c, Fetch(s, k, idle, 0))
  {
    var s' := Fetch(s, k, idle, 0);
    FetchWaiting(s, k, idle, 0);
    FewerWaiting(s.execs, AsSet(c.procs[..s.loaded]), s.live, Everyone(s.sched.ready), Everyone(s'.sched.ready));
    assert SliceOk(s'.cpus[k], s.execs);
    CpuMoves(s.cpus, s'.cpus, s.execs, k);
  }

  lemma FinishProgress(c: Config, s: State, k: nat, p: Proc)
    requires s.loaded <= |c.procs| && Core(s) && Progress(c, s)
    requires k < |s.cpus| && s.cpus[k].pc.Top? && s.cpus[k].proc == Some(p)
    requires p in s.execs && s.execs[p].pc == p.size
    ensures Progress(c, Finish(s, k, p))
  {
    assert SliceOk(s.cpus[k], s.execs);
    EndMeansPaid(p, s.execs[p]);
  }

  lemma PutBackProgress(c: Config, s: State, k: nat, p: Proc)
    requires s.loaded <= |c.procs| && Core(s) && Progress(c, s) && PidsUnique(s.live)
    requires k < |s.cpus| && s.cpus[k].pc.Top? && s.cpus[k].proc == Some(p) && p.prio < MAX_PRIO
    requires p in s.execs && s.execs[p].pc != p.size && s.cpus[k].timeLeft == 0
    ensures Progress(c, PutBack(s, k, p))
  {
    assert s.execs[p].runs < Cost(p) by {
      assert SliceOk(s.cpus[k], s.execs);
      EndMeansPaid(p, s.execs[p]);
    }
    assert Everyone(PutBack(s, k, p).sched.ready) == Everyone(s.sched.ready) + multiset{p} by {
      LettingGo(s, k, s.cpus[k].(proc := None));
      AdmitWaiting(s, p);
    }
    assert SliceOk(PutBack(s, k, p).cpus[k], s.execs);
  }

  lemma AddProgress(c: Config, s: State)
    requires Placed(c, s) && Progress(c, s) && s.loaded < |c.procs| && |s.live| < MAX_QUEUE_SIZE
    ensures Progress(c, Add(s, c.procs[s.loaded]))
  {
    LivePidsUnique(c, s);
    NewcomerIsNew(c, s);
    AdmitWaiting(s, c.procs[s.loaded]);
  }

  /** Running one instruction touches no process but the CPU's own. */
  lemma RunOnProgress(c: Config, s: State, k: nat, p: Proc)
    requires Placed(c, s) && Progress(c, s) && k < |s.cpus| && s.cpus[k].pc.Recheck? && s.cpus[k].proc == Some(p)
    ensures Progress(c, RunOn(s, k, p))
  {
    var s' := RunOn(s, k, p);
    assert SliceOk(s.cpus[k], s.execs);
    LettingGo(s, k, s.cpus[k].(proc := None));
    ExactlyOnePlace(s, p);
    BooksAfterRun(s.execs, AsSet(c.procs[..s.loaded]), s.live, Everyone(s.sched.ready), p);
    RunOneOk(p, s.execs[p]);
    forall j | 0 <= j < |s.cpus| ensures SliceOk(s'.cpus[j], s'.execs) {
      assert SliceOk(s.cpus[j], s.execs);
      if j != k { NoSharedProcess(s, k, j); }
    }
  }

  lemma TopProgress(c: Config, s: State, k: nat)
    requires Placed(c, s) && Progress(c, s) && k < |s.cpus| && s.cpus[k].pc.Top?
    ensures AfterTop(c, s, k).loaded == s.loaded && Progress(c, AfterTop(c, s, k))
  {
    LivePidsUnique(c, s);
    assert SliceOk(s.cpus[k], s.execs);
    match s.cpus[k].proc
    case None => FetchProgress(c, s, k, Leaving);
    case Some(p) =>
      if s.execs[p].pc == p.size {
        FinishProgress(c, s, k, p);
      } else if s.cpus[k].timeLeft == 0 {
        PutBackProgress(c, s, k, p);
      } else {
        assert ExecOk(p, s.execs[p]);
        EndMeansPaid(p, s.execs[p]);
      }
  }

  lemma CpuProgress(c: Config, s: State, k: nat)
    requires Placed(c, s) && Progress(c, s) && k < |s.cpus| && CpuCanStep(s, k)
    ensures AfterCpuStep(c, s, k).loaded == s.loaded && Progress(c, AfterCpuStep(c, s, k))
  {
    assert SliceOk(s.cpus[k], s.execs);
    match s.cpus[k].pc
    case AfterFinish => FetchProgress(c, s, k, Recheck);
    case AfterPut => FetchProgress(c, s, k, Recheck);
    case Top => TopProgress(c, s, k);
    case Recheck => if s.cpus[k].proc.Some? { RunOnProgress(c, s, k, s.cpus[k].proc.value); }
    case Leaving => CpuMoves(s.cpus, AfterCpuStep(c, s, k).cpus, s.execs, k);
    case Slot => CpuMoves(s.cpus, AfterCpuStep(c, s, k).cpus, s.execs, k);
  }

  lemma LoaderProgress(c: Config, s: State)
    requires Placed(c, s) && Progress(c, s) && LoaderCanStep(c, s)
    ensures AfterLoaderStep(c, s).loaded <= |c.procs| && Progress(c, AfterLoaderStep(c, s))
  {
    if Adds(c, s) { AddProgress(c, s); }
  }

  /** The accounts are kept by every step of every thread. */
  lemma NextProgress(c: Config, s: State, e: Event)
    requires Placed(c, s) && Progress(c, s) && Enabled(c, s, e)
    ensures Placed(c, Next(c, s, e)) && Progress(c, Next(c, s, e))
  {
    NextPlaced(c, s, e);
    match e
    case Tick =>
    case LoaderStep => LoaderProgress(c, s);
    case CpuStep(k) => CpuProgress(c, s, k);
  }

  lemma {:induction false} AfterProgress(c: Config, s: State, es: seq<Event>)
    requires Placed(c, s) && Progress(c, s) && Runs(c, s, es)
    ensures Progress(c, After(c, s, es))
    decreases |es|
  {
    if es != [] {
      NextProgress(c, s, es[0]);
      AfterProgress(c, Next(c, s, es[0]), es[1..]);
    }
  }

  // ------------------------------------------------------------------ what follows

  /** A dispatch runs exactly TIME_SLOT instructions before the process is put back, and at most that
      many before it finishes; a CPU with nothing in hand has no time left over. */
  lemma SliceIsExact(c: Config, s: State, k: nat)
    requires Placed(c, s) && Progress(c, s) && k < |s.cpus|
    ensures var cpu := s.cpus[k];
            && (cpu.proc == None && !cpu.pc.AfterFinish? ==> cpu.timeLeft == 0)
            && (cpu.proc.Some? && cpu.pc.Top? ==> 1 <= cpu.ran <= TIME_SLOT)
            && (cpu.proc.Some? && cpu.pc.Top? && AfterTop(c, s, k).cpus[k].pc.AfterPut? ==> cpu.ran == TIME_SLOT)
  {
    assert SliceOk(s.cpus[k], s.execs);
  }

  /** A process leaves the system only when all its instructions have run, in order, once each. */
  lemma GoneMeansComplete(c: Config, s: State, p: Proc)
    requires Placed(c, s) && Progress(c, s) && p in c.procs[..s.loaded] && p !in s.live
    ensures s.execs[p].pc == p.size && s.execs[p].trace == seq(p.size, i => i)
  {
    EndMeansPaid(p, s.execs[p]);
  }

  // ------------------------------------------------------------------ total CPU time

  /** The step occupies a CPU for a slot. */
  predicate Occupies(s: State, e: Event) {
    e.CpuStep? && e.k < |s.cpus| && s.cpus[e.k].pc.Recheck? && s.cpus[e.k].proc.Some?
  }

  function OccupiedSlots(c: Config, s: State, es: seq<Event>): nat
    requires Placed(c, s) && Runs(c, s, es)
    decreases |es|
  {
    if es == [] then 0
    else
      NextPlaced(c, s, es[0]);
      (if Occupies(s, es[0]) then 1 else 0) + OccupiedSlots(c, Next(c, s, es[0]), es[1..])
  }

  function TotalRuns(procs: seq<Proc>, execs: map<Proc, Exec>): nat
    requires forall p :: p in procs ==> p in execs
  {
    if procs == [] then 0 else execs[procs[0]].runs + TotalRuns(procs[1..], execs)
  }

  function TotalCost(procs: seq<Proc>): nat {
    if procs == [] then 0 else Cost(procs[0]) + TotalCost(procs[1..])
  }

  lemma {:induction false} TotalRunsUpdate(procs: seq<Proc>, execs: map<Proc, Exec>, p: Proc, e: Exec)
    requires forall q :: q in procs ==> q in execs
    requires forall i, j :: 0 <= i < j < |procs| ==> procs[i] != procs[j]
    requires p in execs
    ensures TotalRuns(procs, execs[p := e]) ==
            TotalRuns(procs, execs) + if p in procs then e.runs - execs[p].runs else 0
  {
    if procs != [] {
      assert procs == [procs[0]] + procs[1..];
      TotalRunsUpdate(procs[1..], execs, p, e);
      if procs[0] == p {
        assert p !in procs[1..];
      }
    }
  }

  lemma {:induction false} TotalRunsBounded(procs: seq<Proc>, execs: map<Proc, Exec>)
    requires forall p :: p in procs ==> p in execs && execs[p].runs <= Cost(p)
    ensures TotalRuns(procs, execs) <= TotalCost(procs)
  {
    if procs != [] {
      TotalRunsBounded(procs[1..], execs);
    }
  }

  lemma StepExecs(c: Config, s: State, e: Event)
    requires Shape(c, s) && Enabled(c, s, e)
    ensures Next(c, s, e).execs ==
            if Occupies(s, e) then
              var p := s.cpus[e.k].proc.value;
              s.execs[p := RunOne(p, s.execs[p])]
            else s.execs
  {}

  lemma StepRuns(c: Config, s: State, e: Event)
    requires Placed(c, s) && Progress(c, s) && Enabled(c, s, e) && Next(c, s, e).execs.Keys == s.execs.Keys
    ensures TotalRuns(c.procs, Next(c, s, e).execs) ==
            TotalRuns(c.procs, s.execs) + if Occupies(s, e) then 1 else 0
  {
    StepExecs(c, s, e);
    if Occupies(s, e) {
      var p := s.cpus[e.k].proc.value;
      assert SliceOk(s.cpus[e.k], s.execs);
      RunOneOk(p, s.execs[p]);
      TotalRunsUpdate(c.procs, s.execs, p, RunOne(p, s.execs[p]));
    }
  }

  lemma {:induction false} OccupiedIsTotal(c: Config, s: State, es: seq<Event>)
    requires Placed(c, s) && Progress(c, s) && Runs(c, s, es)
    ensures TotalRuns(c.procs, After(c, s, es).execs) == TotalRuns(c.procs, s.execs) + OccupiedSlots(c, s, es)
    decreases |es|
  {
    if es != [] {
      NextProgress(c, s, es[0]);
      StepRuns(c, s, es[0]);
      OccupiedIsTotal(c, Next(c, s, es[0]), es[1..]);
    }
  }

  lemma {:induction false} NothingRunYet(procs: seq<Proc>, execs: map<Proc, Exec>)
    requires forall p :: p in procs ==> p in execs && execs[p].runs == 0
    ensures TotalRuns(procs, execs) == 0
  {
    if procs != [] {
      NothingRunYet(procs[1..], execs);
    }
  }

  /** Over any run, however the threads interleave and however many CPUs there are, the CPU slots
      occupied never exceed what the programs need in all. */
  lemma OccupancyBound(c: Config, numCpus: nat, es: seq<Event>)
    requires c.Valid()
    requires Placed(c, Boot(c, numCpus)) && Runs(c, Boot(c, numCpus), es)
    ensures OccupiedSlots(c, Boot(c, numCpus), es) <= TotalCost(c.procs)
  {
    var s := Boot(c, numCpus);
    BootProgress(c, numCpus);
    OccupiedIsTotal(c, s, es);
    AfterProgress(c, s, es);
    NothingRunYet(c.procs, s.execs);
    TotalRunsBounded(c.procs, After(c, s, es).execs);
  }
}
