/** Which CPUs stop once all work is over (the two ways out of the loop of cpu_routine in src/os.c). */
module Shutdown {
  import opened Common
  import opened Queues
  import opened Scheduler
  import opened Os
  import opened Placement
  import opened Clock
  import Barrier

  // ------------------------------------------------------------------ the idle loop

  /** The CPU is in the loop that calls get_proc and, getting nothing, goes straight to next_slot. */
  predicate Idling(cpu: Cpu) {
    cpu.proc == None && (cpu.pc.Top? || cpu.pc.Leaving? || cpu.pc.Slot?)
  }

  lemma NobodyLiveNobodyHeld(s: State, k: nat)
    requires Core(s) && s.live == {} && k < |s.cpus|
    ensures s.cpus[k].proc == None && Get(s.sched).1 == None
  {
    NoneMeansEmpty(s.sched);
    assert |multiset(s.live)| == |s.live| == 0;
    assert |Everyone(s.sched.ready)| <= |Everyone(s.sched.ready) + multiset(s.sched.running)|;
    if s.cpus[k].proc.Some? {
      LettingGo(s, k, s.cpus[k].(proc := None));
    }
  }

  lemma IdleCpuStep(c: Config, s: State, e: Event, k: nat)
    requires Placed(c, s) && Enabled(c, s, e) && k < |s.cpus|
    requires s.live == {} && s.loaded == |c.procs| && Idling(s.cpus[k])
    ensures var s' := Next(c, s, e);
            s'.live == {} && s'.loaded == |c.procs| && |s'.cpus| == |s.cpus| && Idling(s'.cpus[k])
  {
    match e
    case Tick =>
    case LoaderStep =>
    case CpuStep(j) =>
      CpuFrame(c, s, j);
      NobodyLiveNobodyHeld(s, j);
  }

  /** The idle loop never looks at `done`: once all work is over, a CPU that is in it stays in it
      through every later run, so it never stops. */
  lemma {:induction false} IdleCpuNeverStops(c: Config, s: State, es: seq<Event>, k: nat)
    requires Placed(c, s) && Runs(c, s, es) && k < |s.cpus|
    requires s.live == {} && s.loaded == |c.procs| && Idling(s.cpus[k])
    ensures k < |After(c, s, es).cpus| && Idling(After(c, s, es).cpus[k])
    decreases |es|
  {
    if es != [] {
      NextPlaced(c, s, es[0]);
      IdleCpuStep(c, s, es[0], k);
      IdleCpuNeverStops(c, Next(c, s, es[0]), es[1..], k);
    }
  }

  lemma OneMore(c: Config, s: State, e: Event, es: seq<Event>)
    requires Placed(c, s) && Enabled(c, s, e) && Placed(c, Next(c, s, e)) && Runs(c, Next(c, s, e), es)
    ensures Runs(c, s, [e] + es) && After(c, s, [e] + es) == After(c, Next(c, s, e), es)
  {
    assert ([e] + es)[1..] == es;
  }

  function StepsToStop(cpu: Cpu): nat {
    if cpu.pc.Stopped? then 0 else if cpu.pc.Recheck? then 1 else 2
  }

  lemma StopStep(c: Config, s: State, k: nat)
    requires Shape(c, s) && k < |s.cpus| && s.cpus[k].proc == None && Get(s.sched).1 == None
    requires s.done && !Idling(s.cpus[k]) && !s.cpus[k].pc.Stopped?
    ensures CpuCanStep(s, k)
    ensures var s' := AfterCpuStep(c, s, k);
            && |s'.cpus| == |s.cpus| && !Idling(s'.cpus[k]) && StepsToStop(s'.cpus[k]) < StepsToStop(s.cpus[k])
            && s'.live == s.live && s'.done && forall j :: 0 <= j < |s.cpus| && j != k ==> s'.cpus[j] == s.cpus[j]
  {}

  /** With nothing left to fetch, a CPU outside the idle loop reaches its test of `done` and stops. */
  lemma StopRun(c: Config, s: State, k: nat) returns (es: seq<Event>)
    requires Placed(c, s) && k < |s.cpus| && s.live == {} && s.done && !Idling(s.cpus[k])
    ensures Runs(c, s, es)
    ensures var t := After(c, s, es);
            && |t.cpus| == |s.cpus| && t.cpus[k].pc.Stopped? && t.live == {} && t.done
            && forall j :: 0 <= j < |s.cpus| && j != k ==> t.cpus[j] == s.cpus[j]
    decreases StepsToStop(s.cpus[k])
  {
    if s.cpus[k].pc.Stopped? {
      es := [];
    } else {
      NobodyLiveNobodyHeld(s, k);
      StopStep(c, s, k);
      NextPlaced(c, s, CpuStep(k));
      es := StopRun(c, Next(c, s, CpuStep(k)), k);
      OneMore(c, s, CpuStep(k), es);
      es := [CpuStep(k)] + es;
    }
  }

  lemma NeverStops(c: Config, s: State, k: nat)
    requires Placed(c, s) && k < |s.cpus| && s.live == {} && s.loaded == |c.procs| && Idling(s.cpus[k])
    ensures forall fs :: Runs(c, s, fs) ==> |After(c, s, fs).cpus| > k && !After(c, s, fs).cpus[k].pc.Stopped?
  {
    forall fs | Runs(c, s, fs) ensures |After(c, s, fs).cpus| > k && !After(c, s, fs).cpus[k].pc.Stopped? {
      IdleCpuNeverStops(c, s, fs, k);
    }
  }

  /** Exactly which CPUs can still stop once every process has been loaded and has finished: those that are
      not in the idle loop. */
  lemma StopsUnlessIdling(c: Config, s: State, k: nat)
    requires Placed(c, s) && k < |s.cpus| && s.live == {} && s.loaded == |c.procs| && s.done
    ensures !Idling(s.cpus[k]) <==>
              exists es :: Runs(c, s, es) && k < |After(c, s, es).cpus| && After(c, s, es).cpus[k].pc.Stopped?
  {
    if Idling(s.cpus[k]) {
      NeverStops(c, s, k);
    } else {
      var es := StopRun(c, s, k);
    }
  }

  lemma Regroup(es: seq<Event>, fs: seq<Event>)
    requires es != []
    ensures [es[0]] + (es[1..] + fs) == es + fs
  {}

  lemma FirstStep(c: Config, s: State, es: seq<Event>)
    requires Placed(c, s) && Runs(c, s, es) && es != []
    ensures Enabled(c, s, es[0]) && Placed(c, Next(c, s, es[0])) && Runs(c, Next(c, s, es[0]), es[1..])
    ensures After(c, s, es) == After(c, Next(c, s, es[0]), es[1..])
  {
    NextPlaced(c, s, es[0]);
  }

  lemma {:induction false} Concat(c: Config, s: State, es: seq<Event>, fs: seq<Event>)
    requires Placed(c, s) && Runs(c, s, es) && Runs(c, After(c, s, es), fs)
    ensures Runs(c, s, es + fs) && After(c, s, es + fs) == After(c, After(c, s, es), fs)
    decreases |es|
  {
    if es == [] {
      assert es + fs == fs;
    } else {
      FirstStep(c, s, es);
      Concat(c, Next(c, s, es[0]), es[1..], fs);
      OneMore(c, s, es[0], es[1..] + fs);
      Regroup(es, fs);
    }
  }

  lemma {:induction false} StopFirst(c: Config, s: State, n: nat) returns (es: seq<Event>)
    requires Placed(c, s) && n <= |s.cpus| && s.live == {} && s.done
    requires forall k :: 0 <= k < |s.cpus| ==> !Idling(s.cpus[k])
    ensures Runs(c, s, es)
    ensures var t := After(c, s, es);
            && |t.cpus| == |s.cpus| && t.live == {} && t.done
            && (forall k :: 0 <= k < n ==> t.cpus[k].pc.Stopped?)
            && forall k :: n <= k < |s.cpus| ==> t.cpus[k] == s.cpus[k]
    decreases n
  {
    if n == 0 {
      es := [];
    } else {
      es := StopFirst(c, s, n - 1);
      var fs := StopRun(c, After(c, s, es), n - 1);
      Concat(c, s, es, fs);
      es := es + fs;
    }
  }

  /** Exactly when all CPUs can still stop: when none of them is in the idle loop. */
  lemma AllStopUnlessIdling(c: Config, s: State)
    requires Placed(c, s) && s.live == {} && s.loaded == |c.procs| && s.done
    ensures (forall k :: 0 <= k < |s.cpus| ==> !Idling(s.cpus[k])) <==>
              exists es :: Runs(c, s, es) && |After(c, s, es).cpus| == |s.cpus| && AllStopped(After(c, s, es).cpus)
  {
    if k :| 0 <= k < |s.cpus| && Idling(s.cpus[k]) {
      NeverStops(c, s, k);
    } else {
      var es := StopFirst(c, s, |s.cpus|);
    }
  }

  // ------------------------------------------------------------------ a run that ends in the idle loop

  /** One program of one instruction, to be loaded in slot 0. */
  function Program(): Proc {
    Proc(0, 0, 1)
  }

  function OneProgram(): Config {
    Config([Program()], [0])
  }

  /** What a state of `OneProgram` on one CPU looks like. */
  predicate Looks(s: State, cpu: CpuPc, slot: Barrier.Dev, ld: LoaderPc, ldSlot: Barrier.Dev, held: bool, ran: nat) {
    && |s.cpus| == 1 && s.cpus[0].pc == cpu && s.cpus[0].proc == (if held then Some(Program()) else None)
    && s.barrier.devs == [slot, ldSlot] && s.ldPc == ld && s.loaded == 1 && s.done == ld.LdDone?
    && s.live == (if held then {Program()} else {})
    && Program() in s.execs && s.execs[Program()].pc == ran
  }

  /** What a run of `OneProgram` on one CPU has come to. */
  predicate Stage(
    es: seq<Event>, cpu: CpuPc, slot: Barrier.Dev, ld: LoaderPc, ldSlot: Barrier.Dev, held: bool, ran: nat)
  {
    var c := OneProgram();
    && Placed(c, Boot(c, 1)) && Runs(c, Boot(c, 1), es)
    && Looks(After(c, Boot(c, 1), es), cpu, slot, ld, ldSlot, held, ran)
  }

  lemma CpuStepLooks(c: Config, s: State, cpu: CpuPc, slot: Barrier.Dev, ld: LoaderPc, ldSlot: Barrier.Dev, held: bool)
    requires Shape(c, s) && (cpu.Leaving? || (cpu.Slot? && slot.Working?))
    requires Looks(s, cpu, slot, ld, ldSlot, held, 1)
    ensures var s' := AfterCpuStep(c, s, 0);
            if cpu.Leaving? then Looks(s', Slot, Barrier.Arrived, ld, ldSlot, held, 1)
            else Looks(s', Top, slot, ld, ldSlot, held, 1)
  {}

  lemma RunOfOne(c: Config, s: State, e: Event)
    requires Placed(c, s) && Enabled(c, s, e)
    ensures Runs(c, s, [e]) && After(c, s, [e]) == Next(c, s, e)
  {
    NextPlaced(c, s, e);
    OneMore(c, s, e, []);
  }

  lemma {:induction false} Extend(c: Config, s: State, es: seq<Event>, e: Event)
    requires Placed(c, s) && Runs(c, s, es) && Enabled(c, After(c, s, es), e)
    ensures Runs(c, s, es + [e]) && After(c, s, es + [e]) == Next(c, After(c, s, es), e)
    decreases |es|
  {
    if es == [] {
      RunOfOne(c, s, e);
      assert es + [e] == [e];
    } else {
      FirstStep(c, s, es);
      Extend(c, Next(c, s, es[0]), es[1..], e);
      OneMore(c, s, es[0], es[1..] + [e]);
      Regroup(es, [e]);
    }
  }

  lemma AfterAdd()
    ensures var c := OneProgram(); Placed(c, Boot(c, 1)) && Runs(c, Boot(c, 1), [LoaderStep])
    ensures After(OneProgram(), Boot(OneProgram(), 1), [LoaderStep]) == Add(Boot(OneProgram(), 1), Program())
  {
    var c := OneProgram();
    var s := Boot(c, 1);
    BootPlaced(c, 1);
    NextPlaced(c, s, LoaderStep);
    OneMore(c, s, LoaderStep, []);
  }

  /** The process is loaded and the CPU fetches it. */
  lemma Loaded() returns (es: seq<Event>)
    ensures Stage(es, Recheck, Barrier.Working, LdLeaving, Barrier.Working, true, 0)
  {
    var c := OneProgram();
    var s := Add(Boot(c, 1), Program());
    AfterAdd();
    GetsProgram(s);
    es := [LoaderStep] + [CpuStep(0)];
    Extend(c, Boot(c, 1), [LoaderStep], CpuStep(0));
  }

  lemma GetsProgram(s: State)
    requires Core(s) && s.live == {Program()} && s.sched.ready[0] == [Program()]
    ensures Get(s.sched).1 == Some(Program())
  {
    GetContract(s.sched);
    assert s.sched.ready[0] != [];
    BalancedFetch(s.sched, Held(s.cpus), s.live);
  }

  lemma CpuRuns(es: seq<Event>)
    requires Stage(es, Recheck, Barrier.Working, LdLeaving, Barrier.Working, true, 0)
    ensures Stage(es + [CpuStep(0)], Leaving, Barrier.Working, LdLeaving, Barrier.Working, true, 1)
  {
    Extend(OneProgram(), Boot(OneProgram(), 1), es, CpuStep(0));
  }

  lemma CpuArrives(es: seq<Event>)
    requires Stage(es, Leaving, Barrier.Working, LdLeaving, Barrier.Working, true, 1)
    ensures Stage(es + [CpuStep(0)], Slot, Barrier.Arrived, LdLeaving, Barrier.Working, true, 1)
  {
    var s := After(OneProgram(), Boot(OneProgram(), 1), es);
    CpuStepLooks(OneProgram(), s, Leaving, Barrier.Working, LdLeaving, Barrier.Working, true);
    Extend(OneProgram(), Boot(OneProgram(), 1), es, CpuStep(0));
  }

  lemma LoaderArrives(es: seq<Event>)
    requires Stage(es, Slot, Barrier.Arrived, LdLeaving, Barrier.Working, true, 1)
    ensures Stage(es + [LoaderStep], Slot, Barrier.Arrived, LdSlot, Barrier.Arrived, true, 1)
  {
    Extend(OneProgram(), Boot(OneProgram(), 1), es, LoaderStep);
  }

  lemma SlotEnds(es: seq<Event>)
    requires Stage(es, Slot, Barrier.Arrived, LdSlot, Barrier.Arrived, true, 1)
    ensures Stage(es + [Tick], Slot, Barrier.Working, LdSlot, Barrier.Working, true, 1)
  {
    Extend(OneProgram(), Boot(OneProgram(), 1), es, Tick);
  }

  lemma CpuWakes(es: seq<Event>)
    requires Stage(es, Slot, Barrier.Working, LdSlot, Barrier.Working, true, 1)
    ensures Stage(es + [CpuStep(0)], Top, Barrier.Working, LdSlot, Barrier.Working, true, 1)
  {
    var s := After(OneProgram(), Boot(OneProgram(), 1), es);
    CpuStepLooks(OneProgram(), s, Slot, Barrier.Working, LdSlot, Barrier.Working, true);
    Extend(OneProgram(), Boot(OneProgram(), 1), es, CpuStep(0));
  }

  lemma CpuFinishes(es: seq<Event>)
    requires Stage(es, Top, Barrier.Working, LdSlot, Barrier.Working, true, 1)
    ensures Stage(es + [CpuStep(0)], AfterFinish, Barrier.Working, LdSlot, Barrier.Working, false, 1)
  {
    Extend(OneProgram(), Boot(OneProgram(), 1), es, CpuStep(0));
  }

  lemma CpuFindsNothing(es: seq<Event>)
    requires Stage(es, AfterFinish, Barrier.Working, LdSlot, Barrier.Working, false, 1)
    ensures Stage(es + [CpuStep(0)], Recheck, Barrier.Working, LdSlot, Barrier.Working, false, 1)
  {
    NobodyLiveNobodyHeld(After(OneProgram(), Boot(OneProgram(), 1), es), 0);
    Extend(OneProgram(), Boot(OneProgram(), 1), es, CpuStep(0));
  }

  lemma CpuSkips(es: seq<Event>)
    requires Stage(es, Recheck, Barrier.Working, LdSlot, Barrier.Working, false, 1)
    ensures Stage(es + [CpuStep(0)], Leaving, Barrier.Working, LdSlot, Barrier.Working, false, 1)
  {
    Extend(OneProgram(), Boot(OneProgram(), 1), es, CpuStep(0));
  }

  lemma LoaderWakes(es: seq<Event>)
    requires Stage(es, Leaving, Barrier.Working, LdSlot, Barrier.Working, false, 1)
    ensures Stage(es + [LoaderStep], Leaving, Barrier.Working, LdTop, Barrier.Working, false, 1)
  {
    Extend(OneProgram(), Boot(OneProgram(), 1), es, LoaderStep);
  }

  lemma LoaderEnds(es: seq<Event>)
    requires Stage(es, Leaving, Barrier.Working, LdTop, Barrier.Working, false, 1)
    ensures Stage(es + [LoaderStep], Leaving, Barrier.Working, LdDone, Barrier.Working, false, 1)
  {
    Extend(OneProgram(), Boot(OneProgram(), 1), es, LoaderStep);
  }

  /** A CPU that looks at `done` one step too early ends up in the idle loop: on this run it finishes the only
      process and finds nothing to do before the loader reports that it is done. No run from there stops it. */
  lemma IdleLoopReached() returns (es: seq<Event>)
    ensures var c := OneProgram();
            && Placed(c, Boot(c, 1)) && Runs(c, Boot(c, 1), es)
            && var s := After(c, Boot(c, 1), es);
               && |s.cpus| == 1 && s.done && s.loaded == |c.procs| && s.live == {} && Idling(s.cpus[0])
               && forall fs :: Runs(c, s, fs) ==>
                    |After(c, s, fs).cpus| > 0 && !After(c, s, fs).cpus[0].pc.Stopped?
  {
    es := Loaded();
    CpuRuns(es);
    es := es + [CpuStep(0)];
    CpuArrives(es);
    es := es + [CpuStep(0)];
    LoaderArrives(es);
    es := es + [LoaderStep];
    SlotEnds(es);
    es := es + [Tick];
    CpuWakes(es);
    es := es + [CpuStep(0)];
    CpuFinishes(es);
    es := es + [CpuStep(0)];
    CpuFindsNothing(es);
    es := es + [CpuStep(0)];
    CpuSkips(es);
    es := es + [CpuStep(0)];
    LoaderWakes(es);
    es := es + [LoaderStep];
    LoaderEnds(es);
    es := es + [LoaderStep];
    NeverStops(OneProgram(), After(OneProgram(), Boot(OneProgram(), 1), es), 0);
  }

  /** With nothing to load at all, no CPU ever stops: each enters the idle loop at once. */
  lemma NoWorkNeverStops(numCpus: nat, es: seq<Event>, k: nat)
    requires k < numCpus
    ensures var c := Config([], []);
            && Placed(c, Boot(c, numCpus))
            && (Runs(c, Boot(c, numCpus), es) ==>
                  k < |After(c, Boot(c, numCpus), es).cpus| && !After(c, Boot(c, numCpus), es).cpus[k].pc.Stopped?)
  {
    var c := Config([], []);
    BootPlaced(c, numCpus);
    NeverStops(c, Boot(c, numCpus), k);
  }
}
