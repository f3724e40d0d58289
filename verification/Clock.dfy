/** The CPU and loader threads against the clock (src/os.c over src/timer.c): when each process is
    added, and why no process is left behind when the CPUs stop. Both rest on the barrier. */
module Clock {
  import opened Common
  import opened Queues
  import opened Scheduler
  import opened Os
  import opened Placement
  import opened Completion
  import Barrier

  // ------------------------------------------------------------------ threads and their devices

  /** A thread waits at the barrier exactly while it is inside next_slot, and leaves it for good when
      it ends; `done` is set by the loader after the last process, and no CPU stops before that. */
  predicate Synced(c: Config, s: State)
    requires |s.barrier.devs| == |s.cpus| + 1
  {
    && (forall k :: 0 <= k < |s.cpus| ==>
          && (s.barrier.devs[k].Arrived? ==> s.cpus[k].pc.Slot?)
          && (s.barrier.devs[k].Detached? <==> s.cpus[k].pc.Stopped?)
          && (s.cpus[k].pc.Stopped? ==> s.done))
    && (s.barrier.devs[LoaderDev(s)].Arrived? ==> s.ldPc.LdSlot?)
    && (s.barrier.devs[LoaderDev(s)].Detached? <==> s.ldPc.LdGone?)
    && (s.done <==> s.ldPc.LdDone? || s.ldPc.LdGone?)
    && (s.done ==> s.loaded == |c.procs|)
  }

  /** What a CPU step leaves alone. */
  lemma CpuFrame(c: Config, s: State, k: nat)
    requires Shape(c, s) && k < |s.cpus| && CpuCanStep(s, k)
    ensures var s' := AfterCpuStep(c, s, k);
            && s'.ldPc == s.ldPc && s'.loaded == s.loaded && s'.addedAt == s.addedAt && s'.done == s.done
            && |s'.cpus| == |s.cpus| && s'.cpus == s.cpus[k := s'.cpus[k]]
            && s'.barrier.time == s.barrier.time && |s'.barrier.devs| == |s.barrier.devs|
            && s'.barrier.devs == s.barrier.devs[k := s'.barrier.devs[k]]
  {}

  /** A CPU's device follows its program counter. */
  lemma CpuDevice(c: Config, s: State, k: nat)
    requires Shape(c, s) && k < |s.cpus| && CpuCanStep(s, k)
    ensures var s' := AfterCpuStep(c, s, k);
            |s'.cpus| == |s.cpus| && |s'.barrier.devs| == |s.barrier.devs| &&
            match s.cpus[k].pc
            case Leaving => s'.cpus[k].pc.Slot? && s'.barrier.devs[k].Arrived?
            case Recheck =>
              if s'.cpus[k].pc.Stopped? then s'.barrier.devs[k].Detached? && s.done
              else s'.barrier.devs == s.barrier.devs
            case _ => s'.barrier.devs == s.barrier.devs && !s'.cpus[k].pc.Stopped?
  {}

  lemma CpuSynced(c: Config, s: State, k: nat)
    requires Shape(c, s) && Synced(c, s) && k < |s.cpus| && CpuCanStep(s, k)
    ensures var s' := AfterCpuStep(c, s, k); |s'.barrier.devs| == |s'.cpus| + 1 && Synced(c, s')
  {
    CpuFrame(c, s, k);
    CpuDevice(c, s, k);
  }

  lemma LoaderSynced(c: Config, s: State)
    requires Shape(c, s) && Synced(c, s) && LoaderCanStep(c, s)
    ensures var s' := AfterLoaderStep(c, s); |s'.barrier.devs| == |s'.cpus| + 1 && Synced(c, s')
  {}

  lemma NextSynced(c: Config, s: State, e: Event)
    requires Shape(c, s) && Synced(c, s) && Enabled(c, s, e)
    ensures var s' := Next(c, s, e); |s'.barrier.devs| == |s'.cpus| + 1 && Synced(c, s')
  {
    match e
    case Tick =>
    case LoaderStep => LoaderSynced(c, s);
    case CpuStep(k) => CpuSynced(c, s, k);
  }

  /** The threads use the barrier only through its own events: every step is one of them or invisible. */
  lemma FollowsBarrier(c: Config, s: State, e: Event)
    requires Shape(c, s) && Synced(c, s) && Enabled(c, s, e)
    ensures Next(c, s, e).barrier == s.barrier || Barrier.IsStep(s.barrier, Next(c, s, e).barrier)
  {
    match e
    case Tick => assert Barrier.Enabled(s.barrier, Barrier.Tick);
    case LoaderStep =>
      var d := LoaderDev(s);
      if s.ldPc.LdLeaving? { assert Barrier.Enabled(s.barrier, Barrier.Arrive(d)); }
      if s.ldPc.LdDone? { assert Barrier.Enabled(s.barrier, Barrier.Detach(d)); }
    case CpuStep(k) =>
      if s.cpus[k].pc.Leaving? { assert Barrier.Enabled(s.barrier, Barrier.Arrive(k)); }
      if s.cpus[k].pc.Recheck? { assert Barrier.Enabled(s.barrier, Barrier.Detach(k)); }
  }

  // ------------------------------------------------------------------ release times

  /** The slot in which process i is added: its start time, or the slot after its predecessor's. */
  function ReleaseTime(start: seq<nat>, i: nat): nat
    requires i < |start|
  {
    if i == 0 then start[0]
    else
      var next := ReleaseTime(start, i - 1) + 1;
      if start[i] <= next then next else start[i]
  }

  /** Closed form: the maximum over j <= i of start[j] + i - j. */
  lemma {:induction false} ReleaseTimeIsMaximum(start: seq<nat>, i: nat) returns (j: nat)
    requires i < |start|
    ensures j <= i && ReleaseTime(start, i) == start[j] + i - j
    ensures forall m :: 0 <= m <= i ==> start[m] + i - m <= ReleaseTime(start, i)
  {
    j := i;
    if i > 0 {
      var j' := ReleaseTimeIsMaximum(start, i - 1);
      if start[i] <= ReleaseTime(start, i - 1) + 1 { j := j'; }
      forall m | 0 <= m <= i ensures start[m] + i - m <= ReleaseTime(start, i) {
        if m < i { assert start[m] + (i - 1) - m <= ReleaseTime(start, i - 1); }
      }
    }
  }

  /** The earliest slot the next addition can fall in. */
  function NextFree(s: State): nat
    requires |s.addedAt| == s.loaded
  {
    if s.loaded == 0 then 0 else s.addedAt[s.loaded - 1] + 1
  }

  /** The slot the loader is going to be in when it next looks at the clock. */
  function LoaderSlot(s: State): nat
    requires |s.barrier.devs| == |s.cpus| + 1
  {
    if s.ldPc.LdLeaving? || s.barrier.devs[LoaderDev(s)].Arrived? then s.barrier.time + 1 else s.barrier.time
  }

  predicate OnTime(start: seq<nat>, s: State)
    requires |s.addedAt| == s.loaded <= |start| && |s.barrier.devs| == |s.cpus| + 1
  {
    && (forall i :: 0 <= i < s.loaded ==> s.addedAt[i] == ReleaseTime(start, i))
    && NextFree(s) <= LoaderSlot(s)
    && (s.loaded < |start| ==> LoaderSlot(s) <= ReleaseTime(start, s.loaded))
  }

  lemma AddOnTime(start: seq<nat>, s: State, p: Proc)
    requires s.sched.Valid() && p.prio < MAX_PRIO
    requires |s.addedAt| == s.loaded < |start| && |s.barrier.devs| == |s.cpus| + 1
    requires OnTime(start, s) && s.ldPc.LdTop? && s.barrier.time >= start[s.loaded]
    requires !s.barrier.devs[LoaderDev(s)].Arrived?
    ensures OnTime(start, Add(s, p))
  {
    assert s.barrier.time == ReleaseTime(start, s.loaded);
  }

  lemma TickOnTime(start: seq<nat>, s: State)
    requires |s.addedAt| == s.loaded <= |start| && |s.barrier.devs| == |s.cpus| + 1
    requires OnTime(start, s) && Barrier.Enabled(s.barrier, Barrier.Tick)
    requires s.barrier.devs[LoaderDev(s)].Arrived? ==> s.ldPc.LdSlot?
    requires s.barrier.devs[LoaderDev(s)].Detached? ==> s.ldPc.LdGone? && s.loaded == |start|
    ensures OnTime(start, s.(barrier := Barrier.Next(s.barrier, Barrier.Tick)))
  {
    assert s.barrier.devs[LoaderDev(s)] != Barrier.Working;
  }

  lemma CpuOnTime(c: Config, s: State, k: nat)
    requires Shape(c, s) && OnTime(c.start, s) && k < |s.cpus| && CpuCanStep(s, k)
    ensures Shape(c, AfterCpuStep(c, s, k)) ==> OnTime(c.start, AfterCpuStep(c, s, k))
  {
    CpuFrame(c, s, k);
    StillOnTime(c.start, s, AfterCpuStep(c, s, k));
  }

  /** Unless it adds, the loader stays in its slot or lets one pass because it is early. */
  lemma LoaderWaits(c: Config, s: State)
    requires Shape(c, s) && Synced(c, s) && LoaderCanStep(c, s) && !Adds(c, s)
    ensures var s' := AfterLoaderStep(c, s);
            && s'.loaded == s.loaded && s'.addedAt == s.addedAt && |s'.barrier.devs| == |s'.cpus| + 1
            && (LoaderSlot(s') == LoaderSlot(s) ||
                (LoaderSlot(s') == LoaderSlot(s) + 1 && s.loaded < |c.procs| && LoaderSlot(s') <= c.start[s.loaded]))
  {}

  lemma LoaderOnTime(c: Config, s: State)
    requires Shape(c, s) && Synced(c, s) && OnTime(c.start, s) && LoaderCanStep(c, s)
    ensures Shape(c, AfterLoaderStep(c, s)) ==> OnTime(c.start, AfterLoaderStep(c, s))
  {
    if Adds(c, s) {
      AddOnTime(c.start, s, c.procs[s.loaded]);
    } else {
      LoaderWaits(c, s);
      StillOnTime(c.start, s, AfterLoaderStep(c, s));
    }
  }

  lemma StillOnTime(start: seq<nat>, s: State, s': State)
    requires |s.addedAt| == s.loaded <= |start| && |s.barrier.devs| == |s.cpus| + 1 && OnTime(start, s)
    requires s'.loaded == s.loaded && s'.addedAt == s.addedAt && |s'.barrier.devs| == |s'.cpus| + 1
    requires LoaderSlot(s') == LoaderSlot(s) ||
             (LoaderSlot(s') == LoaderSlot(s) + 1 && s.loaded < |start| && LoaderSlot(s') <= start[s.loaded])
    ensures OnTime(start, s')
  {}

  lemma NextOnTime(c: Config, s: State, e: Event)
    requires Shape(c, s) && Synced(c, s) && OnTime(c.start, s) && Enabled(c, s, e) && Shape(c, Next(c, s, e))
    ensures OnTime(c.start, Next(c, s, e))
  {
    match e
    case Tick => TickOnTime(c.start, s);
    case CpuStep(k) => CpuOnTime(c, s, k);
    case LoaderStep => LoaderOnTime(c, s);
  }

  // ------------------------------------------------------------------ nobody is left behind

  /** The CPU will still call get_proc in this slot, or it has a process in hand. */
  predicate Busy(s: State, k: nat)
    requires |s.barrier.devs| == |s.cpus| + 1 && k < |s.cpus|
  {
    match s.cpus[k].pc
    case Stopped => false
    case Recheck => s.cpus[k].proc.Some?
    case Leaving => s.cpus[k].proc.Some?
    case Slot => s.cpus[k].proc.Some? || s.barrier.devs[k].Working?
    case _ => true
  }

  predicate SomeBusy(s: State)
    requires |s.barrier.devs| == |s.cpus| + 1
  {
    exists k :: 0 <= k < |s.cpus| && Busy(s, k)
  }

  /** The loader may have added a process in the current slot. */
  predicate JustAdded(s: State)
    requires |s.barrier.devs| == |s.cpus| + 1
  {
    s.ldPc.LdLeaving? || s.barrier.devs[LoaderDev(s)].Arrived?
  }

  /** While somebody waits in a ready queue, a CPU is still going to look in this slot or has something in
      hand, unless the newcomer arrived in this very slot. */
  predicate Attended(s: State)
    requires |s.barrier.devs| == |s.cpus| + 1
  {
    Everyone(s.sched.ready) != multiset{} ==> JustAdded(s) || SomeBusy(s)
  }

  lemma NoneMeansEmpty(s: Sched)
    requires s.Valid()
    ensures Get(s).1 == None <==> Everyone(s.ready) == multiset{}
    ensures Get(s).1 == None ==> Get(s).0.ready == s.ready
  {
    GetContract(s);
    EveryoneEmpty(s.ready);
  }

  lemma IdleFetch(s: State, k: nat, idle: CpuPc, left: int)
    requires s.sched.Valid() && k < |s.cpus|
    ensures Fetch(s, k, idle, left).cpus[k].proc == None ==>
              Everyone(Fetch(s, k, idle, left).sched.ready) == multiset{}
  {
    NoneMeansEmpty(s.sched);
  }

  /** A CPU runs out of work only by finding every ready queue empty. */
  lemma TurnsIdle(c: Config, s: State, k: nat)
    requires Shape(c, s) && k < |s.cpus| && CpuCanStep(s, k)
    ensures var s' := AfterCpuStep(c, s, k);
            |s'.barrier.devs| == |s'.cpus| + 1 && |s'.cpus| == |s.cpus| &&
            (Busy(s', k) || Everyone(s'.sched.ready) == multiset{} || (!Busy(s, k) && s'.sched == s.sched))
  {
    CpuFrame(c, s, k);
    var cpu := s.cpus[k];
    match cpu.pc
    case Top => if cpu.proc == None { IdleFetch(s, k, Leaving, cpu.timeLeft); }
    case AfterFinish => IdleFetch(s, k, Recheck, 0);
    case AfterPut => IdleFetch(s, k, Recheck, cpu.timeLeft);
    case Recheck =>
    case Leaving =>
    case Slot =>
  }

  /** Whether a CPU is busy is its own affair. */
  lemma OthersStayBusy(c: Config, s: State, k: nat, j: nat)
    requires Shape(c, s) && k < |s.cpus| && CpuCanStep(s, k) && j < |s.cpus| && j != k
    ensures var s' := AfterCpuStep(c, s, k);
            |s'.barrier.devs| == |s'.cpus| + 1 && |s'.cpus| == |s.cpus| && (Busy(s', j) <==> Busy(s, j))
  {
    CpuFrame(c, s, k);
  }

  lemma CpuAttended(c: Config, s: State, k: nat)
    requires Shape(c, s) && Synced(c, s) && Attended(s) && k < |s.cpus| && CpuCanStep(s, k)
    ensures |AfterCpuStep(c, s, k).barrier.devs| == |AfterCpuStep(c, s, k).cpus| + 1
    ensures Attended(AfterCpuStep(c, s, k))
  {
    var s' := AfterCpuStep(c, s, k);
    CpuFrame(c, s, k);
    TurnsIdle(c, s, k);
    if Busy(s', k) {
      assert SomeBusy(s');
    } else if Everyone(s'.sched.ready) != multiset{} && SomeBusy(s) {
      var j :| 0 <= j < |s.cpus| && Busy(s, j);
      OthersStayBusy(c, s, k, j);
      assert Busy(s', j);
    }
  }

  lemma LoaderStaysAttended(c: Config, s: State)
    requires Shape(c, s) && Synced(c, s) && LoaderCanStep(c, s)
    ensures var s' := AfterLoaderStep(c, s);
            && |s'.barrier.devs| == |s'.cpus| + 1 && s'.cpus == s.cpus
            && (JustAdded(s) ==> JustAdded(s')) && (s'.sched == s.sched || JustAdded(s'))
            && forall k :: 0 <= k < |s.cpus| ==> s'.barrier.devs[k] == s.barrier.devs[k]
  {}

  lemma LoaderAttended(c: Config, s: State)
    requires Shape(c, s) && Synced(c, s) && Attended(s) && LoaderCanStep(c, s)
    ensures var s' := AfterLoaderStep(c, s); |s'.barrier.devs| == |s'.cpus| + 1 && Attended(s')
  {
    var s' := AfterLoaderStep(c, s);
    LoaderStaysAttended(c, s);
    if !JustAdded(s') && Everyone(s'.sched.ready) != multiset{} {
      var k :| 0 <= k < |s.cpus| && Busy(s, k);
      assert Busy(s', k);
    }
  }

  /** A CPU that is not stopped when the slot ends is busy when the next one begins. */
  lemma TickMakesBusy(c: Config, s: State, k: nat)
    requires Shape(c, s) && Synced(c, s) && Enabled(c, s, Tick) && k < |s.cpus| && !s.cpus[k].pc.Stopped?
    ensures s.cpus[k].pc.Slot? && s.barrier.devs[k].Arrived? && Busy(Next(c, s, Tick), k)
  {
    assert s.barrier.devs[k] != Barrier.Working;
  }

  lemma TickAttended(c: Config, s: State)
    requires Shape(c, s) && Synced(c, s) && Attended(s) && |s.cpus| > 0 && Enabled(c, s, Tick)
    ensures Attended(Next(c, s, Tick))
  {
    if Everyone(s.sched.ready) != multiset{} {
      var k := 0;
      if !JustAdded(s) { k :| 0 <= k < |s.cpus| && Busy(s, k); }
      assert !s.cpus[k].pc.Stopped?;
      TickMakesBusy(c, s, k);
    }
  }

  lemma NextAttended(c: Config, s: State, e: Event)
    requires Shape(c, s) && Synced(c, s) && Attended(s) && |s.cpus| > 0 && Enabled(c, s, e)
    ensures var s' := Next(c, s, e); |s'.barrier.devs| == |s'.cpus| + 1 && |s'.cpus| == |s.cpus| && Attended(s')
  {
    match e
    case CpuStep(k) => CpuAttended(c, s, k); CpuFrame(c, s, k);
    case Tick => TickAttended(c, s);
    case LoaderStep => LoaderAttended(c, s);
  }

  predicate Clocked(c: Config, s: State)
    requires Shape(c, s)
  {
    Synced(c, s) && OnTime(c.start, s) && Attended(s)
  }

  lemma BootClocked(c: Config, numCpus: nat)
    requires c.Valid()
    ensures Shape(c, Boot(c, numCpus)) && Clocked(c, Boot(c, numCpus))
  {
    BootPlaced(c, numCpus);
    EveryoneEmpty(Scheduler.Init().ready);
  }

  lemma NextClocked(c: Config, s: State, e: Event)
    requires Placed(c, s) && Clocked(c, s) && |s.cpus| > 0 && Enabled(c, s, e)
    ensures Placed(c, Next(c, s, e)) && Clocked(c, Next(c, s, e)) && |Next(c, s, e).cpus| == |s.cpus|
  {
    NextPlaced(c, s, e);
    NextSynced(c, s, e);
    NextOnTime(c, s, e);
    NextAttended(c, s, e);
  }

  lemma {:induction false} AfterClocked(c: Config, s: State, es: seq<Event>)
    requires Placed(c, s) && Clocked(c, s) && |s.cpus| > 0 && Runs(c, s, es)
    ensures Clocked(c, After(c, s, es)) && |After(c, s, es).cpus| == |s.cpus|
    decreases |es|
  {
    if es != [] {
      NextClocked(c, s, es[0]);
      AfterClocked(c, Next(c, s, es[0]), es[1..]);
    }
  }

  /** Over any run every process is added in exactly its release slot: never before its start time, and
      never two in one slot. */
  lemma AddedOnTime(c: Config, numCpus: nat, es: seq<Event>, i: nat)
    requires c.Valid() && numCpus > 0
    requires Placed(c, Boot(c, numCpus)) && Runs(c, Boot(c, numCpus), es)
    requires i < After(c, Boot(c, numCpus), es).loaded
    ensures var s := After(c, Boot(c, numCpus), es);
            && s.addedAt[i] == ReleaseTime(c.start, i) && s.addedAt[i] >= c.start[i]
            && (i > 0 ==> s.addedAt[i - 1] < s.addedAt[i])
  {
    BootClocked(c, numCpus);
    AfterClocked(c, Boot(c, numCpus), es);
  }

  lemma NobodyHeld(cpus: seq<Cpu>)
    requires forall k :: 0 <= k < |cpus| ==> cpus[k].proc == None
    ensures Held(cpus) == multiset{}
  {
    EveryoneEmpty(HeldSeqs(cpus));
  }

  predicate AllStopped(cpus: seq<Cpu>) {
    forall k :: 0 <= k < |cpus| ==> cpus[k].pc.Stopped?
  }

  lemma StoppedMeansEmpty(c: Config, s: State)
    requires Shape(c, s) && Core(s) && Synced(c, s) && Attended(s) && |s.cpus| > 0 && AllStopped(s.cpus)
    ensures s.loaded == |c.procs| && s.live == {}
  {
    assert s.cpus[0].pc.Stopped?;
    NobodyHeld(s.cpus);
    assert !SomeBusy(s);
    assert |multiset(s.live)| == |s.live| == 0;
  }

  /** When every CPU has stopped, every process of the configuration was loaded and has run to its end.
      A CPU that finds the queues empty and `done` set may stop safely only because the barrier keeps
      the loader's last addition and its `done` in different slots. */
  lemma StoppedMeansAllComplete(c: Config, numCpus: nat, es: seq<Event>)
    requires c.Valid() && numCpus > 0
    requires Placed(c, Boot(c, numCpus)) && Runs(c, Boot(c, numCpus), es)
    requires AllStopped(After(c, Boot(c, numCpus), es).cpus)
    ensures var s := After(c, Boot(c, numCpus), es);
            && s.loaded == |c.procs| && s.live == {}
            && forall p :: p in c.procs ==> s.execs[p].pc == p.size && s.execs[p].trace == seq(p.size, i => i)
  {
    var s := After(c, Boot(c, numCpus), es);
    BootClocked(c, numCpus);
    AfterClocked(c, Boot(c, numCpus), es);
    BootProgress(c, numCpus);
    AfterProgress(c, Boot(c, numCpus), es);
    StoppedMeansEmpty(c, s);
    AllComplete(c, s);
  }

  lemma AllComplete(c: Config, s: State)
    requires Placed(c, s) && Progress(c, s) && s.loaded == |c.procs| && s.live == {}
    ensures forall p :: p in c.procs ==> s.execs[p].pc == p.size && s.execs[p].trace == seq(p.size, i => i)
  {
    assert c.procs[..s.loaded] == c.procs;
    forall p | p in c.procs ensures s.execs[p].pc == p.size && s.execs[p].trace == seq(p.size, i => i) {
      GoneMeansComplete(c, s, p);
    }
  }
}
