/** The CPU and loader threads (src/os.c) running over the scheduler and the barrier. One step is one
    scheduler call, one barrier call or one purely local test, so every interleaving of the threads
    at those points is a run of this machine. */
module Os {
  import opened Common
  import opened Queues
  import opened Scheduler
  import Barrier

  /** Instructions a dispatched process may run before it is put back. */
  const TIME_SLOT: Positive

  /** The processes in load order, and the earliest slot each may be added in. */
  datatype Config = Config(procs: seq<Proc>, start: seq<nat>)
  {
    predicate Valid() {
      && |start| == |procs|
      && (forall i :: 0 <= i < |procs| ==> procs[i].prio < MAX_PRIO)
      && (forall i, j :: 0 <= i < j < |procs| ==> procs[i].pid != procs[j].pid)
    }
  }

  /** Top: the loop head. AfterFinish and AfterPut: the old process is gone, get_proc comes next.
      Recheck: the second test of `proc`. Leaving: about to call next_slot. Slot: inside it. */
  datatype CpuPc = Top | AfterFinish | AfterPut | Recheck | Leaving | Slot | Stopped

  /** `ran` is a history variable: instructions run since the current dispatch. */
  datatype Cpu = Cpu(pc: CpuPc, proc: Option<Proc>, timeLeft: int, ran: nat)

  datatype LoaderPc = LdTop | LdLeaving | LdSlot | LdDone | LdGone

  /** What has happened to a process: its program counter, and as history the calls of run() made for
      it and the instructions those calls executed. */
  datatype Exec = Exec(pc: nat, runs: nat, trace: seq<nat>)

  /** `live` and `addedAt` are history variables: the processes added and not yet finished, and the
      slot in which each process was added. */
  datatype State = State(
    sched: Sched, cpus: seq<Cpu>, ldPc: LoaderPc, loaded: nat, done: bool, barrier: Barrier.State,
    execs: map<Proc, Exec>, live: set<Proc>, addedAt: seq<nat>)

  datatype Event = CpuStep(k: nat) | LoaderStep | Tick

  function Boot(c: Config, numCpus: nat): State {
    State(Scheduler.Init(), seq(numCpus, _ => Cpu(Top, None, 0, 0)), LdTop, 0, false,
          Barrier.State(0, seq(numCpus + 1, _ => Barrier.Working)),
          map p | p in c.procs :: Exec(0, 0, []), {}, [])
  }

  function AsSet(q: seq<Proc>): set<Proc> {
    set p | p in q
  }

  /** The loader is the last device attached. */
  function LoaderDev(s: State): nat {
    |s.cpus|
  }

  predicate Shape(c: Config, s: State) {
    && c.Valid() && s.sched.Valid()
    && |s.barrier.devs| == |s.cpus| + 1
    && s.loaded <= |c.procs| && |s.addedAt| == s.loaded
    && s.live <= AsSet(c.procs[..s.loaded])
    && s.execs.Keys == AsSet(c.procs)
    && forall k :: 0 <= k < |s.cpus| && s.cpus[k].proc.Some? ==> s.cpus[k].proc.value in c.procs
  }

  // ------------------------------------------------------------------ cpu_routine

  predicate CpuCanStep(s: State, k: nat)
    requires k < |s.cpus| && |s.barrier.devs| == |s.cpus| + 1
  {
    !s.cpus[k].pc.Stopped? && (s.cpus[k].pc.Slot? ==> s.barrier.devs[k].Working?)
  }

  function SetCpu(s: State, k: nat, cpu: Cpu): State
    requires k < |s.cpus|
  {
    s.(cpus := s.cpus[k := cpu])
  }

  /** get_proc: `idle` is the place the CPU goes on from when it gets nothing, `left` its time_left. */
  function Fetch(s: State, k: nat, idle: CpuPc, left: int): State
    requires k < |s.cpus| && s.sched.Valid()
  {
    var (sched, p) := Get(s.sched);
    SetCpu(s.(sched := sched), k, Cpu(if p.Some? then Recheck else idle, p, left, 0))
  }

  /** run(): one instruction, unless the program counter is already at the end. */
  function RunOne(p: Proc, e: Exec): Exec {
    if e.pc >= p.size then e.(runs := e.runs + 1)
    else Exec(e.pc + 1, e.runs + 1, e.trace + [e.pc])
  }

  /** The process has run out of instructions: it leaves the running list and is freed. */
  function Finish(s: State, k: nat, p: Proc): State
    requires k < |s.cpus|
  {
    SetCpu(s.(sched := s.sched.(running := WithoutPid(s.sched.running, p.pid)), live := s.live - {p}), k,
           s.cpus[k].(pc := AfterFinish, proc := None))
  }

  /** The time slot is used up: put_proc. */
  function PutBack(s: State, k: nat, p: Proc): State
    requires k < |s.cpus| && s.sched.Valid() && p.prio < MAX_PRIO
  {
    SetCpu(s.(sched := Admit(s.sched, p)), k, s.cpus[k].(pc := AfterPut, proc := None))
  }

  function AfterTop(c: Config, s: State, k: nat): State
    requires Shape(c, s) && k < |s.cpus|
  {
    var cpu := s.cpus[k];
    match cpu.proc
    case None => Fetch(s, k, Leaving, cpu.timeLeft)
    case Some(p) =>
      if s.execs[p].pc == p.size then Finish(s, k, p)
      else if cpu.timeLeft == 0 then PutBack(s, k, p)
      else SetCpu(s, k, cpu.(pc := Recheck))
  }

  /** A newly dispatched process gets a whole time slot; then one instruction runs. */
  function RunOn(s: State, k: nat, p: Proc): State
    requires k < |s.cpus| && p in s.execs
  {
    var cpu := s.cpus[k];
    var left := if cpu.timeLeft == 0 then TIME_SLOT else cpu.timeLeft;
    SetCpu(s.(execs := s.execs[p := RunOne(p, s.execs[p])]), k, Cpu(Leaving, cpu.proc, left - 1, cpu.ran + 1))
  }

  function SetDev(s: State, k: nat, d: Barrier.Dev): State
    requires k < |s.barrier.devs|
  {
    s.(barrier := s.barrier.(devs := s.barrier.devs[k := d]))
  }

  function AfterRecheck(c: Config, s: State, k: nat): State
    requires Shape(c, s) && k < |s.cpus|
  {
    var cpu := s.cpus[k];
    match cpu.proc
    case None =>
      if s.done then SetCpu(SetDev(s, k, Barrier.Detached), k, cpu.(pc := Stopped))
      else SetCpu(s, k, cpu.(pc := Leaving))
    case Some(p) => RunOn(s, k, p)
  }

  function AfterCpuStep(c: Config, s: State, k: nat): State
    requires Shape(c, s) && k < |s.cpus| && CpuCanStep(s, k)
  {
    match s.cpus[k].pc
    case Top => AfterTop(c, s, k)
    case AfterFinish => Fetch(s, k, Recheck, 0)
    case AfterPut => Fetch(s, k, Recheck, s.cpus[k].timeLeft)
    case Recheck => AfterRecheck(c, s, k)
    case Leaving => SetCpu(SetDev(s, k, Barrier.Arrived), k, s.cpus[k].(pc := Slot))
    case Slot => SetCpu(s, k, s.cpus[k].(pc := Top))
  }

  // ------------------------------------------------------------------ ld_routine

  function Add(s: State, p: Proc): State
    requires s.sched.Valid() && p.prio < MAX_PRIO
  {
    s.(sched := Admit(s.sched, p), loaded := s.loaded + 1, live := s.live + {p},
       addedAt := s.addedAt + [s.barrier.time], ldPc := LdLeaving)
  }

  /** The loader is at the point where it calls add_proc. */
  predicate Adds(c: Config, s: State)
    requires Shape(c, s)
  {
    s.ldPc.LdTop? && s.loaded < |c.procs| && s.barrier.time >= c.start[s.loaded]
  }

  /** The loader may add a process only while the queues have room for every live one: a full queue
      would drop the newcomer without a word. */
  predicate LoaderCanStep(c: Config, s: State)
    requires Shape(c, s)
  {
    match s.ldPc
    case LdTop => Adds(c, s) ==> |s.live| < MAX_QUEUE_SIZE
    case LdSlot => s.barrier.devs[LoaderDev(s)].Working?
    case LdGone => false
    case _ => true
  }

  function AfterLoaderStep(c: Config, s: State): State
    requires Shape(c, s) && LoaderCanStep(c, s)
  {
    match s.ldPc
    case LdTop =>
      if Adds(c, s) then Add(s, c.procs[s.loaded])
      else if s.loaded == |c.procs| then s.(done := true, ldPc := LdDone)
      else s.(ldPc := LdLeaving)
    case LdLeaving => SetDev(s, LoaderDev(s), Barrier.Arrived).(ldPc := LdSlot)
    case LdSlot => s.(ldPc := LdTop)
    case LdDone => SetDev(s, LoaderDev(s), Barrier.Detached).(ldPc := LdGone)
  }

  // ------------------------------------------------------------------ the whole machine

  predicate Enabled(c: Config, s: State, e: Event)
    requires Shape(c, s)
  {
    match e
    case CpuStep(k) => k < |s.cpus| && CpuCanStep(s, k)
    case LoaderStep => LoaderCanStep(c, s)
    case Tick => Barrier.Enabled(s.barrier, Barrier.Tick)
  }

  function Next(c: Config, s: State, e: Event): State
    requires Shape(c, s) && Enabled(c, s, e)
  {
    match e
    case CpuStep(k) => AfterCpuStep(c, s, k)
    case LoaderStep => AfterLoaderStep(c, s)
    case Tick => s.(barrier := Barrier.Next(s.barrier, Barrier.Tick))
  }
}
