/** Where a process is: in exactly one queue, and on at most one CPU, over every interleaving. */
module Placement {
  import opened Common
  import opened Queues
  import opened Scheduler
  import opened Os

  // ------------------------------------------------------------------ counting over queues

  function Everyone(qs: seq<seq<Proc>>): multiset<Proc> {
    if qs == [] then multiset{} else multiset(qs[0]) + Everyone(qs[1..])
  }

  lemma {:induction false} EveryoneUpdate(qs: seq<seq<Proc>>, i: nat, q: seq<Proc>)
    requires i < |qs|
    ensures multiset(qs[i]) <= Everyone(qs)
    ensures Everyone(qs[i := q]) == Everyone(qs) - multiset(qs[i]) + multiset(q)
  {
    if i == 0 {
      assert qs[0 := q][1..] == qs[1..];
    } else {
      assert qs[i := q][1..] == qs[1..][i - 1 := q];
      EveryoneUpdate(qs[1..], i - 1, q);
    }
  }

  lemma {:induction false} EveryoneEmpty(qs: seq<seq<Proc>>)
    ensures Everyone(qs) == multiset{} <==> forall i :: 0 <= i < |qs| ==> qs[i] == []
  {
    if qs != [] {
      EveryoneEmpty(qs[1..]);
      assert |multiset(qs[0])| == |qs[0]|;
      assert |Everyone(qs)| == |qs[0]| + |Everyone(qs[1..])|;
      assert (forall i :: 0 <= i < |qs| ==> qs[i] == []) <==>
             qs[0] == [] && forall i :: 0 <= i < |qs[1..]| ==> qs[1..][i] == [] by {
        assert forall i :: 0 < i < |qs| ==> qs[i] == qs[1..][i - 1];
      }
    }
  }

  lemma WithoutPidRemoves(q: seq<Proc>, p: Proc)
    requires forall x :: x in q && x.pid == p.pid ==> x == p
    ensures multiset(WithoutPid(q, p.pid)) == multiset(q) - multiset{p}
  {
    var i := IndexOfPid(q, p.pid);
    if i < |q| {
      assert q[i] in q;
      assert q == q[..i] + [q[i]] + q[i + 1..];
    }
  }

  lemma HeadMoves(qs: seq<seq<Proc>>, i: nat)
    requires i < |qs| && qs[i] != []
    ensures qs[i][0] in Everyone(qs)
    ensures Everyone(qs[i := qs[i][1..]]) == Everyone(qs) - multiset{qs[i][0]}
  {
    var q := qs[i];
    EveryoneUpdate(qs, i, q[1..]);
    assert q == [q[0]] + q[1..];
    assert multiset(q) == multiset{q[0]} + multiset(q[1..]);
  }

  /** A dispatch moves one process from the ready queues to the running list. */
  lemma GetMoves(s: Sched)
    requires s.Valid() && Get(s).1.Some? && |s.running| < MAX_QUEUE_SIZE
    ensures var (s', p) := Get(s);
            && p.value in Everyone(s.ready)
            && Everyone(s'.ready) == Everyone(s.ready) - multiset{p.value}
            && multiset(s'.running) == multiset(s.running) + multiset{p.value}
            && |s'.ready| == MAX_PRIO
            && forall i :: 0 <= i < MAX_PRIO ==> forall x :: x in s'.ready[i] ==> x in s.ready[i]
  {
    var i := GetDispatches(s);
    HeadMoves(s.ready, i);
  }

  /** A put or an add moves a process to its own level, and off the running list if it was there. */
  lemma AdmitMoves(s: Sched, p: Proc)
    requires s.Valid() && p.prio < MAX_PRIO && |s.ready[p.prio]| < MAX_QUEUE_SIZE
    requires forall x :: x in s.running && x.pid == p.pid ==> x == p
    ensures Everyone(Admit(s, p).ready) == Everyone(s.ready) + multiset{p}
    ensures multiset(Admit(s, p).running) == multiset(s.running) - multiset{p}
  {
    EveryoneUpdate(s.ready, p.prio, s.ready[p.prio] + [p]);
    WithoutPidRemoves(s.running, p);
  }

  /** A full queue drops the newcomer without a word, so a put or an add loses nobody if and only if the
      level it goes to has room. */
  lemma AdmitLosesNobody(s: Sched, p: Proc)
    requires s.Valid() && p.prio < MAX_PRIO
    ensures Everyone(Admit(s, p).ready) == Everyone(s.ready) + multiset{p} <==> |s.ready[p.prio]| < MAX_QUEUE_SIZE
  {
    EveryoneUpdate(s.ready, p.prio, Enqueued(s.ready[p.prio], p));
    assert Everyone(s.ready)[p] != (Everyone(s.ready) + multiset{p})[p];
  }

  // ------------------------------------------------------------------ the scheduler's books

  /** The live processes are the waiting and the running ones, each once; the running ones are `held`;
      each ready queue holds only processes of its own level. */
  predicate Balanced(s: Sched, held: multiset<Proc>, live: set<Proc>)
    requires s.Valid()
  {
    && Everyone(s.ready) + multiset(s.running) == multiset(live)
    && multiset(s.running) == held
    && |live| <= MAX_QUEUE_SIZE
    && forall i :: 0 <= i < MAX_PRIO ==> forall p :: p in s.ready[i] ==> p.prio == i
  }

  /** Within the live processes a pid names one process. */
  predicate PidsUnique(live: set<Proc>) {
    forall p, q :: p in live && q in live && p.pid == q.pid ==> p == q
  }

  lemma RunningAreLive(s: Sched, held: multiset<Proc>, live: set<Proc>)
    requires s.Valid() && Balanced(s, held, live)
    ensures forall p :: p in s.running ==> p in live
    ensures forall p :: p in held ==> p in live && p in s.running
    ensures forall p :: p in Everyone(s.ready) ==> p in live
  {
    forall p | p in s.running ensures p in live {
      assert p in multiset(s.running);
      assert p in multiset(live);
    }
    forall p | p in Everyone(s.ready) ensures p in live {
      assert p in multiset(live);
    }
  }

  /** A ready queue never holds more than the live processes that are not running. */
  lemma RoomIn(s: Sched, held: multiset<Proc>, live: set<Proc>, i: nat)
    requires s.Valid() && Balanced(s, held, live) && i < MAX_PRIO
    ensures |s.ready[i]| + |s.running| <= |live|
  {
    EveryoneUpdate(s.ready, i, []);
    assert Everyone(s.ready) == multiset(s.ready[i]) + (Everyone(s.ready) - multiset(s.ready[i]));
    assert |multiset(live)| == |live|;
  }

  lemma BalancedFetch(s: Sched, held: multiset<Proc>, live: set<Proc>)
    requires s.Valid() && Balanced(s, held, live)
    ensures var (s', p) := Get(s);
            s'.Valid() && Balanced(s', held + (if p.Some? then multiset{p.value} else multiset{}), live)
    ensures Get(s).1.Some? ==> Get(s).1.value in live
  {
    GetContract(s);
    if Get(s).1.Some? {
      EveryoneEmpty(s.ready);
      RunningAreLive(s, held, live);
      assert |multiset(live)| == |live|;
      GetMoves(s);
    }
  }

  lemma BalancedFinish(s: Sched, held: multiset<Proc>, live: set<Proc>, p: Proc)
    requires s.Valid() && Balanced(s, held, live) && PidsUnique(live) && p in held
    ensures Balanced(s.(running := WithoutPid(s.running, p.pid)), held - multiset{p}, live - {p})
  {
    RunningAreLive(s, held, live);
    WithoutPidRemoves(s.running, p);
    assert multiset(live - {p}) == multiset(live) - multiset{p};
  }

  lemma AdmitKeepsLevels(s: Sched, p: Proc)
    requires s.Valid() && p.prio < MAX_PRIO
    requires forall i :: 0 <= i < MAX_PRIO ==> forall q :: q in s.ready[i] ==> q.prio == i
    ensures forall i :: 0 <= i < MAX_PRIO ==> forall q :: q in Admit(s, p).ready[i] ==> q.prio == i
  {}

  lemma BalancedPut(s: Sched, held: multiset<Proc>, live: set<Proc>, p: Proc)
    requires s.Valid() && Balanced(s, held, live) && PidsUnique(live) && p in held && p.prio < MAX_PRIO
    ensures Balanced(Admit(s, p), held - multiset{p}, live)
  {
    RunningAreLive(s, held, live);
    RoomIn(s, held, live, p.prio);
    AdmitMoves(s, p);
    AdmitKeepsLevels(s, p);
  }

  lemma BalancedAdd(s: Sched, held: multiset<Proc>, live: set<Proc>, p: Proc)
    requires s.Valid() && Balanced(s, held, live) && p.prio < MAX_PRIO && |live| < MAX_QUEUE_SIZE
    requires forall q :: q in live ==> q.pid != p.pid
    ensures Balanced(Admit(s, p), held, live + {p})
  {
    RunningAreLive(s, held, live);
    RoomIn(s, held, live, p.prio);
    AdmitMoves(s, p);
    AdmitKeepsLevels(s, p);
    assert p !in s.running;
    assert multiset(live + {p}) == multiset(live) + multiset{p};
  }

  // ------------------------------------------------------------------ the invariant

  function HeldSeq(cpu: Cpu): seq<Proc> {
    if cpu.proc.Some? then [cpu.proc.value] else []
  }

  function HeldSeqs(cpus: seq<Cpu>): seq<seq<Proc>> {
    seq(|cpus|, k requires 0 <= k < |cpus| => HeldSeq(cpus[k]))
  }

  /** The processes the CPUs hold, with multiplicity. */
  function Held(cpus: seq<Cpu>): multiset<Proc> {
    Everyone(HeldSeqs(cpus))
  }

  lemma HeldUpdate(cpus: seq<Cpu>, k: nat, cpu: Cpu)
    requires k < |cpus|
    ensures multiset(HeldSeq(cpus[k])) <= Held(cpus)
    ensures cpus[k].proc.Some? ==> cpus[k].proc.value in Held(cpus)
    ensures Held(cpus[k := cpu]) == Held(cpus) - multiset(HeldSeq(cpus[k])) + multiset(HeldSeq(cpu))
  {
    EveryoneUpdate(HeldSeqs(cpus), k, HeldSeq(cpu));
    assert HeldSeqs(cpus[k := cpu]) == HeldSeqs(cpus)[k := HeldSeq(cpu)];
    if cpus[k].proc.Some? {
      assert cpus[k].proc.value in multiset(HeldSeq(cpus[k]));
    }
  }

  /** The places where a CPU may have a process in hand. */
  predicate Carries(pc: CpuPc) {
    pc.Top? || pc.Recheck? || pc.Leaving? || pc.Slot?
  }

  /** Every added and unfinished process is in exactly one place, and the running list is exactly what
      the CPUs hold. */
  predicate Core(s: State) {
    && s.sched.Valid()
    && Balanced(s.sched, Held(s.cpus), s.live)
    && forall k :: 0 <= k < |s.cpus| && !Carries(s.cpus[k].pc) ==> s.cpus[k].proc == None
  }

  predicate Placed(c: Config, s: State) {
    Shape(c, s) && Core(s)
  }

  lemma BootPlaced(c: Config, numCpus: nat)
    requires c.Valid()
    ensures Placed(c, Boot(c, numCpus))
  {
    EveryoneEmpty(Scheduler.Init().ready);
    EveryoneEmpty(HeldSeqs(Boot(c, numCpus).cpus));
    assert c.procs[..0] == [];
  }

  lemma FetchCore(s: State, k: nat, idle: CpuPc, left: int)
    requires Core(s) && k < |s.cpus| && s.cpus[k].proc == None && Carries(idle)
    ensures Core(Fetch(s, k, idle, left))
    ensures Get(s.sched).1.Some? ==> Get(s.sched).1.value in s.live
  {
    BalancedFetch(s.sched, Held(s.cpus), s.live);
    HeldUpdate(s.cpus, k, Fetch(s, k, idle, left).cpus[k]);
  }

  /** What a CPU holds is running and live, and when it lets go only that process leaves its hands. */
  lemma LettingGo(s: State, k: nat, cpu: Cpu)
    requires Core(s) && k < |s.cpus| && s.cpus[k].proc.Some? && cpu.proc == None
    ensures var p := s.cpus[k].proc.value; p in Held(s.cpus) && p in s.live
    ensures Held(s.cpus[k := cpu]) == Held(s.cpus) - multiset{s.cpus[k].proc.value}
  {
    HeldUpdate(s.cpus, k, cpu);
    RunningAreLive(s.sched, Held(s.cpus), s.live);
  }

  lemma FinishCore(s: State, k: nat, p: Proc)
    requires Core(s) && k < |s.cpus| && s.cpus[k].proc == Some(p) && PidsUnique(s.live)
    ensures Core(Finish(s, k, p))
  {
    LettingGo(s, k, Finish(s, k, p).cpus[k]);
    BalancedFinish(s.sched, Held(s.cpus), s.live, p);
  }

  lemma PutBackCore(s: State, k: nat, p: Proc)
    requires Core(s) && k < |s.cpus| && s.cpus[k].proc == Some(p) && PidsUnique(s.live) && p.prio < MAX_PRIO
    ensures Core(PutBack(s, k, p))
  {
    LettingGo(s, k, PutBack(s, k, p).cpus[k]);
    BalancedPut(s.sched, Held(s.cpus), s.live, p);
  }

  lemma AddCore(s: State, p: Proc)
    requires Core(s) && p.prio < MAX_PRIO && |s.live| < MAX_QUEUE_SIZE
    requires forall q :: q in s.live ==> q.pid != p.pid
    ensures Core(Add(s, p))
  {
    BalancedAdd(s.sched, Held(s.cpus), s.live, p);
  }

  /** A step that moves one CPU but leaves its process and the scheduler alone. */
  lemma LocalStepCore(s: State, s': State, k: nat)
    requires Core(s) && k < |s.cpus| && |s'.cpus| == |s.cpus| && s'.cpus == s.cpus[k := s'.cpus[k]]
    requires s'.sched == s.sched && s'.live == s.live
    requires s'.cpus[k].proc == s.cpus[k].proc && (Carries(s'.cpus[k].pc) || s'.cpus[k].proc == None)
    ensures Core(s')
  {
    HeldUpdate(s.cpus, k, s'.cpus[k]);
    assert HeldSeq(s'.cpus[k]) == HeldSeq(s.cpus[k]);
  }

  lemma LivePidsUnique(c: Config, s: State)
    requires Shape(c, s)
    ensures PidsUnique(s.live)
  {
    forall p, q | p in s.live && q in s.live && p.pid == q.pid ensures p == q {
      var i :| 0 <= i < s.loaded && c.procs[i] == p;
      var j :| 0 <= j < s.loaded && c.procs[j] == q;
    }
  }

  /** The next process to load is not live and shares its pid with no live process. */
  lemma NewcomerIsNew(c: Config, s: State)
    requires Shape(c, s) && s.loaded < |c.procs|
    ensures forall q :: q in s.live ==> q.pid != c.procs[s.loaded].pid
    ensures AsSet(c.procs[..s.loaded + 1]) == AsSet(c.procs[..s.loaded]) + {c.procs[s.loaded]}
    ensures c.procs[s.loaded] !in AsSet(c.procs[..s.loaded])
  {
    var p := c.procs[s.loaded];
    assert c.procs[..s.loaded + 1] == c.procs[..s.loaded] + [p];
    forall q | q in s.live ensures q.pid != p.pid {
      var i :| 0 <= i < s.loaded && c.procs[i] == q;
    }
  }

  lemma AddShape(c: Config, s: State)
    requires Shape(c, s) && s.loaded < |c.procs|
    ensures Shape(c, Add(s, c.procs[s.loaded]))
  {
    NewcomerIsNew(c, s);
  }

  lemma FetchShape(c: Config, s: State, k: nat, idle: CpuPc, left: int)
    requires Shape(c, s) && k < |s.cpus| && Get(s.sched).0.Valid()
    requires Get(s.sched).1.Some? ==> Get(s.sched).1.value in s.live
    ensures Shape(c, Fetch(s, k, idle, left))
  {
    if Get(s.sched).1.Some? {
      assert Get(s.sched).1.value in c.procs[..s.loaded];
    }
  }

  lemma FetchPlaced(c: Config, s: State, k: nat, idle: CpuPc, left: int)
    requires Placed(c, s) && k < |s.cpus| && s.cpus[k].proc == None && Carries(idle)
    ensures Placed(c, Fetch(s, k, idle, left))
  {
    FetchCore(s, k, idle, left);
    FetchShape(c, s, k, idle, left);
  }

  lemma TopPlaced(c: Config, s: State, k: nat)
    requires Placed(c, s) && k < |s.cpus| && s.cpus[k].pc.Top?
    ensures Placed(c, AfterTop(c, s, k))
  {
    LivePidsUnique(c, s);
    match s.cpus[k].proc
    case None => FetchPlaced(c, s, k, Leaving, s.cpus[k].timeLeft);
    case Some(p) =>
      if s.execs[p].pc == p.size {
        FinishCore(s, k, p);
      } else if s.cpus[k].timeLeft == 0 {
        PutBackCore(s, k, p);
      } else {
        LocalStepCore(s, AfterTop(c, s, k), k);
      }
  }

  lemma LoaderPlaced(c: Config, s: State)
    requires Placed(c, s) && LoaderCanStep(c, s)
    ensures Placed(c, AfterLoaderStep(c, s))
  {
    if Adds(c, s) {
      NewcomerIsNew(c, s);
      AddCore(s, c.procs[s.loaded]);
      AddShape(c, s);
    }
  }

  /** Unique placement is kept by every step of every thread. */
  lemma NextPlaced(c: Config, s: State, e: Event)
    requires Placed(c, s) && Enabled(c, s, e)
    ensures Placed(c, Next(c, s, e))
  {
    match e
    case Tick =>
    case LoaderStep => LoaderPlaced(c, s);
    case CpuStep(k) =>
      match s.cpus[k].pc {
        case AfterFinish => FetchPlaced(c, s, k, Recheck, 0);
        case AfterPut => FetchPlaced(c, s, k, Recheck, s.cpus[k].timeLeft);
        case Top => TopPlaced(c, s, k);
        case Recheck => LocalStepCore(s, Next(c, s, e), k);
        case Leaving => LocalStepCore(s, Next(c, s, e), k);
        case Slot => LocalStepCore(s, Next(c, s, e), k);
      }
  }

  lemma HeldTwice(cpus: seq<Cpu>, j: nat, k: nat)
    requires j < |cpus| && k < |cpus| && j != k
    requires cpus[j].proc.Some? && cpus[j].proc == cpus[k].proc
    ensures Held(cpus)[cpus[j].proc.value] >= 2
  {
    var rest := cpus[j := cpus[j].(proc := None)];
    HeldUpdate(cpus, j, rest[j]);
    HeldUpdate(rest, k, rest[k]);
  }

  /** No process is ever in the hands of two CPUs at once. */
  lemma NoSharedProcess(s: State, j: nat, k: nat)
    requires Core(s) && j < |s.cpus| && k < |s.cpus| && j != k && s.cpus[j].proc.Some?
    ensures s.cpus[j].proc != s.cpus[k].proc
  {
    assert multiset(s.live)[s.cpus[j].proc.value] <= 1;
    if s.cpus[j].proc == s.cpus[k].proc {
      HeldTwice(s.cpus, j, k);
    }
  }

  lemma {:induction false} InSomeQueue(qs: seq<seq<Proc>>, p: Proc)
    requires p in Everyone(qs)
    ensures exists i :: 0 <= i < |qs| && p in qs[i]
  {
    if p in multiset(qs[0]) {
      assert p in qs[0];
    } else {
      InSomeQueue(qs[1..], p);
      var i :| 0 <= i < |qs[1..]| && p in qs[1..][i];
      assert p in qs[i + 1];
    }
  }

  /** Each added and unfinished process sits in exactly one place: once in the ready queue of its own
      priority and with no CPU, or in no ready queue and with exactly one CPU. */
  lemma ExactlyOnePlace(s: State, p: Proc)
    requires Core(s) && p in s.live
    ensures Everyone(s.sched.ready)[p] + Held(s.cpus)[p] == 1
    ensures Everyone(s.sched.ready)[p] == 1 ==> p.prio < MAX_PRIO && multiset(s.sched.ready[p.prio])[p] == 1
  {
    assert multiset(s.live)[p] == 1;
    if Everyone(s.sched.ready)[p] == 1 {
      InSomeQueue(s.sched.ready, p);
      var i :| 0 <= i < |s.sched.ready| && p in s.sched.ready[i];
      EveryoneUpdate(s.sched.ready, i, []);
      assert p in multiset(s.sched.ready[i]);
    }
  }

  // ------------------------------------------------------------------ runs

  predicate Runs(c: Config, s: State, es: seq<Event>)
    requires Placed(c, s)
    decreases |es|
  {
    es == [] || (Enabled(c, s, es[0]) && (NextPlaced(c, s, es[0]); Runs(c, Next(c, s, es[0]), es[1..])))
  }

  function After(c: Config, s: State, es: seq<Event>): (r: State)
    requires Placed(c, s) && Runs(c, s, es)
    ensures Placed(c, r)
    decreases |es|
  {
    if es == [] then s else NextPlaced(c, s, es[0]); After(c, Next(c, s, es[0]), es[1..])
  }
}
