/** The running list is kept in dispatch order, whoever finishes or is put back in between. */
module RunningOrder {
  import opened Common
  import opened Queues
  import opened Scheduler
  import opened Os
  import opened Placement

  function Removed(l: seq<Proc>, p: Proc): seq<Proc> {
    if l == [] then []
    else if l[0] == p then Removed(l[1..], p)
    else [l[0]] + Removed(l[1..], p)
  }

  lemma {:induction false} RemovedNone(l: seq<Proc>, p: Proc)
    requires p !in l
    ensures Removed(l, p) == l
  {
    if l != [] {
      RemovedNone(l[1..], p);
      assert l == [l[0]] + l[1..];
    }
  }

  lemma ConsRemoveAt(l: seq<Proc>, i: nat)
    requires i + 1 < |l|
    ensures RemoveAt(l, i + 1) == [l[0]] + RemoveAt(l[1..], i)
  {}

  lemma ConsWithoutPid(l: seq<Proc>, pid: nat)
    requires l != [] && l[0].pid != pid
    ensures WithoutPid(l, pid) == [l[0]] + WithoutPid(l[1..], pid)
  {
    var i := IndexOfPid(l[1..], pid);
    assert IndexOfPid(l, pid) == i + 1;
    if i < |l[1..]| { ConsRemoveAt(l, i); }
  }

  /** Where pids are unique, removing by pid is removing the process. */
  lemma {:induction false} RemovedByPid(l: seq<Proc>, p: Proc)
    requires forall x :: x in l && x.pid == p.pid ==> x == p
    requires multiset(l)[p] <= 1
    ensures WithoutPid(l, p.pid) == Removed(l, p)
  {
    if l != [] {
      assert l == [l[0]] + l[1..];
      if l[0] == p {
        assert p !in multiset(l[1..]);
        RemovedNone(l[1..], p);
      } else {
        ConsWithoutPid(l, p.pid);
        RemovedByPid(l[1..], p);
      }
    }
  }

  /** A CPU that takes a process in hand puts it last, and one that lets go takes it out. */
  function HandsOver(l: seq<Proc>, before: Option<Proc>, after: Option<Proc>): seq<Proc> {
    match (before, after)
    case (None, Some(p)) => l + [p]
    case (Some(p), None) => Removed(l, p)
    case _ => l
  }

  lemma FetchOrder(s: State, k: nat, idle: CpuPc, left: int)
    requires Core(s) && k < |s.cpus| && s.cpus[k].proc == None
    ensures var s' := Fetch(s, k, idle, left);
            s'.sched.running == HandsOver(s.sched.running, None, s'.cpus[k].proc)
  {
    GetContract(s.sched);
    if Get(s.sched).1.Some? {
      var i := GetDispatches(s.sched);
      RoomIn(s.sched, Held(s.cpus), s.live, i);
    }
  }

  lemma LetGoOrder(s: State, p: Proc)
    requires Core(s) && PidsUnique(s.live) && p in s.live
    ensures WithoutPid(s.sched.running, p.pid) == Removed(s.sched.running, p)
  {
    RunningAreLive(s.sched, Held(s.cpus), s.live);
    assert multiset(s.live)[p] <= 1;
    assert multiset(s.sched.running)[p] <= multiset(s.live)[p];
    RemovedByPid(s.sched.running, p);
  }

  lemma HeldIsLive(c: Config, s: State, k: nat, p: Proc)
    requires Placed(c, s) && k < |s.cpus| && s.cpus[k].proc == Some(p)
    ensures PidsUnique(s.live) && p in s.live
  {
    LivePidsUnique(c, s);
    LettingGo(s, k, s.cpus[k].(proc := None));
  }

  /** A CPU at its loop head keeps its process, or lets it go, and then the process is off the running list. */
  lemma TopRunning(c: Config, s: State, k: nat, p: Proc)
    requires Shape(c, s) && k < |s.cpus| && s.cpus[k].proc == Some(p)
    ensures var s' := AfterTop(c, s, k);
            && |s'.cpus| == |s.cpus|
            && if s'.cpus[k].proc == None then s'.sched.running == WithoutPid(s.sched.running, p.pid)
               else s'.cpus[k].proc == Some(p) && s'.sched.running == s.sched.running
  {}

  lemma TopOrder(c: Config, s: State, k: nat)
    requires Placed(c, s) && k < |s.cpus| && s.cpus[k].pc.Top?
    ensures var s' := AfterTop(c, s, k);
            && |s'.cpus| == |s.cpus|
            && s'.sched.running == HandsOver(s.sched.running, s.cpus[k].proc, s'.cpus[k].proc)
  {
    match s.cpus[k].proc
    case None => FetchOrder(s, k, Os.Leaving, s.cpus[k].timeLeft);
    case Some(p) =>
      HeldIsLive(c, s, k, p);
      LetGoOrder(s, p);
      TopRunning(c, s, k, p);
  }

  lemma AddOrder(c: Config, s: State)
    requires Placed(c, s) && s.loaded < |c.procs|
    ensures WithoutPid(s.sched.running, c.procs[s.loaded].pid) == s.sched.running
  {
    NewcomerIsNew(c, s);
    RunningAreLive(s.sched, Held(s.cpus), s.live);
    assert forall x :: x in s.sched.running ==> x.pid != c.procs[s.loaded].pid;
    var _ := WithoutPidKeepsOrder(s.sched.running, c.procs[s.loaded].pid);
  }

  /** What one event does to a list of the processes in the CPUs' hands. It looks at the hands only. */
  function Hands(l: seq<Proc>, s: State, e: Event, s': State): seq<Proc> {
    if e.CpuStep? && e.k < |s.cpus| && e.k < |s'.cpus| then HandsOver(l, s.cpus[e.k].proc, s'.cpus[e.k].proc) else l
  }

  lemma NextOrder(c: Config, s: State, e: Event)
    requires Placed(c, s) && Enabled(c, s, e)
    ensures Next(c, s, e).sched.running == Hands(s.sched.running, s, e, Next(c, s, e))
  {
    match e
    case Tick =>
    case LoaderStep => if Adds(c, s) { AddOrder(c, s); }
    case CpuStep(k) =>
      match s.cpus[k].pc {
        case Top => TopOrder(c, s, k);
        case AfterFinish => FetchOrder(s, k, Recheck, 0);
        case AfterPut => FetchOrder(s, k, Recheck, s.cpus[k].timeLeft);
        case _ =>
      }
  }

  function AllHands(c: Config, l: seq<Proc>, s: State, es: seq<Event>): seq<Proc>
    requires Placed(c, s) && Runs(c, s, es)
    decreases |es|
  {
    if es == [] then l
    else
      NextPlaced(c, s, es[0]);
      AllHands(c, Hands(l, s, es[0], Next(c, s, es[0])), Next(c, s, es[0]), es[1..])
  }

  /** Over any run the running list is what the CPUs took in hand and have not let go of, in the order in which
      they took it. */
  lemma {:induction false} RunningInDispatchOrder(c: Config, s: State, es: seq<Event>)
    requires Placed(c, s) && Runs(c, s, es)
    ensures After(c, s, es).sched.running == AllHands(c, s.sched.running, s, es)
    decreases |es|
  {
    if es != [] {
      NextPlaced(c, s, es[0]);
      NextOrder(c, s, es[0]);
      RunningInDispatchOrder(c, Next(c, s, es[0]), es[1..]);
    }
  }
}
