/** The multi-level queue scheduler (src/sched.c, the MLQ variant). */
module Scheduler {
  import opened Common
  import opened Queues

  const MAX_PRIO: Positive

  /** The scheduler's whole state: one ready queue and one slot budget per level, and the running list. */
  datatype Sched = Sched(ready: seq<seq<Proc>>, running: seq<Proc>, slot: seq<int>)
  {
    /** Every level exists, and level i never holds more than its MAX_PRIO - i slots. */
    predicate Valid() {
      && |ready| == MAX_PRIO && |slot| == MAX_PRIO
      && forall i :: 0 <= i < MAX_PRIO ==> 0 <= slot[i] <= MAX_PRIO - i
    }
  }

  function FullSlots(): (s: seq<int>)
    ensures |s| == MAX_PRIO
  {
    seq(MAX_PRIO, i => MAX_PRIO - i)
  }

  /** The scheduler before any process has arrived. */
  function Init(): (r: Sched)
    ensures r.Valid()
  {
    Sched(seq(MAX_PRIO, i => []), [], FullSlots())
  }

  predicate Eligible(s: Sched, i: nat)
    requires i < |s.ready| && i < |s.slot|
  {
    s.slot[i] > 0 && s.ready[i] != []
  }

  /** The lowest-numbered level, from `from` on, with a slot left and a process waiting. */
  function FirstEligible(s: Sched, from: nat): (i: nat)
    requires s.Valid() && from <= MAX_PRIO
    ensures from <= i <= MAX_PRIO
    ensures i < MAX_PRIO ==> Eligible(s, i)
    ensures forall j :: from <= j < i ==> !Eligible(s, j)
    decreases MAX_PRIO - from
  {
    if from == MAX_PRIO || Eligible(s, from) then from else FirstEligible(s, from + 1)
  }

  /** Dispatch the head of level i: it moves to the running list and the level pays one slot. */
  function Take(s: Sched, i: nat): (r: (Sched, Option<Proc>))
    requires s.Valid() && i < MAX_PRIO && Eligible(s, i)
  {
    var p := s.ready[i][0];
    (Sched(s.ready[i := s.ready[i][1..]], Enqueued(s.running, p), s.slot[i := s.slot[i] - 1]), Some(p))
  }

  /** A scheduling round opens: every level gets its whole budget back. */
  function Reset(s: Sched): Sched {
    s.(slot := FullSlots())
  }

  /** The call has to open a new round: no level with a slot left has a process. */
  predicate Resets(s: Sched)
    requires s.Valid()
  {
    FirstEligible(s, 0) == MAX_PRIO
  }

  /** `get_mlq_proc`: try the current budgets, then once more with fresh ones. */
  function Get(s: Sched): (r: (Sched, Option<Proc>))
    requires s.Valid()
  {
    var s1 := if Resets(s) then Reset(s) else s;
    if Resets(s1) then (s1, None) else Take(s1, FirstEligible(s1, 0))
  }

  /** `put_mlq_proc` and `add_mlq_proc`: to the back of its own level, off the running list. */
  function Admit(s: Sched, p: Proc): Sched
    requires s.Valid() && p.prio < MAX_PRIO
  {
    s.(ready := s.ready[p.prio := Enqueued(s.ready[p.prio], p)], running := WithoutPid(s.running, p.pid))
  }

  /** Slot budgets stay in range, and NULL is returned exactly when nobody waits anywhere. */
  lemma GetContract(s: Sched)
    requires s.Valid()
    ensures Get(s).0.Valid()
    ensures Get(s).1 == None <==> forall i :: 0 <= i < MAX_PRIO ==> s.ready[i] == []
    ensures Get(s).1 == None ==> Get(s).0 == Reset(s)
  {
    var s1 := if Resets(s) then Reset(s) else s;
    if Resets(s1) {
      forall i | 0 <= i < MAX_PRIO ensures s.ready[i] == [] {
        assert !Eligible(s1, i);
      }
    } else {
      assert Eligible(s1, FirstEligible(s1, 0));
    }
  }

  /** A dispatched process comes from the front of its queue and is filed as running; every other
      queue is untouched, and no lower-numbered level could have been served instead. */
  lemma GetDispatches(s: Sched) returns (i: nat)
    requires s.Valid() && Get(s).1.Some?
    ensures i < MAX_PRIO && s.ready[i] != [] && Get(s).1.value == s.ready[i][0]
    ensures Get(s).0.ready == s.ready[i := s.ready[i][1..]]
    ensures Get(s).0.running == if |s.running| < MAX_QUEUE_SIZE then s.running + [s.ready[i][0]] else s.running
    ensures !Resets(s) ==> forall j :: 0 <= j < i ==> s.slot[j] == 0 || s.ready[j] == []
    ensures Resets(s) ==> forall j :: 0 <= j < i ==> s.ready[j] == []
  {
    var s1 := if Resets(s) then Reset(s) else s;
    i := FirstEligible(s1, 0);
    forall j | 0 <= j < i ensures s1.slot[j] == 0 || s.ready[j] == [] {
      assert !Eligible(s1, j);
    }
  }

  /** The static scheduler data, one queue object per level and one lock around every operation. */
  class MlqScheduler {
    const mlq: seq<Queue>
    const running: Queue
    const slot: array<int>
    ghost const Repr: set<object>
    ghost var model: Sched

    ghost predicate Valid()
      reads this, Repr
    {
      && this !in Repr
      && |mlq| == MAX_PRIO && slot in Repr && running in Repr && running.proc in Repr
      && (forall i :: 0 <= i < MAX_PRIO ==> mlq[i] in Repr && mlq[i].proc in Repr)
      && (forall i, j :: 0 <= i < j < MAX_PRIO ==> mlq[i] != mlq[j] && mlq[i].proc != mlq[j].proc)
      && (forall i :: 0 <= i < MAX_PRIO ==> mlq[i] != running && mlq[i].proc != running.proc)
      && model.Valid()
      && running.Valid() && running.Contents() == model.running
      && slot[..] == model.slot
      && (forall i :: 0 <= i < MAX_PRIO ==> mlq[i].Valid() && mlq[i].Contents() == model.ready[i])
    }

    constructor ()
      ensures Valid() && fresh(Repr) && model == Init()
      ensures forall i :: 0 <= i < MAX_PRIO ==> mlq[i].Contents() == [] && slot[i] == MAX_PRIO - i
    {
      var qs: seq<Queue> := [];
      ghost var objs: set<object> := {};
      for i := 0 to MAX_PRIO
        invariant |qs| == i && fresh(objs)
        invariant forall k :: 0 <= k < i ==> qs[k] in objs && qs[k].proc in objs && fresh(qs[k]) && fresh(qs[k].proc)
        invariant forall k :: 0 <= k < i ==> qs[k].Valid() && qs[k].Contents() == []
        invariant forall j, k :: 0 <= j < k < i ==> qs[j] != qs[k] && qs[j].proc != qs[k].proc
      {
        var q := new Queue();
        qs := qs + [q];
        objs := objs + {q, q.proc};
      }
      var r := new Queue();
      var b := new int[MAX_PRIO](i => MAX_PRIO - i);
      mlq, running, slot := qs, r, b;
      Repr := objs + {r, r.proc, b};
      model := Init();
    }

    /** The dispatch at level i inside the scan. */
    method Dispatch(i: nat) returns (p: Option<Proc>)
      requires Valid() && i < MAX_PRIO && Eligible(model, i)
      modifies this`model, Repr
      ensures Valid()
      ensures (model, p) == Take(old(model), i)
    {
      ghost var was := model;
      p := mlq[i].Dequeue();
      assert mlq[i].Contents() == was.ready[i][1..];
      running.Enqueue(p);
      assert mlq[i].Contents() == was.ready[i][1..];
      slot[i] := slot[i] - 1;
      model := Take(was, i).0;
      forall j | 0 <= j < MAX_PRIO ensures mlq[j].Valid() && mlq[j].Contents() == model.ready[j] {
        assert j != i ==> mlq[j].Contents() == was.ready[j];
      }
    }

    /** One pass over the levels. */
    method Scan() returns (p: Option<Proc>)
      requires Valid()
      modifies this`model, Repr
      ensures Valid()
      ensures Resets(old(model)) ==> p == None && model == old(model)
      ensures !Resets(old(model)) ==> (model, p) == Take(old(model), FirstEligible(old(model), 0))
    {
      p := None;
      var i := 0;
      while i < MAX_PRIO
        invariant 0 <= i <= MAX_PRIO && Valid() && model == old(model)
        invariant FirstEligible(model, 0) == FirstEligible(model, i)
      {
        assert mlq[i].Contents() == model.ready[i];
        if slot[i] > 0 && !mlq[i].Empty() {
          p := Dispatch(i);
          return;
        }
        i := i + 1;
      }
    }

    method ResetSlots()
      requires Valid()
      modifies this`model, Repr
      ensures Valid()
      ensures model == Reset(old(model))
    {
      var i := 0;
      while i < MAX_PRIO
        invariant 0 <= i <= MAX_PRIO
        invariant forall k :: 0 <= k < i ==> slot[k] == MAX_PRIO - k
        modifies slot
      {
        slot[i] := MAX_PRIO - i;
        i := i + 1;
      }
      model := Reset(model);
    }

    /** At most two passes: the current budgets first, then fresh ones. */
    method GetMlqProc() returns (p: Option<Proc>)
      requires Valid()
      modifies this`model, Repr
      ensures Valid()
      ensures (model, p) == Get(old(model))
    {
      for attempt := 0 to 2
        invariant Valid()
        invariant attempt == 0 ==> model == old(model)
        invariant attempt >= 1 ==> Resets(old(model)) && model == Reset(old(model))
        invariant attempt == 2 ==> Resets(model)
      {
        p := Scan();
        if p.Some? {
          return;
        }
        ResetSlots();
      }
      p := None;
    }

    method PutMlqProc(p: Proc)
      requires Valid() && p.prio < MAX_PRIO
      modifies this`model, Repr
      ensures Valid()
      ensures model == Admit(old(model), p)
    {
      mlq[p.prio].Enqueue(Some(p));
      var _ := running.DequeueRunning(p);
      model := Admit(model, p);
    }
  }
}
