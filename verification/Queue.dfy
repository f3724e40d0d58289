/** The bounded array queue of process control blocks (src/queue.c). */
module Queues {
  import opened Common

  const MAX_QUEUE_SIZE: Positive

  /** The fields of a process control block that never change once it is loaded.
      `prio` is the MLQ level, `size` the number of instructions. */
  datatype Proc = Proc(pid: nat, prio: nat, size: nat)

  /** What one `enqueue` does to the sequence held by the queue: a full queue drops the process. */
  function Enqueued(q: seq<Proc>, p: Proc): seq<Proc> {
    if |q| >= MAX_QUEUE_SIZE then q else q + [p]
  }

  /** Position of the first process with the given pid, or |q|. */
  function IndexOfPid(q: seq<Proc>, pid: nat): (i: nat)
    ensures i <= |q|
    ensures i < |q| ==> q[i].pid == pid
    ensures forall j :: 0 <= j < i ==> q[j].pid != pid
  {
    if q == [] then 0
    else if q[0].pid == pid then 0
    else 1 + IndexOfPid(q[1..], pid)
  }

  function RemoveAt<T>(q: seq<T>, i: nat): seq<T>
    requires i < |q|
  {
    q[..i] + q[i + 1..]
  }

  function WithoutPid(q: seq<Proc>, pid: nat): seq<Proc> {
    var i := IndexOfPid(q, pid);
    if i < |q| then RemoveAt(q, i) else q
  }

  /** Only the first process with the pid is gone, and the others keep their order. */
  lemma WithoutPidKeepsOrder(q: seq<Proc>, pid: nat) returns (i: nat)
    ensures i <= |q| && forall j :: 0 <= j < i ==> q[j].pid != pid
    ensures i == |q| ==> WithoutPid(q, pid) == q
    ensures i < |q| ==>
              && q[i].pid == pid && |WithoutPid(q, pid)| == |q| - 1
              && (forall j :: 0 <= j < i ==> WithoutPid(q, pid)[j] == q[j])
              && (forall j :: i <= j < |q| - 1 ==> WithoutPid(q, pid)[j] == q[j + 1])
  {
    i := IndexOfPid(q, pid);
  }

  /** The processes in a stretch of non-NULL cells. */
  function Values(cells: seq<Option<Proc>>): seq<Proc>
    requires forall i :: 0 <= i < |cells| ==> cells[i].Some?
  {
    seq(|cells|, i requires 0 <= i < |cells| => cells[i].value)
  }

  class Queue {
    const proc: array<Option<Proc>>
    var size: nat

    ghost predicate Valid()
      reads this, proc
    {
      && proc.Length == MAX_QUEUE_SIZE
      && size <= MAX_QUEUE_SIZE
      && (forall i :: 0 <= i < size ==> proc[i].Some?)
      && (forall i :: size <= i < MAX_QUEUE_SIZE ==> proc[i].None?)
    }

    ghost function Contents(): seq<Proc>
      requires Valid()
      reads this, proc
    {
      Values(proc[..size])
    }

    constructor ()
      ensures Valid() && fresh(proc) && Contents() == []
    {
      proc := new Option<Proc>[MAX_QUEUE_SIZE](_ => None);
      size := 0;
    }

    predicate Empty()
      reads this
    {
      size == 0
    }

    /** A NULL process is ignored, and so is any process when the queue is full. */
    method Enqueue(p: Option<Proc>)
      requires Valid()
      modifies this`size, proc
      ensures Valid()
      ensures Contents() == if p.None? then old(Contents()) else Enqueued(old(Contents()), p.value)
    {
      if p.None? {
        return;
      }
      if size >= MAX_QUEUE_SIZE {
        return;
      }
      proc[size] := p;
      size := size + 1;
    }

    /** The shifting loop shared by both removals: close the gap at i and clear the last cell. */
    method ShiftDown(i: nat)
      requires Valid() && i < size
      modifies this`size, proc
      ensures Valid()
      ensures Contents() == RemoveAt(old(Contents()), i)
    {
      ghost var was := Contents();
      for j := i to size - 1
        invariant size == old(size)
        invariant forall k :: 0 <= k < i ==> proc[k] == old(proc[k])
        invariant forall k :: i <= k < j ==> proc[k] == old(proc[k + 1])
        invariant forall k :: j <= k < MAX_QUEUE_SIZE ==> proc[k] == old(proc[k])
      {
        proc[j] := proc[j + 1];
      }
      proc[size - 1] := None;
      size := size - 1;
      forall k | 0 <= k < size ensures proc[k].Some? && proc[k].value == RemoveAt(was, i)[k] {
        if k < i { assert proc[k] == old(proc[k]); } else { assert proc[k] == old(proc[k + 1]); }
      }
    }

    method Dequeue() returns (p: Option<Proc>)
      requires Valid()
      modifies this`size, proc
      ensures Valid()
      ensures old(Contents()) == [] ==> p == None && Contents() == []
      ensures old(Contents()) != [] ==> p == Some(old(Contents())[0]) && Contents() == old(Contents())[1..]
    {
      if Empty() {
        return None;
      }
      p := proc[0];
      ShiftDown(0);
    }

    /** Removes the first process with the pid of `p`; the scan stops there. */
    method DequeueRunning(p: Proc) returns (ret: int)
      requires Valid()
      modifies this`size, proc
      ensures Valid()
      ensures Contents() == WithoutPid(old(Contents()), p.pid)
      ensures ret == if exists q :: q in old(Contents()) && q.pid == p.pid then 0 else -1
      ensures ret == 0 ==>
                exists i ::
                  && 0 <= i < |old(Contents())| && old(Contents())[i].pid == p.pid
                  && (forall j :: 0 <= j < i ==> old(Contents())[j].pid != p.pid)
                  && Contents() == old(Contents())[..i] + old(Contents())[i + 1..]
    {
      ghost var was := Contents();
      if Empty() {
        return -1;
      }
      for i := 0 to size
        invariant size == old(size) && Valid() && Contents() == was
        invariant forall k :: 0 <= k < i ==> was[k].pid != p.pid
      {
        if proc[i].Some? && proc[i].value.pid == p.pid {
          assert was[i].pid == p.pid && was[i] in was;
          assert IndexOfPid(was, p.pid) == i;
          ShiftDown(i);
          return 0;
        }
      }
      return -1;
    }
  }
}
