/** What the slot budgets of src/sched.c promise over whole runs: an explicit bound on waiting,
    the weighted share of each level, and arrival order within a level. */
module Fairness {
  import opened Arith
  import opened Common
  import opened Queues
  import opened Scheduler

  /** A call on the scheduler. `Arrive` stands for put_mlq_proc and add_mlq_proc alike. */
  datatype Call = Fetch | Arrive(p: Proc)

  predicate ValidCall(c: Call) {
    c.Arrive? ==> c.p.prio < MAX_PRIO
  }

  predicate ValidCalls(cs: seq<Call>) {
    forall i :: 0 <= i < |cs| ==> ValidCall(cs[i])
  }

  function Step(s: Sched, c: Call): (r: Sched)
    requires s.Valid() && ValidCall(c)
    ensures r.Valid()
  {
    match c
    case Fetch => GetContract(s); Get(s).0
    case Arrive(p) => Admit(s, p)
  }

  function Run(s: Sched, cs: seq<Call>): (r: Sched)
    requires s.Valid() && ValidCalls(cs)
    ensures r.Valid()
    decreases |cs|
  {
    if cs == [] then s else Run(Step(s, cs[0]), cs[1..])
  }

  /** The processes handed out by the fetches of a run, in order; idle fetches hand out nothing. */
  function Handed(s: Sched, cs: seq<Call>): seq<Proc>
    requires s.Valid() && ValidCalls(cs)
    decreases |cs|
  {
    if cs == [] then []
    else
      var rest := Handed(Step(s, cs[0]), cs[1..]);
      if cs[0].Fetch? && Get(s).1.Some? then [Get(s).1.value] + rest else rest
  }

  function Fetches(cs: seq<Call>): nat {
    if cs == [] then 0 else (if cs[0].Fetch? then 1 else 0) + Fetches(cs[1..])
  }

  // ------------------------------------------------------------------ waiting bound

  function Sum(s: seq<int>): int {
    if s == [] then 0 else s[0] + Sum(s[1..])
  }

  lemma {:induction false} SumUpdate(s: seq<int>, i: nat, v: int)
    requires i < |s|
    ensures Sum(s[i := v]) == Sum(s) - s[i] + v
  {
    if i == 0 {
      assert s[0 := v][1..] == s[1..];
    } else {
      assert s[i := v][1..] == s[1..][i - 1 := v];
      SumUpdate(s[1..], i - 1, v);
    }
  }

  lemma {:induction false} SumNonNegative(s: seq<int>)
    requires forall i :: 0 <= i < |s| ==> s[i] >= 0
    ensures Sum(s) >= 0
    ensures forall i :: 0 <= i < |s| ==> s[i] <= Sum(s)
  {
    if s != [] {
      SumNonNegative(s[1..]);
      forall i | 0 <= i < |s| ensures s[i] <= Sum(s) {
        if i > 0 { assert s[i] == s[1..][i - 1]; }
      }
    }
  }

  /** All the slots of one round. */
  function RoundLength(): int {
    Sum(FullSlots())
  }

  lemma {:induction false} SumOfDescending(n: nat, top: int)
    ensures 2 * Sum(seq(n, i => top - i)) == n * (2 * top - n + 1)
  {
    if n > 0 {
      var s := seq(n, i => top - i);
      assert s[1..] == seq((n - 1) as nat, i => top - 1 - i);
      SumOfDescending(n - 1, top - 1);
      assert (n - 1) * (2 * (top - 1) - (n - 1) + 1) == n * (2 * top - n + 1) - 2 * top;
    }
  }

  /** A round has MAX_PRIO (MAX_PRIO + 1) / 2 slots. */
  lemma RoundLengthFormula()
    ensures RoundLength() == MAX_PRIO * (MAX_PRIO + 1) / 2
  {
    SumOfDescending(MAX_PRIO, MAX_PRIO);
    assert FullSlots() == seq(MAX_PRIO, i => MAX_PRIO - i);
    assert MAX_PRIO * (2 * MAX_PRIO - MAX_PRIO + 1) == MAX_PRIO * (MAX_PRIO + 1);
  }

  /** How many fresh rounds must open before the process at position k of a level can be reached,
      when the level has `left` slots now and `share` slots in each round. */
  function RoundsNeeded(k: nat, left: int, share: Positive): nat
    requires left >= 0
  {
    if k < left then 0 else (k + 1 - left + share - 1) / share
  }

  /** One round pays for `share` positions. */
  lemma RoundPays(k: nat, share: Positive)
    ensures RoundsNeeded(k, share, share) == RoundsNeeded(k, 0, share) - 1
  {
    QuotientAfterAdding(k, share);
    if k < share {
      QuotientUnique(k, share, 0);
    }
  }

  predicate WaitsAt(s: Sched, p: Proc, i: nat, k: nat)
    requires s.Valid()
  {
    i < MAX_PRIO && k < |s.ready[i]| && s.ready[i][k] == p
  }

  /** Upper bound on the fetches until the process at position k of level i is handed out. */
  function WaitBound(s: Sched, i: nat, k: nat): int
    requires s.Valid() && i < MAX_PRIO
  {
    Sum(s.slot) + RoundLength() * RoundsNeeded(k, s.slot[i], MAX_PRIO - i)
  }

  lemma RoundLengthPositive()
    ensures RoundLength() >= 1
  {
    SumNonNegative(FullSlots());
    assert FullSlots()[0] == MAX_PRIO;
  }

  lemma SomeRoundNeeded(k: nat, left: nat, share: Positive)
    requires k >= left
    ensures RoundsNeeded(k, left, share) >= 1
  {
    QuotientAfterAdding(k - left, share);
  }

  lemma ProductPositive(a: nat, n: nat)
    requires a >= 1 && n >= 1
    ensures a * n >= 1
  {
    MulMonotone(1, n, a);
  }

  lemma WaitBoundPositive(s: Sched, i: nat, k: nat)
    requires s.Valid() && i < MAX_PRIO
    ensures WaitBound(s, i, k) >= 1
  {
    SumNonNegative(s.slot);
    RoundLengthPositive();
    var n := RoundsNeeded(k, s.slot[i], MAX_PRIO - i);
    if k < s.slot[i] {
      assert n == 0 && RoundLength() * n == 0;
    } else {
      SomeRoundNeeded(k, s.slot[i], MAX_PRIO - i);
      ProductPositive(RoundLength(), n);
    }
  }

  lemma Distribute(a: int, n: int)
    ensures a * (n - 1) == a * n - a
  {}

  /** Opening a round when the level has spent its budget never raises the bound. */
  lemma ResetKeepsBound(s: Sched, i: nat, k: nat)
    requires s.Valid() && i < MAX_PRIO && s.slot[i] == 0
    ensures Reset(s).Valid()
    ensures WaitBound(Reset(s), i, k) <= WaitBound(s, i, k)
  {
    var share := MAX_PRIO - i;
    RoundPays(k, share);
    SumNonNegative(s.slot);
    var n := RoundsNeeded(k, 0, share);
    Distribute(RoundLength(), n);
  }

  lemma TakeSpends(s: Sched, level: nat)
    requires s.Valid() && level < MAX_PRIO && Eligible(s, level)
    ensures var s' := Take(s, level).0;
            && s'.Valid() && Sum(s'.slot) == Sum(s.slot) - 1
            && forall i :: 0 <= i < MAX_PRIO ==> s'.slot[i] == if i == level then s.slot[i] - 1 else s.slot[i]
  {
    SumUpdate(s.slot, level, s.slot[level] - 1);
  }

  lemma SameRounds(k: nat, left: nat, share: Positive)
    requires k > 0 && left > 0
    ensures RoundsNeeded(k - 1, left - 1, share) == RoundsNeeded(k, left, share)
  {}

  /** A dispatch costs the bound exactly one, whichever level it served. */
  lemma TakePays(s: Sched, i: nat, k: nat, level: nat)
    requires s.Valid() && i < MAX_PRIO && level < MAX_PRIO && Eligible(s, level)
    requires level != i || k > 0
    ensures Take(s, level).0.Valid()
    ensures WaitBound(Take(s, level).0, i, if level == i then k - 1 else k) == WaitBound(s, i, k) - 1
  {
    TakeSpends(s, level);
    if level == i { SameRounds(k, s.slot[i], MAX_PRIO - i); }
  }

  /** The heart of the bound: a fetch either hands out the waiting process or brings it at least one
      call closer, resets included. */
  lemma FetchBringsCloser(s: Sched, p: Proc, i: nat, k: nat) returns (k': nat)
    requires s.Valid() && WaitsAt(s, p, i, k)
    ensures Get(s).0.Valid() && Get(s).1.Some?
    ensures Get(s).1 == Some(p) || (WaitsAt(Get(s).0, p, i, k') && WaitBound(Get(s).0, i, k') <= WaitBound(s, i, k) - 1)
  {
    GetContract(s);
    var s1 := if Resets(s) then Reset(s) else s;
    if Resets(s) {
      assert !Eligible(s, i);
      ResetKeepsBound(s, i, k);
    }
    var level := FirstEligible(s1, 0);
    k' := if level == i && k > 0 then k - 1 else k;
    if level != i || k > 0 {
      TakePays(s1, i, k, level);
    }
  }

  /** Starvation freedom with an explicit bound: whatever arrivals are interleaved, a process that
      waits is handed out within WaitBound fetches. */
  lemma {:induction false} HandedWithinBound(s: Sched, p: Proc, i: nat, k: nat, cs: seq<Call>)
    requires s.Valid() && ValidCalls(cs) && WaitsAt(s, p, i, k)
    requires Fetches(cs) >= WaitBound(s, i, k)
    ensures p in Handed(s, cs)
    decreases |cs|
  {
    WaitBoundPositive(s, i, k);
    var rest := cs[1..];
    match cs[0]
    case Arrive(q) =>
      assert WaitsAt(Step(s, cs[0]), p, i, k);
      HandedWithinBound(Step(s, cs[0]), p, i, k, rest);
    case Fetch =>
      var k' := FetchBringsCloser(s, p, i, k);
      if Get(s).1 != Some(p) {
        HandedWithinBound(Step(s, cs[0]), p, i, k', rest);
      }
  }

  // ------------------------------------------------------------------ arrival order

  /** What one call takes off the front of level i. */
  function Leaves(s: Sched, c: Call, i: nat): seq<Proc>
    requires s.Valid() && i < MAX_PRIO
  {
    var s1 := if Resets(s) then Reset(s) else s;
    if c.Fetch? && FirstEligible(s1, 0) == i then [s.ready[i][0]] else []
  }

  /** What one call adds to the back of level i; a full queue drops the newcomer. */
  function Joins(s: Sched, c: Call, i: nat): seq<Proc>
    requires s.Valid() && i < MAX_PRIO
  {
    if c.Arrive? && c.p.prio == i && |s.ready[i]| < MAX_QUEUE_SIZE then [c.p] else []
  }

  function HandedFrom(s: Sched, cs: seq<Call>, i: nat): seq<Proc>
    requires s.Valid() && ValidCalls(cs) && i < MAX_PRIO
    decreases |cs|
  {
    if cs == [] then [] else Leaves(s, cs[0], i) + HandedFrom(Step(s, cs[0]), cs[1..], i)
  }

  function AdmittedTo(s: Sched, cs: seq<Call>, i: nat): seq<Proc>
    requires s.Valid() && ValidCalls(cs) && i < MAX_PRIO
    decreases |cs|
  {
    if cs == [] then [] else Joins(s, cs[0], i) + AdmittedTo(Step(s, cs[0]), cs[1..], i)
  }

  lemma CallIsFifo(s: Sched, c: Call, i: nat)
    requires s.Valid() && ValidCall(c) && i < MAX_PRIO
    ensures Leaves(s, c, i) + Step(s, c).ready[i] == s.ready[i] + Joins(s, c, i)
  {
    if c.Fetch? && Get(s).1.Some? {
      var level := GetDispatches(s);
      if level == i {
        assert s.ready[i] == [s.ready[i][0]] + s.ready[i][1..];
      }
    }
  }

  /** Each level is a FIFO over any run: what it handed out, then what is still waiting, is what it
      held at the start followed by what was admitted, in order. */
  lemma {:induction false} LevelIsFifo(s: Sched, cs: seq<Call>, i: nat)
    requires s.Valid() && ValidCalls(cs) && i < MAX_PRIO
    ensures HandedFrom(s, cs, i) + Run(s, cs).ready[i] == s.ready[i] + AdmittedTo(s, cs, i)
    decreases |cs|
  {
    if cs != [] {
      var s', rest := Step(s, cs[0]), cs[1..];
      LevelIsFifo(s', rest, i);
      CallIsFifo(s, cs[0], i);
      Splice(Leaves(s, cs[0], i), s'.ready[i], s.ready[i], Joins(s, cs[0], i),
             HandedFrom(s', rest, i), Run(s', rest).ready[i], AdmittedTo(s', rest, i));
    }
  }

  // ------------------------------------------------------------------ weighted share

  /** No fetch of the run opens a new round. */
  predicate WithinRound(s: Sched, cs: seq<Call>)
    requires s.Valid() && ValidCalls(cs)
    decreases |cs|
  {
    cs == [] || ((cs[0].Fetch? ==> !Resets(s)) && WithinRound(Step(s, cs[0]), cs[1..]))
  }

  /** Dispatches from level i during a run. */
  function Served(s: Sched, cs: seq<Call>, i: nat): nat
    requires s.Valid() && ValidCalls(cs) && i < MAX_PRIO
  {
    |HandedFrom(s, cs, i)|
  }

  lemma {:induction false} ServedSpendsSlots(s: Sched, cs: seq<Call>, i: nat)
    requires s.Valid() && ValidCalls(cs) && i < MAX_PRIO && WithinRound(s, cs)
    ensures Served(s, cs, i) == s.slot[i] - Run(s, cs).slot[i]
    decreases |cs|
  {
    if cs != [] {
      ServedSpendsSlots(Step(s, cs[0]), cs[1..], i);
    }
  }

  /** The run is one round so far: its first fetch resets, or it starts with untouched budgets, and no later
      fetch resets. */
  predicate OneRound(s: Sched, cs: seq<Call>)
    requires s.Valid() && ValidCalls(cs)
  {
    || (cs != [] && cs[0].Fetch? && Resets(s) && WithinRound(Step(s, cs[0]), cs[1..]))
    || (s.slot == FullSlots() && WithinRound(s, cs))
  }

  lemma RoundSpends(s: Sched, cs: seq<Call>, i: nat)
    requires s.Valid() && ValidCalls(cs) && i < MAX_PRIO && OneRound(s, cs)
    ensures Served(s, cs, i) == MAX_PRIO - i - Run(s, cs).slot[i]
  {
    if s.slot == FullSlots() && WithinRound(s, cs) {
      ServedSpendsSlots(s, cs, i);
    } else {
      ServedSpendsSlots(Step(s, cs[0]), cs[1..], i);
    }
  }

  /** From the fetch that opens a round to the fetch that opens the next, level i is served at most
      MAX_PRIO - i times, and exactly that often if it still has work when the next round opens. */
  lemma WeightedShare(s: Sched, cs: seq<Call>, i: nat)
    requires s.Valid() && ValidCalls(cs) && i < MAX_PRIO && OneRound(s, cs)
    ensures Served(s, cs, i) <= MAX_PRIO - i
    ensures Resets(Run(s, cs)) && Run(s, cs).ready[i] != [] ==> Served(s, cs, i) == MAX_PRIO - i
  {
    RoundSpends(s, cs, i);
    if Resets(Run(s, cs)) {
      assert !Eligible(Run(s, cs), i);
    }
  }

  /** The very first round is no exception: from the state init_scheduler leaves, until the first reset. */
  lemma FirstRoundShare(cs: seq<Call>, i: nat)
    requires ValidCalls(cs) && i < MAX_PRIO && WithinRound(Init(), cs)
    ensures Served(Init(), cs, i) <= MAX_PRIO - i
    ensures Resets(Run(Init(), cs)) && Run(Init(), cs).ready[i] != [] ==> Served(Init(), cs, i) == MAX_PRIO - i
  {
    WeightedShare(Init(), cs, i);
  }
}
