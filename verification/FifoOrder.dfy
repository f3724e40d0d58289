/** The order in which pages become victims: the FIFO list of a process, from its tail on, is a queue. New pages
    join it in address order and accessed pages in the order of the accesses (enlist_pgn_node in src/mm.c and
    find_victim_page in src/libmem.c). */
module FifoOrder {
  import opened Common
  import opened MemPhy
  import opened Heap
  import opened Paging
  import opened VirtualMemory
  import SharedMemory
  import Refinement

  function Reversed(l: seq<nat>): seq<nat> {
    if l == [] then [] else Reversed(l[1..]) + [l[0]]
  }

  lemma {:induction false} ReversedConcat(l: seq<nat>, m: seq<nat>)
    ensures Reversed(l + m) == Reversed(m) + Reversed(l)
  {
    if l == [] {
      assert l + m == m;
    } else {
      assert (l + m)[1..] == l[1..] + m;
      ReversedConcat(l[1..], m);
    }
  }

  lemma ReversedOne(pgn: nat)
    ensures Reversed([pgn]) == [pgn]
  {}

  lemma ReversedTail(l: seq<nat>)
    requires l != []
    ensures Reversed(l) == [l[|l| - 1]] + Reversed(l[..|l| - 1])
  {
    var init, last := l[..|l| - 1], [l[|l| - 1]];
    assert l == init + last;
    ReversedConcat(init, last);
    ReversedOne(l[|l| - 1]);
  }

  lemma ReversedPush(l: seq<nat>, pgn: nat)
    ensures Reversed([pgn] + l) == Reversed(l) + [pgn]
  {}

  /** The n pages from page `pgn` on. */
  function PagesFrom(pgn: nat, n: nat): seq<nat> {
    seq(n, i requires 0 <= i < n => pgn + i)
  }

  lemma {:induction false} GrowthListsAscending(pgn: nat, n: nat)
    ensures Reversed(Descending(pgn, n)) == PagesFrom(pgn, n)
  {
    if n > 0 {
      assert Descending(pgn, n)[1..] == Descending(pgn, n - 1);
      GrowthListsAscending(pgn, n - 1);
      assert PagesFrom(pgn, n) == PagesFrom(pgn, n - 1) + [pgn + n - 1];
    }
  }

  // ------------------------------------------------------------------ with a swap device

  /** The access an event makes, whether its test finds the page in place, and its process. */
  function AccessOf(e: Event): Option<Access> {
    match e
    case Touch(a) => Some(a)
    case Call(a) => Some(a)
    case _ => None
  }

  predicate InPlace(w: World, e: Event)
    requires Enabled(w, e) && AccessOf(e).Some?
  {
    var a := AccessOf(e).value;
    var entry := w.procs[a.p].pgd[a.pgn];
    entry.InRam? || (e.Call? && entry.Swapped?)
  }

  /** The pages of process p an event takes off the list: the one at the tail, on a page fault. */
  function Leaving(w: World, e: Event, p: nat): seq<nat>
    requires Enabled(w, e) && p < |w.procs|
  {
    var fifo := w.procs[p].fifo;
    if AccessOf(e).Some? && AccessOf(e).value.p == p && !InPlace(w, e) then [fifo[|fifo| - 1]] else []
  }

  /** The pages of process p an event lists: the new ones of a growth in address order, and the accessed one of
      every access that does not fail. */
  function Joining(w: World, e: Event, p: nat): seq<nat>
    requires Enabled(w, e) && p < |w.procs|
  {
    match e
    case Growth(q, n) => if q == p && n <= |w.ram.free| then PagesFrom(w.procs[p].vmEnd / PAGE_SIZE, n) else []
    case _ =>
      if AccessOf(e).Some? && AccessOf(e).value.p == p && (InPlace(w, e) || w.swp.free != [])
      then [AccessOf(e).value.pgn] else []
  }

  lemma GrowthIsFifo(w: World, p: nat, n: nat)
    requires CanGrow(w, p, n)
    ensures Reversed(Grown(w, p, n).procs[p].fifo) ==
            Reversed(w.procs[p].fifo) + PagesFrom(w.procs[p].vmEnd / PAGE_SIZE, n)
  {
    var pgn := w.procs[p].vmEnd / PAGE_SIZE;
    ReversedConcat(Descending(pgn, n), w.procs[p].fifo);
    GrowthListsAscending(pgn, n);
  }

  lemma PopThenPush(fifo: seq<nat>, pgn: nat)
    requires fifo != []
    ensures var popped := fifo[..|fifo| - 1];
            && [fifo[|fifo| - 1]] + Reversed(popped) == Reversed(fifo)
            && [fifo[|fifo| - 1]] + Reversed([pgn] + popped) == Reversed(fifo) + [pgn]
  {
    var popped, last := fifo[..|fifo| - 1], [fifo[|fifo| - 1]];
    ReversedTail(fifo);
    ReversedPush(popped, pgn);
    assert last + (Reversed(popped) + [pgn]) == (last + Reversed(popped)) + [pgn];
  }

  /** The list of the caller after one call of pg_getpage, and that of any other process. */
  lemma ListAfterAccess(w: World, a: Access, resident: bool, p: nat)
    requires Coherent(w) && Named(w, a) && Exchangeable(w, a, resident) && (EntryOf(w, a).InRam? ==> resident)
    requires p < |w.procs|
    ensures var fifo, w' := w.procs[p].fifo, AfterGetPage(w, a, resident);
            && p < |w'.procs| && (a.p == p && !resident ==> fifo != [])
            && w'.procs[p].fifo ==
                 if a.p != p then fifo
                 else if resident then [a.pgn] + fifo
                 else if w.swp.free == [] then fifo[..|fifo| - 1]
                 else [a.pgn] + fifo[..|fifo| - 1]
  {}

  lemma AccessIsFifo(w: World, a: Access, resident: bool, p: nat)
    requires Coherent(w) && Named(w, a) && Exchangeable(w, a, resident) && (EntryOf(w, a).InRam? ==> resident)
    requires p < |w.procs|
    ensures var fifo, w' := w.procs[p].fifo, AfterGetPage(w, a, resident);
            && p < |w'.procs| && (a.p == p && !resident ==> fifo != [])
            && (if a.p == p && !resident then [fifo[|fifo| - 1]] else []) + Reversed(w'.procs[p].fifo) ==
               Reversed(fifo) + (if a.p == p && (resident || w.swp.free != []) then [a.pgn] else [])
  {
    ListAfterAccess(w, a, resident, p);
    var fifo := w.procs[p].fifo;
    if a.p == p {
      if resident { ReversedPush(fifo, a.pgn); } else { PopThenPush(fifo, a.pgn); }
    }
  }

  lemma NextIsFifo(w: World, e: Event, p: nat)
    requires Coherent(w) && Enabled(w, e) && p < |w.procs|
    ensures p < |Next(w, e).procs|
    ensures Leaving(w, e, p) + Reversed(Next(w, e).procs[p].fifo) == Reversed(w.procs[p].fifo) + Joining(w, e, p)
  {
    match e
    case Load =>
    case Growth(q, n) => if n <= |w.ram.free| && q == p { GrowthIsFifo(w, p, n); }
    case Touch(a) => AccessIsFifo(w, a, EntryOf(w, a).InRam?, p);
    case Call(a) => AccessIsFifo(w, a, Present(EntryOf(w, a)), p);
    case Store(q, pgn, off, b) =>
  }

  function AllLeaving(w: World, es: seq<Event>, p: nat): seq<nat>
    requires Coherent(w) && Accounted(w) && Runs(w, es) && p < |w.procs|
    decreases |es|
  {
    if es == [] then []
    else
      NextOwned(w, es[0]); NextIsFifo(w, es[0], p);
      Leaving(w, es[0], p) + AllLeaving(Next(w, es[0]), es[1..], p)
  }

  function AllJoining(w: World, es: seq<Event>, p: nat): seq<nat>
    requires Coherent(w) && Accounted(w) && Runs(w, es) && p < |w.procs|
    decreases |es|
  {
    if es == [] then []
    else
      NextOwned(w, es[0]); NextIsFifo(w, es[0], p);
      Joining(w, es[0], p) + AllJoining(Next(w, es[0]), es[1..], p)
  }

  /** Victims are taken in arrival order: over any run the pages a process lost from its list, then those still
      on it from the tail on, are those it had on it followed by the pages listed since, in order. */
  lemma {:induction false} VictimsInArrivalOrder(w: World, es: seq<Event>, p: nat)
    requires Owned(w) && Runs(w, es) && p < |w.procs|
    ensures p < |After(w, es).procs|
    ensures AllLeaving(w, es, p) + Reversed(After(w, es).procs[p].fifo) ==
            Reversed(w.procs[p].fifo) + AllJoining(w, es, p)
    decreases |es|
  {
    if es != [] {
      var w', rest := Next(w, es[0]), es[1..];
      NextOwned(w, es[0]);
      NextIsFifo(w, es[0], p);
      VictimsInArrivalOrder(w', rest, p);
      Splice(Leaving(w, es[0], p), Reversed(w'.procs[p].fifo), Reversed(w.procs[p].fifo), Joining(w, es[0], p),
             AllLeaving(w', rest, p), Reversed(After(w', rest).procs[p].fifo), AllJoining(w', rest, p));
    }
  }

  /** The page taken off the list is the page that goes out: it was in RAM and is on swap afterwards, and every
      other page of every process that was in RAM still is. */
  lemma LeavingGoesOut(w: World, e: Event, q: nat, j: nat)
    requires Coherent(w) && Enabled(w, e) && AccessOf(e).Some? && !InPlace(w, e) && w.swp.free != []
    requires IsPage(w, q, j) && w.procs[q].pgd[j].InRam?
    ensures IsPage(Next(w, e), q, j)
    ensures Next(w, e).procs[q].pgd[j].InRam? <==> !(q == AccessOf(e).value.p && Leaving(w, e, q) == [j])
    ensures !Next(w, e).procs[q].pgd[j].InRam? ==> Next(w, e).procs[q].pgd[j].Swapped?
  {
    var a := AccessOf(e).value;
    FaultPossible(w, a.p, a.pgn);
    EntryAfterFault(w, a.p, a.pgn, a.typ, a.bits, q, j);
  }

  // ------------------------------------------------------------------ in-bounds calls

  /** The pages the break has passed, in address order. */
  function Passed(before: Mm, after: Mm): seq<nat> {
    var from, to := before.vmEnd / PAGE_SIZE, after.vmEnd / PAGE_SIZE;
    PagesFrom(from, if from <= to then to - from else 0)
  }

  /** The pages of process p an in-bounds call from s to s' lists: those the break has passed, and the page of
      the address read or written. */
  function Listing(s: SharedMemory.Sys, op: SharedMemory.Op, s': SharedMemory.Sys, p: nat): seq<nat>
    requires SharedMemory.ValidOp(s, op)
  {
    match op
    case Load => []
    case FreeOp(q, rgid) => []
    case AllocOp(q, rgid, size) =>
      if q == p && p < |s'.procs| then Passed(s.procs[p], s'.procs[p]) else []
    case ReadOp(q, rgid, off) => if q == p then [(s.procs[p].symtbl[rgid].start + off) / PAGE_SIZE] else []
    case WriteOp(q, rgid, off, b) => if q == p then [(s.procs[p].symtbl[rgid].start + off) / PAGE_SIZE] else []
  }

  lemma GrowLists(mm: Mm, pool: seq<nat>, n: nat)
    requires n <= |pool| && Grow(mm, pool, n).vmEnd / PAGE_SIZE == mm.vmEnd / PAGE_SIZE + n
    ensures Reversed(Grow(mm, pool, n).fifo) == Reversed(mm.fifo) + Passed(mm, Grow(mm, pool, n))
  {
    var pgn := mm.vmEnd / PAGE_SIZE;
    ReversedConcat(Descending(pgn, n), mm.fifo);
    GrowthListsAscending(pgn, n);
  }

  lemma AllocLists(s: SharedMemory.Sys, q: nat, rgid: nat, size: nat)
    requires SharedMemory.SysOk(s) && SharedMemory.ValidOp(s, SharedMemory.AllocOp(q, rgid, size))
    ensures var op := SharedMemory.AllocOp(q, rgid, size);
            var s' := SharedMemory.Step(s, op).0;
            Reversed(s'.procs[q].fifo) == Reversed(s.procs[q].fifo) + Passed(s.procs[q], s'.procs[q])
  {
    var mm, n := s.procs[q], PagesFor(size);
    if SharedMemory.Step(s, SharedMemory.AllocOp(q, rgid, size)).0.procs[q].vmEnd == mm.vmEnd {
      AllocKeepsList(mm, s.pool, rgid, size);
    } else {
      SharedMemory.GrowResident(s, q, n);
      GrowLists(mm, s.pool, n);
    }
  }

  /** An allocation that leaves the break where it was lists no page. */
  lemma AllocKeepsList(mm: Mm, pool: seq<nat>, rgid: nat, size: nat)
    requires rgid < |mm.symtbl| && Alloc(mm, pool, rgid, size).mm.vmEnd == mm.vmEnd
    ensures Alloc(mm, pool, rgid, size).mm.fifo == mm.fifo
  {
    var n := PagesFor(size);
    if n > 0 { Positives(n); }
  }

  lemma Positives(n: nat)
    requires n > 0
    ensures n * PAGE_SIZE > 0
  {}

  lemma TouchLists(s: SharedMemory.Sys, s': SharedMemory.Sys, q: nat, a: nat, p: nat)
    requires p < |s.procs| && q < |s.procs| && s'.procs == s.procs[q := SharedMemory.Touched(s.procs[q], a)]
    ensures Reversed(s'.procs[p].fifo) == Reversed(s.procs[p].fifo) + if q == p then [a / PAGE_SIZE] else []
  {
    ReversedPush(s.procs[q].fifo, a / PAGE_SIZE);
  }

  /** One in-bounds call: the pages it lists come last, and none leaves. */
  lemma StepLists(s: SharedMemory.Sys, op: SharedMemory.Op, p: nat)
    requires SharedMemory.SysOk(s) && SharedMemory.ValidOp(s, op) && p < |s.procs|
    ensures var s' := SharedMemory.Step(s, op).0;
            p < |s'.procs| && Reversed(s'.procs[p].fifo) == Reversed(s.procs[p].fifo) + Listing(s, op, s', p)
  {
    match op
    case Load =>
    case FreeOp(q, rgid) =>
    case AllocOp(q, rgid, size) => if q == p { AllocLists(s, q, rgid, size); }
    case ReadOp(q, rgid, off) =>
      TouchLists(s, SharedMemory.Step(s, op).0, q, s.procs[q].symtbl[rgid].start + off, p);
    case WriteOp(q, rgid, off, b) =>
      TouchLists(s, SharedMemory.Step(s, op).0, q, s.procs[q].symtbl[rgid].start + off, p);
  }

  lemma NewcomerLists(s: SharedMemory.Sys, op: SharedMemory.Op, p: nat)
    requires SharedMemory.SysOk(s) && SharedMemory.ValidOp(s, op) && p >= |s.procs|
    ensures var s' := SharedMemory.Step(s, op).0;
            Listing(s, op, s', p) == [] && (p < |s'.procs| ==> s'.procs[p].fifo == [])
  {}

  ghost function Listed(frames: nat, ops: seq<SharedMemory.Op>, p: nat): seq<nat>
    requires frames <= MAX_PGN && Refinement.ValidRun(frames, ops)
    decreases |ops|
  {
    if ops == [] then []
    else
      var pre := ops[..|ops| - 1];
      Listed(frames, pre, p) +
      Listing(Refinement.After(frames, pre), ops[|ops| - 1], Refinement.After(frames, ops), p)
  }

  /** From power-on, over any run of in-bounds calls, the list from its tail on is exactly the pages listed, in
      order: the first victim would be the page listed first. */
  lemma {:induction false} ListIsArrivalOrder(frames: nat, ops: seq<SharedMemory.Op>, p: nat)
    requires frames <= MAX_PGN && Refinement.ValidRun(frames, ops)
    ensures var s := Refinement.After(frames, ops);
            Listed(frames, ops, p) == if p < |s.procs| then Reversed(s.procs[p].fifo) else []
    decreases |ops|
  {
    if ops != [] {
      var pre, op := ops[..|ops| - 1], ops[|ops| - 1];
      var s := Refinement.After(frames, pre);
      ListIsArrivalOrder(frames, pre, p);
      if p < |s.procs| { StepLists(s, op, p); } else { NewcomerLists(s, op, p); }
    }
  }
}
