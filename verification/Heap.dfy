/** The heap of one process as a value: what allocation, growth and free do to its region table, free
    list, page table and break, and to the shared pool of RAM frames (src/libmem.c, src/mm.c,
    src/mm-vm.c). The class in `ProcessMemory` is proved to compute exactly these functions. */
module Heap {
  import opened Common
  import opened Arith
  import opened Regions
  import opened MemPhy

  /** The largest region id get_symrg_byid and __free accept; the table has an entry for each. */
  const SYMTBL_MAX: nat
  const MAX_PGN: Positive

  /** A page table entry. `fpnBits` is what the frame field of a swapped entry reads as. */
  datatype Pte = Unmapped | InRam(fpn: nat) | Swapped(typ: nat, off: nat, fpnBits: nat)

  /** A process's memory descriptor with its only area: `vmEnd` and `sbrk` are that area's. */
  datatype Mm = Mm(symtbl: seq<Region>, free: seq<Region>, pgd: seq<Pte>, fifo: seq<nat>, vmEnd: nat, sbrk: nat)

  predicate ValidId(rgid: int) {
    0 <= rgid <= SYMTBL_MAX
  }

  function InitMm(): Mm {
    Mm(seq(SYMTBL_MAX + 1, _ => Region(0, 0)), [], seq(MAX_PGN, _ => Unmapped), [], 0, 0)
  }

  /** Pages that hold `size` bytes. */
  function PagesFor(size: nat): nat {
    (size + PAGE_SIZE - 1) / PAGE_SIZE
  }

  /** The break moves by the least whole number of pages that holds the request. */
  lemma PagesForIsLeast(size: nat)
    ensures size <= PagesFor(size) * PAGE_SIZE < size + PAGE_SIZE
    ensures forall n: nat :: size <= n * PAGE_SIZE ==> PagesFor(size) <= n
  {
    var n := PagesFor(size);
    assert n * PAGE_SIZE + (size + PAGE_SIZE - 1) % PAGE_SIZE == size + PAGE_SIZE - 1;
    forall m: nat | size <= m * PAGE_SIZE ensures n <= m {
      if m < n { MulMonotone(m + 1, n, PAGE_SIZE); }
    }
  }

  /** Rounding up a whole number of pages changes nothing. */
  lemma WholePages(size: nat)
    requires size % PAGE_SIZE == 0
    ensures PagesFor(size) * PAGE_SIZE == size
  {
    var n := size / PAGE_SIZE;
    assert size == n * PAGE_SIZE + size % PAGE_SIZE;
    QuotientUnique(size + PAGE_SIZE - 1, PAGE_SIZE, n);
  }

  // ------------------------------------------------------------------ growth

  /** The first n frames of the pool in the order alloc_pages_range hands them on: last taken, first. */
  function Taken(pool: seq<nat>, n: nat): seq<nat>
    requires n <= |pool|
  {
    seq(n, i requires 0 <= i < n => pool[n - 1 - i])
  }

  /** Pages pgn, pgn + 1, ... mapped to the frames of the list. */
  function Mapped(pgd: seq<Pte>, pgn: nat, frames: seq<nat>): seq<Pte> {
    seq(|pgd|, j requires 0 <= j < |pgd| => if pgn <= j < pgn + |frames| then InRam(frames[j - pgn]) else pgd[j])
  }

  /** The page numbers pgn .. pgn + n - 1, the last one at the head. */
  function Descending(pgn: nat, n: nat): seq<nat> {
    seq(n, i requires 0 <= i < n => pgn + n - 1 - i)
  }

  /** inc_vma_limit by n pages, when the pool has them. */
  function Grow(mm: Mm, pool: seq<nat>, n: nat): Mm
    requires n <= |pool|
  {
    var pgn := mm.vmEnd / PAGE_SIZE;
    mm.(pgd := Mapped(mm.pgd, pgn, Taken(pool, n)), fifo := Descending(pgn, n) + mm.fifo,
        vmEnd := mm.vmEnd + n * PAGE_SIZE, sbrk := mm.vmEnd + n * PAGE_SIZE)
  }

  /** The frames come off the head of the pool, and the last one taken goes to the first new page. */
  lemma GrowthFrames(mm: Mm, pool: seq<nat>, n: nat, j: nat)
    requires n <= |pool| && mm.vmEnd / PAGE_SIZE + n <= |mm.pgd| && j < |mm.pgd|
    ensures |Grow(mm, pool, n).pgd| == |mm.pgd|
    ensures var pgn := mm.vmEnd / PAGE_SIZE;
            Grow(mm, pool, n).pgd[j] ==
              if j < pgn || pgn + n <= j then mm.pgd[j] else InRam(pool[pgn + n - 1 - j])
  {}

  // ------------------------------------------------------------------ __alloc and __free

  datatype Outcome = Outcome(ok: bool, mm: Mm, pool: seq<nat>)

  /** Allocation inside a free region. */
  function Place(mm: Mm, i: nat, rgid: nat, size: nat): Mm
    requires i < |mm.free| && rgid < |mm.symtbl|
  {
    var start := mm.free[i].start;
    mm.(symtbl := mm.symtbl[rgid := Region(start, start + size)], free := Carve(mm.free, i, size))
  }

  /** Allocation at the break, after growing; the slack becomes free. */
  function PlaceAtBreak(mm: Mm, pool: seq<nat>, rgid: nat, size: nat): Mm
    requires PagesFor(size) <= |pool| && rgid < |mm.symtbl|
  {
    var g := Grow(mm, pool, PagesFor(size));
    var end := mm.sbrk + size;
    g.(symtbl := mm.symtbl[rgid := Region(mm.sbrk, end)], free := Enlisted(mm.free, Region(end, g.sbrk)))
  }

  /** __alloc: first fit in the free list, else grow, else fail with nothing changed. */
  function Alloc(mm: Mm, pool: seq<nat>, rgid: nat, size: nat): Outcome
    requires rgid < |mm.symtbl|
  {
    var i := FirstFit(mm.free, size);
    if i < |mm.free| then Outcome(true, Place(mm, i, rgid, size), pool)
    else if PagesFor(size) <= |pool| then
      Outcome(true, PlaceAtBreak(mm, pool, rgid, size), pool[PagesFor(size)..])
    else Outcome(false, mm, pool)
  }

  /** __free: the slot is cleared unless there was nothing to give back. */
  function Free(mm: Mm, rgid: nat): (r: (bool, Mm))
    requires rgid < |mm.symtbl|
  {
    var g := Absorb(mm.free, mm.symtbl[rgid]).1;
    var mm' := mm.(free := Freed(mm.free, mm.symtbl[rgid]));
    if g.start >= g.end then (false, mm') else (true, mm'.(symtbl := mm.symtbl[rgid := Region(0, 0)]))
  }

  // ------------------------------------------------------------------ the heap invariant

  /** The break is page-aligned, every page below it is in RAM and none above it is mapped. */
  predicate Resident(mm: Mm) {
    && |mm.pgd| == MAX_PGN && mm.sbrk == mm.vmEnd
    && mm.vmEnd == (mm.vmEnd / PAGE_SIZE) * PAGE_SIZE && mm.vmEnd / PAGE_SIZE <= MAX_PGN
    && (forall j :: 0 <= j < mm.vmEnd / PAGE_SIZE ==> mm.pgd[j].InRam?)
    && (forall j :: mm.vmEnd / PAGE_SIZE <= j < MAX_PGN ==> mm.pgd[j] == Unmapped)
  }

  /** Who owns address a: a live region, a free one, or one lost by allocating over its slot. */
  function Owners(mm: Mm, lost: seq<Region>, a: nat): nat {
    Count(mm.symtbl, a) + Count(mm.free, a) + Count(lost, a)
  }

  /** Live, free and lost regions are pairwise disjoint and together cover exactly [0, sbrk). */
  ghost predicate Partition(mm: Mm, lost: seq<Region>) {
    forall a: nat :: Owners(mm, lost, a) == if a < mm.sbrk then 1 else 0
  }

  /** `lost` is a history variable: the regions whose slot was overwritten while they were live. */
  ghost predicate HeapOk(mm: Mm, lost: seq<Region>) {
    && |mm.symtbl| == SYMTBL_MAX + 1 && WellFormed(mm.symtbl)
    && Canonical(mm.free)
    && Partition(mm, lost)
    && (forall i :: 0 <= i < |mm.free| ==> mm.free[i].end <= mm.sbrk)
  }

  lemma {:induction false} CountEmptySlots(n: nat, a: nat)
    ensures Count(seq(n, _ => Region(0, 0)), a) == 0
  {
    if n > 0 {
      assert seq(n, _ => Region(0, 0))[1..] == seq((n - 1) as nat, _ => Region(0, 0));
      CountEmptySlots(n - 1, a);
    }
  }

  /** A new process owns nothing: every slot is empty, no page is mapped or listed, and the break is 0. */
  lemma InitHeapOk()
    ensures HeapOk(InitMm(), []) && Resident(InitMm())
    ensures var mm := InitMm();
            && mm.sbrk == 0 && mm.free == [] && mm.fifo == []
            && (forall r :: 0 <= r <= SYMTBL_MAX ==> mm.symtbl[r] == Region(0, 0))
            && (forall j :: 0 <= j < MAX_PGN ==> mm.pgd[j] == Unmapped)
  {
    forall a: nat ensures Owners(InitMm(), [], a) == 0 { CountEmptySlots(SYMTBL_MAX + 1, a); }
    QuotientUnique(0, PAGE_SIZE, 0);
  }

  /** The region a successful allocation hands out. */
  function NewRegion(mm: Mm, size: nat): Region {
    var i := FirstFit(mm.free, size);
    var start := if i < |mm.free| then mm.free[i].start else mm.sbrk;
    Region(start, start + size)
  }

  lemma PlaceHeapOk(mm: Mm, lost: seq<Region>, i: nat, rgid: nat, size: nat)
    requires HeapOk(mm, lost) && rgid < |mm.symtbl| && i < |mm.free| && mm.free[i].start + size <= mm.free[i].end
    ensures HeapOk(Place(mm, i, rgid, size), lost + [mm.symtbl[rgid]])
  {
    var mm', lost' := Place(mm, i, rgid, size), lost + [mm.symtbl[rgid]];
    CarveCanonical(mm.free, i, size);
    forall a: nat ensures Owners(mm', lost', a) == Owners(mm, lost, a) {
      CarveCount(mm.free, i, size, a);
      CountUpdate(mm.symtbl, rgid, mm'.symtbl[rgid], a);
      CountConcat(lost, [mm.symtbl[rgid]], a);
    }
    FreeBelowBreak(mm', lost');
  }

  /** Free regions end at or below the break, because only addresses below it have an owner. */
  lemma FreeBelowBreak(mm: Mm, lost: seq<Region>)
    requires Canonical(mm.free) && Partition(mm, lost)
    ensures forall i :: 0 <= i < |mm.free| ==> mm.free[i].end <= mm.sbrk
  {
    forall i | 0 <= i < |mm.free| ensures mm.free[i].end <= mm.sbrk {
      var a := mm.free[i].end - 1;
      CountMember(mm.free, i, a);
      assert Owners(mm, lost, a) >= 1;
    }
  }

  lemma PlaceAtBreakHeapOk(mm: Mm, lost: seq<Region>, pool: seq<nat>, rgid: nat, size: nat)
    requires HeapOk(mm, lost) && rgid < |mm.symtbl| && PagesFor(size) <= |pool| && mm.sbrk == mm.vmEnd
    requires size == 0 ==> mm.free == []
    ensures HeapOk(PlaceAtBreak(mm, pool, rgid, size), lost + [mm.symtbl[rgid]])
  {
    var mm', lost' := PlaceAtBreak(mm, pool, rgid, size), lost + [mm.symtbl[rgid]];
    var slack := Region(mm.sbrk + size, mm'.sbrk);
    PagesForIsLeast(size);
    if slack.start < slack.end {
      assert size > 0 by {
        if size == 0 { QuotientUnique(PAGE_SIZE - 1, PAGE_SIZE, 0); }
      }
      InsertCanonical(mm.free, slack);
    }
    forall a: nat ensures Owners(mm', lost', a) == if a < mm'.sbrk then 1 else 0 {
      EnlistedCount(mm.free, slack, a);
      CountUpdate(mm.symtbl, rgid, mm'.symtbl[rgid], a);
      CountConcat(lost, [mm.symtbl[rgid]], a);
      assert Owners(mm, lost, a) == if a < mm.sbrk then 1 else 0;
    }
    FreeBelowBreak(mm', lost');
  }

  /** Allocation keeps the heap invariant; the region that lived in the slot, if any, is lost. */
  lemma AllocHeapOk(mm: Mm, lost: seq<Region>, pool: seq<nat>, rgid: nat, size: nat)
    requires HeapOk(mm, lost) && rgid < |mm.symtbl| && mm.sbrk == mm.vmEnd
    ensures var o := Alloc(mm, pool, rgid, size);
            && HeapOk(o.mm, if o.ok then lost + [mm.symtbl[rgid]] else lost)
            && (o.ok ==> o.mm.symtbl == mm.symtbl[rgid := NewRegion(mm, size)])
  {
    var i := FirstFit(mm.free, size);
    assert mm.free != [] ==> mm.free[0].end - mm.free[0].start >= 0;
    if i < |mm.free| {
      PlaceHeapOk(mm, lost, i, rgid, size);
    } else if PagesFor(size) <= |pool| {
      PlaceAtBreakHeapOk(mm, lost, pool, rgid, size);
    }
  }

  /** Two entries of the table that both hold bytes share none of them. */
  lemma LiveDisjoint(mm: Mm, lost: seq<Region>, i: nat, j: nat, a: nat)
    requires HeapOk(mm, lost) && i < |mm.symtbl| && j < |mm.symtbl| && i != j && In(mm.symtbl[i], a)
    ensures !In(mm.symtbl[j], a) && a < mm.sbrk
  {
    assert Owners(mm, lost, a) <= 1;
    CountMember(mm.symtbl, i, a);
    if In(mm.symtbl[j], a) { CountTwo(mm.symtbl, i, j, a); }
  }

  lemma LiveBelowBreak(mm: Mm, lost: seq<Region>, i: nat, a: nat)
    requires HeapOk(mm, lost) && i < |mm.symtbl| && In(mm.symtbl[i], a)
    ensures a < mm.sbrk && Count(mm.free, a) == 0 && Count(lost, a) == 0
  {
    CountMember(mm.symtbl, i, a);
    assert Owners(mm, lost, a) <= 1;
  }

  lemma LiveApartFromFree(mm: Mm, lost: seq<Region>, rgid: nat)
    requires HeapOk(mm, lost) && rgid < |mm.symtbl| && mm.symtbl[rgid].start < mm.symtbl[rgid].end
    ensures Disjoint(mm.free, mm.symtbl[rgid])
  {
    var r := mm.symtbl[rgid];
    forall a: nat ensures Count(mm.free, a) + One(r, a) <= 1 {
      CanonicalCountsOnce(mm.free, a);
      if In(r, a) { LiveBelowBreak(mm, lost, rgid, a); }
    }
    DisjointFromCount(mm.free, r);
  }

  /** Free keeps the heap invariant and the free list canonical; it moves the bytes of one live region to
      the free list, and clears the slot whenever the region had any. */
  lemma FreeHeapOk(mm: Mm, lost: seq<Region>, rgid: nat)
    requires HeapOk(mm, lost) && rgid < |mm.symtbl|
    ensures var (ok, mm') := Free(mm, rgid);
            && HeapOk(mm', lost) && mm'.sbrk == mm.sbrk
            && (mm.symtbl[rgid].start < mm.symtbl[rgid].end ==> ok)
            && (mm.symtbl[rgid].start == mm.symtbl[rgid].end ==> mm'.free == mm.free)
            && (ok ==> mm'.symtbl == mm.symtbl[rgid := Region(0, 0)])
            && (!ok ==> mm' == mm)
  {
    var r := mm.symtbl[rgid];
    var (ok, mm') := Free(mm, rgid);
    if r.start == r.end {
      FreeingNothing(mm.free, r.start);
      assert mm'.free == mm.free;
    } else {
      LiveApartFromFree(mm, lost, rgid);
      FreedCanonical(mm.free, r);
      AbsorbReach(mm.free, r);
    }
    forall a: nat ensures Owners(mm', lost, a) == Owners(mm, lost, a) {
      FreedCount(mm.free, r, a);
      CountUpdate(mm.symtbl, rgid, Region(0, 0), a);
    }
    FreeBelowBreak(mm', lost);
  }

  /** Free succeeds if and only if the slot holds bytes, or is empty beside a free region: then the walk swallows
      the neighbour and links it in again. */
  lemma FreeSucceedsExactlyWhen(mm: Mm, lost: seq<Region>, rgid: nat)
    requires HeapOk(mm, lost) && rgid < |mm.symtbl|
    ensures var r := mm.symtbl[rgid];
            Free(mm, rgid).0 <==>
              r.start < r.end || exists x :: x in mm.free && (x.end == r.start || x.start == r.start)
  {
    var r := mm.symtbl[rgid];
    AbsorbYields(mm.free, r);
    if r.start == r.end {
      assert forall x :: Touches(x, r) <==> x.end == r.start || x.start == r.start;
    }
  }

  /** Allocating into an empty slot and freeing it again restores the region table and the free list
      exactly, when the allocation was served from the free list. */
  lemma AllocThenFree(mm: Mm, lost: seq<Region>, pool: seq<nat>, rgid: nat, size: nat)
    requires HeapOk(mm, lost) && rgid < |mm.symtbl| && mm.symtbl[rgid] == Region(0, 0)
    requires size > 0 && FirstFit(mm.free, size) < |mm.free|
    ensures var o := Alloc(mm, pool, rgid, size); o.ok && o.pool == pool && Free(o.mm, rgid) == (true, mm)
  {
    var i := FirstFit(mm.free, size);
    var m := Place(mm, i, rgid, size);
    CarveThenFree(mm.free, i, size);
    PlaceHeapOk(mm, lost, i, rgid, size);
    FreeHeapOk(m, lost + [mm.symtbl[rgid]], rgid);
    assert m.symtbl[rgid := Region(0, 0)] == mm.symtbl;
  }

  /** The break moves only when no free region is large enough, and then by the least whole number of
      pages; otherwise the lowest-addressed region that fits is used. */
  lemma GrowthIsMinimal(mm: Mm, lost: seq<Region>, pool: seq<nat>, rgid: nat, size: nat)
    requires HeapOk(mm, lost) && rgid < |mm.symtbl| && mm.sbrk == mm.vmEnd && Alloc(mm, pool, rgid, size).ok
    ensures var o := Alloc(mm, pool, rgid, size);
            if exists i :: 0 <= i < |mm.free| && mm.free[i].end - mm.free[i].start >= size then
              && o.mm.sbrk == mm.sbrk && o.pool == pool
              && (exists i :: 0 <= i < |mm.free| && mm.free[i].end - mm.free[i].start >= size &&
                    NewRegion(mm, size).start == mm.free[i].start)
              && forall i :: 0 <= i < |mm.free| && mm.free[i].end - mm.free[i].start >= size ==>
                   NewRegion(mm, size).start <= mm.free[i].start
            else
              && NewRegion(mm, size).start == mm.sbrk
              && o.mm.sbrk == mm.sbrk + PagesFor(size) * PAGE_SIZE
              && o.pool == pool[PagesFor(size)..]
  {
    var i := FirstFit(mm.free, size);
    if i < |mm.free| {
      forall j | 0 <= j < |mm.free| && mm.free[j].end - mm.free[j].start >= size
        ensures mm.free[i].start <= mm.free[j].start
      {
        FirstFitIsLowest(mm.free, size, j);
      }
    }
  }

  /** Allocation fails if and only if no free region is large enough and all free frames together hold
      fewer bytes than asked for; then nothing has changed. */
  lemma AllocFailsExactlyWhen(mm: Mm, lost: seq<Region>, pool: seq<nat>, rgid: nat, size: nat)
    requires HeapOk(mm, lost) && rgid < |mm.symtbl|
    ensures !Alloc(mm, pool, rgid, size).ok <==>
              (forall i :: 0 <= i < |mm.free| ==> mm.free[i].end - mm.free[i].start < size) && |pool| * PAGE_SIZE < size
    ensures !Alloc(mm, pool, rgid, size).ok ==> Alloc(mm, pool, rgid, size) == Outcome(false, mm, pool)
  {
    var i, n := FirstFit(mm.free, size), PagesFor(size);
    PagesForIsLeast(size);
    if n <= |pool| {
      MulMonotone(n, |pool|, PAGE_SIZE);
    } else {
      assert size <= |pool| * PAGE_SIZE ==> n <= |pool|;
    }
    if i < |mm.free| { FirstFitIsLowest(mm.free, size, i); }
  }
}
