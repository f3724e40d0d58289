/** A run on which the FIFO list hands pg_getpage a victim that is already out. The accesses that start it lie
    above the break, where nothing checks them; a swap entry whose frame field reads 0 does the rest. */
module StaleVictim {
  import opened Common
  import opened Arith
  import opened Regions
  import opened MemPhy
  import opened Heap
  import opened SharedMemory
  import opened Paging
  import opened VirtualMemory

  function Zeros(n: nat): seq<Byte> {
    seq(n, _ => 0)
  }

  /** One process over one frame of RAM. */
  function Fresh(): Sys {
    Sys(Zeros(PAGE_SIZE), [0], 1, [InitMm()], [[]])
  }

  /** The only page, once its first byte is 7. */
  function FirstPage(): seq<Byte> {
    Zeros(PAGE_SIZE)[0 := 7]
  }

  lemma FreshOk()
    ensures SysOk(Fresh())
  {
    InitHeapOk();
    assert forall p: nat, j: nat, f: nat :: !Maps(Fresh(), p, j, f);
    assert Fresh().pool[0] == 0;
    assert 1 * PAGE_SIZE == PAGE_SIZE;
  }

  lemma PageNumbers()
    ensures PagesFor(1) == 1 && 0 / PAGE_SIZE == 0 && 0 % PAGE_SIZE == 0 && 1 * PAGE_SIZE == PAGE_SIZE
  {
    QuotientUnique(PAGE_SIZE, PAGE_SIZE, 1);
    QuotientUnique(0, PAGE_SIZE, 0);
  }

  lemma AfterAlloc() returns (s: Sys)
    ensures SysOk(Fresh()) && ValidOp(Fresh(), AllocOp(0, 0, 1)) && s == Step(Fresh(), AllocOp(0, 0, 1)).0
    ensures SysOk(s) && |s.procs| == 1 && s.pool == [] && s.frames == 1 && s.storage == Zeros(PAGE_SIZE)
    ensures var mm := s.procs[0];
            && |mm.symtbl| == SYMTBL_MAX + 1 && mm.symtbl[0] == Region(0, 1) && mm.fifo == [0]
            && mm.pgd == InitMm().pgd[0 := InRam(0)]
  {
    FreshOk();
    PageNumbers();
    s := Step(Fresh(), AllocOp(0, 0, 1)).0;
    StepOk(Fresh(), AllocOp(0, 0, 1));
    assert Taken([0], 1) == [0];
    assert Mapped(InitMm().pgd, 0, [0]) == InitMm().pgd[0 := InRam(0)];
    assert Descending(0, 1) + [] == [0];
  }

  /** After one allocation and one store, both in bounds, the FIFO list names page 0 twice. */
  lemma AfterStore() returns (s: Sys)
    ensures SysOk(Fresh()) && ValidOp(Fresh(), AllocOp(0, 0, 1))
    ensures var s1 := Step(Fresh(), AllocOp(0, 0, 1)).0;
            SysOk(s1) && ValidOp(s1, WriteOp(0, 0, 0, 7)) && s == Step(s1, WriteOp(0, 0, 0, 7)).0
    ensures SysOk(s) && |s.procs| == 1 && s.pool == [] && s.frames == 1 && s.storage == FirstPage()
    ensures s.procs[0].fifo == [0, 0] && s.procs[0].pgd == InitMm().pgd[0 := InRam(0)]
  {
    var s1 := AfterAlloc();
    PageNumbers();
    s := Step(s1, WriteOp(0, 0, 0, 7)).0;
    StepOk(s1, WriteOp(0, 0, 0, 7));
  }

  // ------------------------------------------------------------------ two accesses above the break

  /** Swap after the first eviction. */
  function Swap1(): seq<Byte> {
    WithFrame(Zeros(PAGE_SIZE + PAGE_SIZE), 0, FirstPage())
  }

  lemma Frames()
    ensures FirstPage()[0] == 7 && Frame(FirstPage(), 0) == FirstPage() == WithFrame(FirstPage(), 0, FirstPage())
    ensures |Swap1()| == PAGE_SIZE + PAGE_SIZE && 1 * PAGE_SIZE == PAGE_SIZE
    ensures var swap2 := WithFrame(Swap1(), 1, FirstPage());
            Frame(Swap1(), 0) == FirstPage() && Frame(swap2, 0) == FirstPage() && Frame(swap2, 1) == FirstPage()
  {
    WithFrameFrames(Zeros(PAGE_SIZE + PAGE_SIZE), 0, FirstPage(), 0);
    WithFrameFrames(Swap1(), 1, FirstPage(), 0);
    WithFrameFrames(Swap1(), 1, FirstPage(), 1);
  }

  /** The first access evicts page 0. */
  lemma FirstAccess(mm: Mm)
    requires |mm.pgd| >= 3 && mm.fifo == [0, 0] && mm.pgd[0] == InRam(0) && mm.pgd[1] == Unmapped
    ensures var ram, swp := Device(FirstPage(), []), Device(Zeros(PAGE_SIZE + PAGE_SIZE), [0, 1]);
            && CanReplace(mm, ram, swp, 1) && GoodVictim(mm, 1)
            && GetPage(mm, ram, swp, 1, 0, 0) ==
                 Paged(true, mm.(fifo := [1, 0], pgd := mm.pgd[0 := Swapped(0, 0, 0)][1 := InRam(0)]),
                       Device(FirstPage(), []), Device(Swap1(), [1]))
  {
    Frames();
  }

  /** The second takes page 0 for its victim again. */
  lemma SecondAccess(mm: Mm)
    requires |mm.pgd| >= 3 && mm.fifo == [1, 0] && mm.pgd[0] == Swapped(0, 0, 0) && mm.pgd[2] == Unmapped
    ensures var ram, swp := Device(FirstPage(), []), Device(Swap1(), [1]);
            && CanReplace(mm, ram, swp, 2) && !GoodVictim(mm, 2)
            && GetPage(mm, ram, swp, 2, 0, 0) ==
                 Paged(true, mm.(fifo := [2, 1], pgd := mm.pgd[0 := Swapped(0, 1, 0)][2 := InRam(0)]),
                       Device(FirstPage(), []), Device(WithFrame(Swap1(), 1, FirstPage()), []))
  {
    Frames();
  }

  function EmptySwap(): Device {
    Device(Zeros(PAGE_SIZE + PAGE_SIZE), [0, 1])
  }

  /** The process after both accesses. */
  function TwoIn(mm: Mm): World
    requires |mm.pgd| >= 3
  {
    World(Device(FirstPage(), []), 1, Device(WithFrame(Swap1(), 1, FirstPage()), []), 2,
          [mm.(fifo := [2, 1], pgd := mm.pgd[0 := Swapped(0, 1, 0)][1 := InRam(0)][2 := InRam(0)])])
  }

  lemma Overwritten(pgd: seq<Pte>)
    requires |pgd| >= 3
    ensures pgd[0 := Swapped(0, 0, 0)][1 := InRam(0)][0 := Swapped(0, 1, 0)][2 := InRam(0)] ==
            pgd[0 := Swapped(0, 1, 0)][1 := InRam(0)][2 := InRam(0)]
  {}

  lemma TwoAccesses(mm: Mm)
    requires |mm.pgd| >= 3 && mm.fifo == [0, 0]
    requires mm.pgd[0] == InRam(0) && mm.pgd[1] == Unmapped && mm.pgd[2] == Unmapped
    ensures CanReplace(mm, Device(FirstPage(), []), EmptySwap(), 1) && GoodVictim(mm, 1)
    ensures var r, w := GetPage(mm, Device(FirstPage(), []), EmptySwap(), 1, 0, 0), TwoIn(mm);
            && r.ok && CanReplace(r.mm, r.ram, r.swp, 2) && !GoodVictim(r.mm, 2)
            && GetPage(r.mm, r.ram, r.swp, 2, 0, 0) == Paged(true, w.procs[0], w.ram, w.swp)
  {
    FirstAccess(mm);
    SecondAccess(mm.(fifo := [1, 0], pgd := mm.pgd[0 := Swapped(0, 0, 0)][1 := InRam(0)]));
    Overwritten(mm.pgd);
  }

  /** Two in-bounds calls lead to a sound system, and two accesses above the break from there to `TwoIn`. */
  lemma StaleVictimReached() returns (s: Sys)
    requires MAX_PGN >= 3
    ensures SysOk(Fresh()) && ValidOp(Fresh(), AllocOp(0, 0, 1))
    ensures var s1 := Step(Fresh(), AllocOp(0, 0, 1)).0;
            SysOk(s1) && ValidOp(s1, WriteOp(0, 0, 0, 7)) && s == Step(s1, WriteOp(0, 0, 0, 7)).0
    ensures |s.procs| == 1 && |s.procs[0].pgd| == MAX_PGN && Device(s.storage, s.pool) == Device(FirstPage(), [])
    ensures Owned(WithSwap(s, EmptySwap(), 2))
    ensures CanReplace(s.procs[0], Device(FirstPage(), []), EmptySwap(), 1)
    ensures var r, w := GetPage(s.procs[0], Device(FirstPage(), []), EmptySwap(), 1, 0, 0), TwoIn(s.procs[0]);
            && r.ok && CanReplace(r.mm, r.ram, r.swp, 2) && !GoodVictim(r.mm, 2)
            && GetPage(r.mm, r.ram, r.swp, 2, 0, 0) == Paged(true, w.procs[0], w.ram, w.swp)
  {
    s := AfterStore();
    SwapIsSound(s);
    TwoAccesses(s.procs[0]);
  }

  lemma SwapIsSound(s: Sys)
    requires SysOk(s)
    ensures Owned(WithSwap(s, EmptySwap(), 2))
  {
    assert 2 * PAGE_SIZE == PAGE_SIZE + PAGE_SIZE;
    SystemIsOwned(s, EmptySwap(), 2);
  }

  /** Why the victim must be in RAM: pages 1 and 2 now share a frame. A store of 9 to page 2 shows it: a read
      of page 0 finds the entry present, takes its frame field at face value and returns 9, while the 7 that
      was last written to page 0 lies on swap, from where no call brings it back. */
  lemma StaleVictimCorrupts(mm: Mm)
    requires |mm.pgd| >= 3
    ensures !Coherent(TwoIn(mm)) && CanStore(TwoIn(mm), 0, 2, 0)
    ensures var w := Stored(TwoIn(mm), 0, 2, 0, 9);
            var e := w.procs[0].pgd[0];
            && Present(e) && FpnOf(e) == 0 && w.ram.storage[Cell(0, 0)] == 9
            && |Contents(w, e)| == PAGE_SIZE && Contents(w, e)[0] == 7
            && GetPage(w.procs[0], w.ram, w.swp, 0, 0, 0).mm.pgd[0] == e
  {
    var w := TwoIn(mm);
    Frames();
    assert IsPage(w, 0, 1) && IsPage(w, 0, 2) && Clash(w.procs[0].pgd[1], w.procs[0].pgd[2]);
  }
}
