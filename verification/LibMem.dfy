/** The heap calls a program makes (liballoc, libfree, libread and libwrite in src/libmem.c). Each performs, on
    the process that makes it and on the RAM it shares, exactly the step of `SharedMemory` that specifies it. */
module LibMem {
  import opened Common
  import opened MemPhy
  import opened Heap
  import opened Paging
  import opened SharedMemory
  import opened ProcessMemory

  /** The objects of process p show its part of the system: its descriptor, and the RAM all share. */
  ghost predicate Shows(pr: Process, s: Sys, p: nat)
    reads pr, pr.symrgtbl, pr.pgd, pr.mram, pr.mram.storage
  {
    && p < |s.procs| && pr.Valid() && s.procs[p] == pr.View()
    && s.storage == pr.mram.storage[..] && s.pool == pr.mram.freeFp
  }

  /** In a sound system the page behind an in-bounds address is in a frame that RAM has. */
  lemma PageReady(s: Sys, p: nat, a: nat)
    requires SysOk(s) && p < |s.procs| && a < s.procs[p].sbrk
    ensures var mm := s.procs[p];
            && a / PAGE_SIZE < |mm.pgd| && mm.pgd[a / PAGE_SIZE].InRam?
            && mm.pgd[a / PAGE_SIZE].fpn * PAGE_SIZE + PAGE_SIZE <= |s.storage|
            && CellOf(mm, a) < |s.storage| && ByteAt(s, p, a) == s.storage[CellOf(mm, a)]
  {
    CellBelowBreak(s, p, a);
    FrameFits(s.procs[p].pgd[a / PAGE_SIZE].fpn, s.frames, |s.storage|);
  }

  lemma ResidentAccess(pr: Process, a: nat, bits: nat)
    requires pr.Valid() && a / PAGE_SIZE < pr.pgd.Length && pr.pgd[a / PAGE_SIZE].InRam?
    requires HasFrame(pr.Ram(), pr.pgd[a / PAGE_SIZE].fpn)
    ensures pr.CanAccess(a, bits)
  {}

  /** So it can be accessed without replacement. */
  lemma AccessPossible(pr: Process, s: Sys, p: nat, rgid: nat, off: nat, bits: nat)
    requires SysOk(s) && Shows(pr, s, p) && ValidOp(s, ReadOp(p, rgid, off))
    ensures var a := pr.symrgtbl[rgid].start + off;
            && pr.CanAccess(a, bits) && pr.pgd[a / PAGE_SIZE].InRam?
            && CellOf(s.procs[p], a) < |s.storage| && ByteAt(s, p, a) == s.storage[CellOf(s.procs[p], a)]
  {
    var a := Slot(s, p, rgid).start + off;
    assert a < s.procs[p].sbrk by { LiveAddress(s, p, rgid, off); }
    PageReady(s, p, a);
    ResidentAccess(pr, a, bits);
  }

  /** And a read finds the byte there. */
  lemma ReadFinds(pr: Process, s: Sys, p: nat, rgid: nat, off: nat)
    requires SysOk(s) && Shows(pr, s, p) && ValidOp(s, ReadOp(p, rgid, off))
    ensures var a := pr.symrgtbl[rgid].start + off;
            Behind(Paged(true, pr.View(), pr.Ram(), pr.Swp()), a) == Some(ByteAt(s, p, a))
  {
    var a := Slot(s, p, rgid).start + off;
    assert a < s.procs[p].sbrk by { LiveAddress(s, p, rgid, off); }
    PageReady(s, p, a);
  }

  /** What a read step leaves: its page is listed and the byte returned. */
  lemma ReadStep(s: Sys, p: nat, rgid: nat, off: nat)
    requires SysOk(s) && ValidOp(s, ReadOp(p, rgid, off))
    ensures var (s', res), a := Step(s, ReadOp(p, rgid, off)), Slot(s, p, rgid).start + off;
            && s' == s.(procs := s.procs[p := Touched(s.procs[p], a)]) && res == Data(ByteAt(s, p, a))
  {}

  /** In a sound system the page table has room for every free frame. */
  lemma GrowthFits(pr: Process, s: Sys, p: nat)
    requires SysOk(s) && Shows(pr, s, p)
    ensures pr.vmEnd / PAGE_SIZE + |pr.mram.freeFp| <= MAX_PGN
  {
    PagesFitFrames(s, p);
  }

  method LibAlloc(pr: Process, size: nat, rgid: nat, ghost s: Sys, ghost p: nat) returns (ret: int)
    requires SysOk(s) && Shows(pr, s, p) && ValidOp(s, AllocOp(p, rgid, size)) && !pr.mmvmLock.held
    modifies pr, pr.symrgtbl, pr.pgd, pr.mram`freeFp, pr.mmvmLock
    ensures Shows(pr, Step(s, AllocOp(p, rgid, size)).0, p) && !pr.mmvmLock.held
    ensures Step(s, AllocOp(p, rgid, size)).1 == if ret == 0 then Done else Failed
  {
    GrowthFits(pr, s, p);
    var addr;
    ret, addr := pr.AllocRegion(rgid, size);
  }

  method LibFree(pr: Process, rgid: nat, ghost s: Sys, ghost p: nat) returns (ret: int)
    requires SysOk(s) && Shows(pr, s, p) && ValidOp(s, FreeOp(p, rgid)) && !pr.mmvmLock.held
    modifies pr, pr.symrgtbl, pr.mmvmLock
    ensures Shows(pr, Step(s, FreeOp(p, rgid)).0, p) && !pr.mmvmLock.held
    ensures Step(s, FreeOp(p, rgid)).1 == if ret == 0 then Done else Failed
  {
    ret := pr.FreeRegion(rgid);
  }

  method LibRead(pr: Process, rgid: nat, off: nat, bits: nat, ghost s: Sys, ghost p: nat)
    returns (ret: int, data: Option<Byte>)
    requires SysOk(s) && Shows(pr, s, p) && ValidOp(s, ReadOp(p, rgid, off)) && !pr.mmvmLock.held
    modifies pr`fifo, pr.pgd, pr.mswp`freeFp, pr.mswp.storage, pr.mram.storage, pr.mmvmLock
    ensures Shows(pr, Step(s, ReadOp(p, rgid, off)).0, p) && !pr.mmvmLock.held
    ensures ret == 0 && data.Some? && Step(s, ReadOp(p, rgid, off)).1 == Data(data.value)
  {
    AccessPossible(pr, s, p, rgid, off, bits);
    ReadFinds(pr, s, p, rgid, off);
    ReadStep(s, p, rgid, off);
    ret, data := pr.ReadRegion(rgid, off, bits);
  }

  method LibWrite(pr: Process, b: Byte, rgid: nat, off: nat, bits: nat, ghost s: Sys, ghost p: nat)
    returns (ret: int)
    requires SysOk(s) && Shows(pr, s, p) && ValidOp(s, WriteOp(p, rgid, off, b)) && !pr.mmvmLock.held
    modifies pr`fifo, pr.pgd, pr.mswp`freeFp, pr.mswp.storage, pr.mram.storage, pr.mmvmLock
    ensures Shows(pr, Step(s, WriteOp(p, rgid, off, b)).0, p) && !pr.mmvmLock.held
    ensures ret == 0 && Step(s, WriteOp(p, rgid, off, b)).1 == Done
  {
    AccessPossible(pr, s, p, rgid, off, bits);
    ret := pr.WriteRegion(rgid, off, b, bits);
  }
}
