/** The memory descriptor of a process and the calls that update it in place (src/libmem.c, src/mm.c,
    src/mm-vm.c), each proved to compute the function of `Heap` or `Paging` that specifies it. */
module ProcessMemory {
  import opened Common
  import opened Arith
  import opened Regions
  import opened MemPhy
  import opened Heap
  import opened Paging
  import opened SharedMemory
  import opened Areas

  /** The coalescing pass with `kept` already behind it. */
  function Absorbed(kept: seq<Region>, rest: seq<Region>, r: Region): (seq<Region>, Region) {
    (kept + Absorb(rest, r).0, Absorb(rest, r).1)
  }

  /** One node of the pass: swallowed and unlinked, or left behind. */
  lemma AbsorbedStep(l: seq<Region>, i: nat, r: Region)
    requires i < |l|
    ensures var without := l[..i] + l[i + 1..];
            && without[..i] == l[..i] && without[i..] == l[i + 1..]
            && Absorbed(l[..i], l[i..], r) ==
                 if l[i].end == r.start then Absorbed(l[..i], l[i + 1..], Region(l[i].start, r.end))
                 else if l[i].start == r.end then Absorbed(l[..i], l[i + 1..], Region(r.start, l[i].end))
                 else Absorbed(l[..i + 1], l[i + 1..], r)
  {
    assert l[i..][1..] == l[i + 1..] && l[i..][0] == l[i];
    assert l[..i + 1] == l[..i] + [l[i]];
    var rest := Absorb(l[i + 1..], r).0;
    assert l[..i] + ([l[i]] + rest) == l[..i + 1] + rest;
  }

  lemma SplitTable(a: seq<Region>, b: seq<Region>)
    requires |a| == |b| > 0 && a[0] == b[0]
    ensures a == b <==> a[1..] == b[1..]
  {
    assert a == [a[0]] + a[1..] && b == [b[0]] + b[1..];
  }

  /** The one mutex around every heap call of every process. */
  class Mutex {
    var held: bool

    constructor ()
      ensures !held
    {
      held := false;
    }

    method Acquire()
      requires !held
      modifies this
      ensures held
    {
      held := true;
    }

    method Release()
      requires held
      modifies this
      ensures !held
    {
      held := false;
    }
  }

  class Process {
    const symrgtbl: array<Region>
    const pgd: array<Pte>
    var freerg: seq<Region>
    var fifo: seq<nat>
    var vmEnd: nat
    var sbrk: nat
    const mram: Memory
    const mswp: Memory
    const mswpId: nat
    const mmvmLock: Mutex

    ghost predicate Valid() {
      symrgtbl.Length == SYMTBL_MAX + 1 && pgd.Length == MAX_PGN && mram != mswp && mram.storage != mswp.storage
    }

    ghost function View(): Mm
      reads this, symrgtbl, pgd
    {
      Mm(symrgtbl[..], freerg, pgd[..], fifo, vmEnd, sbrk)
    }

    ghost function Ram(): Device
      reads mram, mram.storage
    {
      Device(mram.storage[..], mram.freeFp)
    }

    ghost function Swp(): Device
      reads mswp, mswp.storage
    {
      Device(mswp.storage[..], mswp.freeFp)
    }

    /** init_mm, over whatever its fresh memory holds: only entry 0 of the region table is cleared. */
    constructor (ram: Memory, swp: Memory, swpId: nat, lock: Mutex, table: seq<Region>, pages: seq<Pte>)
      requires ram != swp && ram.storage != swp.storage
      requires |table| == SYMTBL_MAX + 1 && |pages| == MAX_PGN
      ensures Valid() && mram == ram && mswp == swp && mswpId == swpId && mmvmLock == lock
      ensures View() == Mm(table[0 := Region(0, 0)], [], pages, [], 0, 0)
      ensures View() == InitMm() <==> table[1..] == InitMm().symtbl[1..] && pages == InitMm().pgd
      ensures fresh(symrgtbl) && fresh(pgd)
    {
      symrgtbl := new Region[SYMTBL_MAX + 1](i requires 0 <= i < |table| => table[i]);
      pgd := new Pte[MAX_PGN](i requires 0 <= i < |pages| => pages[i]);
      freerg, fifo, vmEnd, sbrk := [], [], 0, 0;
      mram, mswp, mswpId, mmvmLock := ram, swp, swpId, lock;
      new;
      symrgtbl[0] := Region(0, 0);
      assert symrgtbl[..] == table[0 := Region(0, 0)] && pgd[..] == pages;
      SplitTable(symrgtbl[..], InitMm().symtbl);
    }

    // ---------------------------------------------------------------- the free list

    /** Links the region in before the first node that starts at or after its end. */
    method EnlistVmFreergList(r: Region) returns (ret: int)
      modifies this`freerg
      ensures freerg == Enlisted(old(freerg), r)
      ensures ret == if r.start < r.end then 0 else -1
    {
      if r.start >= r.end {
        return -1;
      }
      var i := 0;
      while i < |freerg| && freerg[i].start < r.end
        invariant 0 <= i <= |freerg|
        invariant forall j :: 0 <= j < i ==> freerg[j].start < r.end
      {
        i := i + 1;
      }
      InsertAt(freerg, i, r);
      freerg := freerg[..i] + [r] + freerg[i..];
      return 0;
    }

    /** First fit: the region is cut from the first node that is large enough. */
    method GetFreeVmrgArea(size: nat) returns (r: Option<Region>)
      modifies this`freerg
      ensures var i := FirstFit(old(freerg), size);
              if i < |old(freerg)| then
                && r == Some(Region(old(freerg)[i].start, old(freerg)[i].start + size))
                && freerg == Carve(old(freerg), i, size)
              else r == None && freerg == old(freerg)
    {
      var i := 0;
      while i < |freerg|
        invariant 0 <= i <= |freerg| && freerg == old(freerg)
        invariant FirstFit(freerg, size) == i + FirstFit(freerg[i..], size)
      {
        var node := freerg[i];
        if node.end - node.start >= size {
          freerg := freerg[..i] + freerg[i + 1..];
          var _ := EnlistVmFreergList(Region(node.start + size, node.end));
          return Some(Region(node.start, node.start + size));
        }
        i := i + 1;
      }
      return None;
    }

    /** The coalescing pass of __free: every node that touches the region is unlinked and swallowed. */
    method Coalesce(r: Region) returns (newrg: Region)
      modifies this`freerg
      ensures freerg == Absorb(old(freerg), r).0 && newrg == Absorb(old(freerg), r).1
    {
      ghost var whole := Absorbed([], freerg, r);
      assert freerg[..0] == [] && freerg[0..] == freerg;
      assert [] + Absorb(freerg, r).0 == Absorb(freerg, r).0;
      newrg := r;
      var i := 0;
      while i < |freerg|
        invariant 0 <= i <= |freerg|
        invariant whole == Absorbed(freerg[..i], freerg[i..], newrg)
        decreases |freerg| - i
      {
        var node, kept, next := freerg[i], freerg[..i], freerg[i + 1..];
        AbsorbedStep(freerg, i, newrg);
        if node.end == newrg.start {
          newrg := Region(node.start, newrg.end);
          freerg := kept + next;
        } else if node.start == newrg.end {
          newrg := Region(newrg.start, node.end);
          freerg := kept + next;
        } else {
          i := i + 1;
        }
      }
      assert freerg[..i] == freerg && freerg[i..] == [];
    }

    /** __free: coalesce, insert, and clear the slot unless there was nothing to give back. */
    method FreeRegion(rgid: int) returns (ret: int)
      requires Valid() && !mmvmLock.held
      modifies this`freerg, symrgtbl, mmvmLock
      ensures !mmvmLock.held
      ensures !ValidId(rgid) ==> ret == -1 && View() == old(View())
      ensures ValidId(rgid) ==> (ret == 0, View()) == Heap.Free(old(View()), rgid) && (ret == 0 || ret == -1)
    {
      mmvmLock.Acquire();
      if rgid < 0 || rgid > SYMTBL_MAX {
        mmvmLock.Release();
        return -1;
      }
      var newrg := Coalesce(symrgtbl[rgid]);
      ret := EnlistVmFreergList(newrg);
      assert freerg == Freed(old(freerg), old(symrgtbl[..])[rgid]);
      assert pgd[..] == old(pgd[..]) && symrgtbl[..] == old(symrgtbl[..]);
      if ret == -1 {
        mmvmLock.Release();
        return;
      }
      symrgtbl[rgid] := Region(0, 0);
      assert symrgtbl[..] == old(symrgtbl[..])[rgid := Region(0, 0)];
      mmvmLock.Release();
    }

    // ---------------------------------------------------------------- frames and pages

    /** Takes n frames, the last one first in the list; short of that, gives back every one it took. */
    method AllocPagesRange(n: nat) returns (ret: int, frames: seq<nat>)
      modifies mram`freeFp
      ensures n <= |old(mram.freeFp)| ==>
                ret == 0 && frames == Taken(old(mram.freeFp), n) && mram.freeFp == old(mram.freeFp)[n..]
      ensures n > |old(mram.freeFp)| ==> ret == -3000 && mram.freeFp == old(mram.freeFp)
    {
      ghost var pool := mram.freeFp;
      frames := [];
      for k := 0 to n
        invariant k <= |pool| && frames == Taken(pool, k) && mram.freeFp == pool[k..]
      {
        var fpn := mram.GetFreeFp();
        if fpn.Some? {
          frames := [fpn.value] + frames;
        } else {
          while frames != []
            invariant |frames| <= |pool| && frames == Taken(pool, |frames|) && mram.freeFp == pool[|frames|..]
          {
            mram.PutFreeFp(frames[0]);
            frames := frames[1..];
          }
          return -3000, [];
        }
      }
      ret := 0;
    }

    /** Maps consecutive pages to the frames of the list, until the list or the pages run out. */
    method VmapPageRange(addr: nat, pgnum: nat, frames: seq<nat>) returns (ret: int)
      requires addr / PAGE_SIZE + pgnum <= pgd.Length
      modifies this`fifo, pgd
      ensures var n := if pgnum <= |frames| then pgnum else |frames|;
              && pgd[..] == Mapped(old(pgd[..]), addr / PAGE_SIZE, frames[..n])
              && fifo == Descending(addr / PAGE_SIZE, n) + old(fifo)
      ensures ret == if pgnum <= |frames| then 0 else -1
    {
      var pgn := addr / PAGE_SIZE;
      var pgit := 0;
      while pgit < pgnum
        invariant 0 <= pgit <= pgnum && pgit <= |frames|
        invariant forall j :: 0 <= j < pgd.Length ==>
                    pgd[j] == if pgn <= j < pgn + pgit then InRam(frames[j - pgn]) else old(pgd[j])
        invariant fifo == Descending(pgn, pgit) + old(fifo)
      {
        if pgit == |frames| {
          return -1;
        }
        pgd[pgn + pgit] := InRam(frames[pgit]);
        fifo := [pgn + pgit] + fifo;
        pgit := pgit + 1;
      }
      return 0;
    }

    /** Takes the frames and maps them at `mapstart`, or leaves everything as it was. */
    method VmMapRam(mapstart: nat, n: nat) returns (ret: int)
      requires mapstart / PAGE_SIZE + |mram.freeFp| <= pgd.Length
      modifies this`fifo, pgd, mram`freeFp
      ensures n <= |old(mram.freeFp)| ==>
                && ret == 0 && mram.freeFp == old(mram.freeFp)[n..]
                && pgd[..] == Mapped(old(pgd[..]), mapstart / PAGE_SIZE, Taken(old(mram.freeFp), n))
                && fifo == Descending(mapstart / PAGE_SIZE, n) + old(fifo)
      ensures n > |old(mram.freeFp)| ==>
                ret == -1 && mram.freeFp == old(mram.freeFp) && pgd[..] == old(pgd[..]) && fifo == old(fifo)
    {
      var retAlloc, frames := AllocPagesRange(n);
      if retAlloc == -3000 {
        return -1;
      }
      var _ := VmapPageRange(mapstart, n, frames);
      assert frames[..n] == frames;
      return 0;
    }

    /** get_vm_area_node_at_brk: the requested bytes, from the first page boundary at or above the break. */
    method GetVmAreaNodeAtBrk(size: nat) returns (r: Region)
      ensures sbrk <= r.start < sbrk + PAGE_SIZE && r.start % PAGE_SIZE == 0 && r.end == r.start + size
      ensures sbrk % PAGE_SIZE == 0 ==> r.start == sbrk
    {
      var start := (sbrk + PAGE_SIZE - 1) / PAGE_SIZE * PAGE_SIZE;
      PagesForIsLeast(sbrk);
      QuotientUnique(start, PAGE_SIZE, PagesFor(sbrk));
      if sbrk % PAGE_SIZE == 0 { WholePages(sbrk); }
      return Region(start, start + size);
    }

    /** The request in whole pages: its bytes and their number. */
    static method Increment(incSz: nat) returns (incAmt: nat, incnumpage: nat)
      ensures incAmt == PagesFor(incSz) * PAGE_SIZE && incnumpage == PagesFor(incSz)
    {
      incAmt := (incSz + PAGE_SIZE - 1) / PAGE_SIZE * PAGE_SIZE;
      incnumpage := incAmt / PAGE_SIZE;
      QuotientUnique(incAmt, PAGE_SIZE, PagesFor(incSz));
    }

    /** Finds no other area in its way, moves the break first and maps afterwards; on failure the caller puts
        the break back. */
    method IncVmaLimit(incSz: nat) returns (ret: int)
      requires vmEnd / PAGE_SIZE + |mram.freeFp| <= pgd.Length
      modifies this`vmEnd, this`sbrk, this`fifo, pgd, mram`freeFp
      ensures vmEnd == sbrk == old(vmEnd) + PagesFor(incSz) * PAGE_SIZE
      ensures PagesFor(incSz) <= |old(mram.freeFp)| ==>
                && ret == 0 && mram.freeFp == old(mram.freeFp)[PagesFor(incSz)..]
                && View() == Grow(old(View()), old(mram.freeFp), PagesFor(incSz))
      ensures PagesFor(incSz) > |old(mram.freeFp)| ==>
                ret == -1 && mram.freeFp == old(mram.freeFp) && pgd[..] == old(pgd[..]) && fifo == old(fifo)
    {
      var incAmt, incnumpage := Increment(incSz);
      var area := Area(0, 0, vmEnd);
      var region := GetVmAreaNodeAtBrk(incSz);
      var overlap := ValidateOverlapVmArea([area], 0, region.start, region.end);
      if overlap == -1 {
        assert false;
      }
      var oldEnd := vmEnd;
      vmEnd := vmEnd + incAmt;
      sbrk := vmEnd;
      ret := VmMapRam(oldEnd, incnumpage);
    }

    /** The part of __alloc that is served from the free list. */
    method AllocInList(rgid: nat, size: nat) returns (ret: int, addr: nat)
      requires Valid() && ValidId(rgid)
      modifies this`freerg, symrgtbl
      ensures ret == if FirstFit(old(freerg), size) < |old(freerg)| then 0 else -1
      ensures ret == -1 ==> View() == old(View())
      ensures ret == 0 ==>
                && View() == Place(old(View()), FirstFit(old(freerg), size), rgid, size)
                && addr == old(freerg)[FirstFit(old(freerg), size)].start
    {
      var rg := GetFreeVmrgArea(size);
      if rg == None {
        return -1, 0;
      }
      symrgtbl[rgid] := rg.value;
      return 0, rg.value.start;
    }

    /** The part of __alloc that grows the heap: the region is placed at the old break, and the slack of the
        last page becomes free. */
    method AllocAtBreak(rgid: nat, size: nat) returns (ret: int, addr: nat)
      requires Valid() && ValidId(rgid)
      requires vmEnd / PAGE_SIZE + |mram.freeFp| <= MAX_PGN
      modifies this`freerg, this`vmEnd, this`sbrk, this`fifo, symrgtbl, pgd, mram`freeFp
      ensures PagesFor(size) > |old(mram.freeFp)| ==>
                ret == -1 && View() == old(View()) && mram.freeFp == old(mram.freeFp)
      ensures PagesFor(size) <= |old(mram.freeFp)| ==>
                && ret == 0 && addr == old(sbrk) && mram.freeFp == old(mram.freeFp)[PagesFor(size)..]
                && View() == PlaceAtBreak(old(View()), old(mram.freeFp), rgid, size)
    {
      var oldSbrk := sbrk;
      var oldEnd := vmEnd;
      ret := IncVmaLimit(size);
      if ret < 0 {
        vmEnd := oldEnd;
        sbrk := oldSbrk;
        return -1, 0;
      }
      symrgtbl[rgid] := Region(oldSbrk, oldSbrk + size);
      var _ := EnlistVmFreergList(Region(oldSbrk + size, sbrk));
      return 0, oldSbrk;
    }

    /** __alloc. When the frames run out, the break is put back and nothing else was touched: region table,
        free list, page table, FIFO list and the frame pool in its exact order are as before the call. */
    method AllocRegion(rgid: nat, size: nat) returns (ret: int, addr: nat)
      requires Valid() && ValidId(rgid) && !mmvmLock.held
      requires vmEnd / PAGE_SIZE + |mram.freeFp| <= MAX_PGN
      modifies this`freerg, this`vmEnd, this`sbrk, this`fifo, symrgtbl, pgd, mram`freeFp, mmvmLock
      ensures !mmvmLock.held
      ensures Outcome(ret == 0, View(), mram.freeFp) == Heap.Alloc(old(View()), old(mram.freeFp), rgid, size)
      ensures ret == 0 || (ret == -1 && View() == old(View()) && mram.freeFp == old(mram.freeFp))
      ensures ret == 0 ==> addr == NewRegion(old(View()), size).start
    {
      mmvmLock.Acquire();
      ret, addr := AllocInList(rgid, size);
      if ret == 0 {
        mmvmLock.Release();
        return;
      }
      ret, addr := AllocAtBreak(rgid, size);
      mmvmLock.Release();
    }

    // ---------------------------------------------------------------- page replacement

    /** Walks to the tail of the FIFO list and unlinks it. */
    method FindVictimPage() returns (pgn: Option<nat>)
      modifies this`fifo
      ensures old(fifo) == [] ==> pgn == None && fifo == []
      ensures old(fifo) != [] ==> pgn == Some(old(fifo)[|old(fifo)| - 1]) && fifo == old(fifo)[..|old(fifo)| - 1]
    {
      if fifo == [] {
        return None;
      }
      var i := 0;
      while i + 1 < |fifo|
        invariant 0 <= i < |fifo|
      {
        i := i + 1;
      }
      pgn := Some(fifo[i]);
      fifo := fifo[..i];
    }

    /** The page-fault path of pg_getpage. `bits` is what the frame field of a swap entry reads as, which is up
        to the bit masks of pte_set_swap. */
    method ReplacePage(pgn: nat, bits: nat) returns (ret: int)
      requires Valid() && CanReplace(View(), Ram(), Swp(), pgn)
      modifies this`fifo, pgd, mswp`freeFp, mswp.storage, mram.storage
      ensures Paged(ret == 0, View(), Ram(), Swp()) == Replace(old(View()), old(Ram()), old(Swp()), pgn, mswpId, bits)
      ensures ret == 0 || ret == -1
    {
      ghost var was := pgd[..];
      var pte := pgd[pgn];
      var victim := FindVictimPage();
      var vicpgn := victim.value;
      var vicfpn := FpnOf(pgd[vicpgn]);
      var swpfpn := mswp.GetFreeFp();
      if swpfpn == None {
        return -1;
      }
      SwapCpPage(mram, vicfpn, mswp, swpfpn.value);
      pgd[vicpgn] := Swapped(mswpId, swpfpn.value, bits);
      var tgtfpn := SwapOffset(pte);
      SwapCpPage(mswp, tgtfpn, mram, vicfpn);
      pgd[pgn] := InRam(vicfpn);
      assert pgd[..] == was[vicpgn := Swapped(mswpId, swpfpn.value, bits)][pgn := InRam(vicfpn)];
      return 0;
    }

    method PgGetPage(pgn: nat, bits: nat) returns (ret: int, fpn: nat)
      requires Valid() && pgn < pgd.Length && (Present(pgd[pgn]) || CanReplace(View(), Ram(), Swp(), pgn))
      modifies this`fifo, pgd, mswp`freeFp, mswp.storage, mram.storage
      ensures Paged(ret == 0, View(), Ram(), Swp()) == GetPage(old(View()), old(Ram()), old(Swp()), pgn, mswpId, bits)
      ensures ret == 0 ==> fpn == FpnOf(pgd[pgn])
      ensures ret == 0 || ret == -1
    {
      if !Present(pgd[pgn]) {
        ret := ReplacePage(pgn, bits);
        if ret == -1 {
          return -1, 0;
        }
      }
      fifo := [pgn] + fifo;
      return 0, FpnOf(pgd[pgn]);
    }

    // ---------------------------------------------------------------- reads and writes

    /** The page behind a virtual address can be brought in, and its frame is one the RAM has. */
    ghost predicate CanAccess(a: nat, bits: nat)
      reads this, symrgtbl, pgd, mram, mram.storage, mswp, mswp.storage
    {
      var pgn := a / PAGE_SIZE;
      pgn < pgd.Length && (Present(pgd[pgn]) || CanReplace(View(), Ram(), Swp(), pgn)) &&
      var r := GetPage(View(), Ram(), Swp(), pgn, mswpId, bits);
      r.ok ==> HasFrame(Ram(), FpnOf(r.mm.pgd[pgn]))
    }

    /** pg_getval: the byte in the frame the page has after the call; nothing if it could not be brought in. */
    method PgGetVal(addr: nat, bits: nat) returns (data: Option<Byte>)
      requires Valid() && CanAccess(addr, bits)
      modifies this`fifo, pgd, mswp`freeFp, mswp.storage, mram.storage
      ensures var r := GetPage(old(View()), old(Ram()), old(Swp()), addr / PAGE_SIZE, mswpId, bits);
              && View() == r.mm && Ram() == r.ram && Swp() == r.swp
              && data == Behind(r, addr) && (r.ok ==> data.Some?)
    {
      var pgn := addr / PAGE_SIZE;
      var offs := addr % PAGE_SIZE;
      var ret, fpn := PgGetPage(pgn, bits);
      if ret == -1 {
        return None;
      }
      var phyaddr := fpn * PAGE_SIZE + offs;
      var b := mram.Read(phyaddr);
      assert phyaddr == Cell(fpn, offs);
      return Some(b);
    }

    /** pg_setval: exactly one cell of RAM changes, after the page was brought in. */
    method PgSetVal(addr: nat, value: Byte, bits: nat)
      requires Valid() && CanAccess(addr, bits)
      modifies this`fifo, pgd, mswp`freeFp, mswp.storage, mram.storage
      ensures var r := GetPage(old(View()), old(Ram()), old(Swp()), addr / PAGE_SIZE, mswpId, bits);
              && View() == r.mm && Swp() == r.swp
              && Ram() == if r.ok then
                   r.ram.(storage := r.ram.storage[Cell(FpnOf(r.mm.pgd[addr / PAGE_SIZE]), addr % PAGE_SIZE) := value])
                 else r.ram
    {
      var pgn := addr / PAGE_SIZE;
      var offs := addr % PAGE_SIZE;
      var ret, fpn := PgGetPage(pgn, bits);
      if ret == -1 {
        return;
      }
      var phyaddr := fpn * PAGE_SIZE + offs;
      mram.Write(phyaddr, value);
    }

    /** __read: -1 for a bad id, and then the mutex is never given back; else 0 whatever becomes of the access.
        When the page is in RAM, as it is for every address below the break, the byte is the one in its cell
        and only the FIFO list changes. */
    method ReadRegion(rgid: int, offset: nat, bits: nat) returns (ret: int, data: Option<Byte>)
      requires Valid() && !mmvmLock.held && (ValidId(rgid) ==> CanAccess(symrgtbl[rgid].start + offset, bits))
      modifies this`fifo, pgd, mswp`freeFp, mswp.storage, mram.storage, mmvmLock
      ensures ret == if ValidId(rgid) then 0 else -1
      ensures mmvmLock.held <==> !ValidId(rgid)
      ensures !ValidId(rgid) ==> View() == old(View()) && Ram() == old(Ram()) && Swp() == old(Swp())
      ensures ValidId(rgid) ==>
                var a := old(symrgtbl[rgid]).start + offset;
                var r := GetPage(old(View()), old(Ram()), old(Swp()), a / PAGE_SIZE, mswpId, bits);
                && View() == r.mm && Ram() == r.ram && Swp() == r.swp
                && data == Behind(r, a)
      ensures ValidId(rgid) && old(pgd[(symrgtbl[rgid].start + offset) / PAGE_SIZE].InRam?) ==>
                var a := old(symrgtbl[rgid]).start + offset;
                && View() == Touched(old(View()), a) && Ram() == old(Ram()) && Swp() == old(Swp())
                && data == Behind(Paged(true, old(View()), old(Ram()), old(Swp())), a)
    {
      mmvmLock.Acquire();
      if !ValidId(rgid) {
        return -1, None;
      }
      data := PgGetVal(symrgtbl[rgid].start + offset, bits);
      mmvmLock.Release();
      return 0, data;
    }

    /** __write: as __read; with the page in RAM exactly the cell of the address changes. */
    method WriteRegion(rgid: int, offset: nat, value: Byte, bits: nat) returns (ret: int)
      requires Valid() && !mmvmLock.held && (ValidId(rgid) ==> CanAccess(symrgtbl[rgid].start + offset, bits))
      modifies this`fifo, pgd, mswp`freeFp, mswp.storage, mram.storage, mmvmLock
      ensures ret == if ValidId(rgid) then 0 else -1
      ensures mmvmLock.held <==> !ValidId(rgid)
      ensures !ValidId(rgid) ==> View() == old(View()) && Ram() == old(Ram()) && Swp() == old(Swp())
      ensures ValidId(rgid) ==>
                var a := old(symrgtbl[rgid]).start + offset;
                var r := GetPage(old(View()), old(Ram()), old(Swp()), a / PAGE_SIZE, mswpId, bits);
                && View() == r.mm && Swp() == r.swp
                && Ram() == if r.ok then
                     r.ram.(storage := r.ram.storage[Cell(FpnOf(r.mm.pgd[a / PAGE_SIZE]), a % PAGE_SIZE) := value])
                   else r.ram
      ensures ValidId(rgid) && old(pgd[(symrgtbl[rgid].start + offset) / PAGE_SIZE].InRam?) ==>
                var a := old(symrgtbl[rgid]).start + offset;
                && View() == Touched(old(View()), a) && mram.freeFp == old(mram.freeFp) && Swp() == old(Swp())
                && mram.storage[..] == old(mram.storage[..])[old(CellOf(View(), a)) := value]
    {
      mmvmLock.Acquire();
      if !ValidId(rgid) {
        return -1;
      }
      PgSetVal(symrgtbl[rgid].start + offset, value, bits);
      mmvmLock.Release();
      return 0;
    }
  }
}
