/** Growth, page replacement and access together, by all processes over one RAM and one swap device: the
    frames stay owned, and every page keeps its bytes wherever they are. */
module VirtualMemory {
  import opened Common
  import opened Arith
  import opened MemPhy
  import opened Heap
  import opened Paging
  import SharedMemory

  /** Frames and swap frames are distinct and off the free lists, and every RAM frame is free or in use. */
  ghost predicate Owned(w: World) {
    Coherent(w) && Accounted(w)
  }

  /** The shared memory of `SharedMemory` beside a swap device. */
  function WithSwap(s: SharedMemory.Sys, swp: Device, swpFrames: nat): World {
    World(Device(s.storage, s.pool), s.frames, swp, swpFrames, s.procs)
  }

  /** What every process does with heap calls alone leads to states that meet the assumptions of paging. */
  lemma SystemIsOwned(s: SharedMemory.Sys, swp: Device, swpFrames: nat)
    requires SharedMemory.SysOk(s) && PoolOk(swp.free, swpFrames) && swpFrames * PAGE_SIZE <= |swp.storage|
    ensures Owned(WithSwap(s, swp, swpFrames))
    ensures SwapAccounted(WithSwap(s, swp, swpFrames)) <==> forall g: nat :: g < swpFrames ==> g in swp.free
  {
    var w := WithSwap(s, swp, swpFrames);
    forall p: nat, j: nat | IsPage(w, p, j) ensures EntryOk(w, w.procs[p].pgd[j]) && !w.procs[p].pgd[j].Swapped? {
      EntryOfSystem(s, p, j);
    }
    forall p: nat, j: nat, q: nat, k: nat |
      IsPage(w, p, j) && IsPage(w, q, k) && Clash(w.procs[p].pgd[j], w.procs[q].pgd[k])
      ensures p == q && j == k
    {
      EntryOfSystem(s, p, j);
      EntryOfSystem(s, q, k);
    }
    forall h: nat | h < w.ramFrames && h !in w.ram.free ensures Occupied(w, h) {
      var p: nat, j: nat :| SharedMemory.Maps(s, p, j, h);
      assert IsPage(w, p, j);
    }
  }

  lemma EntryOfSystem(s: SharedMemory.Sys, p: nat, j: nat)
    requires SharedMemory.SysOk(s) && p < |s.procs| && j < |s.procs[p].pgd|
    ensures var e := s.procs[p].pgd[j]; !e.Swapped? && (e.InRam? ==> SharedMemory.Maps(s, p, j, e.fpn))
    ensures var e := s.procs[p].pgd[j]; e.InRam? ==> e.fpn < s.frames && e.fpn !in s.pool
  {
    assert SharedMemory.ProcOk(s.procs[p], s.lost[p]);
    var e := s.procs[p].pgd[j];
    if e.InRam? { assert SharedMemory.Maps(s, p, j, e.fpn); }
  }

  // ------------------------------------------------------------------ growth

  /** Process p's break can move by n pages inside its page table. */
  predicate CanGrow(w: World, p: nat, n: nat) {
    && p < |w.procs| && n <= |w.ram.free|
    && w.procs[p].vmEnd / PAGE_SIZE + n <= |w.procs[p].pgd|
  }

  /** The n entries above the break of process p. */
  function Above(w: World, p: nat, n: nat): seq<Pte>
    requires CanGrow(w, p, n)
  {
    var pgn := w.procs[p].vmEnd / PAGE_SIZE;
    w.procs[p].pgd[pgn..pgn + n]
  }

  predicate AllUnmapped(entries: seq<Pte>) {
    forall i :: 0 <= i < |entries| ==> entries[i].Unmapped?
  }

  predicate NoneInRam(entries: seq<Pte>) {
    forall i :: 0 <= i < |entries| ==> !entries[i].InRam?
  }

  predicate NoneSwapped(entries: seq<Pte>) {
    forall i :: 0 <= i < |entries| ==> !entries[i].Swapped?
  }

  function Grown(w: World, p: nat, n: nat): World
    requires CanGrow(w, p, n)
  {
    w.(ram := w.ram.(free := w.ram.free[n..]), procs := w.procs[p := Grow(w.procs[p], w.ram.free, n)])
  }

  /** Page j of process q is one of the n new ones. */
  predicate IsNew(w: World, p: nat, n: nat, q: nat, j: nat)
    requires p < |w.procs|
  {
    q == p && w.procs[p].vmEnd / PAGE_SIZE <= j < w.procs[p].vmEnd / PAGE_SIZE + n
  }

  /** The place in the free list of the frame a new page gets. */
  function PlaceOf(w: World, p: nat, n: nat, j: nat): nat
    requires p < |w.procs| && IsNew(w, p, n, p, j)
  {
    w.procs[p].vmEnd / PAGE_SIZE + n - 1 - j
  }

  lemma EntryAfterGrowth(w: World, p: nat, n: nat, q: nat, j: nat)
    requires CanGrow(w, p, n) && IsPage(w, q, j)
    ensures IsPage(Grown(w, p, n), q, j)
    ensures Grown(w, p, n).procs[q].pgd[j] ==
              if IsNew(w, p, n, q, j) then InRam(w.ram.free[PlaceOf(w, p, n, j)]) else w.procs[q].pgd[j]
  {}

  lemma NewIsAbove(w: World, p: nat, n: nat, q: nat, j: nat)
    requires CanGrow(w, p, n) && IsPage(w, q, j)
    ensures IsNew(w, p, n, q, j) ==> w.procs[q].pgd[j] in Above(w, p, n)
  {
    if IsNew(w, p, n, q, j) {
      assert Above(w, p, n)[j - w.procs[p].vmEnd / PAGE_SIZE] == w.procs[q].pgd[j];
    }
  }

  lemma LeftInPool(w: World, p: nat, n: nat, f: nat)
    requires CanGrow(w, p, n)
    ensures f in Grown(w, p, n).ram.free ==> exists i :: n <= i < |w.ram.free| && w.ram.free[i] == f
  {
    if f in w.ram.free[n..] {
      var i :| 0 <= i < |w.ram.free[n..]| && w.ram.free[n..][i] == f;
      assert w.ram.free[i + n] == f;
    }
  }

  lemma GrownEntryOk(w: World, p: nat, n: nat, q: nat, j: nat)
    requires Coherent(w) && CanGrow(w, p, n) && IsPage(w, q, j)
    ensures EntryOk(Grown(w, p, n), Grown(w, p, n).procs[q].pgd[j])
  {
    EntryAfterGrowth(w, p, n, q, j);
    assert EntryOk(w, w.procs[q].pgd[j]);
    var e := Grown(w, p, n).procs[q].pgd[j];
    if e.InRam? {
      LeftInPool(w, p, n, e.fpn);
      if IsNew(w, p, n, q, j) { assert e.fpn in w.ram.free; }
    }
  }

  lemma GrownNoClash(w: World, p: nat, n: nat, q: nat, j: nat, r: nat, k: nat)
    requires Coherent(w) && CanGrow(w, p, n) && IsPage(w, q, j) && IsPage(w, r, k)
    requires IsPage(Grown(w, p, n), q, j) && IsPage(Grown(w, p, n), r, k)
    requires Clash(Grown(w, p, n).procs[q].pgd[j], Grown(w, p, n).procs[r].pgd[k])
    ensures q == r && j == k
  {
    EntryAfterGrowth(w, p, n, q, j);
    EntryAfterGrowth(w, p, n, r, k);
    assert EntryOk(w, w.procs[q].pgd[j]) && EntryOk(w, w.procs[r].pgd[k]);
    assert Clash(w.procs[q].pgd[j], w.procs[r].pgd[k]) ==> q == r && j == k;
    if IsNew(w, p, n, q, j) { assert w.ram.free[PlaceOf(w, p, n, j)] in w.ram.free; }
    if IsNew(w, p, n, r, k) { assert w.ram.free[PlaceOf(w, p, n, k)] in w.ram.free; }
  }

  lemma PoolRest(free: seq<nat>, frames: nat, n: nat)
    requires PoolOk(free, frames) && n <= |free|
    ensures PoolOk(free[n..], frames)
  {
    forall f | f in free[n..] ensures f < frames { assert f in free; }
  }

  /** Growth keeps frames and swap frames distinct, whatever is mapped above the break or swapped below. */
  lemma GrowthCoherent(w: World, p: nat, n: nat)
    requires Coherent(w) && CanGrow(w, p, n)
    ensures Coherent(Grown(w, p, n))
  {
    var w' := Grown(w, p, n);
    PoolRest(w.ram.free, w.ramFrames, n);
    forall q: nat, j: nat | IsPage(w', q, j) ensures EntryOk(w', w'.procs[q].pgd[j]) {
      assert IsPage(w, q, j);
      GrownEntryOk(w, p, n, q, j);
    }
    forall q: nat, j: nat, r: nat, k: nat |
      IsPage(w', q, j) && IsPage(w', r, k) && Clash(w'.procs[q].pgd[j], w'.procs[r].pgd[k])
      ensures q == r && j == k
    {
      assert IsPage(w, q, j) && IsPage(w, r, k);
      GrownNoClash(w, p, n, q, j, r, k);
    }
  }

  lemma NewPageFor(w: World, p: nat, n: nat, i: nat) returns (j: nat)
    requires CanGrow(w, p, n) && i < n
    ensures IsPage(w, p, j) && IsNew(w, p, n, p, j) && PlaceOf(w, p, n, j) == i
    ensures Occupied(Grown(w, p, n), w.ram.free[i])
  {
    j := w.procs[p].vmEnd / PAGE_SIZE + n - 1 - i;
    EntryAfterGrowth(w, p, n, p, j);
    assert IsPage(Grown(w, p, n), p, j);
  }

  lemma GrowthAccounted(w: World, p: nat, n: nat)
    requires Owned(w) && CanGrow(w, p, n)
    requires NoneInRam(Above(w, p, n))
    ensures Accounted(Grown(w, p, n))
  {
    var w' := Grown(w, p, n);
    forall h: nat | h < w'.ramFrames ensures h in w'.ram.free || Occupied(w', h) {
      if h in w.ram.free {
        var i :| 0 <= i < |w.ram.free| && w.ram.free[i] == h;
        if i < n { var _ := NewPageFor(w, p, n, i); } else { assert w'.ram.free[i - n] == h; }
      } else {
        var q: nat, j: nat :| IsPage(w, q, j) && w.procs[q].pgd[j] == InRam(h);
        NewIsAbove(w, p, n, q, j);
        EntryAfterGrowth(w, p, n, q, j);
        assert IsPage(w', q, j);
      }
    }
  }

  /** A frame mapped above the break is in use by nobody once growth has overwritten its entry. */
  lemma FrameAboveLost(w: World, p: nat, n: nat, i: nat)
    requires Coherent(w) && CanGrow(w, p, n) && i < n && Above(w, p, n)[i].InRam?
    ensures var h := Above(w, p, n)[i].fpn;
            h < w.ramFrames && h !in Grown(w, p, n).ram.free && !Occupied(Grown(w, p, n), h)
  {
    var h, j', w' := Above(w, p, n)[i].fpn, w.procs[p].vmEnd / PAGE_SIZE + i, Grown(w, p, n);
    assert IsPage(w, p, j') && w.procs[p].pgd[j'] == InRam(h);
    assert EntryOk(w, w.procs[p].pgd[j']);
    LeftInPool(w, p, n, h);
    if Occupied(w', h) {
      var q: nat, j: nat :| IsPage(w', q, j) && w'.procs[q].pgd[j] == InRam(h);
      assert IsPage(w, q, j);
      EntryAfterGrowth(w, p, n, q, j);
      if !IsNew(w, p, n, q, j) { assert Clash(w.procs[q].pgd[j], w.procs[p].pgd[j']); }
    }
  }

  /** The break may have been overtaken by accesses above it, which nothing checks. Growth keeps every RAM
      frame accounted for if and only if none of the entries it overwrites holds a frame. */
  lemma GrowthKeepsFrames(w: World, p: nat, n: nat)
    requires Owned(w) && CanGrow(w, p, n)
    ensures Owned(Grown(w, p, n)) <==> NoneInRam(Above(w, p, n))
  {
    GrowthCoherent(w, p, n);
    if NoneInRam(Above(w, p, n)) {
      GrowthAccounted(w, p, n);
    } else {
      var i :| 0 <= i < n && Above(w, p, n)[i].InRam?;
      FrameAboveLost(w, p, n, i);
    }
  }

  lemma SwapFrameAboveLost(w: World, p: nat, n: nat, i: nat)
    requires Coherent(w) && CanGrow(w, p, n) && i < n && Above(w, p, n)[i].Swapped?
    ensures !SwapAccounted(Grown(w, p, n))
  {
    var g, j', w' := Above(w, p, n)[i].off, w.procs[p].vmEnd / PAGE_SIZE + i, Grown(w, p, n);
    assert IsPage(w, p, j') && w.procs[p].pgd[j'] == Above(w, p, n)[i];
    assert EntryOk(w, w.procs[p].pgd[j']);
    if OnSwap(w', g) {
      var q: nat, j: nat :| IsPage(w', q, j) && w'.procs[q].pgd[j].Swapped? && w'.procs[q].pgd[j].off == g;
      assert IsPage(w, q, j);
      EntryAfterGrowth(w, p, n, q, j);
      assert Clash(w.procs[q].pgd[j], w.procs[p].pgd[j']);
    }
    assert g < w'.swpFrames && g !in w'.swp.free;
  }

  lemma Kinds(entries: seq<Pte>)
    ensures AllUnmapped(entries) <==> NoneInRam(entries) && NoneSwapped(entries)
  {}

  lemma GrowthKeepsSwap(w: World, p: nat, n: nat)
    requires SwapAccounted(w) && CanGrow(w, p, n) && NoneSwapped(Above(w, p, n))
    ensures SwapAccounted(Grown(w, p, n))
  {
    forall q: nat, j: nat | IsPage(w, q, j) && w.procs[q].pgd[j].Swapped?
      ensures IsPage(Grown(w, p, n), q, j) && Grown(w, p, n).procs[q].pgd[j] == w.procs[q].pgd[j]
    {
      NewIsAbove(w, p, n, q, j);
      EntryAfterGrowth(w, p, n, q, j);
    }
    SwapKept(w, Grown(w, p, n));
  }

  /** Growth keeps every frame of both devices accounted for if and only if the entries it overwrites were
      never mapped. */
  lemma GrowthLosesNothing(w: World, p: nat, n: nat)
    requires Owned(w) && SwapAccounted(w) && CanGrow(w, p, n)
    ensures Owned(Grown(w, p, n)) && SwapAccounted(Grown(w, p, n)) <==> AllUnmapped(Above(w, p, n))
  {
    GrowthKeepsFrames(w, p, n);
    if NoneSwapped(Above(w, p, n)) {
      GrowthKeepsSwap(w, p, n);
    } else {
      var i :| 0 <= i < n && Above(w, p, n)[i].Swapped?;
      SwapFrameAboveLost(w, p, n, i);
    }
    Kinds(Above(w, p, n));
  }

  /** Pages that are on swap stay where they are, and no swap frame is taken. */
  lemma SwapKept(w: World, w': World)
    requires w'.swpFrames == w.swpFrames && w'.swp.free == w.swp.free
    requires forall q: nat, j: nat :: IsPage(w, q, j) && w.procs[q].pgd[j].Swapped? ==>
               IsPage(w', q, j) && w'.procs[q].pgd[j] == w.procs[q].pgd[j]
    ensures SwapAccounted(w) ==> SwapAccounted(w')
  {
    if SwapAccounted(w) {
      forall g: nat | g < w.swpFrames && g !in w.swp.free ensures OnSwap(w', g) {
        var q: nat, j: nat :| IsPage(w, q, j) && w.procs[q].pgd[j].Swapped? && w.procs[q].pgd[j].off == g;
        assert IsPage(w', q, j);
      }
    }
  }

  // ------------------------------------------------------------------ accesses

  /** One call of pg_getpage by process p, with what the swap entry it may write leaves in its fields. */
  datatype Access = Access(p: nat, pgn: nat, typ: nat, bits: nat)

  predicate Named(w: World, a: Access) {
    a.p < |w.procs| && a.pgn < |w.procs[a.p].pgd|
  }

  function EntryOf(w: World, a: Access): Pte
    requires Named(w, a)
  {
    w.procs[a.p].pgd[a.pgn]
  }

  /** A page that is not resident can be exchanged for a good victim; when swap is full any victim will do,
      because the call fails. */
  predicate Exchangeable(w: World, a: Access, resident: bool)
    requires Named(w, a)
  {
    var mm := w.procs[a.p];
    !resident ==> mm.fifo != [] && Victim(mm) < |mm.pgd| && (w.swp.free != [] ==> GoodVictim(mm, a.pgn))
  }

  /** The call replaces a page. */
  predicate Replaces(w: World, resident: bool) {
    !resident && w.swp.free != []
  }

  function AfterGetPage(w: World, a: Access, resident: bool): World
    requires Coherent(w) && Named(w, a) && Exchangeable(w, a, resident) && (EntryOf(w, a).InRam? ==> resident)
  {
    var fifo := w.procs[a.p].fifo;
    if resident then WithFifo(w, a.p, [a.pgn] + fifo)
    else if w.swp.free == [] then WithFifo(w, a.p, fifo[..|fifo| - 1])
    else
      FaultPossible(w, a.p, a.pgn);
      var w1 := Fault(w, a.p, a.pgn, a.typ, a.bits);
      WithFifo(w1, a.p, [a.pgn] + w1.procs[a.p].fifo)
  }

  /** With the present bit as the test of residence this is the code's own pg_getpage. */
  lemma CallIsGetPage(w: World, a: Access)
    requires Coherent(w) && Named(w, a) && Exchangeable(w, a, Present(EntryOf(w, a)))
    ensures Present(EntryOf(w, a)) || CanReplace(w.procs[a.p], w.ram, w.swp, a.pgn)
    ensures var r := GetPage(w.procs[a.p], w.ram, w.swp, a.pgn, a.typ, a.bits);
            && (r.ok <==> Present(EntryOf(w, a)) || w.swp.free != [])
            && AfterGetPage(w, a, Present(EntryOf(w, a)))
               == w.(ram := r.ram, swp := r.swp, procs := w.procs[a.p := r.mm])
  {
    if Replaces(w, Present(EntryOf(w, a))) { FaultPossible(w, a.p, a.pgn); }
  }

  lemma GetPageOwned(w: World, a: Access, resident: bool)
    requires Owned(w) && Named(w, a) && Exchangeable(w, a, resident) && (EntryOf(w, a).InRam? ==> resident)
    ensures Owned(AfterGetPage(w, a, resident))
  {
    if !Replaces(w, resident) {
      FifoOwned(w, a.p, AfterGetPage(w, a, resident).procs[a.p].fifo);
    } else {
      FaultCoherent(w, a.p, a.pgn, a.typ, a.bits);
      FaultAccounted(w, a.p, a.pgn, a.typ, a.bits);
      var w1 := Fault(w, a.p, a.pgn, a.typ, a.bits);
      FifoOwned(w1, a.p, [a.pgn] + w1.procs[a.p].fifo);
    }
  }

  lemma FifoOwned(w: World, p: nat, fifo: seq<nat>)
    requires Owned(w) && p < |w.procs|
    ensures Owned(WithFifo(w, p, fifo))
  {
    FifoCoherent(w, p, fifo);
    var w' := WithFifo(w, p, fifo);
    forall h: nat | h < w.ramFrames && h !in w.ram.free ensures Occupied(w', h) {
      var q: nat, j: nat :| IsPage(w, q, j) && w.procs[q].pgd[j] == InRam(h);
      assert IsPage(w', q, j) && w'.procs[q].pgd[j] == InRam(h);
    }
  }

  lemma GetPageKeepsContents(w: World, a: Access, resident: bool, q: nat, j: nat)
    requires Coherent(w) && Named(w, a) && Exchangeable(w, a, resident) && (EntryOf(w, a).InRam? ==> resident)
    requires IsPage(w, q, j) && !w.procs[q].pgd[j].Unmapped?
    ensures var w' := AfterGetPage(w, a, resident);
            && IsPage(w', q, j) && !w'.procs[q].pgd[j].Unmapped?
            && Contents(w', w'.procs[q].pgd[j]) == Contents(w, w.procs[q].pgd[j])
  {
    if Replaces(w, resident) {
      FaultKeepsContents(w, a.p, a.pgn, a.typ, a.bits, q, j);
      EntryAfterFault(w, a.p, a.pgn, a.typ, a.bits, q, j);
    }
  }

  // ------------------------------------------------------------------ stores

  /** A byte stored through a page that is in RAM. */
  predicate CanStore(w: World, p: nat, pgn: nat, off: nat) {
    && p < |w.procs| && pgn < |w.procs[p].pgd| && w.procs[p].pgd[pgn].InRam?
    && off < PAGE_SIZE && HasFrame(w.ram, w.procs[p].pgd[pgn].fpn)
  }

  function Stored(w: World, p: nat, pgn: nat, off: nat, b: Byte): World
    requires CanStore(w, p, pgn, off)
  {
    w.(ram := w.ram.(storage := w.ram.storage[Cell(w.procs[p].pgd[pgn].fpn, off) := b]))
  }

  lemma PageAfterStore(storage: seq<Byte>, a: nat, off: nat, b: Byte, c: nat)
    requires a + PAGE_SIZE <= |storage| && c + PAGE_SIZE <= |storage| && off < PAGE_SIZE
    requires a == c || a + PAGE_SIZE <= c || c + PAGE_SIZE <= a
    ensures PageAt(storage[a + off := b], c) ==
              if a == c then PageAt(storage, c)[off := b] else PageAt(storage, c)
  {}

  lemma FramesApart(f: nat, a: nat, g: nat, c: nat)
    requires a == f * PAGE_SIZE && c == g * PAGE_SIZE
    ensures if f == g then a == c else a + PAGE_SIZE <= c || c + PAGE_SIZE <= a
  {
    if f < g { FrameBounds(f, g); } else if g < f { FrameBounds(g, f); }
  }

  lemma FrameAfterStore(storage: seq<Byte>, f: nat, off: nat, b: Byte, g: nat)
    requires f * PAGE_SIZE + PAGE_SIZE <= |storage| && g * PAGE_SIZE + PAGE_SIZE <= |storage| && off < PAGE_SIZE
    ensures Frame(storage[Cell(f, off) := b], g) == if f == g then Frame(storage, g)[off := b] else Frame(storage, g)
  {
    var a, c := f * PAGE_SIZE, g * PAGE_SIZE;
    assert if f == g then a == c else a + PAGE_SIZE <= c || c + PAGE_SIZE <= a by { FramesApart(f, a, g, c); }
    assert Cell(f, off) == a + off && Frame(storage, g) == PageAt(storage, c);
    PageAfterStore(storage, a, off, b, c);
  }

  /** A store changes one byte of one page of one process. */
  lemma StoreChangesOneByte(w: World, p: nat, pgn: nat, off: nat, b: Byte, q: nat, j: nat)
    requires Coherent(w) && CanStore(w, p, pgn, off) && IsPage(w, q, j)
    ensures var was := Contents(w, w.procs[q].pgd[j]);
            && |Contents(w, w.procs[p].pgd[pgn])| == PAGE_SIZE
            && Contents(Stored(w, p, pgn, off, b), w.procs[q].pgd[j]) ==
                 if q == p && j == pgn then was[off := b] else was
  {
    var d, e := w.procs[p].pgd[pgn], w.procs[q].pgd[j];
    assert IsPage(w, p, pgn);
    EntryHasFrame(w, e);
    assert Clash(e, d) ==> q == p && j == pgn;
    if e.InRam? { FrameAfterStore(w.ram.storage, d.fpn, off, b, e.fpn); }
  }

  lemma StoreOwned(w: World, p: nat, pgn: nat, off: nat, b: Byte)
    requires Owned(w) && CanStore(w, p, pgn, off)
    ensures Owned(Stored(w, p, pgn, off, b))
  {
    var w' := Stored(w, p, pgn, off, b);
    forall q: nat, j: nat | IsPage(w', q, j) ensures EntryOk(w', w'.procs[q].pgd[j]) {
      assert IsPage(w, q, j);
    }
    forall q: nat, j: nat, r: nat, k: nat |
      IsPage(w', q, j) && IsPage(w', r, k) && Clash(w'.procs[q].pgd[j], w'.procs[r].pgd[k])
      ensures q == r && j == k
    {
      assert IsPage(w, q, j) && IsPage(w, r, k);
    }
    forall h: nat | h < w.ramFrames && h !in w.ram.free ensures Occupied(w', h) {
      var q: nat, j: nat :| IsPage(w, q, j) && w.procs[q].pgd[j] == InRam(h);
      assert IsPage(w', q, j);
    }
  }

  // ------------------------------------------------------------------ runs

  /** `Growth` is also the failed one, when the frames run out. `Call` is pg_getpage as the code has it,
      `Touch` the same with its test read as "in RAM". */
  datatype Event =
    | Load
    | Growth(p: nat, n: nat)
    | Touch(a: Access)
    | Call(a: Access)
    | Store(p: nat, pgn: nat, off: nat, b: Byte)

  predicate Enabled(w: World, e: Event) {
    match e
    case Load => true
    case Growth(p, n) => p < |w.procs| && (n <= |w.ram.free| ==> CanGrow(w, p, n) && AllUnmapped(Above(w, p, n)))
    case Touch(a) => Named(w, a) && Exchangeable(w, a, EntryOf(w, a).InRam?)
    case Call(a) => Named(w, a) && Exchangeable(w, a, Present(EntryOf(w, a)))
    case Store(p, pgn, off, b) => CanStore(w, p, pgn, off)
  }

  function Next(w: World, e: Event): World
    requires Coherent(w) && Enabled(w, e)
  {
    match e
    case Load => w.(procs := w.procs + [InitMm()])
    case Growth(p, n) => if n <= |w.ram.free| then Grown(w, p, n) else w
    case Touch(a) => AfterGetPage(w, a, EntryOf(w, a).InRam?)
    case Call(a) => AfterGetPage(w, a, Present(EntryOf(w, a)))
    case Store(p, pgn, off, b) => Stored(w, p, pgn, off, b)
  }

  lemma LoadOwned(w: World)
    requires Owned(w)
    ensures Owned(w.(procs := w.procs + [InitMm()]))
  {
    var w' := w.(procs := w.procs + [InitMm()]);
    assert forall q: nat, j: nat :: IsPage(w', q, j) ==>
             w'.procs[q].pgd[j].Unmapped? || (IsPage(w, q, j) && w'.procs[q].pgd[j] == w.procs[q].pgd[j]);
    forall h: nat | h < w.ramFrames && h !in w.ram.free ensures Occupied(w', h) {
      var q: nat, j: nat :| IsPage(w, q, j) && w.procs[q].pgd[j] == InRam(h);
      assert IsPage(w', q, j);
    }
  }

  /** Frame ownership across all processes is kept by every growth, failed growth, page replacement,
      access and store. */
  lemma NextOwned(w: World, e: Event)
    requires Owned(w) && Enabled(w, e)
    ensures Owned(Next(w, e))
  {
    match e
    case Load => LoadOwned(w);
    case Growth(p, n) =>
      if n <= |w.ram.free| {
        Kinds(Above(w, p, n));
        GrowthKeepsFrames(w, p, n);
      }
    case Touch(a) => GetPageOwned(w, a, EntryOf(w, a).InRam?);
    case Call(a) => GetPageOwned(w, a, Present(EntryOf(w, a)));
    case Store(p, pgn, off, b) => StoreOwned(w, p, pgn, off, b);
  }

  /** What an event does to the bytes of page j of process q, as its program sees it. */
  function Meant(e: Event, q: nat, j: nat, page: seq<Byte>): (r: seq<Byte>)
    ensures |r| == |page|
  {
    if e.Store? && e.p == q && e.pgn == j && e.off < |page| then page[e.off := e.b] else page
  }

  lemma NextMeaning(w: World, e: Event, q: nat, j: nat)
    requires Coherent(w) && Enabled(w, e) && IsPage(w, q, j) && !w.procs[q].pgd[j].Unmapped?
    ensures var w' := Next(w, e);
            && IsPage(w', q, j) && !w'.procs[q].pgd[j].Unmapped?
            && Contents(w', w'.procs[q].pgd[j]) == Meant(e, q, j, Contents(w, w.procs[q].pgd[j]))
  {
    match e
    case Load =>
    case Growth(p, n) => if n <= |w.ram.free| { GrowthKeepsContents(w, p, n, q, j); }
    case Touch(a) => GetPageKeepsContents(w, a, EntryOf(w, a).InRam?, q, j);
    case Call(a) => GetPageKeepsContents(w, a, Present(EntryOf(w, a)), q, j);
    case Store(p, pgn, off, b) => StoreChangesOneByte(w, p, pgn, off, b, q, j);
  }

  lemma GrowthKeepsContents(w: World, p: nat, n: nat, q: nat, j: nat)
    requires CanGrow(w, p, n) && AllUnmapped(Above(w, p, n)) && IsPage(w, q, j) && !w.procs[q].pgd[j].Unmapped?
    ensures var w' := Grown(w, p, n);
            && IsPage(w', q, j) && w'.procs[q].pgd[j] == w.procs[q].pgd[j]
            && Contents(w', w'.procs[q].pgd[j]) == Contents(w, w.procs[q].pgd[j])
  {
    EntryAfterGrowth(w, p, n, q, j);
    NewIsAbove(w, p, n, q, j);
  }

  /** The event brings a page back from swap. */
  predicate BringsBack(w: World, e: Event)
    requires Enabled(w, e)
  {
    e.Touch? && EntryOf(w, e.a).Swapped? && w.swp.free != []
  }

  lemma GetPageSwap(w: World, a: Access, resident: bool)
    requires Coherent(w) && SwapAccounted(w)
    requires Named(w, a) && Exchangeable(w, a, resident) && (EntryOf(w, a).InRam? ==> resident)
    ensures SwapAccounted(AfterGetPage(w, a, resident)) <==> !(Replaces(w, resident) && EntryOf(w, a).Swapped?)
  {
    var w' := AfterGetPage(w, a, resident);
    if !Replaces(w, resident) {
      SwapKept(w, w');
    } else {
      SwapFramesConserved(w, a.p, a.pgn, a.typ, a.bits);
      var w1 := Fault(w, a.p, a.pgn, a.typ, a.bits);
      SwapKept(w1, w');
      SwapKept(w', w1);
    }
  }

  /** Swap frames are lost exactly by bringing a page back, which the code as it stands never does. */
  lemma NextSwap(w: World, e: Event)
    requires Owned(w) && SwapAccounted(w) && Enabled(w, e)
    ensures SwapAccounted(Next(w, e)) <==> !BringsBack(w, e)
  {
    match e
    case Load => SwapKept(w, Next(w, e));
    case Growth(p, n) => if n <= |w.ram.free| { GrowthLosesNothing(w, p, n); }
    case Touch(a) => GetPageSwap(w, a, EntryOf(w, a).InRam?);
    case Call(a) => GetPageSwap(w, a, Present(EntryOf(w, a)));
    case Store(p, pgn, off, b) => SwapKept(w, Next(w, e));
  }

  predicate Runs(w: World, es: seq<Event>)
    requires Coherent(w) && Accounted(w)
    decreases |es|
  {
    es == [] || (Enabled(w, es[0]) && (NextOwned(w, es[0]); Runs(Next(w, es[0]), es[1..])))
  }

  function After(w: World, es: seq<Event>): (r: World)
    requires Coherent(w) && Accounted(w) && Runs(w, es)
    ensures Coherent(r) && Accounted(r)
    decreases |es|
  {
    if es == [] then w else NextOwned(w, es[0]); After(Next(w, es[0]), es[1..])
  }

  function MeantByAll(es: seq<Event>, q: nat, j: nat, page: seq<Byte>): seq<Byte> {
    if es == [] then page else MeantByAll(es[1..], q, j, Meant(es[0], q, j, page))
  }

  /** Paging is invisible: over any run of growths, page replacements, accesses and stores by all processes,
      each mapped page of each process holds what it held at the start changed by its own stores alone, and
      the frames stay owned. */
  lemma {:induction false} RunMeaning(w: World, es: seq<Event>, q: nat, j: nat)
    requires Owned(w) && Runs(w, es) && IsPage(w, q, j) && !w.procs[q].pgd[j].Unmapped?
    ensures var w' := After(w, es);
            && Owned(w') && IsPage(w', q, j) && !w'.procs[q].pgd[j].Unmapped?
            && Contents(w', w'.procs[q].pgd[j]) == MeantByAll(es, q, j, Contents(w, w.procs[q].pgd[j]))
    decreases |es|
  {
    if es != [] {
      NextOwned(w, es[0]);
      NextMeaning(w, es[0], q, j);
      RunMeaning(Next(w, es[0]), es[1..], q, j);
    }
  }
}
