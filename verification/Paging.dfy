/** Page replacement between RAM and swap (pg_getpage and find_victim_page in src/libmem.c,
    __swap_cp_page and the PTE setters in src/mm.c), and what it does to the pages of all processes. */
module Paging {
  import opened Common
  import opened MemPhy
  import opened Heap

  /** A device seen as a value. */
  datatype Device = Device(storage: seq<Byte>, free: seq<nat>)

  /** The present bit: pte_set_swap sets it too, so it is clear only on an entry never written. */
  predicate Present(pte: Pte) {
    !pte.Unmapped?
  }

  /** What the frame field of an entry reads as. */
  function FpnOf(pte: Pte): nat {
    match pte
    case Unmapped => 0
    case InRam(f) => f
    case Swapped(_, _, bits) => bits
  }

  /** What the swap offset field reads as, for an entry that is not in RAM. */
  function SwapOffset(pte: Pte): nat
    requires !pte.InRam?
  {
    match pte
    case Unmapped => 0
    case Swapped(_, off, _) => off
  }

  predicate HasFrame(d: Device, f: nat) {
    f * PAGE_SIZE + PAGE_SIZE <= |d.storage|
  }

  datatype Paged = Paged(ok: bool, mm: Mm, ram: Device, swp: Device)

  /** The FIFO victim: the page at the tail. */
  function Victim(mm: Mm): nat
    requires mm.fifo != []
  {
    mm.fifo[|mm.fifo| - 1]
  }

  /** There is a victim, and unless swap is full the devices have every frame its replacement touches. */
  predicate CanReplace(mm: Mm, ram: Device, swp: Device, pgn: nat) {
    && pgn < |mm.pgd| && !mm.pgd[pgn].InRam?
    && mm.fifo != [] && Victim(mm) < |mm.pgd|
    && (swp.free != [] ==>
          && HasFrame(ram, FpnOf(mm.pgd[Victim(mm)]))
          && HasFrame(swp, SwapOffset(mm.pgd[pgn]))
          && HasFrame(swp, swp.free[0]))
  }

  /** The body of the page fault: pop the victim, take a swap frame, copy the victim out, copy the wanted
      page in, and rewrite both entries. With swap full only the pop has happened. What the frame field of
      the victim's entry reads as afterwards is up to the bit masks of pte_set_swap: it may be any `bits`. */
  function Replace(mm: Mm, ram: Device, swp: Device, pgn: nat, typ: nat, bits: nat): Paged
    requires CanReplace(mm, ram, swp, pgn)
  {
    var v := Victim(mm);
    var f := FpnOf(mm.pgd[v]);
    var popped := mm.(fifo := mm.fifo[..|mm.fifo| - 1]);
    if swp.free == [] then Paged(false, popped, ram, swp)
    else
      var g := swp.free[0];
      var out := WithFrame(swp.storage, g, Frame(ram.storage, f));
      var pgd := mm.pgd[v := Swapped(typ, g, bits)];
      Paged(true, popped.(pgd := pgd[pgn := InRam(f)]),
            ram.(storage := WithFrame(ram.storage, f, Frame(out, SwapOffset(mm.pgd[pgn])))),
            Device(out, swp.free[1..]))
  }

  /** pg_getpage: replace only when the present bit is clear, then put the page on the FIFO list. */
  function GetPage(mm: Mm, ram: Device, swp: Device, pgn: nat, typ: nat, bits: nat): Paged
    requires pgn < |mm.pgd| && (Present(mm.pgd[pgn]) || CanReplace(mm, ram, swp, pgn))
  {
    var r := if Present(mm.pgd[pgn]) then Paged(true, mm, ram, swp) else Replace(mm, ram, swp, pgn, typ, bits);
    if r.ok then r.(mm := r.mm.(fifo := [pgn] + r.mm.fifo)) else r
  }

  /** The byte behind address a after a call for its page: the one in the frame its entry names, if the call has
      succeeded and the frame is one the device has. */
  function Behind(r: Paged, a: nat): Option<Byte> {
    if r.ok && a / PAGE_SIZE < |r.mm.pgd| && Cell(FpnOf(r.mm.pgd[a / PAGE_SIZE]), a % PAGE_SIZE) < |r.ram.storage|
    then Some(r.ram.storage[Cell(FpnOf(r.mm.pgd[a / PAGE_SIZE]), a % PAGE_SIZE)])
    else None
  }

  /** After a successful call the page is in RAM if and only if it was not on swap before: a swapped page
      carries the present bit, so the call never brings it back. */
  lemma GetPageBringsIn(mm: Mm, ram: Device, swp: Device, pgn: nat, typ: nat, bits: nat)
    requires pgn < |mm.pgd| && (Present(mm.pgd[pgn]) || CanReplace(mm, ram, swp, pgn))
    requires GetPage(mm, ram, swp, pgn, typ, bits).ok
    ensures GetPage(mm, ram, swp, pgn, typ, bits).mm.pgd[pgn].InRam? <==> !mm.pgd[pgn].Swapped?
  {}

  /** A call fails only for a page that is not present while swap is full. The victim has then been taken off
      the FIFO list all the same, and nothing else has changed. */
  lemma FailedCallPopsVictim(mm: Mm, ram: Device, swp: Device, pgn: nat, typ: nat, bits: nat)
    requires pgn < |mm.pgd| && (Present(mm.pgd[pgn]) || CanReplace(mm, ram, swp, pgn))
    ensures GetPage(mm, ram, swp, pgn, typ, bits).ok <==> Present(mm.pgd[pgn]) || swp.free != []
    ensures !GetPage(mm, ram, swp, pgn, typ, bits).ok ==>
              && mm.fifo != []
              && GetPage(mm, ram, swp, pgn, typ, bits) == Paged(false, mm.(fifo := mm.fifo[..|mm.fifo| - 1]), ram, swp)
  {}

  // ------------------------------------------------------------------ frames and their contents

  lemma FrameBounds(f: nat, g: nat)
    requires f < g
    ensures f * PAGE_SIZE + PAGE_SIZE <= g * PAGE_SIZE
  {
    FrameFits(f, g, g * PAGE_SIZE);
  }

  /** Overwriting one frame changes that frame and no other. */
  lemma WithFrameFrames(storage: seq<Byte>, f: nat, page: seq<Byte>, g: nat)
    requires f * PAGE_SIZE + PAGE_SIZE <= |storage| && g * PAGE_SIZE + PAGE_SIZE <= |storage| && |page| == PAGE_SIZE
    ensures Frame(WithFrame(storage, f, page), g) == if g == f then page else Frame(storage, g)
  {
    if f < g { FrameBounds(f, g); } else if g < f { FrameBounds(g, f); }
    PageAfterOverwrite(storage, f * PAGE_SIZE, page, g * PAGE_SIZE);
  }

  // ------------------------------------------------------------------ all processes over RAM and swap

  datatype World = World(ram: Device, ramFrames: nat, swp: Device, swpFrames: nat, procs: seq<Mm>)

  predicate IsPage(w: World, p: nat, j: nat) {
    p < |w.procs| && j < |w.procs[p].pgd|
  }

  /** A sound free list: frames of the device, each at most once. */
  predicate PoolOk(free: seq<nat>, frames: nat) {
    && (forall i, j :: 0 <= i < j < |free| ==> free[i] != free[j])
    && (forall f :: f in free ==> f < frames)
  }

  /** Pages in RAM have distinct frames, pages on swap have distinct swap frames, neither uses a frame that
      its device considers free, and both free lists are sound. */
  ghost predicate Coherent(w: World) {
    && w.ramFrames * PAGE_SIZE <= |w.ram.storage| && w.swpFrames * PAGE_SIZE <= |w.swp.storage|
    && PoolOk(w.ram.free, w.ramFrames) && PoolOk(w.swp.free, w.swpFrames)
    && (forall p: nat, j: nat :: IsPage(w, p, j) ==> EntryOk(w, w.procs[p].pgd[j]))
    && (forall p: nat, j: nat, q: nat, k: nat :: IsPage(w, p, j) && IsPage(w, q, k) ==>
          Clash(w.procs[p].pgd[j], w.procs[q].pgd[k]) ==> p == q && j == k)
  }

  predicate EntryOk(w: World, e: Pte) {
    match e
    case Unmapped => true
    case InRam(f) => f < w.ramFrames && f !in w.ram.free
    case Swapped(_, g, _) => g < w.swpFrames && g !in w.swp.free
  }

  /** The two entries name the same frame of the same device. */
  predicate Clash(d: Pte, e: Pte) {
    (d.InRam? && e.InRam? && d.fpn == e.fpn) || (d.Swapped? && e.Swapped? && d.off == e.off)
  }

  /** The logical contents of a page, wherever it is; a page never mapped has none. */
  function Contents(w: World, e: Pte): seq<Byte> {
    match e
    case Unmapped => []
    case InRam(f) => if HasFrame(w.ram, f) then Frame(w.ram.storage, f) else []
    case Swapped(_, g, _) => if HasFrame(w.swp, g) then Frame(w.swp.storage, g) else []
  }

  /** Process p faults on page pgn. */
  function Fault(w: World, p: nat, pgn: nat, typ: nat, bits: nat): World
    requires p < |w.procs| && CanReplace(w.procs[p], w.ram, w.swp, pgn)
  {
    var r := Replace(w.procs[p], w.ram, w.swp, pgn, typ, bits);
    w.(ram := r.ram, swp := r.swp, procs := w.procs[p := r.mm])
  }

  /** The victim is really in RAM and is not the page being brought in. */
  predicate GoodVictim(mm: Mm, pgn: nat) {
    mm.fifo != [] && Victim(mm) < |mm.pgd| && mm.pgd[Victim(mm)].InRam? && Victim(mm) != pgn
  }

  lemma FaultPossible(w: World, p: nat, pgn: nat)
    requires Coherent(w) && p < |w.procs| && pgn < |w.procs[p].pgd| && !w.procs[p].pgd[pgn].InRam?
    requires GoodVictim(w.procs[p], pgn) && w.swp.free != []
    ensures CanReplace(w.procs[p], w.ram, w.swp, pgn)
    ensures w.swp.free[0] < w.swpFrames
  {
    var mm := w.procs[p];
    assert IsPage(w, p, Victim(mm)) && IsPage(w, p, pgn);
    assert w.swp.free[0] in w.swp.free;
    FrameFits(FpnOf(mm.pgd[Victim(mm)]), w.ramFrames, |w.ram.storage|);
    FrameFits(SwapOffset(mm.pgd[pgn]), w.swpFrames, |w.swp.storage|);
    FrameFits(w.swp.free[0], w.swpFrames, |w.swp.storage|);
  }

  /** The entry of page j of process q after process p has faulted on pgn. */
  lemma EntryAfterFault(w: World, p: nat, pgn: nat, typ: nat, bits: nat, q: nat, j: nat)
    requires p < |w.procs| && CanReplace(w.procs[p], w.ram, w.swp, pgn) && w.swp.free != []
    requires GoodVictim(w.procs[p], pgn) && q < |w.procs| && j < |w.procs[q].pgd|
    ensures var w', mm := Fault(w, p, pgn, typ, bits), w.procs[p];
            |w'.procs| == |w.procs| && |w'.procs[q].pgd| == |w.procs[q].pgd| &&
            w'.procs[q].pgd[j] ==
              if q == p && j == pgn then InRam(mm.pgd[Victim(mm)].fpn)
              else if q == p && j == Victim(mm) then Swapped(typ, w.swp.free[0], bits)
              else w.procs[q].pgd[j]
  {}

  /** The fault keeps frames and swap frames distinct, and keeps pages off the free lists. */
  lemma FaultCoherent(w: World, p: nat, pgn: nat, typ: nat, bits: nat)
    requires Coherent(w) && p < |w.procs| && pgn < |w.procs[p].pgd| && !w.procs[p].pgd[pgn].InRam?
    requires GoodVictim(w.procs[p], pgn) && w.swp.free != []
    ensures CanReplace(w.procs[p], w.ram, w.swp, pgn) && Coherent(Fault(w, p, pgn, typ, bits))
  {
    FaultPossible(w, p, pgn);
    var w', mm := Fault(w, p, pgn, typ, bits), w.procs[p];
    var f, g := mm.pgd[Victim(mm)].fpn, w.swp.free[0];
    assert IsPage(w, p, Victim(mm));
    assert forall h :: h in w'.swp.free ==> h in w.swp.free;
    forall q: nat, j: nat | IsPage(w', q, j) ensures EntryOk(w', w'.procs[q].pgd[j]) {
      assert IsPage(w, q, j);
      EntryAfterFault(w, p, pgn, typ, bits, q, j);
      assert EntryOk(w, w.procs[q].pgd[j]);
    }
    forall q: nat, j: nat, r: nat, k: nat |
      IsPage(w', q, j) && IsPage(w', r, k) && Clash(w'.procs[q].pgd[j], w'.procs[r].pgd[k])
      ensures q == r && j == k
    {
      NoNewClash(w, p, pgn, typ, bits, q, j, r, k);
    }
  }

  lemma NoNewClash(w: World, p: nat, pgn: nat, typ: nat, bits: nat, q: nat, j: nat, r: nat, k: nat)
    requires Coherent(w) && p < |w.procs| && pgn < |w.procs[p].pgd| && !w.procs[p].pgd[pgn].InRam?
    requires GoodVictim(w.procs[p], pgn) && w.swp.free != [] && CanReplace(w.procs[p], w.ram, w.swp, pgn)
    requires var w' := Fault(w, p, pgn, typ, bits);
             IsPage(w', q, j) && IsPage(w', r, k) && Clash(w'.procs[q].pgd[j], w'.procs[r].pgd[k])
    ensures q == r && j == k
  {
    var mm := w.procs[p];
    assert IsPage(w, q, j) && IsPage(w, r, k) && IsPage(w, p, Victim(mm));
    EntryAfterFault(w, p, pgn, typ, bits, q, j);
    EntryAfterFault(w, p, pgn, typ, bits, r, k);
    assert EntryOk(w, w.procs[q].pgd[j]) && EntryOk(w, w.procs[r].pgd[k]);
    assert Clash(w.procs[q].pgd[j], w.procs[r].pgd[k]) ==> q == r && j == k;
    assert Clash(w.procs[q].pgd[j], mm.pgd[Victim(mm)]) ==> q == p && j == Victim(mm);
    assert Clash(w.procs[r].pgd[k], mm.pgd[Victim(mm)]) ==> r == p && k == Victim(mm);
    assert w.swp.free[0] in w.swp.free;
  }

  lemma EntryHasFrame(w: World, e: Pte)
    requires Coherent(w) && EntryOk(w, e)
    ensures e.InRam? ==> HasFrame(w.ram, e.fpn)
    ensures e.Swapped? ==> HasFrame(w.swp, e.off)
  {
    match e
    case Unmapped =>
    case InRam(f) => FrameFits(f, w.ramFrames, |w.ram.storage|);
    case Swapped(_, g, _) => FrameFits(g, w.swpFrames, |w.swp.storage|);
  }

  /** The copy out and the copy in, each seen from any frame of its device. */
  lemma CopyOutSeen(w: World, p: nat, pgn: nat, typ: nat, bits: nat, h: nat)
    requires p < |w.procs| && CanReplace(w.procs[p], w.ram, w.swp, pgn) && w.swp.free != []
    requires GoodVictim(w.procs[p], pgn) && HasFrame(w.swp, h)
    ensures var w', f, g := Fault(w, p, pgn, typ, bits), w.procs[p].pgd[Victim(w.procs[p])].fpn, w.swp.free[0];
            && HasFrame(w'.swp, h)
            && Frame(w'.swp.storage, h) == if h == g then Frame(w.ram.storage, f) else Frame(w.swp.storage, h)
  {
    WithFrameFrames(w.swp.storage, w.swp.free[0], Frame(w.ram.storage, w.procs[p].pgd[Victim(w.procs[p])].fpn), h);
  }

  lemma CopyInSeen(w: World, p: nat, pgn: nat, typ: nat, bits: nat, h: nat)
    requires p < |w.procs| && CanReplace(w.procs[p], w.ram, w.swp, pgn) && w.swp.free != []
    requires GoodVictim(w.procs[p], pgn) && HasFrame(w.ram, h)
    ensures var w', f := Fault(w, p, pgn, typ, bits), w.procs[p].pgd[Victim(w.procs[p])].fpn;
            var off := SwapOffset(w.procs[p].pgd[pgn]);
            && HasFrame(w'.ram, h) && HasFrame(w'.swp, off)
            && Frame(w'.ram.storage, h) == if h == f then Frame(w'.swp.storage, off) else Frame(w.ram.storage, h)
  {
    var w', f := Fault(w, p, pgn, typ, bits), w.procs[p].pgd[Victim(w.procs[p])].fpn;
    var off := SwapOffset(w.procs[p].pgd[pgn]);
    CopyOutSeen(w, p, pgn, typ, bits, off);
    WithFrameFrames(w.ram.storage, f, Frame(w'.swp.storage, off), h);
  }

  /** Page replacement preserves meaning: with a good victim, every page of every process has the same
      logical contents afterwards, the wanted page included if it was on swap, and the wanted page is in
      RAM. Only a wanted page that was never mapped gets contents it did not have. */
  lemma FaultKeepsContents(w: World, p: nat, pgn: nat, typ: nat, bits: nat, q: nat, j: nat)
    requires Coherent(w) && p < |w.procs| && pgn < |w.procs[p].pgd| && !w.procs[p].pgd[pgn].InRam?
    requires GoodVictim(w.procs[p], pgn) && w.swp.free != [] && IsPage(w, q, j)
    ensures CanReplace(w.procs[p], w.ram, w.swp, pgn) && IsPage(Fault(w, p, pgn, typ, bits), q, j)
    ensures Fault(w, p, pgn, typ, bits).procs[p].pgd[pgn].InRam?
    ensures !(q == p && j == pgn && w.procs[p].pgd[pgn].Unmapped?) ==>
              Contents(Fault(w, p, pgn, typ, bits), Fault(w, p, pgn, typ, bits).procs[q].pgd[j]) ==
              Contents(w, w.procs[q].pgd[j])
  {
    FaultPossible(w, p, pgn);
    EntryAfterFault(w, p, pgn, typ, bits, q, j);
    var mm, e := w.procs[p], w.procs[q].pgd[j];
    var v := mm.pgd[Victim(mm)];
    assert IsPage(w, p, Victim(mm)) && IsPage(w, p, pgn);
    EntryHasFrame(w, e);
    EntryHasFrame(w, v);
    assert w.swp.free[0] in w.swp.free;
    if q == p && j == pgn {
      if e.Swapped? {
        CopyInSeen(w, p, pgn, typ, bits, v.fpn);
        CopyOutSeen(w, p, pgn, typ, bits, e.off);
      }
    } else if q == p && j == Victim(mm) {
      CopyOutSeen(w, p, pgn, typ, bits, w.swp.free[0]);
    } else {
      assert !Clash(e, v);
      match e
      case Unmapped =>
      case InRam(h) => CopyInSeen(w, p, pgn, typ, bits, h);
      case Swapped(_, h, _) => CopyOutSeen(w, p, pgn, typ, bits, h);
    }
  }

  /** Some page of some process is in RAM frame h. */
  ghost predicate Occupied(w: World, h: nat) {
    exists q: nat, j: nat :: IsPage(w, q, j) && w.procs[q].pgd[j] == InRam(h)
  }

  /** The same RAM frames are occupied and the same are free: the wanted page takes over the victim's. */
  lemma FaultKeepsRamFrames(w: World, p: nat, pgn: nat, typ: nat, bits: nat, h: nat)
    requires Coherent(w) && p < |w.procs| && pgn < |w.procs[p].pgd| && !w.procs[p].pgd[pgn].InRam?
    requires GoodVictim(w.procs[p], pgn) && w.swp.free != []
    ensures CanReplace(w.procs[p], w.ram, w.swp, pgn)
    ensures Fault(w, p, pgn, typ, bits).ram.free == w.ram.free
    ensures Occupied(Fault(w, p, pgn, typ, bits), h) <==> Occupied(w, h)
  {
    FaultPossible(w, p, pgn);
    var w', v := Fault(w, p, pgn, typ, bits), Victim(w.procs[p]);
    if Occupied(w, h) {
      var q: nat, j: nat :| IsPage(w, q, j) && w.procs[q].pgd[j] == InRam(h);
      var k := if q == p && j == v then pgn else j;
      EntryAfterFault(w, p, pgn, typ, bits, q, k);
      assert IsPage(w', q, k) && w'.procs[q].pgd[k] == InRam(h);
    }
    if Occupied(w', h) {
      var q: nat, j: nat :| IsPage(w', q, j) && w'.procs[q].pgd[j] == InRam(h);
      EntryAfterFault(w, p, pgn, typ, bits, q, j);
      var k := if q == p && j == pgn then v else j;
      assert IsPage(w, q, k) && w.procs[q].pgd[k] == InRam(h);
    }
  }

  // ------------------------------------------------------------------ which victims are safe

  function WithFifo(w: World, p: nat, fifo: seq<nat>): World
    requires p < |w.procs|
  {
    w.(procs := w.procs[p := w.procs[p].(fifo := fifo)])
  }

  /** The FIFO list plays no part in coherence. */
  lemma FifoCoherent(w: World, p: nat, fifo: seq<nat>)
    requires Coherent(w) && p < |w.procs|
    ensures Coherent(WithFifo(w, p, fifo))
  {
    var w' := WithFifo(w, p, fifo);
    assert forall q: nat, j: nat :: IsPage(w', q, j) ==> IsPage(w, q, j) && w'.procs[q].pgd[j] == w.procs[q].pgd[j];
  }

  /** Every RAM frame is free or holds a page. */
  ghost predicate Accounted(w: World) {
    forall h: nat :: h < w.ramFrames ==> h in w.ram.free || Occupied(w, h)
  }

  lemma FaultAccounted(w: World, p: nat, pgn: nat, typ: nat, bits: nat)
    requires Coherent(w) && Accounted(w) && p < |w.procs| && pgn < |w.procs[p].pgd| && !w.procs[p].pgd[pgn].InRam?
    requires GoodVictim(w.procs[p], pgn) && w.swp.free != []
    ensures CanReplace(w.procs[p], w.ram, w.swp, pgn) && Accounted(Fault(w, p, pgn, typ, bits))
  {
    FaultPossible(w, p, pgn);
    forall h: nat | h < w.ramFrames && h !in w.ram.free ensures Occupied(Fault(w, p, pgn, typ, bits), h) {
      FaultKeepsRamFrames(w, p, pgn, typ, bits, h);
    }
  }

  /** After a fault with a victim that is not in RAM, the wanted page is mapped to the frame number read
      from the victim's entry, and every page that was in RAM still is where it was. */
  lemma EntryAfterStale(w: World, p: nat, pgn: nat, typ: nat, bits: nat, q: nat, j: nat)
    requires p < |w.procs| && CanReplace(w.procs[p], w.ram, w.swp, pgn) && w.swp.free != []
    requires !w.procs[p].pgd[Victim(w.procs[p])].InRam? && IsPage(w, q, j)
    ensures var w', f := Fault(w, p, pgn, typ, bits), FpnOf(w.procs[p].pgd[Victim(w.procs[p])]);
            && IsPage(w', p, pgn) && w'.procs[p].pgd[pgn] == InRam(f)
            && IsPage(w', q, j) && (w.procs[q].pgd[j].InRam? ==> w'.procs[q].pgd[j] == w.procs[q].pgd[j])
  {}

  lemma StaleIncoherent(w: World, p: nat, pgn: nat, typ: nat, bits: nat)
    requires Coherent(w) && Accounted(w) && p < |w.procs| && CanReplace(w.procs[p], w.ram, w.swp, pgn)
    requires w.swp.free != [] && !w.procs[p].pgd[Victim(w.procs[p])].InRam?
    ensures !Coherent(Fault(w, p, pgn, typ, bits))
  {
    var w', f := Fault(w, p, pgn, typ, bits), FpnOf(w.procs[p].pgd[Victim(w.procs[p])]);
    EntryAfterStale(w, p, pgn, typ, bits, p, pgn);
    assert w'.ram.free == w.ram.free && w'.ramFrames == w.ramFrames;
    if f < w.ramFrames && f !in w.ram.free {
      var q: nat, j: nat :| IsPage(w, q, j) && w.procs[q].pgd[j] == InRam(f);
      EntryAfterStale(w, p, pgn, typ, bits, q, j);
      assert Clash(w'.procs[q].pgd[j], w'.procs[p].pgd[pgn]);
    } else {
      assert !EntryOk(w', w'.procs[p].pgd[pgn]);
    }
  }

  /** Exactly which victims are safe: when every RAM frame is accounted for, a fault leaves the system
      coherent if and only if its victim is in RAM and is not the wanted page, or swap is full. */
  lemma SafeVictims(w: World, p: nat, pgn: nat, typ: nat, bits: nat)
    requires Coherent(w) && Accounted(w) && p < |w.procs| && CanReplace(w.procs[p], w.ram, w.swp, pgn)
    ensures Coherent(Fault(w, p, pgn, typ, bits)) <==> GoodVictim(w.procs[p], pgn) || w.swp.free == []
  {
    if w.swp.free == [] {
      FifoCoherent(w, p, Fault(w, p, pgn, typ, bits).procs[p].fifo);
    } else if GoodVictim(w.procs[p], pgn) {
      FaultCoherent(w, p, pgn, typ, bits);
    } else {
      StaleIncoherent(w, p, pgn, typ, bits);
    }
  }
  // ------------------------------------------------------------------ swap frames

  /** The swap frame the wanted page came from is not given back: no page uses it and it is not free. */
  lemma FaultLeaksSwapFrame(w: World, p: nat, pgn: nat, typ: nat, bits: nat, q: nat, j: nat)
    requires Coherent(w) && p < |w.procs| && pgn < |w.procs[p].pgd| && w.procs[p].pgd[pgn].Swapped?
    requires GoodVictim(w.procs[p], pgn) && w.swp.free != [] && IsPage(w, q, j)
    ensures CanReplace(w.procs[p], w.ram, w.swp, pgn) && IsPage(Fault(w, p, pgn, typ, bits), q, j)
    ensures var w', off := Fault(w, p, pgn, typ, bits), w.procs[p].pgd[pgn].off;
            && off < w'.swpFrames && off !in w'.swp.free
            && !(w'.procs[q].pgd[j].Swapped? && w'.procs[q].pgd[j].off == off)
  {
    FaultPossible(w, p, pgn);
    EntryAfterFault(w, p, pgn, typ, bits, q, j);
    assert IsPage(w, p, pgn);
    assert EntryOk(w, w.procs[p].pgd[pgn]);
    assert Clash(w.procs[q].pgd[j], w.procs[p].pgd[pgn]) ==> q == p && j == pgn;
    assert w.swp.free[0] in w.swp.free;
  }

  /** Some page of some process is in swap frame g. */
  ghost predicate OnSwap(w: World, g: nat) {
    exists q: nat, j: nat :: IsPage(w, q, j) && w.procs[q].pgd[j].Swapped? && w.procs[q].pgd[j].off == g
  }

  /** Every swap frame is free or holds a page. */
  ghost predicate SwapAccounted(w: World) {
    forall g: nat :: g < w.swpFrames ==> g in w.swp.free || OnSwap(w, g)
  }

  lemma SwapFrameKept(w: World, p: nat, pgn: nat, typ: nat, bits: nat, g: nat)
    requires Coherent(w) && p < |w.procs| && pgn < |w.procs[p].pgd| && w.procs[p].pgd[pgn].Unmapped?
    requires GoodVictim(w.procs[p], pgn) && w.swp.free != [] && CanReplace(w.procs[p], w.ram, w.swp, pgn)
    requires g in w.swp.free || OnSwap(w, g)
    ensures g in Fault(w, p, pgn, typ, bits).swp.free || OnSwap(Fault(w, p, pgn, typ, bits), g)
  {
    var w', v := Fault(w, p, pgn, typ, bits), Victim(w.procs[p]);
    if g == w.swp.free[0] {
      EntryAfterFault(w, p, pgn, typ, bits, p, v);
      assert IsPage(w', p, v);
    } else if OnSwap(w, g) {
      var q: nat, j: nat :| IsPage(w, q, j) && w.procs[q].pgd[j].Swapped? && w.procs[q].pgd[j].off == g;
      EntryAfterFault(w, p, pgn, typ, bits, q, j);
      assert IsPage(w', q, j);
    }
  }

  /** Swap frames are conserved by a fault if and only if the wanted page was not on swap. (As the code
      stands, pg_getpage never gets here with such a page, because its present bit is set.) */
  lemma SwapFramesConserved(w: World, p: nat, pgn: nat, typ: nat, bits: nat)
    requires Coherent(w) && SwapAccounted(w) && p < |w.procs| && pgn < |w.procs[p].pgd|
    requires !w.procs[p].pgd[pgn].InRam? && GoodVictim(w.procs[p], pgn) && w.swp.free != []
    ensures CanReplace(w.procs[p], w.ram, w.swp, pgn)
    ensures SwapAccounted(Fault(w, p, pgn, typ, bits)) <==> !w.procs[p].pgd[pgn].Swapped?
  {
    FaultPossible(w, p, pgn);
    var w' := Fault(w, p, pgn, typ, bits);
    if w.procs[p].pgd[pgn].Swapped? {
      var off := w.procs[p].pgd[pgn].off;
      FaultLeaksSwapFrame(w, p, pgn, typ, bits, p, pgn);
      if OnSwap(w', off) {
        var q: nat, j: nat :| IsPage(w', q, j) && w'.procs[q].pgd[j].Swapped? && w'.procs[q].pgd[j].off == off;
        FaultLeaksSwapFrame(w, p, pgn, typ, bits, q, j);
      }
    } else {
      forall g: nat | g < w'.swpFrames ensures g in w'.swp.free || OnSwap(w', g) {
        SwapFrameKept(w, p, pgn, typ, bits, g);
      }
    }
  }
}
