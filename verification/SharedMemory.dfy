/** All processes over one RAM: who owns which frame, and the proof that the whole stack of region table,
    free list, page table and frame pool behaves like one private array of bytes per region. */
module SharedMemory {
  import opened Common
  import opened Arith
  import opened Regions
  import opened MemPhy
  import opened Heap

  /** `frames` is the number of frames RAM was formatted with; `lost[p]` is process p's history of regions
      whose slot was overwritten. Processes are never removed: nothing gives their frames back. */
  datatype Sys = Sys(storage: seq<Byte>, pool: seq<nat>, frames: nat, procs: seq<Mm>, lost: seq<seq<Region>>)

  /** A page of a process that is in RAM, and its frame. */
  predicate Maps(s: Sys, p: nat, j: nat, f: nat) {
    p < |s.procs| && j < |s.procs[p].pgd| && s.procs[p].pgd[j] == InRam(f)
  }

  // ------------------------------------------------------------------ frame ownership

  /** Every frame has exactly one owner: the pool, once, or one page of one process. */
  ghost predicate FramesOwned(s: Sys) {
    && (forall i, j :: 0 <= i < j < |s.pool| ==> s.pool[i] != s.pool[j])
    && (forall f :: f in s.pool ==> f < s.frames)
    && (forall p: nat, j: nat, f: nat :: Maps(s, p, j, f) ==> f < s.frames && f !in s.pool)
    && (forall p: nat, j: nat, q: nat, k: nat, f: nat :: Maps(s, p, j, f) && Maps(s, q, k, f) ==> p == q && j == k)
    && (forall f: nat :: f < s.frames ==> f in s.pool || exists p: nat, j: nat :: Maps(s, p, j, f))
  }

  lemma {:induction false} DistinctBelow(l: seq<nat>, n: nat)
    requires forall i, j :: 0 <= i < j < |l| ==> l[i] != l[j]
    requires forall i :: 0 <= i < |l| ==> l[i] < n
    ensures |l| <= n
    decreases n
  {
    if |l| > 0 {
      assert l[0] < n;
      if i :| 0 <= i < |l| && l[i] == n - 1 {
        var rest := l[..i] + l[i + 1..];
        forall j | 0 <= j < |rest| ensures rest[j] == l[if j < i then j else j + 1] {}
        forall j | 0 <= j < |rest| ensures rest[j] < n - 1 { assert rest[j] != l[i]; }
        DistinctBelow(rest, n - 1);
      } else {
        DistinctBelow(l, n - 1);
      }
    }
  }

  /** A process's resident pages and the free frames together never exceed the frames there are. */
  lemma PagesFitFrames(s: Sys, p: nat)
    requires FramesOwned(s) && p < |s.procs| && Resident(s.procs[p])
    ensures s.procs[p].vmEnd / PAGE_SIZE + |s.pool| <= s.frames
  {
    var mm := s.procs[p];
    var n := mm.vmEnd / PAGE_SIZE;
    var mapped := seq(n, j requires 0 <= j < n => mm.pgd[j].fpn);
    var l := s.pool + mapped;
    forall i | 0 <= i < |l| ensures l[i] < s.frames {
      if i < |s.pool| { assert l[i] in s.pool; } else { assert Maps(s, p, i - |s.pool|, l[i]); }
    }
    forall i, j | 0 <= i < j < |l| ensures l[i] != l[j] {
      if j >= |s.pool| {
        assert Maps(s, p, j - |s.pool|, l[j]);
        if i >= |s.pool| { assert Maps(s, p, i - |s.pool|, l[i]); } else { assert l[i] in s.pool; }
      }
    }
    DistinctBelow(l, s.frames);
  }

  // ------------------------------------------------------------------ the system invariant

  ghost predicate ProcOk(mm: Mm, lost: seq<Region>) {
    HeapOk(mm, lost) && Resident(mm)
  }

  ghost predicate SysOk(s: Sys) {
    && s.frames <= MAX_PGN && s.frames * PAGE_SIZE <= |s.storage|
    && |s.lost| == |s.procs|
    && FramesOwned(s)
    && forall p :: 0 <= p < |s.procs| ==> ProcOk(s.procs[p], s.lost[p])
  }

  /** One call by one process; `Load` is init_mm for a new one. */
  datatype Op =
    | Load
    | AllocOp(p: nat, rgid: nat, size: nat)
    | FreeOp(p: nat, rgid: nat)
    | ReadOp(p: nat, rgid: nat, off: nat)
    | WriteOp(p: nat, rgid: nat, off: nat, b: Byte)

  /** The region table entry an operation names. */
  function Slot(s: Sys, p: nat, rgid: nat): Region
    requires p < |s.procs| && rgid < |s.procs[p].symtbl|
  {
    s.procs[p].symtbl[rgid]
  }

  /** The source checks neither ids nor offsets of reads and writes; a program must keep them in bounds. */
  predicate ValidOp(s: Sys, op: Op) {
    op.Load? ||
    (op.p < |s.procs| && op.rgid <= SYMTBL_MAX && op.rgid < |s.procs[op.p].symtbl| &&
     (op.ReadOp? || op.WriteOp? ==> Slot(s, op.p, op.rgid).start + op.off < Slot(s, op.p, op.rgid).end))
  }

  /** The cell behind a virtual address whose page is in RAM. */
  function CellOf(mm: Mm, a: nat): nat
    requires a / PAGE_SIZE < |mm.pgd| && mm.pgd[a / PAGE_SIZE].InRam?
  {
    Cell(mm.pgd[a / PAGE_SIZE].fpn, a % PAGE_SIZE)
  }

  /** In-bounds accesses never reach the replacement path: their page is in RAM. */
  lemma InRamBelowBreak(mm: Mm, a: nat)
    requires Resident(mm) && a < mm.sbrk
    ensures a / PAGE_SIZE < mm.vmEnd / PAGE_SIZE <= MAX_PGN && mm.pgd[a / PAGE_SIZE].InRam?
  {
    var j, n := a / PAGE_SIZE, mm.vmEnd / PAGE_SIZE;
    assert a == j * PAGE_SIZE + a % PAGE_SIZE;
    if j >= n { MulMonotone(n, j, PAGE_SIZE); }
  }

  /** An address below the break has a cell inside RAM, in a frame its page owns. */
  lemma CellBelowBreak(s: Sys, p: nat, a: nat)
    requires FramesOwned(s) && s.frames * PAGE_SIZE <= |s.storage|
    requires p < |s.procs| && Resident(s.procs[p]) && a < s.procs[p].sbrk
    ensures var mm, j := s.procs[p], a / PAGE_SIZE;
            j < |mm.pgd| && mm.pgd[j].InRam? && Maps(s, p, j, mm.pgd[j].fpn) && CellOf(mm, a) < |s.storage|
  {
    InRamBelowBreak(s.procs[p], a);
    var f := s.procs[p].pgd[a / PAGE_SIZE].fpn;
    assert Maps(s, p, a / PAGE_SIZE, f);
    CellInside(f, a % PAGE_SIZE, s.frames, |s.storage|);
  }

  lemma SharedCell(s: Sys, p: nat, j: nat, f: nat, o: nat, q: nat, k: nat, g: nat, o': nat)
    requires FramesOwned(s) && Maps(s, p, j, f) && Maps(s, q, k, g)
    requires o < PAGE_SIZE && o' < PAGE_SIZE && Cell(f, o) == Cell(g, o')
    ensures p == q && j == k && o == o'
  {
    CellInjective(f, o, g, o');
  }

  /** Two virtual addresses behind one cell are one address of one process. */
  lemma CellsDistinct(s: Sys, p: nat, a: nat, q: nat, b: nat)
    requires FramesOwned(s) && p < |s.procs| && q < |s.procs|
    requires a / PAGE_SIZE < |s.procs[p].pgd| && s.procs[p].pgd[a / PAGE_SIZE].InRam?
    requires b / PAGE_SIZE < |s.procs[q].pgd| && s.procs[q].pgd[b / PAGE_SIZE].InRam?
    requires CellOf(s.procs[p], a) == CellOf(s.procs[q], b)
    ensures p == q && a == b
  {
    var j, o := DivMod(a, PAGE_SIZE);
    var k, o' := DivMod(b, PAGE_SIZE);
    SharedCell(s, p, j, s.procs[p].pgd[j].fpn, o, q, k, s.procs[q].pgd[k].fpn, o');
  }

  /** The byte behind a virtual address of a process (0 where nothing is mapped). */
  function ByteAt(s: Sys, p: nat, a: nat): Byte
    requires p < |s.procs|
  {
    var mm := s.procs[p];
    var j := a / PAGE_SIZE;
    if j < |mm.pgd| && mm.pgd[j].InRam? && CellOf(mm, a) < |s.storage| then s.storage[CellOf(mm, a)] else 0
  }

  /** pg_getpage puts the page on the FIFO list on every access, resident or not. */
  function Touched(mm: Mm, a: nat): Mm {
    mm.(fifo := [a / PAGE_SIZE] + mm.fifo)
  }

  /** 0, -1, or the byte read. */
  datatype Result = Done | Failed | Data(b: Byte)

  function Step(s: Sys, op: Op): (r: (Sys, Result))
    requires SysOk(s) && ValidOp(s, op)
  {
    match op
    case Load => (s.(procs := s.procs + [InitMm()], lost := s.lost + [[]]), Done)
    case AllocOp(p, rgid, size) =>
      var o := Alloc(s.procs[p], s.pool, rgid, size);
      (s.(procs := s.procs[p := o.mm], pool := o.pool,
          lost := if o.ok then s.lost[p := s.lost[p] + [Slot(s, p, rgid)]] else s.lost), if o.ok then Done else Failed)
    case FreeOp(p, rgid) =>
      var (ok, mm) := Free(s.procs[p], rgid);
      (s.(procs := s.procs[p := mm]), if ok then Done else Failed)
    case ReadOp(p, rgid, off) =>
      var a := Slot(s, p, rgid).start + off;
      (s.(procs := s.procs[p := Touched(s.procs[p], a)]), Data(ByteAt(s, p, a)))
    case WriteOp(p, rgid, off, b) =>
      var a := Slot(s, p, rgid).start + off;
      LiveAddress(s, p, rgid, off);
      CellBelowBreak(s, p, a);
      (s.(procs := s.procs[p := Touched(s.procs[p], a)], storage := s.storage[CellOf(s.procs[p], a) := b]), Done)
  }

  lemma LiveAddress(s: Sys, p: nat, rgid: nat, off: nat)
    requires SysOk(s) && p < |s.procs| && rgid < |s.procs[p].symtbl|
    requires Slot(s, p, rgid).start + off < Slot(s, p, rgid).end
    ensures Slot(s, p, rgid).start + off < s.procs[p].sbrk
  {
    LiveBelowBreak(s.procs[p], s.lost[p], rgid, Slot(s, p, rgid).start + off);
  }

  // ------------------------------------------------------------------ every call keeps the invariant

  lemma SameFrames(s: Sys, s': Sys)
    requires FramesOwned(s) && s'.pool == s.pool && s'.frames == s.frames && |s'.procs| == |s.procs|
    requires forall p :: 0 <= p < |s.procs| ==> s'.procs[p].pgd == s.procs[p].pgd
    ensures FramesOwned(s')
  {
    assert forall p: nat, j: nat, f: nat :: Maps(s', p, j, f) <==> Maps(s, p, j, f);
    forall f: nat | f < s'.frames ensures f in s'.pool || exists p: nat, j: nat :: Maps(s', p, j, f) {
      if f !in s.pool {
        var p: nat, j: nat :| Maps(s, p, j, f);
        assert Maps(s', p, j, f);
      }
    }
  }

  /** There are n page table entries from the break on, and none of them holds a frame. */
  predicate RoomAbove(mm: Mm, n: nat) {
    var pgn := mm.vmEnd / PAGE_SIZE;
    pgn + n <= |mm.pgd| && forall j :: pgn <= j < pgn + n ==> !mm.pgd[j].InRam?
  }

  /** s' is s after process p has grown by n pages. */
  predicate GrownBy(s: Sys, s': Sys, p: nat, n: nat) {
    && p < |s.procs| && n <= |s.pool| && s'.frames == s.frames && s'.pool == s.pool[n..]
    && |s'.procs| == |s.procs| && s'.procs == s.procs[p := s'.procs[p]]
    && s'.procs[p].pgd == Mapped(s.procs[p].pgd, s.procs[p].vmEnd / PAGE_SIZE, Taken(s.pool, n))
  }

  /** Every mapping after a growth is an old one or one of the n new ones, which use the n frames taken. */
  lemma GrownMaps(s: Sys, s': Sys, p: nat, n: nat, q: nat, j: nat, f: nat)
    requires GrownBy(s, s', p, n) && Maps(s', q, j, f)
    ensures Maps(s, q, j, f) ||
            (q == p && var i := s.procs[p].vmEnd / PAGE_SIZE + n - 1 - j; 0 <= i < n && f == s.pool[i])
  {}

  lemma GrownKeeps(s: Sys, s': Sys, p: nat, n: nat, q: nat, j: nat, f: nat)
    requires GrownBy(s, s', p, n) && RoomAbove(s.procs[p], n) && Maps(s, q, j, f)
    ensures Maps(s', q, j, f)
  {}

  lemma GrownInjective(s: Sys, s': Sys, p: nat, n: nat, q: nat, j: nat, r: nat, k: nat, f: nat)
    requires FramesOwned(s) && GrownBy(s, s', p, n) && Maps(s', q, j, f) && Maps(s', r, k, f)
    ensures q == r && j == k
  {
    GrownMaps(s, s', p, n, q, j, f);
    GrownMaps(s, s', p, n, r, k, f);
    if !Maps(s, q, j, f) || !Maps(s, r, k, f) { assert f in s.pool; }
  }

  lemma GrownPool(s: Sys, s': Sys, p: nat, n: nat)
    requires FramesOwned(s) && GrownBy(s, s', p, n)
    ensures forall i, j :: 0 <= i < j < |s'.pool| ==> s'.pool[i] != s'.pool[j]
    ensures forall f :: f in s'.pool ==> f in s.pool && f < s.frames
    ensures forall i :: 0 <= i < n ==> s.pool[i] !in s'.pool
  {
    assert forall i :: 0 <= i < |s'.pool| ==> s'.pool[i] == s.pool[i + n];
    forall f | f in s'.pool ensures f in s.pool {}
  }

  /** Every frame still has an owner: the pool, a new page, or the page it had. */
  lemma GrownCovers(s: Sys, s': Sys, p: nat, n: nat, f: nat)
    requires FramesOwned(s) && GrownBy(s, s', p, n) && RoomAbove(s.procs[p], n) && f < s.frames
    ensures f in s'.pool || exists q: nat, j: nat :: Maps(s', q, j, f)
  {
    if f in s.pool {
      var i :| 0 <= i < |s.pool| && s.pool[i] == f;
      if i < n {
        assert Maps(s', p, s.procs[p].vmEnd / PAGE_SIZE + n - 1 - i, f);
      } else {
        assert s'.pool[i - n] == f;
      }
    } else {
      var q: nat, j: nat :| Maps(s, q, j, f);
      GrownKeeps(s, s', p, n, q, j, f);
    }
  }

  /** A growth hands frames from the pool to fresh pages of one process, one each. Below the break nothing is
      asked of the page table. */
  lemma GrowFrames(s: Sys, s': Sys, p: nat, n: nat)
    requires FramesOwned(s) && GrownBy(s, s', p, n) && RoomAbove(s.procs[p], n)
    ensures FramesOwned(s')
  {
    GrownPool(s, s', p, n);
    forall q: nat, j: nat, f: nat | Maps(s', q, j, f) ensures f < s.frames && f !in s'.pool {
      GrownMaps(s, s', p, n, q, j, f);
      if !Maps(s, q, j, f) { assert f in s.pool; }
    }
    forall q: nat, j: nat, r: nat, k: nat, f: nat | Maps(s', q, j, f) && Maps(s', r, k, f) ensures q == r && j == k {
      GrownInjective(s, s', p, n, q, j, r, k, f);
    }
    forall f: nat | f < s'.frames ensures f in s'.pool || exists q: nat, j: nat :: Maps(s', q, j, f) {
      GrownCovers(s, s', p, n, f);
    }
  }

  lemma GrowResident(s: Sys, p: nat, n: nat)
    requires FramesOwned(s) && s.frames <= MAX_PGN && p < |s.procs| && Resident(s.procs[p]) && n <= |s.pool|
    ensures Resident(Grow(s.procs[p], s.pool, n))
    ensures Grow(s.procs[p], s.pool, n).vmEnd / PAGE_SIZE == s.procs[p].vmEnd / PAGE_SIZE + n
  {
    var mm := s.procs[p];
    var pgn := mm.vmEnd / PAGE_SIZE;
    PagesFitFrames(s, p);
    assert (pgn + n) * PAGE_SIZE == mm.vmEnd + n * PAGE_SIZE;
    QuotientUnique(mm.vmEnd + n * PAGE_SIZE, PAGE_SIZE, pgn + n);
  }

  lemma AllocOk(s: Sys, p: nat, rgid: nat, size: nat)
    requires SysOk(s) && ValidOp(s, AllocOp(p, rgid, size))
    ensures SysOk(Step(s, AllocOp(p, rgid, size)).0)
  {
    var mm, s' := s.procs[p], Step(s, AllocOp(p, rgid, size)).0;
    AllocHeapOk(mm, s.lost[p], s.pool, rgid, size);
    if FirstFit(mm.free, size) == |mm.free| && PagesFor(size) <= |s.pool| {
      PagesFitFrames(s, p);
      GrowFrames(s, s', p, PagesFor(size));
      GrowResident(s, p, PagesFor(size));
    } else {
      SameFrames(s, s');
    }
  }

  lemma TouchedOk(mm: Mm, lost: seq<Region>, a: nat)
    requires ProcOk(mm, lost)
    ensures ProcOk(Touched(mm, a), lost)
  {
    assert forall x: nat :: Owners(Touched(mm, a), lost, x) == Owners(mm, lost, x);
  }

  lemma TouchOk(s: Sys, s': Sys, p: nat, a: nat)
    requires SysOk(s) && p < |s.procs|
    requires s' == s.(storage := s'.storage, procs := s.procs[p := Touched(s.procs[p], a)])
    requires |s'.storage| == |s.storage|
    ensures SysOk(s')
  {
    TouchedOk(s.procs[p], s.lost[p], a);
    SameFrames(s, s');
  }

  lemma FreeOk(s: Sys, p: nat, rgid: nat)
    requires SysOk(s) && ValidOp(s, FreeOp(p, rgid))
    ensures SysOk(Step(s, FreeOp(p, rgid)).0)
  {
    FreeHeapOk(s.procs[p], s.lost[p], rgid);
    SameFrames(s, Step(s, FreeOp(p, rgid)).0);
  }

  lemma WriteOk(s: Sys, p: nat, rgid: nat, off: nat, b: Byte)
    requires SysOk(s) && ValidOp(s, WriteOp(p, rgid, off, b))
    ensures SysOk(Step(s, WriteOp(p, rgid, off, b)).0)
  {
    var a := Slot(s, p, rgid).start + off;
    LiveAddress(s, p, rgid, off);
    CellBelowBreak(s, p, a);
    TouchOk(s, Step(s, WriteOp(p, rgid, off, b)).0, p, a);
  }

  lemma LoadOk(s: Sys)
    requires SysOk(s)
    ensures SysOk(Step(s, Load).0)
  {
    var s' := Step(s, Load).0;
    InitHeapOk();
    assert forall p: nat, j: nat, f: nat :: Maps(s', p, j, f) <==> Maps(s, p, j, f);
    forall f: nat | f < s'.frames ensures f in s'.pool || exists p: nat, j: nat :: Maps(s', p, j, f) {
      if f !in s.pool {
        var p: nat, j: nat :| Maps(s, p, j, f);
        assert Maps(s', p, j, f);
      }
    }
  }

  /** Frame ownership, heap partition, canonical free lists and residency are kept by every call of every
      process, failed ones included. */
  lemma StepOk(s: Sys, op: Op)
    requires SysOk(s) && ValidOp(s, op)
    ensures SysOk(Step(s, op).0)
  {
    match op
    case Load => LoadOk(s);
    case AllocOp(p, rgid, size) => AllocOk(s, p, rgid, size);
    case FreeOp(p, rgid) => FreeOk(s, p, rgid);
    case ReadOp(p, rgid, off) => TouchOk(s, Step(s, op).0, p, Slot(s, p, rgid).start + off);
    case WriteOp(p, rgid, off, b) => WriteOk(s, p, rgid, off, b);
  }
}
