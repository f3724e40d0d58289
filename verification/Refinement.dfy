/** The memory of all processes refines one byte array per region: no operation on another region, and
    no other process, can change what a region holds. */
module Refinement {
  import opened Regions
  import opened MemPhy
  import opened Heap
  import opened SharedMemory

  /** The contents of one region, of one process's regions, and of all processes. */
  function RegionBytes(s: Sys, p: nat, rgid: nat): seq<Byte>
    requires p < |s.procs| && rgid < |s.procs[p].symtbl|
  {
    var r := Slot(s, p, rgid);
    seq(if r.start <= r.end then r.end - r.start else 0, o requires 0 <= o => ByteAt(s, p, r.start + o))
  }

  function ProcBytes(s: Sys, p: nat): seq<seq<Byte>>
    requires p < |s.procs|
  {
    seq(|s.procs[p].symtbl|, r requires 0 <= r < |s.procs[p].symtbl| => RegionBytes(s, p, r))
  }

  function Abs(s: Sys): seq<seq<seq<Byte>>> {
    seq(|s.procs|, p requires 0 <= p < |s.procs| => ProcBytes(s, p))
  }

  /** A new process has no bytes in any region. */
  function NoBytes(): seq<seq<Byte>> {
    seq(SYMTBL_MAX + 1, _ => [])
  }

  /** One call on the abstract memory. What a new region first holds is left open. */
  ghost predicate AbsStep(m: seq<seq<seq<Byte>>>, op: Op, res: Result, m': seq<seq<seq<Byte>>>) {
    match op
    case Load => m' == m + [NoBytes()]
    case AllocOp(p, rgid, size) =>
      p < |m| && rgid < |m[p]| &&
      if res.Failed? then m' == m
      else exists bytes: seq<Byte> :: |bytes| == size && m' == m[p := m[p][rgid := bytes]]
    case FreeOp(p, rgid) =>
      p < |m| && rgid < |m[p]| && m' == m[p := m[p][rgid := []]] && (res.Failed? ==> m[p][rgid] == [])
    case ReadOp(p, rgid, off) =>
      p < |m| && rgid < |m[p]| && off < |m[p][rgid]| && m' == m && res == Data(m[p][rgid][off])
    case WriteOp(p, rgid, off, b) =>
      p < |m| && rgid < |m[p]| && off < |m[p][rgid]| && m' == m[p := m[p][rgid := m[p][rgid][off := b]]]
  }

  /** A region keeps its bytes when its table entry stays and every address in it keeps its byte. */
  lemma RegionKept(s: Sys, s': Sys, p: nat, rgid: nat)
    requires p < |s.procs| && p < |s'.procs| && rgid < |s.procs[p].symtbl| && rgid < |s'.procs[p].symtbl|
    requires Slot(s', p, rgid) == Slot(s, p, rgid)
    requires forall a: nat :: In(Slot(s, p, rgid), a) ==> ByteAt(s', p, a) == ByteAt(s, p, a)
    ensures RegionBytes(s', p, rgid) == RegionBytes(s, p, rgid)
  {
    var r := Slot(s, p, rgid);
    forall o | 0 <= o < |RegionBytes(s, p, rgid)| ensures RegionBytes(s', p, rgid)[o] == RegionBytes(s, p, rgid)[o] {
      assert In(r, r.start + o);
    }
  }

  /** Everything but one region of one process is as it was. */
  lemma OneRegionChanged(s: Sys, s': Sys, p: nat, rgid: nat)
    requires p < |s.procs| == |s'.procs| && rgid < |s.procs[p].symtbl|
    requires forall q :: 0 <= q < |s.procs| ==> |s'.procs[q].symtbl| == |s.procs[q].symtbl|
    requires forall q, r :: 0 <= q < |s.procs| && 0 <= r < |s.procs[q].symtbl| && (q != p || r != rgid) ==>
               RegionBytes(s', q, r) == RegionBytes(s, q, r)
    ensures Abs(s') == Abs(s)[p := Abs(s)[p][rgid := RegionBytes(s', p, rgid)]]
  {
    forall q | 0 <= q < |s.procs| ensures Abs(s')[q] == Abs(s)[p := Abs(s)[p][rgid := RegionBytes(s', p, rgid)]][q] {
      if q != p {
        assert ProcBytes(s', q) == ProcBytes(s, q);
      } else {
        assert ProcBytes(s', p) == ProcBytes(s, p)[rgid := RegionBytes(s', p, rgid)];
      }
    }
  }

  lemma SameBytes(s: Sys, s': Sys)
    requires |s.procs| == |s'.procs|
    requires forall q :: 0 <= q < |s.procs| ==> |s'.procs[q].symtbl| == |s.procs[q].symtbl|
    requires forall q, r :: 0 <= q < |s.procs| && 0 <= r < |s.procs[q].symtbl| ==>
               RegionBytes(s', q, r) == RegionBytes(s, q, r)
    ensures Abs(s') == Abs(s)
  {
    forall q | 0 <= q < |s.procs| ensures Abs(s')[q] == Abs(s)[q] {
      assert ProcBytes(s', q) == ProcBytes(s, q);
    }
  }

  /** A step that leaves page tables and storage below the old breaks alone leaves the bytes alone. */
  lemma BytesBelowBreak(s: Sys, s': Sys, q: nat, a: nat)
    requires SysOk(s) && q < |s.procs| && q < |s'.procs| && a < s.procs[q].sbrk
    requires s'.storage == s.storage && |s'.procs[q].pgd| == |s.procs[q].pgd|
    requires forall j :: 0 <= j < s.procs[q].vmEnd / PAGE_SIZE ==> s'.procs[q].pgd[j] == s.procs[q].pgd[j]
    ensures ByteAt(s', q, a) == ByteAt(s, q, a)
  {
    assert ProcOk(s.procs[q], s.lost[q]);
    InRamBelowBreak(s.procs[q], a);
  }

  lemma LiveKept(s: Sys, s': Sys, q: nat, r: nat)
    requires SysOk(s) && q < |s.procs| && q < |s'.procs| && r < |s.procs[q].symtbl| && r < |s'.procs[q].symtbl|
    requires Slot(s', q, r) == Slot(s, q, r)
    requires s'.storage == s.storage && |s'.procs[q].pgd| == |s.procs[q].pgd|
    requires forall j :: 0 <= j < s.procs[q].vmEnd / PAGE_SIZE ==> s'.procs[q].pgd[j] == s.procs[q].pgd[j]
    ensures RegionBytes(s', q, r) == RegionBytes(s, q, r)
  {
    assert ProcOk(s.procs[q], s.lost[q]);
    forall a: nat | In(Slot(s, q, r), a) ensures ByteAt(s', q, a) == ByteAt(s, q, a) {
      LiveBelowBreak(s.procs[q], s.lost[q], r, a);
      BytesBelowBreak(s, s', q, a);
    }
    RegionKept(s, s', q, r);
  }

  /** Allocation changes no page table entry below the old break. */
  lemma AllocKeepsPages(mm: Mm, pool: seq<nat>, rgid: nat, size: nat)
    requires Resident(mm) && rgid < |mm.symtbl|
    ensures var o := Alloc(mm, pool, rgid, size);
            |o.mm.pgd| == |mm.pgd| && forall j :: 0 <= j < mm.vmEnd / PAGE_SIZE ==> o.mm.pgd[j] == mm.pgd[j]
  {}

  lemma AllocKeepsOthers(s: Sys, p: nat, rgid: nat, size: nat, q: nat, r: nat)
    requires SysOk(s) && ValidOp(s, AllocOp(p, rgid, size)) && Alloc(s.procs[p], s.pool, rgid, size).ok
    requires q < |s.procs| && r < |s.procs[q].symtbl| && (q != p || r != rgid)
    ensures var s' := Step(s, AllocOp(p, rgid, size)).0;
            |s'.procs| == |s.procs| && |s'.procs[q].symtbl| == |s.procs[q].symtbl| &&
            RegionBytes(s', q, r) == RegionBytes(s, q, r)
  {
    assert ProcOk(s.procs[p], s.lost[p]);
    AllocHeapOk(s.procs[p], s.lost[p], s.pool, rgid, size);
    AllocKeepsPages(s.procs[p], s.pool, rgid, size);
    LiveKept(s, Step(s, AllocOp(p, rgid, size)).0, q, r);
  }

  lemma AllocRefines(s: Sys, p: nat, rgid: nat, size: nat)
    requires SysOk(s) && ValidOp(s, AllocOp(p, rgid, size))
    ensures var (s', res) := Step(s, AllocOp(p, rgid, size)); AbsStep(Abs(s), AllocOp(p, rgid, size), res, Abs(s'))
  {
    var (s', res) := Step(s, AllocOp(p, rgid, size));
    if res.Failed? {
      assert s'.procs == s.procs;
      SameBytes(s, s');
    } else {
      assert Slot(s', p, rgid) == NewRegion(s.procs[p], size) && |s'.procs[p].symtbl| == |s.procs[p].symtbl| by {
        assert ProcOk(s.procs[p], s.lost[p]);
        AllocHeapOk(s.procs[p], s.lost[p], s.pool, rgid, size);
      }
      forall q, r | 0 <= q < |s.procs| && 0 <= r < |s.procs[q].symtbl| && (q != p || r != rgid)
        ensures RegionBytes(s', q, r) == RegionBytes(s, q, r)
      {
        AllocKeepsOthers(s, p, rgid, size, q, r);
      }
      OneRegionChanged(s, s', p, rgid);
      assert |RegionBytes(s', p, rgid)| == size;
    }
  }

  lemma FreeRefines(s: Sys, p: nat, rgid: nat)
    requires SysOk(s) && ValidOp(s, FreeOp(p, rgid))
    ensures var (s', res) := Step(s, FreeOp(p, rgid)); AbsStep(Abs(s), FreeOp(p, rgid), res, Abs(s'))
  {
    var (s', res) := Step(s, FreeOp(p, rgid));
    assert ProcOk(s.procs[p], s.lost[p]);
    FreeHeapOk(s.procs[p], s.lost[p], rgid);
    forall q, r | 0 <= q < |s.procs| && 0 <= r < |s.procs[q].symtbl| && (q != p || r != rgid)
      ensures RegionBytes(s', q, r) == RegionBytes(s, q, r)
    {
      LiveKept(s, s', q, r);
    }
    OneRegionChanged(s, s', p, rgid);
    assert RegionBytes(s', p, rgid) == [];
  }

  lemma ReadRefines(s: Sys, p: nat, rgid: nat, off: nat)
    requires SysOk(s) && ValidOp(s, ReadOp(p, rgid, off))
    ensures var (s', res) := Step(s, ReadOp(p, rgid, off)); AbsStep(Abs(s), ReadOp(p, rgid, off), res, Abs(s'))
  {
    var (s', res) := Step(s, ReadOp(p, rgid, off));
    forall q, r | 0 <= q < |s.procs| && 0 <= r < |s.procs[q].symtbl|
      ensures RegionBytes(s', q, r) == RegionBytes(s, q, r)
    {
      LiveKept(s, s', q, r);
    }
    SameBytes(s, s');
    assert Abs(s)[p][rgid] == RegionBytes(s, p, rgid);
  }

  /** A write through one address changes the byte there and no byte at any other live address. */
  lemma WriteChangesOneByte(s: Sys, p: nat, rgid: nat, off: nat, b: Byte, q: nat, a: nat)
    requires SysOk(s) && ValidOp(s, WriteOp(p, rgid, off, b)) && q < |s.procs| && a < s.procs[q].sbrk
    ensures var s' := Step(s, WriteOp(p, rgid, off, b)).0;
            |s'.procs| == |s.procs| &&
            ByteAt(s', q, a) == if q == p && a == Slot(s, p, rgid).start + off then b else ByteAt(s, q, a)
  {
    var x := Slot(s, p, rgid).start + off;
    LiveAddress(s, p, rgid, off);
    assert ProcOk(s.procs[p], s.lost[p]) && ProcOk(s.procs[q], s.lost[q]);
    CellBelowBreak(s, p, x);
    CellBelowBreak(s, q, a);
    if CellOf(s.procs[p], x) == CellOf(s.procs[q], a) {
      CellsDistinct(s, p, x, q, a);
    }
  }

  lemma WriteKeepsRegion(s: Sys, p: nat, rgid: nat, off: nat, b: Byte, q: nat, r: nat)
    requires SysOk(s) && ValidOp(s, WriteOp(p, rgid, off, b))
    requires q < |s.procs| && r < |s.procs[q].symtbl| && (q != p || r != rgid)
    ensures var s' := Step(s, WriteOp(p, rgid, off, b)).0;
            |s'.procs| == |s.procs| && |s'.procs[q].symtbl| == |s.procs[q].symtbl| &&
            RegionBytes(s', q, r) == RegionBytes(s, q, r)
  {
    var s' := Step(s, WriteOp(p, rgid, off, b)).0;
    assert ProcOk(s.procs[q], s.lost[q]);
    forall a: nat | In(Slot(s, q, r), a) ensures ByteAt(s', q, a) == ByteAt(s, q, a) {
      LiveBelowBreak(s.procs[q], s.lost[q], r, a);
      WriteChangesOneByte(s, p, rgid, off, b, q, a);
      if q == p { LiveDisjoint(s.procs[p], s.lost[p], rgid, r, Slot(s, p, rgid).start + off); }
    }
    RegionKept(s, s', q, r);
  }

  lemma WriteOwnRegion(s: Sys, p: nat, rgid: nat, off: nat, b: Byte)
    requires SysOk(s) && ValidOp(s, WriteOp(p, rgid, off, b))
    ensures var s' := Step(s, WriteOp(p, rgid, off, b)).0;
            |s'.procs| == |s.procs| && |s'.procs[p].symtbl| == |s.procs[p].symtbl| &&
            off < |RegionBytes(s, p, rgid)| &&
            RegionBytes(s', p, rgid) == RegionBytes(s, p, rgid)[off := b]
  {
    var s', r := Step(s, WriteOp(p, rgid, off, b)).0, Slot(s, p, rgid);
    assert ProcOk(s.procs[p], s.lost[p]);
    forall o | 0 <= o < |RegionBytes(s, p, rgid)|
      ensures RegionBytes(s', p, rgid)[o] == RegionBytes(s, p, rgid)[off := b][o]
    {
      LiveBelowBreak(s.procs[p], s.lost[p], rgid, r.start + o);
      WriteChangesOneByte(s, p, rgid, off, b, p, r.start + o);
    }
  }

  lemma WriteRefines(s: Sys, p: nat, rgid: nat, off: nat, b: Byte)
    requires SysOk(s) && ValidOp(s, WriteOp(p, rgid, off, b))
    ensures var (s', res) := Step(s, WriteOp(p, rgid, off, b)); AbsStep(Abs(s), WriteOp(p, rgid, off, b), res, Abs(s'))
  {
    var s' := Step(s, WriteOp(p, rgid, off, b)).0;
    WriteOwnRegion(s, p, rgid, off, b);
    forall q, r | 0 <= q < |s.procs| && 0 <= r < |s.procs[q].symtbl| && (q != p || r != rgid)
      ensures RegionBytes(s', q, r) == RegionBytes(s, q, r)
    {
      WriteKeepsRegion(s, p, rgid, off, b, q, r);
    }
    OneRegionChanged(s, s', p, rgid);
  }

  lemma LoadRefines(s: Sys)
    requires SysOk(s)
    ensures var (s', res) := Step(s, Load); AbsStep(Abs(s), Load, res, Abs(s'))
  {
    var s' := Step(s, Load).0;
    forall q | 0 <= q < |s.procs| ensures Abs(s')[q] == Abs(s)[q] {
      forall r | 0 <= r < |s.procs[q].symtbl| ensures RegionBytes(s', q, r) == RegionBytes(s, q, r) {
        LiveKept(s, s', q, r);
      }
      assert ProcBytes(s', q) == ProcBytes(s, q);
    }
    assert ProcBytes(s', |s.procs|) == NoBytes();
    assert Abs(s') == Abs(s) + [ProcBytes(s', |s.procs|)];
  }

  /** Every call of every process is one call on the abstract memory. */
  lemma StepRefines(s: Sys, op: Op)
    requires SysOk(s) && ValidOp(s, op)
    ensures var (s', res) := Step(s, op); SysOk(s') && AbsStep(Abs(s), op, res, Abs(s'))
  {
    StepOk(s, op);
    match op
    case Load => LoadRefines(s);
    case AllocOp(p, rgid, size) => AllocRefines(s, p, rgid, size);
    case FreeOp(p, rgid) => FreeRefines(s, p, rgid);
    case ReadOp(p, rgid, off) => ReadRefines(s, p, rgid, off);
    case WriteOp(p, rgid, off, b) => WriteRefines(s, p, rgid, off, b);
  }

  // ------------------------------------------------------------------ whole runs

  /** RAM as init_memphy leaves it, with no process loaded. */
  function PowerOn(frames: nat): Sys {
    Sys(seq(frames * PAGE_SIZE, _ => 0), seq(frames, i => i), frames, [], [])
  }

  lemma PowerOnOk(frames: nat)
    requires frames <= MAX_PGN
    ensures SysOk(PowerOn(frames))
  {
    var s := PowerOn(frames);
    forall f: nat | f < frames ensures f in s.pool { assert s.pool[f] == f; }
  }

  /** Every call of the run is in bounds when it is made. */
  ghost predicate ValidRun(frames: nat, ops: seq<Op>)
    requires frames <= MAX_PGN
    decreases |ops|, 0
  {
    ops == [] || (ValidRun(frames, ops[..|ops| - 1]) && ValidOp(After(frames, ops[..|ops| - 1]), ops[|ops| - 1]))
  }

  ghost function After(frames: nat, ops: seq<Op>): (s: Sys)
    requires frames <= MAX_PGN && ValidRun(frames, ops)
    ensures SysOk(s)
    decreases |ops|, 1
  {
    if ops == [] then PowerOnOk(frames); PowerOn(frames)
    else
      var s, op := After(frames, ops[..|ops| - 1]), ops[|ops| - 1];
      StepOk(s, op);
      Step(s, op).0
  }

  /** The result of the last call of the run. */
  ghost function LastResult(frames: nat, ops: seq<Op>): Result
    requires frames <= MAX_PGN && ValidRun(frames, ops) && ops != []
  {
    Step(After(frames, ops[..|ops| - 1]), ops[|ops| - 1]).1
  }

  /** The byte the program last wrote at this place, if it has written there since the region was
      allocated. It looks at the program's own calls only, never at the memory. */
  ghost function LastWritten(frames: nat, ops: seq<Op>, p: nat, rgid: nat, off: nat): (b: seq<Byte>)
    requires frames <= MAX_PGN && ValidRun(frames, ops)
    decreases |ops|
  {
    if ops == [] then []
    else
      var op := ops[|ops| - 1];
      if op.WriteOp? && op.p == p && op.rgid == rgid && op.off == off then [op.b]
      else if op.AllocOp? && op.p == p && op.rgid == rgid && LastResult(frames, ops) == Done then []
      else if op.FreeOp? && op.p == p && op.rgid == rgid then []
      else LastWritten(frames, ops[..|ops| - 1], p, rgid, off)
  }

  /** On the abstract memory: a place keeps its byte through every call that does not write it, reallocate
      its region or free it. */
  lemma PlaceKept(m: seq<seq<seq<Byte>>>, op: Op, res: Result, m': seq<seq<seq<Byte>>>, p: nat, rgid: nat, off: nat)
    requires AbsStep(m, op, res, m') && p < |m| && rgid < |m[p]| && off < |m[p][rgid]|
    requires !(op.WriteOp? && op.p == p && op.rgid == rgid && op.off == off)
    requires !(op.AllocOp? && op.p == p && op.rgid == rgid && !res.Failed?)
    requires !(op.FreeOp? && op.p == p && op.rgid == rgid)
    ensures p < |m'| && rgid < |m'[p]| && off < |m'[p][rgid]| && m'[p][rgid][off] == m[p][rgid][off]
  {}

  /** Whatever any number of processes do, a place in a live region holds the byte its own process last
      wrote there. */
  lemma {:induction false} HoldsLastWritten(frames: nat, ops: seq<Op>, p: nat, rgid: nat, off: nat)
    requires frames <= MAX_PGN && ValidRun(frames, ops)
    requires LastWritten(frames, ops, p, rgid, off) != []
    ensures var m := Abs(After(frames, ops));
            && p < |m| && rgid < |m[p]| && off < |m[p][rgid]|
            && [m[p][rgid][off]] == LastWritten(frames, ops, p, rgid, off)
    decreases |ops|
  {
    var pre, op := ops[..|ops| - 1], ops[|ops| - 1];
    var s := After(frames, pre);
    StepRefines(s, op);
    if !(op.WriteOp? && op.p == p && op.rgid == rgid && op.off == off) {
      HoldsLastWritten(frames, pre, p, rgid, off);
      PlaceKept(Abs(s), op, Step(s, op).1, Abs(Step(s, op).0), p, rgid, off);
    }
  }

  /** An in-bounds read returns the last byte its process wrote at that region and offset. */
  lemma ReadReturnsLastWritten(frames: nat, ops: seq<Op>, p: nat, rgid: nat, off: nat)
    requires frames <= MAX_PGN && ValidRun(frames, ops + [ReadOp(p, rgid, off)])
    requires ValidRun(frames, ops) && LastWritten(frames, ops, p, rgid, off) != []
    ensures LastResult(frames, ops + [ReadOp(p, rgid, off)]) == Data(LastWritten(frames, ops, p, rgid, off)[0])
  {
    var all := ops + [ReadOp(p, rgid, off)];
    assert all[..|all| - 1] == ops && all[|all| - 1] == ReadOp(p, rgid, off);
    HoldsLastWritten(frames, ops, p, rgid, off);
    StepRefines(After(frames, ops), ReadOp(p, rgid, off));
  }
}
