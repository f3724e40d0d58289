/** A physical memory device in random-access mode: its bytes and its pool of free frames
    (src/mm-memphy.c), and the frame copy of src/mm.c. */
module MemPhy {
  import opened Common
  import opened Arith

  const PAGE_SIZE: Positive

  newtype Byte = x: int | 0 <= x < 256

  /** The cell that offset `off` of frame `fpn` lives in. */
  function Cell(fpn: nat, off: nat): nat {
    fpn * PAGE_SIZE + off
  }

  /** Two cells of two frames, or of two offsets in a frame, are two cells. */
  lemma CellInjective(f: nat, o: nat, g: nat, p: nat)
    requires o < PAGE_SIZE && p < PAGE_SIZE && Cell(f, o) == Cell(g, p)
    ensures f == g && o == p
  {
    QuotientUnique(Cell(f, o), PAGE_SIZE, f);
    QuotientUnique(Cell(g, p), PAGE_SIZE, g);
  }

  /** A frame below `frames` lies inside any device that has that many. */
  lemma CellInside(f: nat, o: nat, frames: nat, size: nat)
    requires f < frames && o < PAGE_SIZE && frames * PAGE_SIZE <= size
    ensures Cell(f, o) < size
  {
    FrameFits(f, frames, size);
  }

  lemma FrameFits(f: nat, frames: nat, size: nat)
    requires f < frames && frames * PAGE_SIZE <= size
    ensures f * PAGE_SIZE + PAGE_SIZE <= size
  {
    MulMonotone(f + 1, frames, PAGE_SIZE);
  }

  /** One page of bytes from `base` on, and the storage with that page overwritten. */
  function PageAt(storage: seq<Byte>, base: nat): seq<Byte>
    requires base + PAGE_SIZE <= |storage|
  {
    storage[base..base + PAGE_SIZE]
  }

  function Overwrite(storage: seq<Byte>, base: nat, page: seq<Byte>): (r: seq<Byte>)
    requires base + PAGE_SIZE <= |storage| && |page| == PAGE_SIZE
    ensures |r| == |storage|
  {
    storage[..base] + page + storage[base + PAGE_SIZE..]
  }

  /** The bytes of frame `fpn`. */
  function Frame(storage: seq<Byte>, fpn: nat): seq<Byte>
    requires fpn * PAGE_SIZE + PAGE_SIZE <= |storage|
  {
    PageAt(storage, fpn * PAGE_SIZE)
  }

  /** The storage with frame `fpn` overwritten. */
  function WithFrame(storage: seq<Byte>, fpn: nat, page: seq<Byte>): (r: seq<Byte>)
    requires fpn * PAGE_SIZE + PAGE_SIZE <= |storage| && |page| == PAGE_SIZE
    ensures |r| == |storage|
  {
    Overwrite(storage, fpn * PAGE_SIZE, page)
  }

  lemma PageAfterOverwrite(storage: seq<Byte>, a: nat, page: seq<Byte>, b: nat)
    requires a + PAGE_SIZE <= |storage| && b + PAGE_SIZE <= |storage| && |page| == PAGE_SIZE
    requires a == b || a + PAGE_SIZE <= b || b + PAGE_SIZE <= a
    ensures PageAt(Overwrite(storage, a, page), b) == if a == b then page else PageAt(storage, b)
  {}

  /** The free list of a device with n frames, where the last pointer set is the one to the last frame. */
  function Formatted(n: nat, rest: seq<nat>): seq<nat> {
    if n == 0 then rest else if n == 1 then [0] + rest else seq(n, i => i)
  }

  /** Formatting yields the free list a device should start with if and only if the device has at least two
      frames, or its unset pointer happened to be NULL. */
  lemma FormattedSound(n: nat, rest: seq<nat>)
    ensures Formatted(n, rest) == seq(n, i => i) <==> n >= 2 || rest == []
  {
    if n == 1 && rest != [] { assert |[0] + rest| > 1; }
    if n == 1 && rest == [] { assert [0] + rest == seq(n, i => i); }
  }

  class Memory {
    const storage: array<Byte>
    var freeFp: seq<nat>

    /** Storage all zero, then formatted. `rest` is the list an unset pointer happens to lead to. */
    constructor (maxsz: nat, rest: seq<nat>)
      ensures fresh(storage) && storage.Length == maxsz
      ensures forall i :: 0 <= i < maxsz ==> storage[i] == 0
      ensures freeFp == Formatted(maxsz / PAGE_SIZE, rest)
    {
      storage := new Byte[maxsz](_ => 0);
      freeFp := rest;
      new;
      var _ := Format(rest);
    }

    /** Builds the list of free frames 0, 1, 2, ... ; a device smaller than a page keeps the list it has. The
        next pointer of the first frame is only ever set when a second one follows; else it leads to `rest`. */
    method Format(rest: seq<nat>) returns (ret: int)
      modifies this`freeFp
      ensures ret == if storage.Length / PAGE_SIZE > 0 then 0 else -1
      ensures freeFp == if ret == 0 then Formatted(storage.Length / PAGE_SIZE, rest) else old(freeFp)
    {
      var numfp := storage.Length / PAGE_SIZE;
      if numfp <= 0 {
        return -1;
      }
      freeFp := [0] + rest;
      var iter := 1;
      while iter < numfp
        invariant 1 <= iter <= numfp
        invariant freeFp == Formatted(iter, rest)
      {
        freeFp := freeFp[..iter] + [iter];
        iter := iter + 1;
      }
      return 0;
    }

    method GetFreeFp() returns (fpn: Option<nat>)
      modifies this`freeFp
      ensures old(freeFp) == [] ==> fpn == None && freeFp == []
      ensures old(freeFp) != [] ==> fpn == Some(old(freeFp)[0]) && freeFp == old(freeFp)[1..]
    {
      if freeFp == [] {
        return None;
      }
      fpn := Some(freeFp[0]);
      freeFp := freeFp[1..];
    }

    method PutFreeFp(fpn: nat)
      modifies this`freeFp
      ensures freeFp == [fpn] + old(freeFp)
    {
      freeFp := [fpn] + freeFp;
    }

    method Read(addr: nat) returns (value: Byte)
      requires addr < storage.Length
      ensures value == storage[addr]
    {
      value := storage[addr];
    }

    method Write(addr: nat, value: Byte)
      requires addr < storage.Length
      modifies storage
      ensures storage[..] == old(storage[..])[addr := value]
    {
      storage[addr] := value;
    }
  }

  /** The storage `was` with its first n cells from d on copied from s on. */
  function Copied(was: seq<Byte>, from: seq<Byte>, s: nat, d: nat, n: nat): seq<Byte>
    requires s + n <= |from| && d + n <= |was|
  {
    was[..d] + from[s..s + n] + was[d + n..]
  }

  lemma OneMoreCell(was: seq<Byte>, from: seq<Byte>, s: nat, d: nat, n: nat)
    requires s + n < |from| && d + n < |was|
    ensures Copied(was, from, s, d, n)[d + n := from[s + n]] == Copied(was, from, s, d, n + 1)
  {}

  /** The copying loop, from address s of one device to address d of another. */
  method CopyCells(src: Memory, s: nat, dst: Memory, d: nat)
    requires src.storage != dst.storage
    requires s + PAGE_SIZE <= src.storage.Length && d + PAGE_SIZE <= dst.storage.Length
    modifies dst.storage
    ensures dst.storage[..] == Overwrite(old(dst.storage[..]), d, PageAt(src.storage[..], s))
  {
    ghost var was, from := dst.storage[..], src.storage[..];
    var cellidx := 0;
    while cellidx < PAGE_SIZE
      invariant 0 <= cellidx <= PAGE_SIZE && src.storage[..] == from
      invariant dst.storage[..] == Copied(was, from, s, d, cellidx)
    {
      var data := src.Read(s + cellidx);
      dst.Write(d + cellidx, data);
      OneMoreCell(was, from, s, d, cellidx);
      cellidx := cellidx + 1;
    }
  }

  /** Copies one frame between two devices, cell by cell. */
  method SwapCpPage(src: Memory, srcfpn: nat, dst: Memory, dstfpn: nat)
    requires src.storage != dst.storage
    requires srcfpn * PAGE_SIZE + PAGE_SIZE <= src.storage.Length
    requires dstfpn * PAGE_SIZE + PAGE_SIZE <= dst.storage.Length
    modifies dst.storage
    ensures dst.storage[..] == WithFrame(old(dst.storage[..]), dstfpn, Frame(src.storage[..], srcfpn))
  {
    CopyCells(src, srcfpn * PAGE_SIZE, dst, dstfpn * PAGE_SIZE);
  }
}
