/** Virtual memory regions and the free list of a process: insertion, coalescing on free and first fit
    (src/libmem.c). The list is the sequence of its nodes, front first. */
module Regions {

  datatype Region = Region(start: nat, end: nat)

  predicate In(r: Region, a: nat) {
    r.start <= a < r.end
  }

  predicate WellFormed(l: seq<Region>) {
    forall i :: 0 <= i < |l| ==> l[i].start <= l[i].end
  }

  /** Address-sorted, no empty entry, and a gap between any two entries. */
  predicate Canonical(l: seq<Region>) {
    && (forall i :: 0 <= i < |l| ==> l[i].start < l[i].end)
    && (forall i, j :: 0 <= i < j < |l| ==> l[i].end < l[j].start)
  }

  /** How many entries of l contain address a. */
  function Count(l: seq<Region>, a: nat): nat {
    if l == [] then 0 else (if In(l[0], a) then 1 else 0) + Count(l[1..], a)
  }

  function One(r: Region, a: nat): nat {
    if In(r, a) then 1 else 0
  }

  lemma CanonicalTail(l: seq<Region>)
    requires Canonical(l) && l != []
    ensures Canonical(l[1..]) && forall x :: x in l[1..] ==> l[0].end < x.start
  {}

  lemma CanonicalCons(h: Region, l: seq<Region>)
    requires Canonical(l) && h.start < h.end && forall x :: x in l ==> h.end < x.start
    ensures Canonical([h] + l)
  {
    var m := [h] + l;
    forall i, j | 0 <= i < j < |m| ensures m[i].end < m[j].start {
      assert m[j] == l[j - 1];
      if i > 0 { assert m[i] == l[i - 1]; } else { assert l[j - 1] in l; }
    }
  }

  // ------------------------------------------------------------------ counting

  lemma {:induction false} CountConcat(l: seq<Region>, m: seq<Region>, a: nat)
    ensures Count(l + m, a) == Count(l, a) + Count(m, a)
  {
    if l == [] {
      assert l + m == m;
    } else {
      assert (l + m)[1..] == l[1..] + m;
      CountConcat(l[1..], m, a);
    }
  }

  lemma CountUpdate(l: seq<Region>, i: nat, r: Region, a: nat)
    requires i < |l|
    ensures Count(l[i := r], a) == Count(l, a) - One(l[i], a) + One(r, a)
  {
    assert l == l[..i] + ([l[i]] + l[i + 1..]);
    assert l[i := r] == l[..i] + ([r] + l[i + 1..]);
    CountConcat(l[..i], [l[i]] + l[i + 1..], a);
    CountConcat(l[..i], [r] + l[i + 1..], a);
  }

  lemma {:induction false} CountMember(l: seq<Region>, i: nat, a: nat)
    requires i < |l| && In(l[i], a)
    ensures Count(l, a) >= 1
  {
    CountUpdate(l, i, Region(0, 0), a);
  }

  lemma CountTwo(l: seq<Region>, i: nat, j: nat, a: nat)
    requires i < |l| && j < |l| && i != j && In(l[i], a) && In(l[j], a)
    ensures Count(l, a) >= 2
  {
    CountUpdate(l, i, Region(0, 0), a);
    CountMember(l[i := Region(0, 0)], j, a);
  }

  lemma {:induction false} CountWitness(l: seq<Region>, a: nat) returns (i: nat)
    requires Count(l, a) >= 1
    ensures i < |l| && In(l[i], a)
  {
    if In(l[0], a) {
      i := 0;
    } else {
      i := CountWitness(l[1..], a);
      i := i + 1;
    }
  }

  /** A canonical list covers every address at most once. */
  lemma CanonicalCountsOnce(l: seq<Region>, a: nat)
    requires Canonical(l)
    ensures Count(l, a) <= 1
  {
    if l != [] {
      CanonicalTail(l);
      CanonicalCountsOnce(l[1..], a);
      if Count(l[1..], a) >= 1 {
        var i := CountWitness(l[1..], a);
        assert l[1..][i] in l[1..];
      }
    }
  }

  /** A canonical list is determined by the addresses it covers, so "the set of free bytes" fixes the
      free list entry by entry. */
  lemma {:induction false} CanonicalUnique(l: seq<Region>, m: seq<Region>)
    requires Canonical(l) && Canonical(m)
    requires forall a: nat :: Count(l, a) == Count(m, a)
    ensures l == m
  {
    if l == [] {
      if m != [] { CountMember(m, 0, m[0].start); }
    } else if m == [] {
      CountMember(l, 0, l[0].start);
    } else {
      SameHead(l, m);
      SameHead(m, l);
      assert l[0] == m[0];
      CanonicalTail(l);
      CanonicalTail(m);
      forall a: nat ensures Count(l[1..], a) == Count(m[1..], a) {
        assert Count(l, a) == Count(m, a);
      }
      CanonicalUnique(l[1..], m[1..]);
    }
  }

  /** The first entry of a canonical list starts no later, and reaches no less far, than any other
      canonical list with the same addresses says. */
  lemma SameHead(l: seq<Region>, m: seq<Region>)
    requires Canonical(l) && Canonical(m) && l != [] && m != []
    requires forall a: nat :: Count(l, a) == Count(m, a)
    ensures m[0].start <= l[0].start
    ensures l[0].start == m[0].start ==> l[0].end <= m[0].end
  {
    CountMember(l, 0, l[0].start);
    var i := CountWitness(m, l[0].start);
    if l[0].start == m[0].start && m[0].end < l[0].end {
      CountMember(l, 0, m[0].end);
      var j := CountWitness(m, m[0].end);
    }
  }

  // ------------------------------------------------------------------ enlist_vm_freerg_list

  /** Where enlist_vm_freerg_list links a region in: before the first node that starts at or after its end. */
  function Insert(l: seq<Region>, r: Region): seq<Region> {
    if l == [] then [r]
    else if l[0].start >= r.end then [r] + l
    else [l[0]] + Insert(l[1..], r)
  }

  /** The region goes in front of the first node that does not start before its end. */
  lemma {:induction false} InsertAt(l: seq<Region>, i: nat, r: Region)
    requires i <= |l| && (i < |l| ==> l[i].start >= r.end)
    requires forall j :: 0 <= j < i ==> l[j].start < r.end
    ensures Insert(l, r) == l[..i] + [r] + l[i..]
  {
    if i > 0 {
      InsertAt(l[1..], i - 1, r);
      assert l[..i] == [l[0]] + l[1..][..i - 1];
    }
  }

  /** The whole call: an empty region is refused and the list stays as it is. */
  function Enlisted(l: seq<Region>, r: Region): seq<Region> {
    if r.start >= r.end then l else Insert(l, r)
  }

  lemma {:induction false} EnlistedCount(l: seq<Region>, r: Region, a: nat)
    ensures Count(Enlisted(l, r), a) == Count(l, a) + One(r, a)
  {
    if r.start < r.end && l != [] && l[0].start < r.end {
      EnlistedCount(l[1..], r, a);
    }
  }

  /** Neither overlaps nor touches any entry. */
  predicate Apart(l: seq<Region>, r: Region) {
    forall i :: 0 <= i < |l| ==> l[i].end < r.start || r.end < l[i].start
  }

  lemma {:induction false} InsertCanonical(l: seq<Region>, r: Region)
    requires Canonical(l) && Apart(l, r) && r.start < r.end
    ensures Canonical(Insert(l, r))
    ensures forall x :: x in Insert(l, r) ==> x == r || x in l
  {
    if l != [] && l[0].start < r.end {
      CanonicalTail(l);
      assert Apart(l[1..], r);
      InsertCanonical(l[1..], r);
      CanonicalCons(l[0], Insert(l[1..], r));
    } else {
      assert forall x :: x in l ==> r.end < x.start;
      CanonicalCons(r, l);
    }
  }

  // ------------------------------------------------------------------ the coalescing pass of __free

  /** The single pass: every node that ends where the region starts, or starts where it ends, is unlinked
      and swallowed; the result is what stays in the list and the region grown so far. */
  function Absorb(l: seq<Region>, r: Region): (seq<Region>, Region) {
    if l == [] then ([], r)
    else if l[0].end == r.start then Absorb(l[1..], Region(l[0].start, r.end))
    else if l[0].start == r.end then Absorb(l[1..], Region(r.start, l[0].end))
    else
      var (rest, g) := Absorb(l[1..], r);
      ([l[0]] + rest, g)
  }

  /** The pass moves addresses from the list into the region and loses none. */
  lemma {:induction false} AbsorbCount(l: seq<Region>, r: Region, a: nat)
    requires WellFormed(l) && r.start <= r.end
    ensures var (rest, g) := Absorb(l, r);
            g.start <= g.end && Count(rest, a) + One(g, a) == Count(l, a) + One(r, a)
  {
    if l != [] {
      assert WellFormed(l[1..]);
      if l[0].end == r.start {
        AbsorbCount(l[1..], Region(l[0].start, r.end), a);
      } else if l[0].start == r.end {
        AbsorbCount(l[1..], Region(r.start, l[0].end), a);
      } else {
        AbsorbCount(l[1..], r, a);
      }
    }
  }

  /** No address of r is free already. */
  predicate Disjoint(l: seq<Region>, r: Region) {
    forall i :: 0 <= i < |l| ==> l[i].end <= r.start || r.end <= l[i].start
  }

  lemma {:induction false} AbsorbCanonical(l: seq<Region>, r: Region)
    requires Canonical(l)
    ensures Canonical(Absorb(l, r).0) && forall x :: x in Absorb(l, r).0 ==> x in l
  {
    if l != [] {
      CanonicalTail(l);
      if l[0].end == r.start {
        AbsorbCanonical(l[1..], Region(l[0].start, r.end));
      } else if l[0].start == r.end {
        AbsorbCanonical(l[1..], Region(r.start, l[0].end));
      } else {
        AbsorbCanonical(l[1..], r);
        CanonicalCons(l[0], Absorb(l[1..], r).0);
      }
    }
  }

  /** The region grows on each side by at most the one entry that touches it there. */
  lemma {:induction false} AbsorbReach(l: seq<Region>, r: Region)
    requires Canonical(l) && Disjoint(l, r) && r.start <= r.end
    ensures var g := Absorb(l, r).1;
            && g.start <= r.start && r.end <= g.end
            && (g.start == r.start || exists x :: x in l && x.start == g.start && x.end == r.start)
            && (g.end == r.end || exists x :: x in l && x.end == g.end && x.start == r.end)
  {
    if l != [] {
      CanonicalTail(l);
      if l[0].end == r.start {
        AbsorbReach(l[1..], Region(l[0].start, r.end));
      } else if l[0].start == r.end {
        AbsorbReach(l[1..], Region(r.start, l[0].end));
      } else {
        AbsorbReach(l[1..], r);
      }
    }
  }

  /** One pass suffices: what stays behind neither overlaps nor touches the grown region. */
  lemma {:induction false} AbsorbApart(l: seq<Region>, r: Region)
    requires Canonical(l) && Disjoint(l, r) && r.start <= r.end
    ensures Apart(Absorb(l, r).0, Absorb(l, r).1)
  {
    if l != [] {
      CanonicalTail(l);
      if l[0].end == r.start {
        AbsorbApart(l[1..], Region(l[0].start, r.end));
      } else if l[0].start == r.end {
        AbsorbApart(l[1..], Region(r.start, l[0].end));
      } else {
        AbsorbApart(l[1..], r);
        AbsorbReach(l[1..], r);
      }
    }
  }

  /** __free on the free list: coalesce, then link the grown region in. */
  function Freed(l: seq<Region>, r: Region): seq<Region> {
    var (rest, g) := Absorb(l, r);
    Enlisted(rest, g)
  }

  lemma FreedCount(l: seq<Region>, r: Region, a: nat)
    requires WellFormed(l) && r.start <= r.end
    ensures Count(Freed(l, r), a) == Count(l, a) + One(r, a)
  {
    AbsorbCount(l, r, a);
    EnlistedCount(Absorb(l, r).0, Absorb(l, r).1, a);
  }

  lemma FreedCanonical(l: seq<Region>, r: Region)
    requires Canonical(l) && Disjoint(l, r) && r.start <= r.end
    ensures Canonical(Freed(l, r))
  {
    AbsorbCanonical(l, r);
    AbsorbApart(l, r);
    if Absorb(l, r).1.start < Absorb(l, r).1.end {
      InsertCanonical(Absorb(l, r).0, Absorb(l, r).1);
    }
  }

  lemma {:induction false} AbsorbSpans(l: seq<Region>, r: Region)
    requires WellFormed(l) && r.start <= r.end
    ensures Absorb(l, r).1.start <= r.start && r.end <= Absorb(l, r).1.end
  {
    if l != [] {
      assert WellFormed(l[1..]);
      if l[0].end == r.start {
        AbsorbSpans(l[1..], Region(l[0].start, r.end));
      } else if l[0].start == r.end {
        AbsorbSpans(l[1..], Region(r.start, l[0].end));
      } else {
        AbsorbSpans(l[1..], r);
      }
    }
  }

  /** The entry touches the region at one of its ends. */
  predicate Touches(x: Region, r: Region) {
    x.end == r.start || x.start == r.end
  }

  lemma {:induction false} AbsorbTouching(l: seq<Region>, r: Region, x: Region)
    requires Canonical(l) && r.start <= r.end && x in l && Touches(x, r)
    ensures Absorb(l, r).1.start < Absorb(l, r).1.end
  {
    CanonicalTail(l);
    assert l[0].start < l[0].end;
    if l[0].end == r.start {
      AbsorbSpans(l[1..], Region(l[0].start, r.end));
    } else if l[0].start == r.end {
      AbsorbSpans(l[1..], Region(r.start, l[0].end));
    } else {
      AbsorbTouching(l[1..], r, x);
    }
  }

  /** The pass ends with bytes to give back if and only if it started with some or met a neighbour. */
  lemma AbsorbYields(l: seq<Region>, r: Region)
    requires Canonical(l) && r.start <= r.end
    ensures Absorb(l, r).1.start < Absorb(l, r).1.end <==> r.start < r.end || exists x :: x in l && Touches(x, r)
  {
    AbsorbSpans(l, r);
    if x :| x in l && Touches(x, r) {
      AbsorbTouching(l, r, x);
    } else {
      NothingToAbsorb(l, r);
    }
  }

  lemma {:induction false} NothingToAbsorb(l: seq<Region>, r: Region)
    requires forall x :: x in l ==> x.end != r.start && x.start != r.end
    ensures Absorb(l, r) == (l, r)
  {
    if l != [] {
      NothingToAbsorb(l[1..], r);
      assert l == [l[0]] + l[1..];
    }
  }

  /** Freeing an empty region, wherever it lies, leaves the free list exactly as it was. */
  lemma FreeingNothing(l: seq<Region>, a: nat)
    requires Canonical(l)
    ensures Freed(l, Region(a, a)) == l
  {
    var r := Region(a, a);
    if Disjoint(l, r) {
      FreedCanonical(l, r);
      forall x: nat ensures Count(Freed(l, r), x) == Count(l, x) { FreedCount(l, r, x); }
      CanonicalUnique(Freed(l, r), l);
    } else {
      var i :| 0 <= i < |l| && l[i].start < a < l[i].end;
      forall x | x in l ensures x.end != a && x.start != a {
        var j :| 0 <= j < |l| && l[j] == x;
        assert j < i ==> l[j].end < l[i].start;
        assert i < j ==> l[i].end < l[j].start;
      }
      NothingToAbsorb(l, r);
    }
  }

  /** A region none of whose addresses is free lies between the entries. */
  lemma DisjointFromCount(l: seq<Region>, r: Region)
    requires WellFormed(l) && r.start < r.end && forall a: nat :: Count(l, a) + One(r, a) <= 1
    ensures forall i :: 0 <= i < |l| && l[i].start < l[i].end ==> l[i].end <= r.start || r.end <= l[i].start
  {
    forall i | 0 <= i < |l| && l[i].start < l[i].end ensures l[i].end <= r.start || r.end <= l[i].start {
      var a := if l[i].start < r.start then r.start else l[i].start;
      if In(l[i], a) { CountMember(l, i, a); }
      assert Count(l, a) + One(r, a) <= 1;
    }
  }

  // ------------------------------------------------------------------ get_free_vmrg_area

  /** The first entry with room for `size` bytes, or |l|. */
  function FirstFit(l: seq<Region>, size: nat): (i: nat)
    ensures i <= |l|
    ensures i < |l| ==> l[i].end - l[i].start >= size
    ensures forall j :: 0 <= j < i ==> l[j].end - l[j].start < size
  {
    if l == [] then 0
    else if l[0].end - l[0].start >= size then 0
    else 1 + FirstFit(l[1..], size)
  }

  /** The chosen entry is unlinked and what remains of it is linked back in. */
  function Carve(l: seq<Region>, i: nat, size: nat): seq<Region>
    requires i < |l|
  {
    Enlisted(l[..i] + l[i + 1..], Region(l[i].start + size, l[i].end))
  }

  lemma CarveCount(l: seq<Region>, i: nat, size: nat, a: nat)
    requires i < |l| && l[i].start + size <= l[i].end
    ensures Count(Carve(l, i, size), a) + One(Region(l[i].start, l[i].start + size), a) == Count(l, a)
  {
    assert l == l[..i] + ([l[i]] + l[i + 1..]);
    CountConcat(l[..i], [l[i]] + l[i + 1..], a);
    CountConcat(l[..i], l[i + 1..], a);
    EnlistedCount(l[..i] + l[i + 1..], Region(l[i].start + size, l[i].end), a);
  }

  lemma CarveCanonical(l: seq<Region>, i: nat, size: nat)
    requires Canonical(l) && i < |l| && l[i].start + size <= l[i].end
    ensures Canonical(Carve(l, i, size))
  {
    var rest := l[..i] + l[i + 1..];
    assert forall j :: 0 <= j < |rest| ==> rest[j] == if j < i then l[j] else l[j + 1];
    if l[i].start + size < l[i].end {
      assert Apart(rest, Region(l[i].start + size, l[i].end)) by {
        forall j | 0 <= j < |rest|
          ensures rest[j].end < l[i].start + size || l[i].end < rest[j].start
        {
          if j < i { assert l[j].end < l[i].start; } else { assert l[i].end < l[j + 1].start; }
        }
      }
      InsertCanonical(rest, Region(l[i].start + size, l[i].end));
    }
  }

  /** First fit takes the lowest-addressed free region that is large enough. */
  lemma FirstFitIsLowest(l: seq<Region>, size: nat, j: nat)
    requires Canonical(l) && j < |l| && l[j].end - l[j].start >= size
    ensures FirstFit(l, size) < |l| && l[FirstFit(l, size)].start <= l[j].start
  {
    assert FirstFit(l, size) <= j;
  }

  /** Giving back what was carved restores the free list entry by entry. */
  lemma CarveThenFree(l: seq<Region>, i: nat, size: nat)
    requires Canonical(l) && i < |l| && l[i].start + size <= l[i].end
    ensures Freed(Carve(l, i, size), Region(l[i].start, l[i].start + size)) == l
  {
    var m, r := Carve(l, i, size), Region(l[i].start, l[i].start + size);
    CarveCanonical(l, i, size);
    if size == 0 {
      FreeingNothing(m, l[i].start);
      forall a: nat ensures Count(m, a) == Count(l, a) { CarveCount(l, i, size, a); }
      CanonicalUnique(m, l);
    } else {
      forall a: nat ensures Count(m, a) + One(r, a) == Count(l, a) <= 1 {
        CarveCount(l, i, size, a);
        CanonicalCountsOnce(l, a);
      }
      DisjointFromCount(m, r);
      FreedCanonical(m, r);
      forall a: nat ensures Count(Freed(m, r), a) == Count(l, a) { FreedCount(m, r, a); }
      CanonicalUnique(Freed(m, r), l);
    }
  }
}
