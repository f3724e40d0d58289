/** The walks over a process's list of areas (src/mm-vm.c). */
module Areas {
  datatype Area = Area(id: nat, start: nat, end: nat)

  predicate Overlaps(a: Area, start: nat, end: nat) {
    a.start < end && start < a.end
  }

  /** The three interval tests of the walk. */
  predicate Clashes(a: Area, start: nat, end: nat) {
    || (start >= a.start && start < a.end)
    || (end > a.start && end <= a.end)
    || (start < a.start && end > a.end)
  }

  /** Together they are exactly interval overlap, for a request and an area that are not empty. */
  lemma ClashesIsOverlap(a: Area, start: nat, end: nat)
    requires start < end && a.start < a.end
    ensures Clashes(a, start, end) <==> Overlaps(a, start, end)
  {}

  /** The new range is refused if and only if some area other than the one that grows clashes with it. */
  method ValidateOverlapVmArea(areas: seq<Area>, vmaid: nat, start: nat, end: nat) returns (ret: int)
    ensures ret == 0 || ret == -1
    ensures ret == -1 <==> areas == [] || exists a :: a in areas && a.id != vmaid && Clashes(a, start, end)
  {
    if areas == [] {
      return -1;
    }
    var i := 0;
    while i < |areas|
      invariant 0 <= i <= |areas|
      invariant forall a :: a in areas[..i] && a.id != vmaid ==> !Clashes(a, start, end)
    {
      var vma := areas[i];
      if vmaid != vma.id {
        if Clashes(vma, start, end) {
          assert vma in areas;
          return -1;
        }
      }
      i := i + 1;
    }
    return 0;
  }

  /** The only area init_mm creates never stands in its own way. */
  lemma SingleAreaNeverClashes(area: Area, start: nat, end: nat)
    ensures !exists a :: a in [area] && a.id != area.id && Clashes(a, start, end)
  {}
}
