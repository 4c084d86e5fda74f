/** What the three searches over the index find. */
module Searching {
  import opened Ledger
  import opened Tuples
  import opened Gear

  predicate Fits(s: State, units: nat, k: nat) { HoleAt(s, k) && HoleSize(s, k) >= units }

  /** Smaller, or as small and not further from the start. */
  predicate NoWorse(s: State, k: nat, l: nat)
    requires k < |s.area| && l < |s.area|
  {
    HoleSize(s, k) < HoleSize(s, l) || (HoleSize(s, k) == HoleSize(s, l) && HoleBegin(s, k) <= HoleBegin(s, l))
  }

  /** `r` is the smallest hole of at least `units` units among the first `stop` descriptors,
      the one nearest to the start when there are several. */
  ghost predicate BestUpTo(s: State, units: nat, stop: nat, r: Option<nat>)
  {
    match r
    case None => forall k: nat :: s.head <= k < stop ==> !Fits(s, units, k)
    case Some(b) =>
      b < stop && Fits(s, units, b) && forall k: nat :: s.head <= k < stop && Fits(s, units, k) ==> NoWorse(s, b, k)
  }

  ghost predicate IsBestFit(s: State, units: nat, r: Option<nat>) { BestUpTo(s, units, s.pivot, r) }

  lemma BoundsOf(t: State)
    requires Layout(t)
    ensures Bounds(t)
  {
  }

  lemma SlotOf(s: State, k: nat)
    requires Bounds(s) && s.head <= k < Floor(s)
    ensures Slots(s)[k - s.head] == SlotAt(s, k)
  {
  }

  /** A hole never takes more than the junk volume, nor more than the buffer. */
  lemma HoleBounds(s: State, k: nat)
    requires Layout(s) && HoleAt(s, k)
    ensures HoleSize(s, k) <= s.volume <= s.tail - Floor(s) && s.count >= 1
    ensures HoleSize(s, k) > 0 ==> Floor(s) <= HoleBegin(s, k) && HoleEnd(s, k) <= s.tail
  {
    SlotOf(s, k);
    SumsBound(Slots(s), k - s.head);
    VolumeAtMostTotal(Slots(s));
  }

  lemma GapsApart(s: State, k: nat, l: nat)
    requires Layout(s) && GapAt(s, k) && GapAt(s, l) && k != l
    ensures HoleEnd(s, k) <= HoleBegin(s, l) || HoleEnd(s, l) <= HoleBegin(s, k)
  {
    SlotOf(s, k);
    SlotOf(s, l);
    ApartAt(Slots(s), k - s.head, l - s.head);
  }

  /** The holes from descriptor `scan` on. */
  ghost function HolesFrom(s: State, scan: nat): nat
    requires Bounds(s) && s.head <= scan <= s.pivot
  {
    Holes(Slots(s)[scan - s.head..])
  }

  lemma {:induction false} NoHolesInRefs(s: State, scan: nat)
    requires Bounds(s) && s.pivot <= scan <= Floor(s)
    ensures Holes(Slots(s)[scan - s.head..]) == 0
    decreases Floor(s) - scan
  {
    var c := Slots(s)[scan - s.head..];
    if scan < Floor(s) {
      SlotOf(s, scan);
      assert c[1..] == Slots(s)[scan + 1 - s.head..];
      NoHolesInRefs(s, scan + 1);
    }
  }

  lemma HolesFromStep(s: State, scan: nat)
    requires Bounds(s) && s.head <= scan < s.pivot
    ensures HolesFrom(s, scan) == HolesFrom(s, scan + 1) + (if IsHole(s.area[scan]) then 1 else 0)
  {
    SlotOf(s, scan);
    assert Slots(s)[scan - s.head..][1..] == Slots(s)[scan + 1 - s.head..];
  }

  lemma {:induction false} NoHolesLeft(s: State, scan: nat, k: nat)
    requires Bounds(s) && s.head <= scan <= k < s.pivot && HolesFrom(s, scan) == 0
    ensures !IsHole(s.area[k])
    decreases k - scan
  {
    HolesFromStep(s, scan);
    if scan < k {
      NoHolesLeft(s, scan + 1, k);
    }
  }

  lemma WrapIsExact(size: nat, units: nat)
    requires size <= MAX_UNITS && units <= MAX_UNITS
    ensures size >= units ==> Wrap32(size - units) == size - units
    ensures size < units ==> Wrap32(size - units) == size - units + 0x1_0000_0000
  {
  }

  lemma BestFitStep(s: State, units: nat, scan: nat, found: Option<nat>)
    requires Layout(s) && 0 < units <= MAX_UNITS && HoleAt(s, scan)
    requires BestUpTo(s, units, scan, found)
    ensures var found' := if HoleSize(s, scan) >= units then Some(BestFit(s, units, found, scan)) else found;
            BestUpTo(s, units, scan + 1, found')
  {
    HoleBounds(s, scan);
    WrapIsExact(HoleSize(s, scan), units);
    if found.Some? {
      HoleBounds(s, found.value);
      WrapIsExact(HoleSize(s, found.value), units);
    }
    hide Layout;
  }

  lemma BestFitSkip(s: State, units: nat, scan: nat, stop: nat, found: Option<nat>)
    requires scan <= stop && BestUpTo(s, units, scan, found)
    requires forall k: nat :: scan <= k < stop ==> !Fits(s, units, k)
    ensures BestUpTo(s, units, stop, found)
  {
  }

  /** The loop finds the best hole even though it stops as soon as it has met as many holes as
      the junk counter says there are. */
  lemma {:induction false} ScanFindsBest(s: State, units: nat, scan: nat, left: int, found: Option<nat>)
    requires Layout(s) && 0 < units <= MAX_UNITS && s.head <= scan <= s.pivot
    requires left == HolesFrom(s, scan)
    requires BestUpTo(s, units, scan, found) && (found.Some? ==> found.value < scan)
    ensures IsBestFit(s, units, ScanForBestFit(s, units, scan, left, found))
    decreases s.pivot - scan
  {
    hide Packed, Slots, HolesMarked, AreNeighbours, BestUpTo;
    if left == 0 {
      forall k: nat | scan <= k < s.pivot ensures !Fits(s, units, k) {
        NoHolesLeft(s, scan, k);
      }
      BestFitSkip(s, units, scan, s.pivot, found);
    } else if scan < s.pivot {
      HolesFromStep(s, scan);
      if !IsHole(s.area[scan]) {
        BestFitSkip(s, units, scan, scan + 1, found);
        ScanFindsBest(s, units, scan + 1, left, found);
      } else {
        BestFitStep(s, units, scan, found);
        var found' := if HoleSize(s, scan) >= units then Some(BestFit(s, units, found, scan)) else found;
        ScanFindsBest(s, units, scan + 1, left - 1, found');
      }
    }
  }

  /** lookup_hole in best-fit mode returns the smallest hole that fits, the lowest address on a
      tie, and nothing exactly when none fits. */
  lemma LookupFindsBest(s: State, units: nat)
    requires Layout(s) && 0 < units <= MAX_UNITS
    ensures IsBestFit(s, units, LookupBestFit(s, units))
  {
    if s.count < 1 || s.volume < units {
      forall k: nat | s.head <= k < s.pivot ensures !Fits(s, units, k) {
        if HoleAt(s, k) { HoleBounds(s, k); }
      }
    } else {
      assert Slots(s)[0..] == Slots(s);
      ScanFindsBest(s, units, s.head, s.count, None);
    }
  }

  /** The best fit is unique. */
  lemma BestFitIsUnique(s: State, units: nat, a: Option<nat>, b: Option<nat>)
    requires Layout(s) && units > 0 && IsBestFit(s, units, a) && IsBestFit(s, units, b)
    ensures a == b
  {
    if a.Some? && b.Some? && a != b {
      GapsApart(s, a.value, b.value);
    }
  }

  /** lookup_hole in exact-size mode finds the first hole of that size, and nothing exactly when
      there is none. */
  lemma LookupExactFinds(s: State, units: nat)
    requires Layout(s)
    ensures match LookupExact(s, units)
            case None => forall k: nat :: HoleAt(s, k) ==> HoleSize(s, k) != units
            case Some(h) =>
              && HoleAt(s, h) && HoleSize(s, h) == units
              && forall k: nat :: HoleAt(s, k) && k < h ==> HoleSize(s, k) != units
  {
    forall k: nat | HoleAt(s, k) ensures s.count >= 1 && HoleSize(s, k) <= s.volume {
      HoleBounds(s, k);
    }
    forall k: nat | HoleAt(s, k) && HoleSize(s, k) == units ensures s.area[k].tag == MakeHole(units) {}
  }

  /** The hole, if any, that ends where the chunk begins, and the one that begins where it ends. */
  ghost predicate AreNeighbours(s: State, begin: int, end: int, stop: nat, before: Option<nat>, after: Option<nat>) {
    && (before.Some? ==> before.value < stop && GapAt(s, before.value) && HoleEnd(s, before.value) == begin)
    && (after.Some? ==> after.value < stop && GapAt(s, after.value) && HoleBegin(s, after.value) == end)
    && (before.None? ==> forall k: nat :: k < stop && GapAt(s, k) ==> HoleEnd(s, k) != begin)
    && (after.None? ==> forall k: nat :: k < stop && GapAt(s, k) ==> HoleBegin(s, k) != end)
  }

  lemma NeighboursStep(s: State, begin: int, end: int, scan: nat, before: Option<nat>, after: Option<nat>)
    requires GapAt(s, scan) && AreNeighbours(s, begin, end, scan, before, after)
    ensures AreNeighbours(s, begin, end, scan + 1,
                          if HoleEnd(s, scan) == begin then Some(scan) else before,
                          if end == HoleBegin(s, scan) then Some(scan) else after)
  {
  }

  lemma NeighboursSkip(s: State, begin: int, end: int, scan: nat, stop: nat, before: Option<nat>, after: Option<nat>)
    requires scan <= stop && AreNeighbours(s, begin, end, scan, before, after)
    requires forall k: nat :: scan <= k < stop ==> !GapAt(s, k)
    ensures AreNeighbours(s, begin, end, stop, before, after)
  {
  }

  lemma {:induction false} ScanFindsNeighbours(s: State, begin: int, end: int, scan: nat, left: int,
                                               before: Option<nat>, after: Option<nat>)
    requires Layout(s) && s.head <= scan <= s.pivot && left == HolesFrom(s, scan)
    requires AreNeighbours(s, begin, end, scan, before, after)
    ensures var r := ScanForAdjacent(s, begin, end, scan, left, before, after);
            AreNeighbours(s, begin, end, s.pivot, r.0, r.1)
    decreases s.pivot - scan
  {
    hide Packed, Slots, HolesMarked, AreNeighbours, BestUpTo;
    if left == 0 {
      forall k: nat | scan <= k < s.pivot ensures !GapAt(s, k) {
        NoHolesLeft(s, scan, k);
      }
      NeighboursSkip(s, begin, end, scan, s.pivot, before, after);
    } else if scan < s.pivot {
      HolesFromStep(s, scan);
      if !GapAt(s, scan) {
        NeighboursSkip(s, begin, end, scan, scan + 1, before, after);
      } else {
        NeighboursStep(s, begin, end, scan, before, after);
      }
      if !IsHole(s.area[scan]) {
        ScanFindsNeighbours(s, begin, end, scan + 1, left, before, after);
      } else if HoleSize(s, scan) == 0 {
        ScanFindsNeighbours(s, begin, end, scan + 1, left - 1, before, after);
      } else {
        var after' := if end == HoleBegin(s, scan) then Some(scan) else after;
        var before' := if HoleEnd(s, scan) == begin then Some(scan) else before;
        ScanFindsNeighbours(s, begin, end, scan + 1, left - 1, before', after');
      }
    }
  }

  lemma AdjacentFound(s: State, begin: int, end: int)
    requires Layout(s)
    ensures var r := AdjacentHoles(s, begin, end);
            AreNeighbours(s, begin, end, s.pivot, r.0, r.1)
  {
    assert Slots(s)[0..] == Slots(s);
    ScanFindsNeighbours(s, begin, end, s.head, s.count, None, None);
  }
}
