/** alloc_data: a reference gets a chunk from a hole or from the tail. */
module Allocating {
  import opened Ledger
  import opened Tuples
  import opened Gear
  import opened Searching
  import opened Keeping
  import opened Merging
  import opened Reclaiming

  /** A reference that owns nothing. */
  ghost predicate Vacant(s: State, k: nat) {
    s.head <= k < Floor(s) <= |s.area| && Refers(s, k) && (s.area[k].own == 0 || s.area[k].rel == 0)
  }

  lemma ReferSlots(s: State, k: nat, begin: int, units: nat)
    requires Bounds(s) && Vacant(s, k) && begin > k
    ensures Bounds(Refer(s, k, begin, units))
    ensures Slots(Refer(s, k, begin, units)) == Slots(s)[k - s.head := Slot(false, begin, units)]
    ensures SlotAt(s, k).units == 0 && !SlotAt(s, k).hole
  {
    hide Slots;
    PutSlots(s, k, s.area[k].(rel := begin - k, own := units));
  }

  // ---- From the tail ---------------------------------------------------------------------------

  function TakenFromTail(s: State, k: nat, units: nat): State
    requires k < |s.area|
  {
    Refer(s, k, s.tail, units).(tail := s.tail + units)
  }

  lemma FromTailKeeps(s: State, k: nat, units: nat)
    requires Good(s) && Vacant(s, k) && 0 < units <= TailSpace(s)
    ensures Good(TakenFromTail(s, k, units)) && Chunk(TakenFromTail(s, k, units), k, s.tail, units)
    ensures SameHoles(s, TakenFromTail(s, k, units))
  {
    FromTailClear(s, k, units);
    FromTailLayout(s, k, units);
    hide Packed, Slots, HolesMarked, Separated, Clear, TightHead;
    SameHolesMeans(s, TakenFromTail(s, k, units));
  }

  lemma FromTailClear(s: State, k: nat, units: nat)
    requires Good(s) && Vacant(s, k) && 0 < units <= TailSpace(s)
    ensures Clear(TakenFromTail(s, k, units)) && SameHoles(s, TakenFromTail(s, k, units))
  {
    hide Packed, Slots, HolesMarked, Separated, TightHead;
    var t := TakenFromTail(s, k, units);
    forall g: nat | GapAt(t, g) ensures HoleEnd(t, g) != t.tail {
      HoleBounds(s, g);
    }
  }

  lemma FromTailLayout(s: State, k: nat, units: nat)
    requires Layout(s) && Vacant(s, k) && 0 < units <= TailSpace(s)
    ensures Layout(TakenFromTail(s, k, units))
  {
    hide Packed, Slots, HolesMarked;
    var t := TakenFromTail(s, k, units);
    ReferSlots(s, k, s.tail, units);
    SameSlots(Refer(s, k, s.tail, units), t);
    SameHolesMeans(s, t);
    SlotOf(s, k);
    LayoutAfterTail(s, t, k - s.head, Slot(false, s.tail, units));
  }

  // ---- From a hole --------------------------------------------------------------------------------

  /** Reference `k` takes the first `units` units of hole `h`; `rest` describes what is left. */
  function TakenFromHole(s: State, k: nat, h: nat, units: nat, rest: Unit): State
    requires k < |s.area| && h < |s.area|
  {
    Refer(Put(s, h, rest).(volume := s.volume - units), k, HoleBegin(s, h), units)
  }

  /** The remainder of hole `h` once its first `units` units are taken. */
  function Rest(s: State, h: nat, units: nat): Unit
    requires h < |s.area| && units <= HoleSize(s, h)
  {
    if units == HoleSize(s, h) then EMPTY_HOLE else HoleUnit(h, HoleBegin(s, h) + units, HoleSize(s, h) - units)
  }

  function RestOnly(s: State, h: nat, units: nat): State
    requires h < |s.area| && units <= HoleSize(s, h)
  {
    Put(s, h, Rest(s, h, units)).(volume := s.volume - units)
  }

  lemma RestOnlySlots(s: State, k: nat, h: nat, units: nat)
    requires Layout(s) && Vacant(s, k) && GapAt(s, h) && 0 < units <= HoleSize(s, h)
    ensures var v := RestOnly(s, h, units);
            Bounds(v) && Vacant(v, k) && Slots(v) == Slots(s)[h - s.head := SlotAt(v, h)] && k != h
  {
    hide Packed, Slots, HolesMarked, Rest;
    var u := Put(s, h, Rest(s, h, units));
    PutSlots(s, h, Rest(s, h, units));
    SameSlots(u, RestOnly(s, h, units));
  }

  lemma FromHoleSlots(s: State, k: nat, h: nat, units: nat)
    requires Layout(s) && Vacant(s, k) && GapAt(s, h) && 0 < units <= HoleSize(s, h)
    ensures var t := TakenFromHole(s, k, h, units, Rest(s, h, units));
            && Bounds(t) && k != h
            && Slots(t) == Slots(s)[h - s.head := SlotAt(t, h)][k - s.head := Slot(false, HoleBegin(s, h), units)]
  {
    HoleBounds(s, h);
    RestOnlySlots(s, k, h, units);
    hide Layout, Rest;
    ReferSlots(RestOnly(s, h, units), k, HoleBegin(s, h), units);
  }

  lemma FromHoleMarked(s: State, k: nat, h: nat, units: nat)
    requires Layout(s) && Vacant(s, k) && GapAt(s, h) && 0 < units <= HoleSize(s, h)
    ensures var t := TakenFromHole(s, k, h, units, Rest(s, h, units));
            && Bounds(t) && HolesMarked(t) && SlotAt(t, h).hole && SlotAt(t, h).units == HoleSize(s, h) - units
            && (SlotAt(t, h).units > 0 ==> SlotAt(t, h).begin == HoleBegin(s, h) + units)
  {
    hide Packed, Slots;
    HoleBounds(s, h);
  }

  lemma FromHoleLayout(s: State, k: nat, h: nat, units: nat)
    requires Layout(s) && Vacant(s, k) && GapAt(s, h) && 0 < units <= HoleSize(s, h)
    ensures Layout(TakenFromHole(s, k, h, units, Rest(s, h, units)))
  {
    FromHoleMarked(s, k, h, units);
    FromHoleSlots(s, k, h, units);
    var t := TakenFromHole(s, k, h, units, Rest(s, h, units));
    var x, y := SlotAt(t, h), Slot(false, HoleBegin(s, h), units);
    var i, j := h - s.head, k - s.head;
    assert t.tail == s.tail && t.pivot == s.pivot && t.schema == s.schema && t.count == s.count
        && t.volume == s.volume - units;
    HoleBounds(s, h);
    SlotOf(s, k); SlotOf(s, h);
    assert SlotAt(s, k).units == 0 && !SlotAt(s, k).hole;
    hide Packed, Slots, HolesMarked, Shelters, TakenFromHole, Rest;
    SheltersPart(SlotAt(s, h), SlotAt(s, k), x);
    SheltersPart(SlotAt(s, h), SlotAt(s, k), y);
    LayoutAfterTwo(s, t, i, j, x, y);
  }

  lemma FromHoleGaps(s: State, k: nat, h: nat, units: nat)
    requires Layout(s) && Separated(s) && Clear(s) && Vacant(s, k) && GapAt(s, h) && 0 < units <= HoleSize(s, h)
    ensures var t := TakenFromHole(s, k, h, units, Rest(s, h, units));
            && Separated(t) && Clear(t) && Chunk(t, k, HoleBegin(s, h), units) && HoleAt(t, h)
            && (units == HoleSize(s, h) ==> HoleSize(t, h) == 0)
  {
    hide Packed, Slots, HolesMarked;
    HoleBounds(s, h);
    var t := TakenFromHole(s, k, h, units, Rest(s, h, units));
    assert GapAt(t, h) ==> HoleEnd(t, h) == HoleEnd(s, h) && HoleBegin(t, h) == HoleBegin(s, h) + units;
    forall g: nat | GapAt(t, g) && g != h
      ensures GapAt(s, g) && t.area[g] == s.area[g] && HoleEnd(s, g) != HoleBegin(s, h) + units
    {
      GapsApart(s, g, h);
    }
  }

  lemma FromHoleTight(s: State, k: nat, h: nat, units: nat)
    requires Layout(s) && TightHead(s) && Vacant(s, k) && GapAt(s, h) && 0 < units <= HoleSize(s, h)
    requires h == s.head ==> units < HoleSize(s, h)
    ensures var t := TakenFromHole(s, k, h, units, Rest(s, h, units)); Bounds(t) && TightHead(t)
  {
    hide Packed, Slots, HolesMarked;
  }

  /** The trim of the index does not depend on a reference that is not a hole. */
  lemma {:induction false} TrimCommutes(s: State, k: nat, u: Unit)
    requires s.head < s.pivot <= |s.area| && k < |s.area| && k != s.head
    requires k < s.pivot ==> !IsHole(s.area[k]) && !IsHole(u)
    ensures TrimHole(Put(s, k, u)) == Put(TrimHole(s), k, u)
    decreases s.pivot - s.head
  {
    hide TrimHole;
    var w, h := Put(s, k, u), s.head + 1;
    if h == s.pivot {
      TrimAtPivot(s);
      TrimAtPivot(w);
    } else if !IsHole(s.area[h]) {
      TrimAtField(s);
      TrimAtField(w);
    } else {
      var units := s.area[h].tag.id;
      if units > 0 && h + s.area[h].rel + units != s.tail {
        TrimAtGap(s);
        TrimAtGap(w);
      } else {
        var v := State(s.area, h, s.pivot, s.tail - units, s.count - 1, s.volume - units, s.schema);
        TrimGoesOn(s, v, units);
        TrimGoesOn(w, Put(v, k, u), units);
        TrimCommutes(v, k, u);
      }
    }
  }

  lemma FromHoleKeeps(s: State, k: nat, h: nat, units: nat)
    requires Good(s) && Vacant(s, k) && Fits(s, units, h) && units > 0
    ensures var r := AllocData(s, units, Some(h));
            r.Done? && r.value == HoleBegin(s, h) && r.state.tail == s.tail
            && Good(Refer(r.state, k, r.value, units)) && Chunk(Refer(r.state, k, r.value, units), k, r.value, units)
  {
    FromHoleLayout(s, k, h, units);
    FromHoleGaps(s, k, h, units);
    hide Packed, Slots, HolesMarked, AllocData, Separated, Clear, TightHead, Chunk, Rest, TakenFromHole;
    if HoleSize(s, h) == units && h == s.head {
      FromWholeFirstHole(s, k, h, units);
    } else {
      FromHoleTight(s, k, h, units);
      FromHoleIs(s, k, h, units);
    }
  }

  lemma FromHoleIs(s: State, k: nat, h: nat, units: nat)
    requires Layout(s) && Vacant(s, k) && GapAt(s, h) && 0 < units <= HoleSize(s, h)
             && (h == s.head ==> units < HoleSize(s, h))
    ensures var r := AllocData(s, units, Some(h));
            r.Done? && r.value == HoleBegin(s, h) && r.state.tail == s.tail
            && Refer(r.state, k, r.value, units) == TakenFromHole(s, k, h, units, Rest(s, h, units))
  {
    HoleBounds(s, h);
    WrapIsExact(HoleSize(s, h), units);
    hide Packed, Slots, HolesMarked, TrimHole;
  }

  lemma WholeFirstHoleIsTrim(s: State, k: nat, h: nat, units: nat)
    requires Layout(s) && Vacant(s, k) && GapAt(s, h) && h == s.head && units == HoleSize(s, h)
    ensures var r := AllocData(s, units, Some(h));
            r.Done? && r.value == HoleBegin(s, h) &&
            r.state.tail == TrimHole(TakenFromHole(s, k, h, units, EMPTY_HOLE)).tail
            && Refer(r.state, k, r.value, units) == TrimHole(TakenFromHole(s, k, h, units, EMPTY_HOLE))
  {
    hide Packed, Slots, HolesMarked, TrimHole;
    var p := Purge(s.(volume := s.volume - units), h);
    var u := s.area[k].(rel := HoleBegin(s, h) - k, own := units);
    HoleBounds(s, h);
    WrapIsExact(HoleSize(s, h), units);
    assert TakenFromHole(s, k, h, units, EMPTY_HOLE) == Put(p, k, u);
    TrimCommutes(p, k, u);
  }

  lemma FromWholeFirstHole(s: State, k: nat, h: nat, units: nat)
    requires Good(s) && Vacant(s, k) && GapAt(s, h) && h == s.head && units == HoleSize(s, h)
    ensures var r := AllocData(s, units, Some(h));
            r.Done? && r.value == HoleBegin(s, h) && r.state.tail == s.tail
            && Good(Refer(r.state, k, r.value, units)) && Chunk(Refer(r.state, k, r.value, units), k, r.value, units)
  {
    hide Packed, Slots, HolesMarked, Separated, Clear, TightHead, TrimHole, AllocData;
    var m := TakenFromHole(s, k, h, units, EMPTY_HOLE);
    FromHoleLayout(s, k, h, units);
    FromHoleGaps(s, k, h, units);
    WholeFirstHoleIsTrim(s, k, h, units);
    TrimFirst(m);
    SeparatedShortened(m, TrimHole(m));
    ChunkShortened(m, TrimHole(m), k, HoleBegin(s, h), units);
  }

  lemma ChunkShortened(m: State, r: State, k: nat, at: int, units: nat)
    requires Chunk(m, k, at, units) && Shortened(m, r)
    ensures Chunk(r, k, at, units)
  {
    assert k < m.pivot ==> !IsHole(m.area[k]);
  }
}
