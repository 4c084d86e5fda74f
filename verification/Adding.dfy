/** alloc_loose: a new field, with the exact condition under which the source's own way of
    splitting a hole is sound. */
module Adding {
  import opened Ledger
  import opened Tuples
  import opened Gear
  import opened Searching
  import opened Keeping
  import opened Merging
  import opened Indexing
  import opened Reclaiming

  /** A field in place or without payload takes no units, any other does. */
  predicate Allocatable(tag: Tag, units: nat) {
    tag.genus != HOLE && units <= MAX_UNITS && (IsInplaced(tag.genus) ==> units == 0)
  }

  /** What a step on the spare descriptor `e` of `r` needs to know. */
  ghost predicate SpareAt(r: State, e: nat) {
    && Layout(r) && Separated(r) && Clear(r)
    && HoleAt(r, e) && HoleSize(r, e) == 0 && (e == r.head || TightHead(r))
  }

  // ---- No payload ------------------------------------------------------------------------------------

  function Named(r: State, e: nat, tag: Tag): State
    requires e < |r.area|
  {
    Put(r, e, Unit(0, tag, 0)).(count := r.count - 1)
  }

  lemma NamedLayout(r: State, e: nat, tag: Tag)
    requires SpareAt(r, e) && Allocatable(tag, 0)
    ensures Layout(Named(r, e, tag))
  {
    hide Packed, Slots, HolesMarked, TightHead;
    var t := Named(r, e, tag);
    var p := Put(r, e, t.area[e]);
    PutSlots(r, e, t.area[e]);
    SameSlots(p, t);
    SlotOf(r, e);
    NamedMarked(r, e, tag);
    LayoutAfterRelabel(r, t, e - r.head, SlotAt(t, e));
  }

  lemma NamedMarked(r: State, e: nat, tag: Tag)
    requires SpareAt(r, e) && Allocatable(tag, 0)
    ensures Bounds(Named(r, e, tag)) && HolesMarked(Named(r, e, tag))
  {
    hide Packed, Slots, TightHead;
  }

  lemma NamedGood(r: State, e: nat, tag: Tag)
    requires SpareAt(r, e) && Allocatable(tag, 0)
    ensures Good(Named(r, e, tag))
  {
    NamedLayout(r, e, tag);
    hide Packed, Slots, HolesMarked;
    var t := Named(r, e, tag);
    assert forall g: nat :: GapAt(t, g) ==> GapAt(r, g) && t.area[g] == r.area[g];
  }

  // ---- Payload from the tail ---------------------------------------------------------------------------

  function Appended(r: State, e: nat, tag: Tag, units: nat): State
    requires e < |r.area|
  {
    Put(r, e, Unit(r.tail - e, tag, units)).(count := r.count - 1, tail := r.tail + units)
  }

  lemma AppendedLayout(r: State, e: nat, tag: Tag, units: nat)
    requires SpareAt(r, e) && Allocatable(tag, units) && 0 < units <= TailSpace(r)
    ensures Layout(Appended(r, e, tag, units))
  {
    hide Packed, Slots, HolesMarked, TightHead;
    var t := Appended(r, e, tag, units);
    var p := Put(r, e, t.area[e]);
    PutSlots(r, e, t.area[e]);
    SameSlots(p, t);
    SlotOf(r, e);
    AppendedMarked(r, e, tag, units);
    LayoutAfterTail(r, t, e - r.head, SlotAt(t, e));
  }

  lemma AppendedMarked(r: State, e: nat, tag: Tag, units: nat)
    requires SpareAt(r, e) && Allocatable(tag, units) && 0 < units <= TailSpace(r)
    ensures Bounds(Appended(r, e, tag, units)) && HolesMarked(Appended(r, e, tag, units))
    ensures SlotAt(Appended(r, e, tag, units), e) == Slot(false, r.tail, units)
  {
    hide Packed, Slots, TightHead;
  }

  lemma AppendedGood(r: State, e: nat, tag: Tag, units: nat)
    requires SpareAt(r, e) && Allocatable(tag, units) && 0 < units <= TailSpace(r)
    ensures Good(Appended(r, e, tag, units)) && Chunk(Appended(r, e, tag, units), e, r.tail, units)
  {
    AppendedLayout(r, e, tag, units);
    hide Packed, Slots, HolesMarked;
    var t := Appended(r, e, tag, units);
    forall g: nat | GapAt(t, g) ensures GapAt(r, g) && t.area[g] == r.area[g] && HoleEnd(r, g) <= r.tail {
      assert GapAt(r, g);
      HoleBounds(r, g);
    }
  }

  // ---- Payload from a hole of exactly that size -----------------------------------------------------------

  function Renamed(s: State, h: nat, tag: Tag, units: nat): State
    requires h < |s.area|
  {
    Put(s, h, s.area[h].(tag := tag, own := units)).(volume := s.volume - units, count := s.count - 1)
  }

  lemma RenamedLayout(s: State, h: nat, tag: Tag, units: nat)
    requires Layout(s) && GapAt(s, h) && HoleSize(s, h) == units && Allocatable(tag, units)
    ensures Layout(Renamed(s, h, tag, units))
  {
    HoleBounds(s, h);
    hide Packed, Slots, HolesMarked;
    var t := Renamed(s, h, tag, units);
    var p := Put(s, h, t.area[h]);
    PutSlots(s, h, t.area[h]);
    SameSlots(p, t);
    SlotOf(s, h);
    RenamedMarked(s, h, tag, units);
    LayoutAfterRelabel(s, t, h - s.head, SlotAt(t, h));
  }

  lemma RenamedMarked(s: State, h: nat, tag: Tag, units: nat)
    requires Layout(s) && GapAt(s, h) && HoleSize(s, h) == units && Allocatable(tag, units)
    ensures Bounds(Renamed(s, h, tag, units)) && HolesMarked(Renamed(s, h, tag, units))
    ensures SlotAt(Renamed(s, h, tag, units), h) == Slot(false, HoleBegin(s, h), units)
  {
    HoleBounds(s, h);
    hide Packed, Slots;
  }

  lemma RenamedGood(s: State, h: nat, tag: Tag, units: nat)
    requires Good(s) && GapAt(s, h) && HoleSize(s, h) == units && Allocatable(tag, units)
    ensures Good(Renamed(s, h, tag, units)) && Chunk(Renamed(s, h, tag, units), h, HoleBegin(s, h), units)
  {
    RenamedLayout(s, h, tag, units);
    HoleBounds(s, h);
    hide Packed, Slots, HolesMarked;
    var t := Renamed(s, h, tag, units);
    assert forall g: nat :: GapAt(t, g) ==> GapAt(s, g) && t.area[g] == s.area[g];
  }

  // ---- Payload from the front of a larger hole ---------------------------------------------------------------

  /** The field takes the first `units` units of hole `h`, whose remainder then begins `shift`
      units further on. */
  function Split(r: State, e: nat, h: nat, tag: Tag, units: nat, shift: int): State
    requires e < |r.area| && h < |r.area| && units <= HoleSize(r, h)
  {
    Put(Put(r, e, Unit(HoleBegin(r, h) - e, tag, units)), h,
        HoleUnit(h, HoleBegin(r, h) + shift, HoleSize(r, h) - units))
      .(count := r.count - 1, volume := r.volume - units)
  }

  lemma SplitSlots(r: State, e: nat, h: nat, tag: Tag, units: nat, shift: int)
    requires SpareAt(r, e) && GapAt(r, h) && 0 < units < HoleSize(r, h) && Allocatable(tag, units)
    ensures var t := Split(r, e, h, tag, units, shift);
            && Bounds(t) && e != h
            && Slots(t) == Slots(r)[e - r.head := Slot(false, HoleBegin(r, h), units)]
                                   [h - r.head := Slot(true, HoleBegin(r, h) + shift, HoleSize(r, h) - units)]
  {
    hide Layout, Slots, TightHead, Separated, Clear;
    HoleBounds(r, h);
    BoundsOf(r);
    var x, y := Unit(HoleBegin(r, h) - e, tag, units), HoleUnit(h, HoleBegin(r, h) + shift, HoleSize(r, h) - units);
    PutTwiceSlots(r, e, x, h, y);
    SameSlots(Put(Put(r, e, x), h, y), Split(r, e, h, tag, units, shift));
  }

  lemma SplitMarked(r: State, e: nat, h: nat, tag: Tag, units: nat)
    requires SpareAt(r, e) && GapAt(r, h) && 0 < units < HoleSize(r, h) && Allocatable(tag, units)
    ensures var t := Split(r, e, h, tag, units, units); Bounds(t) && HolesMarked(t)
  {
    HoleBounds(r, h);
    hide Packed, Slots, TightHead;
  }

  lemma SplitLayout(r: State, e: nat, h: nat, tag: Tag, units: nat)
    requires SpareAt(r, e) && GapAt(r, h) && 0 < units < HoleSize(r, h) && Allocatable(tag, units)
    ensures Layout(Split(r, e, h, tag, units, units))
  {
    hide Packed, Slots, HolesMarked, Shelters, TightHead;
    var x, y := Slot(false, HoleBegin(r, h), units), Slot(true, HoleBegin(r, h) + units, HoleSize(r, h) - units);
    SplitSlots(r, e, h, tag, units, units);
    SplitMarked(r, e, h, tag, units);
    HoleBounds(r, h);
    SlotOf(r, e); SlotOf(r, h);
    SheltersPart(SlotAt(r, h), SlotAt(r, e), x);
    SheltersPart(SlotAt(r, h), SlotAt(r, e), y);
    LayoutAfterTwo(r, Split(r, e, h, tag, units, units), e - r.head, h - r.head, x, y);
  }

  lemma SplitGood(r: State, e: nat, h: nat, tag: Tag, units: nat)
    requires SpareAt(r, e) && GapAt(r, h) && 0 < units < HoleSize(r, h) && Allocatable(tag, units)
    ensures Good(Split(r, e, h, tag, units, units))
            && Chunk(Split(r, e, h, tag, units, units), e, HoleBegin(r, h), units)
  {
    hide Packed, Slots, HolesMarked;
    SplitLayout(r, e, h, tag, units);
    HoleBounds(r, h);
    var t := Split(r, e, h, tag, units, units);
    forall g: nat | GapAt(t, g) && g != h
      ensures GapAt(r, g) && t.area[g] == r.area[g] && HoleEnd(r, g) != HoleBegin(r, h) + units
    {
      GapsApart(r, g, h);
    }
  }

  /** Shifting the remainder by its own size is sound only when it is as large as the field:
      a smaller remainder overlaps the field, a larger one leaves unit `units` of the old hole
      without an owner. */
  lemma SplitMisplaced(r: State, e: nat, h: nat, tag: Tag, units: nat)
    requires SpareAt(r, e) && GapAt(r, h) && 0 < units < HoleSize(r, h) && Allocatable(tag, units)
    requires HoleSize(r, h) - units != units
    ensures !Layout(Split(r, e, h, tag, units, HoleSize(r, h) - units))
  {
    var excess := HoleSize(r, h) - units;
    var t := Split(r, e, h, tag, units, excess);
    SplitSlots(r, e, h, tag, units, excess);
    HoleBounds(r, h);
    var c, i, j := Slots(t), e - r.head, h - r.head;
    SlotOf(r, h);
    if excess < units {
      assert !Apart(c[i], c[j]);
      NotPackedIfOverlap(c, i, j, Floor(t), t.tail);
    } else {
      var u := HoleBegin(r, h) + units;
      forall l | 0 <= l < |c| ensures !Owns(c[l], u) {
        if l != i && l != j {
          assert c[l] == Slots(r)[l];
          OthersOwnNothing(r, h, l, u);
        }
      }
      NotPackedIfUncovered(c, Floor(t), t.tail, u);
    }
  }

  lemma OthersOwnNothing(r: State, h: nat, l: nat, u: int)
    requires Layout(r) && GapAt(r, h) && l < |Slots(r)| && l != h - r.head && HoleBegin(r, h) <= u < HoleEnd(r, h)
    ensures !Owns(Slots(r)[l], u)
  {
    SlotOf(r, h);
    ApartAt(Slots(r), l, h - r.head);
  }

  lemma NotPackedIfOverlap(c: seq<Slot>, i: nat, j: nat, lo: int, hi: int)
    requires i < |c| && j < |c| && i != j && !Apart(c[i], c[j])
    ensures !Packed(c, lo, hi)
  {
    if Disjoint(c) { ApartAt(c, i, j); }
  }

  lemma NotPackedIfUncovered(c: seq<Slot>, lo: int, hi: int, u: int)
    requires lo <= u < hi && forall l :: 0 <= l < |c| ==> !Owns(c[l], u)
    ensures !Packed(c, lo, hi)
  {
    if Packed(c, lo, hi) { Partition(c, lo, hi, u); }
  }

  // ---- alloc_loose -----------------------------------------------------------------------------------------

  /** The guard of the branch that splits a hole, and the size of what would be left of it. */
  predicate Splits(s: State, units: nat)
    requires s.head <= s.pivot <= |s.area|
  {
    units > 0 && LookupBestFit(s, units).Some? && HoleSize(s, LookupBestFit(s, units).value) != units
  }

  function Excess(s: State, units: nat): int
    requires s.head <= s.pivot <= |s.area| && Splits(s, units)
  {
    HoleSize(s, LookupBestFit(s, units).value) - units
  }

  /** The splitting branch is sound as written only when it halves the hole. */
  predicate SplitsSafely(mode: Mode, s: State, units: nat)
    requires s.head <= s.pivot <= |s.area|
  {
    mode.Repaired? || !Splits(s, units) || Excess(s, units) == units
  }

  /** alloc_loose has added field `k`. */
  ghost predicate Added(t: State, k: nat, tag: Tag, units: nat) {
    InIndex(t, k) && t.area[k].tag == tag &&
       (if units > 0 then Chunk(t, k, Payload(t, k), units) else t.area[k].rel == 0)
  }

  /** What index_alloc gives, in the form the steps above use it. */
  lemma SpareFromIndexAlloc(s: State, notify: int)
    requires Good(s)
    ensures match IndexAlloc(s, notify)
            case Insufficient(t, i, d) => t == s && i == 1 && d == notify && s.head == 0
            case Done(t, e) =>
              var r := Reserved(s);
              && SpareAt(r, e) && SameGaps(s, r) && r.tail == s.tail && r.volume == s.volume && r.pivot == s.pivot
                 && |r.area| == |s.area|
              && t.tail == s.tail && t.volume == s.volume && |t.area| == |s.area|
              && (forall u: Unit :: Put(t, e, u) == Put(r, e, u).(count := r.count - 1))
  {
    IndexAllocReserves(s, notify);
    hide Packed, Slots, HolesMarked, TightHead, Separated, Clear;
    SameGapsMeans(s, Reserved(s));
  }

  lemma AddWithoutPayload(mode: Mode, s: State, tag: Tag)
    requires Good(s) && Allocatable(tag, 0)
    ensures match AllocLoose(mode, s, tag, 0)
            case Insufficient(t, i, d) => t == s && i == 1 && d == 0 && s.head == 0
            case Done(t, k) => Good(t) && Added(t, k, tag, 0)
  {
    SpareFromIndexAlloc(s, 0);
    hide Layout, Coalesced, SpareAt, IndexAlloc, Reserved;
    if IndexAlloc(s, 0).Done? {
      var e := IndexAlloc(s, 0).value;
      NamedGood(Reserved(s), e, tag);
      NamedAdded(Reserved(s), e, tag);
    }
  }

  lemma NamedAdded(r: State, e: nat, tag: Tag)
    requires SpareAt(r, e)
    ensures Added(Named(r, e, tag), e, tag, 0)
  {
  }

  lemma AddAtTail(mode: Mode, s: State, tag: Tag, units: nat)
    requires Good(s) && Allocatable(tag, units) && units > 0 && LookupBestFit(s, units).None?
    ensures match AllocLoose(mode, s, tag, units)
            case Insufficient(t, i, d) => t == s && i == 1 && d == units && (s.head == 0 || TailSpace(s) < units)
            case Done(t, k) => Good(t) && Added(t, k, tag, units)
  {
    SpareFromIndexAlloc(s, units);
    hide Layout, Coalesced, SpareAt, IndexAlloc, Reserved, LookupBestFit;
    if units <= TailSpace(s) && IndexAlloc(s, units).Done? {
      var e, r := IndexAlloc(s, units).value, Reserved(s);
      AppendIs(mode, s, r, e, tag, units);
      hide AllocLoose;
      AppendedGood(r, e, tag, units);
      AppendedAdded(r, e, tag, units);
    }
  }

  lemma AppendIs(mode: Mode, s: State, r: State, e: nat, tag: Tag, units: nat)
    requires Bounds(s) && 0 < units <= TailSpace(s) && LookupBestFit(s, units).None? && r.tail == s.tail
    requires IndexAlloc(s, units).Done? && IndexAlloc(s, units).value == e && |r.area| == |s.area|
    requires IndexAlloc(s, units).state.tail == s.tail
    requires forall u: Unit :: Put(IndexAlloc(s, units).state, e, u) == Put(r, e, u).(count := r.count - 1)
    ensures AllocLoose(mode, s, tag, units) == Done(Appended(r, e, tag, units), e)
  {
    hide IndexAlloc, LookupBestFit;
    var x := Unit(s.tail - e, tag, units);
    assert Put(IndexAlloc(s, units).state, e, x) == Put(r, e, x).(count := r.count - 1);
  }

  lemma AppendedAdded(r: State, e: nat, tag: Tag, units: nat)
    requires SpareAt(r, e) && units > 0 && Chunk(Appended(r, e, tag, units), e, r.tail, units)
    ensures Added(Appended(r, e, tag, units), e, tag, units)
  {
    hide Packed, Slots, HolesMarked, TightHead, Separated, Clear;
  }

  lemma AddInWholeHole(mode: Mode, s: State, tag: Tag, units: nat, h: nat)
    requires Good(s) && Allocatable(tag, units) && units > 0 && LookupBestFit(s, units) == Some(h) && GapAt(s, h)
             && HoleSize(s, h) == units
    ensures var r := AllocLoose(mode, s, tag, units);
            r.Done? && Good(r.state) && Added(r.state, r.value, tag, units)
  {
    hide Layout, Coalesced, LookupBestFit;
    RenamedGood(s, h, tag, units);
    assert AllocLoose(mode, s, tag, units) == Done(Renamed(s, h, tag, units), h);
  }

  lemma AddInSplitHole(mode: Mode, s: State, tag: Tag, units: nat, h: nat)
    requires Good(s) && Allocatable(tag, units) && units > 0 && LookupBestFit(s, units) == Some(h) && GapAt(s, h)
             && HoleSize(s, h) > units
    ensures match AllocLoose(mode, s, tag, units)
            case Insufficient(t, i, d) => t == s && i == 1 && d == units && s.head == 0
            case Done(t, k) =>
              && Bounds(t) && k < |t.area| && Floor(t) <= Payload(t, k) && Payload(t, k) + units <= |t.area|
              && (Layout(t) <==> mode.Repaired? || HoleSize(s, h) - units == units)
              && (Layout(t) ==> Good(t) && Added(t, k, tag, units))
  {
    hide Layout, Coalesced, IndexAlloc, Reserved, LookupBestFit, SpareAt, SameGaps, Split, Added, Chunk, HoleSize;
    BoundsOf(s);
    SpareFromIndexAlloc(s, units);
    HoleBounds(s, h);
    if IndexAlloc(s, units).Done? {
      var e, r := IndexAlloc(s, units).value, Reserved(s);
      SpareMeans(s, r, e, h);
      SplitIs(mode, s, r, e, tag, units, h);
      SplitDone(mode, r, e, h, tag, units);
    } else {
      NoSplitWithoutIndex(mode, s, tag, units, h);
    }
  }

  lemma SpareMeans(s: State, r: State, e: nat, h: nat)
    requires SpareAt(r, e) && SameGaps(s, r) && |r.area| == |s.area| && GapAt(s, h)
    ensures Bounds(r) && HoleAt(r, e) && e < |s.area| && HoleSize(r, e) == 0
    ensures GapAt(r, h) && HoleSize(r, h) == HoleSize(s, h)
  {
    hide Packed, Slots, HolesMarked, TightHead, Separated, Clear;
  }

  lemma NoSplitWithoutIndex(mode: Mode, s: State, tag: Tag, units: nat, h: nat)
    requires Bounds(s) && units > 0 && LookupBestFit(s, units) == Some(h) && GapAt(s, h)
    requires IndexAlloc(s, units).Insufficient? && units < HoleSize(s, h) <= MAX_UNITS
    ensures AllocLoose(mode, s, tag, units) == IndexAlloc(s, units)
  {
    hide IndexAlloc, LookupBestFit;
    WrapIsExact(HoleSize(s, h), units);
  }

  lemma SplitDone(mode: Mode, r: State, e: nat, h: nat, tag: Tag, units: nat)
    requires SpareAt(r, e) && GapAt(r, h) && 0 < units < HoleSize(r, h) && Allocatable(tag, units)
    ensures var t := Split(r, e, h, tag, units, if mode.AsWritten? then HoleSize(r, h) - units else units);
            && Bounds(t) && e < |t.area| && Floor(t) <= Payload(t, e) && Payload(t, e) + units <= |t.area|
            && (Layout(t) <==> mode.Repaired? || HoleSize(r, h) - units == units)
            && (Layout(t) ==> Good(t) && Added(t, e, tag, units))
  {
    hide Layout, Coalesced, SpareAt, Split, Added, Chunk, HoleSize;
    SplitGood(r, e, h, tag, units);
    SplitAdded(r, e, h, tag, units);
    SplitPlace(r, e, h, tag, units, if mode.AsWritten? then HoleSize(r, h) - units else units);
    if mode.AsWritten? && HoleSize(r, h) - units != units {
      SplitMisplaced(r, e, h, tag, units);
    }
  }

  lemma SplitPlace(r: State, e: nat, h: nat, tag: Tag, units: nat, shift: int)
    requires SpareAt(r, e) && GapAt(r, h) && 0 < units < HoleSize(r, h) && Allocatable(tag, units)
    ensures var t := Split(r, e, h, tag, units, shift);
            Bounds(t) && e < |t.area| && Floor(t) <= Payload(t, e) && Payload(t, e) + units <= |t.area|
  {
    SplitSlots(r, e, h, tag, units, shift);
    HoleBounds(r, h);
    hide Packed, Slots, HolesMarked, TightHead, Separated, Clear;
  }

  lemma SplitIs(mode: Mode, s: State, r: State, e: nat, tag: Tag, units: nat, h: nat)
    requires Bounds(s) && units > 0 && LookupBestFit(s, units) == Some(h) && GapAt(s, h)
             && units < HoleSize(s, h) <= MAX_UNITS
    requires SameGaps(s, r) && r.volume == s.volume && HoleAt(r, e) && e < |s.area| && HoleSize(r, e) == 0
    requires IndexAlloc(s, units).Done? && IndexAlloc(s, units).value == e && |r.area| == |s.area|
    requires forall u: Unit :: Put(IndexAlloc(s, units).state, e, u) == Put(r, e, u).(count := r.count - 1)
    ensures AllocLoose(mode, s, tag, units)
            == Done(Split(r, e, h, tag, units, if mode.AsWritten? then HoleSize(s, h) - units else units), e)
  {
    hide IndexAlloc, LookupBestFit;
    WrapIsExact(HoleSize(s, h), units);
    assert GapAt(r, h) && r.area[h] == s.area[h];
    var x := Unit(HoleBegin(s, h) - e, tag, units);
    assert Put(IndexAlloc(s, units).state, e, x) == Put(r, e, x).(count := r.count - 1);
  }

  lemma SplitAdded(r: State, e: nat, h: nat, tag: Tag, units: nat)
    requires SpareAt(r, e) && GapAt(r, h) && 0 < units < HoleSize(r, h) && Allocatable(tag, units)
    requires Chunk(Split(r, e, h, tag, units, units), e, HoleBegin(r, h), units)
    ensures Added(Split(r, e, h, tag, units, units), e, tag, units)
  {
    hide Packed, Slots, HolesMarked, TightHead, Separated, Clear;
  }

  lemma AddedPlace(t: State, k: nat, tag: Tag, units: nat)
    requires Layout(t) && Added(t, k, tag, units)
    ensures Bounds(t) && k < |t.area| && (units > 0 ==> Floor(t) <= Payload(t, k) && Payload(t, k) + units <= |t.area|)
  {
    if units > 0 { ChunkBounds(t, k, Payload(t, k), units); }
  }

  /** alloc_loose adds the field and keeps the layout and the coalescing, or throws with the
      state unchanged; as written this holds exactly when it does not split a hole, or splits
      it in half. */
  lemma AllocLooseKeeps(mode: Mode, s: State, tag: Tag, units: nat)
    requires Good(s) && Allocatable(tag, units)
    ensures match AllocLoose(mode, s, tag, units)
            case Insufficient(t, i, d) => t == s && i == 1 && d == units && (s.head == 0 || TailSpace(s) < units)
            case Done(t, k) =>
              && Bounds(t) && k < |t.area|
                 && (units > 0 ==> Floor(t) <= Payload(t, k) && Payload(t, k) + units <= |t.area|)
              && (Layout(t) <==> SplitsSafely(mode, s, units))
              && (SplitsSafely(mode, s, units) ==> Good(t) && Added(t, k, tag, units))
  {
    hide Packed, Slots, HolesMarked, Coalesced, Added, LookupBestFit, AllocLoose;
    if units == 0 {
      AddWithoutPayload(mode, s, tag);
    } else {
      LookupFindsBest(s, units);
      match LookupBestFit(s, units)
      case None =>
        AddAtTail(mode, s, tag, units);
      case Some(h) =>
        if HoleSize(s, h) == units {
          AddInWholeHole(mode, s, tag, units, h);
        } else {
          AddInSplitHole(mode, s, tag, units, h);
        }
    }
    var r := AllocLoose(mode, s, tag, units);
    if r.Done? && Layout(r.state) {
      AddedPlace(r.state, r.value, tag, units);
    }
  }
}
