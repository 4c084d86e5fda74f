/** When an operation takes a new unit below the index. Everything else leaves the index as long
    as it is or shortens it. */
module Growth {
  import opened Ledger
  import opened Tuples
  import opened Gear
  import opened Searching
  import opened Reclaiming
  import opened Reallocating
  import opened Compaction
  import opened Operations
  import opened Stepping
  import opened Assigning

  // ---- The guards ---------------------------------------------------------------------------------

  /** A descriptor would come from below the index, since no empty hole is in it. */
  predicate TakesNew(s: State)
    requires s.head <= s.pivot <= |s.area|
  {
    s.head > 0 && (s.count > 0 ==> FirstWithTag(s.area, s.head, s.pivot, MakeHole(0)).None?)
  }

  /** Adding a field lengthens the index, unless it takes over the descriptor of a hole or throws. */
  predicate InsertGrows(s: State, units: nat)
    requires s.head <= s.pivot <= |s.area|
  {
    && TakesNew(s)
    && (units == 0 || match LookupBestFit(s, units)
                      case None => units <= TailSpace(s)
                      case Some(h) => HoleSize(s, h) != units)
  }

  /** Released, the payload of `k` would be a hole on its own. */
  predicate Stranded(s: State, k: nat, have: nat)
    requires s.head <= s.pivot <= |s.area| && k < |s.area|
  {
    AdjacentHoles(s, Payload(s, k), Payload(s, k) + have) == (None, None) && Payload(s, k) + have != s.tail
  }

  /** Giving up, moving or cutting a payload lengthens the index when a hole is left on its own. */
  predicate AssignGrows(s: State, k: nat, v: Value)
    requires s.head <= s.pivot <= |s.area| && k < |s.area|
  {
    && HasPayload(s, k) && Size(v) != UnitsAt(s, k) && TakesNew(s) && Stranded(s, k, UnitsAt(s, k))
    && (if Size(v) == 0 then k >= s.pivot
        else Size(v) < UnitsAt(s, k) || Size(v) <= TailSpace(s) || LookupBestFit(s, Size(v)).Some?)
  }

  predicate Grows(s: State, op: Op)
    requires Bounds(s) && Legal(s, op)
  {
    match op
    case Insert(tag, v) => InsertGrows(s, Size(v))
    case Erase(k) => false
    case Assign(k, v) => AssignGrows(s, k, v)
    case Compact => false
  }

  // ---- The index after a step -----------------------------------------------------------------------

  /** The index is no longer than it was. */
  ghost predicate Shorter(s: State, t: State) {
    t.pivot == s.pivot && t.schema == s.schema && |t.area| == |s.area| && t.head >= s.head
  }

  /** The index is one unit longer if `grows`, and no longer otherwise. */
  ghost predicate Resulting(s: State, t: State, grows: bool) {
    && t.pivot == s.pivot && t.schema == s.schema && |t.area| == |s.area|
    && if grows then t.head == s.head - 1 else t.head >= s.head
  }

  lemma PurgeShorter(s: State, k: nat)
    requires k < s.pivot <= |s.area|
    ensures Shorter(s, PurgeAndTrim(s, k))
  {
    hide TrimHole;
  }

  lemma GiveBackShorter(s: State, k: nat)
    requires k < s.pivot <= |s.area|
    ensures Shorter(s, GiveBack(s, k))
  {
    hide PurgeAndTrim;
    PurgeShorter(s.(tail := s.tail - HoleSize(s, k), volume := s.volume - HoleSize(s, k)), k);
  }

  lemma IndexAllocHead(s: State, notify: int)
    requires s.head <= s.pivot <= |s.area|
    ensures var r := IndexAlloc(s, notify);
            && (TakesNew(s) ==> r.Done? && r.value == s.head - 1)
            && (r.Done? ==> Resulting(s, r.state, TakesNew(s)) && r.state.area == s.area && r.state.tail == s.tail)
  {
    hide FirstWithTag;
  }

  /** A hole of another size is not used up, so the index is not trimmed where it begins. */
  lemma AllocHead(t: State, needed: nat, h: Option<nat>)
    requires t.head <= t.pivot <= |t.area| && (h.Some? ==> h.value < t.pivot)
    ensures var r := AllocData(t, needed, h); r.Done? ==> Shorter(t, r.state)
    ensures var r := AllocData(t, needed, h);
            r.Done? && t.head < t.pivot && Wrap32(HoleSize(t, t.head) - needed) != 0 ==> r.state.head == t.head
  {
    hide TrimHole;
  }

  lemma WrapNotZero(have: nat, needed: nat)
    requires have != needed && have <= MAX_UNITS && needed <= MAX_UNITS
    ensures Wrap32(have - needed) != 0
  {
  }

  // ---- Releasing ---------------------------------------------------------------------------------------

  lemma MergeShorter(s: State, first: nat, second: nat)
    requires first < s.pivot <= |s.area| && second < s.pivot
    ensures Shorter(s, MergeHoles(s, first, second).0) && MergeHoles(s, first, second).1 < s.pivot
  {
    hide PurgeAndTrim;
    var units := HoleSize(s, first) + HoleSize(s, second);
    PurgeShorter(Put(s, first, HoleUnit(first, HoleBegin(s, first), units)), second);
    PurgeShorter(Put(s, second, HoleUnit(second, HoleBegin(s, second) - HoleSize(s, first), units)), first);
  }

  ghost predicate InIndexToo(s: State, k: Option<nat>) { k.Some? ==> InIndex(s, k.value) }

  lemma ReleaseShorter(mode: Mode, s: State, chunk: int, units: nat, before: Option<nat>, after: Option<nat>,
      hole0: Option<nat>)
    requires s.head <= s.pivot <= |s.area| && InIndexToo(s, before) && InIndexToo(s, after) && InIndexToo(s, hole0)
    requires before.Some? || after.Some? || hole0.Some? || chunk + units == s.tail || !TakesNew(s)
    ensures var r := ReleaseData(mode, s, chunk, units, before, after, hole0); r.Done? ==> Shorter(s, r.state)
  {
    hide IndexAlloc, MergeHoles, GiveBack, TakesNew;
    if chunk + units == s.tail {
      if before.Some? { GiveBackShorter(s.(tail := s.tail - units), before.value); }
    } else {
      var t := s.(volume := s.volume + units);
      SameDescriptors(s, t);
      IndexAllocHead(t, 0);
      if before.Some? && after.Some? {
        var b := before.value;
        MergeShorter(Put(t, b, HoleUnit(b, HoleBegin(t, b), units + HoleSize(t, b))), b, after.value);
      }
    }
  }

  /** Nothing that decides where a descriptor comes from has changed. */
  lemma SameDescriptors(s: State, t: State)
    requires s.head <= s.pivot <= |s.area| == |t.area| && t.head == s.head && t.pivot == s.pivot && t.count == s.count
    requires forall i :: s.head <= i < s.pivot ==> t.area[i].tag == s.area[i].tag
    ensures TakesNew(t) <==> TakesNew(s)
  {
    FirstWithTagSame(s.area, t.area, s.head, s.pivot, MakeHole(0));
  }

  /** The chunk becomes a hole of its own. */
  lemma ReleaseGrows(mode: Mode, s: State, chunk: int, units: nat)
    requires s.head <= s.pivot <= |s.area| && chunk + units != s.tail && TakesNew(s)
    ensures var r := ReleaseData(mode, s, chunk, units, None, None, None);
            && r.Done? && Resulting(s, r.state, true) && |r.state.area| == |s.area|
            && r.value == Some(r.state.head) && HoleSize(r.state, r.state.head) == units
  {
    hide IndexAlloc, TakesNew;
    var t := s.(volume := s.volume + units);
    SameDescriptors(s, t);
    IndexAllocHead(t, 0);
  }

  lemma DisownedDescriptors(s: State, k: nat)
    requires s.head <= s.pivot <= |s.area| && k < |s.area|
    ensures TakesNew(Disown(s, k)) <==> TakesNew(s)
  {
    SameDescriptors(s, Disown(s, k));
  }

  lemma Adjacent(s: State, begin: int, end: int)
    requires Good(s)
    ensures s.head <= s.pivot <= |s.area|
    ensures InIndexToo(s, AdjacentHoles(s, begin, end).0) && InIndexToo(s, AdjacentHoles(s, begin, end).1)
  {
    hide AdjacentHoles, Packed, Slots, HolesMarked, Coalesced;
    AdjacentFound(s, begin, end);
  }

  lemma EmptyingHead(mode: Mode, s: State, k: nat, have: nat)
    requires Good(s) && s.pivot <= k < |s.area|
    ensures s.head <= s.pivot <= |s.area|
    ensures var r := ErasePreplaced(mode, s, k, have); var grows := TakesNew(s) && Stranded(s, k, have);
            (grows ==> r.Done?) && (r.Done? ==> Resulting(s, r.state, grows))
  {
    hide Good, AdjacentHoles, ReleaseData, TakesNew;
    Adjacent(s, Payload(s, k), Payload(s, k) + have);
    DisownedDescriptors(s, k);
    var (before, after) := AdjacentHoles(s, Payload(s, k), Payload(s, k) + have);
    if TakesNew(s) && Stranded(s, k, have) {
      ReleaseGrows(mode, Disown(s, k), Payload(s, k), have);
    } else {
      ReleaseShorter(mode, Disown(s, k), Payload(s, k), have, before, after, None);
    }
  }

  lemma ErasingShortens(s: State, k: nat)
    requires InIndex(s, k)
    ensures Shorter(s, EraseField(s, k).state)
  {
    hide ReleaseLoose, UnitsAt;
    EraseIs(s, k, if HasPayload(s, k) then UnitsAt(s, k) else 0);
  }

  lemma EraseIs(s: State, k: nat, units: nat)
    requires InIndex(s, k)
    ensures Shorter(s, ReleaseLoose(s, k, units))
  {
    hide PurgeAndTrim, AdjacentHoles, MergeAround, GiveBack;
    var t := s.(count := s.count + 1);
    PurgeShorter(t, k);
    var h := Put(t, k, Unit(s.area[k].rel, MakeHole(units), 0)).(volume := s.volume + units);
    var (before, after) := AdjacentHoles(h, HoleBegin(h, k), HoleEnd(h, k));
    MergeAroundShorter(h, k, before, after);
    var m := MergeAround(h, k, before, after);
    GiveBackShorter(m.0, m.1);
  }

  lemma MergeAroundShorter(s: State, k: nat, before: Option<nat>, after: Option<nat>)
    requires k < s.pivot <= |s.area| && (before.Some? ==> before.value < s.pivot)
             && (after.Some? ==> after.value < s.pivot)
    ensures Shorter(s, MergeAround(s, k, before, after).0)
  {
    hide MergeHoles;
    var (t, p) := if before.Some? then MergeHoles(s, before.value, k) else (s, k);
    if before.Some? { MergeShorter(s, before.value, k); }
    if after.Some? { MergeShorter(t, p, after.value); }
  }

  // ---- Changing the length ------------------------------------------------------------------------------

  lemma ReleaseAndAllocHead(mode: Mode, s: State, k: nat, have: nat, needed: nat, before: Option<nat>,
      after: Option<nat>, hole0: Option<nat>, cached: Option<nat>)
    requires s.head <= s.pivot <= |s.area| && k < |s.area| && have != needed && have <= MAX_UNITS && needed <= MAX_UNITS
    requires InIndexToo(s, before) && InIndexToo(s, after) && InIndexToo(s, hole0)
    requires cached.Some? ==> cached.value < s.pivot
    ensures var r := ReleaseAndAlloc(mode, s, k, have, needed, before, after, hole0, cached);
            r.Done? ==> Resulting(s, r.state, before.None? && after.None? && hole0.None? && TakesNew(s)
                                              && Payload(s, k) + have != s.tail)
  {
    hide ReleaseData, AllocData, HoleAfterRelease, TakesNew, Wrap32;
    var d, at := Disown(s, k), Payload(s, k);
    DisownedDescriptors(s, k);
    var r := ReleaseData(mode, d, at, have, before, after, hole0);
    if r.Done? {
      var t := r.state;
      AllocHead(t, needed, HoleAfterRelease(t, needed, r.value, cached));
      if before.None? && after.None? && hole0.None? && TakesNew(s) && at + have != s.tail {
        ReleaseGrows(mode, d, at, have);
        WrapNotZero(have, needed);
      } else {
        ReleaseShorter(mode, d, at, have, before, after, hole0);
      }
    }
  }

  lemma NoGapNoNeighbour(s: State, begin: int, end: int)
    requires Good(s) && s.volume == 0
    ensures s.head <= s.pivot <= |s.area| && AdjacentHoles(s, begin, end) == (None, None)
  {
    hide AdjacentHoles, Packed, Slots, HolesMarked, Coalesced;
    AdjacentFound(s, begin, end);
    NoVolumeNoGaps(s);
  }

  lemma WithoutHolesHead(s: State, k: nat, have: nat, needed: nat)
    requires Good(s) && s.volume == 0 && k < |s.area| && have != needed && needed > 0
    ensures s.head <= s.pivot <= |s.area|
    ensures var r := ReallocWithoutHoles(s, k, have, needed); var grows := TakesNew(s) && Stranded(s, k, have);
            && (grows ==> (r.Done? <==> needed < have || needed <= TailSpace(s)))
            && (r.Done? ==> Resulting(s, r.state, grows))
  {
    hide Good, IndexAlloc, FirstWithTag, AdjacentHoles;
    NoGapNoNeighbour(s, Payload(s, k), Payload(s, k) + have);
    IndexAllocHead(s, needed);
    CountNotNegative(s);
  }

  lemma CountNotNegative(s: State)
    requires Good(s)
    ensures s.count >= 0
  {
  }

  lemma SwapHead(mode: Mode, s: State, k: nat, have: nat, needed: nat)
    requires s.head <= s.pivot <= |s.area| && k < |s.area|
    ensures var r := ReallocBySwap(mode, s, k, have, needed); r.Done? ==> Shorter(s, r.state)
  {
    hide LookupExact, PurgeAndTrim;
    var h := LookupExact(s, needed);
    if h.Some? {
      var t := Put(Refer(s, k, HoleBegin(s, h.value), needed), h.value, HoleUnit(h.value, Payload(s, k), have));
      GiveBackShorter(t.(volume := s.volume + have - needed), h.value);
    }
  }

  lemma ReallocHead(mode: Mode, s: State, k: nat, at: int, have: nat, needed: nat)
    requires Good(s) && Chunk(s, k, at, have) && have != needed && 0 < needed <= MAX_UNITS && have <= MAX_UNITS
    ensures s.head <= s.pivot <= |s.area| && k < |s.area| && Payload(s, k) == at
    ensures var r := ReallocData(mode, s, k, have, needed); var grows := TakesNew(s) && Stranded(s, k, have);
            && (grows ==> (r.Done? <==> needed < have || needed <= TailSpace(s) || LookupBestFit(s, needed).Some?))
            && (r.Done? ==> Resulting(s, r.state, grows))
  {
    hide Good, ReallocWithoutHoles, LookupBestFit, TakesNew, Stranded, Surveyed, ReallocData, ReleaseAndAlloc;
    assert s.head <= s.pivot <= |s.area| && k < |s.area| && Payload(s, k) == at by { ChunkPlaced(s, k, at, have); }
    if s.volume == 0 {
      WithoutHolesHead(s, k, have, needed);
      NoVolumeNoFit(s, needed);
      NoVolumeRealloc(mode, s, k, have, needed);
    } else {
      var before, after, hole0 := Survey(s, k, at, have, needed);
      ReallocChoice(mode, s, k, at, have, needed, before, after, hole0);
      SurveyedHead(mode, s, k, at, have, needed, before, after, hole0);
    }
  }

  lemma ChunkPlaced(s: State, k: nat, at: int, have: nat)
    requires Good(s) && Chunk(s, k, at, have)
    ensures s.head <= s.pivot <= |s.area| && k < |s.area| && Payload(s, k) == at
  {
    hide Packed, Slots, HolesMarked, Coalesced;
  }

  lemma NoVolumeNoFit(s: State, needed: nat)
    requires s.head <= s.pivot <= |s.area| && s.volume == 0 && needed > 0
    ensures LookupBestFit(s, needed).None?
  {
  }

  lemma NoVolumeRealloc(mode: Mode, s: State, k: nat, have: nat, needed: nat)
    requires s.head <= s.pivot <= |s.area| && k < |s.area| && s.volume == 0
    ensures ReallocData(mode, s, k, have, needed) == ReallocWithoutHoles(s, k, have, needed)
  {
    hide ReallocWithoutHoles;
  }

  lemma SurveyFound(s: State, k: nat, at: int, have: nat, needed: nat, before: Option<nat>, after: Option<nat>,
      hole0: Option<nat>)
    requires Surveyed(s, k, at, have, needed, before, after, hole0)
    ensures s.head <= s.pivot <= |s.area| && k < |s.area| && Payload(s, k) == at && 0 < needed <= MAX_UNITS
    ensures InIndexToo(s, before) && InIndexToo(s, after) && InIndexToo(s, hole0)
    ensures AdjacentHoles(s, at, at + have) == (before, after)
    ensures SizeOf(s, before) + SizeOf(s, after) == 0 <==> before.None? && after.None?
    ensures s.head > 0 ==> hole0.None?
    ensures s.head == 0 || before.Some? || after.Some? || hole0.None?
  {
    hide LookupBestFit, LookupExact, AdjacentHoles, Packed, Slots, HolesMarked, Coalesced, Lonely;
  }

  /** It throws for want of space only. */
  lemma SurveyedDone(mode: Mode, s: State, k: nat, at: int, have: nat, needed: nat, before: Option<nat>,
      after: Option<nat>, hole0: Option<nat>)
    requires Surveyed(s, k, at, have, needed, before, after, hole0) && s.volume != 0 && have != needed
    requires s.head > 0 && before.None? && after.None?
    ensures s.head <= s.pivot <= |s.area| && k < |s.area|
    ensures needed < have || needed <= TailSpace(s) || LookupBestFit(s, needed).Some?
            <==> ReallocData(mode, s, k, have, needed).Done?
  {
    hide Good, LookupBestFit, Surveyed, ReallocData, ReleaseAndAlloc, LookupExact, AdjacentHoles, Chunk;
    SurveyFound(s, k, at, have, needed, before, after, hole0);
    ReallocChoice(mode, s, k, at, have, needed, before, after, hole0);
    if needed < have || needed <= TailSpace(s) {
      ReallocInPlenty(mode, s, k, at, have, needed, before, after, hole0);
    } else if LookupBestFit(s, needed).Some? {
      SurveyedGood(s, k, at, have, needed, before, after, hole0);
      ReallocIntoHole(mode, s, k, at, have, needed, before, after, hole0);
    }
  }

  lemma SurveyedGood(s: State, k: nat, at: int, have: nat, needed: nat, before: Option<nat>, after: Option<nat>,
      hole0: Option<nat>)
    requires Surveyed(s, k, at, have, needed, before, after, hole0)
    ensures Good(s)
  {
    hide Good, LookupExact, AdjacentHoles, Lonely, Chunk;
  }

  lemma SurveyedHead(mode: Mode, s: State, k: nat, at: int, have: nat, needed: nat, before: Option<nat>,
      after: Option<nat>, hole0: Option<nat>)
    requires Surveyed(s, k, at, have, needed, before, after, hole0)
    requires s.volume != 0 && have != needed && have <= MAX_UNITS
    ensures s.head <= s.pivot <= |s.area| && k < |s.area|
    ensures var r := ReallocData(mode, s, k, have, needed); var grows := TakesNew(s) && Stranded(s, k, have);
            && (grows ==> (r.Done? <==> needed < have || needed <= TailSpace(s) || LookupBestFit(s, needed).Some?))
            && (r.Done? ==> Resulting(s, r.state, grows))
  {
    hide Good, LookupBestFit, Surveyed, ReallocData, ReleaseAndAlloc, LookupExact, AdjacentHoles, Chunk,
        ReallocBySwap, FirstWithTag, SizeOf;
    SurveyFound(s, k, at, have, needed, before, after, hole0);
    ReallocChoice(mode, s, k, at, have, needed, before, after, hole0);
    if s.head > 0 && before.None? && after.None? {
      SurveyedDone(mode, s, k, at, have, needed, before, after, hole0);
    }
    SwapHead(mode, s, k, have, needed);
    ReleaseAndAllocHead(mode, s, k, have, needed, before, after, hole0, None);
    ReleaseAndAllocHead(mode, s, k, have, needed, before, after, hole0, LookupBestFit(s, needed));
  }

  // ---- The operations -------------------------------------------------------------------------------------

  lemma InsertGrowth(mode: Mode, s: State, tag: Tag, v: Value)
    requires Good(s) && Proper(tag.genus, v)
    ensures s.head <= s.pivot <= |s.area|
    ensures var r := InsertField(mode, s, tag, v); var grows := InsertGrows(s, Size(v));
            && (grows ==> !r.Deficit?)
            && (r.Ok? ==> Resulting(s, r.state, grows))
  {
    hide Layout, Coalesced, AllocLoose, InsertGrows, Proper;
    BoundsOf(s);
    ProperSize(tag, v);
    AllocGrowth(mode, s, tag, Size(v));
  }

  lemma AllocGrowth(mode: Mode, s: State, tag: Tag, units: nat)
    requires Good(s) && units <= MAX_UNITS
    ensures s.head <= s.pivot <= |s.area|
    ensures var r := AllocLoose(mode, s, tag, units); var grows := InsertGrows(s, units);
            (grows ==> r.Done?) && (r.Done? ==> Resulting(s, r.state, grows))
  {
    hide Layout, Coalesced, LookupBestFit, IndexAlloc, TakesNew, Wrap32;
    BoundsOf(s);
    IndexAllocHead(s, 0);
    IndexAllocHead(s, units);
    if units > 0 { FitIsExact(s, units); }
  }

  /** The excess is zero only if hole and field have the same size. */
  lemma FitIsExact(s: State, units: nat)
    requires Good(s) && 0 < units <= MAX_UNITS
    ensures s.head <= s.pivot <= |s.area|
    ensures var h := LookupBestFit(s, units);
            h.Some? ==> (Wrap32(HoleSize(s, h.value) - units) == 0 <==> HoleSize(s, h.value) == units)
  {
    hide Packed, Slots, HolesMarked, Coalesced, LookupBestFit, Wrap32;
    LookupFindsBest(s, units);
    var h := LookupBestFit(s, units);
    if h.Some? {
      HoleBounds(s, h.value);
      WrapIsExact(HoleSize(s, h.value), units);
    }
  }

  lemma FillHead(mode: Mode, s: State, k: nat, v: Value)
    requires s.head <= s.pivot <= |s.area| && k < |s.area| && !HasPayload(s, k)
    ensures var r := AssignField(mode, s, k, v); r.Ok? ==> Shorter(s, r.state)
  {
    hide LookupBestFit, AllocData, UnitsAt, ReallocData, ErasePreplaced;
    AllocHead(s, Size(v), LookupBestFit(s, Size(v)));
  }

  lemma AssignGrowth(mode: Mode, s: State, k: nat, v: Value)
    requires Steady(s) && Bounds(s) && Legal(s, Assign(k, v))
    ensures var r := AssignField(mode, s, k, v); var grows := AssignGrows(s, k, v);
            && (grows ==> r.Ok?) && (r.Ok? ==> Resulting(s, r.state, grows))
  {
    hide Good, Written, LookupBestFit, UnitsAt, ReallocData, ErasePreplaced, TakesNew, Stranded, Proper, EraseField,
        Chunk, AllocData;
    if !HasPayload(s, k) {
      FillHead(mode, s, k, v);
    } else if Size(v) == 0 && k < s.pivot {
      ErasingShortens(s, k);
    } else if Size(v) == 0 {
      EmptyingHead(mode, s, k, UnitsAt(s, k));
    } else if Size(v) != UnitsAt(s, k) {
      OwnsLength(s, k);
      LengthBound(s, k, v);
      ReallocHead(mode, s, k, Payload(s, k), UnitsAt(s, k), Size(v));
    }
  }

  lemma LengthBound(s: State, k: nat, v: Value)
    requires Steady(s) && Bounds(s) && Legal(s, Assign(k, v)) && Chunk(s, k, Payload(s, k), UnitsAt(s, k))
             && UnitsAt(s, k) > 0
    ensures UnitsAt(s, k) <= MAX_UNITS && Size(v) <= MAX_UNITS
  {
    hide Packed, Slots, HolesMarked, Coalesced, UnitsAt;
    ChunkBounds(s, k, Payload(s, k), UnitsAt(s, k));
  }

  /** The index of a tuple after an operation that completes: one unit longer if the operation
      grows, which it then completes, and no longer otherwise. */
  lemma GrowthIs(mode: Mode, s: State, op: Op)
    requires Steady(s) && Bounds(s) && Legal(s, op)
    ensures var r := Act(mode, s, op);
            && (Grows(s, op) ==> !r.Deficit?)
            && (r.Ok? ==> Resulting(s, r.state, Grows(s, op)))
  {
    hide Good, Written, InsertField, AssignField, EraseField, Compactify, InsertGrows, AssignGrows, Proper;
    match op
    case Insert(tag, v) => InsertGrowth(mode, s, tag, v);
    case Erase(k) => ErasingShortens(s, k);
    case Assign(k, v) => AssignGrowth(mode, s, k, v);
    case Compact => CompactShorter(mode, s);
  }

  lemma CompactShorter(mode: Mode, s: State)
    requires Bounds(s) && 0 <= s.count <= s.pivot - s.head
    ensures Compactify(mode, s).Some? ==> Shorter(s, Compactify(mode, s).value)
  {
    hide MoveAll, PackIndex, NilReference, SortItems;
  }
}
