/** When an operation throws and where it puts its payload, said of the ledger alone: of the gaps
    in the payload, the spare descriptors and the free units at both ends. */
module Policy {
  import opened Ledger
  import opened Tuples
  import opened Gear
  import opened Searching
  import opened Reclaiming
  import opened Reallocating
  import opened Adding
  import opened Compaction
  import opened Operations
  import opened Stepping
  import opened Assigning
  import opened Growth
  import opened Writing

  // ---- What there is ----------------------------------------------------------------------------------

  /** An empty hole of the index. */
  predicate EmptyAt(s: State, k: nat) { HoleAt(s, k) && HoleSize(s, k) == 0 }

  ghost predicate SpareInIndex(s: State) { exists k: nat :: EmptyAt(s, k) }

  /** There is a place for one more descriptor. */
  ghost predicate DescriptorLeft(s: State) { s.head > 0 || SpareInIndex(s) }

  /** The place for one more descriptor: the first spare one, else the unit below the index. */
  ghost predicate IsDescriptor(s: State, k: nat) {
    || (EmptyAt(s, k) && forall j: nat :: j < k ==> !EmptyAt(s, j))
    || (!SpareInIndex(s) && s.head > 0 && k == s.head - 1)
  }

  ghost predicate AnyGap(s: State) { exists k: nat :: GapAt(s, k) }

  predicate GapFits(s: State, units: nat, k: nat) { GapAt(s, k) && HoleSize(s, k) >= units }

  ghost predicate GapOf(s: State, units: nat) { exists k: nat :: GapFits(s, units, k) }

  predicate GapIs(s: State, units: nat, k: nat) { GapAt(s, k) && HoleSize(s, k) == units }

  ghost predicate GapExactly(s: State, units: nat) { exists k: nat :: GapIs(s, units, k) }

  /** Payload is taken from the smallest gap that is large enough, the first of several, and from
      the end of data only when there is none. */
  ghost predicate PlacedAt(s: State, units: nat, begin: int) {
    if GapOf(s, units) then exists b: nat :: IsBestFit(s, units, Some(b)) && begin == HoleBegin(s, b)
    else begin == s.tail
  }

  // ---- The searches, said so --------------------------------------------------------------------------

  lemma DescriptorIs(s: State, notify: int)
    requires Good(s)
    ensures Bounds(s)
    ensures match IndexAlloc(s, notify)
            case Insufficient(t, i, d) => !DescriptorLeft(s) && t == s && i == 1 && d == notify
            case Done(t, k) => DescriptorLeft(s) && IsDescriptor(s, k) && t.area == s.area && t.tail == s.tail
  {
    hide Packed, Slots, HolesMarked, Coalesced;
    var empty := FirstWithTag(s.area, s.head, s.pivot, MakeHole(0));
    forall k: nat | EmptyAt(s, k) ensures s.count > 0 && s.area[k].tag == MakeHole(0) {
      HoleBounds(s, k);
    }
    if s.count > 0 && empty.Some? { assert EmptyAt(s, empty.value); }
  }

  lemma BestGap(s: State, units: nat)
    requires Good(s) && 0 < units <= MAX_UNITS
    ensures s.head <= s.pivot <= |s.area|
    ensures match LookupBestFit(s, units)
            case None => !GapOf(s, units) && !GapExactly(s, units)
            case Some(h) =>
              && GapFits(s, units, h) && IsBestFit(s, units, Some(h)) && HoleSize(s, h) <= MAX_UNITS
              && (GapExactly(s, units) <==> HoleSize(s, h) == units)
  {
    hide Packed, Slots, HolesMarked, Coalesced, LookupBestFit;
    LookupFindsBest(s, units);
    match LookupBestFit(s, units)
    case None =>
      forall k: nat ensures !GapFits(s, units, k) && !GapIs(s, units, k) {
        assert s.head <= k < s.pivot ==> !Fits(s, units, k);
      }
    case Some(h) =>
      HoleBounds(s, h);
      forall k: nat | GapIs(s, units, k) ensures HoleSize(s, h) == units {
        assert NoWorse(s, h, k);
      }
      assert HoleSize(s, h) == units ==> GapIs(s, units, h);
  }

  // ---- alloc_loose -------------------------------------------------------------------------------------

  /** Adding a field of so many units throws. */
  ghost predicate InsertThrows(s: State, units: nat) {
    if units > 0 && GapExactly(s, units) then false
    else !DescriptorLeft(s) || (units > TailSpace(s) && !GapOf(s, units))
  }

  /** alloc_loose throws exactly when a descriptor is wanted and none is left, or the units are
      neither in a gap nor at the end of data, and says what it wanted. Otherwise it takes the
      descriptor of a gap that fits exactly, else the first that is left, and its payload from the
      best gap, else from the end of data. */
  lemma AllocLoosePolicy(mode: Mode, s: State, tag: Tag, units: nat)
    requires Good(s) && Allocatable(tag, units)
    ensures s.head <= s.pivot <= |s.area|
    ensures match AllocLoose(mode, s, tag, units)
            case Insufficient(t, i, d) => InsertThrows(s, units) && t == s && i == 1 && d == units
            case Done(t, k) =>
              && !InsertThrows(s, units) && k < |t.area| && t.area[k].tag == tag
              && (if units > 0 && GapExactly(s, units) then IsBestFit(s, units, Some(k)) else IsDescriptor(s, k))
              && (units > 0 ==> PlacedAt(s, units, Payload(t, k)))
  {
    hide Good, LookupBestFit, IndexAlloc, GapIs, SpareInIndex, GapExactly, IsDescriptor, Wrap32, IsBestFit;
    DescriptorIs(s, units);
    DescriptorIs(s, 0);
    if units > 0 {
      BestGap(s, units);
      var best := LookupBestFit(s, units);
      if best.Some? {
        WrapIsExact(HoleSize(s, best.value), units);
        assert GapFits(s, units, best.value);
        assert PlacedAt(s, units, HoleBegin(s, best.value));
        if IndexAlloc(s, units).Done? { DescriptorIsNoGap(s, IndexAlloc(s, units).value, best.value); }
      }
    }
  }

  lemma DescriptorIsNoGap(s: State, k: nat, h: nat)
    requires IsDescriptor(s, k) && GapAt(s, h)
    ensures k != h
  {
  }

  // ---- What is beside a chunk ------------------------------------------------------------------------------

  ghost predicate BesideGap(s: State, at: int, end: int) {
    exists k: nat :: GapAt(s, k) && (HoleEnd(s, k) == at || HoleBegin(s, k) == end)
  }

  /** Nothing, or exactly one gap, lies between the two places. */
  ghost predicate FreeRun(s: State, lo: int, hi: int) {
    lo == hi || exists k: nat :: GapAt(s, k) && HoleBegin(s, k) == lo && HoleEnd(s, k) == hi
  }

  /** The chunk and the gaps that touch it take so many units together. */
  ghost predicate Stretches(s: State, at: int, end: int, needed: nat) {
    exists lo: int, hi: int :: FreeRun(s, lo, at) && FreeRun(s, end, hi) && hi - lo >= needed
  }

  lemma BesideIs(s: State, at: int, end: int, before: Option<nat>, after: Option<nat>)
    requires AreNeighbours(s, at, end, s.pivot, before, after)
    ensures BesideGap(s, at, end) <==> before.Some? || after.Some?
  {
    if before.Some? { assert GapAt(s, before.value) && HoleEnd(s, before.value) == at; }
    if after.Some? { assert GapAt(s, after.value) && HoleBegin(s, after.value) == end; }
  }

  lemma RunBefore(s: State, at: int, end: int, before: Option<nat>, after: Option<nat>, lo: int)
    requires Layout(s) && AreNeighbours(s, at, end, s.pivot, before, after) && FreeRun(s, lo, at)
    ensures at - lo <= SpanOf(s, before)
  {
    hide Packed, Slots, HolesMarked;
    if lo != at {
      var k: nat :| GapAt(s, k) && HoleBegin(s, k) == lo && HoleEnd(s, k) == at;
      if before != Some(k) { GapsApart(s, k, before.value); }
    }
  }

  lemma RunAfter(s: State, at: int, end: int, before: Option<nat>, after: Option<nat>, hi: int)
    requires Layout(s) && AreNeighbours(s, at, end, s.pivot, before, after) && FreeRun(s, end, hi)
    ensures hi - end <= SpanOf(s, after)
  {
    hide Packed, Slots, HolesMarked;
    if hi != end {
      var k: nat :| GapAt(s, k) && HoleBegin(s, k) == end && HoleEnd(s, k) == hi;
      if after != Some(k) { GapsApart(s, k, after.value); }
    }
  }

  lemma StretchesIs(s: State, at: int, end: int, before: Option<nat>, after: Option<nat>, needed: nat)
    requires Layout(s) && AreNeighbours(s, at, end, s.pivot, before, after)
    ensures Stretches(s, at, end, needed) <==> end - at + SpanOf(s, before) + SpanOf(s, after) >= needed
  {
    hide Packed, Slots, HolesMarked;
    if Stretches(s, at, end, needed) {
      var lo, hi :| FreeRun(s, lo, at) && FreeRun(s, end, hi) && hi - lo >= needed;
      RunBefore(s, at, end, before, after, lo);
      RunAfter(s, at, end, before, after, hi);
    }
    assert FreeRun(s, at - SpanOf(s, before), at);
    assert FreeRun(s, end, end + SpanOf(s, after));
  }

  lemma {:induction false} SomeVolume(c: seq<Slot>) returns (i: nat)
    requires Volume(c) > 0
    ensures i < |c| && c[i].hole && c[i].units > 0
    decreases |c|
  {
    if c[0].hole && c[0].units > 0 {
      i := 0;
    } else {
      i := SomeVolume(c[1..]);
      i := i + 1;
    }
  }

  lemma VolumeIsGaps(s: State)
    requires Layout(s)
    ensures AnyGap(s) <==> s.volume != 0
  {
    if s.volume == 0 {
      NoVolumeNoGaps(s);
    } else {
      CountIsNatural(s);
      var i := SomeVolume(Slots(s));
      SlotOf(s, s.head + i);
      assert GapAt(s, s.head + i);
    }
  }

  // ---- realloc_data ----------------------------------------------------------------------------------------

  /** No gap touches the chunk and no descriptor is left: it can neither be released nor cut. */
  ghost predicate Stuck(s: State, at: int, end: int) { !DescriptorLeft(s) && !BesideGap(s, at, end) }

  /** Changing the length of the chunk from `have` to `needed` units throws. */
  ghost predicate ReallocThrows(s: State, at: int, have: nat, needed: nat) {
    if !AnyGap(s) then
      if at + have == s.tail then needed - have > TailSpace(s)
      else !DescriptorLeft(s) || (needed > have && needed > TailSpace(s))
    else if needed > have && Stretches(s, at, at + have, needed) then false
    else if Stuck(s, at, at + have) then
      !GapExactly(s, needed) && (at + have == s.tail ==> needed - have > TailSpace(s))
    else needed > have && needed > TailSpace(s) && !GapOf(s, needed)
  }

  /** Whether it reports a missing descriptor besides the units. */
  ghost predicate WantsDescriptor(s: State, at: int, have: nat) {
    if AnyGap(s) then Stuck(s, at, at + have) else at + have != s.tail
  }

  /** The state once the chunk has been given up. */
  ghost predicate Freed(s: State, t: State, k: nat, at: int, have: nat) {
    exists before: Option<nat>, after: Option<nat>, m: Option<nat> ::
      AreNeighbours(s, at, at + have, s.pivot, before, after) && Released(s, t, k, at, have, before, after, m)
  }

  ghost predicate FirstExact(s: State, units: nat, h: nat) {
    GapIs(s, units, h) && forall l: nat :: l < h ==> !GapIs(s, units, l)
  }

  /** Where the chunk is then. Without gaps it moves only to grow. With gaps it is given up first
      and placed like any other; stuck it changes places with a gap of exactly the length, the
      first in the index. */
  ghost predicate ReallocPlaced(s: State, k: nat, at: int, have: nat, needed: nat, begin: int) {
    if !AnyGap(s) then begin == if at + have == s.tail || needed < have then at else s.tail
    else if Stuck(s, at, at + have) then
      if GapExactly(s, needed)
      then exists h: nat :: FirstExact(s, needed, h) && begin == HoleBegin(s, h)
      else begin == at
    else exists t: State :: Freed(s, t, k, at, have) && PlacedAt(t, needed, begin)
  }

  lemma WithoutGapsPolicy(s: State, k: nat, at: int, have: nat, needed: nat)
    requires Good(s) && Chunk(s, k, at, have) && s.volume == 0 && needed != have && 0 < needed <= MAX_UNITS
    ensures Bounds(s) && k < |s.area|
    ensures match ReallocWithoutHoles(s, k, have, needed)
            case Insufficient(t, i, d) =>
              ReallocThrows(s, at, have, needed) && d == needed && i == if WantsDescriptor(s, at, have) then 1 else 0
            case Done(t, begin) => !ReallocThrows(s, at, have, needed) && ReallocPlaced(s, k, at, have, needed, begin)
  {
    hide Good, IndexAlloc, SpareInIndex;
    ChunkPlaced(s, k, at, have);
    DescriptorIs(s, needed);
    GoodIs(s);
    VolumeIsGaps(s);
    NoVolumeIndexAlloc(s, needed);
    hide DescriptorLeft;
  }

  lemma GoodIs(s: State)
    requires Good(s)
    ensures Layout(s)
  {
  }

  /** Once the chunk has been given up it is placed like any other. */
  lemma ReleasedPlaces(mode: Mode, s: State, k: nat, at: int, have: nat, needed: nat, before: Option<nat>,
      after: Option<nat>, hole0: Option<nat>, cached: Option<nat>)
    requires ReleaseReady(s, k, at, have, before, after, hole0) && Roomy(s, before, after, hole0)
    requires 0 < needed <= MAX_UNITS && Enough(s, have, needed, before, after, cached)
    requires cached.Some? ==> IsBestFit(s, needed, cached) && cached != before && cached != after
    ensures Bounds(s) && k < |s.area| && Payload(s, k) == at
    ensures var r := ReleaseAndAlloc(mode, s, k, have, needed, before, after, hole0, cached);
            r.Done? && exists t: State :: Freed(s, t, k, at, have) && PlacedAt(t, needed, r.value)
  {
    hide Layout, Coalesced, Enough, AreNeighbours, ReleaseData, AllocData, HoleAfterRelease, LookupBestFit, Released,
        IsBestFit, Chunk, PlacedAt, Freed;
    ReadyMeans(s, k, at, have, before, after, hole0);
    ReleaseAndAllocNeverThrows(mode, s, k, at, have, needed, before, after, hole0, cached);
    ReleaseDataKeeps(mode, s, k, at, have, before, after, hole0);
    var r := ReleaseData(mode, Disown(s, k), at, have, before, after, hole0);
    var t, m := r.state, r.value;
    if cached.Some? {
      CachedHoleIsFresh(s, t, k, at, have, before, after, m, needed, cached.value);
    } else {
      NothingCached(t, needed, m);
    }
    FreedIs(s, t, k, at, have, before, after, hole0, m);
    AllocPlaces(t, needed);
  }

  lemma FreedIs(s: State, t: State, k: nat, at: int, have: nat, before: Option<nat>, after: Option<nat>,
      hole0: Option<nat>, m: Option<nat>)
    requires ReleaseReady(s, k, at, have, before, after, hole0) && Released(s, t, k, at, have, before, after, m)
    ensures Freed(s, t, k, at, have) && Good(t)
  {
    hide Good, Chunk;
  }

  lemma AllocPlaces(t: State, units: nat)
    requires Good(t) && 0 < units <= MAX_UNITS
    ensures t.head <= t.pivot <= |t.area|
    ensures match AllocData(t, units, LookupBestFit(t, units))
            case Insufficient(u, i, d) => units > TailSpace(t) && !GapOf(t, units) && u == t && i == 0 && d == units
            case Done(u, begin) => (units <= TailSpace(t) || GapOf(t, units)) && PlacedAt(t, units, begin)
  {
    hide Good, LookupBestFit, TrimHole, IsBestFit, Wrap32;
    BestGap(t, units);
    var best := LookupBestFit(t, units);
    if best.Some? { assert GapFits(t, units, best.value); }
  }

  /** The swap, and what is left when there is nothing to swap with. */
  lemma StuckPolicy(mode: Mode, s: State, k: nat, at: int, have: nat, needed: nat)
    requires Good(s) && Chunk(s, k, at, have) && AnyGap(s) && Stuck(s, at, at + have) && needed != have && needed > 0
    ensures Bounds(s) && k < |s.area|
    ensures match ReallocBySwap(mode, s, k, have, needed)
            case Insufficient(t, i, d) => ReallocThrows(s, at, have, needed) && d == needed && i == 1
            case Done(t, begin) => !ReallocThrows(s, at, have, needed) && ReallocPlaced(s, k, at, have, needed, begin)
  {
    hide Good, LookupExact, SpareInIndex, GiveBack, Stretches, BesideGap;
    GoodIs(s);
    ChunkPlaced(s, k, at, have);
    DescriptorIs(s, needed);
    ExactGap(s, needed);
    if needed > have { StuckStretches(s, at, have, needed); }
  }

  lemma ExactGap(s: State, units: nat)
    requires Layout(s) && units > 0
    ensures s.head <= s.pivot <= |s.area|
    ensures match LookupExact(s, units)
            case None => !GapExactly(s, units)
            case Some(h) => GapExactly(s, units) && FirstExact(s, units, h)
  {
    hide Packed, Slots, HolesMarked, LookupExact;
    LookupExactFinds(s, units);
    if LookupExact(s, units).Some? { assert GapIs(s, units, LookupExact(s, units).value); }
  }

  lemma StuckStretches(s: State, at: int, have: nat, needed: nat)
    requires Layout(s) && !BesideGap(s, at, at + have) && needed > have
    ensures !Stretches(s, at, at + have, needed)
  {
    hide Packed, Slots, HolesMarked;
  }

  lemma SpareIs(s: State)
    requires Layout(s)
    ensures s.head <= s.pivot <= |s.area|
    ensures LookupExact(s, 0).Some? <==> SpareInIndex(s)
    ensures LookupExact(s, 0).Some? ==> EmptyAt(s, LookupExact(s, 0).value)
  {
    hide Packed, Slots, HolesMarked, LookupExact;
    LookupExactFinds(s, 0);
    if LookupExact(s, 0).Some? { assert EmptyAt(s, LookupExact(s, 0).value); }
    if SpareInIndex(s) {
      var k: nat :| EmptyAt(s, k);
      assert HoleAt(s, k) && HoleSize(s, k) == 0;
    }
  }

  /** The survey of realloc_data in terms of the ledger. */
  lemma SurveyIs(s: State, k: nat, at: int, have: nat, needed: nat, before: Option<nat>, after: Option<nat>,
      hole0: Option<nat>)
    requires Surveyed(s, k, at, have, needed, before, after, hole0) && s.volume != 0
    ensures Good(s) && Bounds(s) && k < |s.area| && Payload(s, k) == at && AnyGap(s) && 0 < needed <= MAX_UNITS
    ensures ReleaseReady(s, k, at, have, before, after, hole0)
    ensures var adjacent := SizeOf(s, before) + SizeOf(s, after);
            && (adjacent == 0 <==> !BesideGap(s, at, at + have))
            && (Stretches(s, at, at + have, needed) <==> have + adjacent >= needed)
            && (Stuck(s, at, at + have) <==> adjacent == 0 && s.head == 0 && hole0.None?)
            && (!Stuck(s, at, at + have) ==> Roomy(s, before, after, hole0))
            && SizeOf(s, before) == SpanOf(s, before) && SizeOf(s, after) == SpanOf(s, after)
  {
    hide Packed, Slots, HolesMarked, Coalesced, LookupExact, AdjacentHoles, Stretches, BesideGap, SpareInIndex;
    VolumeIsGaps(s);
    BesideIs(s, at, at + have, before, after);
    StretchesIs(s, at, at + have, before, after, needed);
    SpareIs(s);
  }

  /** With gaps, on every path. */
  lemma WithGapsPolicy(mode: Mode, s: State, k: nat, at: int, have: nat, needed: nat)
    requires Good(s) && Chunk(s, k, at, have) && s.volume != 0 && needed != have && 0 < needed <= MAX_UNITS
    ensures Bounds(s) && k < |s.area|
    ensures match ReallocData(mode, s, k, have, needed)
            case Insufficient(t, i, d) =>
              ReallocThrows(s, at, have, needed) && d == needed && i == if WantsDescriptor(s, at, have) then 1 else 0
            case Done(t, begin) => !ReallocThrows(s, at, have, needed) && ReallocPlaced(s, k, at, have, needed, begin)
  {
    hide Good, Surveyed, ReallocData, ReallocBySwap, ReleaseAndAlloc, LookupBestFit, Stretches, BesideGap,
        DescriptorLeft, Chunk, ReleaseReady, AnyGap, Freed, PlacedAt, IsBestFit, SizeOf;
    var before, after, hole0 := Survey(s, k, at, have, needed);
    ReallocChoice(mode, s, k, at, have, needed, before, after, hole0);
    SurveyIs(s, k, at, have, needed, before, after, hole0);
    BestGap(s, needed);
    if Stuck(s, at, at + have) {
      StuckBranch(mode, s, k, at, have, needed, before, after, hole0);
    } else {
      FreedPolicy(mode, s, k, at, have, needed, before, after, hole0);
    }
  }

  lemma StuckBranch(mode: Mode, s: State, k: nat, at: int, have: nat, needed: nat, before: Option<nat>,
      after: Option<nat>, hole0: Option<nat>)
    requires Surveyed(s, k, at, have, needed, before, after, hole0) && s.volume != 0 && needed != have
    requires Stuck(s, at, at + have)
    ensures Bounds(s) && k < |s.area|
    ensures match ReallocData(mode, s, k, have, needed)
            case Insufficient(t, i, d) =>
              ReallocThrows(s, at, have, needed) && d == needed && i == if WantsDescriptor(s, at, have) then 1 else 0
            case Done(t, begin) => !ReallocThrows(s, at, have, needed) && ReallocPlaced(s, k, at, have, needed, begin)
  {
    hide Good, ReallocData, ReallocBySwap, ReleaseAndAlloc, LookupBestFit, Stuck, ReallocThrows, ReallocPlaced, SizeOf,
        AnyGap, Lonely, LookupExact, AdjacentHoles, Stretches, BesideGap;
    SurveyIs(s, k, at, have, needed, before, after, hole0);
    ReallocChoice(mode, s, k, at, have, needed, before, after, hole0);
    StuckPolicy(mode, s, k, at, have, needed);
  }

  lemma FreedPolicy(mode: Mode, s: State, k: nat, at: int, have: nat, needed: nat, before: Option<nat>,
      after: Option<nat>, hole0: Option<nat>)
    requires Surveyed(s, k, at, have, needed, before, after, hole0) && s.volume != 0 && needed != have
    requires !Stuck(s, at, at + have)
    ensures Bounds(s) && k < |s.area|
    ensures match ReallocData(mode, s, k, have, needed)
            case Insufficient(t, i, d) =>
              ReallocThrows(s, at, have, needed) && d == needed && i == if WantsDescriptor(s, at, have) then 1 else 0
            case Done(t, begin) => !ReallocThrows(s, at, have, needed) && ReallocPlaced(s, k, at, have, needed, begin)
  {
    hide Good, Surveyed, ReallocData, ReallocBySwap, ReleaseAndAlloc, LookupBestFit, Stretches, BesideGap,
        DescriptorLeft, Chunk, ReleaseReady, AnyGap, Freed, PlacedAt, IsBestFit, SizeOf, SpanOf, Roomy, GapExactly;
    SurveyIs(s, k, at, have, needed, before, after, hole0);
    ReallocChoice(mode, s, k, at, have, needed, before, after, hole0);
    BestGap(s, needed);
    var cached := LookupBestFit(s, needed);
    var enough := have + SpanOf(s, before) + SpanOf(s, after) >= needed || needed <= TailSpace(s);
    if enough {
      ReleasedPlaces(mode, s, k, at, have, needed, before, after, hole0, None);
    } else if cached.Some? {
      assert GapFits(s, needed, cached.value);
      CachedIsNoNeighbour(s, needed, have, before, after, cached.value);
      ReleasedPlaces(mode, s, k, at, have, needed, before, after, hole0, cached);
    }
  }

  /** realloc_data throws exactly when the ledger leaves it no way that it looks for: resizing the
      last chunk in place, which it does without gaps or when it is stuck; growing into the gaps
      beside the chunk; a gap of exactly the length to change places with, when it is stuck; and
      otherwise cutting, or moving to free units or a gap, with a descriptor for what it leaves. It
      says then what it wanted, and otherwise where the chunk is. */
  lemma ReallocPolicy(mode: Mode, s: State, k: nat, at: int, have: nat, needed: nat)
    requires Good(s) && Chunk(s, k, at, have) && needed != have && 0 < needed <= MAX_UNITS
    ensures Bounds(s) && k < |s.area|
    ensures match ReallocData(mode, s, k, have, needed)
            case Insufficient(t, i, d) =>
              ReallocThrows(s, at, have, needed) && d == needed && i == if WantsDescriptor(s, at, have) then 1 else 0
            case Done(t, begin) => !ReallocThrows(s, at, have, needed) && ReallocPlaced(s, k, at, have, needed, begin)
  {
    hide Good, ReallocThrows, ReallocPlaced, WantsDescriptor, ReallocWithoutHoles, ReallocData;
    ChunkPlaced(s, k, at, have);
    if s.volume == 0 {
      WithoutGapsPolicy(s, k, at, have, needed);
      NoVolumeRealloc(mode, s, k, have, needed);
    } else {
      WithGapsPolicy(mode, s, k, at, have, needed);
    }
  }

  // ---- The operations --------------------------------------------------------------------------------------

  /** The operation throws insufficient_space. */
  ghost predicate Throws(s: State, op: Op)
    requires Bounds(s) && Legal(s, op)
  {
    match op
    case Insert(tag, v) => InsertThrows(s, Size(v))
    case Erase(k) => false
    case Compact => false
    case Assign(k, v) =>
      var at, have := Payload(s, k), UnitsAt(s, k);
      if !HasPayload(s, k) then Size(v) > TailSpace(s) && !GapOf(s, Size(v))
      else if Size(v) == have then false
      else if Size(v) > 0 then ReallocThrows(s, at, have, Size(v))
      else k >= s.pivot && at + have != s.tail && Stuck(s, at, at + have)
  }

  /** What it then asks for: descriptors and units. */
  ghost function Demand(s: State, op: Op): (int, int)
    requires Bounds(s) && Legal(s, op)
  {
    match op
    case Insert(tag, v) => (1, Size(v))
    case Assign(k, v) =>
      if !HasPayload(s, k) then (0, Size(v))
      else if Size(v) > 0 then (if WantsDescriptor(s, Payload(s, k), UnitsAt(s, k)) then 1 else 0, Size(v))
      else (1, 0)
    case _ => (0, 0)
  }

  lemma NoRoomIs(s: State, k: nat, have: nat)
    requires Good(s) && k < |s.area|
    ensures s.head <= s.pivot <= |s.area|
    ensures NoRoom(s, k, have)
            <==> Payload(s, k) + have != s.tail && Stuck(s, Payload(s, k), Payload(s, k) + have)
  {
    hide Good, AdjacentHoles, IndexAlloc, BesideGap, AreNeighbours, DescriptorLeft;
    GoodIs(s);
    DescriptorIs(s, 0);
    var at := Payload(s, k);
    AdjacentFound(s, at, at + have);
    var (before, after) := AdjacentHoles(s, at, at + have);
    BesideIs(s, at, at + have, before, after);
  }

  lemma InsertThrowsIff(mode: Mode, s: State, tag: Tag, v: Value)
    requires Steady(s) && Bounds(s) && Proper(tag.genus, v)
    ensures var r := InsertField(mode, s, tag, v);
            && (r.Deficit? <==> InsertThrows(s, Size(v)) && !(mode.AsWritten? && v.Nil?))
            && (r.Deficit? ==> r.index == 1 && r.data == Size(v))
  {
    hide Good, Written, AllocLoose, InsertThrows, Proper, GapExactly, IsDescriptor, PlacedAt;
    ProperSize(tag, v);
    AllocLoosePolicy(mode, s, tag, Size(v));
  }

  lemma AssignThrowsIff(mode: Mode, s: State, k: nat, v: Value)
    requires Steady(s) && Bounds(s) && Legal(s, Assign(k, v))
    ensures var r := AssignField(mode, s, k, v);
            && (r.Deficit? <==> Throws(s, Assign(k, v)))
            && (r.Deficit? ==> (r.index, r.data) == Demand(s, Assign(k, v)))
  {
    hide Good, Written, UnitsAt, ReallocData, ErasePreplaced, EraseField, AllocData, LookupBestFit, Proper, Chunk,
        ReallocThrows, ReallocPlaced, WantsDescriptor, Stuck, GapOf, PlacedAt, NoRoom;
    if !HasPayload(s, k) {
      LengthInBounds(s, k, v);
      if Size(v) > 0 { AllocPlaces(s, Size(v)); } else { FreeUnits(s); }
    } else if Size(v) != UnitsAt(s, k) && Size(v) > 0 {
      OwnsLength(s, k);
      LengthInBounds(s, k, v);
      ReallocPolicy(mode, s, k, Payload(s, k), UnitsAt(s, k), Size(v));
    } else if Size(v) != UnitsAt(s, k) {
      if k < s.pivot {
        EraseKeeps(s, k);
      } else {
        EmptyKeeps(mode, s, k, v);
        NoRoomIs(s, k, UnitsAt(s, k));
        EraseReports(mode, s, k, UnitsAt(s, k));
      }
    }
  }

  lemma EraseReports(mode: Mode, s: State, k: nat, have: nat)
    requires s.head <= s.pivot <= |s.area| && k < |s.area|
    ensures var r := ErasePreplaced(mode, s, k, have); r.Insufficient? ==> r.index == 1 && r.data == 0
  {
    hide AdjacentHoles, MergeHoles, GiveBack, FirstWithTag;
  }

  lemma FreeUnits(s: State)
    requires Bounds(s)
    ensures TailSpace(s) >= 0
  {
  }

  lemma LengthInBounds(s: State, k: nat, v: Value)
    requires Bounds(s) && Legal(s, Assign(k, v))
    ensures Size(v) <= MAX_UNITS
  {
  }

  /** An operation throws exactly when the ledger says so, and asks for what the ledger lacks. */
  lemma ThrowsIff(mode: Mode, s: State, op: Op)
    requires Steady(s) && Bounds(s) && Legal(s, op)
    ensures var r := Act(mode, s, op);
            && (r.Deficit? <==> Throws(s, op) && !(op.Insert? && mode.AsWritten? && op.value.Nil?))
            && (r.Deficit? ==> (r.index, r.data) == Demand(s, op))
  {
    hide Good, Written, InsertField, AssignField, Compactify, EraseField, UnitsAt, Proper, ReallocThrows, Stuck, GapOf,
        WantsDescriptor;
    match op
    case Insert(tag, v) => InsertThrowsIff(mode, s, tag, v);
    case Assign(k, v) => AssignThrowsIff(mode, s, k, v);
    case Erase(k) => EraseKeeps(s, k);
    case Compact =>
  }
}
