/** realloc_data: all or nothing. */
module Reallocating {
  import opened Ledger
  import opened Tuples
  import opened Gear
  import opened Searching
  import opened Keeping
  import opened Merging
  import opened Indexing
  import opened Reclaiming
  import opened Allocating

  // ---- The cached hole ---------------------------------------------------------------------------

  lemma BestFitOfTwo(t: State, needed: nat, m: nat, h: nat)
    requires Layout(t) && 0 < needed <= MAX_UNITS && HoleAt(t, m) && HoleAt(t, h) && HoleSize(t, h) >= needed
    ensures var r := BestFit(t, needed, Some(m), h);
            && (r == m || r == h) && HoleSize(t, r) >= needed && NoWorse(t, r, h)
            && (HoleSize(t, m) >= needed ==> NoWorse(t, r, m))
  {
    HoleBounds(t, m);
    HoleBounds(t, h);
    WrapIsExact(HoleSize(t, m), needed);
    WrapIsExact(HoleSize(t, h), needed);
    hide Layout;
  }

  /** The hole found before the release, weighed against the one the release makes, is what a
      fresh search would find, even where the excess of a too small hole wraps around. */
  lemma CachedHoleIsFresh(s: State, t: State, k: nat, at: int, have: nat, before: Option<nat>, after: Option<nat>,
                          m: Option<nat>, needed: nat, h: nat)
    requires Layout(s) && Released(s, t, k, at, have, before, after, m) && 0 < needed <= MAX_UNITS
    requires IsBestFit(s, needed, Some(h)) && before != Some(h) && after != Some(h)
    ensures HoleAfterRelease(t, needed, m, Some(h)) == LookupBestFit(t, needed)
  {
    hide Layout, Coalesced, BestFit, LookupBestFit;
    assert GapAt(s, h) && GapAt(t, h) && t.area[h] == s.area[h];
    if m.Some? { BestFitOfTwo(t, needed, m.value, h); }
    var r := BestFit(t, needed, m, h);
    if m.None? { BestFitOfNone(t, needed, h); }
    forall g: nat | t.head <= g < t.pivot && Fits(t, needed, g) ensures NoWorse(t, r, g) {
      if Some(g) != m {
        assert GapAt(s, g) && Fits(s, needed, g) && NoWorse(s, h, g);
        assert NoWorse(t, h, g);
      }
    }
    LookupFindsBest(t, needed);
    BestFitIsUnique(t, needed, Some(r), LookupBestFit(t, needed));
  }

  lemma BestFitOfNone(t: State, needed: nat, h: nat)
    requires h < |t.area|
    ensures BestFit(t, needed, None, h) == h
  {
  }

  // ---- Release, then allocate -----------------------------------------------------------------------

  /** The three reasons realloc_data has for releasing first. */
  ghost predicate Enough(s: State, have: nat, needed: nat, before: Option<nat>, after: Option<nat>,
      cached: Option<nat>) {
    || have + SpanOf(s, before) + SpanOf(s, after) >= needed
    || needed <= TailSpace(s)
    || (cached.Some? && IsBestFit(s, needed, cached) && cached != before && cached != after)
  }

  /** The release has a descriptor to put the chunk in, or needs none. */
  ghost predicate Roomy(s: State, before: Option<nat>, after: Option<nat>, hole0: Option<nat>) {
    before.Some? || after.Some? || s.head > 0 || hole0.Some?
  }

  lemma AllocAfterRelease(s: State, t: State, k: nat, at: int, have: nat, before: Option<nat>, after: Option<nat>,
                          m: Option<nat>, needed: nat, cached: Option<nat>)
    requires ReleaseReady(s, k, at, have, before, after, None) && Released(s, t, k, at, have, before, after, m)
    requires 0 < needed <= MAX_UNITS && Enough(s, have, needed, before, after, cached)
    requires cached.Some? ==> IsBestFit(s, needed, cached) && cached != before && cached != after
    ensures var r := AllocData(t, needed, LookupBestFit(t, needed));
            r.Done? && Good(Refer(r.state, k, r.value, needed)) &&
            Chunk(Refer(r.state, k, r.value, needed), k, r.value, needed)
  {
    hide Packed, Slots, HolesMarked, Coalesced, LookupBestFit, AreNeighbours;
    LookupFindsBest(t, needed);
    var h := LookupBestFit(t, needed);
    VacantAfterRelease(s, t, k, at, have);
    assert cached.Some? ==> GapAt(s, cached.value) && Fits(t, needed, cached.value);
    assert m.Some? ==> HoleSize(t, m.value) < needed || Fits(t, needed, m.value);
    if h.Some? {
      FromHoleKeeps(t, k, h.value, needed);
    } else {
      assert needed <= TailSpace(t);
      FromTailKeeps(t, k, needed);
      assert Refer(t.(tail := t.tail + needed), k, t.tail, needed) == TakenFromTail(t, k, needed);
    }
  }

  lemma VacantAfterRelease(s: State, t: State, k: nat, at: int, have: nat)
    requires Chunk(s, k, at, have) && t.pivot == s.pivot && t.schema == s.schema && |t.area| == |s.area|
    requires t.area[k] == s.area[k].(own := 0) && Layout(t)
    requires t.head <= k
    ensures Vacant(t, k)
  {
    hide Packed, Slots, HolesMarked;
  }

  ghost predicate DoneWith(r: Outcome<int>, k: nat, needed: nat) {
    r.Done? && Good(r.state) && Chunk(r.state, k, r.value, needed)
  }

  /** Once realloc_data starts to release nothing can be missing any more. */
  lemma ReleaseAndAllocNeverThrows(mode: Mode, s: State, k: nat, at: int, have: nat, needed: nat,
                                   before: Option<nat>, after: Option<nat>, hole0: Option<nat>, cached: Option<nat>)
    requires ReleaseReady(s, k, at, have, before, after, hole0) && Roomy(s, before, after, hole0)
    requires 0 < needed <= MAX_UNITS && Enough(s, have, needed, before, after, cached)
    requires cached.Some? ==> IsBestFit(s, needed, cached) && cached != before && cached != after
    ensures DoneWith(ReleaseAndAlloc(mode, s, k, have, needed, before, after, hole0, cached), k, needed)
  {
    hide Layout, Coalesced, Enough, AreNeighbours, ReleaseData, AllocData, HoleAfterRelease, LookupBestFit, Released,
        IsBestFit, Chunk;
    ReadyMeans(s, k, at, have, before, after, hole0);
    ReleaseDataKeeps(mode, s, k, at, have, before, after, hole0);
    var r := ReleaseData(mode, Disown(s, k), at, have, before, after, hole0);
    var t, m := r.state, r.value;
    if cached.Some? {
      CachedHoleIsFresh(s, t, k, at, have, before, after, m, needed, cached.value);
    } else {
      NothingCached(t, needed, m);
    }
    AllocAfterRelease(s, t, k, at, have, before, after, m, needed, cached);
  }

  lemma ReadyMeans(s: State, k: nat, at: int, have: nat, before: Option<nat>, after: Option<nat>, hole0: Option<nat>)
    requires ReleaseReady(s, k, at, have, before, after, hole0)
    ensures Layout(s) && Bounds(s) && k < |s.area| && Payload(s, k) == at
            && ReleaseReady(s, k, at, have, before, after, None)
    ensures (before.Some? ==> before.value < s.pivot) && (after.Some? ==> after.value < s.pivot)
            && (hole0.Some? ==> hole0.value < s.pivot)
  {
    hide Packed, Slots, HolesMarked, Coalesced;
  }

  lemma NothingCached(t: State, needed: nat, m: Option<nat>)
    requires t.head <= t.pivot <= |t.area| && (m.Some? ==> m.value < t.pivot)
    ensures HoleAfterRelease(t, needed, m, None) == LookupBestFit(t, needed)
  {
  }

  // ---- The last chunk ---------------------------------------------------------------------------------

  function Resized(s: State, k: nat, have: nat, needed: nat): State
    requires k < |s.area|
  {
    Refer(s, k, Payload(s, k), needed).(tail := s.tail - have + needed)
  }

  lemma ResizedLayout(s: State, k: nat, at: int, have: nat, needed: nat)
    requires Layout(s) && Chunk(s, k, at, have) && at + have == s.tail && needed > 0 && needed <= have + TailSpace(s)
    ensures Layout(Resized(s, k, have, needed)) && SameHoles(s, Resized(s, k, have, needed))
  {
    hide Packed, Slots, HolesMarked;
    var t := Resized(s, k, have, needed);
    var u := Refer(s, k, at, needed);
    ChunkBounds(s, k, at, have);
    PutSlots(s, k, u.area[k]);
    SameSlots(u, t);
    SlotOf(s, k);
    SameHolesMeans(s, t);
    LayoutAfterTail(s, t, k - s.head, Slot(false, at, needed));
  }

  lemma ResizedClear(s: State, k: nat, at: int, have: nat, needed: nat)
    requires Good(s) && Chunk(s, k, at, have) && at + have == s.tail && needed > 0 && needed <= have + TailSpace(s)
    ensures Clear(Resized(s, k, have, needed)) && Chunk(Resized(s, k, have, needed), k, at, needed)
  {
    hide Packed, Slots, HolesMarked, Separated, TightHead;
    var t := Resized(s, k, have, needed);
    forall g: nat | GapAt(t, g) ensures HoleEnd(t, g) != t.tail {
      ChunkAndGap(s, k, at, have, g);
      HoleBounds(s, g);
    }
  }

  lemma ResizeLastKeeps(s: State, k: nat, at: int, have: nat, needed: nat, index: int)
    requires Good(s) && Chunk(s, k, at, have) && at + have == s.tail && needed > 0
    ensures var r := ResizeLast(s, k, have, needed, index);
            if needed <= have + TailSpace(s) then DoneWith(r, k, needed) else r == Insufficient(s, index, needed)
  {
    if needed <= have + TailSpace(s) {
      ResizedLayout(s, k, at, have, needed);
      ResizedClear(s, k, at, have, needed);
      hide Packed, Slots, HolesMarked, Separated, TightHead, Clear;
      SameHolesMeans(s, Resized(s, k, have, needed));
    }
  }

  // ---- No junk volume -----------------------------------------------------------------------------------

  lemma {:induction false} SomeHole(s: State, scan: nat) returns (k: nat)
    requires Bounds(s) && s.head <= scan <= s.pivot && HolesFrom(s, scan) > 0
    ensures scan <= k < s.pivot && IsHole(s.area[k])
    decreases s.pivot - scan
  {
    if scan == s.pivot {
      NoHolesInRefs(s, scan);
      k := scan;
    } else {
      HolesFromStep(s, scan);
      if IsHole(s.area[scan]) { k := scan; } else { k := SomeHole(s, scan + 1); }
    }
  }

  lemma NoVolumeNoGaps(s: State)
    requires Layout(s) && s.volume == 0
    ensures forall g: nat :: !GapAt(s, g)
  {
    forall g: nat ensures !GapAt(s, g) {
      if HoleAt(s, g) { HoleBounds(s, g); }
    }
  }

  /** With no junk volume every hole is a spare descriptor. */
  lemma NoVolumeIndexAlloc(s: State, notify: int)
    requires Good(s) && s.volume == 0
    ensures IndexAlloc(s, notify).Done? <==> s.head + s.count >= 1
    ensures IndexAlloc(s, notify).Insufficient? ==> IndexAlloc(s, notify) == Insufficient(s, 1, notify)
  {
    IndexAllocReserves(s, notify);
    assert Slots(s)[0..] == Slots(s);
    hide Packed, Slots, HolesMarked, Separated, TightHead, Clear;
    NoVolumeNoGaps(s);
    if s.count > 0 {
      var k := SomeHole(s, s.head);
      assert HoleAt(s, k) && !GapAt(s, k);
    }
  }

  /** Moving to the tail leaves the old chunk behind as a hole. */
  lemma MovedToTail(s: State, k: nat, at: int, have: nat, needed: nat)
    requires Good(s) && Chunk(s, k, at, have) && s.volume == 0 && at + have != s.tail
    requires have < needed <= TailSpace(s) && s.head + s.count >= 1
    ensures DoneWith(ReallocWithoutHoles(s, k, have, needed), k, needed)
  {
    NoVolumeIndexAlloc(s, needed);
    IndexAllocReserves(s, needed);
    hide Packed, Slots, HolesMarked, Separated, TightHead, Clear, IndexAlloc, Reserved;
    NoVolumeNoGaps(s);
    var e, r, t := IndexAlloc(s, needed).value, Reserved(s), IndexAlloc(s, needed).state;
    assert RoomAt(s, r, e);
    RoomKeepsChunk(s, r, e, k, at, have);
    SameGapsMeans(s, r);
    assert Lonely(r, at, have);
    var h := Housed(r, k, e, at, have);
    HousedGood(r, k, e, at, have);
    HousedVacant(r, k, e, at, have);
    FromTailKeeps(h, k, needed);
    assert Put(t, e, EMPTY_HOLE) == Put(r, e, EMPTY_HOLE).(count := r.count - 1);
    MovedIs(s, t, r, k, e, at, have, needed);
  }

  lemma HousedVacant(r: State, k: nat, e: nat, at: int, have: nat)
    requires Bounds(r) && Chunk(r, k, at, have) && HoleAt(r, e) && k != e
    ensures Vacant(Housed(r, k, e, at, have), k) && Housed(r, k, e, at, have).tail == r.tail
  {
  }

  lemma MovedIs(s: State, t: State, r: State, k: nat, e: nat, at: int, have: nat, needed: nat)
    requires Bounds(s) && RoomAt(s, r, e) && k < |s.area| && k != e && t.area == s.area && s.volume == 0
             && needed <= TailSpace(s)
    requires IndexAlloc(s, needed) == Done(t, e) && Payload(s, k) == at && at + have != s.tail && needed > have
    requires Put(t, e, EMPTY_HOLE) == Put(r, e, EMPTY_HOLE).(count := r.count - 1) && s.head + s.count >= 1
    ensures ReallocWithoutHoles(s, k, have, needed) == Done(TakenFromTail(Housed(r, k, e, at, have), k, needed), s.tail)
  {
    hide RoomAt, IndexAlloc;
    assert |t.area| == |r.area| && r.tail == s.tail && r.volume == s.volume by { MovedSame(s, r, e); }
    var x, y := Put(t, e, EMPTY_HOLE), Put(r, e, EMPTY_HOLE);
    assert t.head == x.head && t.count == x.count && t.schema == x.schema && t.tail == x.tail && t.pivot == x.pivot
        && t.volume == x.volume;
    var u := HoleUnit(e, at, have);
    var v := Put(t, e, u).(count := t.count + 1, volume := t.volume + have);
    var w := TakenFromTail(Housed(r, k, e, at, have), k, needed);
    assert Refer(v.(tail := v.tail + needed), k, v.tail, needed).area == w.area by {
      assert t.area[e := EMPTY_HOLE] == r.area[e := EMPTY_HOLE];
      AreaMoved(t.area, r.area, k, e, u, t.area[k].(own := 0), t.area[k].(rel := v.tail - k, own := needed));
    }
  }

  lemma MovedSame(s: State, r: State, e: nat)
    requires RoomAt(s, r, e)
    ensures |s.area| == |r.area| && r.tail == s.tail && r.volume == s.volume
  {
  }

  lemma AreaMoved(a: seq<Unit>, b: seq<Unit>, k: nat, e: nat, u: Unit, v: Unit, w: Unit)
    requires |a| == |b| && k < |a| && e < |a| && k != e && a[e := EMPTY_HOLE] == b[e := EMPTY_HOLE]
    ensures a[k] == b[k] && a[e := u][k := w] == b[k := v][e := u][k := w]
  {
    assert a[e := EMPTY_HOLE][k] == b[e := EMPTY_HOLE][k];
    forall i | 0 <= i < |a| && i != e ensures a[i] == b[i] {
      assert a[e := EMPTY_HOLE][i] == b[e := EMPTY_HOLE][i];
    }
  }

  /** The empty hole `e` takes what the chunk of `k` has beyond its first `needed` units. */
  function Clipped(r: State, k: nat, e: nat, at: int, have: nat, needed: nat): State
    requires k < |r.area| && e < |r.area| && needed <= have
  {
    Refer(Put(r, e, HoleUnit(e, at + needed, have - needed)), k, at, needed).(volume := r.volume + (have - needed))
  }

  lemma ClippedSlots(r: State, k: nat, e: nat, at: int, have: nat, needed: nat)
    requires Layout(r) && Chunk(r, k, at, have) && HoleAt(r, e) && HoleSize(r, e) == 0 && 0 < needed < have
    ensures Bounds(Clipped(r, k, e, at, have, needed)) && k != e
    ensures Slots(Clipped(r, k, e, at, have, needed))
            == Slots(r)[e - r.head := Slot(true, at + needed, have - needed)][k - r.head := Slot(false, at, needed)]
  {
    hide Packed, Slots, HolesMarked;
    var t := Put(r, e, HoleUnit(e, at + needed, have - needed));
    PutSlots(r, e, t.area[e]);
    var u := Refer(t, k, at, needed);
    PutSlots(t, k, u.area[k]);
    SameSlots(u, Clipped(r, k, e, at, have, needed));
  }

  lemma ClippedMarked(r: State, k: nat, e: nat, at: int, have: nat, needed: nat)
    requires Layout(r) && Chunk(r, k, at, have) && HoleAt(r, e) && HoleSize(r, e) == 0 && 0 < needed < have
    ensures Bounds(Clipped(r, k, e, at, have, needed)) && HolesMarked(Clipped(r, k, e, at, have, needed))
  {
    hide Packed, Slots;
    ChunkBounds(r, k, at, have);
  }

  lemma ClippedLayout(r: State, k: nat, e: nat, at: int, have: nat, needed: nat)
    requires Layout(r) && Chunk(r, k, at, have) && HoleAt(r, e) && HoleSize(r, e) == 0 && 0 < needed < have
    ensures Layout(Clipped(r, k, e, at, have, needed))
  {
    hide Packed, Slots, HolesMarked, Shelters;
    var x, y := Slot(true, at + needed, have - needed), Slot(false, at, needed);
    ClippedSlots(r, k, e, at, have, needed);
    ClippedMarked(r, k, e, at, have, needed);
    ChunkBounds(r, k, at, have);
    SlotOf(r, k); SlotOf(r, e);
    SheltersPart(SlotAt(r, k), SlotAt(r, e), x);
    SheltersPart(SlotAt(r, k), SlotAt(r, e), y);
    LayoutAfterTwo(r, Clipped(r, k, e, at, have, needed), e - r.head, k - r.head, x, y);
  }

  lemma ClippedGood(r: State, k: nat, e: nat, at: int, have: nat, needed: nat)
    requires Layout(r) && Chunk(r, k, at, have) && HoleAt(r, e) && HoleSize(r, e) == 0 && 0 < needed < have
    requires (forall g: nat :: !GapAt(r, g)) && (e == r.head || TightHead(r)) && at + have != r.tail
    ensures Good(Clipped(r, k, e, at, have, needed)) && Chunk(Clipped(r, k, e, at, have, needed), k, at, needed)
  {
    ClippedLayout(r, k, e, at, have, needed);
    hide Packed, Slots, HolesMarked;
    var t := Clipped(r, k, e, at, have, needed);
    forall g: nat | GapAt(t, g) ensures g == e {
      assert g != e ==> t.area[g].tag == r.area[g].tag && !GapAt(r, g);
    }
  }

  lemma ClippedIs(s: State, t: State, r: State, k: nat, e: nat, at: int, have: nat, needed: nat)
    requires Bounds(s) && RoomAt(s, r, e) && k < |s.area| && k != e && t.area == s.area && s.volume == 0
             && needed < have
    requires IndexAlloc(s, needed) == Done(t, e) && Payload(s, k) == at && at + have != s.tail
    requires Put(t, e, EMPTY_HOLE) == Put(r, e, EMPTY_HOLE).(count := r.count - 1)
    ensures ReallocWithoutHoles(s, k, have, needed) == Done(Clipped(r, k, e, at, have, needed), at)
  {
    hide RoomAt, IndexAlloc;
    assert |t.area| == |r.area| && r.tail == s.tail && r.volume == s.volume by { MovedSame(s, r, e); }
    var x, y := Put(t, e, EMPTY_HOLE), Put(r, e, EMPTY_HOLE);
    assert t.head == x.head && t.count == x.count && t.schema == x.schema && t.tail == x.tail && t.pivot == x.pivot
        && t.volume == x.volume;
    assert t.area[e := EMPTY_HOLE] == r.area[e := EMPTY_HOLE];
    AreaMoved(t.area, r.area, k, e, HoleUnit(e, at + needed, have - needed),
              t.area[k], t.area[k].(rel := at - k, own := needed));
  }

  /** Shrinking in place leaves the rest behind as a hole. */
  lemma ShrunkInPlace(s: State, k: nat, at: int, have: nat, needed: nat)
    requires Good(s) && Chunk(s, k, at, have) && s.volume == 0 && at + have != s.tail && 0 < needed < have
             && s.head + s.count >= 1
    ensures DoneWith(ReallocWithoutHoles(s, k, have, needed), k, needed)
  {
    NoVolumeIndexAlloc(s, needed);
    IndexAllocReserves(s, needed);
    hide Packed, Slots, HolesMarked, Separated, TightHead, Clear, IndexAlloc, Reserved, Clipped;
    NoVolumeNoGaps(s);
    var e, r, t := IndexAlloc(s, needed).value, Reserved(s), IndexAlloc(s, needed).state;
    assert RoomAt(s, r, e);
    RoomKeepsChunk(s, r, e, k, at, have);
    ClippedGood(r, k, e, at, have, needed);
    assert Put(t, e, EMPTY_HOLE) == Put(r, e, EMPTY_HOLE).(count := r.count - 1);
    ClippedIs(s, t, r, k, e, at, have, needed);
  }

  /** The deficit reported is real: there is less free space than needed, or no unit below the
      index. */
  predicate Lacks(s: State, i: int, d: int, needed: nat) {
    d == needed && (((i == 0 || i == 1) && needed > TailSpace(s)) || (i == 1 && s.head == 0))
  }

  lemma ReallocWithoutHolesKeeps(s: State, k: nat, at: int, have: nat, needed: nat)
    requires Good(s) && Chunk(s, k, at, have) && s.volume == 0 && needed > 0 && needed != have
    ensures var r := ReallocWithoutHoles(s, k, have, needed);
            DoneWith(r, k, needed) || (r.Insufficient? && r.state == s && Lacks(s, r.index, r.data, needed))
  {
    NoVolumeIndexAlloc(s, needed);
    CountIsNatural(s);
    hide Packed, Slots, HolesMarked, Separated, TightHead, Clear, IndexAlloc;
    if at + have == s.tail {
      ResizeLastKeeps(s, k, at, have, needed, 0);
    } else if needed > have {
      if needed <= TailSpace(s) && s.head + s.count >= 1 { MovedToTail(s, k, at, have, needed); }
    } else if s.head + s.count >= 1 {
      ShrunkInPlace(s, k, at, have, needed);
    }
  }

  // ---- The swap ------------------------------------------------------------------------------------------

  /** Reference `k` and hole `h` exchange their payload. */
  function Swapped(s: State, k: nat, h: nat, at: int, have: nat, needed: nat): State
    requires k < |s.area| && h < |s.area|
  {
    Put(Refer(s, k, HoleBegin(s, h), needed), h, HoleUnit(h, at, have)).(volume := s.volume + have - needed)
  }

  lemma SwappedSlots(s: State, k: nat, h: nat, at: int, have: nat, needed: nat)
    requires Layout(s) && Chunk(s, k, at, have) && GapAt(s, h) && HoleSize(s, h) == needed
    ensures Bounds(Swapped(s, k, h, at, have, needed)) && k != h
    ensures Slots(Swapped(s, k, h, at, have, needed))
            == Slots(s)[k - s.head := Slot(false, HoleBegin(s, h), needed)][h - s.head := Slot(true, at, have)]
  {
    hide Layout, Slots;
    HoleBounds(s, h);
    BoundsOf(s);
    var t := Refer(s, k, HoleBegin(s, h), needed);
    PutSlots(s, k, t.area[k]);
    var u := Put(t, h, HoleUnit(h, at, have));
    PutSlots(t, h, u.area[h]);
    SameSlots(u, Swapped(s, k, h, at, have, needed));
  }

  lemma SwappedMarked(s: State, k: nat, h: nat, at: int, have: nat, needed: nat)
    requires Layout(s) && Chunk(s, k, at, have) && GapAt(s, h) && HoleSize(s, h) == needed
    ensures Bounds(Swapped(s, k, h, at, have, needed)) && HolesMarked(Swapped(s, k, h, at, have, needed))
  {
    hide Packed, Slots;
    ChunkBounds(s, k, at, have);
  }

  lemma SwappedLayout(s: State, k: nat, h: nat, at: int, have: nat, needed: nat)
    requires Layout(s) && Chunk(s, k, at, have) && GapAt(s, h) && HoleSize(s, h) == needed
    ensures Layout(Swapped(s, k, h, at, have, needed))
  {
    hide Packed, Slots, HolesMarked, Shelters;
    var x, y := Slot(false, HoleBegin(s, h), needed), Slot(true, at, have);
    SwappedSlots(s, k, h, at, have, needed);
    SwappedMarked(s, k, h, at, have, needed);
    ChunkBounds(s, k, at, have);
    HoleBounds(s, h);
    SlotOf(s, k); SlotOf(s, h);
    ApartAt(Slots(s), k - s.head, h - s.head) by { DisjointSlots(s); }
    SheltersPart(SlotAt(s, h), SlotAt(s, k), x);
    SheltersPart(SlotAt(s, k), SlotAt(s, h), y);
    LayoutAfterTwo(s, Swapped(s, k, h, at, have, needed), k - s.head, h - s.head, x, y);
  }

  lemma DisjointSlots(s: State)
    requires Layout(s)
    ensures Disjoint(Slots(s))
  {
  }

  lemma SwappedGaps(s: State, k: nat, h: nat, at: int, have: nat, needed: nat)
    requires Good(s) && Chunk(s, k, at, have) && GapAt(s, h) && HoleSize(s, h) == needed && Lonely(s, at, have)
    ensures var t := Swapped(s, k, h, at, have, needed);
            && Separated(t) && GapAt(t, h) && HoleEnd(t, h) == at + have && t.tail == s.tail && Bounds(t)
               && TightHead(t)
            && (Clear(t) <==> at + have != s.tail) && Chunk(t, k, HoleBegin(s, h), needed)
  {
    hide Packed, Slots, HolesMarked;
    HoleBounds(s, h);
    var t := Swapped(s, k, h, at, have, needed);
    forall g: nat | GapAt(t, g) && g != h
      ensures GapAt(s, g) && HoleBegin(t, g) == HoleBegin(s, g) && HoleEnd(t, g) == HoleEnd(s, g)
    {
      assert t.area[g].tag == s.area[g].tag;
    }
  }

  /** The swap as it stands: everything is kept except that the new hole may reach the end of
      data. As written that hole is never given back. */
  lemma SwapKeeps(mode: Mode, s: State, k: nat, at: int, have: nat, needed: nat)
    requires Good(s) && Chunk(s, k, at, have) && Lonely(s, at, have) && needed > 0 && LookupExact(s, needed).Some?
    ensures var r := ReallocBySwap(mode, s, k, have, needed);
            && r.Done? && Layout(r.state) && Chunk(r.state, k, r.value, needed)
            && (Coalesced(r.state) <==> mode.Repaired? || at + have != s.tail)
  {
    hide Layout, Separated, Clear, TightHead, Lonely, Swapped, GiveBack;
    var h := LookupExact(s, needed).value;
    SwappedLayout(s, k, h, at, have, needed);
    SwappedGaps(s, k, h, at, have, needed);
    var t := Swapped(s, k, h, at, have, needed);
    SwapIs(mode, s, k, h, at, have, needed);
    if mode.Repaired? && at + have == s.tail {
      GiveBackKeeps(t, h);
      GiveBackGaps(t, h);
      ChunkAfterGiveBack(t, GiveBack(t, h), h, k, HoleBegin(s, h), needed);
    }
  }

  lemma SwapIs(mode: Mode, s: State, k: nat, h: nat, at: int, have: nat, needed: nat)
    requires Layout(s) && Chunk(s, k, at, have) && LookupExact(s, needed) == Some(h)
    ensures var t := Swapped(s, k, h, at, have, needed);
            ReallocBySwap(mode, s, k, have, needed)
            == Done(if mode.Repaired? && at + have == s.tail then GiveBack(t, h) else t, HoleBegin(s, h))
  {
    ChunkBounds(s, k, at, have);
    hide Packed, Slots, HolesMarked, LookupExact, GiveBack;
  }

  lemma ChunkAfterGiveBack(t: State, r: State, h: nat, k: nat, at: int, needed: nat)
    requires Chunk(t, k, at, needed) && GapAt(t, h) && r.area == t.area[h := EMPTY_HOLE] && r.pivot == t.pivot
             && r.schema == t.schema
    requires r.head <= t.pivot && forall l: nat :: InIndex(t, l) && !IsHole(t.area[l]) ==> r.head <= l
    ensures Chunk(r, k, at, needed)
  {
  }

  // ---- realloc_data ----------------------------------------------------------------------------------------

  /** Holes with payload exist, but none of them next to the chunk, and no descriptor can be
      added to the index. */
  predicate Cornered(s: State, k: nat, have: nat)
    requires s.head <= s.pivot <= |s.area| && k < |s.area|
  {
    && s.volume != 0 && s.head == 0
    && AdjacentHoles(s, Payload(s, k), Payload(s, k) + have) == (None, None)
    && LookupExact(s, 0).None?
  }

  /** The guard of the branch that swaps: besides, some hole has exactly the size needed. */
  predicate TakesSwap(s: State, k: nat, have: nat, needed: nat)
    requires s.head <= s.pivot <= |s.area| && k < |s.area|
  {
    Cornered(s, k, have) && LookupExact(s, needed).Some?
  }

  lemma NoNeighboursWhenNoSpace(s: State, at: int, have: nat, before: Option<nat>, after: Option<nat>)
    requires AreNeighbours(s, at, at + have, s.pivot, before, after)
    ensures SizeOf(s, before) == SpanOf(s, before) && SizeOf(s, after) == SpanOf(s, after)
    ensures SizeOf(s, before) + SizeOf(s, after) == 0 <==> before.None? && after.None?
    ensures SizeOf(s, before) + SizeOf(s, after) == 0 ==> Lonely(s, at, have)
  {
    NeighboursFree(s, at, have, before, after);
  }

  ghost predicate AllOrNothing(s: State, r: Outcome<int>, k: nat, needed: nat) {
    DoneWith(r, k, needed) || (r.Insufficient? && r.state == s && Lacks(s, r.index, r.data, needed))
  }

  lemma CountIsNatural(s: State)
    requires Layout(s)
    ensures s.count >= 0 && s.volume >= 0
  {
  }

  lemma SwapBranchKeeps(mode: Mode, s: State, k: nat, at: int, have: nat, needed: nat)
    requires Good(s) && Chunk(s, k, at, have) && Lonely(s, at, have) && needed > 0 && s.volume != 0 && s.head == 0
    ensures var r := ReallocBySwap(mode, s, k, have, needed);
            if LookupExact(s, needed).None? then AllOrNothing(s, r, k, needed)
            else r.Done? && Layout(r.state) && Chunk(r.state, k, r.value, needed)
                 && (Coalesced(r.state) <==> mode.Repaired? || at + have != s.tail)
  {
    ChunkBounds(s, k, at, have);
    hide Packed, Slots, HolesMarked, Coalesced, LookupExact, GiveBack, ResizeLast;
    if LookupExact(s, needed).Some? {
      SwapKeeps(mode, s, k, at, have, needed);
    } else if at + have == s.tail {
      ResizeLastKeeps(s, k, at, have, needed, 1);
    }
  }

  /** The hole cached for the allocation is not a neighbour of the chunk, because the
      neighbours together with the chunk were too small. */
  lemma CachedIsNoNeighbour(s: State, needed: nat, have: nat, before: Option<nat>, after: Option<nat>, h: nat)
    requires IsBestFit(s, needed, Some(h)) && have + SpanOf(s, before) + SpanOf(s, after) < needed
    ensures before != Some(h) && after != Some(h)
  {
  }

  /** What realloc_data has found out before it chooses a branch. */
  ghost predicate Surveyed(s: State, k: nat, at: int, have: nat, needed: nat, before: Option<nat>, after: Option<nat>,
      hole0: Option<nat>) {
    && ReleaseReady(s, k, at, have, before, after, hole0) && 0 < needed <= MAX_UNITS
    && Bounds(s) && k < |s.area| && Payload(s, k) == at
    && AdjacentHoles(s, at, at + have) == (before, after)
    && (SizeOf(s, before) + SizeOf(s, after) == 0 <==> before.None? && after.None?)
    && SizeOf(s, before) == SpanOf(s, before) && SizeOf(s, after) == SpanOf(s, after)
    && hole0 == (if SizeOf(s, before) + SizeOf(s, after) > 0 || s.head > 0 then None else LookupExact(s, 0))
    && (SizeOf(s, before) + SizeOf(s, after) == 0 ==> Lonely(s, at, have))
  }

  lemma Survey(s: State, k: nat, at: int, have: nat, needed: nat)
      returns (before: Option<nat>, after: Option<nat>, hole0: Option<nat>)
    requires Good(s) && Chunk(s, k, at, have) && 0 < needed <= MAX_UNITS
    ensures Surveyed(s, k, at, have, needed, before, after, hole0)
  {
    AdjacentFound(s, at, at + have);
    before, after := AdjacentHoles(s, at, at + have).0, AdjacentHoles(s, at, at + have).1;
    NoNeighboursWhenNoSpace(s, at, have, before, after);
    hide Packed, Slots, HolesMarked, Coalesced, LookupExact, AreNeighbours, AdjacentHoles, Lonely;
    hole0 := if SizeOf(s, before) + SizeOf(s, after) > 0 || s.head > 0 then None else LookupExact(s, 0);
  }

  /** Releasing first, because neighbours or free space are enough. */
  lemma ReallocInPlenty(mode: Mode, s: State, k: nat, at: int, have: nat, needed: nat, before: Option<nat>,
      after: Option<nat>, hole0: Option<nat>)
    requires Surveyed(s, k, at, have, needed, before, after, hole0)
    requires SizeOf(s, before) + SizeOf(s, after) > 0 || s.head > 0 || hole0.Some?
    requires have + SizeOf(s, before) + SizeOf(s, after) >= needed || needed <= TailSpace(s)
    ensures DoneWith(ReleaseAndAlloc(mode, s, k, have, needed, before, after, hole0, None), k, needed)
  {
    hide ReleaseAndAlloc, ReleaseReady, LookupExact, AdjacentHoles, Lonely, Bounds, DoneWith;
    ReleaseAndAllocNeverThrows(mode, s, k, at, have, needed, before, after, hole0, None);
  }

  /** Releasing first, because a hole elsewhere is large enough. */
  lemma ReallocIntoHole(mode: Mode, s: State, k: nat, at: int, have: nat, needed: nat, before: Option<nat>,
      after: Option<nat>, hole0: Option<nat>)
    requires Surveyed(s, k, at, have, needed, before, after, hole0)
    requires SizeOf(s, before) + SizeOf(s, after) > 0 || s.head > 0 || hole0.Some?
    requires have + SizeOf(s, before) + SizeOf(s, after) < needed && LookupBestFit(s, needed).Some? && Good(s)
    ensures DoneWith(ReleaseAndAlloc(mode, s, k, have, needed, before, after, hole0, LookupBestFit(s, needed)), k,
            needed)
  {
    LookupFindsBest(s, needed);
    hide Layout, Coalesced, ReleaseAndAlloc, ReleaseReady, LookupExact, LookupBestFit, AdjacentHoles, Lonely, Bounds,
        DoneWith, IsBestFit;
    var cached := LookupBestFit(s, needed);
    CachedIsNoNeighbour(s, needed, have, before, after, cached.value);
    ReleaseAndAllocNeverThrows(mode, s, k, at, have, needed, before, after, hole0, cached);
  }

  /** The choice realloc_data makes. */
  lemma ReallocChoice(mode: Mode, s: State, k: nat, at: int, have: nat, needed: nat, before: Option<nat>,
      after: Option<nat>, hole0: Option<nat>)
    requires Surveyed(s, k, at, have, needed, before, after, hole0) && s.volume != 0
    ensures var adjacent := SizeOf(s, before) + SizeOf(s, after);
            ReallocData(mode, s, k, have, needed)
            == if have < needed && have + adjacent >= needed then
                 ReleaseAndAlloc(mode, s, k, have, needed, before, after, hole0, None)
               else if adjacent == 0 && s.head == 0 && hole0.None? then ReallocBySwap(mode, s, k, have, needed)
               else if have > needed || needed <= TailSpace(s) then
                 ReleaseAndAlloc(mode, s, k, have, needed, before, after, hole0, None)
               else if LookupBestFit(s, needed).Some? then
                 ReleaseAndAlloc(mode, s, k, have, needed, before, after, hole0, LookupBestFit(s, needed))
               else Insufficient(s, 0, needed)
  {
    hide ReleaseAndAlloc, ReallocBySwap, LookupExact, LookupBestFit, AdjacentHoles, Lonely;
  }

  lemma CorneredMeans(s: State, k: nat, at: int, have: nat, needed: nat, before: Option<nat>, after: Option<nat>,
      hole0: Option<nat>)
    requires Surveyed(s, k, at, have, needed, before, after, hole0) && s.volume != 0
    ensures Cornered(s, k, have) <==> SizeOf(s, before) + SizeOf(s, after) == 0 && s.head == 0 && hole0.None?
    ensures Cornered(s, k, have) ==> Lonely(s, at, have)
  {
    hide LookupExact, AdjacentHoles, Lonely, ReleaseReady;
  }

  /** realloc_data with holes, on every path but the swap. */
  lemma ReallocWithHolesKeeps(mode: Mode, s: State, k: nat, at: int, have: nat, needed: nat)
    requires Good(s) && Chunk(s, k, at, have) && s.volume != 0 && needed != have && 0 < needed <= MAX_UNITS
    ensures Bounds(s) && k < |s.area|
    ensures var r := ReallocData(mode, s, k, have, needed);
            if Cornered(s, k, have)
            then r == ReallocBySwap(mode, s, k, have, needed) && Lonely(s, at, have)
            else AllOrNothing(s, r, k, needed)
  {
    var before, after, hole0 := Survey(s, k, at, have, needed);
    ReallocChoice(mode, s, k, at, have, needed, before, after, hole0);
    CorneredMeans(s, k, at, have, needed, before, after, hole0);
    assert Bounds(s) && k < |s.area| && Payload(s, k) == at;
    hide Surveyed, Layout, Coalesced, LookupBestFit, ReallocBySwap, ReleaseAndAlloc, ReallocData, Bounds, Lonely,
        Chunk, DoneWith, Cornered;
    SurveyedMeans(s, k, at, have, needed, before, after, hole0);
    var adjacent := SizeOf(s, before) + SizeOf(s, after);
    if have < needed && have + adjacent >= needed {
      ReallocInPlenty(mode, s, k, at, have, needed, before, after, hole0);
    } else if adjacent == 0 && s.head == 0 && hole0.None? {
    } else if have > needed || needed <= TailSpace(s) {
      ReallocInPlenty(mode, s, k, at, have, needed, before, after, hole0);
    } else if LookupBestFit(s, needed).Some? {
      ReallocIntoHole(mode, s, k, at, have, needed, before, after, hole0);
    }
  }

  lemma SurveyedMeans(s: State, k: nat, at: int, have: nat, needed: nat, before: Option<nat>, after: Option<nat>,
      hole0: Option<nat>)
    requires Surveyed(s, k, at, have, needed, before, after, hole0)
    ensures s.head <= s.pivot <= |s.area| && (before.Some? ==> before.value < s.pivot)
            && (after.Some? ==> after.value < s.pivot)
  {
    hide Lonely;
  }

  lemma CorneredKeeps(mode: Mode, s: State, k: nat, at: int, have: nat, needed: nat)
    requires Good(s) && Chunk(s, k, at, have) && Lonely(s, at, have) && 0 < needed <= MAX_UNITS && Cornered(s, k, have)
    ensures match ReallocBySwap(mode, s, k, have, needed)
            case Insufficient(t, i, d) => t == s && Lacks(s, i, d, needed)
            case Done(t, begin) =>
              && Layout(t) && Chunk(t, k, begin, needed)
              && (Coalesced(t) <==> mode.Repaired? || !TakesSwap(s, k, have, needed) || at + have != s.tail)
  {
    hide Layout, Coalesced, LookupExact, ReallocBySwap, Lonely;
    SwapBranchKeeps(mode, s, k, at, have, needed);
  }

  /** realloc_data is all or nothing: it throws with the state unchanged, or it completes with
      the layout kept and the reference owning exactly `needed` units. Coalescing stays maximal,
      except that, as written, the swap leaves a hole at the end of data when the chunk it gives
      away was the last. */
  lemma ReallocKeeps(mode: Mode, s: State, k: nat, at: int, have: nat, needed: nat)
    requires Good(s) && Chunk(s, k, at, have) && needed != have && 0 < needed <= MAX_UNITS
    ensures Bounds(s) && k < |s.area|
    ensures match ReallocData(mode, s, k, have, needed)
            case Insufficient(t, i, d) => t == s && Lacks(s, i, d, needed)
            case Done(t, begin) =>
              && Layout(t) && Chunk(t, k, begin, needed)
              && (Coalesced(t) <==> mode.Repaired? || !TakesSwap(s, k, have, needed) || at + have != s.tail)
  {
    if s.volume == 0 {
      WithoutHolesIs(mode, s, k, at, have, needed);
    } else {
      hide Layout, Coalesced, LookupExact, ReallocBySwap, ReallocData, Lonely, Chunk, AdjacentHoles;
      ReallocWithHolesKeeps(mode, s, k, at, have, needed);
      if Cornered(s, k, have) {
        CorneredKeeps(mode, s, k, at, have, needed);
      }
    }
  }

  lemma WithoutHolesIs(mode: Mode, s: State, k: nat, at: int, have: nat, needed: nat)
    requires Good(s) && Chunk(s, k, at, have) && s.volume == 0 && needed != have && 0 < needed <= MAX_UNITS
    ensures AllOrNothing(s, ReallocData(mode, s, k, have, needed), k, needed)
  {
    hide Packed, Slots, HolesMarked, Coalesced, ReallocWithoutHoles;
    ReallocWithoutHolesKeeps(s, k, at, have, needed);
  }
}
