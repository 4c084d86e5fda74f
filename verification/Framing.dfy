/** What each step leaves alone: every live field but the one it is about. */
module Framing {
  import opened Ledger
  import opened Tuples
  import opened Gear
  import opened Searching
  import opened Merging
  import opened Reclaiming
  import opened Reallocating
  import opened Adding

  /** Other than at `x` the live fields of `s` and `t`, and all units from the pivot on, are
      the same; the field at `x`, if it lives on, has the same tag. */
  ghost predicate Untouched(s: State, t: State, x: int) {
    && t.pivot == s.pivot && t.schema == s.schema && |t.area| == |s.area|
    && (forall k: nat :: k < |s.area| && k != x ==> (IsLive(s, k) <==> IsLive(t, k)))
    && (forall k: nat :: k < |s.area| && k != x && (IsLive(s, k) || k >= s.pivot) ==> t.area[k] == s.area[k])
    && (0 <= x < |s.area| && IsLive(s, x) && IsLive(t, x) ==> t.area[x].tag == s.area[x].tag)
  }

  lemma UntouchedThen(s: State, t: State, u: State, x: int)
    requires Untouched(s, t, x) && Untouched(t, u, -1)
    ensures Untouched(s, u, x)
  {
  }

  lemma UntouchedWeaken(s: State, t: State, x: int)
    requires Untouched(s, t, -1)
    ensures Untouched(s, t, x)
  {
  }

  lemma PutHole(s: State, k: nat, u: Unit)
    requires k < s.pivot <= |s.area| && IsHole(u) && !IsLive(s, k)
    ensures Untouched(s, Put(s, k, u), -1)
  {
  }

  lemma {:induction false} TrimUntouched(s: State)
    requires s.head < s.pivot <= |s.area| && IsHole(s.area[s.head])
    ensures Untouched(s, TrimHole(s), -1)
    decreases s.pivot - s.head
  {
    hide Untouched;
    var t := s.(count := s.count - 1, head := s.head + 1);
    assert Untouched(s, t, -1) by { TrimStep(s, t); }
    if t.head < t.pivot && IsHole(t.area[t.head]) {
      if HoleSize(t, t.head) == 0 {
        TrimUntouched(t);
        UntouchedThen(s, t, TrimHole(t), -1);
      } else if HoleEnd(t, t.head) == t.tail {
        var v := t.(volume := t.volume - HoleSize(t, t.head), tail := t.tail - HoleSize(t, t.head));
        assert Untouched(s, v, -1) by { TrimStep(s, v); }
        TrimUntouched(v);
        UntouchedThen(s, v, TrimHole(v), -1);
      }
    }
  }

  lemma TrimStep(s: State, t: State)
    requires s.head < s.pivot <= |s.area| && IsHole(s.area[s.head])
    requires t.area == s.area && t.pivot == s.pivot && t.schema == s.schema && t.head == s.head + 1
    ensures Untouched(s, t, -1)
  {
  }

  lemma PurgeAndTrimUntouched(s: State, k: nat)
    requires k < s.pivot <= |s.area| && !IsLive(s, k)
    ensures Untouched(s, PurgeAndTrim(s, k), -1)
  {
    hide Untouched;
    PutHole(s, k, EMPTY_HOLE);
    if k == s.head {
      TrimUntouched(Purge(s, k));
      UntouchedThen(s, Purge(s, k), TrimHole(Purge(s, k)), -1);
    }
  }

  lemma MergeUntouched(s: State, first: nat, second: nat)
    requires first < s.pivot <= |s.area| && second < s.pivot && !IsLive(s, first) && !IsLive(s, second)
    ensures Untouched(s, MergeHoles(s, first, second).0, -1)
    ensures var (t, p) := MergeHoles(s, first, second); p < t.pivot <= |t.area| && !IsLive(t, p)
  {
    var units := HoleSize(s, first) + HoleSize(s, second);
    var keep, drop := Kept(s, first, second), Dropped(s, first, second);
    var u := HoleUnit(keep, if first != s.head then HoleBegin(s, first)
             else HoleBegin(s, second) - HoleSize(s, first), units);
    PutHole(s, keep, u);
    var t := Put(s, keep, u);
    NotLiveAfter(s, t, drop);
    NotLiveAfter(s, t, keep);
    hide Untouched, PurgeAndTrim;
    PurgeAndTrimUntouched(t, drop);
    UntouchedThen(s, t, PurgeAndTrim(t, drop), -1);
    NotLiveAfter(t, PurgeAndTrim(t, drop), keep);
    assert MergeHoles(s, first, second) == (PurgeAndTrim(t, drop), keep);
  }

  /** Counters and the tail are no part of a field. */
  lemma CountersUntouched(s: State, t: State)
    requires t.area == s.area && t.head == s.head && t.pivot == s.pivot && t.schema == s.schema
    ensures Untouched(s, t, -1)
  {
  }

  lemma GiveBackUntouched(s: State, p: nat)
    requires p < s.pivot <= |s.area| && !IsLive(s, p)
    ensures Untouched(s, GiveBack(s, p), -1)
  {
    hide Untouched;
    var t := s.(tail := s.tail - HoleSize(s, p), volume := s.volume - HoleSize(s, p));
    CountersUntouched(s, t);
    PurgeAndTrimUntouched(t, p);
    UntouchedThen(s, t, GiveBack(s, p), -1);
  }

  // ---- release_loose ---------------------------------------------------------------------------------

  lemma MergeAroundUntouched(s: State, k: nat, before: Option<nat>, after: Option<nat>)
    requires k < s.pivot <= |s.area| && !IsLive(s, k)
    requires (before.Some? ==> before.value < s.pivot && !IsLive(s, before.value))
    requires (after.Some? ==> after.value < s.pivot && !IsLive(s, after.value))
    ensures Untouched(s, Evaporate(MergeAround(s, k, before, after)), -1)
  {
    hide MergeHoles, GiveBack;
    if before.Some? { MergeUntouched(s, before.value, k); } else { CountersUntouched(s, s); }
    var (t, p) := if before.Some? then MergeHoles(s, before.value, k) else (s, k);
    assert Untouched(s, t, -1) && !IsLive(t, p);
    if after.Some? {
      assert !IsLive(t, after.value);
      MergeUntouched(t, p, after.value);
      UntouchedThen(s, t, MergeHoles(t, p, after.value).0, -1);
    }
    hide Untouched;
    var (u, q) := MergeAround(s, k, before, after);
    if HoleEnd(u, q) == u.tail {
      GiveBackUntouched(u, q);
      UntouchedThen(s, u, GiveBack(u, q), -1);
    }
  }

  lemma ReleaseUntouched(s: State, k: nat, units: nat)
    requires Good(s) && LooseWith(s, k, units)
    ensures Untouched(s, ReleaseLoose(s, k, units), k)
    ensures !IsLive(ReleaseLoose(s, k, units), k)
  {
    if units == 0 {
      EmptiedUntouched(s, k);
    } else {
      var h := AsHole(s, k, units);
      AsHoleLayout(s, k, units);
      AdjacentFound(h, HoleBegin(h, k), HoleEnd(h, k));
      var (before, after) := AdjacentHoles(h, HoleBegin(h, k), HoleEnd(h, k));
      hide Packed, Slots, HolesMarked, Coalesced, Evaporate, MergeAround;
      MergeAroundUntouched(h, k, before, after);
      AsHoleUntouched(s, k, units);
      UntouchedWeaken(h, ReleaseLoose(s, k, units), k);
      UntouchedThen(s, h, ReleaseLoose(s, k, units), k);
    }
  }

  lemma AsHoleUntouched(s: State, k: nat, units: nat)
    requires Bounds(s) && InIndex(s, k)
    ensures Untouched(s, AsHole(s, k, units), k) && !IsLive(AsHole(s, k, units), k)
  {
  }

  lemma EmptiedUntouched(s: State, k: nat)
    requires Bounds(s) && InIndex(s, k)
    ensures Untouched(s, ReleaseLoose(s, k, 0), k) && !IsLive(ReleaseLoose(s, k, 0), k)
  {
    var g := Emptied(s, k);
    assert Untouched(s, g, k) && !IsLive(g, k);
    hide Untouched;
    if k == s.head {
      TrimUntouched(g);
      NotLiveAfter(g, TrimHole(g), k);
      UntouchedWeaken(g, TrimHole(g), k);
      UntouchedThen(s, g, TrimHole(g), k);
    }
  }

  lemma NotLiveAfter(g: State, t: State, k: nat)
    requires Untouched(g, t, -1) && k < |g.area| && !IsLive(g, k)
    ensures !IsLive(t, k)
  {
  }

  // ---- index_alloc, release_data, alloc_data ------------------------------------------------------------

  lemma IndexAllocUntouched(s: State, notify: int, u: Unit)
    requires s.head <= s.pivot <= |s.area|
    ensures match IndexAlloc(s, notify)
            case Insufficient(t, i, d) => t == s
            case Done(t, e) => !IsLive(s, e) && e < s.pivot && Untouched(s, Put(t, e, u), if IsHole(u) then -1 else e)
                               && t.area == s.area
  {
  }

  ghost predicate NoneLive(s: State, h: Option<nat>) {
    h.Some? ==> h.value < s.pivot <= |s.area| && !IsLive(s, h.value)
  }

  lemma GrowUntouched(s: State, h: nat, begin: int, units: nat, volume: int)
    requires h < s.pivot <= |s.area| && !IsLive(s, h)
    ensures var t := Put(s.(volume := volume), h, HoleUnit(h, begin, units)); Untouched(s, t, -1)
    ensures forall l: nat :: l < |s.area| && !IsLive(s, l) ==>
              !IsLive(Put(s.(volume := volume), h, HoleUnit(h, begin, units)), l)
  {
  }

  lemma ReleaseDataUntouched(mode: Mode, s: State, chunk: int, units: nat, before: Option<nat>, after: Option<nat>,
      hole0: Option<nat>)
    requires s.head <= s.pivot <= |s.area| && NoneLive(s, before) && NoneLive(s, after) && NoneLive(s, hole0)
    ensures Untouched(s, ReleaseData(mode, s, chunk, units, before, after, hole0).state, -1)
  {
    hide MergeHoles, GiveBack, IndexAlloc, Untouched;
    var r := ReleaseData(mode, s, chunk, units, before, after, hole0);
    if chunk + units == s.tail {
      var t := s.(tail := s.tail - units);
      CountersUntouched(s, t);
      if before.Some? {
        GiveBackUntouched(t, before.value);
        UntouchedThen(s, t, r.state, -1);
      }
    } else if before.Some? {
      var t := s.(volume := s.volume + units);
      var b := before.value;
      var g := Put(t, b, HoleUnit(b, HoleBegin(t, b), units + HoleSize(t, b)));
      GrowUntouched(s, b, HoleBegin(t, b), units + HoleSize(t, b), t.volume);
      if after.Some? {
        MergeUntouched(g, b, after.value);
        UntouchedThen(s, g, r.state, -1);
      }
    } else if after.Some? {
      var t := s.(volume := s.volume + units);
      GrowUntouched(s, after.value, HoleBegin(t, after.value) - units, units + HoleSize(t, after.value), t.volume);
    } else if hole0.Some? {
      GrowUntouched(s, hole0.value, chunk, units, s.volume + units);
    } else {
      ReleaseAloneUntouched(mode, s, chunk, units);
    }
  }

  lemma ReleaseAloneUntouched(mode: Mode, s: State, chunk: int, units: nat)
    requires s.head <= s.pivot <= |s.area| && chunk + units != s.tail
    ensures Untouched(s, ReleaseData(mode, s, chunk, units, None, None, None).state, -1)
  {
    hide IndexAlloc, Untouched;
    var t := s.(volume := s.volume + units);
    CountersUntouched(s, t);
    CountersUntouched(s, s);
    match IndexAlloc(t, 0)
    case Insufficient(u, i, d) => IndexAllocUntouched(t, 0, EMPTY_HOLE);
    case Done(u, k) =>
      var h := HoleUnit(k, chunk, units);
      IndexAllocUntouched(t, 0, h);
      var v := Put(u, k, h);
      UntouchedThen(s, t, v, -1);
      CountersUntouched(v, v.(count := u.count + 1));
      UntouchedThen(s, v, v.(count := u.count + 1), -1);
  }

  lemma AllocDataUntouched(s: State, units: nat, hole: Option<nat>)
    requires NoneLive(s, hole)
    ensures Untouched(s, AllocData(s, units, hole).state, -1)
  {
    hide Untouched, PurgeAndTrim;
    CountersUntouched(s, s);
    if hole.Some? {
      var h := hole.value;
      var t := s.(volume := s.volume - units);
      var excess := Wrap32(HoleSize(s, h) - units);
      CountersUntouched(s, t);
      if excess == 0 {
        PurgeAndTrimUntouched(t, h);
        UntouchedThen(s, t, PurgeAndTrim(t, h), -1);
      } else {
        GrowUntouched(s, h, HoleBegin(s, h) + units, excess, t.volume);
      }
    } else {
      CountersUntouched(s, s.(tail := s.tail + units));
    }
  }

  // ---- realloc_data -----------------------------------------------------------------------------------------

  lemma CellUntouched(s: State, t: State, k: nat, u: Unit)
    requires Untouched(s, t, k) && k < |s.area|
    requires k < |t.area| && IsLive(s, k) ==> u.tag == t.area[k].tag
    ensures Untouched(s, Put(t, k, u), k)
  {
    var v := Put(t, k, u);
    forall l: nat | l < |s.area| && l != k ensures IsLive(t, l) <==> IsLive(v, l) {}
  }

  lemma UntouchedRefl(s: State, x: int)
    ensures Untouched(s, s, x)
  {
  }

  /** Holes that are in the index are not live, and stay so when reference `k` is disowned. */
  lemma NeighboursNotLive(s: State, begin: int, end: int, before: Option<nat>, after: Option<nat>, k: nat)
    requires AreNeighbours(s, begin, end, s.pivot, before, after) && s.pivot <= |s.area| && k < |s.area|
    ensures NoneLive(s, before) && NoneLive(s, after) && NoneLive(Disown(s, k), before) && NoneLive(Disown(s, k), after)
  {
  }

  lemma ReleaseAndAllocUntouched(mode: Mode, s: State, k: nat, at: int, have: nat, needed: nat,
                                 before: Option<nat>, after: Option<nat>, hole0: Option<nat>, cached: Option<nat>)
    requires ReleaseReady(s, k, at, have, before, after, hole0) && Roomy(s, before, after, hole0)
    requires 0 < needed <= MAX_UNITS && Enough(s, have, needed, before, after, cached)
    requires cached.Some? ==> IsBestFit(s, needed, cached) && cached != before && cached != after
    ensures ReadyBounds(s, k, before, after, hole0, cached)
    ensures Untouched(s, ReleaseAndAlloc(mode, s, k, have, needed, before, after, hole0, cached).state, k)
  {
    hide Layout, Coalesced, AreNeighbours, ReleaseData, AllocData, LookupBestFit, Chunk, Untouched, ReleaseReady,
        IsBestFit, Released, Enough;
    ReadyMeans(s, k, at, have, before, after, hole0);
    ReleaseDataKeeps(mode, s, k, at, have, before, after, hole0);
    var r := ReleaseData(mode, Disown(s, k), at, have, before, after, hole0);
    ReleasePartUntouched(mode, s, k, at, have, before, after, hole0);
    FreshNotLive(s, r.state, k, at, have, needed, before, after, r.value, cached);
    AllocPartUntouched(s, r.state, k, needed, HoleAfterRelease(r.state, needed, r.value, cached));
  }

  lemma ReleasePartUntouched(mode: Mode, s: State, k: nat, at: int, have: nat, before: Option<nat>, after: Option<nat>,
      hole0: Option<nat>)
    requires ReleaseReady(s, k, at, have, before, after, hole0)
    ensures ReadyBounds(s, k, before, after, hole0, None)
    ensures Untouched(s, ReleaseData(mode, Disown(s, k), at, have, before, after, hole0).state, k)
  {
    hide Layout, Coalesced, ReleaseData, Untouched, ReleaseReady, NoneLive;
    ReadyMeans(s, k, at, have, before, after, hole0);
    ReadyNotLive(s, k, at, have, before, after, hole0);
    var d := Disown(s, k);
    var t := ReleaseData(mode, d, at, have, before, after, hole0).state;
    ReleaseDataUntouched(mode, d, at, have, before, after, hole0);
    UntouchedRefl(s, k);
    CellUntouched(s, s, k, d.area[k]);
    UntouchedWeaken(d, t, k);
    UntouchedThen(s, d, t, k);
  }

  lemma AllocPartUntouched(s: State, t: State, k: nat, needed: nat, h: Option<nat>)
    requires Untouched(s, t, k) && NoneLive(t, h) && k < |s.area|
    ensures |t.area| == |s.area|
    ensures var a := AllocData(t, needed, h);
            Untouched(s, a.state, k) && (a.Done? ==> Untouched(s, Refer(a.state, k, a.value, needed), k))
  {
    assert |t.area| == |s.area|;
    hide Untouched, AllocData;
    AllocDataUntouched(t, needed, h);
    var a := AllocData(t, needed, h);
    UntouchedWeaken(t, a.state, k);
    UntouchedThen(s, t, a.state, k);
    if a.Done? {
      CellUntouched(s, a.state, k, a.state.area[k].(rel := a.value - k, own := needed));
    }
  }

  predicate ReadyBounds(s: State, k: nat, before: Option<nat>, after: Option<nat>, hole0: Option<nat>,
      cached: Option<nat>) {
    && s.head <= s.pivot <= |s.area| && k < |s.area|
    && (before.Some? ==> before.value < s.pivot) && (after.Some? ==> after.value < s.pivot)
    && (hole0.Some? ==> hole0.value < s.pivot) && (cached.Some? ==> cached.value < s.pivot)
  }

  lemma ReadyNotLive(s: State, k: nat, at: int, have: nat, before: Option<nat>, after: Option<nat>, hole0: Option<nat>)
    requires ReleaseReady(s, k, at, have, before, after, hole0)
    ensures NoneLive(Disown(s, k), before) && NoneLive(Disown(s, k), after) && NoneLive(Disown(s, k), hole0)
    ensures Disown(s, k).head <= Disown(s, k).pivot <= |Disown(s, k).area|
  {
    hide Packed, Slots, HolesMarked, Coalesced;
    NeighboursNotLive(s, at, at + have, before, after, k);
  }

  lemma FreshNotLive(s: State, t: State, k: nat, at: int, have: nat, needed: nat,
                     before: Option<nat>, after: Option<nat>, m: Option<nat>, cached: Option<nat>)
    requires Layout(s) && Released(s, t, k, at, have, before, after, m) && 0 < needed <= MAX_UNITS
    requires cached.Some? ==> IsBestFit(s, needed, cached) && cached != before && cached != after
    ensures t.head <= t.pivot <= |t.area| && (m.Some? ==> m.value < t.pivot)
            && (cached.Some? ==> cached.value < t.pivot)
    ensures NoneLive(t, HoleAfterRelease(t, needed, m, cached))
  {
    hide Packed, Slots, HolesMarked, Coalesced, LookupBestFit;
    LookupFindsBest(t, needed);
    if cached.Some? {
      CachedHoleIsFresh(s, t, k, at, have, before, after, m, needed, cached.value);
    }
  }

  lemma ReferUntouched(s: State, t: State, k: nat, begin: int, units: nat)
    requires Untouched(s, t, k) && k < |s.area|
    ensures |t.area| == |s.area| && Untouched(s, Refer(t, k, begin, units), k)
  {
    CellUntouched(s, t, k, t.area[k].(rel := begin - k, own := units));
  }

  lemma ResizeUntouched(s: State, k: nat, have: nat, needed: nat, index: int)
    requires k < |s.area|
    ensures Untouched(s, ResizeLast(s, k, have, needed, index).state, k)
  {
    hide Untouched;
    UntouchedRefl(s, k);
    ReferUntouched(s, s, k, Payload(s, k), needed);
    var t := Refer(s, k, Payload(s, k), needed);
    CountersUntouched(t, t.(tail := s.tail - have + needed));
    UntouchedWeaken(t, t.(tail := s.tail - have + needed), k);
    UntouchedThen(s, t, t.(tail := s.tail - have + needed), k);
  }

  lemma WithoutHolesUntouched(s: State, k: nat, at: int, have: nat, needed: nat)
    requires Good(s) && Chunk(s, k, at, have)
    ensures Untouched(s, ReallocWithoutHoles(s, k, have, needed).state, k)
  {
    hide Layout, Coalesced, Untouched, IndexAlloc, ResizeLast;
    BoundsOf(s);
    UntouchedRefl(s, k);
    if at + have == s.tail {
      ResizeUntouched(s, k, have, needed, 0);
    } else if needed <= have || (needed <= TailSpace(s) && s.head + s.count >= 1) {
      IndexAllocUntouched(s, needed, EMPTY_HOLE);
      if IndexAlloc(s, needed).Done? {
        var t, e := IndexAlloc(s, needed).state, IndexAlloc(s, needed).value;
        var h := if needed > have then HoleUnit(e, at, have) else HoleUnit(e, at + needed, have - needed);
        IndexAllocUntouched(s, needed, h);
        NewHoleUntouched(s, t, e, h, k, needed);
      }
    }
  }

  /** A hole is added at `e`, counters and tail change, and reference `k` moves. */
  lemma NewHoleUntouched(s: State, t: State, e: nat, h: Unit, k: nat, needed: nat)
    requires e < |t.area| && IsHole(h) && Untouched(s, Put(t, e, h), -1) && k < |s.area|
    ensures |t.area| == |s.area|
    ensures forall count: int, volume: int, tail: int, begin: int ::
              Untouched(s, Refer(Put(t, e, h).(count := count, volume := volume, tail := tail), k, begin, needed), k)
    ensures forall count: int, volume: int,
            tail: int :: Untouched(s, Put(t, e, h).(count := count, volume := volume, tail := tail), k)
  {
    var v := Put(t, e, h);
    assert |t.area| == |s.area|;
    hide Untouched;
    forall count: int, volume: int, tail: int
      ensures Untouched(s, v.(count := count, volume := volume, tail := tail), k)
    {
      var w := v.(count := count, volume := volume, tail := tail);
      CountersUntouched(v, w);
      UntouchedThen(s, v, w, -1);
      UntouchedWeaken(s, w, k);
    }
    forall count: int, volume: int, tail: int, begin: int
      ensures Untouched(s, Refer(v.(count := count, volume := volume, tail := tail), k, begin, needed), k)
    {
      ReferUntouched(s, v.(count := count, volume := volume, tail := tail), k, begin, needed);
    }
  }

  lemma SwapUntouched(mode: Mode, s: State, k: nat, have: nat, needed: nat)
    requires s.head <= s.pivot <= |s.area| && k < |s.area| && (k < s.pivot ==> !IsHole(s.area[k]))
    ensures Untouched(s, ReallocBySwap(mode, s, k, have, needed).state, k)
  {
    hide Untouched, LookupExact, GiveBack;
    UntouchedRefl(s, k);
    if LookupExact(s, needed).Some? {
      var h := LookupExact(s, needed).value;
      var t := Refer(s, k, HoleBegin(s, h), needed);
      ReferUntouched(s, s, k, HoleBegin(s, h), needed);
      var u := Put(t, h, HoleUnit(h, Payload(s, k), have)).(volume := s.volume + have - needed);
      GrowUntouched(t, h, Payload(s, k), have, s.volume + have - needed);
      assert u == Put(t.(volume := s.volume + have - needed), h, HoleUnit(h, Payload(s, k), have));
      UntouchedWeaken(t, u, k);
      UntouchedThen(s, t, u, k);
      GiveBackUntouched(u, h);
      UntouchedWeaken(u, GiveBack(u, h), k);
      UntouchedThen(s, u, GiveBack(u, h), k);
    } else {
      ResizeUntouched(s, k, have, needed, 1);
    }
  }

  /** realloc_data touches no field but the one it is about. */
  lemma ReallocUntouched(mode: Mode, s: State, k: nat, at: int, have: nat, needed: nat)
    requires Good(s) && Chunk(s, k, at, have) && needed != have && 0 < needed <= MAX_UNITS
    ensures Untouched(s, ReallocData(mode, s, k, have, needed).state, k)
  {
    ChunkBounds(s, k, at, have);
    if s.volume == 0 {
      WithoutHolesUntouched(s, k, at, have, needed);
    } else {
      var before, after, hole0 := Survey(s, k, at, have, needed);
      ReallocChoice(mode, s, k, at, have, needed, before, after, hole0);
      hide Surveyed, LookupBestFit, ReallocBySwap, ReleaseAndAlloc, ReallocData, Untouched;
      SurveyedMeans(s, k, at, have, needed, before, after, hole0);
      var adjacent := SizeOf(s, before) + SizeOf(s, after);
      UntouchedRefl(s, k);
      SwapUntouched(mode, s, k, have, needed);
      hide Layout, Coalesced;
      if have + adjacent >= needed || needed <= TailSpace(s) {
        if adjacent > 0 || s.head > 0 || hole0.Some? {
          PlentyUntouched(mode, s, k, at, have, needed, before, after, hole0);
        }
      } else if LookupBestFit(s, needed).Some? {
        if adjacent > 0 || s.head > 0 || hole0.Some? {
          IntoHoleUntouched(mode, s, k, at, have, needed, before, after, hole0);
        }
      }
    }
  }

  lemma PlentyUntouched(mode: Mode, s: State, k: nat, at: int, have: nat, needed: nat, before: Option<nat>,
      after: Option<nat>, hole0: Option<nat>)
    requires Surveyed(s, k, at, have, needed, before, after, hole0)
    requires SizeOf(s, before) + SizeOf(s, after) > 0 || s.head > 0 || hole0.Some?
    requires have + SizeOf(s, before) + SizeOf(s, after) >= needed || needed <= TailSpace(s)
    ensures Untouched(s, ReleaseAndAlloc(mode, s, k, have, needed, before, after, hole0, None).state, k)
  {
    hide ReleaseAndAlloc, ReleaseReady, LookupExact, AdjacentHoles, Lonely, Bounds, Untouched;
    ReleaseAndAllocUntouched(mode, s, k, at, have, needed, before, after, hole0, None);
  }

  lemma IntoHoleUntouched(mode: Mode, s: State, k: nat, at: int, have: nat, needed: nat, before: Option<nat>,
      after: Option<nat>, hole0: Option<nat>)
    requires Surveyed(s, k, at, have, needed, before, after, hole0)
    requires SizeOf(s, before) + SizeOf(s, after) > 0 || s.head > 0 || hole0.Some?
    requires have + SizeOf(s, before) + SizeOf(s, after) < needed && LookupBestFit(s, needed).Some? && Good(s)
    ensures Untouched(s, ReleaseAndAlloc(mode, s, k, have, needed, before, after, hole0,
                      LookupBestFit(s, needed)).state, k)
  {
    LookupFindsBest(s, needed);
    hide Layout, Coalesced, ReleaseAndAlloc, ReleaseReady, LookupExact, LookupBestFit, AdjacentHoles, Lonely, Bounds,
        Untouched, IsBestFit;
    var cached := LookupBestFit(s, needed);
    CachedIsNoNeighbour(s, needed, have, before, after, cached.value);
    ReleaseAndAllocUntouched(mode, s, k, at, have, needed, before, after, hole0, cached);
  }

  // ---- alloc_loose ---------------------------------------------------------------------------------------------

  ghost predicate BroughtToLife(s: State, r: Outcome<nat>) {
    match r
    case Insufficient(t, i, d) => true
    case Done(t, k) => Untouched(s, t, k) && !(k < |s.area| && IsLive(s, k))
  }

  /** A descriptor that was not live is written, counters change, and perhaps a hole with it. */
  lemma NewFieldUntouched(s: State, t: State, e: nat, u: Unit, r: State)
    requires s.head <= s.pivot <= |s.area| && e < s.pivot && t.area == s.area && !IsLive(s, e)
             && Untouched(s, Put(t, e, u), e)
    requires r.area == Put(t, e, u).area && r.head == t.head && r.pivot == t.pivot && r.schema == t.schema
    ensures Untouched(s, r, e)
  {
    var v := Put(t, e, u);
    CountersUntouched(v, r);
    UntouchedWeaken(v, r, e);
    hide Untouched;
    UntouchedThen(s, v, r, e);
  }

  lemma AddNamedUntouched(mode: Mode, s: State, tag: Tag)
    requires s.head <= s.pivot <= |s.area| && tag.genus != HOLE
    ensures BroughtToLife(s, AllocLoose(mode, s, tag, 0))
  {
    IndexAllocUntouched(s, 0, Unit(0, tag, 0));
    hide IndexAlloc, Untouched;
  }

  lemma AddTailUntouched(mode: Mode, s: State, tag: Tag, units: nat)
    requires s.head <= s.pivot <= |s.area| && tag.genus != HOLE && units > 0 && LookupBestFit(s, units).None?
    ensures BroughtToLife(s, AllocLoose(mode, s, tag, units))
  {
    hide IndexAlloc, Untouched, LookupBestFit;
    if units <= TailSpace(s) && IndexAlloc(s, units).Done? {
      var t, e := IndexAlloc(s, units).state, IndexAlloc(s, units).value;
      var u := Unit(t.tail - e, tag, units);
      IndexAllocUntouched(s, units, u);
      NewFieldUntouched(s, t, e, u, Put(t, e, u).(tail := t.tail + units));
    }
  }

  lemma AddHoleUntouched(mode: Mode, s: State, tag: Tag, units: nat, h: nat)
    requires s.head <= s.pivot <= |s.area| && tag.genus != HOLE && units > 0 && LookupBestFit(s, units) == Some(h)
             && GapAt(s, h)
    ensures BroughtToLife(s, AllocLoose(mode, s, tag, units))
  {
    hide IndexAlloc, LookupBestFit;
    var excess := Wrap32(HoleSize(s, h) - units);
    if excess == 0 {
      RenamedUntouched(s, h, tag, units);
    } else if IndexAlloc(s, units).Done? {
      hide Untouched;
      var t, e := IndexAlloc(s, units).state, IndexAlloc(s, units).value;
      var x := Unit(HoleBegin(s, h) - e, tag, units);
      IndexAllocUntouched(s, units, x);
      SplitUntouched(s, t, e, h, x,
            HoleUnit(h, HoleBegin(s, h) + (if mode.AsWritten? then excess else units), excess), s.volume - units);
    }
  }

  lemma RenamedUntouched(s: State, h: nat, tag: Tag, units: nat)
    requires s.pivot <= |s.area| && GapAt(s, h)
    ensures Untouched(s, Renamed(s, h, tag, units), h) && !IsLive(s, h)
  {
  }

  lemma SplitUntouched(s: State, t: State, e: nat, h: nat, x: Unit, y: Unit, volume: int)
    requires s.pivot <= |s.area| && e < s.pivot && h < s.pivot && t.area == s.area && !IsLive(s, e)
    requires Untouched(s, Put(t, e, x), e) && !IsLive(s, h) && IsHole(y)
    ensures Untouched(s, Put(Put(t, e, x), h, y).(volume := volume), e)
  {
  }

  /** alloc_loose brings one field to life and touches no other. */
  lemma AllocLooseUntouched(mode: Mode, s: State, tag: Tag, units: nat)
    requires Good(s) && Allocatable(tag, units)
    ensures BroughtToLife(s, AllocLoose(mode, s, tag, units))
  {
    assert s.head <= s.pivot <= |s.area|;
    hide Layout, Coalesced, LookupBestFit, AllocLoose, BroughtToLife;
    if units == 0 {
      AddNamedUntouched(mode, s, tag);
    } else {
      LookupFindsBest(s, units);
      if LookupBestFit(s, units).None? {
        AddTailUntouched(mode, s, tag, units);
      } else {
        AddHoleUntouched(mode, s, tag, units, LookupBestFit(s, units).value);
      }
    }
  }
}
