/** Writing a value into a chunk, and clearing a preplaced reference. */
module Writing {
  import opened Ledger
  import opened Tuples
  import opened Gear
  import opened Searching
  import opened Keeping
  import opened Merging
  import opened Reclaiming
  import opened Framing
  import opened Compaction
  import opened Abstract

  // ---- The layout does not depend on the payload --------------------------------------------------

  ghost predicate SameBelow(s: State, t: State) {
    && Bounds(s) && t == s.(area := t.area) && |t.area| == |s.area| && t.area[..Floor(s)] == s.area[..Floor(s)]
  }

  lemma SameBelowAt(s: State, t: State, k: nat)
    requires SameBelow(s, t) && k < Floor(s)
    ensures t.area[k] == s.area[k]
  {
    assert t.area[k] == t.area[..Floor(s)][k];
    assert s.area[k] == s.area[..Floor(s)][k];
  }

  lemma SameBelowSlots(s: State, t: State)
    requires SameBelow(s, t)
    ensures Bounds(t) && Slots(t) == Slots(s)
  {
    forall i | 0 <= i < |Slots(s)| ensures Slots(t)[i] == Slots(s)[i] {
      SameBelowAt(s, t, s.head + i);
    }
  }

  lemma SameBelowHoles(s: State, t: State)
    requires SameBelow(s, t)
    ensures SameHoles(s, t)
  {
    forall k: nat | k < s.pivot ensures t.area[k] == s.area[k] {
      SameBelowAt(s, t, k);
    }
  }

  lemma SameBelowGood(s: State, t: State)
    requires SameBelow(s, t)
    ensures Layout(t) <==> Layout(s)
    ensures Good(s) <==> Good(t)
  {
    SameBelowSlots(s, t);
    SameBelowHoles(s, t);
    assert SameHoles(t, s);
    hide Packed, Slots, SameBelow, Separated, Clear, TightHead, HolesMarked, SameHoles;
    assert t.count == s.count && t.volume == s.volume && t.tail == s.tail
        && Floor(t) == Floor(s) by { SameBelowRest(s, t); }
    SameHolesMeans(s, t);
    SameHolesMeans(t, s);
  }

  lemma SameBelowRest(s: State, t: State)
    requires SameBelow(s, t)
    ensures t.count == s.count && t.volume == s.volume && t.tail == s.tail && Floor(t) == Floor(s)
  {
  }

  // ---- Writing -------------------------------------------------------------------------------------

  function WithPayload(s: State, p: int, units: seq<Unit>): State
    requires 0 <= p && p + |units| <= |s.area|
  {
    s.(area := s.area[..p] + units + s.area[p + |units|..])
  }

  lemma WrittenCells(s: State, p: int, units: seq<Unit>)
    requires Bounds(s) && Floor(s) <= p && p + |units| <= |s.area|
    ensures var t := WithPayload(s, p, units);
            && SameBelow(s, t) && t.area[p..p + |units|] == units
            && forall j :: 0 <= j < |s.area| && (j < p || j >= p + |units|) ==> t.area[j] == s.area[j]
  {
    var t := WithPayload(s, p, units);
    assert t.area[p..p + |units|] == units;
    assert t.area[..Floor(s)] == s.area[..Floor(s)];
    forall j | 0 <= j < |s.area| && (j < p || j >= p + |units|) ensures t.area[j] == s.area[j] {}
  }

  /** Every value but that of `x` has been written. */
  ghost predicate WrittenBut(s: State, x: int)
    requires Bounds(s)
  {
    forall k :: s.head <= k < Floor(s) && k != x && HasPayload(s, k) ==> UnitsAt(s, k) == s.area[k].own > 0
  }

  /** Reference `l` keeps its payload out of `p..q`. */
  lemma OtherChunkApart(s: State, k: nat, at: int, have: nat, l: nat)
    requires Layout(s) && Chunk(s, k, at, have) && s.head <= l < Floor(s) && l != k && HasPayload(s, l)
             && s.area[l].own > 0
    ensures var p := Payload(s, l);
            && Floor(s) <= p && p + s.area[l].own <= s.tail && (p + s.area[l].own <= at || at + have <= p)
  {
    SlotOf(s, k);
    SlotOf(s, l);
    assert Slots(s)[l - s.head].units > 0;
    ApartAt(Slots(s), k - s.head, l - s.head);
  }

  lemma PayloadInside(s: State, l: nat)
    requires Layout(s) && s.head <= l < Floor(s) && HasPayload(s, l) && s.area[l].own > 0
    ensures Floor(s) <= Payload(s, l) && Payload(s, l) + s.area[l].own <= s.tail <= |s.area|
  {
    SlotOf(s, l);
    assert Slots(s)[l - s.head].units > 0;
  }

  /** Field `l` reads the same when its descriptor and its payload are the same. */
  lemma SameReading(s: State, t: State, l: nat)
    requires t.pivot == s.pivot && t.schema == s.schema && l < |s.area| == |t.area| && t.area[l] == s.area[l]
    requires HasPayload(s, l) && s.area[l].own > 0 && 0 <= Payload(s, l) && Payload(s, l) + s.area[l].own <= |s.area|
    requires t.area[Payload(s, l)..Payload(s, l) + s.area[l].own]
             == s.area[Payload(s, l)..Payload(s, l) + s.area[l].own]
    ensures ValueAt(t, l) == ValueAt(s, l) && UnitsAt(t, l) == UnitsAt(s, l)
  {
    hide BruttoUnits, LooseUnits;
    var p, n := Payload(s, l), s.area[l].own;
    assert t.area[p] == t.area[p..p + n][0] == s.area[p..p + n][0] == s.area[p];
  }

  lemma SameEmptyReading(s: State, t: State, l: nat)
    requires t.pivot == s.pivot && t.schema == s.schema && l < |s.area| == |t.area| && t.area[l] == s.area[l]
    requires !HasPayload(s, l) || s.area[l].own == 0
    requires Refers(s, l)
    ensures ValueAt(t, l) == ValueAt(s, l)
  {
    hide BruttoUnits, LooseUnits;
  }

  lemma WriteValueElsewhere(s: State, k: nat, at: int, units: seq<Unit>, l: nat)
    requires Layout(s) && Chunk(s, k, at, |units|) && s.head <= l < Floor(s) && l != k && Refers(s, l)
    ensures at + |units| <= |s.area| && Floor(s) <= at
    ensures var t := WithPayload(s, at, units);
            && ValueAt(t, l) == ValueAt(s, l)
            && (s.area[l].own > 0 && HasPayload(s, l) ==> UnitsAt(t, l) == UnitsAt(s, l))
  {
    ChunkBounds(s, k, at, |units|);
    hide Packed, Slots, HolesMarked, SameBelow, ValueAt, UnitsAt, Refers, HasPayload;
    WrittenCells(s, at, units);
    var t := WithPayload(s, at, units);
    SameBelowAt(s, t, l);
    if HasPayload(s, l) && s.area[l].own > 0 {
      OtherChunkApart(s, k, at, |units|, l);
      var p := Payload(s, l);
      assert t.area[p..p + s.area[l].own] == s.area[p..p + s.area[l].own];
      SameReading(s, t, l);
    } else {
      SameEmptyReading(s, t, l);
    }
  }

  lemma WriteShows(s: State, k: nat, at: int, units: seq<Unit>)
    requires Layout(s) && Chunk(s, k, at, |units|)
    ensures at + |units| <= |s.area| && Floor(s) <= at
    ensures var t := WithPayload(s, at, units);
            SameBelow(s, t) && SameElsewhere(s, t, k) && ValueAt(t, k) == Data(units) && t.area[k] == s.area[k]
  {
    ChunkBounds(s, k, at, |units|);
    WrittenCells(s, at, units);
    var t := WithPayload(s, at, units);
    SameBelowAt(s, t, k);
    WriteShowsElsewhere(s, k, at, units);
  }

  lemma WritePiece(s: State, k: nat, at: int, units: seq<Unit>, l: nat)
    requires Layout(s) && Chunk(s, k, at, |units|) && at + |units| <= |s.area| && Floor(s) <= at && l < s.pivot
             && l != k
    ensures Piece(WithPayload(s, at, units), l) == Piece(s, l)
  {
    hide Packed, Slots, HolesMarked, SameBelow, ValueAt, Refers, Chunk;
    WrittenCells(s, at, units);
    SameBelowAt(s, WithPayload(s, at, units), l);
    if IsLive(s, l) {
      if Refers(s, l) { WriteValueElsewhere(s, k, at, units, l); } else { SameInline(s, WithPayload(s, at, units), l); }
    }
  }

  lemma WritePreplaced(s: State, k: nat, at: int, units: seq<Unit>, i: nat)
    requires Layout(s) && Chunk(s, k, at, |units|) && at + |units| <= |s.area| && Floor(s) <= at && i < |s.schema|
             && s.pivot + i != k
    ensures PreplacedAt(WithPayload(s, at, units), i) == PreplacedAt(s, i)
  {
    hide Packed, Slots, HolesMarked, SameBelow, ValueAt, Chunk;
    WrittenCells(s, at, units);
    SameBelowAt(s, WithPayload(s, at, units), s.pivot + i);
    if s.schema[i].Some? { WriteValueElsewhere(s, k, at, units, s.pivot + i); }
  }

  lemma WriteShowsElsewhere(s: State, k: nat, at: int, units: seq<Unit>)
    requires Layout(s) && Chunk(s, k, at, |units|) && at + |units| <= |s.area| && Floor(s) <= at
    ensures SameElsewhere(s, WithPayload(s, at, units), k)
  {
    WrittenCells(s, at, units);
    SameBelowSlots(s, WithPayload(s, at, units));
    hide Packed, Slots, HolesMarked, SameBelow, Chunk, Piece, PreplacedAt;
    forall l: nat | l < s.pivot && l != k ensures Piece(WithPayload(s, at, units), l) == Piece(s, l) {
      WritePiece(s, k, at, units, l);
    }
    forall i: nat | i < |s.schema| && s.pivot + i != k
      ensures PreplacedAt(WithPayload(s, at, units), i) == PreplacedAt(s, i)
    {
      WritePreplaced(s, k, at, units, i);
    }
  }

  lemma SameInline(s: State, t: State, l: nat)
    requires t.pivot == s.pivot && t.schema == s.schema && l < s.pivot && l < |s.area| == |t.area|
             && t.area[l] == s.area[l]
    requires IsLive(s, l) && !Refers(s, l)
    ensures ValueAt(t, l) == ValueAt(s, l)
  {
  }

  lemma WriteCompletes(s: State, k: nat, at: int, units: seq<Unit>)
    requires Layout(s) && Chunk(s, k, at, |units|) && WrittenBut(s, k)
    requires if IsStretchy(GenusOf(s, k)) then BruttoUnits(GenusOf(s, k), units[0]) == |units|
             else LooseUnits(GenusOf(s, k)) == |units|
    ensures at + |units| <= |s.area| && Floor(s) <= at
    ensures var t := WithPayload(s, at, units); Bounds(t) && Written(t)
  {
    hide Packed, Slots, HolesMarked, BruttoUnits, LooseUnits;
    ChunkBounds(s, k, at, |units|);
    WrittenCells(s, at, units);
    var t := WithPayload(s, at, units);
    SameBelowSlots(s, t);
    forall l | s.head <= l < Floor(s) && HasPayload(t, l) ensures UnitsAt(t, l) == t.area[l].own > 0 {
      SameBelowAt(s, t, l);
      if l != k {
        WriteValueElsewhere(s, k, at, units, l);
      } else {
        assert t.area[at] == t.area[at..at + |units|][0] == units[0];
      }
    }
  }

  lemma WrittenElsewhere(s: State, t: State, x: int)
    requires Layout(s) && Written(s) && Bounds(t) && Untouched(s, t, x) && x < Floor(s)
    ensures WrittenBut(t, x)
  {
    forall k: nat | t.head <= k < Floor(t) && k != x && HasPayload(t, k) ensures UnitsAt(t, k) == t.area[k].own > 0 {
      assert IsLive(t, k) && IsLive(s, k) && t.area[k] == s.area[k] && HasPayload(s, k);
      WrittenElsewhereAt(s, t, x, k);
    }
  }

  lemma WrittenElsewhereAt(s: State, t: State, x: int, k: nat)
    requires Layout(s) && Written(s) && Bounds(t) && Untouched(s, t, x) && x < Floor(s)
    requires s.head <= k < Floor(s) && k != x && HasPayload(s, k) && t.area[k] == s.area[k]
    ensures UnitsAt(t, k) == t.area[k].own > 0
  {
    PayloadInside(s, k);
    hide Layout, UnitsAt;
    UntouchedRange(s, t, x, Payload(s, k), Payload(s, k) + s.area[k].own);
    SameReading(s, t, k);
  }

  // ---- A reference without payload ---------------------------------------------------------------------

  /** Reference `k` gives up the offset it no longer owns anything at. */
  function Cleared(t: State, k: nat): State
    requires k < |t.area|
  {
    Refer(t, k, k, 0)
  }

  lemma ClearedGood(t: State, k: nat)
    requires Good(t) && t.head <= k < Floor(t) && Refers(t, k) && t.area[k].own == 0
    ensures Good(Cleared(t, k)) && !HasPayload(Cleared(t, k), k)
  {
    ClearedHoles(t, k);
    ClearedLayout(t, k);
    hide Layout, Separated, Clear, TightHead, SameHoles;
    BoundsOf(t);
    BoundsOf(Cleared(t, k));
    SameHolesMeans(t, Cleared(t, k));
  }

  lemma ClearedHoles(t: State, k: nat)
    requires Bounds(t) && t.head <= k < Floor(t) && Refers(t, k)
    ensures SameHoles(t, Cleared(t, k)) && !HasPayload(Cleared(t, k), k)
  {
  }

  lemma ClearedLayout(t: State, k: nat)
    requires Layout(t) && t.head <= k < Floor(t) && Refers(t, k) && t.area[k].own == 0
    ensures Layout(Cleared(t, k))
  {
    hide Packed, Slots, HolesMarked;
    ClearedHoles(t, k);
    SameHolesMeans(t, Cleared(t, k));
    PutSlots(t, k, Cleared(t, k).area[k]);
    SlotOf(t, k);
    LayoutAfterRelabel(t, Cleared(t, k), k - t.head, SlotAt(Cleared(t, k), k));
  }

  // ---- erase of a preplaced field ------------------------------------------------------------------------

  /** The guard under which release_data has to add a descriptor and cannot. */
  predicate NoRoom(s: State, k: nat, have: nat)
    requires s.head <= s.pivot <= |s.area| && k < |s.area|
  {
    && AdjacentHoles(s, Payload(s, k), Payload(s, k) + have) == (None, None)
    && Payload(s, k) + have != s.tail && IndexAlloc(s, 0).Insufficient?
  }

  lemma ErasePreplacedKeeps(mode: Mode, s: State, k: nat, at: int, have: nat)
    requires Good(s) && Chunk(s, k, at, have) && s.pivot <= k
    ensures Bounds(s) && k < |s.area|
    ensures match ErasePreplaced(mode, s, k, have)
            case Insufficient(t, i, d) =>
              NoRoom(s, k, have) && t == if mode.AsWritten? then s.(volume := s.volume + have) else s
            case Done(t, _) => !NoRoom(s, k, have) && Good(t) && Untouched(s, t, k) && t.area[k].rel == 0
  {
    BoundsOf(s);
    AdjacentFound(s, at, at + have);
    var (before, after) := AdjacentHoles(s, at, at + have);
    NeighboursInIndex(s, at, at + have, before, after);
    EraseRoom(mode, s, k, at, have, before, after);
    hide Layout, Coalesced, AdjacentHoles, AreNeighbours, Untouched, ReleaseData, ErasePreplaced, NoRoom, Cleared,
        IsLive, Refers;
    if NoRoom(s, k, have) {
      EraseThrows(mode, s, k, at, have, before, after);
    } else {
      EraseCompletes(mode, s, k, at, have, before, after);
    }
  }

  lemma NeighboursInIndex(s: State, begin: int, end: int, before: Option<nat>, after: Option<nat>)
    requires AreNeighbours(s, begin, end, s.pivot, before, after)
    ensures (before.Some? ==> before.value < s.pivot) && (after.Some? ==> after.value < s.pivot)
  {
  }

  lemma EraseThrows(mode: Mode, s: State, k: nat, at: int, have: nat, before: Option<nat>, after: Option<nat>)
    requires Good(s) && Chunk(s, k, at, have) && s.pivot <= k && AreNeighbours(s, at, at + have, s.pivot, before, after)
    requires AdjacentHoles(s, at, at + have) == (before, after)
    requires (before.Some? ==> before.value < s.pivot) && (after.Some? ==> after.value < s.pivot)
    requires ReleaseData(mode, Disown(s, k), at, have, before, after, None).Insufficient?
    ensures var r := ErasePreplaced(mode, s, k, have);
            r.Insufficient? && r.state == if mode.AsWritten? then s.(volume := s.volume + have) else s
  {
    hide Layout, Coalesced, AdjacentHoles, AreNeighbours, Untouched, ReleaseData, ErasePreplaced;
    EraseReleased(mode, s, k, at, have, before, after);
    ErasePreplacedIs(mode, s, k, have, before, after);
  }

  lemma EraseCompletes(mode: Mode, s: State, k: nat, at: int, have: nat, before: Option<nat>, after: Option<nat>)
    requires Good(s) && Chunk(s, k, at, have) && s.pivot <= k && AreNeighbours(s, at, at + have, s.pivot, before, after)
    requires AdjacentHoles(s, at, at + have) == (before, after)
    requires (before.Some? ==> before.value < s.pivot) && (after.Some? ==> after.value < s.pivot)
    requires ReleaseData(mode, Disown(s, k), at, have, before, after, None).Done?
    ensures var r := ErasePreplaced(mode, s, k, have);
            r.Done? && Good(r.state) && Untouched(s, r.state, k) && k < |r.state.area| && r.state.area[k].rel == 0
  {
    hide Layout, Coalesced, AdjacentHoles, AreNeighbours, Untouched, ReleaseData, ErasePreplaced;
    EraseReleased(mode, s, k, at, have, before, after);
    ErasePreplacedIs(mode, s, k, have, before, after);
    ErasedCleared(s, ReleaseData(mode, Disown(s, k), at, have, before, after, None).state, k);
  }

  lemma ErasedCleared(s: State, t: State, k: nat)
    requires Good(t) && t.head <= k < Floor(t) && k < |t.area| && Refers(t, k) && t.area[k].own == 0
    requires Untouched(s, t, k) && k < |s.area|
    ensures Good(Cleared(t, k)) && Untouched(s, Cleared(t, k), k) && Cleared(t, k).area[k].rel == 0
  {
    hide Untouched, Layout, Coalesced;
    ClearedGood(t, k);
    ReferUntouched(s, t, k, k, 0);
  }

  lemma ErasePreplacedIs(mode: Mode, s: State, k: nat, have: nat, before: Option<nat>, after: Option<nat>)
    requires s.head <= s.pivot <= |s.area| && k < |s.area|
    requires AdjacentHoles(s, Payload(s, k), Payload(s, k) + have) == (before, after)
    ensures before.Some? ==> before.value < s.pivot
    ensures after.Some? ==> after.value < s.pivot
    ensures var r := ReleaseData(mode, Disown(s, k), Payload(s, k), have, before, after, None);
            && |r.state.area| == |s.area|
            && (r.Done? ==> ErasePreplaced(mode, s, k, have) == Done(Cleared(r.state, k), Payload(s, k)))
            && (r.Insufficient? ==>
                  ErasePreplaced(mode, s, k, have) == Insufficient(Put(r.state, k, s.area[k]), r.index, r.data))
            && (r.Insufficient? && r.state.area == Disown(s, k).area
               ==> Put(r.state, k, s.area[k]) == r.state.(area := s.area))
  {
    hide AdjacentHoles, ReleaseData;
    assert Put(Disown(s, k), k, s.area[k]).area == s.area;
  }

  lemma EraseReleased(mode: Mode, s: State, k: nat, at: int, have: nat, before: Option<nat>, after: Option<nat>)
    requires Good(s) && Chunk(s, k, at, have) && s.pivot <= k && AreNeighbours(s, at, at + have, s.pivot, before, after)
    ensures Bounds(s) && (before.Some? ==> before.value < s.pivot) && (after.Some? ==> after.value < s.pivot)
    ensures var r := ReleaseData(mode, Disown(s, k), at, have, before, after, None);
            && Untouched(s, r.state, k)
            && (r.Done? ==>
                  && Good(r.state) && r.state.head <= k < Floor(r.state) && k < |r.state.area|
                  && Refers(r.state, k) && r.state.area[k].own == 0)
            && (r.Insufficient? ==>
                  r.state == if mode.AsWritten? then Disown(s, k).(volume := s.volume + have) else Disown(s, k))
  {
    ReleaseDataKeeps(mode, s, k, at, have, before, after, None);
    ReleasePartUntouched(mode, s, k, at, have, before, after, None);
    BoundsOf(s);
    hide Packed, Slots, HolesMarked, AreNeighbours, Untouched, Coalesced, ReleaseData;
    var r := ReleaseData(mode, Disown(s, k), at, have, before, after, None);
    if r.Done? {
      VacantAfterErase(s, r.state, k, at, have);
    }
  }

  lemma VacantAfterErase(s: State, t: State, k: nat, at: int, have: nat)
    requires Chunk(s, k, at, have) && s.pivot <= k && t.pivot == s.pivot && t.schema == s.schema && |t.area| == |s.area|
    requires t.area[k] == s.area[k].(own := 0) && Layout(t)
    ensures t.head <= k < Floor(t) && Refers(t, k) && t.area[k].own == 0
  {
    hide Packed, Slots, HolesMarked;
  }

  lemma EraseRoom(mode: Mode, s: State, k: nat, at: int, have: nat, before: Option<nat>, after: Option<nat>)
    requires Good(s) && Chunk(s, k, at, have) && AdjacentHoles(s, at, at + have) == (before, after)
    requires before.Some? ==> before.value < s.pivot
    requires after.Some? ==> after.value < s.pivot
    ensures Bounds(s) && k < |s.area|
    ensures ReleaseData(mode, Disown(s, k), at, have, before, after, None).Insufficient? <==> NoRoom(s, k, have)
  {
    hide Packed, Slots, HolesMarked, Separated, Clear, TightHead, AdjacentHoles, MergeHoles, GiveBack, IndexAlloc;
    IndexAllocDisowned(s, k, s.volume + have, 0);
  }
}
