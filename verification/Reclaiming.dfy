/** release_data: a chunk returns to the free space or to the holes. */
module Reclaiming {
  import opened Ledger
  import opened Tuples
  import opened Gear
  import opened Searching
  import opened Keeping
  import opened Merging
  import opened Indexing

  /** Reference `k`, in a descriptor or in the preplaced part, owns `have` units at `at`. */
  ghost predicate Chunk(s: State, k: nat, at: int, have: nat) {
    && s.head <= k < Floor(s) <= |s.area| && have > 0
    && Refers(s, k) && s.area[k].rel != 0 && Payload(s, k) == at && s.area[k].own == have
  }

  lemma ChunkBounds(s: State, k: nat, at: int, have: nat)
    requires Layout(s) && Chunk(s, k, at, have)
    ensures SlotAt(s, k) == Slot(false, at, have)
    ensures Floor(s) <= at && at + have <= s.tail
  {
    hide Slots, HolesMarked;
    SlotOf(s, k);
  }

  lemma ChunkAndGap(s: State, k: nat, at: int, have: nat, g: nat)
    requires Layout(s) && Chunk(s, k, at, have) && GapAt(s, g)
    ensures at + have <= HoleBegin(s, g) || HoleEnd(s, g) <= at
  {
    SlotOf(s, k);
    SlotOf(s, g);
    ApartAt(Slots(s), k - s.head, g - s.head);
  }

  lemma DisownSlots(s: State, k: nat, at: int, have: nat)
    requires Bounds(s) && Chunk(s, k, at, have)
    ensures Slots(Disown(s, k)) == Slots(s)[k - s.head := Slot(false, at, 0)]
  {
    hide Slots;
    PutSlots(s, k, s.area[k].(own := 0));
  }

  /** The holes of `s` and `t` are the same. */
  ghost predicate SameHoles(s: State, t: State) {
    && t.head == s.head && t.pivot == s.pivot && |t.area| == |s.area|
    && forall k: nat :: k < s.pivot <= |s.area| && (IsHole(s.area[k]) || IsHole(t.area[k])) ==> t.area[k] == s.area[k]
  }

  lemma SameHolesMeans(s: State, t: State)
    requires SameHoles(s, t)
    ensures forall k: nat :: GapAt(s, k) <==> GapAt(t, k)
    ensures Separated(s) ==> Separated(t)
    ensures Clear(s) && t.tail == s.tail ==> Clear(t)
    ensures Bounds(s) && Bounds(t) && TightHead(s) ==> TightHead(t)
    ensures Bounds(s) && Bounds(t) && HolesMarked(s) ==> HolesMarked(t)
  {
  }

  // ---- The chunk is the last one ---------------------------------------------------------------

  function CutLast(s: State, k: nat, have: nat): State
    requires k < |s.area|
  {
    Disown(s, k).(tail := s.tail - have)
  }

  lemma CutLastLayout(s: State, k: nat, at: int, have: nat)
    requires Layout(s) && Chunk(s, k, at, have) && at + have == s.tail
    ensures Layout(CutLast(s, k, have)) && SameHoles(s, CutLast(s, k, have))
  {
    hide Packed, Slots, HolesMarked;
    var t := CutLast(s, k, have);
    ChunkBounds(s, k, at, have);
    DisownSlots(s, k, at, have);
    SameSlots(Disown(s, k).(tail := s.tail), t);
    SlotOf(s, k);
    SameHolesMeans(s, t);
    LayoutAfterTail(s, t, k - s.head, Slot(false, at, 0));
  }

  lemma CutLastGood(s: State, k: nat, at: int, have: nat)
    requires Good(s) && Chunk(s, k, at, have) && at + have == s.tail
    requires forall g: nat :: GapAt(s, g) ==> HoleEnd(s, g) != at
    ensures Good(CutLast(s, k, have))
  {
    hide Packed, Slots, HolesMarked, Separated, TightHead;
    var t := CutLast(s, k, have);
    CutLastLayout(s, k, at, have);
    SameHolesMeans(s, t);
  }

  // ---- The chunk joins a neighbouring hole -------------------------------------------------------

  /** Hole `h` grows over the chunk of `k`; its new beginning is `begin`. */
  function Grown(s: State, k: nat, have: nat, h: nat, begin: int): State
    requires k < |s.area| && h < |s.area|
  {
    var t := Disown(s, k);
    Put(t, h, HoleUnit(h, begin, have + HoleSize(s, h))).(volume := s.volume + have)
  }

  /** The hole `h` is next to the chunk, and `begin` is where the two together begin. */
  ghost predicate NextTo(s: State, at: int, have: nat, h: nat, begin: int) {
    GapAt(s, h) && ((HoleEnd(s, h) == at && begin == HoleBegin(s, h)) || (at + have == HoleBegin(s, h) && begin == at))
  }

  lemma GrownSlots(s: State, k: nat, at: int, have: nat, h: nat, begin: int)
    requires Layout(s) && Chunk(s, k, at, have) && NextTo(s, at, have, h, begin)
    ensures Bounds(Grown(s, k, have, h, begin)) && k != h
    ensures Slots(Grown(s, k, have, h, begin))
            == Slots(s)[k - s.head := Slot(false, at, 0)][h - s.head := Slot(true, begin, have + HoleSize(s, h))]
  {
    hide Packed, Slots, HolesMarked;
    var t := Disown(s, k);
    DisownSlots(s, k, at, have);
    var u := Put(t, h, HoleUnit(h, begin, have + HoleSize(s, h)));
    PutSlots(t, h, u.area[h]);
    SameSlots(u, Grown(s, k, have, h, begin));
  }

  lemma GrownMarked(s: State, k: nat, at: int, have: nat, h: nat, begin: int)
    requires Layout(s) && Chunk(s, k, at, have) && NextTo(s, at, have, h, begin)
    ensures Bounds(Grown(s, k, have, h, begin)) && HolesMarked(Grown(s, k, have, h, begin))
  {
    hide Packed, Slots;
    HoleBounds(s, h);
    ChunkBounds(s, k, at, have);
  }

  lemma GrownLayout(s: State, k: nat, at: int, have: nat, h: nat, begin: int)
    requires Layout(s) && Chunk(s, k, at, have) && NextTo(s, at, have, h, begin)
    ensures Layout(Grown(s, k, have, h, begin))
  {
    hide Packed, Slots, HolesMarked, Shelters;
    var t := Grown(s, k, have, h, begin);
    var x, y := Slot(false, at, 0), Slot(true, begin, have + HoleSize(s, h));
    GrownSlots(s, k, at, have, h, begin);
    GrownMarked(s, k, at, have, h, begin);
    ChunkBounds(s, k, at, have);
    HoleBounds(s, h);
    SlotOf(s, k); SlotOf(s, h);
    SheltersPart(SlotAt(s, k), SlotAt(s, h), x);
    if HoleEnd(s, h) == at {
      SheltersHull(SlotAt(s, h), SlotAt(s, k), y);
    } else {
      SheltersHull(SlotAt(s, k), SlotAt(s, h), y);
    }
    LayoutAfterTwo(s, t, k - s.head, h - s.head, x, y);
  }

  /** The holes of the grown state. */
  lemma GrownGaps(s: State, k: nat, at: int, have: nat, h: nat, begin: int)
    requires Chunk(s, k, at, have) && NextTo(s, at, have, h, begin)
    ensures var t := Grown(s, k, have, h, begin);
            && t.head == s.head && t.pivot == s.pivot && t.tail == s.tail
            && GapAt(t, h) && HoleBegin(t, h) == begin && HoleSize(t, h) == have + HoleSize(s, h)
            && (forall g: nat :: g != h && GapAt(t, g) ==> GapAt(s, g) && t.area[g] == s.area[g])
            && (forall g: nat :: g != h && GapAt(s, g) ==> GapAt(t, g) && t.area[g] == s.area[g])
  {
  }

  lemma GrownTight(s: State, k: nat, at: int, have: nat, h: nat, begin: int)
    requires Layout(s) && TightHead(s) && Chunk(s, k, at, have) && NextTo(s, at, have, h, begin)
    ensures Bounds(Grown(s, k, have, h, begin)) && TightHead(Grown(s, k, have, h, begin))
  {
    hide Packed, Slots, HolesMarked;
  }

  /** Growing over a chunk whose other side is free keeps the holes separated. */
  lemma GrownSeparated(s: State, k: nat, at: int, have: nat, h: nat, begin: int)
    requires Chunk(s, k, at, have) && NextTo(s, at, have, h, begin) && Separated(s)
    ensures var t := Grown(s, k, have, h, begin);
            && SeparatedBut(t, h)
            && ((begin == at ==> forall g: nat :: GapAt(s, g) ==> HoleEnd(s, g) != at) ==> LeftFree(t, h))
            && ((begin != at ==> forall g: nat :: GapAt(s, g) ==> HoleBegin(s, g) != at + have) ==> RightFree(t, h))
  {
    hide Grown;
    var t := Grown(s, k, have, h, begin);
    GrownGaps(s, k, at, have, h, begin);
    forall g: nat | GapAt(t, g) && g != h
        ensures GapAt(s, g) && HoleBegin(t, g) == HoleBegin(s, g) && HoleEnd(t, g) == HoleEnd(s, g) {}
    assert |t.area| > h;
  }

  // ---- The chunk becomes a hole of its own ---------------------------------------------------------

  /** The empty hole `e` takes the chunk of `k`. */
  function Housed(r: State, k: nat, e: nat, at: int, have: nat): State
    requires k < |r.area| && e < |r.area|
  {
    Put(Disown(r, k), e, HoleUnit(e, at, have)).(volume := r.volume + have)
  }

  lemma HousedSlots(r: State, k: nat, e: nat, at: int, have: nat)
    requires Layout(r) && Chunk(r, k, at, have) && HoleAt(r, e) && HoleSize(r, e) == 0
    ensures Bounds(Housed(r, k, e, at, have)) && k != e
    ensures Slots(Housed(r, k, e, at, have))
            == Slots(r)[k - r.head := Slot(false, at, 0)][e - r.head := Slot(true, at, have)]
  {
    hide Packed, Slots, HolesMarked;
    var t := Disown(r, k);
    DisownSlots(r, k, at, have);
    var u := Put(t, e, HoleUnit(e, at, have));
    PutSlots(t, e, u.area[e]);
    SameSlots(u, Housed(r, k, e, at, have));
  }

  lemma HousedMarked(r: State, k: nat, e: nat, at: int, have: nat)
    requires Layout(r) && Chunk(r, k, at, have) && HoleAt(r, e) && HoleSize(r, e) == 0
    ensures Bounds(Housed(r, k, e, at, have)) && HolesMarked(Housed(r, k, e, at, have))
  {
    hide Packed, Slots;
    ChunkBounds(r, k, at, have);
  }

  lemma HousedLayout(r: State, k: nat, e: nat, at: int, have: nat)
    requires Layout(r) && Chunk(r, k, at, have) && HoleAt(r, e) && HoleSize(r, e) == 0
    ensures Layout(Housed(r, k, e, at, have))
  {
    hide Packed, Slots, HolesMarked, Shelters;
    var x, y := Slot(false, at, 0), Slot(true, at, have);
    HousedSlots(r, k, e, at, have);
    HousedMarked(r, k, e, at, have);
    ChunkBounds(r, k, at, have);
    SlotOf(r, k); SlotOf(r, e);
    SheltersPart(SlotAt(r, k), SlotAt(r, e), x);
    SheltersPart(SlotAt(r, k), SlotAt(r, e), y);
    LayoutAfterTwo(r, Housed(r, k, e, at, have), k - r.head, e - r.head, x, y);
  }

  lemma HousedGaps(r: State, k: nat, e: nat, at: int, have: nat)
    requires Chunk(r, k, at, have) && HoleAt(r, e) && HoleSize(r, e) == 0
    ensures var t := Housed(r, k, e, at, have);
            && t.head == r.head && t.pivot == r.pivot && t.tail == r.tail
            && GapAt(t, e) && HoleBegin(t, e) == at && HoleSize(t, e) == have
            && (forall g: nat :: g != e && GapAt(t, g) ==> GapAt(r, g) && t.area[g] == r.area[g])
            && (forall g: nat :: GapAt(r, g) ==> g != e && GapAt(t, g) && t.area[g] == r.area[g])
  {
  }

  ghost predicate Lonely(s: State, at: int, have: nat) {
    forall g: nat :: GapAt(s, g) ==> HoleEnd(s, g) != at && HoleBegin(s, g) != at + have
  }

  lemma HousedGood(r: State, k: nat, e: nat, at: int, have: nat)
    requires Layout(r) && Separated(r) && Clear(r) && Chunk(r, k, at, have) && HoleAt(r, e) && HoleSize(r, e) == 0
    requires (e == r.head || TightHead(r)) && Lonely(r, at, have) && at + have != r.tail
    ensures Good(Housed(r, k, e, at, have))
  {
    HousedTight(r, k, e, at, have);
    hide Packed, Slots, HolesMarked, Housed, TightHead;
    var t := Housed(r, k, e, at, have);
    HousedLayout(r, k, e, at, have);
    HousedGaps(r, k, e, at, have);
    forall g: nat | GapAt(t, g) && g != e
      ensures GapAt(r, g) && HoleBegin(t, g) == HoleBegin(r, g) && HoleEnd(t, g) == HoleEnd(r, g) {}
  }

  lemma HousedTight(r: State, k: nat, e: nat, at: int, have: nat)
    requires Layout(r) && Chunk(r, k, at, have) && HoleAt(r, e) && (e == r.head || TightHead(r))
    ensures Bounds(Housed(r, k, e, at, have)) && TightHead(Housed(r, k, e, at, have))
  {
    hide Packed, Slots, HolesMarked;
  }

  // ---- release_data -----------------------------------------------------------------------------------

  /** What realloc_data may rely on after the release: `m` is the hole that now holds the old
      chunk, or nothing when the space went to the tail; other holes are as they were. */
  ghost predicate Released(s: State, t: State, k: nat, at: int, have: nat, before: Option<nat>, after: Option<nat>,
      m: Option<nat>) {
    && Good(t) && t.pivot == s.pivot && t.schema == s.schema && |t.area| == |s.area|
    && s.head <= k < |s.area| && t.head <= k && t.area[k] == s.area[k].(own := 0)
    && (m.Some? ==> && GapAt(t, m.value) && t.tail == s.tail
                    && HoleSize(t, m.value) == have + SpanOf(s, before) + SpanOf(s, after))
    && (m.None? ==> after.None? && t.tail == s.tail - have - SpanOf(s, before))
    && (forall g: nat :: Some(g) != m && GapAt(t, g) ==> GapAt(s, g) && t.area[g] == s.area[g])
    && (forall g: nat :: GapAt(s, g) && Some(g) != before && Some(g) != after ==> GapAt(t, g) && t.area[g] == s.area[g])
  }

  function SpanOf(s: State, h: Option<nat>): nat {
    if h.Some? && h.value < |s.area| then HoleSize(s, h.value) else 0
  }

  lemma ReleasedAtTail(s: State, k: nat, at: int, have: nat)
    requires Good(s) && Chunk(s, k, at, have) && at + have == s.tail
    requires forall g: nat :: GapAt(s, g) ==> HoleEnd(s, g) != at
    ensures Released(s, CutLast(s, k, have), k, at, have, None, None, None)
  {
    CutLastGood(s, k, at, have);
    CutLastLayout(s, k, at, have);
    hide Layout, Coalesced;
    SameHolesMeans(s, CutLast(s, k, have));
  }

  lemma ReleasedAtTailBefore(s: State, k: nat, at: int, have: nat, b: nat)
    requires Good(s) && Chunk(s, k, at, have) && at + have == s.tail && GapAt(s, b) && HoleEnd(s, b) == at
    ensures Released(s, GiveBack(CutLast(s, k, have), b), k, at, have, Some(b), None, None)
  {
    hide Packed, Slots, HolesMarked, Separated, TightHead, Clear, GiveBack;
    var c := CutLast(s, k, have);
    CutLastLayout(s, k, at, have);
    SameHolesMeans(s, c);
    GiveBackKeeps(c, b);
    GiveBackGaps(c, b);
  }

  lemma GrownClear(s: State, k: nat, at: int, have: nat, h: nat, begin: int)
    requires Clear(s) && Chunk(s, k, at, have) && NextTo(s, at, have, h, begin) && at + have != s.tail
    ensures Clear(Grown(s, k, have, h, begin))
  {
    hide Grown;
    GrownGaps(s, k, at, have, h, begin);
  }

  lemma GrownCell(s: State, k: nat, at: int, have: nat, h: nat, begin: int)
    requires Chunk(s, k, at, have) && NextTo(s, at, have, h, begin)
    ensures var t := Grown(s, k, have, h, begin);
            && k != h && k < |t.area| == |s.area| && t.area[k] == s.area[k].(own := 0) && t.schema == s.schema
            && !(k < t.pivot && IsHole(t.area[k]))
  {
  }

  lemma NeighboursFree(s: State, at: int, have: nat, before: Option<nat>, after: Option<nat>)
    requires AreNeighbours(s, at, at + have, s.pivot, before, after)
    ensures before.None? ==> forall g: nat :: GapAt(s, g) ==> HoleEnd(s, g) != at
    ensures after.None? ==> forall g: nat :: GapAt(s, g) ==> HoleBegin(s, g) != at + have
    ensures before.None? && after.None? ==> Lonely(s, at, have)
  {
    assert forall g: nat :: GapAt(s, g) ==> g < s.pivot;
  }

  lemma ReleasedIntoOne(s: State, k: nat, at: int, have: nat, h: nat, begin: int, before: Option<nat>,
      after: Option<nat>)
    requires Good(s) && Chunk(s, k, at, have) && NextTo(s, at, have, h, begin) && at + have != s.tail
    requires AreNeighbours(s, at, at + have, s.pivot, before, after)
    requires (before == Some(h) && after.None? && begin == HoleBegin(s, h))
             || (before.None? && after == Some(h) && begin == at)
    ensures Released(s, Grown(s, k, have, h, begin), k, at, have, before, after, Some(h))
  {
    var t := Grown(s, k, have, h, begin);
    GrownTight(s, k, at, have, h, begin);
    GrownClear(s, k, at, have, h, begin);
    NeighboursFree(s, at, have, before, after);
    GrownLayout(s, k, at, have, h, begin);
    GrownCell(s, k, at, have, h, begin);
    hide Layout, TightHead, Clear, Grown, Separated, SeparatedBut, LeftFree, RightFree;
    GrownGaps(s, k, at, have, h, begin);
    GrownSeparated(s, k, at, have, h, begin);
    FreeOnBothSides(t, h);
  }

  lemma JoinedCell(s: State, first: nat, second: nat, keep: nat, drop: nat, k: nat)
    requires Touching(s, first, second) && Pair(first, second, keep, drop) && k < |s.area|
             && !(k < s.pivot && IsHole(s.area[k]))
    ensures var m := Joined(s, first, second, keep, drop);
            m.area[k] == s.area[k] && m.schema == s.schema && |m.area| == |s.area|
  {
  }

  lemma GrownBetween(s: State, k: nat, at: int, have: nat, b: nat, a: nat)
    requires Good(s) && Chunk(s, k, at, have) && at + have != s.tail
    requires GapAt(s, b) && HoleEnd(s, b) == at && GapAt(s, a) && HoleBegin(s, a) == at + have
    ensures var g := Grown(s, k, have, b, HoleBegin(s, b));
            Layout(g) && TightHead(g) && Clear(g) && SeparatedBut(g, b) && LeftFree(g, b) && Touching(g, b, a)
  {
    var begin := HoleBegin(s, b);
    GrownTight(s, k, at, have, b, begin);
    GrownClear(s, k, at, have, b, begin);
    GrownLayout(s, k, at, have, b, begin);
    hide Layout, TightHead, Clear, Grown, Separated, SeparatedBut, LeftFree;
    GrownGaps(s, k, at, have, b, begin);
    GrownSeparated(s, k, at, have, b, begin);
  }

  /** merge_holes, away from the end of data, only touches the two holes. */
  lemma MergedOthers(g: State, b: nat, a: nat, k: nat)
    requires Layout(g) && Touching(g, b, a) && Clear(g) && TightHead(g)
    requires k < |g.area| && !(k < g.pivot && IsHole(g.area[k]))
    ensures var (u, q) := MergeHoles(g, b, a);
            && u.pivot == g.pivot && u.schema == g.schema && |u.area| == |g.area| && u.tail == g.tail
            && u.area[k] == g.area[k] && (g.head <= k ==> u.head <= k)
            && GapAt(u, q) && HoleSize(u, q) == HoleSize(g, b) + HoleSize(g, a)
            && (forall h: nat :: h != q && GapAt(u, h) ==> h != a && h != b && GapAt(g, h) && u.area[h] == g.area[h])
            && (forall h: nat :: GapAt(g, h) && h != a && h != b ==> GapAt(u, h) && u.area[h] == g.area[h])
  {
    hide Layout, TightHead, Clear, Joined, MergeHoles;
    MergeWhenClear(g, b, a);
    TouchingDiffer(g, b, a);
    var keep, drop := Kept(g, b, a), Dropped(g, b, a);
    JoinedGaps(g, b, a, keep, drop);
    JoinedCell(g, b, a, keep, drop, k);
  }

  lemma ReleasedIntoBoth(s: State, k: nat, at: int, have: nat, b: nat, a: nat)
    requires Good(s) && Chunk(s, k, at, have) && at + have != s.tail
    requires GapAt(s, b) && HoleEnd(s, b) == at && GapAt(s, a) && HoleBegin(s, a) == at + have
    ensures var g := Grown(s, k, have, b, HoleBegin(s, b));
            Touching(g, b, a) &&
            var (u, q) := MergeHoles(g, b, a);
            Released(s, u, k, at, have, Some(b), Some(a), Some(q))
  {
    hide Layout, TightHead, Clear, Grown, Separated, SeparatedBut, LeftFree, MergeHoles, Touching, Coalesced;
    var begin := HoleBegin(s, b);
    var g := Grown(s, k, have, b, begin);
    GrownBetween(s, k, at, have, b, a);
    GrownCell(s, k, at, have, b, begin);
    GrownGaps(s, k, at, have, b, begin);
    MergeAfter(g, b, a);
    MergedOthers(g, b, a, k);
  }

  lemma SameGapsMeans(s: State, r: State)
    requires SameGaps(s, r)
    ensures Separated(s) ==> Separated(r)
    ensures Clear(s) && r.tail == s.tail ==> Clear(r)
    ensures forall at: int, have: nat :: Lonely(s, at, have) ==> Lonely(r, at, have)
  {
  }

  /** `r` is `s` with room for one more descriptor, the empty hole `e`. */
  ghost predicate RoomAt(s: State, r: State, e: nat) {
    && Layout(r) && SameGaps(s, r) && HoleAt(r, e) && HoleSize(r, e) == 0
    && (e == r.head || TightHead(r))
    && r.head <= s.head && r.tail == s.tail && r.pivot == s.pivot && r.schema == s.schema && r.volume == s.volume
       && |r.area| == |s.area|
    && forall l: nat :: l != e && l < |s.area| ==> r.area[l] == s.area[l]
  }

  lemma RoomKeepsChunk(s: State, r: State, e: nat, k: nat, at: int, have: nat)
    requires RoomAt(s, r, e) && Chunk(s, k, at, have) && (k < s.pivot ==> s.head <= e ==> k != e)
    ensures Chunk(r, k, at, have) && k != e
  {
  }

  lemma ReleasedHoused(s: State, r: State, k: nat, e: nat, at: int, have: nat)
    requires Good(s) && Chunk(s, k, at, have) && at + have != s.tail && Lonely(s, at, have) && RoomAt(s, r, e) && k != e
    ensures Released(s, Housed(r, k, e, at, have), k, at, have, None, None, Some(e))
  {
    hide Packed, Slots, HolesMarked, Separated, Clear, TightHead, Lonely;
    RoomKeepsChunk(s, r, e, k, at, have);
    SameGapsMeans(s, r);
    HousedGood(r, k, e, at, have);
    HousedGaps(r, k, e, at, have);
  }

  lemma FirstWithTagSame(a: seq<Unit>, b: seq<Unit>, from: nat, stop: nat, tag: Tag)
    requires from <= stop <= |a| == |b|
    requires forall i :: from <= i < stop ==> a[i].tag == b[i].tag
    ensures FirstWithTag(a, from, stop, tag) == FirstWithTag(b, from, stop, tag)
  {
    var p, q := FirstWithTag(a, from, stop, tag), FirstWithTag(b, from, stop, tag);
    if p.Some? && q.Some? {
      assert p.value <= q.value by { assert a[q.value].tag == tag; }
      assert q.value <= p.value by { assert b[p.value].tag == tag; }
    }
    if p.Some? { assert b[p.value].tag == tag; }
    if q.Some? { assert a[q.value].tag == tag; }
  }

  /** index_alloc does not look at what a reference owns, nor at the volume. */
  lemma IndexAllocDisowned(s: State, k: nat, volume: int, notify: int)
    requires Layout(s) && k < |s.area|
    ensures match IndexAlloc(s, notify)
            case Insufficient(t, i, d) =>
              IndexAlloc(Disown(s, k).(volume := volume), notify) == Insufficient(Disown(s, k).(volume := volume), i, d)
            case Done(t, e) =>
              IndexAlloc(Disown(s, k).(volume := volume), notify) == Done(Disown(t, k).(volume := volume), e)
  {
    FirstWithTagSame(s.area, Disown(s, k).area, s.head, s.pivot, MakeHole(0));
  }

  /** Everything realloc_data and erase need to know about the chunk they release. */
  ghost predicate ReleaseReady(s: State, k: nat, at: int, have: nat, before: Option<nat>, after: Option<nat>,
      hole0: Option<nat>) {
    && Good(s) && Chunk(s, k, at, have) && AreNeighbours(s, at, at + have, s.pivot, before, after)
    && (hole0.Some? ==> HoleAt(s, hole0.value) && HoleSize(s, hole0.value) == 0)
  }

  lemma HousedIs(s: State, t: State, r: State, k: nat, e: nat, at: int, have: nat)
    requires RoomAt(s, r, e) && k < |s.area| && k != e && t.area == s.area
    requires Put(t, e, EMPTY_HOLE) == Put(r, e, EMPTY_HOLE).(count := r.count - 1)
    ensures Put(Disown(t, k).(volume := s.volume + have), e, HoleUnit(e, at, have)).(count := t.count + 1)
            == Housed(r, k, e, at, have)
  {
    var u := HoleUnit(e, at, have);
    assert Put(Disown(t, k), e, u).area == Put(Disown(r, k), e, u).area;
    var x, y := Put(t, e, EMPTY_HOLE), Put(r, e, EMPTY_HOLE);
    assert t.head == x.head && t.count == x.count && t.schema == x.schema && t.tail == x.tail && t.pivot == x.pivot;
  }

  lemma ReleaseAloneKeeps(mode: Mode, s: State, k: nat, at: int, have: nat, hole0: Option<nat>)
    requires ReleaseReady(s, k, at, have, None, None, hole0) && at + have != s.tail
    ensures match ReleaseData(mode, Disown(s, k), at, have, None, None, hole0)
            case Insufficient(t, i, d) =>
              && hole0.None? && s.head == 0 && i == 1 && d == 0
              && (forall e: nat :: HoleAt(s, e) ==> HoleSize(s, e) > 0)
              && t == if mode.AsWritten? then Disown(s, k).(volume := s.volume + have) else Disown(s, k)
            case Done(t, m) => Released(s, t, k, at, have, None, None, m)
  {
    hide Packed, Slots, HolesMarked, Separated, Clear, TightHead, Lonely, Released;
    NeighboursFree(s, at, have, None, None);
    hide AreNeighbours;
    if hole0.Some? {
      SameGapsRefl(s);
      ReleasedHoused(s, s, k, hole0.value, at, have);
    } else {
      IndexAllocReserves(s, 0);
      IndexAllocDisowned(s, k, s.volume + have, 0);
      if IndexAlloc(s, 0).Done? {
        var e := IndexAlloc(s, 0).value;
        var r := Reserved(s);
        assert RoomAt(s, r, e);
        assert Put(IndexAlloc(s, 0).state, e, EMPTY_HOLE) == Put(r, e, EMPTY_HOLE).(count := r.count - 1);
        HousedIs(s, IndexAlloc(s, 0).state, r, k, e, at, have);
        ReleasedHoused(s, r, k, e, at, have);
      }
    }
  }

  lemma SameGapsRefl(s: State)
    ensures SameGaps(s, s)
  {
  }

  lemma ReleaseAtEndKeeps(mode: Mode, s: State, k: nat, at: int, have: nat, before: Option<nat>, after: Option<nat>,
      hole0: Option<nat>)
    requires ReleaseReady(s, k, at, have, before, after, hole0) && at + have == s.tail
    ensures after.None?
    ensures var r := ReleaseData(mode, Disown(s, k), at, have, before, after, hole0);
            r.Done? && r.value.None? && Released(s, r.state, k, at, have, before, after, None)
  {
    hide Packed, Slots, HolesMarked, Separated, Clear, TightHead, Lonely, Released, GiveBack;
    NeighboursFree(s, at, have, before, after);
    if after.Some? { HoleBounds(s, after.value); }
    if before.Some? {
      ReleasedAtTailBefore(s, k, at, have, before.value);
    } else {
      ReleasedAtTail(s, k, at, have);
    }
  }

  lemma ReleaseIntoHolesKeeps(mode: Mode, s: State, k: nat, at: int, have: nat, before: Option<nat>,
      after: Option<nat>, hole0: Option<nat>)
    requires ReleaseReady(s, k, at, have, before, after, hole0) && at + have != s.tail && (before.Some? || after.Some?)
    ensures var r := ReleaseData(mode, Disown(s, k), at, have, before, after, hole0);
            r.Done? && r.value.Some? && Released(s, r.state, k, at, have, before, after, r.value)
  {
    hide Packed, Slots, HolesMarked, Separated, Clear, TightHead, Lonely, Released, MergeHoles;
    if before.Some? && after.Some? {
      ReleasedIntoBoth(s, k, at, have, before.value, after.value);
      GrownIs(s, k, at, have, before.value, HoleBegin(s, before.value));
    } else if before.Some? {
      ReleasedIntoOne(s, k, at, have, before.value, HoleBegin(s, before.value), before, after);
      GrownIs(s, k, at, have, before.value, HoleBegin(s, before.value));
    } else {
      ReleasedIntoOne(s, k, at, have, after.value, at, before, after);
      GrownIs(s, k, at, have, after.value, at);
    }
  }

  lemma GrownIs(s: State, k: nat, at: int, have: nat, h: nat, begin: int)
    requires Chunk(s, k, at, have) && NextTo(s, at, have, h, begin)
    ensures k != h && Grown(s, k, have, h, begin)
            == Put(Disown(s, k).(volume := s.volume + have), h, HoleUnit(h, begin, have + HoleSize(s, h)))
  {
  }

  /** release_data never loses track of the chunk. It can only throw when the chunk has no
      neighbouring hole, is not the last one, and there is no room for a descriptor. */
  lemma ReleaseDataKeeps(mode: Mode, s: State, k: nat, at: int, have: nat, before: Option<nat>, after: Option<nat>,
      hole0: Option<nat>)
    requires ReleaseReady(s, k, at, have, before, after, hole0)
    ensures match ReleaseData(mode, Disown(s, k), at, have, before, after, hole0)
            case Insufficient(t, i, d) =>
              && at + have != s.tail && before.None? && after.None? && hole0.None? && s.head == 0 && i == 1 && d == 0
              && (forall e: nat :: HoleAt(s, e) ==> HoleSize(s, e) > 0)
              && t == if mode.AsWritten? then Disown(s, k).(volume := s.volume + have) else Disown(s, k)
            case Done(t, m) => Released(s, t, k, at, have, before, after, m)
  {
    if at + have == s.tail {
      ReleaseAtEndKeeps(mode, s, k, at, have, before, after, hole0);
    } else if before.Some? || after.Some? {
      ReleaseIntoHolesKeeps(mode, s, k, at, have, before, after, hole0);
    } else {
      ReleaseAloneKeeps(mode, s, k, at, have, hole0);
    }
  }
}
