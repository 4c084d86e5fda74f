/** Merging holes and giving the last hole back: what both keep. */
module Merging {
  import opened Ledger
  import opened Tuples
  import opened Gear
  import opened Searching
  import opened Keeping

  // ---- How far coalescing has got ----------------------------------------------------------

  /** No two holes touch unless one of them is `x`. */
  ghost predicate SeparatedBut(s: State, x: nat) {
    forall k: nat, l: nat :: GapAt(s, k) && GapAt(s, l) && k != x && l != x ==> HoleEnd(s, k) != HoleBegin(s, l)
  }

  /** No hole ends where hole `x` begins. */
  ghost predicate LeftFree(s: State, x: nat) {
    x < |s.area| && forall k: nat :: GapAt(s, k) ==> HoleEnd(s, k) != HoleBegin(s, x)
  }

  /** No hole begins where hole `x` ends. */
  ghost predicate RightFree(s: State, x: nat) {
    x < |s.area| && forall k: nat :: GapAt(s, k) ==> HoleBegin(s, k) != HoleEnd(s, x)
  }

  lemma FreeOnBothSides(s: State, x: nat)
    requires SeparatedBut(s, x) && LeftFree(s, x) && RightFree(s, x)
    ensures Separated(s)
  {
  }

  /** At the end of data nothing can begin. */
  lemma RightFreeAtTail(s: State, x: nat)
    requires Layout(s) && x < |s.area| && HoleEnd(s, x) == s.tail
    ensures RightFree(s, x)
  {
    hide Packed, Slots, HolesMarked;
    forall k: nat | GapAt(s, k) ensures HoleBegin(s, k) != HoleEnd(s, x) {
      HoleBounds(s, k);
    }
  }

  // ---- Two neighbouring holes become one ------------------------------------------------------

  ghost predicate Touching(s: State, first: nat, second: nat) {
    GapAt(s, first) && GapAt(s, second) && HoleEnd(s, first) == HoleBegin(s, second)
  }

  /** `keep` stands for both holes, `drop` is an empty hole. */
  function Joined(s: State, first: nat, second: nat, keep: nat, drop: nat): State
    requires first < |s.area| && second < |s.area| && keep < |s.area| && drop < |s.area|
  {
    Purge(Put(s, keep, HoleUnit(keep, HoleBegin(s, first), HoleSize(s, first) + HoleSize(s, second))), drop)
  }

  ghost predicate Pair(first: nat, second: nat, keep: nat, drop: nat) {
    first != second && ((keep == first && drop == second) || (keep == second && drop == first))
  }

  lemma TouchingDiffer(s: State, first: nat, second: nat)
    requires Touching(s, first, second)
    ensures first != second
  {
  }

  lemma JoinedSlots(s: State, first: nat, second: nat, keep: nat, drop: nat)
    requires Layout(s) && Touching(s, first, second) && Pair(first, second, keep, drop)
    ensures var m := Joined(s, first, second, keep, drop);
            Bounds(m) &&
            Slots(m) ==
            Slots(s)[keep - s.head := Slot(true, HoleBegin(s, first), HoleSize(s, first) + HoleSize(s, second))]
                                [drop - s.head := Slot(true, drop, 0)]
  {
    hide Packed, HolesMarked, Slots;
    var u := Put(s, keep, HoleUnit(keep, HoleBegin(s, first), HoleSize(s, first) + HoleSize(s, second)));
    PutSlots(s, keep, u.area[keep]);
    PutSlots(u, drop, EMPTY_HOLE);
  }

  lemma JoinedMarked(s: State, first: nat, second: nat, keep: nat, drop: nat)
    requires Layout(s) && Touching(s, first, second) && Pair(first, second, keep, drop)
    ensures Bounds(Joined(s, first, second, keep, drop)) && HolesMarked(Joined(s, first, second, keep, drop))
  {
    hide Packed, Slots;
    HoleBounds(s, first);
  }

  lemma JoinKeepsLayout(s: State, first: nat, second: nat, keep: nat, drop: nat)
    requires Layout(s) && Touching(s, first, second) && Pair(first, second, keep, drop)
    ensures Layout(Joined(s, first, second, keep, drop))
  {
    hide Packed, Slots, HolesMarked, Shelters;
    var m := Joined(s, first, second, keep, drop);
    var x := Slot(true, HoleBegin(s, first), HoleSize(s, first) + HoleSize(s, second));
    var y := Slot(true, drop, 0);
    JoinedSlots(s, first, second, keep, drop);
    HoleBounds(s, first); HoleBounds(s, second);
    SlotOf(s, first); SlotOf(s, second);
    SheltersHull(SlotAt(s, first), SlotAt(s, second), x);
    SheltersPart(SlotAt(s, first), SlotAt(s, second), y);
    JoinedMarked(s, first, second, keep, drop);
    LayoutAfterTwo(s, m, keep - s.head, drop - s.head, x, y);
  }

  /** The holes of the joined state. */
  lemma JoinedGaps(s: State, first: nat, second: nat, keep: nat, drop: nat)
    requires Touching(s, first, second) && Pair(first, second, keep, drop)
    ensures var m := Joined(s, first, second, keep, drop);
            && GapAt(m, keep) && HoleBegin(m, keep) == HoleBegin(s, first) && HoleEnd(m, keep) == HoleEnd(s, second)
            && HoleAt(m, drop) && HoleSize(m, drop) == 0
            && m.head == s.head && m.pivot == s.pivot && m.tail == s.tail
            && (forall k: nat :: k != keep && k != drop && GapAt(m, k) ==> GapAt(s, k) && m.area[k] == s.area[k])
            && (forall k: nat :: k != keep && k != drop && GapAt(s, k) ==> GapAt(m, k) && m.area[k] == s.area[k])
  {
  }

  /** Merging `x` with the hole before it leaves contact with `keep` only on the right. */
  lemma JoinLeft(s: State, first: nat, x: nat, keep: nat, drop: nat)
    requires Touching(s, first, x) && Pair(first, x, keep, drop) && SeparatedBut(s, x)
    ensures SeparatedBut(Joined(s, first, x, keep, drop), keep)
    ensures LeftFree(Joined(s, first, x, keep, drop), keep)
  {
    hide Joined;
    var m := Joined(s, first, x, keep, drop);
    JoinedGaps(s, first, x, keep, drop);
    forall k: nat, l: nat | GapAt(m, k) && GapAt(m, l) && k != keep && l != keep
      ensures HoleEnd(m, k) != HoleBegin(m, l)
    {
      assert GapAt(s, k) && GapAt(s, l);
    }
    forall k: nat | GapAt(m, k) ensures HoleEnd(m, k) != HoleBegin(m, keep) {
      if k != keep { assert GapAt(s, k) && k != x; }
    }
  }

  lemma JoinRight(s: State, x: nat, second: nat, keep: nat, drop: nat)
    requires Touching(s, x, second) && Pair(x, second, keep, drop) && SeparatedBut(s, x) && LeftFree(s, x)
    ensures Separated(Joined(s, x, second, keep, drop))
  {
    hide Joined;
    var m := Joined(s, x, second, keep, drop);
    JoinedGaps(s, x, second, keep, drop);
    forall k: nat, l: nat | GapAt(m, k) && GapAt(m, l) ensures HoleEnd(m, k) != HoleBegin(m, l) {
      if k != keep { assert GapAt(s, k) && k != x && k != second; }
      if l != keep { assert GapAt(s, l) && l != x && l != second; }
    }
  }

  lemma JoinedClear(s: State, first: nat, second: nat, keep: nat, drop: nat)
    requires Touching(s, first, second) && Pair(first, second, keep, drop) && Clear(s)
    ensures Clear(Joined(s, first, second, keep, drop))
  {
    hide Joined;
    var m := Joined(s, first, second, keep, drop);
    JoinedGaps(s, first, second, keep, drop);
    forall k: nat | GapAt(m, k) ensures HoleEnd(m, k) != m.tail {
      if k != keep { assert GapAt(s, k); }
    }
  }

  // ---- merge_holes ----------------------------------------------------------------------------

  /** Which of the two descriptors merge_holes keeps. */
  function Kept(s: State, first: nat, second: nat): nat { if first != s.head then first else second }
  function Dropped(s: State, first: nat, second: nat): nat { if first != s.head then second else first }

  /** merge_holes is a join followed, when the dropped descriptor is the first, by a trim. */
  lemma MergeIsJoin(s: State, first: nat, second: nat)
    requires Touching(s, first, second)
    ensures var m := Joined(s, first, second, Kept(s, first, second), Dropped(s, first, second));
            MergeHoles(s, first, second)
            == (if Dropped(s, first, second) == s.head then TrimHole(m) else m, Kept(s, first, second))
  {
    TouchingDiffer(s, first, second);
  }

  lemma JoinedTight(s: State, first: nat, second: nat, keep: nat, drop: nat)
    requires Bounds(s) && TightHead(s) && Touching(s, first, second) && Pair(first, second, keep, drop)
             && drop != s.head
    ensures TightHead(Joined(s, first, second, keep, drop))
  {
  }

  lemma ShortenedOnce(m: State, r: State)
    requires HoleAt(m, m.head) && Shortened(Popped(m), r)
    ensures Shortened(m, r)
  {
  }

  lemma ClearPop(m: State)
    requires Clear(m) && m.head < m.pivot
    ensures Clear(Popped(m))
  {
    assert forall k: nat :: GapAt(Popped(m), k) ==> GapAt(m, k);
  }

  /** Trimming the index from an empty first hole while no hole reaches the end of data. */
  lemma TrimFirst(m: State)
    requires Layout(m) && HoleAt(m, m.head) && HoleSize(m, m.head) == 0 && Clear(m)
    ensures var r := TrimHole(m);
            && Layout(r) && Clear(r) && TightHead(r) && r.tail == m.tail && Shortened(m, r)
            && forall k: nat :: k < r.head ==> !GapAt(m, k)
  {
    hide Layout, Clear, Shortened, TrimHole;
    PopEmptyHole(m);
    ClearPop(m);
    TrimKeepsLayout(m);
    TrimWhenClear(m);
    ClearShortened(Popped(m), TrimHole(m));
    ShortenedOnce(m, TrimHole(m));
    GapsPop(m, TrimHole(m), m.head);
  }

  lemma ShortenedIsReflexive(s: State)
    requires s.head <= s.pivot <= |s.area|
    ensures Shortened(s, s)
  {
  }

  lemma NoGapsBelowHead(s: State)
    ensures forall k: nat :: k < s.head ==> !GapAt(s, k)
  {
  }

  /** Merging while no hole reaches the end of data: only empty descriptors go. */
  lemma MergeWhenClear(s: State, first: nat, second: nat)
    requires Layout(s) && Touching(s, first, second) && Clear(s) && TightHead(s)
    ensures var (t, p) := MergeHoles(s, first, second);
            var m := Joined(s, first, second, Kept(s, first, second), Dropped(s, first, second));
            && Layout(t) && Clear(t) && TightHead(t) && t.tail == s.tail
            && Shortened(m, t) && p == Kept(s, first, second) && GapAt(m, p) && GapAt(t, p)
            && (forall k: nat :: k < t.head ==> !GapAt(m, k))
  {
    hide Packed, Slots, HolesMarked, Joined, MergeHoles, TrimHole, Clear, TightHead;
    var keep, drop := Kept(s, first, second), Dropped(s, first, second);
    var m := Joined(s, first, second, keep, drop);
    TouchingDiffer(s, first, second);
    MergeIsJoin(s, first, second);
    JoinKeepsLayout(s, first, second, keep, drop);
    JoinedGaps(s, first, second, keep, drop);
    JoinedClear(s, first, second, keep, drop);
    if drop == s.head {
      TrimFirst(m);
      assert GapAt(TrimHole(m), keep);
    } else {
      JoinedTight(s, first, second, keep, drop);
      ShortenedIsReflexive(m);
      NoGapsBelowHead(m);
    }
  }

  // ---- Giving the last hole back -------------------------------------------------------------

  function WithoutLast(s: State, p: nat): State
    requires p < |s.area|
  {
    Purge(s.(tail := s.tail - HoleSize(s, p), volume := s.volume - HoleSize(s, p)), p)
  }

  lemma WithoutLastLayout(s: State, p: nat)
    requires Layout(s) && GapAt(s, p) && HoleEnd(s, p) == s.tail
    ensures Layout(WithoutLast(s, p))
  {
    hide Packed, Slots, HolesMarked;
    var g := WithoutLast(s, p);
    var b := s.(tail := g.tail, volume := g.volume);
    HoleBounds(s, p);
    SlotOf(s, p);
    SameSlots(s, b);
    PutSlots(b, p, EMPTY_HOLE);
    WithoutLastMarked(s, p);
    LayoutAfterTail(s, g, p - s.head, Slot(true, p, 0));
  }

  lemma WithoutLastMarked(s: State, p: nat)
    requires Layout(s) && GapAt(s, p) && HoleEnd(s, p) == s.tail
    ensures Bounds(WithoutLast(s, p)) && HolesMarked(WithoutLast(s, p))
  {
    hide Packed, Slots;
    HoleBounds(s, p);
  }

  lemma WithoutLastGaps(s: State, p: nat)
    requires Separated(s) && GapAt(s, p) && HoleEnd(s, p) == s.tail
    ensures Separated(WithoutLast(s, p)) && Clear(WithoutLast(s, p))
    ensures HoleAt(WithoutLast(s, p), p) && HoleSize(WithoutLast(s, p), p) == 0
  {
    var g := WithoutLast(s, p);
    assert forall k: nat :: GapAt(g, k) ==> GapAt(s, k) && k != p && g.area[k] == s.area[k];
    forall k: nat | GapAt(g, k) ensures HoleEnd(g, k) != g.tail {
      assert HoleEnd(s, k) != HoleBegin(s, p);
    }
  }

  lemma WithoutLastTight(s: State, p: nat)
    requires Bounds(s) && GapAt(s, p) && TightHead(s) && Bounds(WithoutLast(s, p))
    ensures p != s.head ==> TightHead(WithoutLast(s, p))
  {
  }

  lemma GiveBackKeeps(s: State, p: nat)
    requires Layout(s) && GapAt(s, p) && HoleEnd(s, p) == s.tail && Separated(s) && TightHead(s)
    ensures Good(GiveBack(s, p))
  {
    hide Slots, Packed, TrimHole;
    var g := WithoutLast(s, p);
    WithoutLastMarked(s, p);
    WithoutLastTight(s, p);
    hide Layout, Separated, Clear, TightHead, TrimHole, GapAt;
    WithoutLastLayout(s, p);
    WithoutLastGaps(s, p);
    if p == s.head {
      TrimFirst(g);
      SeparatedShortened(g, TrimHole(g));
    }
  }

  /** Only hole `p` goes, and only its descriptor is rewritten. */
  lemma GiveBackGaps(s: State, p: nat)
    requires Layout(s) && GapAt(s, p) && HoleEnd(s, p) == s.tail && Separated(s) && TightHead(s)
    ensures var r := GiveBack(s, p);
            && r.tail == s.tail - HoleSize(s, p) && r.area == s.area[p := EMPTY_HOLE] && r.pivot == s.pivot
               && r.schema == s.schema
            && (forall g: nat :: GapAt(r, g) ==> g != p && GapAt(s, g) && r.area[g] == s.area[g])
            && (forall g: nat :: GapAt(s, g) && g != p ==> GapAt(r, g))
            && r.head <= s.pivot && (forall l: nat :: InIndex(s, l) && !IsHole(s.area[l]) ==> r.head <= l)
  {
    hide Layout, Separated, Clear, TightHead, TrimHole;
    var g := WithoutLast(s, p);
    BoundsOf(s);
    assert forall k: nat :: GapAt(g, k) <==> GapAt(s, k) && k != p;
    WithoutLastLayout(s, p);
    WithoutLastGaps(s, p);
    BoundsOf(g);
    if p == s.head {
      TrimFirst(g);
    }
  }

  // ---- Merging at the end of data ----------------------------------------------------------------

  lemma TrimAtTailFirst(m: State, p: nat)
    requires Layout(m) && HoleAt(m, m.head) && HoleSize(m, m.head) == 0 && Separated(m)
    requires GapAt(m, p) && HoleEnd(m, p) == m.tail
    ensures var r := TrimHole(m);
            && Layout(r) && TightHead(r) && Separated(r) && Shortened(m, r)
            && (if p < r.head then Clear(r) && r.tail < m.tail else r.tail == m.tail && GapAt(r, p))
  {
    hide Layout, Separated, Clear, TightHead, Shortened, TrimHole;
    PopEmptyHole(m);
    SeparatedPop(m);
    TrimKeepsLayout(m);
    TrimAtTail(m, p);
    SeparatedShortened(Popped(m), TrimHole(m));
    ShortenedOnce(m, TrimHole(m));
    ShortenedGap(m, TrimHole(m), p);
  }

  lemma ShortenedGap(m: State, r: State, p: nat)
    requires Shortened(m, r) && GapAt(m, p)
    ensures p >= r.head ==> GapAt(r, p)
  {
  }

  /** A hole that reaches the end of data is merged with the one before it. Either the trim
      already gave the payload back, or the merged hole is still there to be given back. */
  lemma MergeAtTail(s: State, first: nat, second: nat)
    requires Layout(s) && Touching(s, first, second) && SeparatedBut(s, second) && TightHead(s)
    requires HoleEnd(s, second) == s.tail
    ensures Good(Evaporate(MergeHoles(s, first, second)))
  {
    hide Packed, Slots, HolesMarked, Joined, MergeHoles, TrimHole, Clear, TightHead, Separated, SeparatedBut, GiveBack,
        LeftFree, RightFree, Shortened;
    var keep, drop := Kept(s, first, second), Dropped(s, first, second);
    var m := Joined(s, first, second, keep, drop);
    TouchingDiffer(s, first, second);
    MergeIsJoin(s, first, second);
    JoinKeepsLayout(s, first, second, keep, drop);
    JoinedGaps(s, first, second, keep, drop);
    JoinLeft(s, first, second, keep, drop);
    RightFreeAtTail(m, keep);
    FreeOnBothSides(m, keep);
    if drop == s.head {
      TrimAtTailFirst(m, keep);
      var r := TrimHole(m);
      assert HoleEnd(r, keep) == m.tail;
      if keep >= r.head {
        GiveBackKeeps(r, keep);
      }
    } else {
      JoinedTight(s, first, second, keep, drop);
      GiveBackKeeps(m, keep);
    }
  }

  // ---- release_loose --------------------------------------------------------------------------------

  /** Field `k` turned into a hole in place. */
  function AsHole(s: State, k: nat, units: nat): State
    requires k < |s.area|
  {
    Put(s, k, Unit(s.area[k].rel, MakeHole(units), 0)).(count := s.count + 1, volume := s.volume + units)
  }

  /** A loose field whose payload takes `units` units. */
  ghost predicate LooseWith(s: State, k: nat, units: nat) {
    && InIndex(s, k) && !IsHole(s.area[k])
    && SlotAt(s, k).units == units
    && (units == 0 ==> IsInplaced(s.area[k].tag.genus) || s.area[k].rel == 0)
  }

  lemma AsHoleLayout(s: State, k: nat, units: nat)
    requires Layout(s) && LooseWith(s, k, units) && units > 0
    ensures Layout(AsHole(s, k, units))
    ensures HoleBegin(AsHole(s, k, units), k) == SlotAt(s, k).begin
  {
    hide Packed, Slots, HolesMarked;
    var h := AsHole(s, k, units);
    AsHoleMarked(s, k, units);
    var p := Put(s, k, h.area[k]);
    PutSlots(s, k, h.area[k]);
    SameSlots(p, h);
    SlotOf(s, k);
    LayoutAfterRelabel(s, h, k - s.head, Slot(true, SlotAt(s, k).begin, units));
  }

  lemma AsHoleMarked(s: State, k: nat, units: nat)
    requires Layout(s) && LooseWith(s, k, units) && units > 0
    ensures Bounds(AsHole(s, k, units)) && HolesMarked(AsHole(s, k, units))
  {
    hide Packed, Slots;
  }

  /** A descriptor changes its kind but not its payload. */
  lemma LayoutAfterRelabel(s: State, t: State, i: nat, x: Slot)
    requires Layout(s) && Bounds(t) && HolesMarked(t)
    requires t.tail == s.tail && t.pivot == s.pivot && t.schema == s.schema
    requires i < |Slots(s)| && Slots(t) == Slots(s)[i := x]
    requires x.units == Slots(s)[i].units && (x.units > 0 ==> x.begin == Slots(s)[i].begin)
    requires t.count == s.count - HoleOne(Slots(s)[i]) + HoleOne(x)
    requires t.volume == s.volume - HoleUnits(Slots(s)[i]) + HoleUnits(x)
    ensures Layout(t)
  {
    hide Slots, HolesMarked;
    Relabel(Slots(s), i, x, Floor(s), s.tail);
    hide Packed;
    SumsAfterUpdate(Slots(s), i, x);
  }

  lemma AsHoleGaps(s: State, k: nat, units: nat)
    requires Layout(s) && Coalesced(s) && LooseWith(s, k, units) && units > 0
    ensures var h := AsHole(s, k, units);
            && GapAt(h, k) && SeparatedBut(h, k) && TightHead(h)
            && (HoleEnd(h, k) != h.tail ==> Clear(h))
  {
    hide Packed, Slots, HolesMarked;
    var h := AsHole(s, k, units);
    assert forall l: nat :: GapAt(h, l) && l != k ==> GapAt(s, l) && h.area[l] == s.area[l];
  }

  /** Nothing touches `x` on the side where no neighbour was found. */
  lemma NoNeighbourMeansFree(s: State, x: nat, before: Option<nat>, after: Option<nat>)
    requires x < |s.area| && AreNeighbours(s, HoleBegin(s, x), HoleEnd(s, x), s.pivot, before, after)
    ensures before.None? ==> LeftFree(s, x)
    ensures after.None? ==> RightFree(s, x)
    ensures before.Some? && GapAt(s, x) ==> Touching(s, before.value, x)
    ensures after.Some? && GapAt(s, x) ==> Touching(s, x, after.value)
  {
    assert forall k: nat :: GapAt(s, k) ==> k < s.pivot;
  }

  lemma ShortenedKeepsContacts(m: State, r: State, p: nat)
    requires Shortened(m, r)
    ensures SeparatedBut(m, p) ==> SeparatedBut(r, p)
    ensures LeftFree(m, p) ==> LeftFree(r, p)
  {
    assert forall k: nat :: GapAt(r, k) ==> GapAt(m, k);
  }

  /** First half of the merge away from the end of data: with the hole before. */
  lemma MergeBefore(h: State, b: nat, k: nat)
    requires Layout(h) && Touching(h, b, k) && SeparatedBut(h, k) && Clear(h) && TightHead(h)
    ensures var (t, p) := MergeHoles(h, b, k);
            && Layout(t) && Clear(t) && TightHead(t) && GapAt(t, p) && SeparatedBut(t, p) && LeftFree(t, p)
            && HoleEnd(t, p) == HoleEnd(h, k)
            && (RightFree(h, k) ==> RightFree(t, p))
            && forall a: nat :: Touching(h, k, a) ==> Touching(t, p, a)
  {
    hide Packed, Slots, HolesMarked, Joined, MergeHoles, TightHead, Separated, Clear, SeparatedBut, LeftFree, RightFree;
    var keep, drop := Kept(h, b, k), Dropped(h, b, k);
    var m := Joined(h, b, k, keep, drop);
    TouchingDiffer(h, b, k);
    MergeWhenClear(h, b, k);
    var (t, p) := MergeHoles(h, b, k);
    JoinedGaps(h, b, k, keep, drop);
    JoinLeft(h, b, k, keep, drop);
    ShortenedKeepsContacts(m, t, keep);
    JoinedRightFree(h, b, k, keep, drop, t);
    forall a: nat | Touching(h, k, a) ensures Touching(t, p, a) {
      JoinedKeepsGap(h, b, k, keep, drop, a);
    }
  }

  lemma JoinedRightFree(h: State, b: nat, k: nat, keep: nat, drop: nat, t: State)
    requires Touching(h, b, k) && Pair(b, k, keep, drop) && Shortened(Joined(h, b, k, keep, drop), t) && keep < |t.area|
    ensures RightFree(h, k) ==> RightFree(t, keep)
  {
    hide Joined;
    JoinedGaps(h, b, k, keep, drop);
    var m := Joined(h, b, k, keep, drop);
    if RightFree(h, k) {
      forall l: nat | GapAt(t, l) ensures HoleBegin(t, l) != HoleEnd(t, keep) {
        assert GapAt(m, l);
        if l != keep { assert GapAt(h, l); }
      }
    }
  }

  lemma JoinedKeepsGap(s: State, first: nat, second: nat, keep: nat, drop: nat, a: nat)
    requires Touching(s, first, second) && Pair(first, second, keep, drop) && Touching(s, second, a)
    ensures var m := Joined(s, first, second, keep, drop);
            GapAt(m, a) && m.area[a] == s.area[a]
  {
  }

  /** Second half: with the hole after. */
  lemma MergeAfter(t: State, p: nat, a: nat)
    requires Layout(t) && Touching(t, p, a) && SeparatedBut(t, p) && LeftFree(t, p) && Clear(t) && TightHead(t)
    ensures var (u, q) := MergeHoles(t, p, a);
            Good(u) && HoleEnd(u, q) != u.tail
  {
    hide Packed, Slots, HolesMarked, Joined, MergeHoles, TightHead, Separated, SeparatedBut, LeftFree;
    var keep, drop := Kept(t, p, a), Dropped(t, p, a);
    var m := Joined(t, p, a, keep, drop);
    TouchingDiffer(t, p, a);
    MergeWhenClear(t, p, a);
    var (u, q) := MergeHoles(t, p, a);
    JoinedGaps(t, p, a, keep, drop);
    JoinRight(t, p, a, keep, drop);
    SeparatedShortened(m, u);
  }

  lemma ReleaseAwayFromTail(h: State, k: nat, before: Option<nat>, after: Option<nat>)
    requires Layout(h) && GapAt(h, k) && SeparatedBut(h, k) && Clear(h) && TightHead(h)
    requires AreNeighbours(h, HoleBegin(h, k), HoleEnd(h, k), h.pivot, before, after)
    ensures Good(Evaporate(MergeAround(h, k, before, after)))
  {
    hide Packed, Slots, HolesMarked, MergeHoles, TightHead, Separated, SeparatedBut, LeftFree, RightFree,
        AreNeighbours, GiveBack, Touching;
    NoNeighbourMeansFree(h, k, before, after);
    if before.Some? {
      MergeBefore(h, before.value, k);
    }
    var (t, p) := if before.Some? then MergeHoles(h, before.value, k) else (h, k);
    if after.Some? {
      MergeAfter(t, p, after.value);
    } else {
      FreeOnBothSides(t, p);
      assert HoleEnd(t, p) != t.tail;
    }
  }

  lemma ReleaseAtTail(h: State, k: nat, before: Option<nat>, after: Option<nat>)
    requires Layout(h) && GapAt(h, k) && SeparatedBut(h, k) && TightHead(h) && HoleEnd(h, k) == h.tail
    requires AreNeighbours(h, HoleBegin(h, k), HoleEnd(h, k), h.pivot, before, after)
    ensures Good(Evaporate(MergeAround(h, k, before, after)))
  {
    hide Packed, Slots, HolesMarked, MergeHoles, TightHead, Separated, SeparatedBut, LeftFree, GiveBack, Clear;
    NoNeighbourMeansFree(h, k, before, after);
    RightFreeAtTail(h, k);
    assert after.None?;
    if before.Some? {
      MergeAtTail(h, before.value, k);
    } else {
      FreeOnBothSides(h, k);
      GiveBackKeeps(h, k);
    }
  }

  /** release_loose keeps the layout and restores maximal coalescing. */
  lemma ReleaseKeeps(s: State, k: nat, units: nat)
    requires Good(s) && LooseWith(s, k, units)
    ensures Good(ReleaseLoose(s, k, units))
  {
    hide Packed, Slots, HolesMarked, Evaporate, MergeAround, AreNeighbours, Separated, SeparatedBut, TightHead, Clear,
        TrimHole;
    if units == 0 {
      ReleaseWithoutPayload(s, k);
    } else {
      var h := AsHole(s, k, units);
      AsHoleLayout(s, k, units);
      AsHoleGaps(s, k, units);
      AdjacentFound(h, HoleBegin(h, k), HoleEnd(h, k));
      var (before, after) := AdjacentHoles(h, HoleBegin(h, k), HoleEnd(h, k));
      if HoleEnd(h, k) == h.tail {
        ReleaseAtTail(h, k, before, after);
      } else {
        ReleaseAwayFromTail(h, k, before, after);
      }
    }
  }

  function Emptied(s: State, k: nat): State
    requires k < |s.area|
  {
    Purge(s.(count := s.count + 1), k)
  }

  lemma EmptiedLayout(s: State, k: nat)
    requires Layout(s) && LooseWith(s, k, 0)
    ensures Layout(Emptied(s, k))
  {
    hide Packed, Slots, HolesMarked;
    var b := s.(count := s.count + 1);
    SameSlots(s, b);
    PutSlots(b, k, EMPTY_HOLE);
    SlotOf(s, k);
    EmptiedMarked(s, k);
    LayoutAfterRelabel(s, Emptied(s, k), k - s.head, Slot(true, k, 0));
  }

  lemma EmptiedMarked(s: State, k: nat)
    requires Layout(s) && InIndex(s, k)
    ensures Bounds(Emptied(s, k)) && HolesMarked(Emptied(s, k))
  {
    hide Packed, Slots;
  }

  lemma EmptiedGaps(s: State, k: nat)
    requires Bounds(s) && Coalesced(s) && InIndex(s, k) && !IsHole(s.area[k])
    ensures Separated(Emptied(s, k)) && Clear(Emptied(s, k))
    ensures k != s.head ==> TightHead(Emptied(s, k))
  {
    var g := Emptied(s, k);
    assert forall l: nat :: GapAt(g, l) ==> GapAt(s, l) && g.area[l] == s.area[l];
  }

  lemma ReleaseWithoutPayload(s: State, k: nat)
    requires Good(s) && LooseWith(s, k, 0)
    ensures Good(ReleaseLoose(s, k, 0))
  {
    hide Packed, Slots, HolesMarked, Separated, TightHead, Clear, TrimHole;
    var g := Emptied(s, k);
    EmptiedLayout(s, k);
    EmptiedGaps(s, k);
    if k == s.head {
      TrimFirst(g);
      SeparatedShortened(g, TrimHole(g));
    }
  }
}
