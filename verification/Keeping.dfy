/** What single descriptor updates, the trim of the index, and the merge of two holes keep. */
module Keeping {
  import opened Ledger
  import opened Tuples
  import opened Gear
  import opened Searching

  // ---- How a state changes its ledger ------------------------------------------------------

  lemma PutSlots(s: State, k: nat, u: Unit)
    requires Bounds(s) && s.head <= k < Floor(s)
    ensures Slots(Put(s, k, u)) == Slots(s)[k - s.head := SlotAt(Put(s, k, u), k)]
  {
  }

  lemma PutTwiceSlots(s: State, k: nat, u: Unit, l: nat, v: Unit)
    requires Bounds(s) && s.head <= k < Floor(s) && s.head <= l < Floor(s) && k != l
    ensures var t := Put(Put(s, k, u), l, v);
            Slots(t) == Slots(s)[k - s.head := SlotAt(t, k)][l - s.head := SlotAt(t, l)]
  {
    hide Slots;
    PutSlots(s, k, u);
    PutSlots(Put(s, k, u), l, v);
  }

  /** Only the descriptors, the pivot and the schema matter to the ledger. */
  lemma SameSlots(s: State, t: State)
    requires Bounds(s) && Bounds(t)
    requires t.area == s.area && t.head == s.head && t.pivot == s.pivot && t.schema == s.schema
    ensures Slots(t) == Slots(s)
  {
  }

  function Popped(s: State): State { s.(count := s.count - 1, head := s.head + 1) }

  lemma PoppedSlots(s: State)
    requires Bounds(s) && s.head < s.pivot
    ensures Slots(Popped(s)) == Slots(s)[1..]
  {
  }

  /** Two descriptors share their payload out differently. */
  lemma LayoutAfterTwo(s: State, t: State, i: nat, j: nat, x: Slot, y: Slot)
    requires Layout(s) && Bounds(t) && HolesMarked(t)
    requires t.tail == s.tail && t.pivot == s.pivot && t.schema == s.schema
    requires i < |Slots(s)| && j < |Slots(s)| && i != j
    requires Slots(t) == Slots(s)[i := x][j := y]
    requires Apart(x, y) && x.units + y.units == Slots(s)[i].units + Slots(s)[j].units
    requires Inside(x, Floor(s), s.tail) && Inside(y, Floor(s), s.tail)
    requires Shelters(Slots(s)[i], Slots(s)[j], x) && Shelters(Slots(s)[i], Slots(s)[j], y)
    requires t.count == s.count - HoleOne(Slots(s)[i]) - HoleOne(Slots(s)[j]) + HoleOne(x) + HoleOne(y)
    requires t.volume == s.volume - HoleUnits(Slots(s)[i]) - HoleUnits(Slots(s)[j]) + HoleUnits(x) + HoleUnits(y)
    ensures Layout(t)
  {
    hide Slots, HolesMarked, Inside, Shelters;
    var c := Slots(s);
    Rearrange(c, i, j, x, y, Floor(s), s.tail);
    hide Packed;
    SumsAfterUpdate(c, i, x);
    SumsAfterUpdate(c[i := x], j, y);
  }

  /** One descriptor, empty or with the last payload, resizes it. */
  lemma LayoutAfterTail(s: State, t: State, i: nat, x: Slot)
    requires Layout(s) && Bounds(t) && HolesMarked(t)
    requires t.pivot == s.pivot && t.schema == s.schema
    requires i < |Slots(s)| && Slots(t) == Slots(s)[i := x]
    requires Slots(s)[i].units > 0 ==> Slots(s)[i].End() == s.tail
    requires x.units > 0 ==> x.begin == s.tail - Slots(s)[i].units
    requires t.tail == s.tail - Slots(s)[i].units + x.units
    requires t.count == s.count - HoleOne(Slots(s)[i]) + HoleOne(x)
    requires t.volume == s.volume - HoleUnits(Slots(s)[i]) + HoleUnits(x)
    ensures Layout(t)
  {
    hide Slots, HolesMarked;
    AtTail(Slots(s), i, x, Floor(s), s.tail);
    hide Packed;
    SumsAfterUpdate(Slots(s), i, x);
  }

  // ---- Trimming -------------------------------------------------------------------------------

  lemma PopEmptyHole(s: State)
    requires Layout(s) && HoleAt(s, s.head) && HoleSize(s, s.head) == 0
    ensures Layout(Popped(s))
  {
    PoppedSlots(s);
    SlotOf(s, s.head);
    Pop(Slots(s), Floor(s), s.tail);
  }

  /** Drops the first descriptor together with its payload, which ends the data. */
  function PoppedWithData(s: State): State
    requires s.head < |s.area|
  {
    Popped(s).(tail := s.tail - HoleSize(s, s.head), volume := s.volume - HoleSize(s, s.head))
  }

  lemma PopLastHole(s: State)
    requires Layout(s) && GapAt(s, s.head) && HoleEnd(s, s.head) == s.tail
    ensures Layout(PoppedWithData(s))
    ensures Slots(PoppedWithData(s)) == Slots(s)[1..]
  {
    PoppedSlots(s);
    SlotOf(s, s.head);
    HoleBounds(s, s.head);
    Pop(Slots(s), Floor(s), s.tail);
    SameSlots(Popped(s), PoppedWithData(s));
  }

  /** The first descriptors of `s` up to `head`, all of them holes, are gone. */
  ghost predicate Shortened(s: State, r: State) {
    && r.area == s.area && r.pivot == s.pivot && r.schema == s.schema
    && s.head <= r.head <= s.pivot <= |s.area|
    && forall k :: s.head <= k < r.head ==> IsHole(s.area[k])
  }

  /** The cascade of trim_hole ends, keeps the layout and leaves no empty hole in front. */
  lemma {:induction false} TrimKeepsLayout(s: State)
    requires s.head < s.pivot && Layout(Popped(s))
    ensures Layout(TrimHole(s)) && TightHead(TrimHole(s)) && Shortened(Popped(s), TrimHole(s))
    decreases s.pivot - s.head
  {
    hide Packed, Slots, HolesMarked, Holes, Volume;
    var t := Popped(s);
    if t.head < t.pivot && IsHole(t.area[t.head]) {
      if HoleSize(t, t.head) == 0 {
        PopEmptyHole(t);
        TrimKeepsLayout(t);
      } else if HoleEnd(t, t.head) == t.tail {
        PopLastHole(t);
        var u := t.(volume := t.volume - HoleSize(t, t.head), tail := t.tail - HoleSize(t, t.head));
        assert Popped(u) == PoppedWithData(t);
        TrimKeepsLayout(u);
      }
    }
  }

  /** As long as no hole reaches the end of data only empty holes are dropped. */
  lemma {:induction false} TrimWhenClear(s: State)
    requires s.head < s.pivot && Layout(Popped(s)) && Clear(Popped(s))
    ensures TrimHole(s).tail == s.tail && TrimHole(s).volume == s.volume
    ensures forall k: nat :: k < TrimHole(s).head ==> !GapAt(Popped(s), k)
    decreases s.pivot - s.head
  {
    hide Packed, Slots, HolesMarked;
    var t := Popped(s);
    if t.head < t.pivot && IsHole(t.area[t.head]) {
      if HoleSize(t, t.head) == 0 {
        PopEmptyHole(t);
        assert forall k: nat :: GapAt(t, k) ==> k != t.head;
        forall k: nat | GapAt(Popped(t), k) ensures HoleEnd(Popped(t), k) != Popped(t).tail {
          assert GapAt(t, k);
        }
        TrimWhenClear(t);
        forall k: nat | k < TrimHole(t).head ensures !GapAt(t, k) {
          if k > t.head { assert GapAt(t, k) ==> GapAt(Popped(t), k); }
        }
      } else {
        assert GapAt(t, t.head);
      }
    }
  }

  lemma SeparatedPop(t: State)
    requires Separated(t) && t.head < t.pivot
    ensures Separated(Popped(t))
  {
    assert forall k: nat :: GapAt(Popped(t), k) ==> GapAt(t, k);
  }

  lemma GapsPop(t: State, r: State, p: nat)
    requires t.head < t.pivot && (t.head == p || !GapAt(t, t.head))
    requires forall k: nat :: k < r.head && k != p ==> !GapAt(Popped(t), k)
    ensures forall k: nat :: k < r.head && k != p ==> !GapAt(t, k)
  {
    forall k: nat | k < r.head && k != p ensures !GapAt(t, k) {
      if k > t.head { assert GapAt(t, k) ==> GapAt(Popped(t), k); }
    }
  }

  lemma OnlyOneAtTail(t: State, p: nat, q: nat)
    requires Layout(t) && GapAt(t, p) && GapAt(t, q) && HoleEnd(t, p) == HoleEnd(t, q)
    ensures p == q
  {
    if p != q { GapsApart(t, p, q); }
  }

  /** Once the hole that ends the data is dropped no hole reaches the new end. */
  lemma ClearAfterDrop(t: State)
    requires Separated(t) && GapAt(t, t.head)
    ensures Clear(PoppedWithData(t).(tail := HoleBegin(t, t.head)))
  {
    var u := PoppedWithData(t).(tail := HoleBegin(t, t.head));
    forall k: nat | GapAt(u, k) ensures HoleEnd(u, k) != u.tail {
      assert GapAt(t, k) && HoleEnd(t, k) != HoleBegin(t, t.head);
    }
  }

  lemma ClearShortened(t: State, r: State)
    requires Clear(t) && Shortened(t, r) && r.tail == t.tail
    ensures Clear(r)
  {
    forall k: nat | GapAt(r, k) ensures HoleEnd(r, k) != r.tail {
      assert GapAt(t, k);
    }
  }

  lemma SeparatedShortened(t: State, r: State)
    requires Separated(t) && Shortened(t, r)
    ensures Separated(r)
  {
    assert forall k: nat :: GapAt(r, k) ==> GapAt(t, k);
  }

  /** If exactly hole `p` reaches the end of data, and no two holes touch, the cascade either
      stops before `p` or gives the payload of `p` back; then no hole reaches the new end. */
  lemma {:induction false} TrimAtTail(s: State, p: nat)
    requires s.head < s.pivot && Layout(Popped(s)) && Separated(Popped(s))
    requires GapAt(Popped(s), p) && HoleEnd(Popped(s), p) == s.tail
    ensures var r := TrimHole(s);
            if p < r.head then r.tail == HoleBegin(s, p) && Clear(r) && r.volume == s.volume - HoleSize(s, p)
            else r.tail == s.tail && r.volume == s.volume
    ensures forall k: nat :: k < TrimHole(s).head && k != p ==> !GapAt(Popped(s), k)
    decreases s.pivot - s.head
  {
    hide Layout, Separated, Clear, Shortened;
    var t := Popped(s);
    if t.head < t.pivot && IsHole(t.area[t.head]) {
      if HoleSize(t, t.head) == 0 {
        PopEmptyHole(t);
        SeparatedPop(t);
        TrimAtTail(t, p);
        GapsPop(t, TrimHole(t), p);
      } else if HoleEnd(t, t.head) == t.tail {
        OnlyOneAtTail(t, p, t.head);
        PopLastHole(t);
        var u := t.(volume := t.volume - HoleSize(t, t.head), tail := t.tail - HoleSize(t, t.head));
        assert Popped(u) == PoppedWithData(t);
        assert u.tail == HoleBegin(t, t.head);
        ClearAfterDrop(t);
        TrimWhenClear(u);
        TrimKeepsLayout(u);
        ClearShortened(Popped(u), TrimHole(u));
        assert forall k: nat :: GapAt(Popped(u), k) == GapAt(Popped(t), k);
        GapsPop(t, TrimHole(u), p);
      }
    }
  }
}
