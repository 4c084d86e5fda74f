/** The auditor and the allocator agree on what a well-formed tuple is. */
module Agreement {
  import opened Ledger
  import opened Tuples
  import opened Searching
  import opened Compaction
  import opened Abstract
  import opened Stepping
  import opened Audit
  import Compacting
  import Tags

  /** The lengths the ledger goes by are those the headers declare. */
  ghost predicate Declared(s: State) {
    forall k :: s.head <= k < Floor(s) <= |s.area| && HasPayload(s, k) ==> s.area[k].own == UnitsAt(s, k)
  }

  lemma SameChunk(s: State, k: nat)
    requires s.head <= k < Floor(s) <= |s.area| && (HasPayload(s, k) ==> s.area[k].own == UnitsAt(s, k))
    ensures ChunkOf(s, k).units == SlotAt(s, k).units && ChunkOf(s, k).hole == SlotAt(s, k).hole
    ensures ChunkOf(s, k).units > 0 ==> ChunkOf(s, k) == SlotAt(s, k)
  {
    hide UnitsAt;
  }

  // ---- The counters ---------------------------------------------------------------------------------------

  lemma {:induction false} CountersAgree(s: State, k: nat)
    requires Bounds(s) && s.head <= k <= s.pivot
    ensures Holes(Slots(s)[k - s.head..]) == HolesBelow(s, k) && Volume(Slots(s)[k - s.head..]) == VolumeBelow(s, k)
    decreases s.pivot - k
  {
    var c := Slots(s)[k - s.head..];
    if k == s.pivot {
      forall i | 0 <= i < |c| ensures !c[i].hole {
        SlotOf(s, s.pivot + i);
      }
      NoHolesNoSums(c);
    } else {
      SlotOf(s, k);
      assert c[1..] == Slots(s)[k + 1 - s.head..];
      CountersAgree(s, k + 1);
    }
  }

  lemma {:induction false} NoHolesNoSums(c: seq<Slot>)
    requires forall i :: 0 <= i < |c| ==> !c[i].hole
    ensures Holes(c) == 0 && Volume(c) == 0
    decreases |c|
  {
    if c != [] { NoHolesNoSums(c[1..]); }
  }

  // ---- Soundness --------------------------------------------------------------------------------------------

  lemma AcceptedPacked(s: State)
    requires Bounds(s) && Declared(s) && AllFine(s, s.head, Floor(s))
             && (if SomeChunk(s) then Exact(s) else s.tail == Floor(s))
    ensures Packed(Slots(s), Floor(s), s.tail)
  {
    AcceptedApart(s);
    AcceptedWithin(s);
    forall u | Floor(s) <= u < s.tail ensures u in Owned(Slots(s)) {
      AcceptedCovered(s, u);
    }
    hide Slots, AllFine, Exact, Declared;
    PackedIfCovered(Slots(s), Floor(s), s.tail);
  }

  lemma AcceptedApart(s: State)
    requires Bounds(s) && Declared(s) && AllFine(s, s.head, Floor(s))
    ensures Disjoint(Slots(s))
  {
    hide UnitsAt, ChunkOf, Fine;
    forall i, j | 0 <= i < j < |Slots(s)| ensures Apart(Slots(s)[i], Slots(s)[j]) {
      SameChunk(s, s.head + i);
      SameChunk(s, s.head + j);
      assert Apart(ChunkOf(s, s.head + i), ChunkOf(s, s.head + j));
    }
  }

  lemma AcceptedWithin(s: State)
    requires Bounds(s) && Declared(s) && AllFine(s, s.head, Floor(s)) && (SomeChunk(s) ==> Exact(s))
    ensures Within(Slots(s), Floor(s), s.tail)
  {
    hide UnitsAt, ChunkOf;
    forall i | 0 <= i < |Slots(s)| && Slots(s)[i].units > 0
      ensures Floor(s) <= Slots(s)[i].begin && Slots(s)[i].End() <= s.tail
    {
      SameChunk(s, s.head + i);
      assert Fine(s, s.head + i);
    }
  }

  lemma AcceptedCovered(s: State, u: int)
    requires Bounds(s) && Declared(s) && AllFine(s, s.head, Floor(s))
             && (if SomeChunk(s) then Exact(s) else s.tail == Floor(s))
    requires Floor(s) <= u < s.tail
    ensures u in Owned(Slots(s))
  {
    assert OwnedIn(s, s.head, Floor(s), u);
    hide UnitsAt, ChunkOf, AllFine, Exact, SomeChunk;
    var k := OwnerOf(s, s.head, Floor(s), u);
    assert HasPayload(s, k) ==> s.area[k].own == UnitsAt(s, k);
    hide Declared;
    SameChunk(s, k);
    SlotOf(s, k);
    OwnedMeaning(Slots(s), u);
    assert Owns(Slots(s)[k - s.head], u);
  }

  lemma OwnerOf(s: State, j: nat, m: int, u: int) returns (k: nat)
    requires OwnedIn(s, j, m, u)
    ensures j <= k < m <= |s.area| && Owns(ChunkOf(s, k), u)
  {
    k :| 0 <= j <= k < m <= |s.area| && Owns(ChunkOf(s, k), u);
  }

  /** Whatever passes tuple_rw::audit has the layout of the allocator, the values its headers
      declare, exact junk counters and no two neighbouring holes, exactly when it has a chunk or
      ends with the preplaced part. The one thing the auditor cannot see is free space lost past
      the preplaced part of a tuple without any chunk. */
  lemma AuditSound(s: State)
    requires AcceptableRw(s) && Declared(s)
    ensures Layout(s) && Written(s) && Separated(s) <==> SomeChunk(s) || s.tail == Floor(s)
  {
    hide AllFine, Exact, Declared, Layout, Written, Separated, SomeChunk;
    if SomeChunk(s) || s.tail == Floor(s) {
      AcceptedIsSound(s);
    } else if Layout(s) {
      NoChunkNoData(s);
    }
  }

  lemma NoChunkNoData(s: State)
    requires Layout(s) && Declared(s) && !SomeChunk(s)
    ensures s.tail == Floor(s)
  {
    hide ChunkOf, UnitsAt, HolesMarked, Packed;
    if Floor(s) < s.tail {
      assert Packed(Slots(s), Floor(s), s.tail);
      Partition(Slots(s), Floor(s), s.tail, Floor(s));
      var i :| 0 <= i < |Slots(s)| && Owns(Slots(s)[i], Floor(s));
      SameChunk(s, s.head + i);
    }
    assert Floor(s) <= s.tail;
  }

  lemma AcceptedIsSound(s: State)
    requires AcceptableRw(s) && Declared(s) && (SomeChunk(s) || s.tail == Floor(s))
    ensures Layout(s) && Written(s) && Separated(s)
  {
    AcceptedPacked(s);
    CountersAgree(s, s.head);
    assert Slots(s)[0..] == Slots(s);
    AcceptedRest(s);
    hide AllFine, Exact, Declared, Packed, Slots;
    if !SomeChunk(s) { NoChunkSeparated(s); }
  }

  lemma AcceptedRest(s: State)
    requires Bounds(s) && Declared(s) && AllFine(s, s.head, Floor(s))
    ensures HolesMarked(s) && Written(s)
  {
    hide UnitsAt, ChunkOf;
    forall k: nat | s.head <= k < Floor(s) && HasPayload(s, k) ensures UnitsAt(s, k) == s.area[k].own > 0 {
      assert Fine(s, k);
    }
    forall k: nat | s.head <= k < s.pivot && IsHole(s.area[k]) ensures s.area[k].tag.id == 0 <==> s.area[k].rel == 0 {
      assert Fine(s, k);
    }
  }

  lemma NoChunkSeparated(s: State)
    requires s.head <= s.pivot && Floor(s) <= |s.area| && !SomeChunk(s)
    ensures Separated(s)
  {
    forall k: nat | s.head <= k < s.pivot ensures !GapAt(s, k) {
      assert ChunkOf(s, k).units == 0;
    }
  }

  /** Free space the auditor does not miss: nothing but the preplaced part, and a unit after it. */
  lemma LostSpaceAccepted()
    ensures var s := State([EMPTY_HOLE], 0, 0, 1, 0, 0, []);
            AcceptableRw(s) && Declared(s) && !SomeChunk(s) && !Layout(s)
  {
    var s := State([EMPTY_HOLE], 0, 0, 1, 0, 0, []);
    assert Slots(s) == [];
  }

  // ---- Completeness ---------------------------------------------------------------------------------------------

  /** Fixed-size fields have payload. */
  ghost predicate Furnished(s: State) {
    forall k :: s.head <= k < s.pivot <= |s.area| && Refers(s, k) && !IsStretchy(s.area[k].tag.genus)
        ==> s.area[k].rel != 0
  }

  /** The same, said of the fields the user sees. */
  ghost predicate Present(f: Field) { IsStretchy(f.tag.genus) || !f.value.Nil? }

  ghost predicate AllPresent(v: View) { forall f: Field :: f in v.loose ==> Present(f) }

  lemma {:induction false} BagHolds(s: State, k: nat, f: Field)
    requires k <= s.pivot <= |s.area| && f in Bag(s, k)
    ensures exists l: nat :: k <= l < s.pivot && IsLive(s, l) && f == FieldAt(s, l)
    decreases s.pivot - k
  {
    hide ValueAt;
    if k < s.pivot && f !in Piece(s, k) {
      BagHolds(s, k + 1, f);
    }
  }

  lemma PresentAt(s: State, k: nat)
    requires Steady(s) && s.head <= k < s.pivot && k < |s.area| && !IsHole(s.area[k])
    ensures Present(FieldAt(s, k)) <==> (Refers(s, k) && !IsStretchy(s.area[k].tag.genus) ==> s.area[k].rel != 0)
  {
    if Refers(s, k) && s.area[k].rel != 0 {
      OrderlyChunk(s, k);
      SameChunk(s, k);
      hide UnitsAt;
    }
  }

  /** A tuple is furnished exactly when it looks so. */
  lemma FurnishedIsSeen(s: State)
    requires Steady(s) && Bounds(s)
    ensures Furnished(s) <==> AllPresent(ViewOf(s))
  {
    hide Steady, Present, ValueAt;
    if Furnished(s) {
      forall f: Field | f in ViewOf(s).loose ensures Present(f) {
        BagHolds(s, 0, f);
        var k: nat :| k < s.pivot && IsLive(s, k) && f == FieldAt(s, k);
        PresentAt(s, k);
      }
    }
    if AllPresent(ViewOf(s)) {
      forall k: nat | s.head <= k < s.pivot && Refers(s, k) && !IsStretchy(s.area[k].tag.genus)
        ensures s.area[k].rel != 0
      {
        PieceInBag(s, k);
        assert FieldAt(s, k) in Piece(s, k);
        PresentAt(s, k);
      }
    }
  }

  /** What the audit is about: the layout, the lengths declared, and no two holes side by side. */
  ghost predicate Orderly(s: State) { Layout(s) && Written(s) && Separated(s) }

  lemma OrderlyChunk(s: State, k: nat)
    requires Orderly(s) && s.head <= k < Floor(s) && k < |s.area|
    ensures ChunkOf(s, k).units > 0
            ==> ChunkOf(s, k) == SlotAt(s, k) && Floor(s) <= SlotAt(s, k).begin && SlotAt(s, k).End() <= s.tail
    ensures ChunkOf(s, k).units == SlotAt(s, k).units
  {
    SlotOf(s, k);
    SameChunk(s, k);
    hide UnitsAt, ChunkOf;
    assert Slots(s)[k - s.head].units > 0 ==> Floor(s) <= SlotAt(s, k).begin;
  }

  lemma OrderlyFine(s: State)
    requires Orderly(s) && Furnished(s)
    ensures AllFine(s, s.head, Floor(s))
  {
    BoundsOf(s);
    forall k | s.head <= k < Floor(s) ensures Fine(s, k) {
      OrderlyFineAt(s, k);
    }
    hide UnitsAt, ChunkOf, Fine;
    forall k, l | s.head <= k < l < Floor(s) ensures Apart(ChunkOf(s, k), ChunkOf(s, l)) {
      OrderlyChunk(s, k);
      OrderlyChunk(s, l);
      SlotOf(s, k);
      SlotOf(s, l);
      ApartAt(Slots(s), k - s.head, l - s.head);
    }
  }

  lemma OrderlyFineAt(s: State, k: nat)
    requires Orderly(s) && Furnished(s) && s.head <= k < Floor(s) && k < |s.area|
    ensures Fine(s, k)
  {
    OrderlyChunk(s, k);
    hide UnitsAt;
  }

  lemma OrderlyExact(s: State)
    requires Orderly(s)
    ensures Exact(s)
  {
    BoundsOf(s);
    hide Orderly, OwnedIn;
    forall k: nat | s.head <= k < Floor(s) && ChunkOf(s, k).units > 0 ensures Floor(s) <= ChunkOf(s, k).begin {
      OrderlyChunk(s, k);
    }
    forall u | Floor(s) <= u < s.tail ensures OwnedIn(s, s.head, Floor(s), u) {
      OrderlyOwned(s, u);
    }
  }

  lemma OrderlyOwned(s: State, u: int)
    requires Orderly(s) && Floor(s) <= u < s.tail
    ensures OwnedIn(s, s.head, Floor(s), u)
  {
    BoundsOf(s);
    var c := Slots(s);
    assert Packed(c, Floor(s), s.tail);
    hide Packed, Slots, Steady, OwnedIn;
    Partition(c, Floor(s), s.tail, u);
    var i :| 0 <= i < |c| && Owns(c[i], u);
    SlotOwner(s, i, u);
  }

  lemma SlotOwner(s: State, i: nat, u: int)
    requires Orderly(s) && Bounds(s) && i < |Slots(s)| && Owns(Slots(s)[i], u)
    ensures OwnedIn(s, s.head, Floor(s), u)
  {
    hide Orderly, ChunkOf;
    OrderlyChunk(s, s.head + i);
    assert Owns(ChunkOf(s, s.head + i), u);
  }

  lemma OrderlyCounts(s: State)
    requires Orderly(s)
    ensures s.head <= s.pivot <= |s.area| && s.count == HolesBelow(s, s.head) && s.volume == VolumeBelow(s, s.head)
    ensures 0 <= s.count <= s.pivot - s.head && 0 <= s.volume <= s.tail - Floor(s)
  {
    BoundsOf(s);
    CountersAgree(s, s.head);
    assert Slots(s)[0..] == Slots(s);
    VolumeAtMostTotal(Slots(s));
    Compacting.CountInIndex(s);
  }

  lemma OrderlyPasses(s: State)
    requires Orderly(s)
    ensures AcceptableRw(s) <==> Furnished(s) && InLimit(s)
  {
    BoundsOf(s);
    hide Exact, Written, Layout, References, Separated, SomeChunk, Fine, ChunkOf;
    if Furnished(s) && InLimit(s) {
      OrderlyFine(s);
      OrderlyExact(s);
      OrderlyCounts(s);
    }
    if AcceptableRw(s) {
      AcceptedFurnished(s);
    }
  }

  /** A tuple the allocator leaves passes tuple_rw::audit, junk counters and neighbouring holes
      included, exactly when its fixed-size fields have payload and its descriptors and references
      are within the limit. */
  lemma AuditComplete(s: State)
    requires Steady(s)
    ensures AcceptableRw(s) <==> Furnished(s) && InLimit(s)
  {
    hide Layout, Written, Separated, Clear, TightHead, Furnished, AcceptableRw, References;
    OrderlyPasses(s);
  }

  /** The tuple without what may have been lost past the preplaced part when there is no chunk. */
  ghost function WithoutLost(s: State): State { if SomeChunk(s) then s else s.(tail := Floor(s)) }

  /** Without a chunk the audit does not look at the end of data. */
  lemma LostIsOverlooked(s: State)
    requires Bounds(s) && !SomeChunk(s)
    ensures AcceptableRw(s) ==> AcceptableRw(WithoutLost(s))
    ensures AcceptableRw(WithoutLost(s)) ==> AcceptableRw(s)
  {
    var u := WithoutLost(s);
    SameWithoutTail(s, u);
    hide AllFine, Exact, HolesBelow, VolumeBelow, References, ChunkOf;
    if VolumeBelow(s, s.head) > 0 { SomeGapBelow(s, s.head); }
  }

  lemma {:induction false} SomeGapBelow(s: State, k: nat)
    requires s.head <= k <= s.pivot <= Floor(s) <= |s.area| && VolumeBelow(s, k) > 0
    ensures SomeChunk(s)
    decreases s.pivot - k
  {
    if IsHole(s.area[k]) && s.area[k].tag.id > 0 {
      assert ChunkOf(s, k).units > 0;
    } else {
      SomeGapBelow(s, k + 1);
    }
  }

  lemma SameWithoutTail(s: State, u: State)
    requires Bounds(s) && !SomeChunk(s) && u == s.(tail := Floor(s))
    ensures AllFine(u, s.head, Floor(s)) <==> AllFine(s, s.head, Floor(s))
    ensures !SomeChunk(u)
    ensures HolesBelow(u, s.head) == HolesBelow(s, s.head) && VolumeBelow(u, s.head) == VolumeBelow(s, s.head)
  {
    hide UnitsAt;
    forall k: nat | s.head <= k < Floor(s)
      ensures ChunkOf(u, k) == ChunkOf(s, k) && ChunkOf(s, k).units == 0 && (Fine(u, k) <==> Fine(s, k))
    {
      SameButTail(s, u, k);
    }
    SameHoles(s, u, s.head);
    hide Fine, ChunkOf;
  }

  lemma SameButTail(s: State, u: State, k: nat)
    requires u == s.(tail := Floor(s)) && k < |s.area|
    ensures ChunkOf(u, k) == ChunkOf(s, k) && UnitsAt(u, k) == UnitsAt(s, k)
    ensures ChunkOf(s, k).units == 0 ==> (Fine(u, k) <==> Fine(s, k))
  {
    hide BruttoUnits, LooseUnits;
  }

  lemma {:induction false} SameHoles(s: State, u: State, k: nat)
    requires u == s.(tail := Floor(s)) && k <= s.pivot <= |s.area|
    ensures HolesBelow(u, k) == HolesBelow(s, k) && VolumeBelow(u, k) == VolumeBelow(s, k)
    decreases s.pivot - k
  {
    if k < s.pivot { SameHoles(s, u, k + 1); }
  }

  /** The audit accepts exactly the tuples that are in order, with payload for their fixed-size fields
      and within the limit, but for what is lost past the preplaced part when there is no chunk. */
  lemma AuditIff(s: State)
    requires Declared(s)
    ensures AcceptableRw(s)
            <==> Bounds(s) && var u := WithoutLost(s); Orderly(u) && Furnished(u) && InLimit(u)
  {
    hide Layout, Written, Separated, Furnished, References, AllFine, Exact;
    if Bounds(s) {
      var u := WithoutLost(s);
      if !SomeChunk(s) { LostIsOverlooked(s); }
      DeclaredToo(s, u);
      if AcceptableRw(u) {
        AuditSound(u);
        AcceptedFurnished(u);
      }
      if Orderly(u) { OrderlyPasses(u); }
    }
  }

  lemma DeclaredToo(s: State, u: State)
    requires Declared(s) && (u == s || (u == s.(tail := Floor(s)) && !SomeChunk(s)))
    ensures Declared(u) && (SomeChunk(u) || u.tail == Floor(u) || u == s)
  {
    hide UnitsAt;
    forall k | u.head <= k < Floor(u) <= |u.area| && HasPayload(u, k) ensures u.area[k].own == UnitsAt(u, k) {
      if u != s { SameButTail(s, u, k); }
    }
  }

  lemma AcceptedFurnished(s: State)
    requires AllFine(s, s.head, Floor(s))
    ensures Furnished(s)
  {
    hide UnitsAt, ChunkOf;
    forall k: nat | s.head <= k < s.pivot <= |s.area| && Refers(s, k) && !IsStretchy(s.area[k].tag.genus)
      ensures s.area[k].rel != 0
    {
      assert Fine(s, k);
    }
  }

  /** In a tuple with at most 2047 units of payload every hole's size fits into its descriptor. */
  lemma HoleSizesFit(s: State, k: nat)
    requires Layout(s) && s.tail - Floor(s) < Tags.ID_SPAN && HoleAt(s, k)
    ensures Tags.DescriptorId(Tags.Descriptor(HOLE, HoleSize(s, k))) == HoleSize(s, k)
    ensures Tags.DescriptorGenus(Tags.Descriptor(HOLE, HoleSize(s, k))) == HOLE
  {
    HoleBounds(s, k);
    Tags.HoleSizeFits(HoleSize(s, k));
  }
}
