/** The second step of compactify: chunks are collected, sorted and moved down. */
module Defragmenting {
  import opened Ledger
  import opened Tuples
  import opened Searching
  import opened Compaction
  import opened Compacting
  import opened Moving

  /** No holes in the index, and live chunks that leave `volume` units unused. */
  ghost predicate Sparse(s: State) {
    && Bounds(s) && NoHoles(s) && s.count == 0 && s.volume >= 0 && Written(s)
    && Disjoint(Slots(s)) && Within(Slots(s), Floor(s), s.tail)
    && Total(Slots(s)) == s.tail - Floor(s) - s.volume
  }

  // ---- The items ------------------------------------------------------------------------------------

  /** Each item describes the chunk of its referrer, and no referrer has two. */
  ghost predicate ItemsOf(s: State, v: seq<Item>)
    requires Bounds(s)
  {
    && (forall i :: 0 <= i < |v| ==>
          s.head <= v[i].referrer < Floor(s) && HasPayload(s, v[i].referrer) && v[i] == ItemAt(s, v[i].referrer))
    && (forall i, j :: 0 <= i < j < |v| ==> v[i].referrer != v[j].referrer)
  }

  ghost predicate Above(v: seq<Item>, k: int) { forall i :: 0 <= i < |v| ==> v[i].referrer >= k }
  ghost predicate Below(v: seq<Item>, k: int) { forall i :: 0 <= i < |v| ==> v[i].referrer < k }

  lemma ItemsConcat(s: State, a: seq<Item>, b: seq<Item>, k: int)
    requires Bounds(s) && ItemsOf(s, a) && ItemsOf(s, b)
    requires (Above(a, k) && Below(b, k)) || (Below(a, k) && Above(b, k))
    ensures ItemsOf(s, a + b)
  {
    var v := a + b;
    forall i, j | 0 <= i < j < |v| ensures v[i].referrer != v[j].referrer {
      if j < |a| {
      } else if i >= |a| {
        assert b[i - |a|].referrer != b[j - |a|].referrer;
      } else {
        assert v[i] == a[i] && v[j] == b[j - |a|];
      }
    }
  }

  lemma ItemsSingle(s: State, k: nat)
    requires Bounds(s) && s.head <= k < Floor(s) && HasPayload(s, k)
    ensures ItemsOf(s, [ItemAt(s, k)])
  {
  }

  lemma {:induction false} RefItemsAre(s: State, k: nat)
    requires Bounds(s) && s.pivot <= k <= Floor(s)
    ensures var v := RefItems(s, k);
            && ItemsOf(s, v) && Above(v, k)
            && forall l :: k <= l < Floor(s) && HasPayload(s, l) ==> ItemAt(s, l) in v
    decreases Floor(s) - k
  {
    if k < Floor(s) {
      var w := RefItems(s, k + 1);
      RefItemsAre(s, k + 1);
      if HasPayload(s, k) {
        ItemsSingle(s, k);
        hide ItemsOf;
        ItemsConcat(s, [ItemAt(s, k)], w, k + 1);
      }
    }
  }

  lemma {:induction false} LooseItemsAre(s: State, k: nat)
    requires Bounds(s) && s.head <= k <= s.pivot
    ensures var v := LooseItems(s, k);
            && ItemsOf(s, v) && Below(v, k)
            && forall l :: s.head <= l < k && HasPayload(s, l) ==> ItemAt(s, l) in v
    decreases k
  {
    if k > s.head {
      var w := LooseItems(s, k - 1);
      LooseItemsAre(s, k - 1);
      if HasPayload(s, k - 1) {
        ItemsSingle(s, k - 1);
        hide ItemsOf;
        ItemsConcat(s, [ItemAt(s, k - 1)], w, k - 1);
      }
    }
  }

  function Collected(s: State): seq<Item>
    requires Bounds(s)
  {
    RefItems(s, s.pivot) + LooseItems(s, s.pivot)
  }

  lemma CollectedAre(s: State)
    requires Bounds(s)
    ensures ItemsOf(s, Collected(s))
    ensures forall l :: s.head <= l < Floor(s) && HasPayload(s, l) ==> ItemAt(s, l) in Collected(s)
  {
    RefItemsAre(s, s.pivot);
    LooseItemsAre(s, s.pivot);
    hide ItemsOf;
    ItemsConcat(s, RefItems(s, s.pivot), LooseItems(s, s.pivot), s.pivot);
  }

  lemma PayloadSlot(s: State, k: nat)
    requires Sparse(s) && s.head <= k < Floor(s)
    ensures HasPayload(s, k) ==> && SlotAt(s, k) == Slot(false, Payload(s, k), UnitsAt(s, k)) && UnitsAt(s, k) > 0
                                 && Floor(s) <= Payload(s, k) && Payload(s, k) + UnitsAt(s, k) <= s.tail
    ensures !HasPayload(s, k) ==> SlotAt(s, k).units == 0
  {
    SlotOf(s, k);
  }

  lemma ItemLength(s: State, k: nat)
    requires k < |s.area|
    ensures ItemAt(s, k).length == UnitsAt(s, k)
  {
  }

  lemma SumStep(a: seq<Item>, b: seq<Item>)
    requires |a| <= 1
    ensures SumLengths(a + b) == SumLengths(b) + (if |a| == 1 then a[0].length else 0)
  {
    if |a| == 1 { assert (a + b)[1..] == b; } else { assert a + b == b; }
  }

  lemma {:induction false} RefItemsTotal(s: State, k: nat)
    requires Sparse(s) && s.pivot <= k <= Floor(s)
    ensures SumLengths(RefItems(s, k)) == Total(Slots(s)[k - s.head..])
    decreases Floor(s) - k
  {
    hide Sparse, Slots, SlotAt, HasPayload, ItemAt;
    SparseBounds(s);
    if k < Floor(s) {
      RefItemsTotal(s, k + 1);
      PayloadSlot(s, k);
      SlotOf(s, k);
      var c := Slots(s)[k - s.head..];
      assert c[0] == SlotAt(s, k) && c[1..] == Slots(s)[k + 1 - s.head..];
      ItemLength(s, k);
      SumStep(if HasPayload(s, k) then [ItemAt(s, k)] else [], RefItems(s, k + 1));
    }
  }

  lemma SparseBounds(s: State)
    requires Sparse(s)
    ensures Bounds(s)
  {
  }

  lemma TotalNext(c: seq<Slot>, i: nat)
    requires i < |c|
    ensures Total(c[..i + 1]) == Total(c[..i]) + c[i].units
  {
    assert c[..i + 1] == c[..i] + [c[i]];
    TotalConcat(c[..i], [c[i]]);
  }

  lemma {:induction false} LooseItemsTotal(s: State, k: nat)
    requires Sparse(s) && s.head <= k <= s.pivot
    ensures SumLengths(LooseItems(s, k)) == Total(Slots(s)[..k - s.head])
    decreases k
  {
    hide Sparse, Slots, SlotAt, HasPayload, ItemAt;
    SparseBounds(s);
    if k > s.head {
      LooseItemsTotal(s, k - 1);
      PayloadSlot(s, k - 1);
      SlotOf(s, k - 1);
      TotalNext(Slots(s), k - 1 - s.head);
      ItemLength(s, k - 1);
      SumStep(if HasPayload(s, k - 1) then [ItemAt(s, k - 1)] else [], LooseItems(s, k - 1));
    }
  }

  lemma {:induction false} SumConcat(a: seq<Item>, b: seq<Item>)
    ensures SumLengths(a + b) == SumLengths(a) + SumLengths(b)
    decreases |a|
  {
    if a == [] {
      assert a + b == b;
    } else {
      assert (a + b)[1..] == a[1..] + b;
      SumConcat(a[1..], b);
    }
  }

  lemma CollectedTotal(s: State)
    requires Sparse(s)
    ensures Bounds(s) && SumLengths(Collected(s)) == Total(Slots(s))
  {
    SparseBounds(s);
    hide Sparse;
    RefItemsTotal(s, s.pivot);
    LooseItemsTotal(s, s.pivot);
    SumConcat(RefItems(s, s.pivot), LooseItems(s, s.pivot));
    TotalConcat(Slots(s)[..s.pivot - s.head], Slots(s)[s.pivot - s.head..]);
    assert Slots(s) == Slots(s)[..s.pivot - s.head] + Slots(s)[s.pivot - s.head..];
  }

  lemma ChunksApart(s: State, k: nat, l: nat)
    requires Sparse(s) && s.head <= k < Floor(s) && s.head <= l < Floor(s) && k != l && HasPayload(s, k)
             && HasPayload(s, l)
    ensures ItemsApart(ItemAt(s, k), ItemAt(s, l))
  {
    PayloadSlot(s, k);
    PayloadSlot(s, l);
    SlotOf(s, k);
    SlotOf(s, l);
    ApartAt(Slots(s), k - s.head, l - s.head);
  }

  lemma ItemsScattered(s: State, v: seq<Item>)
    requires Sparse(s) && Bounds(s) && ItemsOf(s, v)
    ensures Scattered(v, Floor(s), s.tail)
  {
    hide Sparse, HasPayload;
    forall i | 0 <= i < |v| ensures v[i].length > 0 && Floor(s) <= v[i].begin && EndOf(v[i]) <= s.tail {
      PayloadSlot(s, v[i].referrer);
    }
    forall i, j | 0 <= i < j < |v| ensures ItemsApart(v[i], v[j]) {
      ChunksApart(s, v[i].referrer, v[j].referrer);
    }
  }

  /** The vector compactify works through. */
  function Lined(s: State): seq<Item>
    requires Bounds(s)
  {
    SortItems(Collected(s))
  }

  lemma SparseTotal(s: State)
    requires Sparse(s)
    ensures Bounds(s) && Total(Slots(s)) == s.tail - Floor(s) - s.volume
  {
    hide Slots;
  }

  lemma LinedUp(s: State)
    requires Sparse(s)
    ensures Bounds(s) && Chain(Lined(s), Floor(s), s.tail) && Referrers(Lined(s), Floor(s))
    ensures SumLengths(Lined(s)) == s.tail - Floor(s) - s.volume
    ensures forall l :: s.head <= l < Floor(s) && HasPayload(s, l) ==> ItemAt(s, l) in Lined(s)
    ensures forall x :: x in Lined(s) ==>
              s.head <= x.referrer < Floor(s) && HasPayload(s, x.referrer) && x == ItemAt(s, x.referrer)
  {
    hide Sparse, Slots, HasPayload, Collected, ItemAt;
    SparseBounds(s);
    CollectedTotal(s);
    SparseTotal(s);
    CollectedAre(s);
    ItemsScattered(s, Collected(s));
    SortLinesUp(Collected(s), Floor(s), s.tail);
    var v := Lined(s);
    forall x | x in v ensures s.head <= x.referrer < Floor(s) && HasPayload(s, x.referrer)
        && x == ItemAt(s, x.referrer) {
      var i :| 0 <= i < |Collected(s)| && Collected(s)[i] == x;
    }
    forall i, j | 0 <= i < j < |v| ensures v[i].referrer != v[j].referrer {
      assert v[i] in v && v[j] in v;
      assert EndOf(v[i]) <= v[j].begin;
    }
    forall i | 0 <= i < |v| ensures v[i].referrer < Floor(s) { assert v[i] in v; }
  }

  // ---- The state afterwards -----------------------------------------------------------------------------

  function Settled(s: State, area: seq<Unit>): State {
    s.(area := area, tail := s.tail - s.volume, volume := 0)
  }

  /** What has become of each referrer, and that nothing else has changed. */
  ghost predicate Followed(s: State, area: seq<Unit>)
    requires Bounds(s)
  {
    && |area| == |s.area|
    && (forall k :: s.head <= k < Floor(s) && HasPayload(s, k) ==>
          exists i :: 0 <= i < |Lined(s)| && Lined(s)[i] == ItemAt(s, k) &&
                      Arrived(s.area, area, Lined(s)[i], Dest(Lined(s), i, Floor(s))))
    && (forall k :: 0 <= k < Floor(s) && !(s.head <= k && HasPayload(s, k)) ==> area[k] == s.area[k])
  }

  lemma AllFollowed(s: State)
    requires Sparse(s)
    ensures Bounds(s)
    ensures var r := MoveAll(s.area, Lined(s), Floor(s), s.tail);
            r.Some? && Followed(s, r.value)
  {
    LinedUp(s);
    hide Sparse, HasPayload, Lined, Chain, Referrers, ItemAt;
    var v := Lined(s);
    MoveAllMoves(s.area, v, Floor(s), s.tail, Floor(s));
    var r := MoveAll(s.area, v, Floor(s), s.tail).value;
    forall k | s.head <= k < Floor(s) && HasPayload(s, k)
      ensures exists i :: 0 <= i < |v| && v[i] == ItemAt(s, k) && Arrived(s.area, r, v[i], Dest(v, i, Floor(s)))
    {
      assert ItemAt(s, k) in v;
      var i :| 0 <= i < |v| && v[i] == ItemAt(s, k);
      assert Arrived(s.area, r, v[i], Dest(v, i, Floor(s)));
    }
    forall k | 0 <= k < Floor(s) && !(s.head <= k && HasPayload(s, k)) ensures r[k] == s.area[k] {
      forall i | 0 <= i < |v| ensures v[i].referrer != k { assert v[i] in v; }
    }
  }

  /** The chunk of `k` is at `dest` now, item `i` in line. */
  ghost predicate MovedTo(s: State, area: seq<Unit>, k: nat, i: nat, dest: int)
    requires Bounds(s) && k < |s.area|
  {
    && i < |Lined(s)| && Lined(s)[i] == ItemAt(s, k) && dest == Dest(Lined(s), i, Floor(s))
    && Floor(s) <= dest <= Payload(s, k) && dest + UnitsAt(s, k) <= s.tail - s.volume
    && |area| == |s.area| && area[k] == s.area[k].(rel := dest - k)
    && Payload(s, k) + UnitsAt(s, k) <= |s.area|
    && area[dest..dest + UnitsAt(s, k)] == s.area[Payload(s, k)..Payload(s, k) + UnitsAt(s, k)]
  }

  lemma ItemOf(s: State, area: seq<Unit>, k: nat) returns (i: nat)
    requires Bounds(s) && Followed(s, area) && s.head <= k < Floor(s) && HasPayload(s, k)
    ensures i < |Lined(s)| && Lined(s)[i] == ItemAt(s, k)
            && Arrived(s.area, area, Lined(s)[i], Dest(Lined(s), i, Floor(s)))
  {
    hide Lined, HasPayload, ItemAt;
    i :| 0 <= i < |Lined(s)| && Lined(s)[i] == ItemAt(s, k) &&
         Arrived(s.area, area, Lined(s)[i], Dest(Lined(s), i, Floor(s)));
  }

  lemma WhereTo(s: State, area: seq<Unit>, k: nat) returns (i: nat, dest: int)
    requires Sparse(s) && Bounds(s) && Followed(s, area) && s.head <= k < Floor(s) && HasPayload(s, k)
    ensures k < |s.area| && MovedTo(s, area, k, i, dest)
  {
    hide Sparse, Lined, Followed, HasPayload, UnitsAt, Chain, Referrers;
    LinedUp(s);
    PayloadSlot(s, k);
    i := ItemOf(s, area, k);
    dest := Dest(Lined(s), i, Floor(s));
    DestBounds(Lined(s), i, Floor(s), s.tail);
  }

  lemma MovedSlot(s: State, area: seq<Unit>, k: nat, i: nat, dest: int)
    requires Sparse(s) && Bounds(s) && s.head <= k < Floor(s) && HasPayload(s, k) && MovedTo(s, area, k, i, dest)
    ensures SlotAt(Settled(s, area), k) == Slot(false, dest, UnitsAt(s, k))
  {
    PayloadSlot(s, k);
    hide Sparse, UnitsAt, Lined;
  }

  lemma EmptySlot(s: State, area: seq<Unit>, k: nat)
    requires Bounds(s) && Followed(s, area) && s.head <= k < Floor(s) && !HasPayload(s, k)
             && (k < s.pivot ==> !IsHole(s.area[k]))
    ensures |area| == |s.area| && SlotAt(Settled(s, area), k) == SlotAt(s, k) == NOTHING
  {
    hide Lined;
  }

  lemma SettledSlot(s: State, area: seq<Unit>, k: nat)
    requires Sparse(s) && Bounds(s) && Followed(s, area) && s.head <= k < Floor(s)
    ensures Bounds(Settled(s, area))
    ensures SlotAt(Settled(s, area), k).units == SlotAt(s, k).units && !SlotAt(Settled(s, area), k).hole
    ensures SlotAt(s, k).hole == false
    ensures SlotAt(s, k).units > 0 ==>
              Floor(s) <= SlotAt(Settled(s, area), k).begin && SlotAt(Settled(s, area), k).End() <= s.tail - s.volume
  {
    hide Sparse, Followed, HasPayload, UnitsAt, SlotAt, Lined;
    SparseTotals(s);
    FollowedLength(s, area);
    if HasPayload(s, k) {
      PayloadSlot(s, k);
      var i, dest := WhereTo(s, area, k);
      MovedSlot(s, area, k, i, dest);
    } else {
      EmptySlot(s, area, k);
    }
  }

  lemma SparseTotals(s: State)
    requires Sparse(s)
    ensures Bounds(s) && s.volume >= 0 && Floor(s) <= s.tail - s.volume
    ensures forall k :: s.head <= k < s.pivot ==> !IsHole(s.area[k])
  {
  }

  lemma SettledApart(s: State, area: seq<Unit>, k: nat, l: nat)
    requires Sparse(s) && Bounds(s) && Followed(s, area) && s.head <= k < Floor(s) && s.head <= l < Floor(s) && k != l
    ensures Apart(SlotAt(Settled(s, area), k), SlotAt(Settled(s, area), l))
  {
    hide Sparse, Followed, HasPayload, UnitsAt, SlotAt;
    FollowedLength(s, area);
    SettledSlot(s, area, k);
    SettledSlot(s, area, l);
    PayloadSlot(s, k);
    PayloadSlot(s, l);
    if HasPayload(s, k) && HasPayload(s, l) {
      SettledChunksApart(s, area, k, l);
    }
  }

  lemma SettledChunksApart(s: State, area: seq<Unit>, k: nat, l: nat)
    requires Sparse(s) && Bounds(s) && Followed(s, area) && s.head <= k < Floor(s) && s.head <= l < Floor(s) && k != l
    requires HasPayload(s, k) && HasPayload(s, l) && |area| == |s.area|
    ensures Apart(SlotAt(Settled(s, area), k), SlotAt(Settled(s, area), l))
  {
    hide Sparse, Followed, HasPayload, UnitsAt, SlotAt, Chain, Referrers, Lined;
    var i, x := WhereTo(s, area, k);
    var j, y := WhereTo(s, area, l);
    MovedSlot(s, area, k, i, x);
    MovedSlot(s, area, l, j, y);
    LinedUp(s);
    ItemLength(s, k);
    ItemLength(s, l);
    DestBounds(Lined(s), i, Floor(s), s.tail);
    DestBounds(Lined(s), j, Floor(s), s.tail);
  }

  lemma SettledSlots(s: State, area: seq<Unit>)
    requires Sparse(s) && Bounds(s) && Followed(s, area)
    ensures var t := Settled(s, area);
            && Bounds(t) && |Slots(t)| == |Slots(s)|
            && forall i :: 0 <= i < |Slots(s)| ==>
                 && Slots(s)[i].units == Slots(t)[i].units && !Slots(s)[i].hole && !Slots(t)[i].hole
                 && Inside(Slots(t)[i], Floor(s), t.tail)
  {
    hide Sparse, Followed, Slots, SlotAt;
    SparseTotals(s);
    FollowedLength(s, area);
    var t := Settled(s, area);
    forall i | 0 <= i < |Slots(s)|
      ensures Slots(s)[i].units == Slots(t)[i].units && !Slots(s)[i].hole && !Slots(t)[i].hole
      ensures Inside(Slots(t)[i], Floor(s), t.tail)
    {
      SettledSlot(s, area, s.head + i);
      SlotOf(t, s.head + i);
      SlotOf(s, s.head + i);
    }
  }

  lemma SettledDisjoint(s: State, area: seq<Unit>)
    requires Sparse(s) && Bounds(s) && Followed(s, area)
    ensures Bounds(Settled(s, area)) && Disjoint(Slots(Settled(s, area)))
  {
    hide Sparse, Followed, Slots, SlotAt, Apart, Disjoint;
    SparseTotals(s);
    FollowedLength(s, area);
    var t := Settled(s, area);
    forall k: nat, l: nat | t.head <= k < l < Floor(t) ensures Apart(SlotAt(t, k), SlotAt(t, l)) {
      SettledApart(s, area, k, l);
    }
    SlotsDisjoint(t);
  }

  lemma SlotsDisjoint(t: State)
    requires Bounds(t) && forall k: nat, l: nat :: t.head <= k < l < Floor(t) ==> Apart(SlotAt(t, k), SlotAt(t, l))
    ensures Disjoint(Slots(t))
  {
    hide SlotAt, Apart;
  }

  lemma SettledLayout(s: State, area: seq<Unit>)
    requires Sparse(s) && Bounds(s) && Followed(s, area)
    ensures Good(Settled(s, area))
  {
    SparseTotals(s);
    var t := Settled(s, area);
    assert Total(Slots(s)) == s.tail - Floor(s) - s.volume;
    SettledSlots(s, area);
    SettledTags(s, area);
    SettledDisjoint(s, area);
    hide Sparse, Followed, Slots, Disjoint;
    SettledSums(s, t, Slots(s), Slots(t));
    forall i | 0 <= i < |Slots(t)| ensures Inside(Slots(t)[i], Floor(s), t.tail) {}
    SettledIsGood(s, t);
  }

  lemma SettledTags(s: State, area: seq<Unit>)
    requires Bounds(s) && Followed(s, area)
    ensures forall k :: s.head <= k < s.pivot ==> area[k].tag == s.area[k].tag
  {
    hide HasPayload, Lined;
    forall k | s.head <= k < s.pivot ensures area[k].tag == s.area[k].tag {
      if HasPayload(s, k) {
        var i := ItemOf(s, area, k);
      }
    }
  }

  lemma SettledSums(s: State, t: State, c: seq<Slot>, d: seq<Slot>)
    requires |c| == |d| && forall i :: 0 <= i < |c| ==> c[i].units == d[i].units && !c[i].hole && !d[i].hole
    ensures Total(d) == Total(c) && Holes(d) == 0 && Volume(d) == 0
  {
    SameUnitsSameSums(c, d);
    NoHolesLiveOnly(c);
    LiveOnlySums(c);
  }

  lemma SettledIsGood(s: State, t: State)
    requires Bounds(t) && Packed(Slots(t), Floor(t), t.tail) && Holes(Slots(t)) == 0 && Volume(Slots(t)) == 0
    requires t.count == 0 && t.volume == 0 && NoHoles(t)
    ensures Good(t)
  {
    hide Packed, Slots;
  }

  // ---- Contents -------------------------------------------------------------------------------------------

  lemma SameHeaderSameUnits(s: State, area: seq<Unit>, k: nat, i: nat, dest: int)
    requires Sparse(s) && Bounds(s) && s.head <= k < Floor(s) && HasPayload(s, k) && MovedTo(s, area, k, i, dest)
    ensures UnitsAt(Settled(s, area), k) == UnitsAt(s, k) && HasPayload(Settled(s, area), k)
  {
    PayloadSlot(s, k);
    var t := Settled(s, area);
    assert Payload(t, k) == dest;
    hide Sparse, Slots, BruttoUnits, Lined;
    assert t.area[dest] == t.area[dest..dest + UnitsAt(s, k)][0] == s.area[Payload(s, k)];
  }

  lemma SettledWritten(s: State, area: seq<Unit>)
    requires Sparse(s) && Bounds(s) && Followed(s, area)
    ensures Bounds(Settled(s, area)) && Written(Settled(s, area))
  {
    SparseTotals(s);
    var t := Settled(s, area);
    hide Sparse, Slots, BruttoUnits, Lined, Followed, UnitsAt;
    forall k | s.head <= k < Floor(s) && HasPayload(t, k) ensures UnitsAt(t, k) == t.area[k].own > 0 {
      PayloadBefore(s, area, k);
      var i, dest := WhereTo(s, area, k);
      SameHeaderSameUnits(s, area, k, i, dest);
      SparseWritten(s, k);
    }
  }

  lemma SparseWritten(s: State, k: nat)
    requires Sparse(s) && s.head <= k < Floor(s) && HasPayload(s, k)
    ensures UnitsAt(s, k) == s.area[k].own > 0
  {
  }

  lemma PayloadBefore(s: State, area: seq<Unit>, k: nat)
    requires Sparse(s) && Bounds(s) && Followed(s, area) && s.head <= k < Floor(s) && HasPayload(Settled(s, area), k)
    ensures HasPayload(s, k)
  {
    hide Sparse, Lined;
  }

  /** A field keeps its tag and its value, wherever its payload went. */
  lemma SettledValue(s: State, area: seq<Unit>, k: nat)
    requires Sparse(s) && Bounds(s) && Followed(s, area) && s.head <= k < Floor(s)
    requires k < s.pivot || HasPayload(s, k) || (s.schema[k - s.pivot].Some? && s.area[k].rel == 0)
    ensures |area| == |s.area| && ValueAt(Settled(s, area), k) == ValueAt(s, k)
            && Settled(s, area).area[k].tag == s.area[k].tag
  {
    FollowedLength(s, area);
    if HasPayload(s, k) {
      hide Sparse, Followed, Lined, UnitsAt;
      SparseWritten(s, k);
      var i, dest := WhereTo(s, area, k);
      MovedValue(s, area, k, i, dest);
    } else {
      hide Sparse, Lined;
    }
  }

  lemma MovedValue(s: State, area: seq<Unit>, k: nat, i: nat, dest: int)
    requires Bounds(s) && s.head <= k < Floor(s) && HasPayload(s, k) && UnitsAt(s, k) == s.area[k].own > 0
             && MovedTo(s, area, k, i, dest)
    ensures ValueAt(Settled(s, area), k) == ValueAt(s, k) && Settled(s, area).area[k].tag == s.area[k].tag
  {
    hide Lined, UnitsAt;
  }

  lemma {:induction false} SettledFields(s: State, area: seq<Unit>, k: nat)
    requires Sparse(s) && Bounds(s) && Followed(s, area) && s.head <= k <= s.pivot
    ensures |area| == |s.area| && LooseFields(Settled(s, area), k) == LooseFields(s, k)
    decreases s.pivot - k
  {
    hide Sparse, Lined, Followed, ValueAt;
    FollowedLength(s, area);
    if k < s.pivot {
      SettledValue(s, area, k);
      SettledFields(s, area, k + 1);
    }
  }

  lemma FollowedLength(s: State, area: seq<Unit>)
    requires Bounds(s) && Followed(s, area)
    ensures |area| == |s.area|
  {
  }
}
