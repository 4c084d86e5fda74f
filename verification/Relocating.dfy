/** A tuple can be put anywhere: descriptors refer to payload by relative offsets, so the units
    from `head` to `tail` mean the same wherever they stand. */
module Relocating {
  import opened Ledger
  import opened Tuples
  import opened Searching
  import opened Compaction
  import opened Abstract
  import opened Stepping

  /** `t` holds the units of `s`, `d` units further on, perhaps in another buffer. */
  ghost predicate Relocated(s: State, t: State, d: int) {
    && Bounds(s) && Bounds(t) && t.schema == s.schema && t.count == s.count && t.volume == s.volume
    && t.head == s.head + d && t.pivot == s.pivot + d && t.tail == s.tail + d
    && forall k :: s.head <= k < s.tail ==> t.area[k + d] == s.area[k]
  }

  lemma RelocatedCell(s: State, t: State, d: int, k: nat)
    requires Relocated(s, t, d) && s.head <= k < Floor(s)
    ensures 0 <= k + d < |t.area| && t.area[k + d] == s.area[k] && Payload(t, k + d) == Payload(s, k) + d
    ensures Refers(t, k + d) == Refers(s, k) && IsLive(t, k + d) == IsLive(s, k) && GenusOf(t, k + d) == GenusOf(s, k)
    ensures HasPayload(t, k + d) == HasPayload(s, k) && InIndex(t, k + d) == InIndex(s, k)
  {
  }

  // ---- The ledger moves as a whole ------------------------------------------------------------------

  /** The same slots but for where they begin, which is `d` further on unless they are empty. */
  ghost predicate MovedBy(c: seq<Slot>, r: seq<Slot>, d: int) {
    |r| == |c| && forall i :: 0 <= i < |c| ==>
      r[i].hole == c[i].hole && r[i].units == c[i].units && (c[i].units > 0 ==> r[i].begin == c[i].begin + d)
  }

  lemma {:induction false} MovedSums(c: seq<Slot>, r: seq<Slot>, d: int)
    requires MovedBy(c, r, d)
    ensures Total(r) == Total(c) && Holes(r) == Holes(c) && Volume(r) == Volume(c)
    decreases |c|
  {
    if c != [] {
      MovedSums(c[1..], r[1..], d);
    }
  }

  lemma MovedPacked(c: seq<Slot>, r: seq<Slot>, d: int, lo: int, hi: int)
    requires MovedBy(c, r, d) && Packed(c, lo, hi)
    ensures Packed(r, lo + d, hi + d)
  {
    MovedSums(c, r, d);
    forall i, j | 0 <= i < j < |r| ensures Apart(r[i], r[j]) {
      assert Apart(c[i], c[j]);
    }
    forall i | 0 <= i < |r| && r[i].units > 0 ensures lo + d <= r[i].begin && r[i].End() <= hi + d {
      assert c[i].units > 0;
    }
  }

  lemma RelocatedSlots(s: State, t: State, d: int)
    requires Relocated(s, t, d)
    ensures MovedBy(Slots(s), Slots(t), d)
  {
    forall i | 0 <= i < |Slots(s)|
      ensures Slots(t)[i].hole == Slots(s)[i].hole && Slots(t)[i].units == Slots(s)[i].units
      ensures Slots(s)[i].units > 0 ==> Slots(t)[i].begin == Slots(s)[i].begin + d
    {
      RelocatedCell(s, t, d, s.head + i);
    }
  }

  lemma RelocatedMarked(s: State, t: State, d: int)
    requires Relocated(s, t, d) && HolesMarked(s)
    ensures HolesMarked(t)
  {
    forall k | t.head <= k < t.pivot && IsHole(t.area[k]) ensures t.area[k].tag.id == 0 <==> t.area[k].rel == 0 {
      RelocatedCell(s, t, d, k - d);
    }
  }

  lemma RelocatedLayout(s: State, t: State, d: int)
    requires Relocated(s, t, d) && Layout(s)
    ensures Layout(t)
  {
    RelocatedSlots(s, t, d);
    RelocatedMarked(s, t, d);
    MovedSums(Slots(s), Slots(t), d);
    hide Packed, HolesMarked, Slots;
    MovedPacked(Slots(s), Slots(t), d, Floor(s), s.tail);
  }

  lemma RelocatedGap(s: State, t: State, d: int, k: nat)
    requires Relocated(s, t, d) && GapAt(t, k)
    ensures 0 <= k - d && GapAt(s, k - d) && HoleBegin(t, k) == HoleBegin(s, k - d) + d
            && HoleEnd(t, k) == HoleEnd(s, k - d) + d
  {
    RelocatedCell(s, t, d, k - d);
  }

  lemma RelocatedCoalesced(s: State, t: State, d: int)
    requires Relocated(s, t, d) && Coalesced(s)
    ensures Coalesced(t)
  {
    forall k: nat, l: nat | GapAt(t, k) && GapAt(t, l) ensures HoleEnd(t, k) != HoleBegin(t, l) {
      RelocatedGap(s, t, d, k);
      RelocatedGap(s, t, d, l);
    }
    forall k: nat | GapAt(t, k) ensures HoleEnd(t, k) != t.tail {
      RelocatedGap(s, t, d, k);
    }
    if t.head < t.pivot {
      RelocatedCell(s, t, d, s.head);
    }
  }

  // ---- What it shows --------------------------------------------------------------------------------------

  /** The payload of reference `k` lies in the part that moves. */
  lemma PayloadMoves(s: State, k: nat)
    requires Steady(s) && s.head <= k < Floor(s) && k < |s.area| && HasPayload(s, k)
    ensures UnitsAt(s, k) == s.area[k].own > 0
    ensures s.head <= Payload(s, k) && Payload(s, k) + s.area[k].own <= s.tail <= |s.area|
  {
    SlotOf(s, k);
    hide UnitsAt;
    assert Slots(s)[k - s.head].units > 0;
  }

  lemma RelocatedRange(s: State, t: State, d: int, p: int, q: int)
    requires Relocated(s, t, d) && s.head <= p <= q <= s.tail
    ensures 0 <= p <= q <= |s.area| && 0 <= p + d <= q + d <= |t.area| && t.area[p + d..q + d] == s.area[p..q]
  {
    forall i | 0 <= i < q - p ensures t.area[p + d..q + d][i] == s.area[p..q][i] {
      assert t.area[(p + i) + d] == s.area[p + i];
    }
  }

  lemma RelocatedValue(s: State, t: State, d: int, k: nat)
    requires Steady(s) && Relocated(s, t, d) && s.head <= k < Floor(s) && k < |s.area|
    requires IsLive(s, k)
    ensures 0 <= k + d < |t.area| && ValueAt(t, k + d) == ValueAt(s, k)
    ensures HasPayload(s, k) ==> UnitsAt(t, k + d) == UnitsAt(s, k)
  {
    RelocatedCell(s, t, d, k);
    if HasPayload(s, k) {
      PayloadMoves(s, k);
      var p := Payload(s, k);
      hide Good, Written, UnitsAt;
      RelocatedRange(s, t, d, p, p + s.area[k].own);
      RelocatedLength(s, t, d, k);
    }
  }

  lemma RelocatedLength(s: State, t: State, d: int, k: nat)
    requires Relocated(s, t, d) && s.head <= k < Floor(s) && k < |s.area| && s.head <= Payload(s, k) < s.tail
    ensures 0 <= k + d < |t.area| && UnitsAt(t, k + d) == UnitsAt(s, k)
  {
    RelocatedCell(s, t, d, k);
    hide BruttoUnits, LooseUnits;
    assert t.area[Payload(s, k) + d] == s.area[Payload(s, k)];
  }

  lemma RelocatedWritten(s: State, t: State, d: int)
    requires Steady(s) && Relocated(s, t, d)
    ensures Written(t)
  {
    hide UnitsAt, ValueAt;
    forall k | t.head <= k < Floor(t) && HasPayload(t, k) ensures UnitsAt(t, k) == t.area[k].own > 0 {
      RelocatedCell(s, t, d, k - d);
      PayloadMoves(s, k - d);
      RelocatedLength(s, t, d, k - d);
    }
  }

  lemma {:induction false} RelocatedFields(s: State, t: State, d: int, k: nat)
    requires Steady(s) && Relocated(s, t, d) && s.head <= k <= s.pivot
    ensures 0 <= k + d <= t.pivot && LooseFields(t, k + d) == LooseFields(s, k)
    decreases s.pivot - k
  {
    hide Good, Written, ValueAt;
    if k < s.pivot {
      RelocatedCell(s, t, d, k);
      if !IsHole(s.area[k]) { RelocatedValue(s, t, d, k); }
      RelocatedFields(s, t, d, k + 1);
    }
  }

  lemma RelocatedPreplaced(s: State, t: State, d: int)
    requires Steady(s) && Relocated(s, t, d)
    ensures Preplaced(t) == Preplaced(s)
  {
    hide Good, Written, ValueAt;
    forall i | 0 <= i < |s.schema| ensures PreplacedAt(t, i) == PreplacedAt(s, i) {
      RelocatedCell(s, t, d, s.pivot + i);
      if s.schema[i].Some? { RelocatedValue(s, t, d, s.pivot + i); }
    }
  }

  lemma SameFieldsSameView(s: State, t: State)
    requires Bounds(s) && Bounds(t) && LooseFields(t, t.head) == LooseFields(s, s.head) && Preplaced(t) == Preplaced(s)
    ensures ViewOf(t) == ViewOf(s)
  {
    hide LooseFields, Preplaced, Bag;
    BagOfTuple(s);
    BagOfTuple(t);
  }

  /** Moving a tuple as a whole keeps everything: the layout, the coalescing, the counters, the
      order of the fields and every value. */
  lemma RelocatedKeeps(s: State, t: State, d: int)
    requires Steady(s) && Relocated(s, t, d)
    ensures Steady(t) && ViewOf(t) == ViewOf(s) && LooseFields(t, t.head) == LooseFields(s, s.head)
  {
    hide Layout, Coalesced, Written, LooseFields, Preplaced, ViewOf;
    RelocatedLayout(s, t, d);
    RelocatedCoalesced(s, t, d);
    RelocatedWritten(s, t, d);
    RelocatedFields(s, t, d, s.head);
    RelocatedPreplaced(s, t, d);
    SameFieldsSameView(s, t);
  }
}
