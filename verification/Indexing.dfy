/** index_alloc: a place for one more descriptor. */
module Indexing {
  import opened Ledger
  import opened Tuples
  import opened Gear
  import opened Searching

  /** The state in which the place index_alloc finds is, or has just become, an empty hole. */
  function Reserved(s: State): State
    requires s.head <= s.pivot <= |s.area|
  {
    if s.count > 0 && FirstWithTag(s.area, s.head, s.pivot, MakeHole(0)).Some? then s
    else if s.head < 1 then s
    else s.(head := s.head - 1, count := s.count + 1, area := s.area[s.head - 1 := EMPTY_HOLE])
  }

  function Spare(s: State): State
    requires s.head > 0 && s.head <= |s.area|
  {
    s.(head := s.head - 1, count := s.count + 1, area := s.area[s.head - 1 := EMPTY_HOLE])
  }

  lemma SpareSlots(s: State)
    requires Bounds(s) && s.head > 0
    ensures Bounds(Spare(s)) && Slots(Spare(s)) == [Slot(true, s.head - 1, 0)] + Slots(s)
  {
  }

  lemma SpareLayout(s: State)
    requires Layout(s) && s.head > 0
    ensures Layout(Spare(s))
  {
    hide Slots;
    SpareSlots(s);
    PushEmpty(Slots(s), Slot(true, s.head - 1, 0), Floor(s), s.tail);
    hide Packed;
    SumsAfterPush(Slots(s), Slot(true, s.head - 1, 0));
  }

  ghost predicate SameGaps(s: State, t: State) {
    forall g: nat :: (GapAt(s, g) <==> GapAt(t, g)) && (GapAt(s, g) ==> t.area[g] == s.area[g])
  }

  lemma SpareGaps(s: State)
    requires Bounds(s) && s.head > 0
    ensures SameGaps(s, Spare(s))
  {
  }

  /** What index_alloc gives: the place `e` counts as an empty hole of `Reserved(s)`. */
  lemma IndexAllocReserves(s: State, notify: int)
    requires Layout(s) && TightHead(s)
    ensures match IndexAlloc(s, notify)
            case Insufficient(t, i, d) =>
              t == s && i == 1 && d == notify && s.head == 0 && forall k: nat :: HoleAt(s, k) ==> HoleSize(s, k) > 0
            case Done(t, e) =>
              var r := Reserved(s);
              && Layout(r) && HoleAt(r, e) && HoleSize(r, e) == 0 && SameGaps(s, r)
              && (e == r.head || TightHead(r))
              && r.tail == s.tail && r.pivot == s.pivot && r.schema == s.schema && r.volume == s.volume
              && t.tail == r.tail && t.volume == r.volume && |r.area| == |s.area|
              && (forall u: Unit :: Put(t, e, u) == Put(r, e, u).(count := r.count - 1))
              && (forall k: nat :: k != e && k < |s.area| ==> r.area[k] == s.area[k])
  {
    hide Packed, Slots, HolesMarked;
    var empty := if s.count > 0 then FirstWithTag(s.area, s.head, s.pivot, MakeHole(0)) else None;
    if empty.Some? {
    } else if s.head < 1 {
      forall k: nat | HoleAt(s, k) ensures HoleSize(s, k) > 0 {
        HoleBounds(s, k);
        assert s.area[k].tag != MakeHole(0);
      }
    } else {
      SpareLayout(s);
      SpareGaps(s);
    }
  }
}
