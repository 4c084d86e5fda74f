/** What compactify keeps. */
module Compacting {
  import opened Ledger
  import opened Tuples
  import opened Gear
  import opened Searching
  import opened Compaction

  // ---- First step --------------------------------------------------------------------------------

  function SlotOfEntry(e: Entry): Slot {
    if IsInplaced(e.tag.genus) || e.place.None? then NOTHING else Slot(false, e.place.value, e.own)
  }

  function Placed(es: seq<Entry>): (r: seq<Slot>)
    ensures |r| == |es| && forall i :: 0 <= i < |r| ==> r[i] == SlotOfEntry(es[i])
  {
    seq(|es|, i requires 0 <= i < |es| => SlotOfEntry(es[i]))
  }

  function IndexSlots(s: State): seq<Slot>
    requires Bounds(s)
  {
    Slots(s)[..s.pivot - s.head]
  }

  function RefSlots(s: State): seq<Slot>
    requires Bounds(s)
  {
    Slots(s)[s.pivot - s.head..]
  }

  lemma PayloadIsBeyond(s: State)
    requires Layout(s) && Written(s)
    ensures Beyond(s.area, s.head, s.pivot, s.pivot)
  {
    forall k | s.head <= k < s.pivot && !IsHole(s.area[k]) && !IsInplaced(s.area[k].tag.genus) && s.area[k].rel != 0
      ensures k + s.area[k].rel >= s.pivot
    {
      assert HasPayload(s, k);
      SlotOf(s, k);
      assert Slots(s)[k - s.head].units > 0;
    }
  }

  lemma SlotIsEntry(s: State, k: nat)
    requires Bounds(s) && s.head <= k < s.pivot
    ensures SlotAt(s, k).hole == IsHole(s.area[k])
    ensures !IsHole(s.area[k]) ==> SlotOfEntry(EntryOf(s.area[k], k)) == SlotAt(s, k)
  {
  }

  lemma LiveOnlyFrom(c: seq<Slot>, i: nat, j: nat)
    requires i < j <= |c|
    ensures LiveOnly(c[i..j]) == (if c[i].hole then [] else [c[i]]) + LiveOnly(c[i + 1..j])
  {
    assert c[i..j][1..] == c[i + 1..j];
  }

  lemma LiveOnlyNone(c: seq<Slot>)
    requires c == []
    ensures LiveOnly(c) == []
  {
  }

  lemma PlacedFrom(area: seq<Unit>, k: nat, hi: nat)
    requires k <= hi <= |area|
    ensures Placed(EntriesIn(area, k, hi))
            == if k == hi then []
               else (if IsHole(area[k]) then [] else [SlotOfEntry(EntryOf(area[k], k))])
                    + Placed(EntriesIn(area, k + 1, hi))
  {
    hide EntryOf, SlotOfEntry;
    if k < hi && !IsHole(area[k]) {
      assert EntriesIn(area, k, hi) == [EntryOf(area[k], k)] + EntriesIn(area, k + 1, hi);
    }
  }

  lemma {:induction false} LiveSlotsAre(s: State, k: nat)
    requires Bounds(s) && s.head <= k <= s.pivot
    ensures LiveOnly(Slots(s)[k - s.head..s.pivot - s.head]) == Placed(EntriesIn(s.area, k, s.pivot))
    decreases s.pivot - k
  {
    hide Slots, SlotAt, SlotOfEntry, EntryOf, Placed, LiveOnly;
    if k == s.pivot {
      PlacedFrom(s.area, k, k);
      LiveOnlyNone(Slots(s)[k - s.head..k - s.head]);
    } else {
      LiveSlotsAre(s, k + 1);
      SlotOf(s, k);
      SlotIsEntry(s, k);
      LiveOnlyFrom(Slots(s), k - s.head, s.pivot - s.head);
      PlacedFrom(s.area, k, s.pivot);
    }
  }

  lemma {:induction false} RefSlotsLive(s: State, k: nat)
    requires Bounds(s) && s.pivot <= k <= Floor(s)
    ensures LiveOnly(Slots(s)[k - s.head..]) == Slots(s)[k - s.head..]
    decreases Floor(s) - k
  {
    var c := Slots(s)[k - s.head..];
    if k < Floor(s) {
      SlotOf(s, k);
      assert c[0] == SlotAt(s, k) && !c[0].hole;
      assert c[1..] == Slots(s)[k + 1 - s.head..];
      RefSlotsLive(s, k + 1);
    }
  }

  lemma LiveSlots(s: State)
    requires Bounds(s)
    ensures LiveOnly(Slots(s)) == Placed(EntriesIn(s.area, s.head, s.pivot)) + RefSlots(s)
  {
    assert Slots(s) == IndexSlots(s) + RefSlots(s);
    LiveOnlyConcat(IndexSlots(s), RefSlots(s));
    LiveSlotsAre(s, s.head);
    assert Slots(s)[0..s.pivot - s.head] == IndexSlots(s);
    RefSlotsLive(s, s.pivot);
  }

  lemma {:induction false} EntriesCount(s: State, k: nat)
    requires Bounds(s) && s.head <= k <= s.pivot
    ensures |EntriesIn(s.area, k, s.pivot)| + HolesFrom(s, k) == s.pivot - k
    decreases s.pivot - k
  {
    if k < s.pivot {
      HolesFromStep(s, k);
      EntriesCount(s, k + 1);
    } else {
      NoHolesInRefs(s, k);
    }
  }

  lemma CountInIndex(s: State)
    requires Layout(s)
    ensures 0 <= s.count <= s.pivot - s.head
    ensures |EntriesIn(s.area, s.head, s.pivot)| == s.pivot - s.head - s.count
  {
    EntriesCount(s, s.head);
    assert Slots(s)[0..] == Slots(s);
  }

  ghost predicate NoHoles(s: State)
    requires Bounds(s)
  {
    forall k :: s.head <= k < s.pivot ==> !IsHole(s.area[k])
  }

  /** `t` is `s` without the holes of its index: same descriptors in the same order, same
      payload, and the ledger of `s` without its holes. */
  ghost predicate Condensed(s: State, t: State) {
    && Bounds(s) && Bounds(t) && NoHoles(t)
    && t.pivot == s.pivot && t.tail == s.tail && t.volume == s.volume && t.schema == s.schema && |t.area| == |s.area|
    && t.count == 0 && t.head == s.head + s.count
    && t.area[s.pivot..] == s.area[s.pivot..]
    && EntriesIn(t.area, t.head, t.pivot) == EntriesIn(s.area, s.head, s.pivot)
    && Slots(t) == LiveOnly(Slots(s))
  }

  function Packed1(s: State, area: seq<Unit>): State
    requires s.head + s.count >= 0
  {
    s.(area := area, head := s.head + s.count, count := 0)
  }

  lemma IndexStepEntries(mode: Mode, s: State)
    requires Layout(s) && Written(s) && s.count > 0 && PackIndex(mode, s.area, s.head, s.pivot - 1, s.pivot - 1).Some?
    ensures var area := PackIndex(mode, s.area, s.head, s.pivot - 1, s.pivot - 1).value;
            && 0 <= s.count <= s.pivot - s.head && |area| == |s.area|
            && area[s.pivot..] == s.area[s.pivot..]
            && EntriesIn(area, s.head + s.count, s.pivot) == EntriesIn(s.area, s.head, s.pivot)
            && (forall k :: s.head + s.count <= k < s.pivot ==> !IsHole(area[k]))
  {
    hide Packed, Slots, HolesMarked, Written, EntriesIn, PackIndex, Beyond;
    CountInIndex(s);
    PayloadIsBeyond(s);
    PackKeepsEntries(mode, s.area, s.head, s.pivot - 1, s.pivot - 1, s.pivot);
    assert EntriesIn(s.area, s.pivot, s.pivot) == [] by { EntriesNone(s.area, s.pivot); }
  }

  lemma EntriesNone(area: seq<Unit>, k: nat)
    requires k <= |area|
    ensures EntriesIn(area, k, k) == []
  {
  }

  lemma {:induction false} NoHolesLiveOnly(c: seq<Slot>)
    requires forall i :: 0 <= i < |c| ==> !c[i].hole
    ensures LiveOnly(c) == c
    decreases |c|
  {
    if c != [] {
      NoHolesLiveOnly(c[1..]);
    }
  }

  lemma SameRefSlots(s: State, t: State)
    requires Bounds(s) && Bounds(t) && t.pivot == s.pivot && t.schema == s.schema && |t.area| == |s.area|
    requires t.area[s.pivot..] == s.area[s.pivot..]
    ensures RefSlots(t) == RefSlots(s)
  {
    forall k | s.pivot <= k < Floor(s) ensures SlotAt(t, k) == SlotAt(s, k) {
      assert t.area[k] == t.area[s.pivot..][k - s.pivot] == s.area[k];
    }
    forall i | 0 <= i < |s.schema| ensures RefSlots(t)[i] == RefSlots(s)[i] {
      assert RefSlots(t)[i] == SlotAt(t, s.pivot + i);
      assert RefSlots(s)[i] == SlotAt(s, s.pivot + i);
    }
  }

  /** The first step of compactify. */
  lemma IndexStep(mode: Mode, s: State)
    requires Layout(s) && Written(s) && s.count > 0 && PackIndex(mode, s.area, s.head, s.pivot - 1, s.pivot - 1).Some?
    ensures 0 <= s.count <= s.pivot - s.head
    ensures Condensed(s, Packed1(s, PackIndex(mode, s.area, s.head, s.pivot - 1, s.pivot - 1).value))
  {
    hide Packed, HolesMarked, Slots, EntriesIn, PackIndex, LiveOnly, Written;
    IndexStepEntries(mode, s);
    var t := Packed1(s, PackIndex(mode, s.area, s.head, s.pivot - 1, s.pivot - 1).value);
    LiveSlots(s);
    LiveSlots(t);
    SameRefSlots(s, t);
    forall i | 0 <= i < |Slots(t)| ensures !Slots(t)[i].hole {
      SlotOf(t, t.head + i);
    }
    NoHolesLiveOnly(Slots(t));
  }

  /** Without holes the first step has nothing to do. */
  lemma NothingToCondense(s: State)
    requires Layout(s) && s.count == 0
    ensures Condensed(s, s)
  {
    forall k | s.head <= k < s.pivot ensures !IsHole(s.area[k]) {
      if HoleAt(s, k) { HoleBounds(s, k); }
    }
    hide Packed, HolesMarked;
    forall i | 0 <= i < |Slots(s)| ensures !Slots(s)[i].hole {
      SlotOf(s, s.head + i);
    }
    NoHolesLiveOnly(Slots(s));
  }
}
