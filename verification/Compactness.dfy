/** compactify as a whole: every field survives, in order, and no hole does. */
module Compactness {
  import opened Ledger
  import opened Tuples
  import opened Gear
  import opened Searching
  import opened Compaction
  import opened Compacting
  import opened Moving
  import opened Defragmenting

  // ---- Fields after the first step -------------------------------------------------------------

  function FieldOfEntry(area: seq<Unit>, e: Entry): Field {
    Field(e.tag, if IsInplaced(e.tag.genus) then Inline(if e.place.Some? then e.place.value else 0)
                 else if e.place.None? then Nil
                 else if 0 <= e.place.value && e.place.value + e.own <= |area|
                      then Data(area[e.place.value..e.place.value + e.own])
                 else Nil)
  }

  function FieldsOfEntries(area: seq<Unit>, es: seq<Entry>): seq<Field> {
    if es == [] then [] else [FieldOfEntry(area, es[0])] + FieldsOfEntries(area, es[1..])
  }

  lemma {:induction false} LooseFieldsAre(s: State, k: nat)
    requires k <= s.pivot <= |s.area|
    ensures LooseFields(s, k) == FieldsOfEntries(s.area, EntriesIn(s.area, k, s.pivot))
    decreases s.pivot - k
  {
    if k < s.pivot {
      LooseFieldsAre(s, k + 1);
      if !IsHole(s.area[k]) {
        var es := EntriesIn(s.area, k, s.pivot);
        assert es[0] == EntryOf(s.area[k], k) && es[1..] == EntriesIn(s.area, k + 1, s.pivot);
        assert FieldOfEntry(s.area, es[0]) == Field(s.area[k].tag, ValueAt(s, k));
      } else {
        assert EntriesIn(s.area, k, s.pivot) == EntriesIn(s.area, k + 1, s.pivot);
      }
    }
  }

  ghost predicate PlacesBeyond(es: seq<Entry>, pivot: int) {
    forall i :: 0 <= i < |es| && !IsInplaced(es[i].tag.genus) && es[i].place.Some? ==> es[i].place.value >= pivot
  }

  lemma {:induction false} BeyondPlaces(area: seq<Unit>, lo: nat, hi: nat, pivot: nat)
    requires lo <= hi <= |area| && Beyond(area, lo, hi, pivot)
    ensures PlacesBeyond(EntriesIn(area, lo, hi), pivot)
    decreases hi - lo
  {
    if lo < hi {
      BeyondPlaces(area, lo + 1, hi, pivot);
    }
  }

  lemma {:induction false} SamePayloadSameFields(a: seq<Unit>, b: seq<Unit>, es: seq<Entry>, pivot: nat)
    requires pivot <= |a| == |b| && a[pivot..] == b[pivot..] && PlacesBeyond(es, pivot)
    ensures FieldsOfEntries(a, es) == FieldsOfEntries(b, es)
    decreases |es|
  {
    if es != [] {
      var e := es[0];
      forall i | 0 <= i < |es[1..]| && !IsInplaced(es[1..][i].tag.genus) && es[1..][i].place.Some?
        ensures es[1..][i].place.value >= pivot
      {
        assert es[1..][i] == es[i + 1];
      }
      SamePayloadSameFields(a, b, es[1..], pivot);
      if !IsInplaced(e.tag.genus) && e.place.Some? && e.place.value + e.own <= |a| {
        var p := e.place.value;
        assert a[p..p + e.own] == a[pivot..][p - pivot..p - pivot + e.own];
        assert b[p..p + e.own] == b[pivot..][p - pivot..p - pivot + e.own];
      }
    }
  }

  lemma CondensedFields(s: State, t: State)
    requires Layout(s) && Written(s) && Condensed(s, t)
    ensures LooseFields(t, t.head) == LooseFields(s, s.head)
    ensures forall k :: s.pivot <= k < |s.area| ==> t.area[k] == s.area[k]
  {
    PayloadIsBeyond(s);
    hide Layout, Written, Beyond;
    BeyondPlaces(s.area, s.head, s.pivot, s.pivot);
    LooseFieldsAre(s, s.head);
    LooseFieldsAre(t, t.head);
    SamePayloadSameFields(s.area, t.area, EntriesIn(s.area, s.head, s.pivot), s.pivot);
    forall k | s.pivot <= k < |s.area| ensures t.area[k] == s.area[k] {
      assert t.area[k] == t.area[s.pivot..][k - s.pivot];
    }
  }

  // ---- The state between the steps ------------------------------------------------------------------

  lemma {:induction false} EntryIn(area: seq<Unit>, k: nat, lo: nat, hi: nat)
    requires lo <= k < hi <= |area| && !IsHole(area[k])
    ensures EntryOf(area[k], k) in EntriesIn(area, lo, hi)
    decreases hi - lo
  {
    if k > lo {
      EntryIn(area, k, lo + 1, hi);
    }
  }

  lemma {:induction false} EntryFrom(area: seq<Unit>, e: Entry, lo: nat, hi: nat) returns (k: nat)
    requires lo <= hi <= |area| && e in EntriesIn(area, lo, hi)
    ensures lo <= k < hi && !IsHole(area[k]) && EntryOf(area[k], k) == e
    decreases hi - lo
  {
    if !IsHole(area[lo]) && e == EntryOf(area[lo], lo) {
      k := lo;
    } else {
      k := EntryFrom(area, e, lo + 1, hi);
    }
  }

  lemma WrittenAt(s: State, k: nat)
    requires Layout(s) && Written(s) && s.head <= k < Floor(s) && HasPayload(s, k)
    ensures UnitsAt(s, k) == s.area[k].own > 0 && Floor(s) <= Payload(s, k) < s.tail
  {
    SlotOf(s, k);
    assert Slots(s)[k - s.head].units > 0;
  }

  lemma CondensedWritten(s: State, t: State)
    requires Layout(s) && Written(s) && Condensed(s, t)
    ensures Written(t)
  {
    CondensedFields(s, t);
    hide Layout, Written, BruttoUnits;
    forall k | t.head <= k < Floor(t) && HasPayload(t, k) ensures UnitsAt(t, k) == t.area[k].own > 0 {
      var l := k;
      if k < s.pivot {
        EntryIn(t.area, k, t.head, t.pivot);
        l := EntryFrom(s.area, EntryOf(t.area[k], k), s.head, s.pivot);
      }
      CondensedUnits(s, t, k, l);
    }
  }

  lemma CondensedUnits(s: State, t: State, k: nat, l: nat)
    requires Layout(s) && Written(s) && Condensed(s, t) && t.head <= k < Floor(t) && HasPayload(t, k)
             && s.head <= l < Floor(s)
    requires forall j :: s.pivot <= j < |s.area| ==> t.area[j] == s.area[j]
    requires if k < s.pivot then l < s.pivot && !IsHole(s.area[l]) && EntryOf(s.area[l], l) == EntryOf(t.area[k], k)
             else l == k
    ensures UnitsAt(t, k) == t.area[k].own > 0
  {
    assert HasPayload(s, l) && Payload(s, l) == Payload(t, k) && GenusOf(s, l) == GenusOf(t, k)
        && s.area[l].own == t.area[k].own;
    hide Layout, Written, BruttoUnits, HasPayload;
    WrittenAt(s, l);
  }

  lemma CondensedSparse(s: State, t: State)
    requires Layout(s) && Written(s) && Condensed(s, t)
    ensures Sparse(t)
  {
    CondensedWritten(s, t);
    hide Written, Slots, LiveOnly;
    LiveOnlySums(Slots(s));
    LiveOnlyApart(Slots(s));
    VolumeAtMostTotal(Slots(s));
    CondensedWithin(Slots(s), Floor(s), s.tail);
  }

  lemma CondensedWithin(c: seq<Slot>, lo: int, hi: int)
    requires Within(c, lo, hi)
    ensures Within(LiveOnly(c), lo, hi)
  {
    LiveOnlySums(c);
    var d := LiveOnly(c);
    forall i | 0 <= i < |d| && d[i].units > 0 ensures lo <= d[i].begin && d[i].End() <= hi {
      assert d[i] in c;
    }
  }

  // ---- compactify ------------------------------------------------------------------------------------------

  /** Unit `k` of the preplaced part keeps its field, if it is a reference, or its contents. */
  ghost predicate PreplacedKept(s: State, t: State) {
    && t.pivot == s.pivot && t.schema == s.schema && Bounds(s) && Bounds(t) && |t.area| == |s.area|
    && forall k :: s.pivot <= k < Floor(s) ==>
         if s.schema[k - s.pivot].Some? then ValueAt(t, k) == ValueAt(s, k) else t.area[k] == s.area[k]
  }

  /** `t` is `s` without its holes: the index has given their descriptors back to the space
      below it, the payload their units to the space above, and every field is as it was. */
  ghost predicate Compacted(s: State, t: State) {
    && Good(t) && Written(t)
    && t.count == 0 && t.volume == 0 && t.head == s.head + s.count && t.tail == s.tail - s.volume
    && PreplacedKept(s, t)
    && s.head <= s.pivot && t.head <= t.pivot
    && LooseFields(t, t.head) == LooseFields(s, s.head)
  }

  lemma SparseWithoutVolume(t: State)
    requires Sparse(t) && t.volume == 0
    ensures Good(t)
  {
    forall i | 0 <= i < |Slots(t)| ensures !Slots(t)[i].hole {
      SlotOf(t, t.head + i);
    }
    NoHolesLiveOnly(Slots(t));
    LiveOnlySums(Slots(t));
    assert Packed(Slots(t), Floor(t), t.tail);
    hide Packed, Slots;
    SettledIsGood(t, t);
  }

  lemma DataStepKeeps(mode: Mode, t: State)
    requires Sparse(t) && (mode.Repaired? || t.volume == 0 || !NilReference(t))
    ensures Bounds(t)
    ensures var r := CompactData(mode, t);
            && r.Some? && Good(r.value) && Written(r.value) && r.value.count == 0 && r.value.volume == 0
            && r.value.head == t.head && r.value.tail == t.tail - t.volume
            && PreplacedKept(t, r.value) && t.head <= t.pivot && LooseFields(r.value, t.head) == LooseFields(t, t.head)
  {
    SparseBounds(t);
    if t.volume == 0 {
      SparseWithoutVolume(t);
      SparseMeansWritten(t);
    } else {
      AllFollowed(t);
      var area := MoveAll(t.area, Lined(t), Floor(t), t.tail).value;
      SettledLayout(t, area);
      SettledWritten(t, area);
      SettledFields(t, area, t.head);
      SettledPreplaced(t, area);
      hide Sparse, Followed, Good, Written, PreplacedKept, LooseFields, MoveAll;
      assert CompactData(mode, t) == Some(Settled(t, area));
    }
  }

  lemma SparseMeansWritten(t: State)
    requires Sparse(t)
    ensures Bounds(t) && Written(t)
  {
  }

  lemma SettledPreplaced(s: State, area: seq<Unit>)
    requires Sparse(s) && Bounds(s) && Followed(s, area)
    ensures PreplacedKept(s, Settled(s, area))
  {
    hide Sparse, Lined, ValueAt, UnitsAt, Followed;
    SparseTotals(s);
    FollowedLength(s, area);
    var t := Settled(s, area);
    forall k | s.pivot <= k < Floor(s)
      ensures if s.schema[k - s.pivot].Some? then ValueAt(t, k) == ValueAt(s, k) else t.area[k] == s.area[k]
    {
      if s.schema[k - s.pivot].Some? {
        SettledValue(s, area, k);
      } else {
        SettledRaw(s, area, k);
      }
    }
  }

  lemma SettledRaw(s: State, area: seq<Unit>, k: nat)
    requires Bounds(s) && Followed(s, area) && s.pivot <= k < Floor(s) && s.schema[k - s.pivot].None?
    ensures |area| == |s.area| && area[k] == s.area[k]
  {
    hide Lined;
    assert !HasPayload(s, k);
  }

  lemma PreplacedThen(s: State, t: State, u: State)
    requires Condensed(s, t) && (forall k :: s.pivot <= k < |s.area| ==> t.area[k] == s.area[k]) && PreplacedKept(t, u)
    requires Layout(s) && Written(s)
    ensures PreplacedKept(s, u)
  {
    hide Layout, Written, UnitsAt, EntriesIn, LiveOnly, Slots, NoHoles;
    forall k | s.pivot <= k < Floor(s) && s.schema[k - s.pivot].Some? ensures ValueAt(t, k) == ValueAt(s, k) {
      if s.area[k].rel != 0 {
        assert HasPayload(s, k);
        WrittenAt(s, k);
        var p := Payload(s, k);
        assert Payload(t, k) == p;
        if p + s.area[k].own <= |s.area| {
          assert t.area[p..p + s.area[k].own] == s.area[p..p + s.area[k].own];
        }
      }
    }
  }

  lemma CompactFrom(mode: Mode, s: State, t: State)
    requires Layout(s) && Written(s) && Condensed(s, t) && (mode.Repaired? || t.volume == 0 || !NilReference(t))
    ensures Bounds(t) && CompactData(mode, t).Some? && Compacted(s, CompactData(mode, t).value)
  {
    CondensedSparse(s, t);
    CondensedFields(s, t);
    DataStepKeeps(mode, t);
    PreplacedThen(s, t, CompactData(mode, t).value);
    hide Layout, Written, CompactData, Sparse, LooseFields, PreplacedKept, Good;
  }

  /** compactify, with references without payload left alone, keeps every field of every tuple. */
  lemma CompactifyKeeps(s: State)
    requires Layout(s) && Written(s)
    ensures Bounds(s) && 0 <= s.count <= s.pivot - s.head
    ensures Compactify(Repaired, s).Some? && Compacted(s, Compactify(Repaired, s).value)
  {
    hide Layout, Written, CompactData, PackIndex, Condensed, Compacted;
    BoundsOf(s);
    CountInIndex(s);
    if s.count == 0 {
      NothingToCondense(s);
      CompactFrom(Repaired, s, s);
    } else {
      RepairedPacks(s.area, s.head, s.pivot - 1, s.pivot - 1);
      IndexStep(Repaired, s);
      var area := PackIndex(Repaired, s.area, s.head, s.pivot - 1, s.pivot - 1).value;
      CompactFrom(Repaired, s, Packed1(s, area));
    }
  }

  // ---- What compactify counts ------------------------------------------------------------------------------------

  /** Descriptors and references with payload among the units `k..hi`. */
  function Carrying(s: State, k: nat, hi: nat): nat
    requires k <= hi <= |s.area|
  {
    if k == hi then 0 else Carrying(s, k, hi - 1) + if HasPayload(s, hi - 1) then 1 else 0
  }

  lemma {:induction false} CarryingSplit(s: State, k: nat, m: nat, hi: nat)
    requires k <= m <= hi <= |s.area|
    ensures Carrying(s, k, hi) == Carrying(s, k, m) + Carrying(s, m, hi)
    decreases hi
  {
    hide HasPayload;
    if m < hi { CarryingSplit(s, k, m, hi - 1); }
  }

  lemma {:induction false} LooseItemsCount(s: State, k: nat)
    requires s.head <= k <= s.pivot <= |s.area|
    ensures |LooseItems(s, k)| == Carrying(s, s.head, k)
    decreases k
  {
    hide HasPayload, ItemAt;
    if k > s.head { LooseItemsCount(s, k - 1); }
  }

  lemma {:induction false} RefItemsCount(s: State, k: nat)
    requires s.pivot <= k <= Floor(s) <= |s.area|
    ensures |RefItems(s, k)| == Carrying(s, k, Floor(s))
    decreases Floor(s) - k
  {
    hide HasPayload, ItemAt;
    if k < Floor(s) {
      RefItemsCount(s, k + 1);
      CarryingSplit(s, k, k + 1, Floor(s));
      assert Carrying(s, k, k) == 0;
    }
  }

  lemma {:induction false} LiveLeavesRoom(c: seq<Slot>, i: nat)
    requires i < |c| && !c[i].hole
    ensures Volume(c) + c[i].units <= Total(c)
    decreases |c|
  {
    if i > 0 { LiveLeavesRoom(c[1..], i - 1); } else { VolumeAtMostTotal(c[1..]); }
  }

  /** The last unit of data belongs to a field. */
  lemma LastIsLive(s: State)
    requires Good(s) && s.volume > 0
    ensures Bounds(s) && s.volume < s.tail - Floor(s)
  {
    hide HolesMarked, TightHead, Separated, SlotAt;
    var c := Slots(s);
    VolumeAtMostTotal(c);
    Partition(c, Floor(s), s.tail, s.tail - 1);
    var i :| 0 <= i < |c| && Owns(c[i], s.tail - 1);
    OwnerOfLastIsLive(s, i);
    LiveLeavesRoom(c, i);
  }

  lemma OwnerOfLastIsLive(s: State, i: nat)
    requires Good(s) && i < |Slots(s)| && Owns(Slots(s)[i], s.tail - 1)
    ensures !Slots(s)[i].hole
  {
    var k := s.head + i;
    SlotOf(s, k);
    hide HolesMarked, TightHead, Separated;
    assert Slots(s)[i].hole ==> GapAt(s, k) && HoleEnd(s, k) == s.tail;
  }

  /** The tuple after the loop over the index. */
  function AfterIndexStep(s: State): State
    requires Bounds(s) && 0 <= s.count
  {
    if s.count == 0 then s
    else
      match PackIndex(Repaired, s.area, s.head, s.pivot - 1, s.pivot - 1)
      case None => s
      case Some(area) => Packed1(s, area)
  }

  lemma IndexStepIs(s: State)
    requires Layout(s) && Written(s)
    ensures Bounds(s) && 0 <= s.count && Condensed(s, AfterIndexStep(s))
  {
    hide Layout, Written, PackIndex, Condensed;
    BoundsOf(s);
    CountInIndex(s);
    if s.count == 0 {
      NothingToCondense(s);
    } else {
      RepairedPacks(s.area, s.head, s.pivot - 1, s.pivot - 1);
      IndexStep(Repaired, s);
    }
  }

  /** The counts that compactify asserts are right in every tuple with maximal coalescing: as many
      descriptors are left over as there are holes, there is something to move when there is
      junk, the vector is as long as was counted, and the last chunk ends with the new data. */
  lemma CountsMeet(s: State)
    requires Good(s) && Written(s)
    ensures Bounds(s) && 0 <= s.count && |EntriesIn(s.area, s.head, s.pivot)| + s.count == s.pivot - s.head
    ensures var t := AfterIndexStep(s);
            && Bounds(t) && |Collected(t)| == Carrying(t, t.head, Floor(t))
            && Floor(t) + SumLengths(Collected(t)) == t.tail - t.volume
            && (t.volume > 0 ==> Floor(t) < t.tail && |Collected(t)| > 0)
  {
    hide Layout, Coalesced, Written, AfterIndexStep, Condensed, EntriesIn, Sparse, RefItems, LooseItems, Carrying;
    BoundsOf(s);
    CountInIndex(s);
    IndexStepIs(s);
    var t := AfterIndexStep(s);
    CondensedSparse(s, t);
    CondensedSame(s, t);
    SparseTotal(t);
    CollectedTotal(t);
    RefItemsCount(t, t.pivot);
    LooseItemsCount(t, t.pivot);
    CarryingSplit(t, t.head, t.pivot, Floor(t));
    if s.volume > 0 { LastIsLive(s); }
  }

  lemma CondensedSame(s: State, t: State)
    requires Condensed(s, t)
    ensures Bounds(s) && Bounds(t) && t.volume == s.volume && t.tail == s.tail && Floor(t) == Floor(s)
  {
  }

  lemma {:induction false} RepairedPacks(area: seq<Unit>, head: nat, src: int, dst: int)
    requires head - 1 <= src <= dst < |area|
    ensures PackIndex(Repaired, area, head, src, dst).Some?
    decreases src
  {
    if src >= head {
      if IsHole(area[src]) {
        RepairedPacks(area, head, src - 1, dst);
      } else {
        RepairedPacks(area[dst := Lifted(Repaired, area[src], dst - src).value], head, src - 1, dst - 1);
      }
    }
  }

  // ---- As written ------------------------------------------------------------------------------------------------

  predicate NilLoose(u: Unit) { !IsHole(u) && !IsInplaced(u.tag.genus) && u.rel == 0 }

  /** A loose field without payload has a hole somewhere after it, or is to move anyway. */
  ghost predicate NilMoves(area: seq<Unit>, head: nat, src: int, delta: int)
    requires src < |area|
  {
    exists k :: head <= k <= src && NilLoose(area[k]) && (delta > 0 || exists j :: k < j <= src && IsHole(area[j]))
  }

  lemma {:induction false} AsWrittenPacks(area: seq<Unit>, head: nat, src: int, dst: int)
    requires head - 1 <= src <= dst < |area|
    ensures PackIndex(AsWritten, area, head, src, dst).Some? <==> !NilMoves(area, head, src, dst - src)
    ensures PackIndex(AsWritten, area, head, src, dst).Some? ==>
              PackIndex(AsWritten, area, head, src, dst) == PackIndex(Repaired, area, head, src, dst)
    decreases src
  {
    if src >= head {
      if IsHole(area[src]) {
        AsWrittenPacks(area, head, src - 1, dst);
        NilMovesOverHole(area, head, src, dst - src);
      } else {
        NilMovesOverField(area, head, src, dst - src);
        var lifted := Lifted(AsWritten, area[src], dst - src);
        if lifted.Some? {
          var next := area[dst := lifted.value];
          AsWrittenPacks(next, head, src - 1, dst - 1);
          NilMovesSame(area, next, head, src - 1, dst - src);
        }
      }
    }
  }

  lemma NilMovesOverHole(area: seq<Unit>, head: nat, src: int, delta: nat)
    requires head <= src < |area| && IsHole(area[src])
    ensures NilMoves(area, head, src, delta) <==> NilMoves(area, head, src - 1, delta + 1)
  {
    if NilMoves(area, head, src - 1, delta + 1) {
      var k :| head <= k <= src - 1 && NilLoose(area[k]);
      assert IsHole(area[src]) && k < src;
    }
  }

  lemma NilMovesOverField(area: seq<Unit>, head: nat, src: int, delta: nat)
    requires head <= src < |area| && !IsHole(area[src])
    ensures NilMoves(area, head, src, delta)
            <==> (NilLoose(area[src]) && delta > 0) || NilMoves(area, head, src - 1, delta)
  {
    if NilMoves(area, head, src - 1, delta) {
      var k :| head <= k <= src - 1 && NilLoose(area[k]) &&
              (delta > 0 || exists j :: k < j <= src - 1 && IsHole(area[j]));
      assert NilLoose(area[k]);
    }
  }

  lemma NilMovesSame(area: seq<Unit>, next: seq<Unit>, head: nat, src: int, delta: nat)
    requires -1 <= src < |area| == |next| && forall k :: 0 <= k <= src ==> next[k] == area[k]
    ensures NilMoves(area, head, src, delta) <==> NilMoves(next, head, src, delta)
  {
  }

  /** A loose field without payload that would have to move. */
  ghost predicate NilDisplaced(s: State)
    requires Bounds(s)
  {
    NilMoves(s.area, s.head, s.pivot - 1, 0)
  }

  lemma NothingDisplaced(s: State)
    requires Layout(s) && s.count == 0
    ensures !NilDisplaced(s)
  {
    NothingToCondense(s);
  }

  lemma SameNilReferences(s: State, t: State)
    requires Bounds(s) && Bounds(t) && t.pivot == s.pivot && t.schema == s.schema && |t.area| == |s.area|
    requires forall k :: s.pivot <= k < |s.area| ==> t.area[k] == s.area[k]
    ensures NilReference(t) <==> NilReference(s)
  {
    if NilReference(s) {
      var k :| s.pivot <= k < Floor(s) && Refers(s, k) && s.area[k].rel == 0;
      assert Refers(t, k);
    }
    if NilReference(t) {
      var k :| t.pivot <= k < Floor(t) && Refers(t, k) && t.area[k].rel == 0;
      assert Refers(s, k);
    }
  }

  lemma CompactDataAsWritten(t: State)
    requires Sparse(t)
    ensures Bounds(t)
    ensures CompactData(AsWritten, t).Some? <==> t.volume == 0 || !NilReference(t)
    ensures CompactData(AsWritten, t).Some? ==> CompactData(AsWritten, t) == CompactData(Repaired, t)
  {
    SparseBounds(t);
    if t.volume == 0 || !NilReference(t) {
      DataStepKeeps(AsWritten, t);
      hide Sparse, MoveAll, NilReference;
    }
  }

  /** As written compactify meets its own assertions exactly when no loose field without
      payload has a hole after it in the index, the index is not brimful and, if there is payload
      to move, no preplaced reference is without payload; then it does what it should. */
  lemma CompactifyAsWrittenIff(s: State)
    requires Layout(s) && Written(s)
    ensures Bounds(s) && 0 <= s.count <= s.pivot - s.head
    ensures Compactify(AsWritten, s).Some? <==> !NilDisplaced(s) && !Brimful(s) && (s.volume == 0 || !NilReference(s))
    ensures Compactify(AsWritten, s).Some? ==> Compactify(AsWritten, s) == Compactify(Repaired, s)
  {
    hide Layout, Written, NilReference, NilDisplaced, CompactData, PackIndex;
    BoundsOf(s);
    CountInIndex(s);
    if s.count == 0 {
      FullIndexAsWritten(s);
    } else {
      IndexPacksAsWritten(s);
      if !NilDisplaced(s) {
        PackedAsWritten(s, PackIndex(AsWritten, s.area, s.head, s.pivot - 1, s.pivot - 1).value);
      }
    }
  }

  lemma IndexPacksAsWritten(s: State)
    requires Bounds(s)
    ensures var p := PackIndex(AsWritten, s.area, s.head, s.pivot - 1, s.pivot - 1);
            (p.Some? <==> !NilDisplaced(s)) &&
            (p.Some? ==> p == PackIndex(Repaired, s.area, s.head, s.pivot - 1, s.pivot - 1))
  {
    hide PackIndex, NilMoves;
    AsWrittenPacks(s.area, s.head, s.pivot - 1, s.pivot - 1);
  }

  lemma FullIndexAsWritten(s: State)
    requires Layout(s) && Written(s) && s.count == 0
    ensures Bounds(s) && !NilDisplaced(s)
    ensures CompactData(AsWritten, s).Some? <==> s.volume == 0 || !NilReference(s)
    ensures CompactData(AsWritten, s).Some? ==> CompactData(AsWritten, s) == CompactData(Repaired, s)
  {
    hide Layout, Written, Sparse, NilReference, NilDisplaced, Condensed;
    NothingDisplaced(s);
    NothingToCondense(s);
    CondensedSparse(s, s);
    CompactDataAsWritten(s);
  }

  lemma PackedAsWritten(s: State, area: seq<Unit>)
    requires Layout(s) && Written(s) && 0 < s.count <= s.pivot - s.head && Bounds(s)
    requires PackIndex(AsWritten, s.area, s.head, s.pivot - 1, s.pivot - 1) == Some(area)
    ensures var t := Packed1(s, area);
            && Bounds(t) && (CompactData(AsWritten, t).Some? <==> s.volume == 0 || !NilReference(s))
            && (CompactData(AsWritten, t).Some? ==> CompactData(AsWritten, t) == CompactData(Repaired, t))
  {
    hide Layout, Written, Sparse, NilReference, Condensed, PackIndex, CompactData;
    IndexStep(AsWritten, s);
    var t := Packed1(s, area);
    CondensedSparse(s, t);
    CondensedFields(s, t);
    CondensedSameRefs(s, t);
    CompactDataAsWritten(t);
  }

  lemma CondensedSameRefs(s: State, t: State)
    requires Condensed(s, t) && forall k :: s.pivot <= k < |s.area| ==> t.area[k] == s.area[k]
    ensures Bounds(s) && Bounds(t) && (NilReference(t) <==> NilReference(s)) && t.volume == s.volume
  {
    SameNilReferences(s, t);
  }
}
