/** Erasing and assigning against their effect on what the user sees. */
module Assigning {
  import opened Ledger
  import opened Tuples
  import opened Gear
  import opened Searching
  import opened Merging
  import opened Reclaiming
  import opened Allocating
  import opened Reallocating
  import opened Framing
  import opened Compaction
  import opened Operations
  import opened Abstract
  import opened Writing
  import opened Stepping

  /** The view has changed by `e`, and the tuple is ready for the next operation. */
  ghost predicate Shows(s: State, t: State, e: Effect) {
    Steady(t) && Bounds(s) && Bounds(t) && ViewOf(t) == Perform(ViewOf(s), e)
  }

  // ---- Erasing ----------------------------------------------------------------------------------------

  function Length(s: State, k: nat): nat
    requires k < |s.area|
  {
    if HasPayload(s, k) then UnitsAt(s, k) else 0
  }

  lemma LengthIsOwn(s: State, k: nat)
    requires Steady(s) && InIndex(s, k) && !IsHole(s.area[k])
    ensures LooseWith(s, k, Length(s, k))
  {
    hide Packed, Slots, HolesMarked, Separated, Clear, TightHead, UnitsAt;
  }

  lemma EraseKeeps(s: State, k: nat)
    requires Steady(s) && InIndex(s, k) && !IsHole(s.area[k])
    ensures EraseField(s, k).Ok? && Shows(s, EraseField(s, k).state, Lost(FieldAt(s, k)))
  {
    LengthIsOwn(s, k);
    ReleaseKeeps(s, k, Length(s, k));
    ReleaseUntouched(s, k, Length(s, k));
    hide ReleaseLoose, UnitsAt, LooseWith;
    ErasedShows(s, ReleaseLoose(s, k, Length(s, k)), k);
  }

  lemma ErasedShows(s: State, t: State, k: nat)
    requires Steady(s) && Good(t) && Untouched(s, t, k) && k < s.pivot && k < |s.area| && IsLive(s, k) && !IsLive(t, k)
    ensures Shows(s, t, Lost(FieldAt(s, k)))
  {
    SteadyBounds(s);
    BoundsOf(t);
    hide Layout, Coalesced, UnitsAt, ValueAt;
    WrittenElsewhere(s, t, k);
    UntouchedShowsSame(s, t, k);
    assert t.pivot == s.pivot;
    hide Untouched, SameElsewhere;
    assert Written(t);
    ViewAtLoose(s, t, k);
  }

  // ---- The effect of an assignment ------------------------------------------------------------------------

  function AssignEffect(s: State, k: nat, v: Value): Effect
    requires k < |s.area|
  {
    if k >= s.pivot then Set(k - s.pivot, v)
    else if HasPayload(s, k) && Size(v) == 0 then Lost(FieldAt(s, k))
    else Changed(FieldAt(s, k), Field(s.area[k].tag, v))
  }

  /** Only field `k` differs, and it reads `v`. */
  lemma ChangedShows(s: State, t: State, k: nat, v: Value)
    requires Steady(s) && Steady(t) && SameElsewhere(s, t, k) && s.head <= k < Floor(s) && k < |s.area| && k < |t.area|
    requires IsLive(s, k) && IsLive(t, k) && ValueAt(t, k) == v && t.area[k].tag == s.area[k].tag
    ensures Shows(s, t, if k >= s.pivot then Set(k - s.pivot, v) else Changed(FieldAt(s, k), Field(s.area[k].tag, v)))
  {
    SteadyBounds(s);
    SteadyBounds(t);
    hide Steady, SameElsewhere, ValueAt, ViewOf;
    assert t.pivot == s.pivot && t.schema == s.schema by { SameShape(s, t, k); }
    if k < s.pivot {
      ChangedLoose(s, t, k);
    } else {
      ChangedPreplaced(s, t, k);
    }
  }

  lemma ChangedLoose(s: State, t: State, k: nat)
    requires Bounds(s) && SameElsewhere(s, t, k) && k < s.pivot && k < |t.area| && IsLive(s, k) && IsLive(t, k)
    ensures ViewOf(t) == Perform(ViewOf(s), Changed(FieldAt(s, k), FieldAt(t, k)))
  {
    ViewAtLoose(s, t, k);
    hide SameElsewhere, ValueAt, Bag;
  }

  lemma ChangedPreplaced(s: State, t: State, k: nat)
    requires Bounds(s) && SameElsewhere(s, t, k) && s.pivot <= k < Floor(s) && k < |s.area| && k < |t.area|
             && IsLive(s, k)
    ensures ViewOf(t) == Perform(ViewOf(s), Set(k - s.pivot, ValueAt(t, k)))
  {
    ViewAtPreplaced(s, t, k - s.pivot);
    hide ValueAt, Bag;
  }

  lemma SameShape(s: State, t: State, k: nat)
    requires SameElsewhere(s, t, k)
    ensures t.pivot == s.pivot && t.schema == s.schema && |t.area| == |s.area|
  {
  }

  /** Field `k` of `t` owns as many units as the new value takes. */
  lemma WriteKeeps(s: State, t: State, k: nat, v: Value)
    requires Steady(s) && Good(t) && Untouched(s, t, k) && s.head <= k < Floor(s) && k < |s.area| && IsLive(s, k)
    requires v.Data? && Proper(GenusOf(s, k), v) && k < |t.area| && Chunk(t, k, Payload(t, k), |v.units|)
    ensures Shows(s, Write(t, k, v),
            if k >= s.pivot then Set(k - s.pivot, v) else Changed(FieldAt(s, k), Field(s.area[k].tag, v)))
  {
    LiveSame(s, t, k, |v.units|);
    SteadyBounds(s);
    hide Good, Written, Untouched, ValueAt, Proper, SameElsewhere, Layout, Shows;
    WriteAfterRoom(s, t, k, v);
    LiveWritten(t, Write(t, k, v), k);
    ChangedShows(s, Write(t, k, v), k, v);
  }

  lemma LiveSame(s: State, t: State, k: nat, units: nat)
    requires Bounds(s) && Good(t) && Untouched(s, t, k) && s.head <= k < Floor(s) && k < |s.area| && IsLive(s, k)
    requires Chunk(t, k, Payload(t, k), units)
    ensures IsLive(t, k) && GenusOf(t, k) == GenusOf(s, k) && t.area[k].tag == s.area[k].tag
  {
    hide Packed, Slots, HolesMarked, Separated, Clear, TightHead;
  }

  lemma LiveWritten(t: State, u: State, k: nat)
    requires k < |t.area| && k < |u.area| && IsLive(t, k) && u.area[k] == t.area[k]
    requires u.head == t.head && u.pivot == t.pivot && u.schema == t.schema
    ensures IsLive(u, k)
  {
  }

  /** The field already owns as many units as the new value takes. */
  lemma OverwriteKeeps(s: State, k: nat, v: Value)
    requires Steady(s) && s.head <= k < Floor(s) && k < |s.area| && IsLive(s, k) && HasPayload(s, k)
    requires Proper(GenusOf(s, k), v) && Size(v) == UnitsAt(s, k)
    ensures v.Data?
    ensures Shows(s, Write(s, k, v),
            if k >= s.pivot then Set(k - s.pivot, v) else Changed(FieldAt(s, k), Field(s.area[k].tag, v)))
  {
    OwnsLength(s, k);
    assert v.Data?;
    hide Written, Untouched, ValueAt, Proper, Layout, Shows, Coalesced, UnitsAt;
    UntouchedRefl(s, k);
    WriteKeeps(s, s, k, v);
  }

  lemma OwnsLength(s: State, k: nat)
    requires Steady(s) && s.head <= k < Floor(s) && k < |s.area| && HasPayload(s, k)
    ensures Chunk(s, k, Payload(s, k), UnitsAt(s, k)) && UnitsAt(s, k) > 0
  {
    hide Packed, Slots, HolesMarked, Separated, Clear, TightHead, UnitsAt;
  }

  /** A value without payload replaces another. */
  lemma InlineKeeps(s: State, k: nat, v: Value)
    requires Steady(s) && s.head <= k < Floor(s) && k < |s.area| && IsLive(s, k) && !HasPayload(s, k)
    requires Proper(GenusOf(s, k), v) && Size(v) == 0 && (k < s.pivot || IsStretchy(GenusOf(s, k)))
    ensures Shows(s, Write(s, k, v), AssignEffect(s, k, v))
  {
    SteadyBounds(s);
    UntouchedRefl(s, k);
    var t := Write(s, k, v);
    if v.Inline? {
      InlineCell(s, k, v.bits);
      CellUntouched(s, s, k, s.area[k].(rel := v.bits));
    }
    InlineValue(s, k, v);
    hide Layout, Coalesced, Untouched, Proper, ValueAt;
    WrittenElsewhere(s, t, k);
    UntouchedShowsSame(s, t, k);
    assert Written(t);
    ChangedShows(s, t, k, v);
  }

  lemma InlineCell(s: State, k: nat, bits: int)
    requires Good(s) && InIndex(s, k) && IsInplaced(s.area[k].tag.genus)
    ensures Good(Put(s, k, s.area[k].(rel := bits)))
  {
    var t := Put(s, k, s.area[k].(rel := bits));
    InlineLayout(s, k, bits);
    hide Packed, Slots, HolesMarked, Separated, Clear, TightHead;
    InlineHoles(s, k, bits);
    SameHolesMeans(s, t);
  }

  lemma InlineValue(s: State, k: nat, v: Value)
    requires Bounds(s) && s.head <= k < Floor(s) && k < |s.area| && IsLive(s, k) && !HasPayload(s, k)
    requires Proper(GenusOf(s, k), v) && Size(v) == 0 && (k < s.pivot || IsStretchy(GenusOf(s, k)))
    ensures var t := Write(s, k, v);
            && |t.area| == |s.area| && ValueAt(t, k) == v && !HasPayload(t, k) && IsLive(t, k)
               && t.area[k].tag == s.area[k].tag
            && t.pivot == s.pivot && t.schema == s.schema && Bounds(t)
    ensures v.Inline? ==> InIndex(s, k) && IsInplaced(s.area[k].tag.genus)
    ensures v.Nil? ==> Write(s, k, v) == s
  {
  }

  // ---- A preplaced field loses its value -------------------------------------------------------------------

  lemma EmptyKeeps(mode: Mode, s: State, k: nat, v: Value)
    requires Steady(s) && s.pivot <= k < Floor(s) && k < |s.area| && IsLive(s, k) && HasPayload(s, k)
    requires Proper(GenusOf(s, k), v) && Size(v) == 0 && IsStretchy(GenusOf(s, k))
    ensures s.head <= s.pivot <= |s.area|
    ensures match ErasePreplaced(mode, s, k, UnitsAt(s, k))
            case Insufficient(t, i, d) =>
              NoRoom(s, k, UnitsAt(s, k)) && t == if mode.AsWritten? then s.(volume := s.volume + UnitsAt(s, k)) else s
            case Done(t, _) => !NoRoom(s, k, UnitsAt(s, k)) && Shows(s, t, AssignEffect(s, k, v))
  {
    hide UnitsAt, ErasePreplaced, Layout, Coalesced, Written, Shows, NoRoom, Chunk;
    SteadyBounds(s);
    OwnsLength(s, k);
    var have := UnitsAt(s, k);
    ErasePreplacedKeeps(mode, s, k, Payload(s, k), have);
    var r := ErasePreplaced(mode, s, k, have);
    if r.Done? {
      EmptyShows(s, r.state, k);
    }
  }

  lemma EmptyShows(s: State, t: State, k: nat)
    requires Steady(s) && Good(t) && Untouched(s, t, k) && s.pivot <= k < Floor(s) && k < |s.area| && IsLive(s, k)
    requires k < |t.area| && t.area[k].rel == 0
    ensures Shows(s, t, Set(k - s.pivot, Nil))
  {
    hide Layout, Coalesced, UnitsAt, SameElsewhere, ViewOf;
    SteadyBounds(s);
    BoundsOf(t);
    WrittenElsewhere(s, t, k);
    UntouchedShowsSame(s, t, k);
    assert Written(t);
    assert PreplacedAt(t, k - s.pivot) == Nil;
    ViewAtPreplaced(s, t, k - s.pivot);
    SetIs(s, t, k - s.pivot, Nil);
  }

  lemma SetIs(s: State, t: State, i: nat, v: Value)
    requires Bounds(s) && Bounds(t) && i < |s.schema| && ViewOf(t) == View(Bag(s, 0), Preplaced(s)[i := v])
    ensures ViewOf(t) == Perform(ViewOf(s), Set(i, v))
  {
    hide Bag, Preplaced;
  }

  // ---- The payload changes its length ------------------------------------------------------------------------

  lemma ReallocShows(mode: Mode, s: State, k: nat, v: Value)
    requires Steady(s) && s.head <= k < Floor(s) && k < |s.area| && IsLive(s, k) && HasPayload(s, k)
    requires Proper(GenusOf(s, k), v) && 0 < Size(v) != UnitsAt(s, k)
    ensures s.head <= s.pivot <= |s.area|
    ensures match ReallocData(mode, s, k, UnitsAt(s, k), Size(v))
            case Insufficient(t, i, d) => t == s
            case Done(t, _) =>
              k < |t.area| && (LeavesClear(mode, s, k, v) ==> Shows(s, Write(t, k, v), AssignEffect(s, k, v)))
                               && (!LeavesClear(mode, s, k, v) ==> Bounds(t) && !Coalesced(t))
  {
    SteadyBounds(s);
    OwnsLength(s, k);
    var have, at := UnitsAt(s, k), Payload(s, k);
    ProperBound(GenusOf(s, k), v);
    hide UnitsAt, ReallocData, Layout, Coalesced, Written, Shows, Untouched, TakesSwap, Proper, Chunk, HasPayload;
    ReallocKeeps(mode, s, k, at, have, Size(v));
    ReallocUntouched(mode, s, k, at, have, Size(v));
    var r := ReallocData(mode, s, k, have, Size(v));
    if r.Done? {
      ReallocatedShows(s, r.state, k, v, r.value);
      BoundsOf(r.state);
    }
  }

  lemma ReallocatedShows(s: State, t: State, k: nat, v: Value, begin: int)
    requires Steady(s) && s.head <= k < Floor(s) && k < |s.area| && IsLive(s, k) && Proper(GenusOf(s, k), v) && v.Data?
    requires Layout(t) && Untouched(s, t, k) && Chunk(t, k, begin, |v.units|)
    ensures k < |t.area|
    ensures Bounds(t) && (Coalesced(t) ==> Shows(s, Write(t, k, v), AssignEffect(s, k, v)))
  {
    assert Chunk(t, k, Payload(t, k), |v.units|);
    assert AssignEffect(s, k, v)
        == if k >= s.pivot then Set(k - s.pivot, v) else Changed(FieldAt(s, k), Field(s.area[k].tag, v));
    BoundsOf(t);
    hide UnitsAt, Layout, Coalesced, Written, Shows, Untouched, Chunk, Proper, ValueAt, AssignEffect, Write, Refers;
    if Coalesced(t) {
      WriteKeeps(s, t, k, v);
    }
  }

  lemma ProperBound(genus: nat, v: Value)
    requires Proper(genus, v)
    ensures Size(v) <= MAX_UNITS && (Size(v) > 0 ==> v.Data?)
  {
  }

  /** As written the swap leaves a hole at the end of data when it gives away the last chunk. */
  predicate LeavesClear(mode: Mode, s: State, k: nat, v: Value)
    requires s.head <= s.pivot <= |s.area| && k < |s.area|
  {
    mode.Repaired? || !TakesSwap(s, k, UnitsAt(s, k), Size(v)) || Payload(s, k) + UnitsAt(s, k) != s.tail
  }

  // ---- A field without payload gets one ------------------------------------------------------------------------

  lemma FillKeeps(s: State, k: nat, v: Value)
    requires Steady(s) && s.head <= k < Floor(s) && k < |s.area| && IsLive(s, k) && !HasPayload(s, k)
    requires Proper(GenusOf(s, k), v) && Size(v) > 0 && Refers(s, k)
    ensures s.head <= s.pivot <= |s.area|
    ensures match AllocData(s, Size(v), LookupBestFit(s, Size(v)))
            case Insufficient(t, i, d) => t == s
            case Done(t, begin) =>
              k < |t.area| && Shows(s, Write(Refer(t, k, begin, Size(v)), k, v), AssignEffect(s, k, v))
  {
    SteadyBounds(s);
    ProperBound(GenusOf(s, k), v);
    var units := Size(v);
    LookupFindsBest(s, units);
    var h := LookupBestFit(s, units);
    FillRoom(s, k, units, h);
    hide AllocData, LookupBestFit, Layout, Coalesced, Written, Shows, Untouched, IsBestFit, Proper;
    var r := AllocData(s, units, h);
    if r.Done? {
      WriteKeeps(s, Refer(r.state, k, r.value, units), k, v);
    }
  }

  lemma FillRoom(s: State, k: nat, units: nat, h: Option<nat>)
    requires Good(s) && s.head <= k < Floor(s) && k < |s.area| && Refers(s, k) && s.area[k].rel == 0 && units > 0
    requires h.Some? ==> Fits(s, units, h.value)
    ensures match AllocData(s, units, h)
            case Insufficient(t, i, d) => t == s
            case Done(t, begin) =>
              k < |t.area| &&
              var u := Refer(t, k, begin, units); Good(u) && Untouched(s, u, k) && Chunk(u, k, Payload(u, k), units)
  {
    BoundsOf(s);
    hide Layout, Coalesced, Untouched, TrimHole;
    UntouchedRefl(s, k);
    assert Vacant(s, k) && NoneLive(s, h);
    if h.Some? {
      FromHoleKeeps(s, k, h.value, units);
      FillTouches(s, k, units, h);
    } else if units <= TailSpace(s) {
      FromTailKeeps(s, k, units);
      FillTouches(s, k, units, h);
      assert Refer(AllocData(s, units, None).state, k, s.tail, units) == TakenFromTail(s, k, units);
    }
  }

  lemma FillTouches(s: State, k: nat, units: nat, h: Option<nat>)
    requires NoneLive(s, h) && k < |s.area|
    ensures var a := AllocData(s, units, h);
            |a.state.area| == |s.area| && (a.Done? ==> Untouched(s, Refer(a.state, k, a.value, units), k))
  {
    hide AllocData, Untouched;
    UntouchedRefl(s, k);
    AllocPartUntouched(s, s, k, units, h);
  }
}
