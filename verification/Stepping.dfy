/** Each operation of the tuple against its effect on what the user sees. */
module Stepping {
  import opened Ledger
  import opened Tuples
  import opened Gear
  import opened Searching
  import opened Keeping
  import opened Merging
  import opened Reclaiming
  import opened Adding
  import opened Framing
  import opened Compaction
  import opened Operations
  import opened Abstract
  import opened Writing

  /** A tuple between two operations. */
  ghost predicate Steady(s: State) { Good(s) && Written(s) }

  lemma SteadyBounds(s: State)
    requires Steady(s)
    ensures Bounds(s) && Layout(s)
  {
  }

  lemma SameElsewhereThen(s: State, t: State, u: State, x: int)
    requires SameElsewhere(s, t, x) && SameElsewhere(t, u, x)
    ensures SameElsewhere(s, u, x)
  {
    hide Piece, PreplacedAt;
  }

  /** Room has been made for field `k`, other fields are untouched; now its value is written. */
  lemma WriteAfterRoom(s: State, t: State, k: nat, v: Value)
    requires Steady(s) && Good(t) && Untouched(s, t, k) && k < Floor(s) && v.Data?
    requires k < |t.area| && Chunk(t, k, Payload(t, k), |v.units|) && Proper(GenusOf(t, k), v)
    ensures Steady(Write(t, k, v)) && SameElsewhere(s, Write(t, k, v), k)
    ensures ValueAt(Write(t, k, v), k) == v && Write(t, k, v).area[k] == t.area[k]
    ensures Write(t, k, v).head == t.head && Write(t, k, v).pivot == t.pivot && Write(t, k, v).schema == t.schema
  {
    var at := Payload(t, k);
    SteadyBounds(s);
    BoundsOf(t);
    hide Layout, Coalesced, Untouched, ValueAt, BruttoUnits, LooseUnits, SameElsewhere;
    WrittenElsewhere(s, t, k);
    UntouchedShowsSame(s, t, k);
    WriteShows(t, k, at, v.units);
    WriteCompletes(t, k, at, v.units);
    assert Write(t, k, v) == WithPayload(t, at, v.units);
    hide Written, SameBelow;
    SameBelowGood(t, Write(t, k, v));
    SameElsewhereThen(s, t, Write(t, k, v), k);
  }

  // ---- Inserting ---------------------------------------------------------------------------------------

  ghost predicate InsertedAs(s: State, t: State, tag: Tag, v: Value) {
    Steady(t) && Bounds(s) && Bounds(t) && ViewOf(t) == Perform(ViewOf(s), Gained(Field(tag, v)))
  }

  lemma NewInView(s: State, t: State, k: nat, tag: Tag, v: Value)
    requires SameElsewhere(s, t, k) && k < s.pivot && !IsLive(s, k) && IsLive(t, k) && t.area[k].tag == tag
             && ValueAt(t, k) == v
    ensures ViewOf(t) == Perform(ViewOf(s), Gained(Field(tag, v)))
  {
    ViewAtLoose(s, t, k);
  }

  lemma InsertData(s: State, t: State, k: nat, tag: Tag, v: Value)
    requires Steady(s) && Good(t) && Untouched(s, t, k) && !(k < |s.area| && IsLive(s, k)) && v.Data?
    requires Added(t, k, tag, |v.units|) && Proper(tag.genus, v) && |v.units| > 0
    ensures k < |t.area| && InsertedAs(s, Write(t, k, v), tag, v)
  {
    AddedLive(s, t, k, tag, |v.units|);
    SteadyBounds(s);
    hide Good, Written, Untouched, ValueAt, Proper, SameElsewhere, Layout;
    WriteAfterRoom(s, t, k, v);
    SteadyBounds(Write(t, k, v));
    LiveStays(t, Write(t, k, v), k);
    NewInView(s, Write(t, k, v), k, tag, v);
  }

  lemma LiveStays(t: State, u: State, k: nat)
    requires k < t.pivot && k < |t.area| && k < |u.area| && IsLive(t, k) && u.area[k] == t.area[k] && u.head == t.head
             && u.pivot == t.pivot
    ensures IsLive(u, k)
  {
  }

  lemma AddedLive(s: State, t: State, k: nat, tag: Tag, units: nat)
    requires Bounds(s) && Bounds(t) && Untouched(s, t, k) && Added(t, k, tag, units) && tag.genus != HOLE
    ensures k < |t.area| && k < s.pivot && k < Floor(s) && IsLive(t, k) && GenusOf(t, k) == tag.genus
    ensures units > 0 ==> Chunk(t, k, Payload(t, k), units)
  {
  }

  /** A value of at most 16 bits goes into the descriptor. */
  lemma InsertInline(s: State, t: State, k: nat, tag: Tag, v: Value)
    requires Steady(s) && Good(t) && Untouched(s, t, k) && !(k < |s.area| && IsLive(s, k)) && !v.Data?
    requires Added(t, k, tag, 0) && Proper(tag.genus, v)
    ensures k < |t.area| && InsertedAs(s, Write(t, k, v), tag, v)
  {
    SteadyBounds(s);
    BoundsOf(t);
    AddedLive(s, t, k, tag, 0);
    var u := Write(t, k, v);
    InlineGood(t, k, tag, v);
    InlineUntouched(s, t, k, v);
    hide Layout, Coalesced, Untouched, SameElsewhere, Proper;
    BoundsOf(u);
    WrittenElsewhere(s, u, k);
    UntouchedShowsSame(s, u, k);
    InlineReads(t, k, tag, v);
    assert Written(u);
    hide Written, ValueAt;
    NewInView(s, u, k, tag, v);
  }

  lemma InlineReads(t: State, k: nat, tag: Tag, v: Value)
    requires Bounds(t) && Added(t, k, tag, 0) && Proper(tag.genus, v) && !v.Data?
    ensures var u := Write(t, k, v); ValueAt(u, k) == v && !HasPayload(u, k) && IsLive(u, k) && u.area[k].tag == tag
  {
  }

  lemma InlineUntouched(s: State, t: State, k: nat, v: Value)
    requires Untouched(s, t, k) && k < |s.area| && !v.Data?
    ensures |t.area| == |s.area| && Untouched(s, Write(t, k, v), k)
  {
    if v.Inline? { CellUntouched(s, t, k, t.area[k].(rel := v.bits)); }
  }

  lemma InlineGood(t: State, k: nat, tag: Tag, v: Value)
    requires Good(t) && Added(t, k, tag, 0) && Proper(tag.genus, v) && !v.Data?
    ensures k < |t.area| && Good(Write(t, k, v))
  {
    var u := Write(t, k, v);
    if v.Inline? {
      InlineLayout(t, k, v.bits);
      hide Packed, Slots, HolesMarked, Separated, Clear, TightHead;
      InlineHoles(t, k, v.bits);
      SameHolesMeans(t, u);
    }
  }

  lemma InlineHoles(t: State, k: nat, bits: int)
    requires Bounds(t) && InIndex(t, k) && IsInplaced(t.area[k].tag.genus)
    ensures SameHoles(t, Put(t, k, t.area[k].(rel := bits)))
  {
  }

  lemma InlineLayout(t: State, k: nat, bits: int)
    requires Layout(t) && InIndex(t, k) && IsInplaced(t.area[k].tag.genus)
    ensures Layout(Put(t, k, t.area[k].(rel := bits)))
  {
    hide Packed, Slots, HolesMarked;
    var u := Put(t, k, t.area[k].(rel := bits));
    InlineHoles(t, k, bits);
    SameHolesMeans(t, u);
    PutSlots(t, k, u.area[k]);
    SlotOf(t, k);
    LayoutAfterRelabel(t, u, k - t.head, SlotAt(u, k));
  }

  /** No descriptor can be added. */
  predicate NoDescriptor(s: State)
    requires s.head <= s.pivot <= |s.area|
  {
    IndexAlloc(s, 0).Insufficient?
  }

  lemma InsertKeeps(mode: Mode, s: State, tag: Tag, v: Value)
    requires Steady(s) && Proper(tag.genus, v) && SplitsSafely(mode, s, Size(v)) && (v.Nil? ==> mode.Repaired?)
    ensures match InsertField(mode, s, tag, v)
            case Ok(t) => InsertedAs(s, t, tag, v)
            case Deficit(t, i, d) => t == s
            case AssertionFailed => false
  {
    hide Layout, Coalesced, Written, AllocLoose, InsertedAs, Write, Proper, Splits, Excess, Untouched, Added;
    SteadyBounds(s);
    ProperSize(tag, v);
    AllocLooseKeeps(mode, s, tag, Size(v));
    AllocLooseUntouched(mode, s, tag, Size(v));
    var r := AllocLoose(mode, s, tag, Size(v));
    if r.Done? {
      if v.Data? {
        InsertData(s, r.state, r.value, tag, v);
      } else {
        InsertInline(s, r.state, r.value, tag, v);
      }
    }
  }

  lemma ProperSize(tag: Tag, v: Value)
    requires Proper(tag.genus, v)
    ensures Allocatable(tag, Size(v)) && (v.Data? ==> |v.units| > 0)
  {
  }
}
