/** One tuple for each place where the source, as written, does not do what it should. Each is
    steady and passes the check before the operation. */
module Defects {
  import opened Ledger
  import opened Tuples
  import opened Gear
  import opened Reallocating
  import opened Compaction
  import opened Compactness
  import opened Operations
  import opened Writing
  import opened Stepping
  import opened Assigning
  import opened Running
  import opened Growth
  import opened Audit
  import opened Agreement

  const WORD := Unit(7, Tag(0, 0), 0)

  ghost predicate Ready(s: State) { Steady(s) && AcceptableRw(s) }

  /** A fixed-size field of one unit. */
  function Word(rel: int): Unit { Unit(rel, Tag(8, 1), 1) }

  /** A variable-length payload of `units` units begins with its length. */
  function Header(units: nat): Unit { Unit(units, Tag(0, 0), 0) }

  /** A tuple with at most one hole that has payload, away from the end of data. */
  lemma OneGap(s: State, h: nat)
    requires Layout(s) && (forall k: nat :: GapAt(s, k) ==> k == h) && (GapAt(s, h) ==> HoleEnd(s, h) != s.tail)
    requires s.head < s.pivot ==> s.head < |s.area| && !(IsHole(s.area[s.head]) && HoleSize(s, s.head) == 0)
    ensures Good(s)
  {
    hide Slots, Packed, HolesMarked;
  }

  // ---- A split hole overlaps the next field ----------------------------------------------------------

  /** A field, and before its payload a hole of three units. */
  function BeforeSplit(): State {
    State([EMPTY_HOLE, Word(5), HoleUnit(2, 3, 3), WORD, WORD, WORD, WORD, WORD], 1, 3, 7, 1, 3, [])
  }

  lemma BeforeSplitLayout()
    ensures Layout(BeforeSplit())
  {
    var s := BeforeSplit();
    var c := Slots(s);
    assert c == [Slot(false, 6, 1), Slot(true, 3, 3)];
    assert c[1..] == [Slot(true, 3, 3)];
  }

  lemma BeforeSplitIsReady()
    ensures Ready(BeforeSplit())
  {
    hide Layout, Coalesced, AcceptableRw;
    BeforeSplitLayout();
    OneGap(BeforeSplit(), 2);
    AuditComplete(BeforeSplit());
  }

  lemma BeforeSplitSplits()
    ensures var s := BeforeSplit(); LookupBestFit(s, 1) == Some(2) && !NoDescriptor(s)
  {
    var s := BeforeSplit();
    assert ScanForBestFit(s, 1, 2, 1, None) == Some(2);
    assert FirstWithTag(s.area, 1, 3, MakeHole(0)).None?;
  }

  /** alloc_loose of one unit puts the remainder of the hole over the payload of the field. */
  lemma SplitOverlaps()
    ensures var s, op := BeforeSplit(), Insert(Tag(8, 2), Data([WORD]));
            && Ready(s) && Legal(s, op) && !Sound(s, Act(AsWritten, s, op), EffectOf(s, op))
            && !Sound(s, Apply(AsWritten, s, op), EffectOf(s, op))
  {
    BeforeSplitIsReady();
    BeforeSplitSplits();
    var s, op := BeforeSplit(), Insert(Tag(8, 2), Data([WORD]));
    hide Steady, Sound, Act, Apply, LookupBestFit, NoDescriptor, EffectOf, AcceptableRw, Grows;
    ActIff(AsWritten, s, op);
    StepIff(AsWritten, s, op);
  }

  // ---- A swap leaves a hole at the end of data ----------------------------------------------------------

  /** No room for a descriptor; the last chunk grows from one unit to two, the size of the hole. */
  function BeforeSwap(): State {
    State([Unit(6, Tag(1, 1), 1), HoleUnit(1, 3, 2), Word(3), WORD, WORD, WORD, Header(1), WORD], 0, 3, 7, 1, 2, [])
  }

  lemma BeforeSwapIsReady()
    ensures Ready(BeforeSwap())
  {
    hide Layout, Coalesced, AcceptableRw;
    BeforeSwapLayout();
    OneGap(BeforeSwap(), 1);
    AuditComplete(BeforeSwap());
  }

  lemma BeforeSwapLayout()
    ensures Layout(BeforeSwap())
  {
    var s := BeforeSwap();
    var c := Slots(s);
    assert c == [Slot(false, 6, 1), Slot(true, 3, 2), Slot(false, 5, 1)];
    assert c[1..] == [Slot(true, 3, 2), Slot(false, 5, 1)];
    assert c[1..][1..] == [Slot(false, 5, 1)];
  }

  lemma BeforeSwapSwaps()
    ensures var s := BeforeSwap(); TakesSwap(s, 0, 1, 2) && UnitsAt(s, 0) == 1
  {
    var s := BeforeSwap();
    assert ScanForAdjacent(s, 6, 7, 1, 1, None, None) == (None, None);
    assert FirstWithTag(s.area, 0, 3, MakeHole(0)).None?;
    assert FirstWithTag(s.area, 1, 3, MakeHole(2)) == Some(1);
  }

  lemma SwapLeavesHoleAtTail()
    ensures var s, op := BeforeSwap(), Assign(0, Data([Header(2), WORD]));
            && Ready(s) && Legal(s, op) && !Sound(s, Act(AsWritten, s, op), EffectOf(s, op))
            && !Sound(s, Apply(AsWritten, s, op), EffectOf(s, op))
  {
    BeforeSwapIsReady();
    BeforeSwapSwaps();
    var s, op := BeforeSwap(), Assign(0, Data([Header(2), WORD]));
    hide Steady, Sound, Act, Apply, TakesSwap, EffectOf, AcceptableRw, Grows;
    ActIff(AsWritten, s, op);
    StepIff(AsWritten, s, op);
  }

  // ---- A throwing erase counts junk that is not there ---------------------------------------------------------

  /** A preplaced field of one unit between the preplaced part and another field's payload. */
  function BeforeErase(): State {
    State([Word(3), Unit(1, Tag(0, 0), 1), Header(1), WORD], 0, 1, 4, 0, 0, [Some(1)])
  }

  lemma BeforeEraseLayout()
    ensures Layout(BeforeErase())
  {
    var s := BeforeErase();
    var c := Slots(s);
    assert c == [Slot(false, 3, 1), Slot(false, 2, 1)];
    assert c[1..] == [Slot(false, 2, 1)];
  }

  lemma BeforeEraseIsReady()
    ensures Ready(BeforeErase())
  {
    hide Layout, Coalesced, AcceptableRw;
    BeforeEraseLayout();
    OneGap(BeforeErase(), 0);
    AuditComplete(BeforeErase());
  }

  lemma ThrowRaisesVolume()
    ensures var s, op := BeforeErase(), Assign(1, Nil);
            && Ready(s) && Legal(s, op) && !Sound(s, Apply(AsWritten, s, op), EffectOf(s, op))
            && Apply(AsWritten, s, op) == Deficit(s.(volume := 1), 1, 0)
  {
    BeforeEraseIsReady();
    var s, op := BeforeErase(), Assign(1, Nil);
    assert NoRoom(s, 1, 1) && UnitsAt(s, 1) == 1;
    assert AdjacentHoles(s, 2, 3) == (None, None);
    assert Put(Disown(s, 1), 1, s.area[1]).area == s.area;
    assert Act(AsWritten, s, op) == Deficit(s.(volume := 1), 1, 0);
    hide Steady, Act, AcceptableRw, EffectOf;
  }

  // ---- compactify meets its own assertions ---------------------------------------------------------------------

  /** A hole, and a preplaced field without value. */
  function BeforeCompact(): State {
    State([EMPTY_HOLE, Word(4), HoleUnit(2, 4, 1), Unit(0, Tag(0, 0), 0), WORD, WORD], 1, 3, 6, 1, 1, [Some(1)])
  }

  lemma BeforeCompactLayout()
    ensures Layout(BeforeCompact())
  {
    var s := BeforeCompact();
    var c := Slots(s);
    assert c == [Slot(false, 5, 1), Slot(true, 4, 1), NOTHING];
    assert c[1..] == [Slot(true, 4, 1), NOTHING];
    assert c[1..][1..] == [NOTHING];
  }

  lemma BeforeCompactIsReady()
    ensures Ready(BeforeCompact())
  {
    hide Layout, Coalesced, AcceptableRw;
    BeforeCompactLayout();
    OneGap(BeforeCompact(), 2);
    AuditComplete(BeforeCompact());
  }

  lemma AbsentPreplacedAsserts()
    ensures var s := BeforeCompact();
            Ready(s) && Legal(s, Compact) && Act(AsWritten, s, Compact) == AssertionFailed
            && NilReference(s) && !NilDisplaced(s) && !Brimful(s)
  {
    BeforeCompactIsReady();
    var s := BeforeCompact();
    assert Refers(s, 3) && s.area[3].rel == 0;
    hide Compactify;
    CompactifyAsWrittenIff(s);
  }

  /** A variable-length loose field without payload, and after it in the index a hole. */
  function BeforePack(): State {
    State([EMPTY_HOLE, Unit(0, Tag(1, 1), 0), HoleUnit(2, 4, 1), Word(2), WORD, WORD], 1, 4, 6, 1, 1, [])
  }

  lemma BeforePackLayout()
    ensures Layout(BeforePack())
  {
    var s := BeforePack();
    var c := Slots(s);
    assert c == [NOTHING, Slot(true, 4, 1), Slot(false, 5, 1)];
    assert c[1..] == [Slot(true, 4, 1), Slot(false, 5, 1)];
    assert c[1..][1..] == [Slot(false, 5, 1)];
  }

  lemma BeforePackIsReady()
    ensures Ready(BeforePack())
  {
    hide Layout, Coalesced, AcceptableRw;
    BeforePackLayout();
    OneGap(BeforePack(), 2);
    AuditComplete(BeforePack());
  }

  lemma AbsentLooseAsserts()
    ensures var s := BeforePack();
            Ready(s) && Legal(s, Compact) && Act(AsWritten, s, Compact) == AssertionFailed
            && NilDisplaced(s) && !NilReference(s) && !Brimful(s)
  {
    BeforePackIsReady();
    var s := BeforePack();
    assert NilLoose(s.area[1]) && IsHole(s.area[2]);
    hide Compactify;
    CompactifyAsWrittenIff(s);
  }

  /** No space below the index, and one hole in it. */
  function BeforeBrim(): State {
    State([Word(3), HoleUnit(1, 2, 1), WORD, WORD], 0, 2, 4, 1, 1, [])
  }

  lemma BeforeBrimIsReady()
    ensures Ready(BeforeBrim())
  {
    hide Layout, Coalesced, AcceptableRw;
    BeforeBrimLayout();
    OneGap(BeforeBrim(), 1);
    AuditComplete(BeforeBrim());
  }

  lemma BeforeBrimLayout()
    ensures Layout(BeforeBrim())
  {
    var s := BeforeBrim();
    var c := Slots(s);
    assert c == [Slot(false, 3, 1), Slot(true, 2, 1)];
    assert c[1..] == [Slot(true, 2, 1)];
  }

  lemma BrimfulIndexAsserts()
    ensures var s := BeforeBrim();
            Ready(s) && Legal(s, Compact) && Act(AsWritten, s, Compact) == AssertionFailed
            && Brimful(s) && !NilDisplaced(s) && !NilReference(s)
  {
    BeforeBrimIsReady();
    var s := BeforeBrim();
    hide Compactify;
    CompactifyAsWrittenIff(s);
  }

  // ---- A field without payload cannot be appended ----------------------------------------------------------------

  /** A null nested tuple whose token tells null from nothing, appended to a collection. */
  lemma AbsentInsertAsserts()
    ensures var s, op := BeforeSplit(), Insert(Tag(2, 2), Nil);
            Ready(s) && Legal(s, op) && Act(AsWritten, s, op) == AssertionFailed && Act(Repaired, s, op).Ok?
  {
    BeforeSplitIsReady();
    BeforeSplitSplits();
    hide LookupBestFit;
  }

  // ---- The audit allows fewer descriptors than a tuple can get ------------------------------------------------------

  const SMALL := Unit(1, Tag(4, 1), 0)

  function Refs(n: nat): seq<Option<nat>> { seq(n, i => Some(0)) }

  /** As many fields in their descriptors, below them `free` units, after them the references. */
  function Small(free: nat, fields: nat, refs: nat): State {
    State(seq(free, i => EMPTY_HOLE) + seq(fields, i => SMALL) + seq(refs, i => Unit(0, Tag(0, 0), 0)),
          free, free + fields, free + fields + refs, 0, 0, Refs(refs))
  }

  lemma {:induction false} SmallReferences(refs: nat)
    ensures References(Refs(refs)) == refs
    decreases refs
  {
    if refs > 0 {
      assert Refs(refs)[1..] == Refs(refs - 1);
      SmallReferences(refs - 1);
    }
  }

  lemma SmallIsSteady(free: nat, fields: nat, refs: nat)
    requires free + fields + refs <= MAX_UNITS
    ensures var s := Small(free, fields, refs);
            Steady(s) && (AcceptableRw(s) <==> fields + refs <= MAX_FIELDS) && Bounds(s)
            && References(s.schema) == refs
  {
    hide Coalesced, AcceptableRw, UnitsAt;
    var s := Small(free, fields, refs);
    forall i | 0 <= i < |Slots(s)| ensures Slots(s)[i] == NOTHING {}
    NothingSums(Slots(s));
    SmallReferences(refs);
    OneGap(s, 0);
    AuditComplete(s);
  }

  lemma SmallInsert(fields: nat, refs: nat)
    requires 1 + fields + refs <= MAX_UNITS
    ensures var s, op := Small(1, fields, refs), Insert(Tag(4, 2), Inline(1));
            && Bounds(s) && Legal(s, op) && Act(AsWritten, s, op).Ok? && Clean(AsWritten, s, op) && Grows(s, op)
  {
    var s := Small(1, fields, refs);
    assert TakesNew(s);
  }

  /** One variable-length preplaced field and all the loose fields the tuple was created for: the
      insert that takes the last place is what it should be, and fails the check after it. */
  lemma LimitForgetsReferences()
    ensures var s, op := Small(1, 8190, 1), Insert(Tag(4, 2), Inline(1));
            && Ready(s) && s.pivot <= MAX_FIELDS && Legal(s, op) && Act(AsWritten, s, op).Ok?
            && Sound(s, Act(AsWritten, s, op), EffectOf(s, op)) && Apply(AsWritten, s, op) == AssertionFailed
  {
    hide Steady, Act, Legal, Sound, Clean, AcceptableRw, EffectOf, Grows, Furnished, References;
    var s, op := Small(1, 8190, 1), Insert(Tag(4, 2), Inline(1));
    SmallIsSteady(1, 8190, 1);
    SmallInsert(8190, 1);
    SmallFails(s, op);
  }

  /** An index moved up by a rebalancing can outgrow the limit without any reference. */
  lemma LimitForgetsRebalancing()
    ensures var s, op := Small(1, 8191, 0), Insert(Tag(4, 2), Inline(1));
            && Ready(s) && s.pivot > MAX_FIELDS && Legal(s, op) && Act(AsWritten, s, op).Ok?
            && Sound(s, Act(AsWritten, s, op), EffectOf(s, op)) && Apply(AsWritten, s, op) == AssertionFailed
  {
    hide Steady, Act, Legal, Sound, Clean, AcceptableRw, EffectOf, Grows, Furnished, References;
    var s, op := Small(1, 8191, 0), Insert(Tag(4, 2), Inline(1));
    SmallIsSteady(1, 8191, 0);
    SmallInsert(8191, 0);
    SmallFails(s, op);
  }

  lemma SmallFails(s: State, op: Op)
    requires Ready(s) && Bounds(s) && Legal(s, op) && op.Insert? && Act(AsWritten, s, op).Ok? && Clean(AsWritten, s, op)
    requires Grows(s, op) && s.pivot - s.head + References(s.schema) == MAX_FIELDS
    ensures Sound(s, Act(AsWritten, s, op), EffectOf(s, op)) && Apply(AsWritten, s, op) == AssertionFailed
  {
    hide Steady, Act, Legal, Clean, AcceptableRw, EffectOf, Grows, Furnished, References, Shows;
    ActIff(AsWritten, s, op);
    GrowthIs(AsWritten, s, op);
    AuditComplete(s);
    ClosingCheck(s, Act(AsWritten, s, op).state, op);
  }
}
