/** Runs of operations: what every step keeps, and what the user sees. */
module Running {
  import opened Ledger
  import opened Tuples
  import opened Gear
  import opened Searching
  import opened Reclaiming
  import opened Reallocating
  import opened Adding
  import opened Framing
  import opened Compaction
  import opened Compactness
  import opened Operations
  import opened Abstract
  import opened Writing
  import opened Stepping
  import opened Assigning
  import opened Growth
  import opened Audit
  import opened Agreement

  /** What the operation should do to the view. */
  function EffectOf(s: State, op: Op): Effect
    requires Bounds(s) && Legal(s, op)
  {
    match op
    case Insert(tag, v) => Gained(Field(tag, v))
    case Erase(k) => Lost(FieldAt(s, k))
    case Assign(k, v) => AssignEffect(s, k, v)
    case Compact => Nothing
  }

  /** As written debug_check audits the tuple: its fixed-size fields have payload, and with `more`
      further descriptors it is still within the limit. */
  ghost predicate Audited(mode: Mode, s: State, more: nat) {
    mode.Repaired? || (Furnished(s) && s.pivot - s.head + more + References(s.schema) <= MAX_FIELDS)
  }

  /** The conditions under which the source, as written, does what it should. All of them can
      be read off the tuple before the call. */
  ghost predicate Safe(mode: Mode, s: State, op: Op)
    requires Bounds(s) && Legal(s, op)
  {
    Clean(mode, s, op) && (Unchecked(s, op) || Audited(mode, s, if Grows(s, op) then 1 else 0))
  }

  /** Nothing is done, not even a check. */
  predicate Unchecked(s: State, op: Op) { op.Compact? && s.count == 0 && s.volume == 0 }

  /** The part of the guard that is about what is done between the checks. */
  ghost predicate Clean(mode: Mode, s: State, op: Op)
    requires Bounds(s) && Legal(s, op)
  {
    match op
    case Insert(tag, v) => (v.Nil? ==> mode.Repaired?) && (SplitsSafely(mode, s, Size(v)) || NoDescriptor(s))
    case Erase(k) => true
    case Assign(k, v) =>
      if !HasPayload(s, k) || Size(v) == UnitsAt(s, k) then true
      else if Size(v) == 0 then k < s.pivot || mode.Repaired? || !NoRoom(s, k, UnitsAt(s, k))
      else LeavesClear(mode, s, k, v)
    case Compact => mode.Repaired? || (!NilDisplaced(s) && !Brimful(s) && (s.volume == 0 || !NilReference(s)))
  }

  /** The operation either has its effect and keeps the tuple ready, or throws and changes
      nothing. */
  ghost predicate Sound(s: State, r: Result, e: Effect) {
    match r
    case Ok(t) => Shows(s, t, e)
    case Deficit(t, i, d) => t == s
    case AssertionFailed => false
  }

  // ---- Inserting --------------------------------------------------------------------------------------

  lemma NoDescriptorMeans(s: State, notify: int)
    requires s.head <= s.pivot <= |s.area|
    ensures NoDescriptor(s) <==> IndexAlloc(s, notify).Insufficient?
    ensures NoDescriptor(s) ==> IndexAlloc(s, notify).state == s
  {
  }

  lemma SplittingAllocates(mode: Mode, s: State, tag: Tag, units: nat)
    requires Good(s) && Allocatable(tag, units) && Splits(s, units)
    ensures AllocLoose(mode, s, tag, units).Insufficient? <==> NoDescriptor(s)
    ensures NoDescriptor(s) ==> AllocLoose(mode, s, tag, units).state == s
  {
    LookupFindsBest(s, units);
    var h := LookupBestFit(s, units).value;
    HoleBounds(s, h);
    WrapIsExact(HoleSize(s, h), units);
    NoDescriptorMeans(s, units);
    hide Layout, Coalesced, IndexAlloc, LookupBestFit, NoDescriptor;
  }

  lemma InsertIff(mode: Mode, s: State, tag: Tag, v: Value)
    requires Steady(s) && Proper(tag.genus, v)
    ensures s.head <= s.pivot <= |s.area|
    ensures Sound(s, InsertField(mode, s, tag, v), Gained(Field(tag, v)))
            <==> (v.Nil? ==> mode.Repaired?) && (SplitsSafely(mode, s, Size(v)) || NoDescriptor(s))
  {
    SteadyBounds(s);
    ProperSize(tag, v);
    hide Layout, Coalesced, Written, AllocLoose, Write, Proper, Splits, Excess, Untouched, ViewOf, NoDescriptor;
    if v.Nil? && mode.AsWritten? {
    } else if SplitsSafely(mode, s, Size(v)) {
      InsertKeeps(mode, s, tag, v);
    } else {
      SplittingAllocates(mode, s, tag, Size(v));
      if !NoDescriptor(s) {
        MisplacedInsert(mode, s, tag, v);
      }
    }
  }

  lemma MisplacedInsert(mode: Mode, s: State, tag: Tag, v: Value)
    requires Steady(s) && Proper(tag.genus, v) && s.head <= s.pivot <= |s.area|
    requires !SplitsSafely(mode, s, Size(v)) && AllocLoose(mode, s, tag, Size(v)).Done?
    ensures var r := InsertField(mode, s, tag, v); r.Ok? && !Good(r.state)
  {
    hide Layout, Coalesced, Written, AllocLoose, Excess, LookupBestFit, Untouched, Added, Write, Proper;
    ProperSize(tag, v);
    AllocLooseKeeps(mode, s, tag, Size(v));
    var r := AllocLoose(mode, s, tag, Size(v));
    WritingSpoilsNothing(r.state, r.value, v);
  }

  /** Writing a payload in its place neither breaks the layout nor mends it. */
  lemma WritingSpoilsNothing(t: State, k: nat, v: Value)
    requires Bounds(t) && v.Data? && k < |t.area| && Floor(t) <= Payload(t, k) && Payload(t, k) + |v.units| <= |t.area|
    ensures Good(Write(t, k, v)) <==> Good(t)
  {
    hide Layout, Coalesced, SameBelow;
    WrittenCells(t, Payload(t, k), v.units);
    assert Write(t, k, v) == WithPayload(t, Payload(t, k), v.units);
    SameBelowGood(t, Write(t, k, v));
  }

  // ---- Assigning -------------------------------------------------------------------------------------------

  lemma UnclearSwap(mode: Mode, s: State, k: nat, v: Value)
    requires Steady(s) && s.head <= k < Floor(s) && k < |s.area| && IsLive(s, k) && HasPayload(s, k)
    requires Proper(GenusOf(s, k), v) && 0 < Size(v) != UnitsAt(s, k)
    requires s.head <= s.pivot <= |s.area| && !LeavesClear(mode, s, k, v)
    ensures var r := ReallocData(mode, s, k, UnitsAt(s, k), Size(v));
            r.Done? && k < |r.state.area| && !Good(Write(r.state, k, v))
  {
    hide UnitsAt, ReallocData, Layout, Coalesced, Written, TakesSwap, Proper, Write, Chunk;
    SteadyBounds(s);
    OwnsLength(s, k);
    ProperBound(GenusOf(s, k), v);
    SwapTaken(mode, s, k, UnitsAt(s, k), Size(v));
    ReallocKeeps(mode, s, k, Payload(s, k), UnitsAt(s, k), Size(v));
    var r := ReallocData(mode, s, k, UnitsAt(s, k), Size(v));
    ChunkPlace(r.state, k, r.value, Size(v));
    WritingSpoilsNothing(r.state, k, v);
  }

  lemma ChunkPlace(t: State, k: nat, at: int, units: nat)
    requires Layout(t) && Chunk(t, k, at, units)
    ensures Bounds(t) && k < |t.area| && Payload(t, k) == at && Floor(t) <= at && at + units <= |t.area|
  {
    hide Slots, Packed, HolesMarked;
    ChunkBounds(t, k, at, units);
  }

  lemma SwapTaken(mode: Mode, s: State, k: nat, have: nat, needed: nat)
    requires s.head <= s.pivot <= |s.area| && k < |s.area| && TakesSwap(s, k, have, needed)
    ensures ReallocData(mode, s, k, have, needed).Done?
  {
    hide LookupExact, AdjacentHoles, GiveBack, ReleaseAndAlloc, LookupBestFit;
  }

  lemma AssignIff(mode: Mode, s: State, k: nat, v: Value)
    requires Steady(s) && Bounds(s) && Legal(s, Assign(k, v))
    ensures Sound(s, AssignField(mode, s, k, v), AssignEffect(s, k, v)) <==> Clean(mode, s, Assign(k, v))
  {
    hide Layout, Coalesced, Written, UnitsAt, NoRoom, Shows, LeavesClear, Proper, ErasePreplaced, ReallocData,
        AllocData, LookupBestFit, Write, ReleaseLoose, ValueAt;
    if HasPayload(s, k) {
      AssignIffPayload(mode, s, k, v);
    } else if Size(v) == 0 {
      InlineKeeps(s, k, v);
    } else {
      NeedsPayload(s, k, v);
      FillKeeps(s, k, v);
    }
  }

  lemma NeedsPayload(s: State, k: nat, v: Value)
    requires Bounds(s) && Legal(s, Assign(k, v)) && Size(v) > 0
    ensures Refers(s, k)
  {
  }

  lemma AssignIffPayload(mode: Mode, s: State, k: nat, v: Value)
    requires Steady(s) && Bounds(s) && Legal(s, Assign(k, v)) && HasPayload(s, k)
    ensures Sound(s, AssignField(mode, s, k, v), AssignEffect(s, k, v)) <==> Clean(mode, s, Assign(k, v))
  {
    hide Layout, Coalesced, Written, UnitsAt, NoRoom, Shows, LeavesClear, Proper, ErasePreplaced, ReallocData,
        AllocData;
    hide LookupBestFit, Write, ReleaseLoose, ValueAt, Chunk;
    OwnsLength(s, k);
    if Size(v) == UnitsAt(s, k) {
      OverwriteKeeps(s, k, v);
    } else if Size(v) > 0 {
      AssignIffResized(mode, s, k, v);
    } else if k < s.pivot {
      EraseKeeps(s, k);
    } else {
      EmptyKeeps(mode, s, k, v);
    }
  }

  lemma AssignIffResized(mode: Mode, s: State, k: nat, v: Value)
    requires Steady(s) && Bounds(s) && Legal(s, Assign(k, v)) && HasPayload(s, k) && 0 < Size(v) != UnitsAt(s, k)
    ensures Sound(s, AssignField(mode, s, k, v), AssignEffect(s, k, v)) <==> LeavesClear(mode, s, k, v)
  {
    ReallocShows(mode, s, k, v);
    if !LeavesClear(mode, s, k, v) {
      UnclearSwap(mode, s, k, v);
    }
    hide Layout, Coalesced, Written, UnitsAt, LeavesClear, Proper, ReallocData, Write, ValueAt, ViewOf;
  }

  // ---- Compacting ---------------------------------------------------------------------------------------------

  lemma CompactShows(s: State, t: State)
    requires Bounds(s) && Compacted(s, t)
    ensures Shows(s, t, Nothing)
  {
    BoundsOf(t);
    BagOfTuple(s);
    BagOfTuple(t);
    PreplacedSame(s, t);
    hide Layout, Coalesced, Written, LooseFields, Bag, PreplacedKept, Preplaced;
  }

  lemma PreplacedSame(s: State, t: State)
    requires Bounds(s) && Bounds(t) && PreplacedKept(s, t)
    ensures Preplaced(t) == Preplaced(s)
  {
    hide ValueAt;
  }

  lemma CompactIff(mode: Mode, s: State)
    requires Steady(s) && Bounds(s) && Legal(s, Compact)
    ensures Sound(s, Act(mode, s, Compact), Nothing) <==> Clean(mode, s, Compact)
  {
    CompactifyKeeps(s);
    CompactifyAsWrittenIff(s);
    hide Compactify, Layout, Coalesced, Written, Compacted, NilReference, NilDisplaced, Shows;
    CompactShows(s, Compactify(Repaired, s).value);
  }

  /** Every loose field the user sees can be erased, and assigned every value of its type; so can
      every preplaced field of variable length. */
  lemma EveryFieldIsLegal(s: State, f: Field)
    requires Bounds(s) && f in ViewOf(s).loose
    ensures exists k: nat :: InIndex(s, k) && FieldAt(s, k) == f && Legal(s, Erase(k))
                             && forall v: Value :: Proper(f.tag.genus, v) ==> Legal(s, Assign(k, v))
  {
    hide Preplaced, ValueAt, Proper;
    BagHolds(s, 0, f);
    var k: nat :| k < s.pivot && IsLive(s, k) && f == FieldAt(s, k);
    assert InIndex(s, k) && Legal(s, Erase(k));
  }

  lemma EveryReferenceIsLegal(s: State, i: nat, v: Value)
    requires Bounds(s) && i < |s.schema| && s.schema[i].Some? && IsStretchy(s.schema[i].value)
    ensures Legal(s, Assign(s.pivot + i, v)) <==> Proper(s.schema[i].value, v)
  {
    hide Proper;
  }

  // ---- Steps and runs --------------------------------------------------------------------------------------------

  /** What is done between the checks is sound exactly under its part of the guard. */
  lemma ActIff(mode: Mode, s: State, op: Op)
    requires Steady(s) && Bounds(s) && Legal(s, op)
    ensures Sound(s, Act(mode, s, op), EffectOf(s, op)) <==> Clean(mode, s, op)
    ensures mode.Repaired? ==> Clean(mode, s, op)
  {
    match op
    case Insert(tag, v) => InsertIff(mode, s, tag, v);
    case Erase(k) => EraseKeeps(s, k);
    case Assign(k, v) => AssignIff(mode, s, k, v);
    case Compact => CompactIff(mode, s);
  }

  /** A legal operation leaves no fixed-size field without payload. */
  lemma EffectPresent(v: View, s: State, op: Op)
    requires Bounds(s) && Legal(s, op) && AllPresent(v)
    ensures AllPresent(Perform(v, EffectOf(s, op)))
  {
    hide ValueAt;
  }

  /** The check after an operation passes unless the operation has left the limit. */
  lemma ClosingCheck(s: State, t: State, op: Op)
    requires Steady(s) && Bounds(s) && Legal(s, op) && Shows(s, t, EffectOf(s, op)) && Furnished(s)
    ensures AcceptableRw(t) <==> InLimit(t)
  {
    hide Steady, ViewOf, Perform, AllPresent, Furnished, AcceptableRw, EffectOf, Legal, InLimit;
    FurnishedIsSeen(s);
    EffectPresent(ViewOf(s), s, op);
    FurnishedIsSeen(t);
    AuditComplete(t);
  }

  /** Without holes in the index compactify ends with a check but does not begin with one. */
  lemma ClosingCompact(s: State, t: State)
    requires Steady(s) && Bounds(s) && Legal(s, Compact) && s.count == 0
    requires Shows(s, t, Nothing) && Compactify(AsWritten, s) == Some(t)
    ensures AcceptableRw(t) <==> Furnished(s) && InLimit(s)
  {
    hide Layout, Coalesced, Written, ViewOf, AllPresent, Furnished, AcceptableRw, Compactify, NilDisplaced,
        NilReference;
    CompactifyKeeps(s);
    CompactifyAsWrittenIff(s);
    CompactHead(s, t);
    FurnishedIsSeen(s);
    FurnishedIsSeen(t);
    AuditComplete(t);
  }

  lemma CompactHead(s: State, t: State)
    requires Bounds(s) && Compacted(s, t)
    ensures t.head == s.head + s.count && t.pivot == s.pivot && t.schema == s.schema
  {
    hide Layout, Coalesced, Written;
  }

  lemma CheckedIff(s: State, op: Op)
    requires Steady(s) && Bounds(s) && Legal(s, op) && (op.Compact? ==> s.count > 0)
    ensures Sound(s, Apply(AsWritten, s, op), EffectOf(s, op)) <==> Safe(AsWritten, s, op)
  {
    hide Steady, Clean, Act, EffectOf, Legal, Shows, Grows, Furnished, AcceptableRw, References;
    ActIff(AsWritten, s, op);
    GrowthIs(AsWritten, s, op);
    AuditComplete(s);
    var r := Act(AsWritten, s, op);
    if Clean(AsWritten, s, op) && r.Ok? && Furnished(s) {
      ClosingCheck(s, r.state, op);
    }
  }

  lemma ClosedIff(s: State)
    requires Steady(s) && Bounds(s) && Legal(s, Compact) && s.count == 0
    ensures Sound(s, Apply(AsWritten, s, Compact), Nothing) <==> Safe(AsWritten, s, Compact)
  {
    hide Steady, Clean, Legal, Shows, Furnished, AcceptableRw, References, Compactify;
    ActIff(AsWritten, s, Compact);
    if Clean(AsWritten, s, Compact) && s.volume != 0 {
      ClosingCompact(s, Act(AsWritten, s, Compact).state);
    }
  }

  /** An operation of the library is sound exactly when its guard holds; repaired it always is. */
  lemma StepIff(mode: Mode, s: State, op: Op)
    requires Steady(s) && Bounds(s) && Legal(s, op)
    ensures Sound(s, Apply(mode, s, op), EffectOf(s, op)) <==> Safe(mode, s, op)
    ensures mode.Repaired? ==> Safe(mode, s, op)
  {
    hide Steady, Clean, Act, Legal, Sound, Grows, Furnished, AcceptableRw, References;
    if mode.Repaired? {
      ActIff(mode, s, op);
    } else if op.Compact? && s.count == 0 {
      ClosedIff(s);
    } else {
      NoCountBelow(s);
      CheckedIff(s, op);
    }
  }

  lemma NoCountBelow(s: State)
    requires Steady(s)
    ensures s.count >= 0
  {
  }

  /** The state an operation leaves behind, whether it completes or throws. */
  function After(s: State, r: Result): State {
    match r
    case Ok(t) => t
    case Deficit(t, i, d) => t
    case AssertionFailed => s
  }

  /** Each operation is legal in the state the ones before it have led to. */
  ghost predicate Goes(mode: Mode, s: State, ops: seq<Op>)
    decreases |ops|
  {
    ops == [] || (Bounds(s) && Legal(s, ops[0]) && Goes(mode, After(s, Apply(mode, s, ops[0])), ops[1..]))
  }

  ghost predicate Guarded(mode: Mode, s: State, ops: seq<Op>)
    requires Goes(mode, s, ops)
    decreases |ops|
  {
    ops == [] || (Safe(mode, s, ops[0]) && Guarded(mode, After(s, Apply(mode, s, ops[0])), ops[1..]))
  }

  ghost function Run(mode: Mode, s: State, ops: seq<Op>): State
    requires Goes(mode, s, ops)
    decreases |ops|
  {
    if ops == [] then s else Run(mode, After(s, Apply(mode, s, ops[0])), ops[1..])
  }

  /** The same run on the view: operations that throw do nothing. */
  ghost function RunView(mode: Mode, s: State, ops: seq<Op>, v: View): View
    requires Goes(mode, s, ops)
    decreases |ops|
  {
    if ops == [] then v
    else
      var r := Apply(mode, s, ops[0]);
      RunView(mode, After(s, r), ops[1..], if r.Ok? then Perform(v, EffectOf(s, ops[0])) else v)
  }

  lemma StepKeeps(mode: Mode, s: State, op: Op)
    requires Steady(s) && Bounds(s) && Legal(s, op) && Safe(mode, s, op)
    ensures var r := Apply(mode, s, op); var t := After(s, r);
            && Steady(t) && Bounds(t)
            && ViewOf(t) == if r.Ok? then Perform(ViewOf(s), EffectOf(s, op)) else ViewOf(s)
  {
    hide Steady, Safe, Apply, EffectOf, Legal, ViewOf;
    StepIff(mode, s, op);
  }

  /** Over every run the layout and the coalescing are kept and the bag of fields changes as
      the operations say; repaired without conditions, as written under the guards. */
  lemma {:induction false} RunKeeps(mode: Mode, s: State, ops: seq<Op>)
    requires Steady(s) && Goes(mode, s, ops) && (mode.Repaired? || Guarded(mode, s, ops))
    ensures Steady(Run(mode, s, ops)) && Bounds(s) && Bounds(Run(mode, s, ops))
    ensures ViewOf(Run(mode, s, ops)) == RunView(mode, s, ops, ViewOf(s))
    decreases |ops|
  {
    SteadyBounds(s);
    hide Steady, Safe, Apply, EffectOf, Legal, ViewOf, Perform;
    if ops != [] {
      StepIff(mode, s, ops[0]);
      StepKeeps(mode, s, ops[0]);
      RunKeeps(mode, After(s, Apply(mode, s, ops[0])), ops[1..]);
    }
  }

  /** After every run each unit between the preplaced part and the end of data belongs to
      exactly one live chunk or hole, and the junk counters are exact. */
  lemma RunPartitions(mode: Mode, s: State, ops: seq<Op>, u: int)
    requires Steady(s) && Goes(mode, s, ops) && (mode.Repaired? || Guarded(mode, s, ops))
    ensures var t := Run(mode, s, ops);
            && Bounds(t) && Holes(Slots(t)) == t.count && Volume(Slots(t)) == t.volume
            && (Floor(t) <= u < t.tail ==>
                  && (exists i :: 0 <= i < |Slots(t)| && Owns(Slots(t)[i], u))
                  && (forall i, j :: 0 <= i < j < |Slots(t)| && Owns(Slots(t)[i], u) ==> !Owns(Slots(t)[j], u)))
  {
    RunKeeps(mode, s, ops);
    hide Run, RunView, Goes, Guarded, ViewOf;
    var t := Run(mode, s, ops);
    if Floor(t) <= u < t.tail {
      Partition(Slots(t), Floor(t), t.tail, u);
    }
  }

  // ---- The index keeps its limit ------------------------------------------------------------------------------------

  lemma InsertStays(mode: Mode, s: State, tag: Tag, v: Value)
    requires s.head <= s.pivot <= |s.area|
    ensures After(s, InsertField(mode, s, tag, v)).pivot == s.pivot
  {
    hide LookupBestFit;
  }

  lemma EraseStays(s: State, k: nat)
    requires InIndex(s, k)
    ensures EraseField(s, k).state.pivot == s.pivot
  {
    hide UnitsAt, AdjacentHoles;
  }

  lemma EmptyStays(mode: Mode, s: State, k: nat, have: nat)
    requires s.head <= s.pivot <= |s.area| && k < |s.area|
    ensures ErasePreplaced(mode, s, k, have).state.pivot == s.pivot
  {
    hide AdjacentHoles;
  }

  lemma WithoutHolesStays(s: State, k: nat, have: nat, needed: nat)
    requires s.head <= s.pivot <= |s.area| && k < |s.area|
    ensures ReallocWithoutHoles(s, k, have, needed).state.pivot == s.pivot
  {
  }

  lemma SwapStays(mode: Mode, s: State, k: nat, have: nat, needed: nat)
    requires s.head <= s.pivot <= |s.area| && k < |s.area|
    ensures ReallocBySwap(mode, s, k, have, needed).state.pivot == s.pivot
  {
    hide LookupExact;
  }

  lemma ReleaseAndAllocStays(mode: Mode, s: State, k: nat, have: nat, needed: nat, before: Option<nat>,
      after: Option<nat>,
                             hole0: Option<nat>, cached: Option<nat>)
    requires ReadyBounds(s, k, before, after, hole0, cached)
    ensures ReleaseAndAlloc(mode, s, k, have, needed, before, after, hole0, cached).state.pivot == s.pivot
  {
    hide ReleaseData, HoleAfterRelease, TrimHole;
  }

  lemma ReallocStays(mode: Mode, s: State, k: nat, have: nat, needed: nat)
    requires s.head <= s.pivot <= |s.area| && k < |s.area|
    ensures ReallocData(mode, s, k, have, needed).state.pivot == s.pivot
  {
    hide AdjacentHoles, LookupBestFit, LookupExact, FirstWithTag, ReallocWithoutHoles, ReallocBySwap, ReleaseAndAlloc;
    WithoutHolesStays(s, k, have, needed);
    SwapStays(mode, s, k, have, needed);
    var (before, after) := AdjacentHoles(s, Payload(s, k), Payload(s, k) + have);
    ReleaseAndAllocStays(mode, s, k, have, needed, before, after, None, None);
    ReleaseAndAllocStays(mode, s, k, have, needed, before, after, LookupExact(s, 0), None);
    ReleaseAndAllocStays(mode, s, k, have, needed, before, after, None, LookupBestFit(s, needed));
    ReleaseAndAllocStays(mode, s, k, have, needed, before, after, LookupExact(s, 0), LookupBestFit(s, needed));
  }

  lemma AssignStays(mode: Mode, s: State, k: nat, v: Value)
    requires s.head <= s.pivot <= |s.area| && k < |s.area|
    ensures After(s, AssignField(mode, s, k, v)).pivot == s.pivot
  {
    hide ReallocData, ErasePreplaced, EraseField, UnitsAt, LookupBestFit;
    if HasPayload(s, k) {
      if InIndex(s, k) { EraseStays(s, k); }
      EmptyStays(mode, s, k, UnitsAt(s, k));
      ReallocStays(mode, s, k, UnitsAt(s, k), Size(v));
    }
  }

  lemma CompactStays(mode: Mode, s: State)
    requires Bounds(s) && 0 <= s.count <= s.pivot - s.head
    ensures Compactify(mode, s).Some? ==> Compactify(mode, s).value.pivot == s.pivot
  {
    hide MoveAll, PackIndex, NilReference, SortItems;
  }

  lemma StepStays(mode: Mode, s: State, op: Op)
    requires Bounds(s) && Legal(s, op)
    ensures After(s, Apply(mode, s, op)).pivot == s.pivot
  {
    hide InsertField, EraseField, AssignField, Compactify, AcceptableRw;
    match op
    case Insert(tag, v) => InsertStays(mode, s, tag, v);
    case Erase(k) => EraseStays(s, k);
    case Assign(k, v) => AssignStays(mode, s, k, v);
    case Compact => CompactStays(mode, s);
  }

  /** The boundary between index and payload never moves, so an index never outgrows its share. */
  lemma {:induction false} RunStays(mode: Mode, s: State, ops: seq<Op>)
    requires Goes(mode, s, ops)
    ensures Run(mode, s, ops).pivot == s.pivot
    decreases |ops|
  {
    hide Apply, Legal;
    if ops != [] {
      StepStays(mode, s, ops[0]);
      RunStays(mode, After(s, Apply(mode, s, ops[0])), ops[1..]);
    }
  }

  // ---- Where runs begin ---------------------------------------------------------------------------------------------

  /** The sanity limit on a buffer, twice what a tuple may take. */
  const BUFFER_LIMIT := 2 * MAX_UNITS

  /** reset: an empty index and the initial image of the preplaced part. Nothing when the
      sanity checks fail. */
  function Reset(s: State, image: seq<Unit>): Option<State> {
    if s.pivot < 1 || s.pivot > MAX_FIELDS || s.pivot > |s.area| || |s.area| > BUFFER_LIMIT ||
           |image| > |s.area| - s.pivot then None
    else Some(State(s.area[..s.pivot] + image + s.area[s.pivot + |image|..],
                    s.pivot, s.pivot, s.pivot + |image|, 0, 0, s.schema))
  }

  /** The initial image: references have no payload. */
  ghost predicate Blank(schema: seq<Option<nat>>, image: seq<Unit>) {
    |image| == |schema| && forall i :: 0 <= i < |schema| && schema[i].Some? ==> image[i].rel == 0
  }

  lemma ResetIsSteady(s: State, image: seq<Unit>)
    requires Reset(s, image).Some? && Blank(s.schema, image) && |s.area| <= MAX_UNITS
    ensures var t := Reset(s, image).value;
            && Steady(t) && Bounds(t) && ViewOf(t).loose == multiset{}
            && t.pivot == s.pivot && t.head == t.pivot && t.tail == Floor(t) && t.schema == s.schema
            && |t.area| == |s.area| && t.area[..s.pivot] == s.area[..s.pivot] && t.area[t.tail..] == s.area[t.tail..]
            && forall i :: 0 <= i < |image| ==>
                   ViewOf(t).preplaced[i] == if s.schema[i].Some? then Nil else Data([image[i]])
  {
    var t := Reset(s, image).value;
    BlankCells(s, image, t);
    hide Reset, Blank;
    BlankIsGood(t);
    hide Good, Written, Bag, PreplacedAt;
    BagOfTuple(t);
    assert LooseFields(t, t.head) == [];
  }

  lemma BlankCells(s: State, image: seq<Unit>, t: State)
    requires Reset(s, image) == Some(t) && Blank(s.schema, image) && |s.area| <= MAX_UNITS
    ensures Bounds(t) && t.head == t.pivot && t.tail == Floor(t) && t.count == 0 && t.volume == 0
            && t.schema == s.schema && |image| == |s.schema|
    ensures forall i: nat :: i < |image| && s.schema[i].Some? ==> t.area[t.pivot + i].rel == 0
    ensures forall i: nat :: i < |image| ==> PreplacedAt(t, i) == if s.schema[i].Some? then Nil else Data([image[i]])
  {
    forall i: nat | i < |image| ensures t.area[s.pivot + i] == image[i] {}
  }

  lemma BlankIsGood(t: State)
    requires Bounds(t) && t.head == t.pivot && t.tail == Floor(t) && t.count == 0 && t.volume == 0
    requires forall i: nat :: i < |t.schema| && t.schema[i].Some? ==> t.area[t.pivot + i].rel == 0
    ensures Good(t) && Written(t)
  {
    var c := Slots(t);
    forall i | 0 <= i < |c| ensures c[i] == NOTHING {}
    NothingSums(c);
    hide UnitsAt;
  }

  lemma {:induction false} NothingSums(c: seq<Slot>)
    requires forall i :: 0 <= i < |c| ==> c[i] == NOTHING
    ensures Total(c) == 0 && Holes(c) == 0 && Volume(c) == 0
    decreases |c|
  {
    if c != [] { NothingSums(c[1..]); }
  }

  /** Whatever is done to a fresh tuple, it shows what the operations say. */
  lemma FreshRun(mode: Mode, s: State, image: seq<Unit>, ops: seq<Op>)
    requires Reset(s, image).Some? && Blank(s.schema, image) && |s.area| <= MAX_UNITS
             && Goes(mode, Reset(s, image).value, ops)
    requires mode.Repaired? || Guarded(mode, Reset(s, image).value, ops)
    ensures var t := Reset(s, image).value; var u := Run(mode, t, ops);
            Bounds(t) && Bounds(u) && Steady(u) && ViewOf(u) == RunView(mode, t, ops, ViewOf(t))
  {
    hide Reset, Goes, Guarded, Run, RunView, ViewOf, Good, Written;
    ResetIsSteady(s, image);
    RunKeeps(mode, Reset(s, image).value, ops);
  }
}
