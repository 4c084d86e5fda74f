/** Runs in which the tuple may also be moved within its buffer: what they keep, when they pass
    the audit, and when the tuple may still be reset. */
module Rebalancing {
  import opened Ledger
  import opened Tuples
  import opened Gear
  import opened Compaction
  import opened Compactness
  import opened Operations
  import opened Abstract
  import opened Stepping
  import opened Assigning
  import opened Growth
  import opened Running
  import opened Audit
  import opened Agreement
  import opened Autogrowth
  import Tags

  datatype Move = Do(op: Op) | Rebalance(index: nat, data: nat)

  predicate Allowed(s: State, m: Move) {
    && Bounds(s)
    && match m
       case Do(op) => Legal(s, op)
       case Rebalance(wi, wd) => Legal(s, Compact) && wi + wd > 0 && Wanted(s, wi, wd)
  }

  ghost predicate SafeMove(mode: Mode, s: State, m: Move)
    requires Allowed(s, m)
  {
    match m
    case Do(op) => Safe(mode, s, op)
    case Rebalance(wi, wd) => Audited(mode, s, 0) && (Covers(s, wi, wd) ==> Safe(mode, s, Compact))
  }

  /** The state after a move. A request that the buffer cannot meet changes nothing here. */
  ghost function Moved(mode: Mode, s: State, m: Move): State
    requires Allowed(s, m)
  {
    match m
    case Do(op) => After(s, Apply(mode, s, op))
    case Rebalance(wi, wd) => var o := Manage(mode, s, wi, wd); if o.Fitted? then o.state else s
  }

  ghost function Seen(mode: Mode, s: State, m: Move, v: View): View
    requires Allowed(s, m)
  {
    if m.Do? && Apply(mode, s, m.op).Ok? then Perform(v, EffectOf(s, m.op)) else v
  }

  ghost predicate Path(mode: Mode, s: State, moves: seq<Move>)
    decreases |moves|
  {
    moves == [] || (Allowed(s, moves[0]) && Path(mode, Moved(mode, s, moves[0]), moves[1..]))
  }

  ghost predicate SafePath(mode: Mode, s: State, moves: seq<Move>)
    requires Path(mode, s, moves)
    decreases |moves|
  {
    moves == [] || (SafeMove(mode, s, moves[0]) && SafePath(mode, Moved(mode, s, moves[0]), moves[1..]))
  }

  ghost function Walk(mode: Mode, s: State, moves: seq<Move>): State
    requires Path(mode, s, moves)
    decreases |moves|
  {
    if moves == [] then s else Walk(mode, Moved(mode, s, moves[0]), moves[1..])
  }

  ghost function WalkView(mode: Mode, s: State, moves: seq<Move>, v: View): View
    requires Path(mode, s, moves)
    decreases |moves|
  {
    if moves == [] then v
    else WalkView(mode, Moved(mode, s, moves[0]), moves[1..], Seen(mode, s, moves[0], v))
  }

  // ---- What a move keeps ---------------------------------------------------------------------------------

  /** A tuple in the same buffer, and if it began within the limit as written it still is. */
  ghost predicate Kin(mode: Mode, s: State, t: State) {
    && t.schema == s.schema && |t.area| == |s.area|
    && (mode.AsWritten? && InLimit(s) ==> InLimit(t))
  }

  lemma OperationKeeps(mode: Mode, s: State, op: Op)
    requires Steady(s) && Bounds(s) && Legal(s, op) && Safe(mode, s, op)
    ensures Kin(mode, s, After(s, Apply(mode, s, op)))
  {
    hide Steady, Clean, Act, EffectOf, Legal, Shows, InsertGrows, AssignGrows, Furnished, References, AcceptableRw;
    StepIff(mode, s, op);
    GrowthIs(mode, s, op);
  }

  lemma RebalanceKeeps(mode: Mode, s: State, wi: nat, wd: nat)
    requires Steady(s) && Bounds(s) && Legal(s, Compact) && wi + wd > 0
    ensures var o := Manage(mode, s, wi, wd);
            o.Fitted? ==> Steady(o.state) && Bounds(o.state) && ViewOf(o.state) == ViewOf(s) && Kin(mode, s, o.state)
  {
    hide Good, Written, Manage, ViewOf, LooseFields, Furnished, References, AcceptableRw, Safe;
    ManageMakesRoom(mode, s, wi, wd);
  }

  lemma MoveKeeps(mode: Mode, s: State, m: Move)
    requires Steady(s) && Allowed(s, m) && SafeMove(mode, s, m)
    ensures var t := Moved(mode, s, m);
            Steady(t) && Bounds(t) && ViewOf(t) == Seen(mode, s, m, ViewOf(s)) && Kin(mode, s, t)
  {
    hide Steady, Safe, Apply, EffectOf, Legal, ViewOf, Perform, Manage, Audited, Kin;
    match m
    case Do(op) =>
      StepKeeps(mode, s, op);
      OperationKeeps(mode, s, op);
    case Rebalance(wi, wd) =>
      RebalanceKeeps(mode, s, wi, wd);
      KinRefl(mode, s);
  }

  lemma KinRefl(mode: Mode, s: State)
    ensures Kin(mode, s, s)
  {
  }

  lemma RepairedIsSafe(s: State, m: Move)
    requires Steady(s) && Allowed(s, m)
    ensures SafeMove(Repaired, s, m)
  {
    hide Steady, Legal, Apply, Sound, EffectOf, Clean, Covers;
    if m.Do? { StepIff(Repaired, s, m.op); } else { StepIff(Repaired, s, Compact); }
  }

  /** Over every run with rebalancing the invariant is kept and the fields change as the
      operations say; repaired without conditions, as written under the guards. */
  lemma {:induction false} WalkKeeps(mode: Mode, s: State, moves: seq<Move>)
    requires Steady(s) && Path(mode, s, moves) && (mode.Repaired? || SafePath(mode, s, moves))
    ensures var t := Walk(mode, s, moves);
            Steady(t) && Bounds(s) && Bounds(t) && ViewOf(t) == WalkView(mode, s, moves, ViewOf(s)) && Kin(mode, s, t)
    decreases |moves|
  {
    hide Steady, Moved, ViewOf, Seen, Allowed, SafeMove;
    SteadyBounds(s);
    if moves != [] {
      if mode.Repaired? { RepairedIsSafe(s, moves[0]); }
      MoveKeeps(mode, s, moves[0]);
      WalkKeeps(mode, Moved(mode, s, moves[0]), moves[1..]);
    }
  }

  // ---- When a run passes the audit -------------------------------------------------------------------------

  lemma {:induction false} WalkPresent(mode: Mode, s: State, moves: seq<Move>, v: View)
    requires Path(mode, s, moves) && AllPresent(v)
    ensures AllPresent(WalkView(mode, s, moves, v))
    decreases |moves|
  {
    hide Moved, AllPresent, Perform, EffectOf, Legal, Apply;
    if moves != [] {
      if moves[0].Do? { EffectPresent(v, s, moves[0].op); }
      WalkPresent(mode, Moved(mode, s, moves[0]), moves[1..], Seen(mode, s, moves[0], v));
    }
  }

  /** Where a run ends the tuple passes the audit, junk counters and neighbouring holes included,
      exactly when its descriptors and references are within the limit. As written they are. */
  lemma WalkPassesAudit(mode: Mode, s: State, moves: seq<Move>)
    requires Steady(s) && Furnished(s) && Path(mode, s, moves) && (mode.Repaired? || SafePath(mode, s, moves))
    ensures AcceptableRw(Walk(mode, s, moves)) <==> InLimit(Walk(mode, s, moves))
    ensures mode.AsWritten? && InLimit(s) ==> AcceptableRw(Walk(mode, s, moves))
  {
    hide Steady, Furnished, Path, SafePath, Walk, WalkView, ViewOf, AllPresent, AcceptableRw, InLimit;
    WalkKeeps(mode, s, moves);
    FurnishedIsSeen(s);
    WalkPresent(mode, s, moves, ViewOf(s));
    FurnishedIsSeen(Walk(mode, s, moves));
    AuditComplete(Walk(mode, s, moves));
  }

  // ---- All runs of a fresh tuple -----------------------------------------------------------------------------

  /** A field that needs no payload. */
  const TINY := Insert(Tag(4, 1), Inline(0))

  ghost predicate Tidy(s: State) { Steady(s) && Bounds(s) && s.count == 0 && s.volume == 0 }

  lemma TinyStep(s: State)
    requires Tidy(s) && s.head > 0
    ensures Allowed(s, Do(TINY))
    ensures var t := Moved(Repaired, s, Do(TINY));
            && Tidy(t) && t.head == s.head - 1 && t.pivot == s.pivot && t.tail == s.tail && t.schema == s.schema
            && |t.area| == |s.area|
  {
    hide Good, Written, EffectOf, ViewOf, Clean;
    StepIff(Repaired, s, TINY);
  }

  lemma ShiftStep(s: State)
    requires Tidy(s) && s.head == 0 && Unallocated(s) >= 1
    ensures Allowed(s, Rebalance(1, 0))
    ensures var t := Moved(Repaired, s, Rebalance(1, 0));
            && Tidy(t) && t.head >= 1 && t.pivot - t.head == s.pivot - s.head && t.tail - t.head == s.tail - s.head
            && t.schema == s.schema && |t.area| == |s.area|
  {
    hide Good, Written, ViewOf, LooseFields, Safe, Shift, Furnished, References;
    StepIff(Repaired, s, Compact);
    ManageMakesRoom(Repaired, s, 1, 0);
  }

  /** A run that makes the index longer by `n`, without rebalancing if there is room below it. */
  lemma {:induction false} Stuff(s: State, n: nat) returns (moves: seq<Move>)
    requires Tidy(s) && n <= Unallocated(s)
    ensures Path(Repaired, s, moves) && (n <= s.head ==> OnlyOperations(moves))
    ensures var t := Walk(Repaired, s, moves); t.pivot - t.head == s.pivot - s.head + n && t.schema == s.schema
    decreases n, s.pivot - s.head + 1, if s.head > 0 then 0 else 1
  {
    hide Tidy, Moved, Allowed;
    if n == 0 {
      moves := [];
    } else {
      var m := if s.head > 0 then Do(TINY) else Rebalance(1, 0);
      if s.head > 0 { TinyStep(s); } else { ShiftStep(s); }
      var rest := Stuff(Moved(Repaired, s, m), if s.head > 0 then n - 1 else n);
      moves := [m] + rest;
    }
  }

  predicate OnlyOperations(moves: seq<Move>) { forall m :: m in moves ==> m.Do? }

  lemma {:induction false} OperationsStay(mode: Mode, s: State, moves: seq<Move>)
    requires Path(mode, s, moves) && OnlyOperations(moves)
    ensures Walk(mode, s, moves).pivot == s.pivot
    decreases |moves|
  {
    hide Legal, Apply;
    if moves != [] {
      StepStays(mode, s, moves[0].op);
      OperationsStay(mode, Moved(mode, s, moves[0]), moves[1..]);
    }
  }

  /** A tuple as reset leaves it. */
  ghost predicate Fresh(t: State) {
    Tidy(t) && t.head == t.pivot && 1 <= t.pivot <= MAX_FIELDS && t.tail == Floor(t)
  }

  lemma ResetIsFresh(s: State, image: seq<Unit>)
    requires Reset(s, image).Some? && Blank(s.schema, image) && |s.area| <= MAX_UNITS
    ensures Fresh(Reset(s, image).value)
    ensures References(s.schema) <= MAX_FIELDS <==> AcceptableRw(Reset(s, image).value)
  {
    hide Good, Written, ViewOf, References, AcceptableRw;
    ResetIsSteady(s, image);
    AuditComplete(Reset(s, image).value);
  }

  ghost predicate Passing(t: State, moves: seq<Move>)
    requires Path(Repaired, t, moves)
  {
    AcceptableRw(Walk(Repaired, t, moves))
  }

  /** Without rebalancing every run of a fresh tuple passes the audit exactly when the places for
      loose fields, which it has been created with, and the references are within the limit. */
  lemma RunsPassAudit(t: State)
    requires Fresh(t)
    ensures (forall moves :: Path(Repaired, t, moves) && OnlyOperations(moves) ==> Passing(t, moves))
            <==> t.pivot + References(t.schema) <= MAX_FIELDS
  {
    hide Good, Written, Path, Walk, AcceptableRw, References;
    if t.pivot + References(t.schema) <= MAX_FIELDS {
      forall moves | Path(Repaired, t, moves) && OnlyOperations(moves) ensures Passing(t, moves) {
        OperationsStay(Repaired, t, moves);
        WalkKeeps(Repaired, t, moves);
        WalkPassesAudit(Repaired, t, moves);
      }
    } else {
      var moves := Stuff(t, t.pivot);
      WalkPassesAudit(Repaired, t, moves);
      assert !Passing(t, moves);
    }
  }

  /** With rebalancing it depends on the whole buffer, which the index can fill. */
  lemma WalksPassAudit(t: State)
    requires Fresh(t)
    ensures (forall moves :: Path(Repaired, t, moves) ==> Passing(t, moves))
            <==> |t.area| - |t.schema| + References(t.schema) <= MAX_FIELDS
  {
    hide Good, Written, Path, Walk, AcceptableRw, References;
    if |t.area| - |t.schema| + References(t.schema) <= MAX_FIELDS {
      forall moves | Path(Repaired, t, moves) ensures Passing(t, moves) {
        WalkKeeps(Repaired, t, moves);
        WalkPassesAudit(Repaired, t, moves);
      }
    } else {
      var moves := Stuff(t, |t.area| - |t.schema|);
      WalkPassesAudit(Repaired, t, moves);
      assert !Passing(t, moves);
    }
  }

  // ---- When a tuple may still be reset ---------------------------------------------------------------------------

  /** Where the index begins after a rebalancing: its live descriptors and the payload share the
      free units. */
  function NewHead(s: State, wi: nat, wd: nat): int
    requires wi + wd > 0 && s.count <= s.pivot - s.head && s.volume <= s.tail - s.pivot
  {
    var index, data := s.pivot - s.head - s.count, s.tail - s.pivot - s.volume;
    var free, whole := |s.area| - index - data, index + wi + (data + wd);
    if wi > s.head + s.count then Max(wi, Min((free * (index + wi) + whole - 1) / whole, free - wd))
    else if wd > TailSpace(s) + s.volume then free - Max(wd, Min(free * (data + wd) / whole, free - wi))
    else s.head + s.count
  }

  /** The boundary between index and payload after a rebalancing. */
  lemma RebalancedPivot(mode: Mode, s: State, wi: nat, wd: nat)
    requires Steady(s) && Bounds(s) && 0 <= s.count <= s.pivot - s.head && wi + wd > 0
    requires Manage(mode, s, wi, wd).Fitted?
    ensures s.volume <= s.tail - s.pivot
    ensures Manage(mode, s, wi, wd).state.pivot == NewHead(s, wi, wd) + (s.pivot - s.head - s.count)
  {
    hide Good, Written, Compactify, NilReference, NilDisplaced, AcceptableRw, ViewOf, LooseFields;
    CompactEnds(mode, s);
    var t := Apply(mode, s, Compact).state;
    assert Unallocated(t) == |s.area| - (s.pivot - s.head - s.count) - (s.tail - s.pivot - s.volume);
  }

  lemma CompactEnds(mode: Mode, s: State)
    requires Steady(s) && Bounds(s) && Legal(s, Compact)
    ensures s.volume <= s.tail - s.pivot
    ensures Apply(mode, s, Compact).Ok? ==>
              var t := Apply(mode, s, Compact).state;
              && Bounds(t) && t.head == s.head + s.count && t.pivot == s.pivot && t.tail == s.tail - s.volume
              && |t.area| == |s.area|
  {
    hide Layout, Separated, Clear, TightHead, Written, Compactify, NilReference, NilDisplaced, AcceptableRw,
        LooseFields;
    CompactifyKeeps(s);
    CompactifyAsWrittenIff(s);
    OrderlyCounts(s);
    CompactSucceeds(mode, s);
  }

  /** reset accepts a tuple exactly when this boundary is one that a new tuple could have. */
  lemma ResetIff(t: State, image: seq<Unit>)
    requires Bounds(t) && |image| == |t.schema|
    ensures Reset(t, image).Some? <==> 1 <= t.pivot <= MAX_FIELDS
  {
  }

  /** Whether it still is can be told before the rebalancing. */
  lemma RebalancedResets(mode: Mode, s: State, wi: nat, wd: nat, image: seq<Unit>)
    requires Steady(s) && Bounds(s) && 0 <= s.count <= s.pivot - s.head && wi + wd > 0
    requires Manage(mode, s, wi, wd).Fitted?
    requires |image| == |s.schema|
    ensures s.volume <= s.tail - s.pivot
    ensures Reset(Manage(mode, s, wi, wd).state, image).Some?
            <==> 1 <= NewHead(s, wi, wd) + (s.pivot - s.head - s.count) <= MAX_FIELDS
  {
    hide Good, Written, ViewOf, LooseFields, Safe, Furnished, References, Manage, Reset, NewHead;
    ManageMakesRoom(mode, s, wi, wd);
    RebalancedPivot(mode, s, wi, wd);
    ResetIff(Manage(mode, s, wi, wd).state, image);
  }

  /** Asked for one unit of data more than there is behind its end, a tuple without loose fields
      gives up its whole index, and reset then refuses it. */
  lemma FreshLosesIndex(mode: Mode, t: State, image: seq<Unit>)
    requires Fresh(t) && |image| == |t.schema| && (mode.AsWritten? ==> References(t.schema) <= MAX_FIELDS)
    ensures var m := Rebalance(0, TailSpace(t) + 1);
            && Allowed(t, m) && SafeMove(mode, t, m)
            && Moved(mode, t, m).pivot == 0 && Reset(Moved(mode, t, m), image).None?
  {
    hide Good, Written, ViewOf, LooseFields, Clean, References, Manage, Reset;
    var wd := TailSpace(t) + 1;
    ManageMakesRoom(mode, t, 0, wd);
    NothingToPack(mode, t);
    RebalancedPivot(mode, t, 0, wd);
    WholeShare(|t.area| - |t.schema|, |t.schema| + wd);
    ResetIff(Moved(mode, t, Rebalance(0, wd)), image);
  }

  lemma NothingToPack(mode: Mode, t: State)
    requires Tidy(t)
    ensures Clean(mode, t, Compact)
  {
    hide Layout, Coalesced, Written;
    NothingDisplaced(t);
  }

  /** One loose field in a buffer of twenty thousand units: asked for one more unit of index it
      gives the index so many that reset refuses the tuple. */
  lemma IndexOutgrowsReset()
    ensures var s := State([Unit(1, Tag(4, 1), 0)] + seq(19999, i => EMPTY_HOLE), 0, 1, 1, 0, 0, []);
            && Steady(s) && Allowed(s, Rebalance(1, 0)) && SafeMove(AsWritten, s, Rebalance(1, 0))
            && Moved(AsWritten, s, Rebalance(1, 0)).pivot == 20000
            && Reset(Moved(AsWritten, s, Rebalance(1, 0)), []).None?
  {
    hide Good, Written, ViewOf, LooseFields, Clean, Manage, Reset;
    var s := State([Unit(1, Tag(4, 1), 0)] + seq(19999, i => EMPTY_HOLE), 0, 1, 1, 0, 0, []);
    LoneField(s);
    ManageMakesRoom(AsWritten, s, 1, 0);
    NothingToPack(AsWritten, s);
    RebalancedPivot(AsWritten, s, 1, 0);
    ResetIff(Moved(AsWritten, s, Rebalance(1, 0)), []);
  }

  lemma LoneField(s: State)
    requires Bounds(s) && s.head == 0 && s.pivot == 1 && s.tail == 1 && s.count == 0 && s.volume == 0 && s.schema == []
    requires s.area[0] == Unit(1, Tag(4, 1), 0)
    ensures Tidy(s)
  {
    hide UnitsAt;
    var c := Slots(s);
    forall i | 0 <= i < |c| ensures c[i] == NOTHING {}
    NothingSums(c);
    hide Slots;
  }

  lemma WholeShare(free: nat, whole: nat)
    requires whole > 0
    ensures free * whole / whole == free
  {
    FloorMeans(free * whole, whole);
    TimesMonotone(free * whole / whole + 1, free, whole);
    TimesMonotone(free + 1, free * whole / whole, whole);
  }

  // ---- When eleven bits are enough -------------------------------------------------------------------------------

  /** In a buffer with at most 2047 units besides the preplaced part every hole of every run can
      be read back from its descriptor. */
  lemma WalkHolesFit(mode: Mode, s: State, moves: seq<Move>, k: nat)
    requires Steady(s) && Path(mode, s, moves) && (mode.Repaired? || SafePath(mode, s, moves))
    requires |s.area| - |s.schema| < Tags.ID_SPAN && HoleAt(Walk(mode, s, moves), k)
    ensures var units := HoleSize(Walk(mode, s, moves), k);
            && Tags.DescriptorId(Tags.Descriptor(HOLE, units)) == units
            && Tags.DescriptorGenus(Tags.Descriptor(HOLE, units)) == HOLE
  {
    hide Coalesced, Written, Path, SafePath, Walk, WalkView, ViewOf, References;
    WalkKeeps(mode, s, moves);
    HoleSizesFit(Walk(mode, s, moves), k);
  }
}
