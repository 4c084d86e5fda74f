/** tuple_rw_managed: an operation that throws is repeated after room has been made. */
module Managed {
  import opened Tuples
  import opened Gear
  import opened Compaction
  import opened Operations
  import opened Abstract
  import opened Stepping
  import opened Assigning
  import opened Running
  import opened Autogrowth
  import opened Retrying
  import opened TupleRw
  import opened Reallocating
  import opened Growth
  import opened Audit
  import opened Agreement
  import Compacting
  import Compactness
  import Relocating

  // ---- The same field before and after room is made ---------------------------------------------------

  /** The first loose field with this tag. */
  function FirstField(f: seq<Field>, tag: Tag): Option<Field> {
    if f == [] then None else if f[0].tag == tag then Some(f[0]) else FirstField(f[1..], tag)
  }

  lemma {:induction false} LookupIsFirst(s: State, tag: Tag, k: nat)
    requires s.head <= k <= s.pivot <= |s.area| && tag.genus != HOLE
    ensures var r := FirstWithTag(s.area, k, s.pivot, tag);
            FirstField(LooseFields(s, k), tag) == if r.Some? then Some(FieldAt(s, r.value)) else None
    decreases s.pivot - k
  {
    if k < s.pivot {
      LookupIsFirst(s, tag, k + 1);
      var rest := LooseFields(s, k + 1);
      if IsHole(s.area[k]) {
        assert LooseFields(s, k) == rest;
      } else {
        assert LooseFields(s, k) == [FieldAt(s, k)] + rest;
        assert LooseFields(s, k)[1..] == rest;
      }
    }
  }

  // ---- One attempt to set a field by its token ------------------------------------------------------------

  /** A value without payload leaves an absent variable-length field absent. */
  function SetPart(mode: Mode, s: State, tag: Tag, v: Value): Result
    requires s.head <= s.pivot <= |s.area|
  {
    match FirstWithTag(s.area, s.head, s.pivot, tag)
    case None => if v.Nil? then Ok(s) else InsertField(mode, s, tag, v)
    case Some(k) => AssignField(mode, s, k, v)
  }

  /** The same with the checks before and after it. */
  ghost function SetField(mode: Mode, s: State, tag: Tag, v: Value): Result
    requires s.head <= s.pivot <= |s.area|
  {
    Checked(mode, s, SetPart(mode, s, tag, v))
  }

  /** What setting the field should do, said of the fields alone. */
  function SetEffect(f: seq<Field>, tag: Tag, v: Value): Effect {
    match FirstField(f, tag)
    case None => if v.Nil? then Nothing else Gained(Field(tag, v))
    case Some(was) => if was.value.Data? && Size(v) == 0 then Lost(was) else Changed(was, Field(tag, v))
  }

  lemma PayloadIsData(s: State, k: nat)
    requires Steady(s) && InIndex(s, k) && !IsHole(s.area[k])
    ensures ValueAt(s, k).Data? <==> HasPayload(s, k)
  {
    if HasPayload(s, k) { OwnsLength(s, k); Relocating.PayloadMoves(s, k); }
  }

  lemma SetIsLegal(s: State, tag: Tag, v: Value)
    requires Steady(s) && Bounds(s) && Proper(tag.genus, v)
    ensures match FirstWithTag(s.area, s.head, s.pivot, tag)
            case None => Legal(s, Insert(tag, v))
            case Some(k) => Legal(s, Assign(k, v))
  {
  }

  ghost predicate Attempted(s: State, r: Result, tag: Tag, v: Value)
    requires s.head <= s.pivot <= |s.area|
  {
    && !r.AssertionFailed?
    && (r.Ok? ==> Shows(s, r.state, SetEffect(LooseFields(s, s.head), tag, v)))
    && (r.Deficit? ==> r.state == s && RealDeficit(s, r.index, r.data, v))
  }

  /** The guard of the operation that sets the field. */
  ghost predicate SetSafely(mode: Mode, s: State, tag: Tag, v: Value)
    requires Bounds(s)
  {
    match FirstWithTag(s.area, s.head, s.pivot, tag)
    case None => if v.Nil? then Audited(mode, s, 0) else Legal(s, Insert(tag, v)) && Safe(mode, s, Insert(tag, v))
    case Some(k) => Legal(s, Assign(k, v)) && Safe(mode, s, Assign(k, v))
  }

  /** Without its holes the index can grow by one. */
  ghost predicate Headroom(mode: Mode, s: State) {
    mode.Repaired? || (Furnished(s) && s.pivot - s.head - s.count + 1 + References(s.schema) <= MAX_FIELDS)
  }

  /** The operation, the making of room and the repetition are safe. */
  ghost predicate Secure(mode: Mode, s: State, tag: Tag, v: Value)
    requires Bounds(s)
  {
    SetSafely(mode, s, tag, v) && Legal(s, Compact) && Safe(mode, s, Compact) && Headroom(mode, s)
  }

  lemma RepairedIsSecure(mode: Mode, s: State, tag: Tag, v: Value)
    requires Steady(s) && Bounds(s) && Proper(tag.genus, v) && mode.Repaired?
    ensures Secure(mode, s, tag, v)
  {
    hide Good, Written, Proper, Safe, Sound, Apply, EffectOf, FirstWithTag;
    SetIsLegal(s, tag, v);
    CountIsLegal(s);
    StepIff(mode, s, Compact);
    match FirstWithTag(s.area, s.head, s.pivot, tag)
    case None => StepIff(mode, s, Insert(tag, v));
    case Some(k) => StepIff(mode, s, Assign(k, v));
  }

  lemma CountIsLegal(s: State)
    requires Steady(s)
    ensures Bounds(s) && Legal(s, Compact)
  {
    hide Coalesced, Written, Layout;
    SteadyBounds(s);
    Compacting.CountInIndex(s);
  }

  /** Once room has been made every guard holds, in either mode, but for the limit. */
  lemma SpaciousIsSecure(mode: Mode, s: State, tag: Tag, v: Value)
    requires Steady(s) && Bounds(s) && Proper(tag.genus, v) && Spacious(s, v) && Headroom(mode, s)
    ensures Secure(mode, s, tag, v)
  {
    hide Good, Written, Proper, UnitsAt, Cornered, Compactness.NilDisplaced, NilReference, FirstWithTag, Furnished,
        References, InsertGrows, AssignGrows;
    SetIsLegal(s, tag, v);
    CountIsLegal(s);
    NothingToMove(s);
    NothingSplits(mode, s, v);
    NothingCornered(s);
  }

  lemma NothingToMove(s: State)
    requires Steady(s) && s.count == 0
    ensures Bounds(s) && !Compactness.NilDisplaced(s)
  {
    hide Coalesced, Written, Layout;
    SteadyBounds(s);
    Compactness.NothingDisplaced(s);
  }

  lemma NothingCornered(s: State)
    requires Bounds(s) && s.volume == 0
    ensures forall k: nat, have: nat :: k < |s.area| ==> !Cornered(s, k, have)
  {
    hide AdjacentHoles, LookupExact;
  }

  /** Under its guard an attempt is sound, and what it reports is missing. */
  lemma SetOnce(mode: Mode, s: State, tag: Tag, v: Value)
    requires Steady(s) && Bounds(s) && Proper(tag.genus, v) && SetSafely(mode, s, tag, v)
    ensures Attempted(s, SetField(mode, s, tag, v), tag, v)
  {
    hide Good, Written, ViewOf, FirstWithTag, InsertField, AssignField, AssignEffect, Proper, Safe, LooseFields,
        FirstField, FieldAt, Furnished, References, AcceptableRw;
    SetIsLegal(s, tag, v);
    ProperIsNoHole(tag, v);
    LookupIsFirst(s, tag, s.head);
    match FirstWithTag(s.area, s.head, s.pivot, tag)
    case None =>
      NothingChanges(s);
      if v.Nil? {
        PassesIs(mode, s);
      } else {
        StepIff(mode, s, Insert(tag, v));
        InsertDeficit(mode, s, tag, v);
      }
    case Some(k) =>
      StepIff(mode, s, Assign(k, v));
      AssignDeficit(mode, s, k, v);
      EffectIs(s, k, v);
  }

  lemma ProperIsNoHole(tag: Tag, v: Value)
    requires Proper(tag.genus, v)
    ensures tag.genus < HOLE
  {
  }

  lemma NothingChanges(s: State)
    requires Steady(s)
    ensures Bounds(s) && Shows(s, s, Nothing)
  {
    hide Layout, Coalesced, Written, ViewOf;
    SteadyBounds(s);
  }

  lemma EffectIs(s: State, k: nat, v: Value)
    requires Steady(s) && InIndex(s, k) && !IsHole(s.area[k])
    ensures AssignEffect(s, k, v)
            == if FieldAt(s, k).value.Data? && Size(v) == 0 then Lost(FieldAt(s, k))
               else Changed(FieldAt(s, k), Field(s.area[k].tag, v))
  {
    hide Good, Written, ValueAt;
    PayloadIsData(s, k);
  }

  /** With free space for the value only a unit below the index can be missing. */
  lemma SetFits(mode: Mode, s: State, tag: Tag, v: Value)
    requires Steady(s) && Bounds(s) && Proper(tag.genus, v) && Spacious(s, v)
    ensures s.head >= 1 ==> SetPart(mode, s, tag, v).Ok? && !SetField(mode, s, tag, v).Deficit?
    ensures SetField(mode, s, tag, v).Deficit? ==> SetField(mode, s, tag, v).index == 1
  {
    hide Good, Written, UnitsAt, InsertField, AssignField, AcceptableRw;
    var found := FirstWithTag(s.area, s.head, s.pivot, tag);
    if found.None? && v.Nil? {
    } else if found.None? {
      if s.head >= 1 { InsertFits(mode, s, tag, v); }
      if InsertField(mode, s, tag, v).Deficit? { InsertThrowsOne(mode, s, tag, v); }
    } else {
      AssignFits(mode, s, found.value, v);
    }
  }

  // ---- The object ----------------------------------------------------------------------------------------

  /** How a managed call ends. */
  datatype Finish = Finished | TooLarge | Outgrown | Broken

  /** Room has been made, or nothing has changed. */
  ghost predicate Rearranged(o: Autogrowth.Managed, s: State, now: State, r: Finish) {
    match o
    case Fitted(t) => r == Finished && now == t
    case Overflow => r == TooLarge && now == s
    case BufferNeeded => r == Outgrown && now == s
    case Failed => r == Broken
  }

  lemma NoShift(s: State)
    requires Bounds(s)
    ensures ShiftBy(s, 0) == s
  {
  }

  /** The units that are neither junk nor free; rebalancing does not change their number. */
  function InUse(s: State): int { s.tail - s.head - (s.volume + s.count) }

  /** The answer when the first attempt asks for more than there is. */
  ghost predicate Refusal(s: State, first: Result, r: Finish) {
    first.Deficit? && InUse(s) + first.index + first.data > |s.area|
    ==> r == if InUse(s) + first.index + first.data >= UINT16_MAX then TooLarge else Outgrown
  }

  /** What is known after so many passes: the fields have not changed, after one pass there is
      free space for the value, after two there is also a unit below the index. */
  ghost predicate InProgress(s: State, t: State, v: Value, passes: nat) {
    && Steady(t) && Bounds(s) && Bounds(t) && ViewOf(t) == ViewOf(s) && LooseFields(t, t.head) == LooseFields(s, s.head)
    && (passes >= 1 ==> Spacious(t, v)) && (passes >= 2 ==> t.head >= 1)
    && |t.area| == |s.area| && InUse(t) == InUse(s) && (passes == 0 ==> t == s)
  }

  lemma SetDone(mode: Mode, s: State, t: State, tag: Tag, v: Value, passes: nat)
    requires InProgress(s, t, v, passes) && Proper(tag.genus, v) && SetSafely(mode, t, tag, v)
             && SetField(mode, t, tag, v).Ok?
    ensures Bounds(s) && var u := SetField(mode, t, tag, v).state;
            Steady(u) && Bounds(u) && ViewOf(u) == Perform(ViewOf(s), SetEffect(LooseFields(s, s.head), tag, v))
  {
    hide Steady, ViewOf, SetField, LooseFields;
    SetOnce(mode, t, tag, v);
  }

  lemma SetAgain(mode: Mode, s: State, t: State, tag: Tag, v: Value, passes: nat)
    requires InProgress(s, t, v, passes) && Proper(tag.genus, v) && Secure(mode, t, tag, v)
             && SetField(mode, t, tag, v).Deficit?
    ensures var r := SetField(mode, t, tag, v);
            && r.state == t && 0 <= r.index && 0 <= r.data && r.index + r.data > 0 && Wanted(t, r.index, r.data)
            && passes < 2 && 0 <= t.count <= t.pivot - t.head
            && !Manage(mode, t, r.index, r.data).Failed?
            && SetPart(mode, t, tag, v) == r && r.index + r.data <= Size(v) + 1
            && (Manage(mode, t, r.index, r.data).Overflow? <==> InUse(s) + r.index + r.data >= UINT16_MAX)
            && (Manage(mode, t, r.index, r.data).BufferNeeded?
                <==> |s.area| < InUse(s) + r.index + r.data < UINT16_MAX)
            && (Manage(mode, t, r.index, r.data).Fitted? ==>
                  && InProgress(s, Manage(mode, t, r.index, r.data).state, v, passes + 1)
                  && Secure(mode, Manage(mode, t, r.index, r.data).state, tag, v))
  {
    hide Steady, ViewOf, SetField, LooseFields, Manage, Proper, Clean, Furnished, References, AcceptableRw, Grows;
    SetOnce(mode, t, tag, v);
    var r := SetField(mode, t, tag, v);
    if passes >= 1 { SetFits(mode, t, tag, v); }
    RealMeansWanted(t, r.index, r.data, v);
    ProperSize(tag, v);
    CheckedIs(mode, t, tag, v);
    ManageMakesRoom(mode, t, r.index, r.data);
    if Manage(mode, t, r.index, r.data).Fitted? {
      AuditComplete(Manage(mode, t, r.index, r.data).state);
      SpaciousIsSecure(mode, Manage(mode, t, r.index, r.data).state, tag, v);
    }
  }

  lemma CheckedIs(mode: Mode, t: State, tag: Tag, v: Value)
    requires t.head <= t.pivot <= |t.area| && !SetField(mode, t, tag, v).AssertionFailed?
    ensures SetPart(mode, t, tag, v) == SetField(mode, t, tag, v)
  {
    hide SetPart, Passes;
  }

  // ---- memmove ----------------------------------------------------------------------------------------

  /** The units from `head` up to `i` have been copied `d` down. */
  function CopiedDown(was: seq<Unit>, head: nat, i: nat, d: nat): seq<Unit>
    requires d <= head <= i <= |was|
  {
    was[..head - d] + was[head..i] + was[i - d..]
  }

  lemma DownStep(was: seq<Unit>, head: nat, i: nat, d: nat)
    requires d <= head <= i < |was|
    ensures var c := CopiedDown(was, head, i, d);
            |c| == |was| && c[i] == was[i] && c[i - d := was[i]] == CopiedDown(was, head, i + 1, d)
  {
  }

  /** The units from `i` up to `tail` have been copied `d` up. */
  function CopiedUp(was: seq<Unit>, i: nat, tail: nat, d: nat): seq<Unit>
    requires i <= tail && tail + d <= |was|
  {
    was[..i + d] + was[i..tail] + was[tail + d..]
  }

  lemma UpStep(was: seq<Unit>, i: nat, tail: nat, d: nat)
    requires i < tail && tail + d <= |was|
    ensures var c := CopiedUp(was, i + 1, tail, d);
            |c| == |was| && c[i] == was[i] && c[i + d := was[i]] == CopiedUp(was, i, tail, d)
  {
  }

  lemma NothingCopied(was: seq<Unit>, head: nat, tail: nat, d: nat)
    ensures d <= head <= |was| ==> CopiedDown(was, head, head, d) == was
    ensures tail + d <= |was| ==> CopiedUp(was, tail, tail, d) == was
  {
  }

  lemma ShiftedArea(s: State, d: int)
    requires Bounds(s) && 0 <= s.head + d && s.tail + d <= |s.area|
    ensures d >= 0 ==> ShiftBy(s, d).area == CopiedUp(s.area, s.head, s.tail, d)
    ensures d <= 0 ==> ShiftBy(s, d).area == CopiedDown(s.area, s.head, s.tail, 0 - d)
  {
  }

  method MoveDown(a: array<Unit>, head: nat, tail: nat, d: nat)
    requires d <= head <= tail <= a.Length
    modifies a
    ensures a[..] == CopiedDown(old(a[..]), head, tail, d)
  {
    hide CopiedDown;
    var i := head;
    ghost var was := a[..];
    NothingCopied(was, head, tail, d);
    while i < tail
      invariant head <= i <= tail && a[..] == CopiedDown(was, head, i, d)
    {
      DownStep(was, head, i, d);
      assert a[i] == a[..][i];
      a[i - d] := a[i];
      i := i + 1;
    }
  }

  method MoveUp(a: array<Unit>, head: nat, tail: nat, d: nat)
    requires head <= tail && tail + d <= a.Length
    modifies a
    ensures a[..] == CopiedUp(old(a[..]), head, tail, d)
  {
    hide CopiedUp;
    var i := tail;
    ghost var was := a[..];
    NothingCopied(was, head, tail, d);
    while i > head
      invariant head <= i <= tail && a[..] == CopiedUp(was, i, tail, d)
    {
      i := i - 1;
      UpStep(was, i, tail, d);
      assert a[i] == a[..][i];
      a[i + d] := a[i];
    }
  }

  class TupleRwManaged {
    const pimpl: TupleRw

    constructor (pimpl: TupleRw)
      ensures this.pimpl == pimpl
    {
      this.pimpl := pimpl;
    }

    /** memmove of the units from `head` to `tail` by `d`, and of the three positions. */
    method MoveBlock(d: int)
      requires Bounds(pimpl.St()) && 0 <= pimpl.head + d && pimpl.tail + d <= pimpl.area.Length
      modifies pimpl, pimpl.area
      ensures pimpl.St() == ShiftBy(old(pimpl.St()), d)
    {
      hide CopiedDown, CopiedUp;
      ShiftedArea(pimpl.St(), d);
      if d < 0 {
        MoveDown(pimpl.area, pimpl.head, pimpl.tail, -d);
      } else {
        MoveUp(pimpl.area, pimpl.head, pimpl.tail, d);
      }
      pimpl.head, pimpl.pivot, pimpl.tail := pimpl.head + d, pimpl.pivot + d, pimpl.tail + d;
    }

    method ManageSpaceDeficit(wi: nat, wd: nat) returns (r: Finish)
      requires pimpl.Valid() && Bounds(pimpl.St()) && 0 <= pimpl.count <= pimpl.pivot - pimpl.head && wi + wd > 0
      requires Wanted(pimpl.St(), wi, wd)
      modifies pimpl, pimpl.area
      ensures Rearranged(Manage(pimpl.mode, old(pimpl.St()), wi, wd), old(pimpl.St()), pimpl.St(), r)
    {
      hide Good, Written, Shift, ShiftBy, AcceptableRw, Apply, Kept;
      var ok := pimpl.DebugCheck();
      if !ok { return Broken; }
      var wanna, junk, used := wd + wi, pimpl.volume + pimpl.count, pimpl.tail - pimpl.head;
      if used - junk + wanna >= UINT16_MAX || wi > MAX_FIELDS || wd > NETTO_BYTES { return TooLarge; }
      if wanna > junk + (pimpl.area.Length - used) { return Outgrown; }
      var compact := pimpl.Optimize();
      if !compact.Got? { return Broken; }
      if !(pimpl.head <= pimpl.pivot && pimpl.pivot + |pimpl.schema| <= pimpl.tail <= pimpl.area.Length <= MAX_UNITS) {
        return Broken;
      }
      var shift := ComputeShift(wi, wd);
      if !(pimpl.tail + wd + shift <= pimpl.area.Length && pimpl.head - wi + shift >= 0) { return Broken; }
      NoShift(pimpl.St());
      if shift != 0 {
        MoveBlock(shift);
        ok := pimpl.DebugCheck();
        if !ok { return Broken; }
      }
      return Finished;
    }

    /** One call of the setter of the base class. */
    method TrySet(tag: Tag, v: Value) returns (r: Attempt<()>)
      requires pimpl.Valid() && Bounds(pimpl.St()) && Proper(tag.genus, v)
      modifies pimpl, pimpl.area
      ensures Completed(SetField(pimpl.mode, old(pimpl.St()), tag, v), pimpl.St(), r) && pimpl.Shape()
    {
      hide InsertField, AssignField, Steady, Kept, AcceptableRw;
      SetIsLegal(pimpl.St(), tag, v);
      var found := pimpl.Lookup(tag);
      if found.None? && v.Nil? {
        var ok := pimpl.DebugCheck();
        r := if ok then Got(()) else Asserted;
      } else if found.None? {
        r := pimpl.Insert(tag, v);
      } else {
        r := pimpl.Assign(found.value, v);
      }
    }

    method ComputeShift(wi: nat, wd: nat) returns (shift: int)
      requires Bounds(pimpl.St()) && wi + wd > 0
      ensures shift == Shift(pimpl.St(), wi, wd)
      ensures wi <= pimpl.head && wd <= TailSpace(pimpl.St()) ==> shift == 0
      ensures wi + wd <= Unallocated(pimpl.St()) ==>
                && 0 <= pimpl.head + shift && pimpl.tail + shift <= pimpl.area.Length
                && pimpl.head + shift >= wi && TailSpace(pimpl.St()) - shift >= wd
    {
      if wi + wd <= Unallocated(pimpl.St()) { ShiftFits(pimpl.St(), wi, wd); }
      var spare := pimpl.area.Length - (pimpl.tail - pimpl.head);
      var indexUsed, dataUsed := pimpl.pivot - pimpl.head + wi, pimpl.tail - pimpl.pivot + wd;
      var whole := indexUsed + dataUsed;
      if wi > pimpl.head {
        return Max(wi, Min((spare * indexUsed + whole - 1) / whole, spare - wd)) - pimpl.head;
      }
      if wd > pimpl.area.Length - pimpl.tail {
        return -(Max(wd, Min(spare * dataUsed / whole, spare - wi)) - (pimpl.area.Length - pimpl.tail));
      }
      return 0;
    }

    /** Sets the loose field with this token, adding it if it is absent. */
    method Set(tag: Tag, v: Value) returns (r: Finish)
      requires pimpl.Valid() && Bounds(pimpl.St()) && Proper(tag.genus, v) && Secure(pimpl.mode, pimpl.St(), tag, v)
      modifies pimpl, pimpl.area
      ensures pimpl.Valid() && Bounds(pimpl.St()) && r != Broken
      ensures var s := old(pimpl.St());
              ViewOf(pimpl.St()) == if r == Finished && s.head <= s.pivot <= |s.area|
                                    then Perform(ViewOf(s), SetEffect(LooseFields(s, s.head), tag, v)) else ViewOf(s)
      ensures var s := old(pimpl.St());
              && (InUse(s) + Size(v) + 1 <= |s.area| ==> r == Finished)
              && (s.head <= s.pivot <= |s.area| && SetPart(pimpl.mode, s, tag, v).Ok? ==> r == Finished)
              && (r == TooLarge ==> InUse(s) + Size(v) + 1 >= UINT16_MAX)
              && (r == Outgrown ==> Size(v) + 1 > s.volume + s.count + Unallocated(s))
              && (s.head <= s.pivot <= |s.area| ==> Refusal(s, SetPart(pimpl.mode, s, tag, v), r))
    {
      hide Good, Written, ViewOf, LooseFields, SetField, SetPart, SetEffect, Perform, Manage, Shows, SetSafely, Safe,
          Proper;
      ghost var s := pimpl.St();
      ghost var passes := 0;
      while true
        invariant passes <= 2
        invariant InProgress(s, pimpl.St(), v, passes) && Secure(pimpl.mode, pimpl.St(), tag, v) && pimpl.Shape()
        invariant passes > 0 ==> var first := SetPart(pimpl.mode, s, tag, v);
                                 first.Deficit? && InUse(s) + first.index + first.data <= |s.area|
        decreases 2 - passes
      {
        ghost var t := pimpl.St();
        SetOnce(pimpl.mode, t, tag, v);
        var attempt := TrySet(tag, v);
        CheckedIs(pimpl.mode, t, tag, v);
        if attempt.Got? {
          SetDone(pimpl.mode, s, t, tag, v, passes);
          return Finished;
        }
        SetAgain(pimpl.mode, s, t, tag, v, passes);
        r := ManageSpaceDeficit(attempt.index, attempt.data);
        if r != Finished { return; }
        passes := passes + 1;
      }
    }
  }
}
