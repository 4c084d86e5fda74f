/** The catch-and-retry loops around the operations: what they ask for is really missing, and
    once they have got it they succeed. */
module Retrying {
  import opened Tuples
  import opened Gear
  import opened Reclaiming
  import opened Reallocating
  import opened Adding
  import opened Compaction
  import opened Operations
  import opened Abstract
  import opened Stepping
  import opened Assigning
  import opened Running
  import opened Autogrowth
  import opened Growth
  import opened Audit
  import opened Agreement

  /** The deficit an operation reports for value `v`. */
  predicate RealDeficit(s: State, i: int, d: int, v: Value) {
    0 <= i <= 1 && d == Size(v) && (d > TailSpace(s) || (i == 1 && s.head == 0))
  }

  lemma RealMeansWanted(s: State, i: int, d: int, v: Value)
    requires RealDeficit(s, i, d, v) && Bounds(s)
    ensures i >= 0 && d >= 0 && i + d > 0 && Wanted(s, i, d)
  {
  }

  // ---- What is reported is missing -------------------------------------------------------------------

  lemma InsertDeficit(mode: Mode, s: State, tag: Tag, v: Value)
    requires Steady(s) && Proper(tag.genus, v) && s.head <= s.pivot <= |s.area|
    ensures InsertField(mode, s, tag, v).Deficit? ==>
              InsertField(mode, s, tag, v).state == s &&
              RealDeficit(s, InsertField(mode, s, tag, v).index, InsertField(mode, s, tag, v).data, v)
  {
    ProperSize(tag, v);
    hide Layout, Coalesced, Written, AllocLoose, Write, SplitsSafely, Added;
    AllocLooseKeeps(mode, s, tag, Size(v));
  }

  lemma EraseDeficit(mode: Mode, s: State, k: nat, have: nat)
    requires s.head <= s.pivot <= |s.area| && k < |s.area| && Layout(s)
    ensures ErasePreplaced(mode, s, k, have).Insufficient? ==>
              ErasePreplaced(mode, s, k, have).index == 1 && ErasePreplaced(mode, s, k, have).data == 0 && s.head == 0
  {
    hide AdjacentHoles, MergeHoles, GiveBack, FirstWithTag, Layout;
  }

  lemma AssignDeficit(mode: Mode, s: State, k: nat, v: Value)
    requires Steady(s) && Bounds(s) && Legal(s, Assign(k, v))
    ensures var r := AssignField(mode, s, k, v); r.Deficit? ==> RealDeficit(s, r.index, r.data, v)
  {
    hide Layout, Coalesced, Written, UnitsAt, ErasePreplaced, ReallocData, AllocData, LookupBestFit, Write,
        ReleaseLoose, Chunk;
    if HasPayload(s, k) {
      OwnsLength(s, k);
      EraseDeficit(mode, s, k, UnitsAt(s, k));
      if Size(v) != UnitsAt(s, k) && Size(v) > 0 {
        ProperBound(GenusOf(s, k), v);
        ReallocKeeps(mode, s, k, Payload(s, k), UnitsAt(s, k), Size(v));
      }
    } else if Size(v) > 0 {
      FillDeficit(s, Size(v));
    }
  }

  lemma FillDeficit(s: State, units: nat)
    requires s.head <= s.pivot <= |s.area|
    ensures var r := AllocData(s, units, LookupBestFit(s, units));
            r.Insufficient? ==> r.index == 0 && r.data == units > TailSpace(s)
  {
    hide LookupBestFit;
  }

  // ---- With room there is no deficit ------------------------------------------------------------------

  /** No junk, and as much free space as the value takes. */
  predicate Spacious(s: State, v: Value) { s.count == 0 && s.volume == 0 && Size(v) <= TailSpace(s) }

  lemma InsertFits(mode: Mode, s: State, tag: Tag, v: Value)
    requires Bounds(s) && Spacious(s, v) && s.head >= 1 && (v.Nil? ==> mode.Repaired?)
    ensures InsertField(mode, s, tag, v).Ok?
  {
  }

  lemma EraseFits(mode: Mode, s: State, k: nat, have: nat)
    requires s.head <= s.pivot <= |s.area| && k < |s.area| && s.head >= 1
    ensures ErasePreplaced(mode, s, k, have).Done?
  {
    hide AdjacentHoles, MergeHoles, GiveBack, FirstWithTag;
  }

  lemma ReallocFits(mode: Mode, s: State, k: nat, have: nat, needed: nat)
    requires Bounds(s) && k < |s.area| && s.volume == 0 && s.count == 0 && needed <= TailSpace(s)
    ensures var r := ReallocData(mode, s, k, have, needed);
            && (r.Done? <==> s.head >= 1 || Payload(s, k) + have == s.tail)
            && (r.Insufficient? ==> r.index == 1 && r.data == needed)
  {
    hide ReleaseAndAlloc, ReallocBySwap;
  }

  /** Assigning with free space for the value fails only for want of a unit below the index. */
  lemma AssignFits(mode: Mode, s: State, k: nat, v: Value)
    requires Bounds(s) && k < |s.area| && Spacious(s, v)
    ensures s.head >= 1 ==> AssignField(mode, s, k, v).Ok?
    ensures AssignField(mode, s, k, v).Deficit? ==> AssignField(mode, s, k, v).index == 1
  {
    hide UnitsAt, ErasePreplaced, ReallocData, Write, ReleaseLoose, LookupBestFit;
    if HasPayload(s, k) {
      if s.head >= 1 { EraseFits(mode, s, k, UnitsAt(s, k)); }
      ErasedIndex(mode, s, k, UnitsAt(s, k));
      ReallocFits(mode, s, k, UnitsAt(s, k), Size(v));
    } else if Size(v) > 0 {
      NoHoleNoSearch(s, Size(v));
    }
  }

  lemma ErasedIndex(mode: Mode, s: State, k: nat, have: nat)
    requires s.head <= s.pivot <= |s.area| && k < |s.area|
    ensures ErasePreplaced(mode, s, k, have).Insufficient? ==> ErasePreplaced(mode, s, k, have).index == 1
  {
    hide AdjacentHoles, MergeHoles, GiveBack, FirstWithTag;
  }

  lemma NoHoleNoSearch(s: State, units: nat)
    requires s.head <= s.pivot <= |s.area| && s.count == 0
    ensures LookupBestFit(s, units).None?
  {
  }

  // ---- The loops ------------------------------------------------------------------------------------------

  lemma NotAsserted(mode: Mode, s: State, tag: Tag, v: Value)
    requires s.head <= s.pivot <= |s.area| && !InsertField(mode, s, tag, v).AssertionFailed?
    ensures v.Nil? ==> mode.Repaired?
  {
    hide AllocLoose;
  }

  /** An insert that throws succeeds after one in-place pass, and the tuple then shows the new
      field besides what it showed before. As written it passes its checks exactly when the live
      descriptors, the new one and the references are within the limit. */
  lemma InsertRetried(mode: Mode, s: State, tag: Tag, v: Value, i: nat, d: nat)
    requires Steady(s) && Bounds(s) && Proper(tag.genus, v) && 0 <= s.count <= s.pivot - s.head && i + d > 0
    requires InsertField(mode, s, tag, v) == Deficit(s, i, d)
    requires Manage(mode, s, i, d).Fitted?
    ensures var u := Manage(mode, s, i, d).state;
            && u.head <= u.pivot <= |u.area|
            && var r := InsertField(mode, u, tag, v);
            && r.Ok? && Steady(r.state) && Bounds(r.state)
            && ViewOf(r.state) == Perform(ViewOf(s), Gained(Field(tag, v)))
            && Bounds(u)
            && (Apply(mode, u, Insert(tag, v)) == r
                <==> mode.Repaired? || s.pivot - s.head - s.count + 1 + References(s.schema) <= MAX_FIELDS)
  {
    hide Manage, Steady, ViewOf, InsertField, AcceptableRw, References;
    ManageMakesRoom(mode, s, i, d);
    var u := Manage(mode, s, i, d).state;
    InsertDeficit(mode, s, tag, v);
    InsertThrowsOne(mode, s, tag, v);
    NotAsserted(mode, s, tag, v);
    InsertFits(mode, u, tag, v);
    NothingSplits(mode, u, v);
    InsertIff(mode, u, tag, v);
    RetryPasses(mode, u, tag, v);
  }

  lemma RetryPasses(mode: Mode, u: State, tag: Tag, v: Value)
    requires Steady(u) && Bounds(u) && Proper(tag.genus, v) && Spacious(u, v) && u.head >= 1 && Passes(mode, u)
    requires InsertField(mode, u, tag, v).Ok? && Sound(u, InsertField(mode, u, tag, v), Gained(Field(tag, v)))
    ensures Apply(mode, u, Insert(tag, v)) == InsertField(mode, u, tag, v)
            <==> mode.Repaired? || u.pivot - u.head + 1 + References(u.schema) <= MAX_FIELDS
  {
    hide Steady, InsertField, AcceptableRw, References, Shows, Furnished, Proper;
    InsertGrowsThere(mode, u, tag, v);
    AuditComplete(u);
    if mode.AsWritten? {
      ClosingCheck(u, InsertField(mode, u, tag, v).state, Insert(tag, v));
    }
  }

  lemma InsertGrowsThere(mode: Mode, u: State, tag: Tag, v: Value)
    requires Steady(u) && Bounds(u) && Proper(tag.genus, v) && Spacious(u, v) && u.head >= 1
             && InsertField(mode, u, tag, v).Ok?
    ensures Resulting(u, InsertField(mode, u, tag, v).state, true)
  {
    hide Good, Written, InsertField, Proper;
    InsertGrowth(mode, u, tag, v);
  }

  lemma NothingSplits(mode: Mode, s: State, v: Value)
    requires s.head <= s.pivot <= |s.area| && s.count == 0
    ensures SplitsSafely(mode, s, Size(v))
  {
  }

  lemma InsertThrowsOne(mode: Mode, s: State, tag: Tag, v: Value)
    requires Steady(s) && Proper(tag.genus, v) && s.head <= s.pivot <= |s.area| && InsertField(mode, s, tag, v).Deficit?
    ensures InsertField(mode, s, tag, v).index == 1
  {
    ProperSize(tag, v);
    hide Layout, Coalesced, Written, AllocLoose, Write, SplitsSafely, Added;
    AllocLooseKeeps(mode, s, tag, Size(v));
  }

  /** Erasing a preplaced field throws at most once: after one pass there is a unit for the hole. */
  lemma EraseRetried(mode: Mode, s: State, u: State, k: nat, k1: nat, v: Value, i: nat, d: nat)
    requires Steady(s) && Bounds(s) && Legal(s, Assign(k, v)) && Size(v) == 0
             && AssignField(mode, s, k, v) == Deficit(s, i, d)
    requires i + d > 0 && 0 <= s.count <= s.pivot - s.head && Manage(mode, s, i, d) == Fitted(u)
    requires Bounds(u) && k1 < |u.area|
    ensures k >= s.pivot && i == 1 && d == 0 && AssignField(mode, u, k1, v).Ok?
  {
    EraseThrowsOne(mode, s, k, v);
    hide Manage, Steady, ViewOf, AssignField, Legal;
    ManageMakesRoom(mode, s, i, d);
    AssignFits(mode, u, k1, v);
  }

  lemma EraseThrowsOne(mode: Mode, s: State, k: nat, v: Value)
    requires Steady(s) && Bounds(s) && Legal(s, Assign(k, v)) && Size(v) == 0
    ensures var r := AssignField(mode, s, k, v); r.Deficit? ==> k >= s.pivot && r.index == 1 && r.data == 0
  {
    hide Layout, Coalesced, Written, UnitsAt, ErasePreplaced, ReallocData, Write, ReleaseLoose;
    SteadyBounds(s);
    EraseDeficit(mode, s, k, UnitsAt(s, k));
  }

  /** An assignment that throws needs at most two in-place passes: the first leaves enough free
      space, the second a unit below the index. `k1` and `k2` say where the field is then. */
  lemma AssignRetried(mode: Mode, s: State, u: State, w: State, k: nat, k1: nat, k2: nat, v: Value, i1: nat, d1: nat,
      i2: nat, d2: nat)
    requires Steady(s) && Bounds(s) && Legal(s, Assign(k, v)) && AssignField(mode, s, k, v) == Deficit(s, i1, d1)
    requires i1 + d1 > 0 && 0 <= s.count <= s.pivot - s.head && Manage(mode, s, i1, d1) == Fitted(u)
    requires Steady(u) && Bounds(u) && k1 < |u.area| && AssignField(mode, u, k1, v).Deficit?
    requires AssignField(mode, u, k1, v).index == i2 && AssignField(mode, u, k1, v).data == d2
    requires i2 + d2 > 0 && 0 <= u.count <= u.pivot - u.head && Manage(mode, u, i2, d2) == Fitted(w)
             && Legal(u, Assign(k1, v))
    requires Bounds(w) && k2 < |w.area|
    ensures AssignField(mode, w, k2, v).Ok?
  {
    AssignDeficit(mode, s, k, v);
    ManageMakesRoom(mode, s, i1, d1);
    AssignDeficit(mode, u, k1, v);
    AssignFits(mode, u, k1, v);
    ManageMakesRoom(mode, u, i2, d2);
    hide Manage, Steady, ViewOf, AssignField, Legal;
    AssignFits(mode, w, k2, v);
  }
}
