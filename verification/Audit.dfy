/** The auditor: an independent check of the layout, which knows nothing of how it came about. */
module Audit {
  import opened Tuples
  import opened Ledger
  import opened Compaction
  import opened Intervals

  /** Compared with a number of units, though it is a number of bytes. */
  const MAX_FIELD_BYTES := 4 * (MAX_UNITS - 1)

  // ---- What is to be checked ---------------------------------------------------------------------------

  /** The chunk of descriptor or reference `k`, as long as its header says. */
  function ChunkOf(s: State, k: nat): Slot
    requires k < |s.area|
  {
    if k < s.pivot && IsHole(s.area[k]) then Slot(true, Payload(s, k), s.area[k].tag.id)
    else if HasPayload(s, k) then Slot(false, Payload(s, k), UnitsAt(s, k))
    else NOTHING
  }

  /** Unit `k` is a proper descriptor or reference, and its chunk is inside the payload. */
  predicate Fine(s: State, k: nat)
    requires k < |s.area|
  {
    && (k < s.pivot && IsHole(s.area[k]) ==> (s.area[k].tag.id == 0 <==> s.area[k].rel == 0))
    && (k < s.pivot && Refers(s, k) && !IsStretchy(GenusOf(s, k)) ==> s.area[k].rel != 0)
    && (HasPayload(s, k) ==> UnitsAt(s, k) > 0)
    && (var c := ChunkOf(s, k); c.units > 0 ==> s.pivot <= c.begin && c.End() <= s.tail && c.units <= MAX_FIELD_BYTES)
  }

  function HolesBelow(s: State, k: nat): nat
    requires k <= s.pivot <= |s.area|
    decreases s.pivot - k
  {
    if k == s.pivot then 0 else (if IsHole(s.area[k]) then 1 else 0) + HolesBelow(s, k + 1)
  }

  function VolumeBelow(s: State, k: nat): nat
    requires k <= s.pivot <= |s.area|
    decreases s.pivot - k
  {
    if k == s.pivot then 0 else (if IsHole(s.area[k]) then s.area[k].tag.id else 0) + VolumeBelow(s, k + 1)
  }

  /** Every descriptor and reference in `j..m` is fine, and no two chunks overlap. */
  ghost predicate AllFine(s: State, j: int, m: int) {
    && 0 <= j && m <= |s.area|
    && (forall k :: j <= k < m ==> Fine(s, k))
    && (forall k, l :: j <= k < l < m ==> Apart(ChunkOf(s, k), ChunkOf(s, l)))
  }

  ghost predicate OwnedIn(s: State, j: int, m: int, u: int) {
    exists k :: 0 <= j <= k < m <= |s.area| && Owns(ChunkOf(s, k), u)
  }

  // ---- The auditor ------------------------------------------------------------------------------------------

  class Auditor {
    var map_: seq<Interval>
    var holesCount: nat
    var holesVolume: nat

    constructor ()
      ensures map_ == [] && holesCount == 0 && holesVolume == 0
    {
      map_, holesCount, holesVolume := [], 0, 0;
    }

    /** The map holds the chunks of `j..m`. */
    ghost predicate Recorded(s: State, j: int, m: int)
      reads this
    {
      Maps(s, map_, j, m)
    }

    /** Returns what is wrong, if anything. */
    method CheckChunk(begin: int, units: nat, beginPayload: int, endPayload: int) returns (trouble: Option<string>)
      requires Canonical(map_)
      modifies `map_
      ensures trouble.None? <==> 0 < units <= MAX_FIELD_BYTES && beginPayload <= begin && begin + units <= endPayload
                                 && !Overlaps(old(map_), Interval(begin - beginPayload, begin + units - beginPayload))
      ensures if trouble.None?
              then Joined(old(map_), map_, Interval(begin - beginPayload, begin + units - beginPayload))
              else map_ == old(map_)
    {
      if units == 0 { return Some("assertion: chunk_units > 0"); }
      if begin < beginPayload { return Some("chunk_begin < begin_payload"); }
      if units > MAX_FIELD_BYTES { return Some("chunk_units > fptu::max_field_bytes"); }
      if begin + units > endPayload { return Some("chunk_end > end_payload"); }
      var ok, joined := MapInsert(map_, begin - beginPayload, begin + units - beginPayload);
      map_ := joined;
      trouble := if ok then None else Some("chunk overlaps with field's payload or hole");
    }

    method CheckLoose(s: State, k: nat) returns (trouble: Option<string>)
      requires k < s.pivot <= |s.area| && Recorded(s, k + 1, s.pivot)
      modifies this
      ensures trouble.None? ==> Recorded(s, k, s.pivot)
      ensures trouble.None? ==> holesCount == old(holesCount) + (if IsHole(s.area[k]) then 1 else 0)
      ensures trouble.None? ==> holesVolume == old(holesVolume) + (if IsHole(s.area[k]) then s.area[k].tag.id else 0)
      ensures trouble.Some? ==> !AllFine(s, k, s.pivot)
    {
      hide Overlaps, Joined, UnitsAt, Canonical;
      var u := s.area[k];
      var genus := u.tag.genus;
      trouble := None;
      if IsInplaced(genus) {
        NothingToRecord(s, map_, k, s.pivot, k);
      } else if IsHole(u) {
        holesCount := holesCount + 1;
        if u.tag.id == 0 {
          if u.rel != 0 {
            assert !Fine(s, k);
            return Some("tuple.pure_hole.payload != null");
          }
          NothingToRecord(s, map_, k, s.pivot, k);
          return;
        }
        if u.rel == 0 {
          assert !Fine(s, k);
          return Some("tuple.non_pure_hole.payload == null");
        }
        holesVolume := holesVolume + u.tag.id;
        trouble := Record(s, k, s.pivot, k);
      } else if !IsStretchy(genus) {
        if u.rel == 0 {
          assert !Fine(s, k);
          return Some("tuple.fixed_size_loose_field.payload == null");
        }
        trouble := Record(s, k, s.pivot, k);
      } else if u.rel != 0 {
        trouble := Record(s, k, s.pivot, k);
      } else {
        NothingToRecord(s, map_, k, s.pivot, k);
      }
    }

    /** Checks the chunk of `k`, at either end of `j..m`; the rest is recorded. */
    method Record(s: State, j: nat, m: nat, k: nat) returns (trouble: Option<string>)
      requires j < m <= |s.area| && (k == j || k == m - 1)
               && Recorded(s, if k == j then j + 1 else j, if k == j then m else m - 1)
      requires (k < s.pivot && IsHole(s.area[k])) || HasPayload(s, k)
      requires k < s.pivot && IsHole(s.area[k]) ==> s.area[k].tag.id > 0 && s.area[k].rel != 0
      modifies `map_
      ensures trouble.None? ==> Recorded(s, j, m)
      ensures trouble.Some? ==> !AllFine(s, j, m)
    {
      hide Overlaps, Joined, UnitsAt, Canonical, AllFine, OwnedIn;
      ghost var before := map_;
      var c := ChunkOf(s, k);
      RecordChunk(s, before, j, m, k);
      trouble := CheckChunk(c.begin, c.units, s.pivot, s.tail);
      if trouble.None? {
        RecordedChunk(s, before, map_, j, m, k);
      }
    }
  }

  /** The map holds the chunks of `j..m`, which are all fine. Offsets count from the pivot. */
  ghost predicate Maps(s: State, map_: seq<Interval>, j: int, m: int) {
    && Canonical(map_) && AllFine(s, j, m)
    && forall u :: Covers(map_, u) <==> OwnedIn(s, j, m, s.pivot + u)
  }

  function Without(j: nat, m: nat, k: nat): (int, int)
  {
    if k == j then (j + 1, m) else (j, m - 1)
  }

  lemma OwnedSplit(s: State, j: nat, m: nat, k: nat, u: int)
    requires j < m <= |s.area| && (k == j || k == m - 1)
    ensures OwnedIn(s, j, m, u) <==> Owns(ChunkOf(s, k), u) || OwnedIn(s, Without(j, m, k).0, Without(j, m, k).1, u)
  {
    hide UnitsAt;
    var (a, b) := Without(j, m, k);
    if OwnedIn(s, j, m, u) && !Owns(ChunkOf(s, k), u) {
      var l :| 0 <= j <= l < m <= |s.area| && Owns(ChunkOf(s, l), u);
      assert a <= l < b;
    }
    if OwnedIn(s, a, b, u) {
      var l :| 0 <= a <= l < b <= |s.area| && Owns(ChunkOf(s, l), u);
      assert j <= l < m;
    }
  }

  /** The rest and `k` alone decide. */
  lemma FineSplit(s: State, j: nat, m: nat, k: nat)
    requires j < m <= |s.area| && (k == j || k == m - 1) && AllFine(s, Without(j, m, k).0, Without(j, m, k).1)
    ensures AllFine(s, j, m) <==>
            Fine(s, k) && forall l :: j <= l < m && l != k ==> Apart(ChunkOf(s, l), ChunkOf(s, k))
  {
    hide UnitsAt, Fine, ChunkOf;
    var (a, b) := Without(j, m, k);
    if AllFine(s, j, m) {
      forall l | j <= l < m && l != k ensures Apart(ChunkOf(s, l), ChunkOf(s, k)) {
        if l < k { assert Apart(ChunkOf(s, l), ChunkOf(s, k)); } else { assert Apart(ChunkOf(s, k), ChunkOf(s, l)); }
      }
    }
    if Fine(s, k) && forall l :: j <= l < m && l != k ==> Apart(ChunkOf(s, l), ChunkOf(s, k)) {
      forall x, y | j <= x < y < m ensures Apart(ChunkOf(s, x), ChunkOf(s, y)) {
        if x != k && y != k { assert a <= x < y < b; }
      }
    }
  }

  lemma NothingToRecord(s: State, map_: seq<Interval>, j: nat, m: nat, k: nat)
    requires j < m <= |s.area| && (k == j || k == m - 1) && Maps(s, map_, Without(j, m, k).0, Without(j, m, k).1)
    requires ChunkOf(s, k).units == 0 && Fine(s, k)
    ensures Maps(s, map_, j, m)
  {
    hide UnitsAt, Canonical, Fine;
    FineSplit(s, j, m, k);
    hide AllFine;
    forall u ensures Covers(map_, u) <==> OwnedIn(s, j, m, s.pivot + u) {
      OwnedSplit(s, j, m, k, s.pivot + u);
    }
  }

  function IntervalOf(s: State, k: nat): Interval
    requires k < |s.area|
  {
    Interval(ChunkOf(s, k).begin - s.pivot, ChunkOf(s, k).End() - s.pivot)
  }

  lemma OverlapsMeans(s: State, map_: seq<Interval>, j: nat, m: nat, k: nat)
    requires j < m <= |s.area| && (k == j || k == m - 1) && Maps(s, map_, Without(j, m, k).0, Without(j, m, k).1)
    requires ChunkOf(s, k).units > 0
    ensures Overlaps(map_, IntervalOf(s, k))
            <==> exists l :: j <= l < m && l != k && !Apart(ChunkOf(s, l), ChunkOf(s, k))
  {
    hide UnitsAt, Canonical, AllFine, ChunkOf;
    var (a, b) := Without(j, m, k);
    if Overlaps(map_, IntervalOf(s, k)) {
      var u :| Holds(IntervalOf(s, k), u) && Covers(map_, u);
      var l :| 0 <= a <= l < b <= |s.area| && Owns(ChunkOf(s, l), s.pivot + u);
      assert !Apart(ChunkOf(s, l), ChunkOf(s, k));
    }
    if l: nat :| j <= l < m && l != k && !Apart(ChunkOf(s, l), ChunkOf(s, k)) {
      var x, y := ChunkOf(s, l), ChunkOf(s, k);
      var u := if x.begin < y.begin then y.begin else x.begin;
      assert a <= l < b && Owns(x, s.pivot + (u - s.pivot));
      assert OwnedIn(s, a, b, s.pivot + (u - s.pivot));
      assert Holds(IntervalOf(s, k), u - s.pivot) && Covers(map_, u - s.pivot);
    }
  }

  /** The check of one chunk decides whether all of `j..m` is fine. */
  lemma RecordChunk(s: State, map_: seq<Interval>, j: nat, m: nat, k: nat)
    requires j < m <= |s.area| && (k == j || k == m - 1) && Maps(s, map_, Without(j, m, k).0, Without(j, m, k).1)
    requires (k < s.pivot && IsHole(s.area[k])) || HasPayload(s, k)
    requires k < s.pivot && IsHole(s.area[k]) ==> s.area[k].tag.id > 0 && s.area[k].rel != 0
    ensures var c := ChunkOf(s, k);
            AllFine(s, j, m)
            <==> && 0 < c.units <= MAX_FIELD_BYTES && s.pivot <= c.begin && c.End() <= s.tail
                 && !Overlaps(map_, IntervalOf(s, k))
  {
    hide UnitsAt, Canonical;
    FineSplit(s, j, m, k);
    if ChunkOf(s, k).units > 0 { OverlapsMeans(s, map_, j, m, k); }
    hide AllFine, Overlaps;
  }

  lemma RecordedChunk(s: State, map_: seq<Interval>, joined: seq<Interval>, j: nat, m: nat, k: nat)
    requires j < m <= |s.area| && (k == j || k == m - 1) && Maps(s, map_, Without(j, m, k).0, Without(j, m, k).1)
    requires AllFine(s, j, m) && Joined(map_, joined, IntervalOf(s, k))
    ensures Maps(s, joined, j, m)
  {
    hide UnitsAt, Canonical, AllFine, ChunkOf;
    forall u ensures Covers(joined, u) <==> OwnedIn(s, j, m, s.pivot + u) {
      OwnedSplit(s, j, m, k, s.pivot + u);
      assert Owns(ChunkOf(s, k), s.pivot + u) <==> Holds(IntervalOf(s, k), u);
    }
  }

  // ---- The verdict on a tuple -----------------------------------------------------------------------------

  /** The chunks begin past the preplaced part and leave no unit before the end of data out. */
  ghost predicate Exact(s: State) {
    && Floor(s) <= |s.area|
    && (forall k :: s.head <= k < Floor(s) && ChunkOf(s, k).units > 0 ==> Floor(s) <= ChunkOf(s, k).begin)
    && (forall u :: Floor(s) <= u < s.tail ==> OwnedIn(s, s.head, Floor(s), u))
  }

  ghost predicate SomeChunk(s: State) {
    exists k :: s.head <= k < Floor(s) <= |s.area| && ChunkOf(s, k).units > 0
  }

  /** The variable-length preplaced fields. */
  function References(schema: seq<Option<nat>>): nat {
    if schema == [] then 0 else (if schema[0].Some? then 1 else 0) + References(schema[1..])
  }

  /** The auditor reserves an interval for every descriptor and every reference, and refuses to
      be constructed for more of them than a tuple may have loose fields. */
  predicate InLimit(s: State) { s.pivot - s.head + References(s.schema) <= MAX_FIELDS }

  /** The tuple passes audit_tuple. */
  ghost predicate Acceptable(s: State, havePreplaced: bool, adjacent: bool) {
    && s.head <= s.pivot <= s.tail <= |s.area| && InLimit(s)
    && AllFine(s, s.head, Floor(s))
    && HolesBelow(s, s.head) <= 32767 && VolumeBelow(s, s.head) <= 65535
    && havePreplaced == (|s.schema| > 0) && Floor(s) <= s.tail
    && (SomeChunk(s) ==> Exact(s))
    && (adjacent && SomeChunk(s) ==> Separated(s))
  }

  lemma {:induction false} HolesBelowAtLeast(s: State, j: nat, k: nat, l: nat)
    requires j <= k < l < s.pivot <= |s.area| && IsHole(s.area[k]) && IsHole(s.area[l])
    ensures HolesBelow(s, j) >= 2
    decreases l - j
  {
    if j < k {
      HolesBelowAtLeast(s, j + 1, k, l);
    } else {
      OneHoleBelow(s, k + 1, l);
    }
  }

  lemma {:induction false} OneHoleBelow(s: State, j: nat, l: nat)
    requires j <= l < s.pivot <= |s.area| && IsHole(s.area[l])
    ensures HolesBelow(s, j) >= 1
    decreases l - j
  {
    if j < l { OneHoleBelow(s, j + 1, l); }
  }

  lemma FewHolesSeparated(s: State)
    requires s.head <= s.pivot <= |s.area| && HolesBelow(s, s.head) <= 1
    ensures Separated(s)
  {
    forall k: nat, l: nat | GapAt(s, k) && GapAt(s, l) ensures HoleEnd(s, k) != HoleBegin(s, l) {
      if k < l { HolesBelowAtLeast(s, s.head, k, l); }
      if l < k { HolesBelowAtLeast(s, s.head, l, k); }
    }
  }

  /** A canonical map covers exactly `lo..hi` when it is that one interval. */
  lemma OneInterval(m: seq<Interval>, lo: int, hi: int)
    requires Canonical(m) && m != []
    ensures |m| == 1 && m[0] == Interval(lo, hi) <==> lo < hi && forall u :: Covers(m, u) <==> lo <= u < hi
  {
    if lo < hi && forall u :: Covers(m, u) <==> lo <= u < hi {
      OnlyInterval(m, lo, hi);
    }
    if |m| == 1 && m[0] == Interval(lo, hi) {
      forall u ensures Covers(m, u) <==> lo <= u < hi {
        if lo <= u < hi { assert Holds(m[0], u); }
      }
    }
  }

  lemma OnlyInterval(m: seq<Interval>, lo: int, hi: int)
    requires Canonical(m) && m != [] && lo < hi && forall u :: Covers(m, u) <==> lo <= u < hi
    ensures |m| == 1 && m[0] == Interval(lo, hi)
  {
    EndsOf(m, 0);
    EndsOf(m, |m| - 1);
    NothingBefore(m);
    assert Covers(m, lo) && Covers(m, hi - 1);
    hide Covers;
  }

  /** The units at the ends of an interval are covered, the one past it is not. */
  lemma EndsOf(m: seq<Interval>, i: nat)
    requires Canonical(m) && i < |m|
    ensures Covers(m, m[i].begin) && Covers(m, m[i].end - 1) && !Covers(m, m[i].end)
  {
    assert Holds(m[i], m[i].begin) && Holds(m[i], m[i].end - 1);
    forall j | 0 <= j < |m| ensures !Holds(m[j], m[i].end) {
      assert m[i].begin < m[i].end;
    }
  }

  lemma NothingBefore(m: seq<Interval>)
    requires Canonical(m) && m != []
    ensures !Covers(m, m[0].begin - 1)
  {
    forall j | 0 <= j < |m| ensures !Holds(m[j], m[0].begin - 1) {
      assert m[0].begin < m[0].end;
    }
  }

  // ---- Deciding by the map ----------------------------------------------------------------------------------

  lemma FinePart(s: State, j: nat, m: nat, a: nat, b: nat)
    requires AllFine(s, a, b) && a <= j && m <= b
    ensures AllFine(s, j, m)
  {
    hide Fine, ChunkOf;
  }

  lemma EmptyMapMeans(s: State, map_: seq<Interval>)
    requires s.head <= s.pivot && Maps(s, map_, s.head, Floor(s))
    ensures SomeChunk(s) <==> map_ != []
  {
    hide Fine, ChunkOf, AllFine;
    if k: nat :| s.head <= k < Floor(s) <= |s.area| && ChunkOf(s, k).units > 0 {
      var u := ChunkOf(s, k).begin - s.pivot;
      assert Owns(ChunkOf(s, k), s.pivot + u);
      assert Covers(map_, u);
    }
    if map_ != [] {
      assert Holds(map_[0], map_[0].begin) && Covers(map_, map_[0].begin);
      assert OwnedIn(s, s.head, Floor(s), s.pivot + map_[0].begin);
    }
  }

  /** The one interval from the preplaced part to the end of data. */
  lemma CoverageDecides(s: State, map_: seq<Interval>)
    requires s.head <= s.pivot && Maps(s, map_, s.head, Floor(s)) && map_ != [] && Floor(s) <= s.tail
    ensures |map_| == 1 && map_[0] == Interval(|s.schema|, s.tail - s.pivot) <==> Exact(s)
  {
    hide ChunkOf;
    var lo, hi := |s.schema|, s.tail - s.pivot;
    OneInterval(map_, lo, hi);
    hide Canonical;
    if lo < hi && forall u :: Covers(map_, u) <==> lo <= u < hi {
      ExactFromMap(s, map_);
    }
    if Exact(s) {
      MapFromExact(s, map_);
    }
  }

  lemma ExactFromMap(s: State, map_: seq<Interval>)
    requires s.head <= s.pivot && Maps(s, map_, s.head, Floor(s)) && Floor(s) <= s.tail
    requires forall u :: Covers(map_, u) <==> |s.schema| <= u < s.tail - s.pivot
    ensures Exact(s)
  {
    hide ChunkOf, Canonical, Fine;
    forall k | s.head <= k < Floor(s) && ChunkOf(s, k).units > 0 ensures Floor(s) <= ChunkOf(s, k).begin {
      var u := ChunkOf(s, k).begin - s.pivot;
      assert Owns(ChunkOf(s, k), s.pivot + u);
      assert Covers(map_, u);
    }
    forall u | Floor(s) <= u < s.tail ensures OwnedIn(s, s.head, Floor(s), u) {
      assert Covers(map_, u - s.pivot);
      assert s.pivot + (u - s.pivot) == u;
    }
  }

  lemma MapFromExact(s: State, map_: seq<Interval>)
    requires s.head <= s.pivot && Maps(s, map_, s.head, Floor(s)) && map_ != [] && Floor(s) <= s.tail && Exact(s)
    ensures |s.schema| < s.tail - s.pivot && forall u :: Covers(map_, u) <==> |s.schema| <= u < s.tail - s.pivot
  {
    hide ChunkOf;
    forall u | Covers(map_, u) ensures |s.schema| <= u < s.tail - s.pivot {
      var k :| 0 <= s.head <= k < Floor(s) <= |s.area| && Owns(ChunkOf(s, k), s.pivot + u);
      assert Fine(s, k);
    }
    forall u | |s.schema| <= u < s.tail - s.pivot ensures Covers(map_, u) {
      assert OwnedIn(s, s.head, Floor(s), s.pivot + u);
    }
    assert Holds(map_[0], map_[0].begin) && Covers(map_, map_[0].begin);
  }

  lemma EarlyChunk(s: State, map_: seq<Interval>)
    requires s.head <= s.pivot <= |s.area| && Maps(s, map_, s.head, s.pivot) && map_ != [] && map_[0].begin < |s.schema|
    ensures !(Floor(s) <= |s.area| && SomeChunk(s) ==> Exact(s)) || Floor(s) > |s.area|
  {
    hide ChunkOf, Fine;
    assert Holds(map_[0], map_[0].begin) && Covers(map_, map_[0].begin);
    var k :| 0 <= s.head <= k < s.pivot <= |s.area| && Owns(ChunkOf(s, k), s.pivot + map_[0].begin);
    assert ChunkOf(s, k).units > 0 && ChunkOf(s, k).begin < Floor(s);
  }

  // ---- The loops -----------------------------------------------------------------------------------------------

  /** The loop over the index, from its end. */
  method AuditIndex(validator: Auditor, s: State) returns (trouble: Option<string>)
    requires s.head <= s.pivot <= |s.area| && validator.map_ == [] && validator.holesCount == 0
             && validator.holesVolume == 0
    modifies validator
    ensures trouble.None? <==> AllFine(s, s.head, s.pivot)
    ensures trouble.None? ==> validator.Recorded(s, s.head, s.pivot)
    ensures trouble.None?
            ==> validator.holesCount == HolesBelow(s, s.head) && validator.holesVolume == VolumeBelow(s, s.head)
  {
    hide Fine, ChunkOf;
    var k := s.pivot;
    while k > s.head
      invariant s.head <= k <= s.pivot && validator.Recorded(s, k, s.pivot)
      invariant validator.holesCount == HolesBelow(s, k) && validator.holesVolume == VolumeBelow(s, k)
    {
      k := k - 1;
      trouble := validator.CheckLoose(s, k);
      if trouble.Some? {
        if AllFine(s, s.head, s.pivot) { FinePart(s, k, s.pivot, s.head, s.pivot); }
        return;
      }
    }
    trouble := None;
  }

  /** The loop over the preplaced references. */
  method AuditPreplaced(validator: Auditor, s: State) returns (trouble: Option<string>)
    requires s.head <= s.pivot && Floor(s) <= |s.area| && validator.Recorded(s, s.head, s.pivot)
    modifies validator`map_
    ensures trouble.None? <==> AllFine(s, s.head, Floor(s))
    ensures trouble.None? ==> validator.Recorded(s, s.head, Floor(s))
  {
    hide UnitsAt, Canonical;
    var k := s.pivot;
    while k < Floor(s)
      invariant s.pivot <= k <= Floor(s) && validator.Recorded(s, s.head, k)
    {
      if s.schema[k - s.pivot].Some? && s.area[k].rel != 0 {
        trouble := validator.Record(s, s.head, k + 1, k);
        if trouble.Some? {
          if AllFine(s, s.head, Floor(s)) { FinePart(s, s.head, k + 1, s.head, Floor(s)); }
          return;
        }
      } else {
        NothingToRecord(s, validator.map_, s.head, k + 1, k);
      }
      k := k + 1;
    }
    trouble := None;
  }

  function GapInterval(s: State, k: nat): Interval {
    if k < |s.area| then Interval(HoleBegin(s, k) - s.pivot, HoleEnd(s, k) - s.pivot) else Interval(0, 0)
  }

  /** Every interval is a gap of `j..` and every gap is there. */
  ghost predicate GapsMapped(s: State, m: seq<Interval>, j: nat) {
    && Canonical(m)
    && (forall x :: x in m ==> exists k: nat :: j <= k && GapAt(s, k) && x == GapInterval(s, k))
    && (forall k: nat :: j <= k && GapAt(s, k) ==> GapInterval(s, k) in m)
  }

  ghost predicate SeparatedFrom(s: State, j: nat) {
    forall k: nat, l: nat :: j <= k && j <= l && GapAt(s, k) && GapAt(s, l) ==> HoleEnd(s, k) != HoleBegin(s, l)
  }

  lemma GapStep(s: State, m: seq<Interval>, joined: seq<Interval>, k: nat)
    requires AllFine(s, s.head, s.pivot) && GapAt(s, k) && GapsMapped(s, m, k + 1) && SeparatedFrom(s, k + 1)
    ensures var x := GapInterval(s, k);
            && !Overlaps(m, x) && (TouchesSome(m, x) <==> !SeparatedFrom(s, k))
            && (Joined(m, joined, x) && !TouchesSome(m, x) ==> GapsMapped(s, joined, k))
  {
    var x := GapInterval(s, k);
    GapNoOverlap(s, m, k);
    GapTouches(s, m, k);
    hide AllFine;
    if Joined(m, joined, x) && !TouchesSome(m, x) {
      forall y | y in joined ensures exists l: nat :: k <= l && GapAt(s, l) && y == GapInterval(s, l) {
        if y == x { assert GapAt(s, k); }
      }
    }
  }

  lemma GapOf(s: State, m: seq<Interval>, j: nat, i: nat) returns (l: nat)
    requires GapsMapped(s, m, j) && i < |m|
    ensures j <= l && GapAt(s, l) && m[i] == GapInterval(s, l)
  {
    assert m[i] in m;
    l :| j <= l && GapAt(s, l) && m[i] == GapInterval(s, l);
  }

  lemma GapIn(s: State, m: seq<Interval>, j: nat, l: nat) returns (i: nat)
    requires GapsMapped(s, m, j) && j <= l && GapAt(s, l)
    ensures i < |m| && m[i] == GapInterval(s, l)
  {
    assert GapInterval(s, l) in m;
    i :| 0 <= i < |m| && m[i] == GapInterval(s, l);
  }

  lemma GapNoOverlap(s: State, m: seq<Interval>, k: nat)
    requires AllFine(s, s.head, s.pivot) && GapAt(s, k) && GapsMapped(s, m, k + 1)
    ensures !Overlaps(m, GapInterval(s, k))
  {
    var x := GapInterval(s, k);
    hide GapsMapped;
    forall u, i | Holds(x, u) && 0 <= i < |m| ensures !Holds(m[i], u) {
      var l := GapOf(s, m, k + 1, i);
      assert Apart(ChunkOf(s, k), ChunkOf(s, l));
    }
  }

  lemma GapTouches(s: State, m: seq<Interval>, k: nat)
    requires GapAt(s, k) && GapsMapped(s, m, k + 1) && SeparatedFrom(s, k + 1)
    ensures TouchesSome(m, GapInterval(s, k)) <==> !SeparatedFrom(s, k)
  {
    var x := GapInterval(s, k);
    hide GapsMapped;
    if TouchesSome(m, x) {
      var i :| 0 <= i < |m| && Touch(m[i], x);
      var l := GapOf(s, m, k + 1, i);
      assert HoleEnd(s, l) == HoleBegin(s, k) || HoleEnd(s, k) == HoleBegin(s, l);
    }
    if !SeparatedFrom(s, k) {
      var a: nat, b: nat :| k <= a && k <= b && GapAt(s, a) && GapAt(s, b) && HoleEnd(s, a) == HoleBegin(s, b);
      var l := if a == k then b else a;
      var i := GapIn(s, m, k + 1, l);
      assert Touch(m[i], x);
    }
  }

  /** The second map: as many intervals as holes means that no two of them are neighbours. */
  method AuditAdjacent(s: State) returns (ok: bool)
    requires s.head <= s.pivot <= |s.area| && AllFine(s, s.head, s.pivot)
    ensures ok <==> Separated(s)
  {
    hide Overlaps, Joined, Canonical, AllFine;
    var m: seq<Interval> := [];
    var count, k := 0, s.pivot;
    assert Canonical(m) by { EmptyCanonical(m); }
    while k > s.head
      invariant s.head <= k <= s.pivot && GapsMapped(s, m, k) && SeparatedFrom(s, k) && count == |m|
    {
      k := k - 1;
      if IsHole(s.area[k]) && s.area[k].tag.id != 0 {
        var begin, end := k + s.area[k].rel, k + s.area[k].rel + s.area[k].tag.id;
        var inserted, joined := MapInsert(m, begin - s.pivot, end - s.pivot);
        GapStep(s, m, joined, k);
        count := count + 1;
        if count != |joined| {
          assert TouchesSome(m, GapInterval(s, k)) by { JoinedCount(m, joined, GapInterval(s, k)); }
          return false;
        }
        JoinedCount(m, joined, GapInterval(s, k));
        m := joined;
      }
    }
    ok := true;
  }

  lemma EmptyCanonical(m: seq<Interval>)
    requires m == []
    ensures Canonical(m)
  {
  }

  lemma JoinedCount(m: seq<Interval>, joined: seq<Interval>, x: Interval)
    requires Joined(m, joined, x)
    ensures TouchesSome(m, x) <==> |joined| != |m| + 1
    ensures Canonical(joined)
  {
  }

  // ---- audit_tuple and tuple_rw::audit -----------------------------------------------------------------------

  /** audit_tuple. The limit is ensured in every build: exceeding it throws, which in the audit
      of a modifiable tuple ends the program; here it is a verdict like the others. */
  method AuditTuple(s: State, havePreplaced: bool, adjacent: bool)
      returns (trouble: Option<string>, count: nat, volume: nat)
    requires s.head <= s.pivot <= s.tail <= |s.area|
    ensures trouble.None? <==> Acceptable(s, havePreplaced, adjacent)
    ensures !InLimit(s) ==> trouble == Some("limit <= fptu::max_fields")
    ensures trouble.None? ==> count == HolesBelow(s, s.head) && volume == VolumeBelow(s, s.head)
  {
    hide Fine, ChunkOf, Canonical, Exact, SomeChunk, Separated, AllFine, Auditor.Recorded, References;
    count, volume := 0, 0;
    if s.pivot - s.head + References(s.schema) > MAX_FIELDS {
      return Some("limit <= fptu::max_fields"), count, volume;
    }
    var validator := new Auditor();
    trouble := AuditIndex(validator, s);
    if trouble.Some? {
      if AllFine(s, s.head, Floor(s)) { IndexPart(s); }
      return;
    }
    count, volume := validator.holesCount, validator.holesVolume;
    if count > 32767 { return Some("tool many holes"), count, volume; }
    if volume > 65535 { return Some("tool large holes volume"), count, volume; }
    if havePreplaced != (|s.schema| != 0) {
      return Some("preplaced-fields presence mismatch with schema"), count, volume;
    }
    trouble := AuditRest(validator, s, adjacent, count);
  }

  lemma IndexPart(s: State)
    requires s.head <= s.pivot && AllFine(s, s.head, Floor(s))
    ensures AllFine(s, s.head, s.pivot)
  {
    FinePart(s, s.head, s.pivot, s.head, Floor(s));
  }

  /** The part after the index: references, coverage, neighbouring holes. */
  method AuditRest(validator: Auditor, s: State, adjacent: bool, count: nat) returns (trouble: Option<string>)
    requires s.head <= s.pivot <= s.tail <= |s.area| && validator.Recorded(s, s.head, s.pivot)
    requires AllFine(s, s.head, s.pivot) && count == HolesBelow(s, s.head)
    modifies validator
    ensures trouble.None? <==> AllFine(s, s.head, Floor(s)) && Floor(s) <= s.tail && (SomeChunk(s) ==> Exact(s))
                               && (adjacent && SomeChunk(s) ==> Separated(s))
  {
    hide Fine, ChunkOf, Canonical, Exact, SomeChunk, Separated, AllFine;
    if |s.schema| != 0 {
      if validator.map_ != [] && |s.schema| > validator.map_[0].begin {
        EarlyChunk(s, validator.map_);
        return Some("schema.preplaced > tuple.loose_payload");
      }
      if |s.schema| > s.tail - s.pivot { return Some("schema.preplaced > tuple.whole_payload"); }
      trouble := AuditPreplaced(validator, s);
      if trouble.Some? { return; }
    }
    EmptyMapMeans(s, validator.map_);
    if validator.map_ == [] { return None; }
    CoverageDecides(s, validator.map_);
    if validator.map_[0].begin != |s.schema| { return Some("preplaced-flag does not match the fields"); }
    if validator.map_[|validator.map_| - 1].end != s.tail - s.pivot { return Some("lose space at the end of tuple"); }
    if |validator.map_| > 1 { return Some("tuple have unaccounted holes"); }
    if adjacent && count > 1 {
      var ok := AuditAdjacent(s);
      if !ok { return Some("tuple have unmerged adjacent holes"); }
    } else if count <= 1 {
      FewHolesSeparated(s);
    }
    trouble := None;
  }

  /** The tuple passes tuple_rw::audit. */
  ghost predicate AcceptableRw(s: State) {
    && s.head <= s.pivot <= s.tail <= |s.area| <= MAX_UNITS && s.pivot - s.head <= MAX_FIELDS
    && s.count <= s.pivot - s.head && s.volume <= s.tail - s.pivot
    && Acceptable(s, |s.schema| > 0, true)
    && s.count == HolesBelow(s, s.head) && s.volume == VolumeBelow(s, s.head)
  }

  /** tuple_rw::audit, apart from the order of the index. */
  method AuditRw(s: State) returns (trouble: Option<string>)
    ensures trouble.None? <==> AcceptableRw(s)
  {
    hide Acceptable;
    if s.head > s.pivot { return Some("tuple.head > tuple.pivot"); }
    if s.pivot > s.tail { return Some("tuple.pivot > tuple.tail"); }
    if s.tail > |s.area| { return Some("tuple.tail > tuple.end"); }
    if |s.area| > MAX_UNITS { return Some("tuple.end > fptu::max_tuple_bytes"); }
    if s.pivot - s.head > MAX_FIELDS { return Some("tuple.loose_fields > fptu::max_fields"); }
    if s.count > s.pivot - s.head { return Some("tuple.junk.holes_count > tuple.index_size"); }
    if s.volume > s.tail - s.pivot { return Some("tuple.junk.data_units > tuple.payload_size"); }
    var count, volume;
    trouble, count, volume := AuditTuple(s, |s.schema| > 0, true);
    if trouble.Some? { return; }
    if s.count != count { return Some("tuple.holes_count mismatch"); }
    if s.volume != volume { return Some("tuple.junk_volume mismatch"); }
  }
}
