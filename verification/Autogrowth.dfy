/** manage_space_deficit within the buffer: compactify, then shift the whole tuple so that both
    ends get what was asked for; and the retries it makes succeed. */
module Autogrowth {
  import opened Tuples
  import opened Gear
  import opened Searching
  import opened Compaction
  import opened Compactness
  import opened Operations
  import opened Abstract
  import opened Stepping
  import opened Running
  import opened Relocating
  import opened Audit
  import opened Agreement
  import Compacting

  /** How the call ends. A new buffer is not part of this model. */
  datatype Managed = Fitted(state: State) | Overflow | BufferNeeded | Failed

  const UINT16_MAX := 65535
  const NETTO_BYTES := 4 * MAX_UNITS

  function Max(a: int, b: int): int { if a < b then b else a }
  function Min(a: int, b: int): int { if b < a then b else a }

  function Unallocated(s: State): int { |s.area| - (s.tail - s.head) }

  function IndexUsed(s: State, wi: nat): int { s.pivot - s.head + wi }
  function DataUsed(s: State, wd: nat): int { s.tail - s.pivot + wd }

  /** Units to leave below the index: a share of the free units in proportion to its size,
      rounded up, within what both ends need. */
  function IndexReserve(s: State, wi: nat, wd: nat): int
    requires Bounds(s) && wi + wd > 0
  {
    var whole := IndexUsed(s, wi) + DataUsed(s, wd);
    Max(wi, Min((Unallocated(s) * IndexUsed(s, wi) + whole - 1) / whole, Unallocated(s) - wd))
  }

  function DataReserve(s: State, wi: nat, wd: nat): int
    requires Bounds(s) && wi + wd > 0
  {
    var whole := IndexUsed(s, wi) + DataUsed(s, wd);
    Max(wd, Min(Unallocated(s) * DataUsed(s, wd) / whole, Unallocated(s) - wi))
  }

  /** How far the compact tuple has to move up. */
  function Shift(s: State, wi: nat, wd: nat): int
    requires Bounds(s) && wi + wd > 0
  {
    if wi > s.head then IndexReserve(s, wi, wd) - s.head
    else if wd > TailSpace(s) then -(DataReserve(s, wi, wd) - TailSpace(s))
    else 0
  }

  /** The memmove, which leaves old units in place outside its destination. */
  function ShiftBy(s: State, d: int): State
    requires Bounds(s) && 0 <= s.head + d && s.tail + d <= |s.area|
  {
    s.(area := s.area[..s.head + d] + s.area[s.head..s.tail] + s.area[s.tail + d..],
       head := s.head + d, pivot := s.pivot + d, tail := s.tail + d)
  }

  /** As written it begins with a check, and ends with one when it has moved the tuple. */
  ghost function Manage(mode: Mode, s: State, wi: nat, wd: nat): Managed
    requires Bounds(s) && 0 <= s.count <= s.pivot - s.head && wi + wd > 0
  {
    var wanna, junk := wd + wi, s.volume + s.count;
    if !Passes(mode, s) then Failed
    else if s.tail - s.head - junk + wanna >= UINT16_MAX || wi > MAX_FIELDS || wd > NETTO_BYTES then Overflow
    else if wanna > junk + Unallocated(s) then BufferNeeded
    else
      match Apply(mode, s, Compact)
      case Ok(t) => MoveCompact(mode, t, wi, wd)
      case _ => Failed
  }

  ghost function MoveCompact(mode: Mode, t: State, wi: nat, wd: nat): Managed
    requires wi + wd > 0
  {
    if Bounds(t) && t.tail + wd + Shift(t, wi, wd) <= |t.area| && t.head - wi + Shift(t, wi, wd) >= 0
       && (Shift(t, wi, wd) == 0 || Passes(mode, ShiftBy(t, Shift(t, wi, wd))))
    then Fitted(ShiftBy(t, Shift(t, wi, wd)))
    else Failed
  }

  /** What the source asserts on entry. */
  predicate Wanted(s: State, wi: nat, wd: nat) { wd > TailSpace(s) || wi > s.head }

  // ---- Both ends get what they want ------------------------------------------------------------------

  /** Either end gets its share of the free units, unless the other end, or its own need, sets
      another bound. */
  lemma IndexShare(s: State, wi: nat, wd: nat)
    requires Bounds(s) && wi + wd > 0 && wi + wd <= Unallocated(s)
    ensures var r := IndexReserve(s, wi, wd); var whole := IndexUsed(s, wi) + DataUsed(s, wd);
            && wi <= r <= Unallocated(s) - wd
            && (r < Unallocated(s) - wd ==> Unallocated(s) * IndexUsed(s, wi) <= r * whole)
            && (r > wi ==> (r - 1) * whole < Unallocated(s) * IndexUsed(s, wi))
  {
    var x, whole := Unallocated(s) * IndexUsed(s, wi), IndexUsed(s, wi) + DataUsed(s, wd);
    ProductNatural(Unallocated(s), IndexUsed(s, wi));
    CeilMeans(x, whole);
    var q, r := (x + whole - 1) / whole, IndexReserve(s, wi, wd);
    TimesMonotone(r - 1, q - 1, whole);
    TimesMonotone(q, r, whole);
  }

  lemma DataShare(s: State, wi: nat, wd: nat)
    requires Bounds(s) && wi + wd > 0 && wi + wd <= Unallocated(s)
    ensures var r := DataReserve(s, wi, wd); var whole := IndexUsed(s, wi) + DataUsed(s, wd);
            && wd <= r <= Unallocated(s) - wi
            && (r < Unallocated(s) - wi ==> Unallocated(s) * DataUsed(s, wd) < (r + 1) * whole)
            && (r > wd ==> r * whole <= Unallocated(s) * DataUsed(s, wd))
  {
    var x, whole := Unallocated(s) * DataUsed(s, wd), IndexUsed(s, wi) + DataUsed(s, wd);
    ProductNatural(Unallocated(s), DataUsed(s, wd));
    FloorMeans(x, whole);
    var q, r := x / whole, DataReserve(s, wi, wd);
    TimesMonotone(r, q, whole);
    TimesMonotone(q + 1, r + 1, whole);
  }

  lemma ProductNatural(a: int, b: int)
    requires a >= 0 && b >= 0
    ensures a * b >= 0
  {
  }

  lemma CeilMeans(x: int, w: int)
    requires x >= 0 && w > 0
    ensures var q := (x + w - 1) / w; x <= q * w && (q - 1) * w < x
  {
    FloorMeans(x + w - 1, w);
  }

  lemma FloorMeans(x: int, w: int)
    requires x >= 0 && w > 0
    ensures var q := x / w; q * w <= x < (q + 1) * w
  {
    assert x == w * (x / w) + x % w;
  }

  lemma TimesMonotone(a: int, b: int, w: int)
    requires w > 0
    ensures a <= b ==> a * w <= b * w
  {
    if a <= b { assert (b - a) * w >= 0; }
  }

  lemma ShiftFits(t: State, wi: nat, wd: nat)
    requires Bounds(t) && wi + wd > 0 && wi + wd <= Unallocated(t)
    ensures var d := Shift(t, wi, wd);
            && 0 <= t.head + d && t.tail + d <= |t.area| && t.head + d >= wi && TailSpace(t) - d >= wd
  {
    IndexShare(t, wi, wd);
    DataShare(t, wi, wd);
    hide IndexReserve, DataReserve;
  }

  lemma ShiftRelocates(t: State, d: int)
    requires Bounds(t) && 0 <= t.head + d && t.tail + d <= |t.area|
    ensures Relocated(t, ShiftBy(t, d), d) && |ShiftBy(t, d).area| == |t.area|
  {
    var u := ShiftBy(t, d);
    forall k | t.head <= k < t.tail ensures u.area[k + d] == t.area[k] {
      assert u.area[k + d] == t.area[t.head..t.tail][k - t.head];
    }
  }

  /** Both ends have room, no hole is left, and every field is as it was. */
  ghost predicate MadeRoom(s: State, t: State, wi: nat, wd: nat) {
    && Steady(t) && Bounds(s) && Bounds(t) && ViewOf(t) == ViewOf(s) && |t.area| == |s.area|
    && t.count == 0 && t.volume == 0 && t.head >= wi && TailSpace(t) >= wd
    && s.head <= s.pivot && LooseFields(t, t.head) == LooseFields(s, s.head)
    && t.schema == s.schema && t.pivot - t.head == s.pivot - s.head - s.count
    && t.tail - t.head == s.tail - s.head - (s.volume + s.count)
  }

  lemma CompactedRoom(s: State, t: State)
    requires Steady(s) && Bounds(s) && Compacted(s, t)
    ensures Steady(t) && Bounds(t) && |t.area| == |s.area| && Unallocated(t) == Unallocated(s) + s.volume + s.count
    ensures ViewOf(t) == ViewOf(s)
  {
    BoundsOf(t);
    CompactShows(s, t);
  }

  lemma MovedMakesRoom(s: State, t: State, wi: nat, wd: nat)
    requires Steady(s) && Bounds(s) && Compacted(s, t) && wi + wd > 0 && wi + wd <= s.volume + s.count + Unallocated(s)
    ensures Bounds(t) && var d := Shift(t, wi, wd);
            && t.tail + wd + d <= |t.area| && t.head - wi + d >= 0
            && 0 <= t.head + d && t.tail + d <= |t.area| && MadeRoom(s, ShiftBy(t, d), wi, wd)
  {
    CompactedRoom(s, t);
    var d := Shift(t, wi, wd);
    ShiftFits(t, wi, wd);
    ShiftRelocates(t, d);
    hide Good, Written, ViewOf, Shift, PreplacedKept;
    RelocatedKeeps(t, ShiftBy(t, d), d);
  }

  /** What the request is measured against: the junk and the free units together. */
  predicate Covers(s: State, wi: nat, wd: nat) {
    && s.tail - s.head - (s.volume + s.count) + wi + wd < UINT16_MAX && wi <= MAX_FIELDS && wd <= NETTO_BYTES
    && wi + wd <= s.volume + s.count + Unallocated(s)
  }

  lemma MovedPasses(mode: Mode, s: State, u: State)
    requires Steady(s) && Bounds(s) && Audited(mode, s, 0) && s.count >= 0
    requires Steady(u) && Bounds(u) && ViewOf(u) == ViewOf(s) && u.schema == s.schema
             && u.pivot - u.head == s.pivot - s.head - s.count
    ensures Passes(mode, u)
  {
    hide Steady, ViewOf, Furnished, AllPresent, AcceptableRw, References;
    FurnishedIsSeen(s);
    FurnishedIsSeen(u);
    AuditComplete(u);
  }

  lemma PassesIs(mode: Mode, s: State)
    requires Steady(s)
    ensures Passes(mode, s) <==> Audited(mode, s, 0)
  {
    hide Steady, Furnished, AcceptableRw, References;
    AuditComplete(s);
  }

  /** With the guards it gets to the move, and the move makes room. */
  lemma ManageMoves(mode: Mode, s: State, wi: nat, wd: nat)
    requires Steady(s) && wi + wd > 0 && Covers(s, wi, wd) && Audited(mode, s, 0)
    requires Bounds(s) && Legal(s, Compact) && Safe(mode, s, Compact)
    ensures Apply(mode, s, Compact).Ok? && Compacted(s, Apply(mode, s, Compact).state)
    ensures var o := MoveCompact(mode, Apply(mode, s, Compact).state, wi, wd);
            o.Fitted? && MadeRoom(s, o.state, wi, wd) && Passes(mode, o.state)
  {
    hide Compactify, Layout, Coalesced, Written, Compacted, NilReference, NilDisplaced, Shift, ShiftBy, Audited,
        AcceptableRw, MoveCompact, ViewOf;
    CompactifyKeeps(s);
    CompactifyAsWrittenIff(s);
    StepIff(mode, s, Compact);
    var t := Compactify(Repaired, s).value;
    assert Apply(mode, s, Compact) == Ok(t);
    MovedMakesRoom(s, t, wi, wd);
    MovedPasses(mode, s, ShiftBy(t, Shift(t, wi, wd)));
    MoveIs(mode, t, wi, wd);
  }

  lemma MoveIs(mode: Mode, t: State, wi: nat, wd: nat)
    requires Bounds(t) && wi + wd > 0
    requires var d := Shift(t, wi, wd);
             && t.tail + wd + d <= |t.area| && t.head - wi + d >= 0 && 0 <= t.head + d && t.tail + d <= |t.area|
             && Passes(mode, ShiftBy(t, d))
    ensures MoveCompact(mode, t, wi, wd) == Fitted(ShiftBy(t, Shift(t, wi, wd)))
  {
    hide Shift, ShiftBy, Passes;
  }

  lemma CountBounds(s: State)
    requires Steady(s)
    ensures Bounds(s) && 0 <= s.count <= s.pivot - s.head
  {
    hide Layout, Coalesced, Written;
    SteadyBounds(s);
    Compacting.CountInIndex(s);
  }

  /** With the request a tuple would be longer than any may be. */
  predicate Exceeds(s: State, wi: nat, wd: nat) {
    s.tail - s.head - (s.volume + s.count) + wi + wd >= UINT16_MAX || wi > MAX_FIELDS || wd > NETTO_BYTES
  }

  /** When junk and free units cover the request both ends get what they want without another
      buffer, and no field changes. As written this needs the guard of compactify, and a tuple
      that passes the check on entry. Otherwise it says whether the tuple would be too large or
      needs another buffer. */
  lemma ManageMakesRoom(mode: Mode, s: State, wi: nat, wd: nat)
    requires Steady(s) && wi + wd > 0
    ensures Bounds(s) && 0 <= s.count <= s.pivot - s.head
    ensures Manage(mode, s, wi, wd).Fitted? <==> Audited(mode, s, 0) && Covers(s, wi, wd) && Safe(mode, s, Compact)
    ensures Manage(mode, s, wi, wd).Fitted? ==>
              MadeRoom(s, Manage(mode, s, wi, wd).state, wi, wd) && Passes(mode, Manage(mode, s, wi, wd).state)
    ensures Manage(mode, s, wi, wd).Failed? <==>
              !Audited(mode, s, 0) || (Covers(s, wi, wd) && !Safe(mode, s, Compact))
    ensures Manage(mode, s, wi, wd).Overflow? <==> Audited(mode, s, 0) && Exceeds(s, wi, wd)
    ensures Manage(mode, s, wi, wd).BufferNeeded? <==>
              Audited(mode, s, 0) && !Exceeds(s, wi, wd) && wi + wd > s.volume + s.count + Unallocated(s)
  {
    hide Good, Written, MoveCompact, MadeRoom, Apply, Audited, Passes, Safe;
    CountBounds(s);
    PassesIs(mode, s);
    CompactSucceeds(mode, s);
    if Audited(mode, s, 0) && Covers(s, wi, wd) && Safe(mode, s, Compact) {
      ManageMoves(mode, s, wi, wd);
    }
  }

  /** compactify does not throw, and what it completes is sound. */
  lemma CompactSucceeds(mode: Mode, s: State)
    requires Steady(s) && Bounds(s) && Legal(s, Compact)
    ensures !Apply(mode, s, Compact).Deficit?
    ensures Apply(mode, s, Compact).Ok? <==> Safe(mode, s, Compact)
  {
    hide Compactify, AcceptableRw, Layout, Coalesced, Written, NilDisplaced, NilReference, Audited;
    ActIff(mode, s, Compact);
    StepIff(mode, s, Compact);
    CompactifyAsWrittenIff(s);
  }
}
