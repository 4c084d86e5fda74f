/** The allocator's steps as functions on the state, branch by branch as in src/gear.cxx. */
module Gear {
  import opened Tuples

  /** Some places of the source do not do what their neighbours and assertions say. Each is
      modelled both ways. */
  datatype Mode = AsWritten | Repaired

  /** A step either completes or throws insufficient_space(index, data), which carries the
      state the object is left in. */
  datatype Outcome<+T> =
    | Done(state: State, value: T)
    | Insufficient(state: State, index: int, data: int)

  function Put(s: State, k: nat, u: Unit): (r: State)
    requires k < |s.area|
  {
    s.(area := s.area[k := u])
  }

  function Purge(s: State, k: nat): State
    requires k < |s.area|
  {
    Put(s, k, EMPTY_HOLE)
  }

  /** A descriptor of `units` units of garbage from `begin`. */
  function HoleUnit(k: nat, begin: int, units: nat): Unit { Unit(begin - k, MakeHole(units), 0) }

  // ---- Searching ----------------------------------------------------------------------------

  /** The reference scan: first descriptor in `from..stop` with this tag. */
  function FirstWithTag(area: seq<Unit>, from: nat, stop: nat, tag: Tag): (r: Option<nat>)
    requires from <= stop <= |area|
    ensures r.Some? ==> from <= r.value < stop && area[r.value].tag == tag
    ensures forall k :: from <= k < (if r.Some? then r.value else stop) ==> area[k].tag != tag
    decreases stop - from
  {
    if from == stop then None
    else if area[from].tag == tag then Some(from)
    else FirstWithTag(area, from + 1, stop, tag)
  }

  function Wrap32(x: int): nat { x % 0x1_0000_0000 }

  /** The better of two holes. The excess is computed in 32-bit unsigned arithmetic, so a
      hole that is too small has a huge excess. */
  function BestFit(s: State, units: nat, left: Option<nat>, right: nat): (r: nat)
    requires right < |s.area| && (left.Some? ==> left.value < |s.area|)
    ensures r == right || left == Some(r)
  {
    if left.None? then right
    else
      var excessLeft := Wrap32(HoleSize(s, left.value) - units);
      var excessRight := Wrap32(HoleSize(s, right) - units);
      if excessLeft < excessRight then left.value
      else if excessLeft > excessRight then right
      else if HoleBegin(s, left.value) < HoleBegin(s, right) then left.value
      else right
  }

  /** The loop of lookup_hole: `left` holes are still to be met. */
  function ScanForBestFit(s: State, units: nat, scan: nat, left: int, found: Option<nat>): (r: Option<nat>)
    requires scan <= s.pivot <= |s.area|
    requires found.Some? ==> found.value < scan
    ensures r.Some? ==> r.value < s.pivot
    decreases s.pivot - scan
  {
    if left <= 0 || scan == s.pivot then found
    else if !IsHole(s.area[scan]) then ScanForBestFit(s, units, scan + 1, left, found)
    else
      var found' := if HoleSize(s, scan) >= units then Some(BestFit(s, units, found, scan)) else found;
      ScanForBestFit(s, units, scan + 1, left - 1, found')
  }

  /** lookup_hole in best-fit mode. */
  function LookupBestFit(s: State, units: nat): (r: Option<nat>)
    requires s.head <= s.pivot <= |s.area|
    ensures r.Some? ==> r.value < s.pivot
  {
    if s.count < 1 || s.volume < units then None
    else if units == 0 then FirstWithTag(s.area, s.head, s.pivot, MakeHole(units))
    else ScanForBestFit(s, units, s.head, s.count, None)
  }

  /** lookup_hole in exact-size mode. */
  function LookupExact(s: State, units: nat): (r: Option<nat>)
    requires s.head <= s.pivot <= |s.area|
    ensures r.Some? ==> HoleAt(s, r.value) && HoleSize(s, r.value) == units
  {
    if s.count < 1 || s.volume < units then None
    else FirstWithTag(s.area, s.head, s.pivot, MakeHole(units))
  }

  /** The loop of lookup_adjacent_holes. */
  function ScanForAdjacent(s: State, begin: int, end: int, scan: nat, left: int,
                           before: Option<nat>, after: Option<nat>): (r: (Option<nat>, Option<nat>))
    requires scan <= s.pivot <= |s.area|
    requires (before.Some? ==> before.value < scan) && (after.Some? ==> after.value < scan)
    ensures (r.0.Some? ==> r.0.value < s.pivot) && (r.1.Some? ==> r.1.value < s.pivot)
    decreases s.pivot - scan
  {
    if left <= 0 || scan == s.pivot then (before, after)
    else if !IsHole(s.area[scan]) then ScanForAdjacent(s, begin, end, scan + 1, left, before, after)
    else if HoleSize(s, scan) == 0 then ScanForAdjacent(s, begin, end, scan + 1, left - 1, before, after)
    else
      var after' := if end == HoleBegin(s, scan) then Some(scan) else after;
      var before' := if HoleEnd(s, scan) == begin then Some(scan) else before;
      ScanForAdjacent(s, begin, end, scan + 1, left - 1, before', after')
  }

  function AdjacentHoles(s: State, begin: int, end: int): (r: (Option<nat>, Option<nat>))
    requires s.head <= s.pivot <= |s.area|
    ensures (r.0.Some? ==> r.0.value < s.pivot) && (r.1.Some? ==> r.1.value < s.pivot)
  {
    ScanForAdjacent(s, begin, end, s.head, s.count, None, None)
  }

  // ---- Index and tail -------------------------------------------------------------------------

  /** Drops the purged hole that is first in the index, and every hole after it that is empty
      or reaches the end of data. */
  function TrimHole(s: State): (r: State)
    requires s.head < s.pivot <= |s.area|
    ensures r.area == s.area && r.pivot == s.pivot && r.schema == s.schema && s.head < r.head <= s.pivot
    decreases s.pivot - s.head
  {
    var t := s.(count := s.count - 1, head := s.head + 1);
    if t.head == t.pivot || !IsHole(t.area[t.head]) then t
    else if HoleSize(t, t.head) == 0 then TrimHole(t)
    else if HoleEnd(t, t.head) != t.tail then t
    else TrimHole(t.(volume := t.volume - HoleSize(t, t.head), tail := t.tail - HoleSize(t, t.head)))
  }

  /** One round of the cascade, by what the next descriptor is. */
  lemma TrimAtPivot(s: State)
    requires s.head + 1 == s.pivot <= |s.area|
    ensures TrimHole(s) == s.(count := s.count - 1, head := s.head + 1)
  {
  }

  lemma TrimAtField(s: State)
    requires s.head + 1 < s.pivot <= |s.area| && !IsHole(s.area[s.head + 1])
    ensures TrimHole(s) == s.(count := s.count - 1, head := s.head + 1)
  {
  }

  lemma TrimAtGap(s: State)
    requires s.head + 1 < s.pivot <= |s.area| && IsHole(s.area[s.head + 1]) && s.area[s.head + 1].tag.id > 0
    requires s.head + 1 + s.area[s.head + 1].rel + s.area[s.head + 1].tag.id != s.tail
    ensures TrimHole(s) == s.(count := s.count - 1, head := s.head + 1)
  {
  }

  lemma TrimGoesOn(s: State, u: State, units: nat)
    requires s.head + 1 < s.pivot <= |s.area| && IsHole(s.area[s.head + 1]) && s.area[s.head + 1].tag.id == units
    requires units > 0 ==> HoleEnd(s, s.head + 1) == s.tail
    requires u == State(s.area, s.head + 1, s.pivot, s.tail - units, s.count - 1, s.volume - units, s.schema)
    ensures TrimHole(s) == TrimHole(u)
  {
    var t := s.(count := s.count - 1, head := s.head + 1);
    var v := t.(volume := t.volume - HoleSize(t, t.head), tail := t.tail - HoleSize(t, t.head));
    assert u == v;
    assert units == 0 ==> u == t;
    assert units > 0 ==> HoleEnd(t, t.head) == t.tail;
  }

  /** Purges descriptor `k`, and trims the index when `k` is its first entry. */
  function PurgeAndTrim(s: State, k: nat): (r: State)
    requires k < s.pivot <= |s.area|
    ensures r.pivot == s.pivot && |r.area| == |s.area|
  {
    if k == s.head then TrimHole(Purge(s, k)) else Purge(s, k)
  }

  function TailAlloc(s: State, units: nat): Outcome<int> {
    if TailSpace(s) < units then Insufficient(s, 0, units)
    else Done(s.(tail := s.tail + units), s.tail)
  }

  /** Finds room for one descriptor: an empty hole if there is one, else the unit below `head`. */
  function IndexAlloc(s: State, notify: int): (r: Outcome<nat>)
    requires s.head <= s.pivot <= |s.area|
    ensures r.Done? ==> r.state.head <= r.value < |s.area| && (r.value < s.pivot)
    ensures r.Done? ==> r.state.area == s.area && r.state.pivot == s.pivot
  {
    var empty := if s.count > 0 then FirstWithTag(s.area, s.head, s.pivot, MakeHole(0)) else None;
    if empty.Some? then Done(s.(count := s.count - 1), empty.value)
    else if s.head < 1 then Insufficient(s, 1, notify)
    else Done(s.(head := s.head - 1), s.head - 1)
  }

  // ---- Allocation ---------------------------------------------------------------------------------

  /** Takes `units` units from the front of `hole`, or from the tail when there is none. */
  function AllocData(s: State, units: nat, hole: Option<nat>): (r: Outcome<int>)
    requires hole.Some? ==> hole.value < s.pivot <= |s.area|
    ensures |r.state.area| == |s.area|
  {
    match hole
    case None => TailAlloc(s, units)
    case Some(h) =>
      var t := s.(volume := s.volume - units);
      var excess := Wrap32(HoleSize(s, h) - units);
      if excess == 0 then Done(PurgeAndTrim(t, h), HoleBegin(s, h))
      else Done(Put(t, h, HoleUnit(h, HoleBegin(s, h) + units, excess)), HoleBegin(s, h))
  }

  /** Adds a field with `units` units of payload; `units == 0` for a field without payload.
      When a hole is split, its remainder starts `units` further on; as written it is shifted
      by the size of the remainder instead. */
  function AllocLoose(mode: Mode, s: State, tag: Tag, units: nat): Outcome<nat>
    requires s.head <= s.pivot <= |s.area|
  {
    if units == 0 then
      match IndexAlloc(s, 0)
      case Insufficient(t, i, d) => Insufficient(t, i, d)
      case Done(t, k) => Done(Put(t, k, Unit(0, tag, 0)), k)
    else
      match LookupBestFit(s, units)
      case None =>
        if TailSpace(s) < units then Insufficient(s, 1, units)
        else
          (match IndexAlloc(s, units)
           case Insufficient(t, i, d) => Insufficient(t, i, d)
           case Done(t, k) => Done(Put(t, k, Unit(t.tail - k, tag, units)).(tail := t.tail + units), k))
      case Some(h) =>
        var excess := Wrap32(HoleSize(s, h) - units);
        if excess == 0 then
          Done(Put(s, h, s.area[h].(tag := tag, own := units)).(volume := s.volume - units, count := s.count - 1), h)
        else
          match IndexAlloc(s, units)
          case Insufficient(t, i, d) => Insufficient(t, i, d)
          case Done(t, k) =>
            var shift := if mode.AsWritten? then excess else units;
            var u := Put(t, k, Unit(HoleBegin(s, h) - k, tag, units));
            Done(Put(u, h, HoleUnit(h, HoleBegin(s, h) + shift, excess)).(volume := s.volume - units), k)
  }

  // ---- Release --------------------------------------------------------------------------------------

  /** Two neighbouring holes become one. Returns the descriptor that stands for both; the
      trim may already have dropped that descriptor from the index. */
  function MergeHoles(s: State, first: nat, second: nat): (r: (State, nat))
    requires first < s.pivot <= |s.area| && second < s.pivot
    ensures r.0.pivot == s.pivot && |r.0.area| == |s.area| && r.1 < s.pivot
  {
    var units := HoleSize(s, first) + HoleSize(s, second);
    if first != s.head then
      (PurgeAndTrim(Put(s, first, HoleUnit(first, HoleBegin(s, first), units)), second), first)
    else
      (PurgeAndTrim(Put(s, second, HoleUnit(second, HoleBegin(s, second) - HoleSize(s, first), units)), first), second)
  }

  /** The hole `k` of `units` units that reaches the end of data gives them back. */
  function GiveBack(s: State, k: nat): State
    requires k < s.pivot <= |s.area|
  {
    PurgeAndTrim(s.(tail := s.tail - HoleSize(s, k), volume := s.volume - HoleSize(s, k)), k)
  }

  /** Deletes the loose field `k`, whose payload takes `units` units. */
  function ReleaseLoose(s: State, k: nat, units: nat): State
    requires InIndex(s, k)
  {
    var t := s.(count := s.count + 1);
    if units == 0 then PurgeAndTrim(t, k)
    else
      var h := Put(t, k, Unit(s.area[k].rel, MakeHole(units), 0)).(volume := s.volume + units);
      var (before, after) := AdjacentHoles(h, HoleBegin(h, k), HoleEnd(h, k));
      Evaporate(MergeAround(h, k, before, after))
  }

  /** Merges hole `k` with its neighbours. */
  function MergeAround(s: State, k: nat, before: Option<nat>, after: Option<nat>): (r: (State, nat))
    requires k < s.pivot <= |s.area|
    requires (before.Some? ==> before.value < s.pivot) && (after.Some? ==> after.value < s.pivot)
    ensures r.0.pivot == s.pivot && |r.0.area| == |s.area| && r.1 < s.pivot
  {
    var (t, p) := if before.Some? then MergeHoles(s, before.value, k) else (s, k);
    if after.Some? then MergeHoles(t, p, after.value) else (t, p)
  }

  /** The hole returned by the merges gives its units back if it reaches the end of data. The
      descriptor is read even when it has been trimmed: its unit still holds it. */
  function Evaporate(r: (State, nat)): State
    requires r.1 < r.0.pivot <= |r.0.area|
  {
    if HoleEnd(r.0, r.1) == r.0.tail then GiveBack(r.0, r.1) else r.0
  }

  /** Turns the `units` units at `chunk` into free space or a hole, given the neighbouring
      holes and perhaps an empty hole to use. As written the junk volume is raised before
      the index is asked for room. */
  function ReleaseData(mode: Mode, s: State, chunk: int, units: nat,
                       before: Option<nat>, after: Option<nat>, hole0: Option<nat>): (r: Outcome<Option<nat>>)
    requires s.head <= s.pivot <= |s.area|
    requires before.Some? ==> before.value < s.pivot
    requires after.Some? ==> after.value < s.pivot
    requires hole0.Some? ==> hole0.value < s.pivot
    ensures r.state.pivot == s.pivot && |r.state.area| == |s.area| && r.state.head <= s.pivot
    ensures r.Done? && r.value.Some? ==> r.value.value < s.pivot
  {
    if chunk + units == s.tail then
      var t := s.(tail := s.tail - units);
      Done(if before.Some? then GiveBack(t, before.value) else t, None)
    else
      var t := s.(volume := s.volume + units);
      match (before, after)
      case (Some(b), None) =>
        Done(Put(t, b, HoleUnit(b, HoleBegin(t, b), units + HoleSize(t, b))), Some(b))
      case (Some(b), Some(a)) =>
        var (m, p) := MergeHoles(Put(t, b, HoleUnit(b, HoleBegin(t, b), units + HoleSize(t, b))), b, a);
        Done(m, Some(p))
      case (None, Some(a)) =>
        Done(Put(t, a, HoleUnit(a, HoleBegin(t, a) - units, units + HoleSize(t, a))), Some(a))
      case (None, None) =>
        if hole0.Some? then
          Done(Put(t, hole0.value, HoleUnit(hole0.value, chunk, units)), hole0)
        else
          match IndexAlloc(t, 0)
          case Insufficient(u, i, d) => Insufficient(if mode.AsWritten? then u else s, i, d)
          case Done(u, k) => Done(Put(u, k, HoleUnit(k, chunk, units)).(count := u.count + 1), Some(k))
  }

  /** The reference `k` no longer owns its payload; the offset stays as it is. */
  function Disown(s: State, k: nat): State
    requires k < |s.area|
  {
    Put(s, k, s.area[k].(own := 0))
  }

  /** The reference `k` now owns `units` units at `begin`. */
  function Refer(s: State, k: nat, begin: int, units: nat): State
    requires k < |s.area|
  {
    Put(s, k, s.area[k].(rel := begin - k, own := units))
  }

  /** Deletes the value of the preplaced field whose reference is unit `k`. */
  function ErasePreplaced(mode: Mode, s: State, k: nat, units: nat): Outcome<int>
    requires s.head <= s.pivot <= |s.area| && k < |s.area|
  {
    var at := Payload(s, k);
    var (before, after) := AdjacentHoles(s, at, at + units);
    match ReleaseData(mode, Disown(s, k), at, units, before, after, None)
    case Insufficient(t, i, d) => Insufficient(Put(t, k, s.area[k]), i, d)
    case Done(t, _) => Done(Refer(t, k, k, 0), at)
  }

  // ---- Reallocation ----------------------------------------------------------------------------------

  /** The branch of realloc_data for a tuple without junk volume. */
  function ReallocWithoutHoles(s: State, k: nat, have: nat, needed: nat): Outcome<int>
    requires s.head <= s.pivot <= |s.area| && k < |s.area|
  {
    var at := Payload(s, k);
    if at + have == s.tail then ResizeLast(s, k, have, needed, 0)
    else if needed > have then
      if TailSpace(s) < needed || s.head + s.count < 1 then Insufficient(s, 1, needed)
      else
        match IndexAlloc(s, needed)
        case Insufficient(t, i, d) => Insufficient(t, i, d)
        case Done(t, e) =>
          var u := Put(t, e, HoleUnit(e, at, have)).(count := t.count + 1, volume := t.volume + have);
          match TailAlloc(u, needed)
          case Insufficient(v, i, d) => Insufficient(v, i, d)
          case Done(v, begin) => Done(Refer(v, k, begin, needed), begin)
    else
      match IndexAlloc(s, needed)
      case Insufficient(t, i, d) => Insufficient(t, i, d)
      case Done(t, e) =>
        var u := Put(t, e, HoleUnit(e, at + needed, have - needed));
        Done(Refer(u.(count := t.count + 1, volume := t.volume + (have - needed)), k, at, needed), at)
  }

  /** The last chunk grows or shrinks in place. */
  function ResizeLast(s: State, k: nat, have: nat, needed: nat, index: int): Outcome<int>
    requires k < |s.area|
  {
    if have < needed && TailSpace(s) < needed - have then Insufficient(s, index, needed)
    else Done(Refer(s, k, Payload(s, k), needed).(tail := s.tail - have + needed), Payload(s, k))
  }

  /** No descriptor can be added: swap places with a hole of exactly the size needed, or move
      the tail. As written the new hole is given back when its beginning, not its end, is the
      end of data. */
  function ReallocBySwap(mode: Mode, s: State, k: nat, have: nat, needed: nat): Outcome<int>
    requires s.head <= s.pivot <= |s.area| && k < |s.area|
  {
    var at := Payload(s, k);
    match LookupExact(s, needed)
    case Some(h) =>
      var t := Refer(s, k, HoleBegin(s, h), needed);
      var u := Put(t, h, HoleUnit(h, at, have)).(volume := s.volume + have - needed);
      var last := if mode.AsWritten? then at == u.tail else at + have == u.tail;
      Done(if last then GiveBack(u, h) else u, HoleBegin(s, h))
    case None =>
      if at + have == s.tail then ResizeLast(s, k, have, needed, 1)
      else Insufficient(s, 1, needed)
  }

  /** Releases the old chunk first, merging it with its neighbours, then takes the new one. */
  function ReleaseAndAlloc(mode: Mode, s: State, k: nat, have: nat, needed: nat, before: Option<nat>,
      after: Option<nat>,
                           hole4release: Option<nat>, hole4alloc: Option<nat>): Outcome<int>
    requires s.head <= s.pivot <= |s.area| && k < |s.area|
    requires before.Some? ==> before.value < s.pivot
    requires after.Some? ==> after.value < s.pivot
    requires hole4release.Some? ==> hole4release.value < s.pivot
    requires hole4alloc.Some? ==> hole4alloc.value < s.pivot
  {
    match ReleaseData(mode, Disown(s, k), Payload(s, k), have, before, after, hole4release)
    case Insufficient(t, i, d) => Insufficient(t, i, d)
    case Done(t, merged) =>
      match AllocData(t, needed, HoleAfterRelease(t, needed, merged, hole4alloc))
      case Insufficient(u, i, d) => Insufficient(u, i, d)
      case Done(u, begin) => Done(Refer(u, k, begin, needed), begin)
  }

  /** The hole found before the release is used if it is still there and is not worse than
      the one the release has made; otherwise the index is searched again. */
  function HoleAfterRelease(t: State, needed: nat, merged: Option<nat>, hole4alloc: Option<nat>): (r: Option<nat>)
    requires t.head <= t.pivot <= |t.area|
    requires (merged.Some? ==> merged.value < t.pivot) && (hole4alloc.Some? ==> hole4alloc.value < t.pivot)
    ensures r.Some? ==> r.value < t.pivot
  {
    if hole4alloc.Some? && hole4alloc.value >= t.head && HoleSize(t, hole4alloc.value) > 0
    then Some(BestFit(t, needed, merged, hole4alloc.value))
    else LookupBestFit(t, needed)
  }

  function SizeOf(s: State, h: Option<nat>): nat
    requires h.Some? ==> h.value < |s.area|
  {
    if h.Some? then HoleSize(s, h.value) else 0
  }

  /** Changes the length of the payload of reference `k` from `have` to `needed` units. */
  function ReallocData(mode: Mode, s: State, k: nat, have: nat, needed: nat): Outcome<int>
    requires s.head <= s.pivot <= |s.area| && k < |s.area|
  {
    if s.volume == 0 then ReallocWithoutHoles(s, k, have, needed)
    else
      var at := Payload(s, k);
      var (before, after) := AdjacentHoles(s, at, at + have);
      var adjacent := SizeOf(s, before) + SizeOf(s, after);
      if have < needed && have + adjacent >= needed then
        ReleaseAndAlloc(mode, s, k, have, needed, before, after, None, None)
      else
        var hole4release := if adjacent > 0 || s.head > 0 then None else LookupExact(s, 0);
        if adjacent == 0 && s.head == 0 && hole4release.None? then ReallocBySwap(mode, s, k, have, needed)
        else if have > needed || needed <= TailSpace(s) then
          ReleaseAndAlloc(mode, s, k, have, needed, before, after, hole4release, None)
        else
          match LookupBestFit(s, needed)
          case Some(h) => ReleaseAndAlloc(mode, s, k, have, needed, before, after, hole4release, Some(h))
          case None => Insufficient(s, 0, needed)
  }
}
