/** A tuple in its modifiable form: one array of 32-bit units. Descriptors of loose fields
    grow down from `pivot` to `head`; payload grows up from `pivot` to `tail`, the first
    `|schema|` units of it being the preplaced part. */
module Tuples {
  import opened Ledger

  datatype Option<+T> = None | Some(value: T)

  // ---- Units, tags, descriptors -----------------------------------------------------------

  /** The upper half of a descriptor: five bits of genus, eleven of field id or hole size.
      Hole sizes are unbounded here; Tags.HoleSizeFits says when eleven bits are enough. */
  datatype Tag = Tag(genus: nat, id: nat)

  /** A 32-bit unit read as a descriptor: `rel` is the relative offset to the payload in
      units, or the value itself of an in-place field. `own` is bookkeeping: the length the
      caller reserved for the field. The library keeps it only in the payload's own header
      once the caller has written the value, so no branch of the allocator reads it. */
  datatype Unit = Unit(rel: int, tag: Tag, own: nat)

  const HOLE := 31
  const PROPERTY := 3

  function MakeHole(units: nat): Tag { Tag(HOLE, units) }

  const EMPTY_HOLE := Unit(0, MakeHole(0), 0)

  predicate IsHole(u: Unit) { u.tag.genus == HOLE }

  /** Fields of at most 16 bits live in the descriptor itself. */
  predicate IsInplaced(genus: nat) { 4 <= genus <= 7 }

  predicate IsStretchy(genus: nat) { genus <= PROPERTY }

  // ---- The state ----------------------------------------------------------------------------

  /** `schema[i]` is the genus of the variable-length preplaced field whose reference is kept
      in unit `i` of the preplaced part, if there is one. The buffer ends at `|area|`. */
  datatype State = State(area: seq<Unit>, head: nat, pivot: nat, tail: int,
                         count: int, volume: int, schema: seq<Option<nat>>)

  /** The largest buffer, in units, and the largest number of loose fields. */
  const MAX_UNITS := 65534
  const MAX_FIELDS := 8191

  predicate Bounds(s: State) {
    s.head <= s.pivot && s.pivot + |s.schema| <= s.tail <= |s.area| <= MAX_UNITS
  }

  /** First unit past the preplaced part. */
  function Floor(s: State): nat { s.pivot + |s.schema| }

  function TailSpace(s: State): int { |s.area| - s.tail }

  /** A descriptor or preplaced unit that refers to payload by a relative offset. */
  predicate Refers(s: State, k: nat)
    requires k < |s.area|
  {
    if k < s.pivot then !IsHole(s.area[k]) && !IsInplaced(s.area[k].tag.genus)
    else k < Floor(s) && s.schema[k - s.pivot].Some?
  }

  function Payload(s: State, k: nat): int
    requires k < |s.area|
  {
    k + s.area[k].rel
  }

  function SlotAt(s: State, k: nat): Slot
    requires k < |s.area|
  {
    if k < s.pivot && IsHole(s.area[k]) then Slot(true, Payload(s, k), s.area[k].tag.id)
    else if Refers(s, k) && s.area[k].rel != 0 then Slot(false, Payload(s, k), s.area[k].own)
    else NOTHING
  }

  /** The ledger: descriptors from `head` to `pivot`, then the preplaced part. */
  function Slots(s: State): (r: seq<Slot>)
    requires Bounds(s)
    ensures |r| == Floor(s) - s.head
    ensures forall i :: 0 <= i < |r| ==> r[i] == SlotAt(s, s.head + i)
  {
    seq(Floor(s) - s.head, i requires 0 <= i < Floor(s) - s.head => SlotAt(s, s.head + i))
  }

  // ---- Holes -----------------------------------------------------------------------------------

  predicate InIndex(s: State, k: nat) { s.head <= k < s.pivot <= |s.area| }

  predicate HoleAt(s: State, k: nat) { InIndex(s, k) && IsHole(s.area[k]) }

  function HoleBegin(s: State, k: nat): int
    requires k < |s.area|
  {
    Payload(s, k)
  }

  function HoleSize(s: State, k: nat): nat
    requires k < |s.area|
  {
    s.area[k].tag.id
  }

  function HoleEnd(s: State, k: nat): int
    requires k < |s.area|
  {
    HoleBegin(s, k) + HoleSize(s, k)
  }

  /** A hole with payload. */
  predicate GapAt(s: State, k: nat) { HoleAt(s, k) && HoleSize(s, k) > 0 }

  // ---- Invariants -----------------------------------------------------------------------------

  /** A hole has payload exactly when its size is not zero. */
  ghost predicate HolesMarked(s: State)
    requires Bounds(s)
  {
    forall k :: s.head <= k < s.pivot && IsHole(s.area[k]) ==> (s.area[k].tag.id == 0 <==> s.area[k].rel == 0)
  }

  /** The layout invariant. */
  ghost predicate Layout(s: State) {
    && Bounds(s)
    && Packed(Slots(s), Floor(s), s.tail)
    && Holes(Slots(s)) == s.count
    && Volume(Slots(s)) == s.volume
    && HolesMarked(s)
  }

  /** No two non-empty holes are neighbours. */
  ghost predicate Separated(s: State) {
    forall k: nat, l: nat :: GapAt(s, k) && GapAt(s, l) ==> HoleEnd(s, k) != HoleBegin(s, l)
  }

  /** No non-empty hole reaches the end of data. */
  ghost predicate Clear(s: State) {
    forall k: nat :: GapAt(s, k) ==> HoleEnd(s, k) != s.tail
  }

  /** The first descriptor is not an empty hole. */
  ghost predicate TightHead(s: State)
    requires Bounds(s)
  {
    s.head < s.pivot ==> !(IsHole(s.area[s.head]) && s.area[s.head].tag.id == 0)
  }

  /** Coalescing is maximal. */
  ghost predicate Coalesced(s: State)
    requires Bounds(s)
  {
    Separated(s) && Clear(s) && TightHead(s)
  }

  ghost predicate Good(s: State) {
    Layout(s) && Coalesced(s)
  }

  // ---- What a user of the tuple sees ---------------------------------------------------------

  datatype Value = Nil | Inline(bits: int) | Data(units: seq<Unit>)
  datatype Field = Field(tag: Tag, value: Value)

  function ValueAt(s: State, k: nat): Value
    requires k < |s.area|
  {
    if k < s.pivot && IsInplaced(s.area[k].tag.genus) then Inline(s.area[k].rel)
    else if s.area[k].rel == 0 then Nil
    else if 0 <= Payload(s, k) && Payload(s, k) + s.area[k].own <= |s.area|
    then Data(s.area[Payload(s, k)..Payload(s, k) + s.area[k].own])
    else Nil
  }

  predicate IsLive(s: State, k: nat)
    requires k < |s.area|
  {
    if k < s.pivot then s.head <= k && !IsHole(s.area[k])
    else k < Floor(s) && s.schema[k - s.pivot].Some?
  }

  /** The live loose fields from descriptor `k` on, in the order of the index. */
  function LooseFields(s: State, k: nat): seq<Field>
    requires k <= s.pivot <= |s.area|
    decreases s.pivot - k
  {
    if k == s.pivot then []
    else (if IsHole(s.area[k]) then [] else [Field(s.area[k].tag, ValueAt(s, k))]) + LooseFields(s, k + 1)
  }
}
