/** What a user of the tuple does: insert, assign, erase, compactify. Each operation makes room
    first and writes the value afterwards, as in fast_positive/tuples/details/rw.h. */
module Operations {
  import opened Tuples
  import opened Gear
  import opened Compaction
  import opened Audit

  /** An operation succeeds, throws insufficient_space, or runs into a failing assertion of the
      source. */
  datatype Result = Ok(state: State) | Deficit(state: State, index: int, data: int) | AssertionFailed

  /** Values that can be stored in a field of this genus. The first unit of a variable-length
      value declares its length. */
  predicate Proper(genus: nat, v: Value) {
    genus < HOLE &&
    match v
    case Inline(bits) => IsInplaced(genus)
    case Nil => IsStretchy(genus)
    case Data(units) =>
      && 0 < |units| < MAX_UNITS
      && (if IsStretchy(genus) then BruttoUnits(genus, units[0]) == |units|
          else !IsInplaced(genus) && LooseUnits(genus) == |units|)
  }

  function Size(v: Value): nat { if v.Data? then |v.units| else 0 }

  /** Writes a value where field `k` keeps its payload, or in the descriptor itself. */
  function Write(s: State, k: nat, v: Value): State
    requires k < |s.area|
  {
    match v
    case Nil => s
    case Inline(bits) => Put(s, k, s.area[k].(rel := bits))
    case Data(units) =>
      var p := Payload(s, k);
      if 0 <= p && p + |units| <= |s.area| then s.(area := s.area[..p] + units + s.area[p + |units|..]) else s
  }

  /** append_field, and assigning a value with payload, or an in-place one, to an absent loose
      field. As written alloc_loose asserts that a field without payload is an in-place one. */
  function InsertField(mode: Mode, s: State, tag: Tag, v: Value): Result
    requires s.head <= s.pivot <= |s.area|
  {
    if mode.AsWritten? && v.Nil? then AssertionFailed
    else
      match AllocLoose(mode, s, tag, Size(v))
      case Insufficient(t, i, d) => Deficit(t, i, d)
      case Done(t, k) => if k < |t.area| then Ok(Write(t, k, v)) else Ok(t)
  }

  /** erase of a loose field. */
  function EraseField(s: State, k: nat): Result
    requires InIndex(s, k)
  {
    Ok(ReleaseLoose(s, k, if HasPayload(s, k) then UnitsAt(s, k) else 0))
  }

  /** Assigning to a present field, loose or preplaced. */
  function AssignField(mode: Mode, s: State, k: nat, v: Value): Result
    requires s.head <= s.pivot <= |s.area| && k < |s.area|
  {
    var needed := Size(v);
    if HasPayload(s, k) then
      var have := UnitsAt(s, k);
      if needed == have then Ok(Write(s, k, v))
      else if needed == 0 then
        if InIndex(s, k) then EraseField(s, k)
        else
          match ErasePreplaced(mode, s, k, have)
          case Insufficient(t, i, d) => Deficit(t, i, d)
          case Done(t, _) => Ok(t)
      else
        match ReallocData(mode, s, k, have, needed)
        case Insufficient(t, i, d) => Deficit(t, i, d)
        case Done(t, _) => if k < |t.area| then Ok(Write(t, k, v)) else Ok(t)
    else if needed == 0 then Ok(Write(s, k, v))
    else
      match AllocData(s, needed, LookupBestFit(s, needed))
      case Insufficient(t, i, d) => Deficit(t, i, d)
      case Done(t, begin) => if k < |t.area| then Ok(Write(Refer(t, k, begin, needed), k, v)) else Ok(t)
  }

  datatype Op =
    | Insert(tag: Tag, value: Value)
    | Erase(k: nat)
    | Assign(k: nat, value: Value)
    | Compact

  /** What the library asks of its callers: fields that exist, values of the right genus. */
  predicate Legal(s: State, op: Op)
    requires Bounds(s)
  {
    match op
    case Insert(tag, v) => Proper(tag.genus, v)
    case Erase(k) => InIndex(s, k) && !IsHole(s.area[k])
    case Assign(k, v) =>
      k < |s.area| && IsLive(s, k) && Proper(GenusOf(s, k), v) && (k < s.pivot || IsStretchy(GenusOf(s, k)))
    case Compact => 0 <= s.count <= s.pivot - s.head
  }

  /** What the operation does between its checks. */
  function Act(mode: Mode, s: State, op: Op): Result
    requires Bounds(s) && Legal(s, op)
  {
    match op
    case Insert(tag, v) => InsertField(mode, s, tag, v)
    case Erase(k) => EraseField(s, k)
    case Assign(k, v) => AssignField(mode, s, k, v)
    case Compact =>
      match Compaction.Compactify(mode, s)
      case None => AssertionFailed
      case Some(t) => Ok(t)
  }

  // ---- The checks around an operation -----------------------------------------------------------

  /** debug_check: as written the whole tuple is audited. */
  ghost predicate Passes(mode: Mode, s: State) { mode.Repaired? || AcceptableRw(s) }

  ghost function Closed(mode: Mode, r: Result): Result {
    if r.Ok? && !Passes(mode, r.state) then AssertionFailed else r
  }

  ghost function Checked(mode: Mode, s: State, r: Result): Result {
    if Passes(mode, s) then Closed(mode, r) else AssertionFailed
  }

  /** The operation with the checks before and after it. optimize leaves a tuple without junk
      alone, and compactify begins with a check only when there are holes in the index. */
  ghost function Apply(mode: Mode, s: State, op: Op): Result
    requires Bounds(s) && Legal(s, op)
  {
    if !op.Compact? || s.count > 0 then Checked(mode, s, Act(mode, s, op))
    else if s.volume != 0 then Closed(mode, Act(mode, s, op))
    else Act(mode, s, op)
  }
}
