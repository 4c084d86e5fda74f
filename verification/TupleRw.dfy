/** The tuple object itself: one array of units and five counters, changed in place. Each
    method does what its function in Gear says, and leaves nothing else changed. */
module TupleRw {
  import opened Tuples
  import opened Gear
  import opened Compaction
  import opened Operations
  import opened Abstract
  import opened Stepping
  import opened Running
  import opened Relocating
  import opened Audit
  import opened Serializing
  import Searching

  /** A call returns, throws insufficient_space(index, data), or fails an assertion. */
  datatype Attempt<+T> = Got(value: T) | Deficient(index: int, data: int) | Asserted

  /** The call has ended as the function says, in the state the function says. */
  ghost predicate Ended<T>(o: Outcome<T>, now: State, r: Attempt<T>) {
    now == o.state && r == match o { case Done(_, v) => Got(v) case Insufficient(_, i, d) => Deficient(i, d) }
  }

  /** The same for an operation of the user. */
  ghost predicate Completed(o: Result, now: State, r: Attempt<()>) {
    match o
    case Ok(t) => now == t && r == Got(())
    case Deficit(t, i, d) => now == t && r == Deficient(i, d)
    case AssertionFailed => r == Asserted
  }

  /** Under the guard of the operation the tuple stays ready and shows exactly its effect; if it
      throws nothing has changed. */
  ghost predicate Kept(mode: Mode, s: State, op: Op, now: State, r: Attempt<()>)
    requires Bounds(s) && Legal(s, op)
  {
    Safe(mode, s, op) ==>
      && Steady(now) && Bounds(now) && !r.Asserted?
      && (r.Got? ==> ViewOf(now) == Perform(ViewOf(s), EffectOf(s, op)))
      && (r.Deficient? ==> now == s)
  }

  lemma CompletedKept(mode: Mode, s: State, op: Op, now: State, r: Attempt<()>)
    requires Steady(s) && Bounds(s) && Legal(s, op)
             && (Apply(mode, s, op).AssertionFailed? || Completed(Apply(mode, s, op), now, r))
    ensures Kept(mode, s, op, now, r)
  {
    hide Steady, Safe, Apply, EffectOf, Legal, ViewOf;
    StepIff(mode, s, op);
    if Safe(mode, s, op) {
      StepKeeps(mode, s, op);
    }
  }

  /** If `l` has so many units, so has `k`, and it is smaller, or as small and not further on. */
  predicate Beats(s: State, units: nat, k: nat, l: nat)
    requires k < |s.area| && l < |s.area|
  {
    HoleSize(s, l) >= units ==> HoleSize(s, k) >= units && Searching.NoWorse(s, k, l)
  }

  // ---- Collecting references one by one -------------------------------------------------------------

  ghost predicate NoNilBefore(s: State, k: nat)
    requires Bounds(s) && k <= Floor(s)
  {
    forall j: nat :: s.pivot <= j < k && Refers(s, j) ==> s.area[j].rel != 0
  }

  lemma RefItemsStep(s: State, k: nat)
    requires Bounds(s) && s.pivot <= k < Floor(s)
    ensures RefItems(s, k)
            == (if s.schema[k - s.pivot].Some? && s.area[k].rel != 0 then [ItemAt(s, k)] else []) + RefItems(s, k + 1)
    ensures NoNilBefore(s, k) && !(s.schema[k - s.pivot].Some? && s.area[k].rel == 0) ==> NoNilBefore(s, k + 1)
  {
    hide ItemAt;
  }

  lemma NoneBeforePivot(s: State)
    requires Bounds(s)
    ensures NoNilBefore(s, s.pivot)
  {
  }

  lemma NilFound(s: State, k: nat)
    requires Bounds(s) && s.pivot <= k < Floor(s) && s.schema[k - s.pivot].Some? && s.area[k].rel == 0
    ensures NilReference(s)
  {
    assert Refers(s, k);
  }

  lemma RefItemsEnd(s: State)
    requires Bounds(s)
    ensures RefItems(s, Floor(s)) == []
    ensures NoNilBefore(s, Floor(s)) ==> !NilReference(s)
  {
  }

  class TupleRw {
    const mode: Mode
    const area: array<Unit>
    const schema: seq<Option<nat>>
    var head: nat
    var pivot: nat
    var tail: int
    var count: int
    var volume: int

    /** The unit before the area, for the header of a tuple whose index has no room left. */
    var reserve: Unit

    ghost function St(): (s: State)
      reads this, area
      ensures s == State(area[..], head, pivot, tail, count, volume, schema)
    {
      State(area[..], head, pivot, tail, count, volume, schema)
    }

    predicate Shape()
      reads this
    {
      head <= pivot <= area.Length
    }

    constructor (mode: Mode, area: array<Unit>, pivot: nat, schema: seq<Option<nat>>)
      ensures this.mode == mode && this.area == area && this.schema == schema
      ensures St() == State(area[..], pivot, pivot, pivot, 0, 0, schema)
    {
      this.mode, this.area, this.schema := mode, area, schema;
      this.head, this.pivot, this.tail, this.count, this.volume := pivot, pivot, pivot, 0, 0;
      this.reserve := EMPTY_HOLE;
    }

    /** The constructor from a serialised tuple: `pivot` items are reserved, the units behind the
        header are copied to where the index begins. */
    constructor FromImage(mode: Mode, area: array<Unit>, i: Image, pivot: nat, count: nat, volume: nat,
        schema: seq<Option<nat>>)
      requires IndexSize(i) <= pivot && IndexSize(i) <= |i.units| && pivot - IndexSize(i) + |i.units| <= area.Length
      modifies area
      ensures this.mode == mode && this.area == area && this.schema == schema
      ensures St() == State(old(area[..pivot - IndexSize(i)]) + i.units + old(area[pivot - IndexSize(i) + |i.units|..]),
                            pivot - IndexSize(i), pivot, pivot - IndexSize(i) + |i.units|, count, volume, schema)
    {
      this.mode, this.area, this.schema := mode, area, schema;
      this.head, this.pivot, this.tail := pivot - IndexSize(i), pivot, pivot - IndexSize(i) + |i.units|;
      this.count, this.volume := count, volume;
      this.reserve := EMPTY_HOLE;
      new;
      WriteUnits(head, i.units);
    }

    // ---- Searching ------------------------------------------------------------------------------------

    method Lookup(tag: Tag) returns (r: Option<nat>)
      requires Shape()
      ensures r == FirstWithTag(area[..], head, pivot, tag)
    {
      var scan := head;
      while scan < pivot
        invariant head <= scan <= pivot
        invariant FirstWithTag(area[..], head, pivot, tag) == FirstWithTag(area[..], scan, pivot, tag)
      {
        if area[scan].tag == tag { return Some(scan); }
        scan := scan + 1;
      }
      return None;
    }

    method LookupHoleExactly(units: nat) returns (r: Option<nat>)
      requires Shape()
      ensures r == LookupExact(St(), units)
    {
      if count < 1 || volume < units { return None; }
      r := Lookup(MakeHole(units));
    }

    method LookupHole(units: nat) returns (found: Option<nat>)
      requires Shape()
      ensures found == LookupBestFit(St(), units)
    {
      if count < 1 || volume < units { return None; }
      if units == 0 {
        found := Lookup(MakeHole(units));
        return;
      }
      found := None;
      var left, scan := count, head;
      while left > 0 && scan < pivot
        invariant head <= scan <= pivot && (found.Some? ==> found.value < scan)
        invariant ScanForBestFit(St(), units, head, count, None) == ScanForBestFit(St(), units, scan, left, found)
        decreases pivot - scan
      {
        if IsHole(area[scan]) {
          if area[scan].tag.id >= units {
            found := Better(units, found, scan);
          }
          left := left - 1;
        }
        scan := scan + 1;
      }
    }

    method Better(units: nat, left: Option<nat>, right: nat) returns (r: Option<nat>)
      requires right < area.Length && (left.Some? ==> left.value < area.Length)
      ensures r == Some(BestFit(St(), units, left, right))
      ensures left.None? ==> r == Some(right)
      ensures left.Some? && units <= MAX_UNITS && HoleSize(St(), left.value) <= MAX_UNITS
              && HoleSize(St(), right) <= MAX_UNITS ==>
                && Beats(St(), units, r.value, left.value) && Beats(St(), units, r.value, right)
    {
      if left.None? { return Some(right); }
      var excessLeft, excessRight := Wrap32(area[left.value].tag.id - units), Wrap32(area[right].tag.id - units);
      if excessLeft < excessRight { return left; }
      if excessLeft > excessRight { return Some(right); }
      return if left.value + area[left.value].rel < right + area[right].rel then left else Some(right);
    }

    method LookupAdjacentHoles(begin: int, end: int) returns (before: Option<nat>, after: Option<nat>)
      requires Shape()
      ensures (before, after) == AdjacentHoles(St(), begin, end)
    {
      before, after := None, None;
      var left, scan := count, head;
      while left > 0 && scan < pivot
        invariant head <= scan <= pivot && (before.Some? ==> before.value < scan)
                  && (after.Some? ==> after.value < scan)
        invariant AdjacentHoles(St(), begin, end) == ScanForAdjacent(St(), begin, end, scan, left, before, after)
        decreases pivot - scan
      {
        if IsHole(area[scan]) {
          if area[scan].tag.id != 0 {
            if end == scan + area[scan].rel { after := Some(scan); }
            if scan + area[scan].rel + area[scan].tag.id == begin { before := Some(scan); }
          }
          left := left - 1;
        }
        scan := scan + 1;
      }
    }

    // ---- Index and tail ----------------------------------------------------------------------------------

    method Trim()
      requires Shape() && head < pivot
      modifies this
      ensures St() == TrimHole(old(St())) && Shape()
    {
      hide TrimHole;
      ghost var s := St();
      while true
        invariant Shape() && head < pivot
        invariant TrimHole(s) == TrimHole(St())
        decreases pivot - head
      {
        ghost var t := St();
        count := count - 1;
        head := head + 1;
        if head == pivot {
          TrimAtPivot(t);
          return;
        }
        if !IsHole(area[head]) {
          TrimAtField(t);
          return;
        }
        var units := area[head].tag.id;
        if units != 0 {
          if head + area[head].rel + units != tail {
            TrimAtGap(t);
            return;
          }
          volume := volume - units;
          tail := tail - units;
        }
        TrimGoesOn(t, St(), units);
      }
    }

    method PurgeHole(k: nat)
      requires Shape() && k < pivot
      modifies this, area
      ensures St() == PurgeAndTrim(old(St()), k) && Shape()
    {
      area[k] := EMPTY_HOLE;
      if k == head {
        Trim();
      }
    }

    method AllocTail(units: nat) returns (r: Attempt<int>)
      modifies `tail
      ensures Ended(TailAlloc(old(St()), units), St(), r)
    {
      if area.Length - tail < units { return Deficient(0, units); }
      r := Got(tail);
      tail := tail + units;
    }

    method AllocIndex(notify: int) returns (r: Attempt<nat>)
      requires Shape()
      modifies `count, `head
      ensures Ended(IndexAlloc(old(St()), notify), St(), r) && Shape()
    {
      if count > 0 {
        var hole := Lookup(MakeHole(0));
        if hole.Some? {
          count := count - 1;
          return Got(hole.value);
        }
      }
      if head < 1 { return Deficient(1, notify); }
      head := head - 1;
      return Got(head);
    }

    // ---- Allocation ----------------------------------------------------------------------------------------

    method AllocChunk(units: nat, hole: Option<nat>) returns (r: Attempt<int>)
      requires Shape() && (hole.Some? ==> hole.value < pivot)
      modifies this, area
      ensures Ended(AllocData(old(St()), units, hole), St(), r) && Shape()
    {
      if hole.None? {
        r := AllocTail(units);
        return;
      }
      var h := hole.value;
      volume := volume - units;
      var excess := Wrap32(area[h].tag.id - units);
      var chunk := h + area[h].rel;
      if excess == 0 {
        PurgeHole(h);
      } else {
        area[h] := HoleUnit(h, chunk + units, excess);
      }
      return Got(chunk);
    }

    method AllocField(tag: Tag, units: nat) returns (r: Attempt<nat>)
      requires Shape()
      modifies this, area
      ensures Ended(AllocLoose(mode, old(St()), tag, units), St(), r) && Shape()
    {
      hide IndexAlloc, LookupBestFit, Wrap32;
      if units == 0 {
        r := AllocIndex(0);
        if r.Got? { area[r.value] := Unit(0, tag, 0); }
        return;
      }
      var hole := LookupHole(units);
      if hole.None? {
        if area.Length - tail < units { return Deficient(1, units); }
        r := AllocIndex(units);
        if r.Got? {
          area[r.value] := Unit(tail - r.value, tag, units);
          tail := tail + units;
        }
        return;
      }
      var h := hole.value;
      var excess := Wrap32(area[h].tag.id - units);
      if excess == 0 {
        volume, count := volume - units, count - 1;
        area[h] := area[h].(tag := tag, own := units);
        return Got(h);
      }
      r := AllocIndex(units);
      if r.Got? {
        var begin := h + area[h].rel;
        area[r.value] := Unit(begin - r.value, tag, units);
        area[h] := HoleUnit(h, begin + (if mode.AsWritten? then excess else units), excess);
        volume := volume - units;
      }
    }

    // ---- Release ----------------------------------------------------------------------------------------------

    method Merge(first: nat, second: nat) returns (r: nat)
      requires Shape() && first < pivot && second < pivot
      modifies this, area
      ensures (St(), r) == MergeHoles(old(St()), first, second) && Shape()
    {
      var units := area[first].tag.id + area[second].tag.id;
      if first != head {
        area[first] := HoleUnit(first, first + area[first].rel, units);
        PurgeHole(second);
        return first;
      } else {
        area[second] := HoleUnit(second, second + area[second].rel - area[first].tag.id, units);
        PurgeHole(first);
        return second;
      }
    }

    method ReleaseField(k: nat, units: nat)
      requires Shape() && head <= k < pivot
      modifies this, area
      ensures St() == ReleaseLoose(old(St()), k, units) && Shape()
    {
      hide AdjacentHoles, MergeAround, PurgeAndTrim, GiveBack;
      count := count + 1;
      if units == 0 {
        PurgeHole(k);
        return;
      }
      area[k] := Unit(area[k].rel, MakeHole(units), 0);
      volume := volume + units;
      var before, after := LookupAdjacentHoles(k + area[k].rel, k + area[k].rel + units);
      var loose := MergeWithNeighbours(k, before, after);
      if loose + area[loose].rel + area[loose].tag.id == tail { GiveHoleBack(loose); }
    }

    method MergeWithNeighbours(k: nat, before: Option<nat>, after: Option<nat>) returns (loose: nat)
      requires Shape() && k < pivot && (before.Some? ==> before.value < pivot) && (after.Some? ==> after.value < pivot)
      modifies this, area
      ensures (St(), loose) == MergeAround(old(St()), k, before, after) && Shape()
    {
      hide MergeHoles;
      loose := k;
      if before.Some? { loose := Merge(before.value, loose); }
      if after.Some? { loose := Merge(loose, after.value); }
    }

    /** The hole `k`, which reaches the end of data, gives its units back. */
    method GiveHoleBack(k: nat)
      requires Shape() && k < pivot
      modifies this, area
      ensures St() == GiveBack(old(St()), k) && Shape()
    {
      var units := area[k].tag.id;
      tail := tail - units;
      volume := volume - units;
      PurgeHole(k);
    }

    method ReleaseChunk(chunk: int, units: nat, before: Option<nat>, after: Option<nat>, hole0: Option<nat>)
        returns (r: Attempt<Option<nat>>)
      requires Shape() && (before.Some? ==> before.value < pivot) && (after.Some? ==> after.value < pivot)
      requires hole0.Some? ==> hole0.value < pivot
      modifies this, area
      ensures Ended(ReleaseData(mode, old(St()), chunk, units, before, after, hole0), St(), r) && Shape()
    {
      hide MergeHoles, PurgeAndTrim, GiveBack, IndexAlloc;
      if chunk + units == tail {
        tail := tail - units;
        if before.Some? { GiveHoleBack(before.value); }
        return Got(None);
      }
      volume := volume + units;
      if before.Some? {
        var b := before.value;
        area[b] := HoleUnit(b, b + area[b].rel, units + area[b].tag.id);
        if after.Some? { b := Merge(b, after.value); }
        return Got(Some(b));
      }
      if after.Some? {
        var a := after.value;
        area[a] := HoleUnit(a, a + area[a].rel - units, units + area[a].tag.id);
        return Got(Some(a));
      }
      r := HouseChunk(chunk, units, hole0);
    }

    /** The chunk, which no hole is next to, becomes a hole of its own. */
    method HouseChunk(chunk: int, units: nat, hole0: Option<nat>) returns (r: Attempt<Option<nat>>)
      requires Shape() && (hole0.Some? ==> hole0.value < pivot) && chunk + units != tail
      modifies this, area
      ensures Ended(ReleaseData(mode, old(St().(volume := volume - units)), chunk, units, None, None, hole0), St(), r)
      ensures Shape()
    {
      if hole0.Some? {
        area[hole0.value] := HoleUnit(hole0.value, chunk, units);
        return Got(hole0);
      }
      var e := AllocIndex(0);
      if e.Deficient? {
        if mode.Repaired? { volume := volume - units; }
        return Deficient(e.index, e.data);
      }
      count := count + 1;
      area[e.value] := HoleUnit(e.value, chunk, units);
      return Got(Some(e.value));
    }

    // ---- Reallocation ----------------------------------------------------------------------------------------

    method Resize(k: nat, have: nat, needed: nat, index: int) returns (r: Attempt<int>)
      requires k < area.Length
      modifies `tail, area
      ensures Ended(ResizeLast(old(St()), k, have, needed, index), St(), r)
    {
      if have < needed && area.Length - tail < needed - have { return Deficient(index, needed); }
      tail := tail - have + needed;
      var at := k + area[k].rel;
      area[k] := area[k].(rel := at - k, own := needed);
      return Got(at);
    }

    method ReallocIntact(k: nat, have: nat, needed: nat) returns (r: Attempt<int>)
      requires Shape() && k < area.Length
      modifies this, area
      ensures Ended(ReallocWithoutHoles(old(St()), k, have, needed), St(), r) && Shape()
    {
      hide IndexAlloc, ResizeLast, TailAlloc;
      var at := k + area[k].rel;
      if at + have == tail {
        r := Resize(k, have, needed, 0);
        return;
      }
      if needed > have && (area.Length - tail < needed || head + count < 1) { return Deficient(1, needed); }
      var e := AllocIndex(needed);
      if e.Deficient? { return Deficient(e.index, e.data); }
      count := count + 1;
      if needed > have {
        area[e.value] := HoleUnit(e.value, at, have);
        volume := volume + have;
        r := AllocTail(needed);
        if r.Got? { area[k] := area[k].(rel := r.value - k, own := needed); }
      } else {
        area[e.value] := HoleUnit(e.value, at + needed, have - needed);
        volume := volume + (have - needed);
        area[k] := area[k].(rel := at - k, own := needed);
        r := Got(at);
      }
    }

    method Swap(k: nat, have: nat, needed: nat) returns (r: Attempt<int>)
      requires Shape() && k < area.Length
      modifies this, area
      ensures Ended(ReallocBySwap(mode, old(St()), k, have, needed), St(), r) && Shape()
    {
      hide LookupExact, GiveBack;
      var chunk := k + area[k].rel;
      var hole := LookupHoleExactly(needed);
      if hole.Some? {
        var h := hole.value;
        var begin := h + area[h].rel;
        area[k] := area[k].(rel := begin - k, own := needed);
        area[h] := HoleUnit(h, chunk, have);
        volume := volume + have - needed;
        if (if mode.AsWritten? then chunk == tail else chunk + have == tail) { GiveHoleBack(h); }
        return Got(begin);
      }
      if chunk + have == tail {
        r := Resize(k, have, needed, 1);
      } else {
        r := Deficient(1, needed);
      }
    }

    method ReleaseThenAlloc(k: nat, have: nat, needed: nat, before: Option<nat>, after: Option<nat>,
                            hole4release: Option<nat>, hole4alloc: Option<nat>) returns (r: Attempt<int>)
      requires Shape() && k < area.Length
      requires (before.Some? ==> before.value < pivot) && (after.Some? ==> after.value < pivot)
      requires (hole4release.Some? ==> hole4release.value < pivot) && (hole4alloc.Some? ==> hole4alloc.value < pivot)
      modifies this, area
      ensures Ended(ReleaseAndAlloc(mode, old(St()), k, have, needed, before, after, hole4release, hole4alloc), St(),
              r) && Shape()
    {
      hide ReleaseData, AllocData, LookupBestFit;
      var chunk := k + area[k].rel;
      area[k] := area[k].(own := 0);
      var released := ReleaseChunk(chunk, have, before, after, hole4release);
      if released.Deficient? { return Deficient(released.index, released.data); }
      var hole: Option<nat>;
      if hole4alloc.Some? && hole4alloc.value >= head && area[hole4alloc.value].tag.id > 0 {
        hole := Better(needed, released.value, hole4alloc.value);
      } else {
        hole := LookupHole(needed);
      }
      r := AllocChunk(needed, hole);
      if r.Got? { area[k] := area[k].(rel := r.value - k, own := needed); }
    }

    method Realloc(k: nat, have: nat, needed: nat) returns (r: Attempt<int>)
      requires Shape() && k < area.Length
      modifies this, area
      ensures Ended(ReallocData(mode, old(St()), k, have, needed), St(), r) && Shape()
    {
      hide ReallocWithoutHoles, ReallocBySwap, ReleaseAndAlloc, LookupBestFit, LookupExact, AdjacentHoles;
      if volume == 0 {
        r := ReallocIntact(k, have, needed);
        return;
      }
      var at := k + area[k].rel;
      var before, after := LookupAdjacentHoles(at, at + have);
      var adjacent := (if before.Some? then area[before.value].tag.id else 0)
              + (if after.Some? then area[after.value].tag.id else 0);
      var hole4release, hole4alloc: Option<nat> := None, None;
      if have >= needed || have + adjacent < needed {
        if adjacent == 0 && head == 0 {
          hole4release := LookupHoleExactly(0);
          if hole4release.None? {
            r := Swap(k, have, needed);
            return;
          }
        }
        if !(have > needed || needed <= area.Length - tail) {
          hole4alloc := LookupHole(needed);
          if hole4alloc.None? { return Deficient(0, needed); }
        }
      }
      r := ReleaseThenAlloc(k, have, needed, before, after, hole4release, hole4alloc);
    }

    method EmptyPreplaced(k: nat, units: nat) returns (r: Attempt<int>)
      requires Shape() && k < area.Length
      modifies this, area
      ensures Ended(ErasePreplaced(mode, old(St()), k, units), St(), r) && Shape()
    {
      hide ReleaseData, AdjacentHoles;
      ghost var s := St();
      var cell, at := area[k], k + area[k].rel;
      var before, after := LookupAdjacentHoles(at, at + units);
      area[k] := area[k].(own := 0);
      var released := ReleaseChunk(at, units, before, after, None);
      if released.Deficient? {
        area[k] := cell;
        return Deficient(released.index, released.data);
      }
      area[k] := area[k].(rel := 0, own := 0);
      return Got(at);
    }

    // ---- Compaction --------------------------------------------------------------------------------------------

    /** Copies towards the beginning; the two ranges may overlap. */
    method OverlappedCopy(dst: nat, src: nat, length: nat)
      requires dst < src && src + length <= area.Length
      modifies area
      ensures area[..] == CopyDown(old(area[..]), dst, src, length)
    {
      var i := 0;
      while i < length
        invariant 0 <= i <= length
        invariant area[..dst] == old(area[..dst])
        invariant area[dst..dst + i] == old(area[src..src + i])
        invariant area[dst + i..] == old(area[dst + i..])
      {
        area[dst + i] := area[src + i];
        i := i + 1;
      }
    }

    method GenusOfAt(k: nat) returns (genus: nat)
      requires k < area.Length
      ensures genus == GenusOf(St(), k)
    {
      return if k < pivot then area[k].tag.genus
             else if k < pivot + |schema| && schema[k - pivot].Some? then schema[k - pivot].value else 0;
    }

    method LengthAt(k: nat) returns (units: nat)
      requires k < area.Length
      ensures units == UnitsAt(St(), k)
    {
      hide BruttoUnits, LooseUnits;
      var genus := GenusOfAt(k);
      var p := k + area[k].rel;
      return if !IsStretchy(genus) then LooseUnits(genus)
             else if 0 <= p < area.Length then BruttoUnits(genus, area[p]) else 0;
    }

    /** The first step: the live descriptors move up over the holes. Fails with an assertion
        of the source. */
    method PackDescriptors() returns (ok: bool)
      requires Shape() && pivot <= area.Length && 0 <= count <= pivot - head && 0 < count
      modifies this, area
      ensures var s := old(St()); var p := PackIndex(mode, s.area, s.head, s.pivot - 1, s.pivot - 1);
              && ok == p.Some?
              && (ok ==> St() == s.(area := p.value, head := s.head + s.count, count := 0))
    {
      var src, dst: int := pivot - 1, pivot - 1;
      while src >= head
        invariant head - 1 <= src <= dst < pivot
        invariant PackIndex(mode, area[..], head, src, dst)
                  == PackIndex(mode, old(area[..]), head, pivot - 1, pivot - 1)
        modifies area
        decreases src
      {
        if !IsHole(area[src]) {
          if src == dst {
            assert area[..][dst := area[src]] == area[..];
          } else {
            if !IsInplaced(area[src].tag.genus) && area[src].rel == 0 && mode.AsWritten? { return false; }
            area[dst] := if IsInplaced(area[src].tag.genus) || area[src].rel == 0 then area[src]
                         else area[src].(rel := area[src].rel - (dst - src));
          }
          dst := dst - 1;
        }
        src := src - 1;
      }
      head := head + count;
      count := 0;
      return true;
    }

    /** The chunks of the preplaced references. Fails where the source asserts that a preplaced
        reference has payload. */
    method CollectRefs() returns (v: seq<Item>, ok: bool)
      requires Bounds(St())
      ensures ok == !(mode.AsWritten? && NilReference(St()))
      ensures ok ==> v == RefItems(St(), pivot)
    {
      ghost var s := St();
      hide UnitsAt, ItemAt, RefItems, NilReference, NoNilBefore;
      NoneBeforePivot(s);
      v := [];
      var k := pivot;
      while k < pivot + |schema|
        invariant pivot <= k <= pivot + |schema|
        invariant v + RefItems(s, k) == RefItems(s, pivot)
        invariant mode.AsWritten? ==> NoNilBefore(s, k)
      {
        RefItemsStep(s, k);
        if schema[k - pivot].Some? {
          if area[k].rel != 0 {
            v := AppendItem(v, k);
          } else if mode.AsWritten? {
            NilFound(s, k);
            return v, false;
          }
        }
        k := k + 1;
      }
      RefItemsEnd(s);
      ok := true;
    }

    /** The chunks of the descriptors, the last one first. */
    method CollectLoose(refs: seq<Item>) returns (v: seq<Item>)
      requires Bounds(St())
      ensures v == refs + LooseItems(St(), pivot)
    {
      v := refs;
      var k := pivot;
      while k > head
        invariant head <= k <= pivot
        invariant v + LooseItems(St(), k) == refs + LooseItems(St(), pivot)
      {
        k := k - 1;
        if !IsHole(area[k]) && !IsInplaced(area[k].tag.genus) && area[k].rel != 0 {
          v := AppendItem(v, k);
        }
      }
    }

    method AppendItem(v: seq<Item>, k: nat) returns (w: seq<Item>)
      requires k < area.Length
      ensures w == v + [ItemAt(St(), k)]
    {
      var units := LengthAt(k);
      w := v + [Item(k + area[k].rel, units, k)];
    }

    method MoveChunk(x: Item, dst: int)
      requires x.referrer < area.Length && 0 <= dst <= x.begin && x.begin + x.length <= area.Length
      modifies area
      ensures area[..] == MoveOne(old(area[..]), x, dst)
    {
      if x.begin != dst {
        area[x.referrer] := area[x.referrer].(rel := area[x.referrer].rel - (x.begin - dst));
        OverlappedCopy(dst, x.begin, x.length);
      }
    }

    /** The second step: the chunks move down, in ascending order, over the gaps. */
    method MoveChunks(v: seq<Item>, floor: int) returns (ok: bool)
      modifies area
      ensures ok == MoveAll(old(area[..]), v, floor, tail).Some?
      ensures ok ==> Some(area[..]) == MoveAll(old(area[..]), v, floor, tail)
    {
      hide MoveOne;
      var dst, i := floor, 0;
      while i < |v|
        invariant 0 <= i <= |v|
        invariant MoveAll(old(area[..]), v, floor, tail) == MoveAll(area[..], v[i..], dst, tail)
      {
        var x := v[i];
        assert v[i..][1..] == v[i + 1..];
        if !(x.referrer < area.Length && 0 <= dst <= x.begin && x.begin + x.length <= tail <= area.Length) {
          return false;
        }
        MoveChunk(x, dst);
        dst := dst + x.length;
        i := i + 1;
      }
      ok := true;
    }

    method Compactify() returns (ok: bool)
      requires Bounds(St()) && 0 <= count <= pivot - head
      modifies this, area
      ensures var r := Compaction.Compactify(mode, old(St()));
              ok == r.Some? && (ok ==> St() == r.value)
    {
      hide PackIndex, MoveAll, NilReference, RefItems, LooseItems, SortItems;
      if count > 0 {
        var packed := PackDescriptors();
        if !packed || (mode.AsWritten? && head < 2) { return false; }
      }
      if volume == 0 { return true; }
      var refs, complete := CollectRefs();
      if !complete { return false; }
      var v := CollectLoose(refs);
      ok := MoveChunks(SortItems(v), pivot + |schema|);
      tail := tail - volume;
      volume := 0;
    }

    // ---- What the user does ---------------------------------------------------------------------------------------

    /** Ready for the next operation: the layout is kept, coalescing is maximal, and every value
        has been written. */
    ghost predicate Valid()
      reads this, area
    {
      Steady(St()) && Shape()
    }

    /** The bag of loose fields and the preplaced values. */
    ghost function Contents(): View
      reads this, area
      requires Bounds(St())
    {
      ViewOf(St())
    }

    /** The source's memcpy of a value into its chunk. */
    method WriteUnits(p: nat, units: seq<Unit>)
      requires p + |units| <= area.Length
      modifies area
      ensures area[..] == old(area[..p]) + units + old(area[p + |units|..])
    {
      var i := 0;
      while i < |units|
        invariant 0 <= i <= |units|
        invariant area[..p] == old(area[..p]) && area[p..p + i] == units[..i] && area[p + i..] == old(area[p + i..])
      {
        area[p + i] := units[i];
        i := i + 1;
      }
    }

    method WriteValue(k: nat, v: Value)
      requires k < area.Length
      modifies area
      ensures St() == Write(old(St()), k, v)
    {
      match v
      case Nil =>
      case Inline(bits) => area[k] := area[k].(rel := bits);
      case Data(units) =>
        var p := k + area[k].rel;
        if 0 <= p && p + |units| <= area.Length { WriteUnits(p, units); }
    }

    // ---- The checks around an operation ----------------------------------------------------------------------------

    /** debug_check: as written the auditor goes over the whole tuple. */
    method DebugCheck() returns (ok: bool)
      ensures ok <==> Passes(mode, St())
    {
      if mode.Repaired? { return true; }
      var trouble := AuditRw(State(area[..], head, pivot, tail, count, volume, schema));
      ok := trouble.None?;
    }

    /** The check at the end of an operation that has not thrown. */
    method Close(r: Attempt<()>) returns (q: Attempt<()>)
      ensures q == if r.Got? && !Passes(mode, St()) then Asserted else r
    {
      if !r.Got? { return r; }
      var ok := DebugCheck();
      q := if ok then r else Asserted;
    }

    /** The four operations do what Apply says, and keep what StepIff promises. */
    method Insert(tag: Tag, v: Value) returns (r: Attempt<()>)
      requires Valid() && Legal(St(), Op.Insert(tag, v))
      modifies this, area
      ensures Completed(Apply(mode, old(St()), Op.Insert(tag, v)), St(), r) && Shape()
      ensures Kept(mode, old(St()), Op.Insert(tag, v), St(), r)
    {
      hide Good, Written, Kept, Proper, AcceptableRw, InsertField;
      ghost var s := St();
      SteadyBounds(s);
      var ok := DebugCheck();
      if ok {
        r := InsertPart(tag, v);
        r := Close(r);
      } else {
        r := Asserted;
      }
      CompletedKept(mode, s, Op.Insert(tag, v), St(), r);
    }

    method InsertPart(tag: Tag, v: Value) returns (r: Attempt<()>)
      requires Shape()
      modifies this, area
      ensures Completed(InsertField(mode, old(St()), tag, v), St(), r) && Shape()
    {
      hide AllocLoose, Write;
      if mode.AsWritten? && v.Nil? { return Asserted; }
      var room := AllocField(tag, Size(v));
      if room.Deficient? { return Deficient(room.index, room.data); }
      if room.value < area.Length { WriteValue(room.value, v); }
      r := Got(());
    }

    method Erase(k: nat) returns (r: Attempt<()>)
      requires Valid() && Legal(St(), Op.Erase(k))
      modifies this, area
      ensures Completed(Apply(mode, old(St()), Op.Erase(k)), St(), r) && Shape() && !r.Deficient?
      ensures Kept(mode, old(St()), Op.Erase(k), St(), r)
    {
      hide Good, Written, ReleaseLoose, UnitsAt, Kept, AcceptableRw;
      ghost var s := St();
      SteadyBounds(s);
      var ok := DebugCheck();
      if ok {
        var units := 0;
        if !IsInplaced(area[k].tag.genus) && area[k].rel != 0 { units := LengthAt(k); }
        ReleaseField(k, units);
        r := Close(Got(()));
      } else {
        r := Asserted;
      }
      CompletedKept(mode, s, Op.Erase(k), St(), r);
    }

    method Assign(k: nat, v: Value) returns (r: Attempt<()>)
      requires Valid() && Legal(St(), Op.Assign(k, v))
      modifies this, area
      ensures Completed(Apply(mode, old(St()), Op.Assign(k, v)), St(), r) && Shape()
      ensures Kept(mode, old(St()), Op.Assign(k, v), St(), r)
    {
      hide Good, Written, UnitsAt, Kept, Proper, AcceptableRw, AssignField;
      ghost var s := St();
      SteadyBounds(s);
      var ok := DebugCheck();
      if ok {
        r := AssignPart(k, v);
        r := Close(r);
      } else {
        r := Asserted;
      }
      CompletedKept(mode, s, Op.Assign(k, v), St(), r);
    }

    method AssignPart(k: nat, v: Value) returns (r: Attempt<()>)
      requires Shape() && k < area.Length && (k < pivot ==> head <= k && !IsHole(area[k]))
      requires k >= pivot ==> k < pivot + |schema| && schema[k - pivot].Some?
      modifies this, area
      ensures Completed(AssignField(mode, old(St()), k, v), St(), r) && Shape()
    {
      hide UnitsAt, ReallocData, AllocData, LookupBestFit, ErasePreplaced, ReleaseLoose, Write;
      var needed := Size(v);
      var refers := k >= pivot || !IsInplaced(area[k].tag.genus);
      if !refers || area[k].rel == 0 {
        r := FillPart(k, v);
        return;
      }
      var have := LengthAt(k);
      if needed == have {
        WriteValue(k, v);
        return Got(());
      }
      if needed == 0 {
        if k < pivot {
          ReleaseField(k, have);
          return Got(());
        }
        var emptied := EmptyPreplaced(k, have);
        return if emptied.Deficient? then Deficient(emptied.index, emptied.data) else Got(());
      }
      var moved := Realloc(k, have, needed);
      if moved.Deficient? { return Deficient(moved.index, moved.data); }
      WriteValue(k, v);
      r := Got(());
    }

    /** Assigning to a field without payload. */
    method FillPart(k: nat, v: Value) returns (r: Attempt<()>)
      requires Shape() && k < area.Length && !HasPayload(St(), k)
      modifies this, area
      ensures Completed(AssignField(mode, old(St()), k, v), St(), r) && Shape()
    {
      hide AllocData, LookupBestFit, Write, UnitsAt, ReallocData, ErasePreplaced;
      if Size(v) == 0 {
        WriteValue(k, v);
        return Got(());
      }
      var hole := LookupHole(Size(v));
      var chunk := AllocChunk(Size(v), hole);
      if chunk.Deficient? { return Deficient(chunk.index, chunk.data); }
      area[k] := area[k].(rel := chunk.value - k, own := Size(v));
      WriteValue(k, v);
      r := Got(());
    }

    method Optimize() returns (r: Attempt<()>)
      requires Valid() && Legal(St(), Op.Compact)
      modifies this, area
      ensures !Apply(mode, old(St()), Op.Compact).AssertionFailed?
              ==> Completed(Apply(mode, old(St()), Op.Compact), St(), r)
      ensures Apply(mode, old(St()), Op.Compact).AssertionFailed? ==> r == Asserted
      ensures Kept(mode, old(St()), Op.Compact, St(), r)
    {
      hide Compaction.Compactify, Good, Written, Kept, AcceptableRw;
      ghost var s := St();
      SteadyBounds(s);
      var holes, junk := count > 0, count > 0 || volume != 0;
      var ok := true;
      if holes { ok := DebugCheck(); }
      if ok { ok := Compactify(); }
      if ok && junk { ok := DebugCheck(); }
      r := if ok then Got(()) else Asserted;
      CompletedKept(mode, s, Op.Compact, St(), r);
    }

    // ---- Beginning anew, and the serialised form -------------------------------------------------------------------

    /** reset: an empty index, the initial image in the preplaced part. */
    method ResetTo(image: seq<Unit>) returns (ok: bool)
      modifies this, area
      ensures ok == Reset(old(St()), image).Some? && (ok ==> St() == Reset(old(St()), image).value)
    {
      if pivot < 1 || pivot > MAX_FIELDS || pivot > area.Length || area.Length > BUFFER_LIMIT { return false; }
      count, volume := 0, 0;
      head, tail := pivot, pivot;
      if |image| > area.Length - tail { return false; }
      tail := tail + |image|;
      WriteUnits(pivot, image);
      return true;
    }

    /** take_asis: the header goes into the unit before the index. Nothing the tuple holds changes. */
    method Take() returns (image: Option<Image>)
      requires Valid() && Bounds(St())
      modifies `reserve, area
      ensures image == Taken(mode, old(St())) && Valid() && Bounds(St()) && Contents() == old(Contents())
      ensures image.Some? ==> (if head > 0 then area[head - 1] else reserve) == HeaderUnit(image.value)
    {
      hide Good, Written, ViewOf, AcceptableRo;
      ghost var s := St();
      if tail - head >= Autogrowth.UINT16_MAX || pivot - head > MAX_FIELDS { return None; }
      var brutto := (tail - head + 1) % 65536;
      var items := ((pivot - head) * FLAGS + if |schema| > 0 then PREPLACED_FLAG else 0) % 65536;
      image := Some(Image(brutto, items, area[head..tail]));
      if head > 0 {
        area[head - 1] := HeaderUnit(image.value);
        assert Relocated(s, St(), 0);
        RelocatedKeeps(s, St(), 0);
      } else {
        reserve := HeaderUnit(image.value);
      }
      if mode.AsWritten? {
        var ok, count, volume := AuditImage(image.value, schema);
        if !ok { return None; }
      }
    }
  }

  /** The header as one unit. */
  function HeaderUnit(i: Image): Unit { Unit(i.brutto, Tag(i.itemsAndFlags / 2048, i.itemsAndFlags % 2048), 0) }

  /** tuple_ro::audit: the quick checks of the header, then the audit. */
  method AuditImage(i: Image, schema: seq<Option<nat>>) returns (ok: bool, count: nat, volume: nat)
    ensures ok <==> AcceptableRo(i, schema)
    ensures ok ==> count == HolesBelow(Walked(i, schema), 0) && volume == VolumeBelow(Walked(i, schema), 0)
  {
    hide Acceptable, HolesBelow, VolumeBelow;
    if |i.units| + 1 > MAX_UNITS || |i.units| + 1 != i.brutto || IndexSize(i) > MAX_FIELDS || IndexSize(i) > |i.units| {
      return false, 0, 0;
    }
    var trouble;
    trouble, count, volume := AuditTuple(Walked(i, schema), HavePreplaced(i), false);
    ok := trouble.None?;
  }

  /** create_from_buffer: audits the image and copies it into a buffer. */
  method CreateFromBuffer(mode: Mode, i: Image, schema: seq<Option<nat>>, moreItems: nat, bytes: nat, header: nat,
      buffer: array<Unit>)
    returns (r: Attempt<TupleRw>)
    requires buffer.Length == Autogrowth.Min(MAX_UNITS, Capacity(bytes, header))
    modifies buffer
    ensures var f := Fetch(i, schema, moreItems, bytes, header, old(buffer[..]));
            && (r.Got? <==> f.Tuple?) && (r.Deficient? <==> f.NoSpace?)
            && (r.Deficient? ==> r == Deficient(ReserveItems(i, moreItems),
                                                header + 4 * (ReserveItems(i, moreItems) + PayloadUnits(i))))
            && (r.Got? ==> r.value.St() == f.state && r.value.mode == mode && r.value.area == buffer && fresh(r.value))
  {
    hide Acceptable, HolesBelow, VolumeBelow;
    var ok, count, volume := AuditImage(i, schema);
    if !ok { return Asserted; }
    if moreItems > MAX_FIELDS || bytes > BUFFER_BYTES { return Asserted; }
    if PayloadUnits(i) > MAX_UNITS - |schema| { return Asserted; }
    var pivot := ReserveItems(i, moreItems);
    var tail := pivot + PayloadUnits(i);
    if bytes < header + 4 * tail { return Deficient(pivot, header + 4 * tail); }
    if tail > buffer.Length { return Asserted; }
    var t := new TupleRw.FromImage(mode, buffer, i, pivot, count, volume, schema);
    return Got(t);
  }
}
