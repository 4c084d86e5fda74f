/** Scanning the index for a tag: the reference loop, the loop unrolled eight times, and the
    blocked scan of the SIMD variants, whose last window overlaps the one before it. */
module Scanning {
  import opened Tuples
  import opened Words
  import opened Shifts

  /** A descriptor as two halves: the offset and the genus with the id. */
  datatype Cell = Cell(lo: nat, hi: nat)

  /** The reference: the first descriptor in `begin..end` with this tag. */
  function Referential(mem: seq<Cell>, begin: int, end: int, tag: nat): (r: Option<int>)
    requires begin < end ==> 0 <= begin && end <= |mem|
    ensures r.Some? ==> begin <= r.value < end && mem[r.value].hi == tag
    ensures forall k :: begin <= k < (if r.Some? then r.value else end) ==> mem[k].hi != tag
    decreases end - begin
  {
    if begin >= end then None
    else if mem[begin].hi == tag then Some(begin)
    else Referential(mem, begin + 1, end, tag)
  }

  /** What is found does not depend on how it is looked for. */
  lemma FirstIsUnique(mem: seq<Cell>, begin: int, end: int, tag: nat, r: Option<int>)
    requires begin < end ==> 0 <= begin && end <= |mem|
    requires r.Some? ==> begin <= r.value < end && mem[r.value].hi == tag
    requires forall k :: begin <= k < (if r.Some? then r.value else end) ==> mem[k].hi != tag
    ensures r == Referential(mem, begin, end, tag)
  {
  }

  // ---- Unrolled ---------------------------------------------------------------------------------------------

  /** fptu_scan_unroll: eight at a time, then the rest by falling through the cases. */
  method ScanUnrolled(mem: seq<Cell>, begin: int, end: int, tag: nat) returns (r: Option<int>)
    requires begin <= end ==> 0 <= begin && end <= |mem|
    ensures r == Referential(mem, begin, end, tag)
  {
    var items, scan := end - begin, begin;
    if items < 0 { return None; }
    hide Referential;
    while items > 8
      invariant 0 <= items && begin <= scan <= end && items % 8 == (end - scan) % 8
                && (items <= 8 ==> items == end - scan)
      invariant items > 8 ==> scan == begin && items == end - begin
      invariant forall k :: begin <= k < scan ==> mem[k].hi != tag
    {
      var again := true;
      while again
        invariant begin <= scan <= end && items % 8 == (end - scan) % 8 && (again ==> end - scan >= 8)
                  && (!again ==> end - scan < 8)
        invariant forall k :: begin <= k < scan ==> mem[k].hi != tag
        decreases end - scan, again
      {
        var stop := scan + 8;
        while scan < stop
          invariant stop - 8 <= scan <= stop
          invariant forall k :: begin <= k < scan ==> mem[k].hi != tag
        {
          if mem[scan].hi == tag { FirstIsUnique(mem, begin, end, tag, Some(scan)); return Some(scan); }
          scan := scan + 1;
        }
        again := scan < end - 7;
      }
      items := items % 8;
    }
    while items > 0
      invariant 0 <= items == end - scan
      invariant forall k :: begin <= k < scan ==> mem[k].hi != tag
    {
      if mem[scan].hi == tag { FirstIsUnique(mem, begin, end, tag, Some(scan)); return Some(scan); }
      scan := scan + 1;
      items := items - 1;
    }
    FirstIsUnique(mem, begin, end, tag, None);
    return None;
  }

  // ---- Masks -------------------------------------------------------------------------------------------------

  /** How a comparison of `width` descriptors shows in a mask: `bits` bits for each, the one at
      `at` for the tag. A mask is the sequence of its bits, the lowest first. */
  datatype Lanes = Lanes(width: nat, bits: nat, at: nat)

  const SSE2 := Lanes(4, 4, 2)
  const AVX2 := Lanes(8, 4, 2)
  const AVX512 := Lanes(16, 2, 1)

  predicate Proper(v: Lanes) { v.width > 0 && v.bits / 2 <= v.at < v.bits }

  function Bits(v: Lanes): nat { v.width * v.bits }

  /** The bit for the tag of descriptor `j` of the window, and back. */
  function BitFor(v: Lanes, j: int): int { j * v.bits + v.at }

  function LaneOf(v: Lanes, i: int): int
    requires Proper(v)
  {
    i / v.bits
  }

  /** The bits of so many descriptors. */
  function Skipped(v: Lanes, skip: nat): nat { v.bits * skip }

  predicate IsTagBit(v: Lanes, i: int)
    requires Proper(v)
  {
    i % v.bits == v.at
  }

  lemma BitMeans(v: Lanes, i: int)
    requires Proper(v) && 0 <= i < Bits(v)
    ensures 0 <= LaneOf(v, i) < v.width && (IsTagBit(v, i) ==> i == BitFor(v, LaneOf(v, i)))
  {
    var k := i / v.bits;
    assert i == k * v.bits + i % v.bits;
    if k >= v.width { assert (k - v.width) * v.bits >= 0; }
  }

  lemma LaneRange(j: int, n: int, b: int)
    requires 0 <= j < n && b > 0
    ensures 0 <= j * b <= n * b - b
  {
    Times(0, j, b);
    Times(j, n - 1, b);
    assert (n - 1) * b == n * b - b;
  }

  lemma LaneMeans(v: Lanes, j: int)
    requires Proper(v) && 0 <= j < v.width
    ensures 0 <= BitFor(v, j) < Bits(v) && LaneOf(v, BitFor(v, j)) == j && IsTagBit(v, BitFor(v, j))
  {
    LaneRange(j, v.width, v.bits);
    Quotient(BitFor(v, j), v.bits, j, v.at);
  }

  lemma Quotient(x: int, b: int, k: int, r: int)
    requires b > 0 && x == k * b + r && 0 <= r < b
    ensures x / b == k && x % b == r
  {
    QuotientIs(x, b, k, r);
    assert x == x / b * b + x % b;
  }

  lemma BitsInOrder(v: Lanes, i: int, j: int)
    requires Proper(v) && i < j
    ensures BitFor(v, i) < BitFor(v, j)
  {
    Times(i + 1, j, v.bits);
  }

  /** Shifting by whole descriptors. */
  lemma BitsShift(v: Lanes, j: int, skip: nat)
    ensures BitFor(v, j + skip) == BitFor(v, j) + Skipped(v, skip)
  {
  }

  lemma ShiftFits(v: Lanes, skip: nat)
    requires 0 <= skip <= v.width
    ensures 0 <= Skipped(v, skip) <= Bits(v)
  {
    assert (v.width - skip) * v.bits >= 0;
  }

  lemma TagBitsShift(v: Lanes, i: int, skip: nat)
    requires Proper(v)
    ensures LaneOf(v, i + Skipped(v, skip)) == LaneOf(v, i) + skip
    ensures IsTagBit(v, i + Skipped(v, skip)) <==> IsTagBit(v, i)
  {
    var k, r := i / v.bits, i % v.bits;
    assert i + Skipped(v, skip) == (k + skip) * v.bits + r;
    Quotient(i + Skipped(v, skip), v.bits, k + skip, r);
  }

  /** Compares both halves of the descriptors from `scan` on with the tag. */
  function Compare(v: Lanes, mem: seq<Cell>, scan: int, tag: nat): (mask: seq<bool>)
    requires Proper(v) && 0 <= scan && scan + v.width <= |mem|
    ensures |mask| == Bits(v)
  {
    seq(Bits(v), i requires 0 <= i < Bits(v) =>
      BitMeans(v, i); if i % v.bits < v.bits / 2 then mem[scan + LaneOf(v, i)].lo == tag
         else mem[scan + LaneOf(v, i)].hi == tag)
  }

  /** The bits that stand for tags: 0x4444, 0x44444444, 0xAAAAAAAA. */
  function TagBits(v: Lanes): (mask: seq<bool>)
    requires Proper(v)
    ensures |mask| == Bits(v) && forall i :: 0 <= i < |mask| ==> mask[i] == IsTagBit(v, i)
  {
    seq(Bits(v), i requires 0 <= i < Bits(v) => IsTagBit(v, i))
  }

  /** The tag's bit tells whether the tag matches, because it is in the upper half. */
  lemma TagIsCompared(v: Lanes, mem: seq<Cell>, scan: int, tag: nat, i: int)
    requires Proper(v) && 0 <= scan && scan + v.width <= |mem| && 0 <= i < Bits(v) && IsTagBit(v, i)
    ensures 0 <= LaneOf(v, i) < v.width && Compare(v, mem, scan, tag)[i] == (mem[scan + LaneOf(v, i)].hi == tag)
  {
    BitMeans(v, i);
    hide LaneOf, Bits;
  }

  function And(a: seq<bool>, b: seq<bool>): (r: seq<bool>)
    requires |a| == |b|
    ensures |r| == |a| && forall i :: 0 <= i < |r| ==> r[i] == (a[i] && b[i])
  {
    seq(|a|, i requires 0 <= i < |a| => a[i] && b[i])
  }

  function ShiftRight(a: seq<bool>, s: nat): (r: seq<bool>)
    requires s <= |a|
    ensures |r| == |a| && forall i :: 0 <= i < |r| ==> r[i] == (i + s < |a| && a[i + s])
  {
    seq(|a|, i requires 0 <= i < |a| => i + s < |a| && a[i + s])
  }

  /** Counting trailing zeros. */
  function LowestBit(mask: seq<bool>, from: nat): (r: Option<nat>)
    requires from <= |mask|
    ensures r.Some? ==> from <= r.value < |mask| && mask[r.value]
    ensures forall i :: from <= i < (if r.Some? then r.value else |mask|) ==> !mask[i]
    decreases |mask| - from
  {
    if from == |mask| then None else if mask[from] then Some(from) else LowestBit(mask, from + 1)
  }

  /** mask2ptr: the descriptor the lowest bit stands for. */
  function Mask2Ptr(v: Lanes, mask: seq<bool>, scan: int): Option<int>
    requires Proper(v)
  {
    match LowestBit(mask, 0)
    case None => None
    case Some(i) => Some(scan + (i - v.at) / v.bits)
  }

  /** The bits of `mask` are set exactly for the tags that match among the first `n` descriptors
      from `first` on. */
  ghost predicate Shows(v: Lanes, mask: seq<bool>, mem: seq<Cell>, first: int, n: int, tag: nat)
    requires Proper(v)
  {
    && 0 <= first && 0 <= n <= v.width && first + n <= |mem| && |mask| == Bits(v)
    && (forall i :: 0 <= i < |mask| && mask[i] ==>
          IsTagBit(v, i) && 0 <= LaneOf(v, i) < n && mem[first + LaneOf(v, i)].hi == tag)
    && (forall j :: 0 <= j < n && mem[first + j].hi == tag ==> 0 <= BitFor(v, j) < |mask| && mask[BitFor(v, j)])
  }

  lemma PtrOf(v: Lanes, i: int)
    requires Proper(v) && 0 <= i < Bits(v) && IsTagBit(v, i)
    ensures (i - v.at) / v.bits == LaneOf(v, i)
  {
    BitMeans(v, i);
    Quotient(i - v.at, v.bits, LaneOf(v, i), 0);
  }

  /** The lowest bit stands for the first match. */
  lemma LowestIsFirst(v: Lanes, mask: seq<bool>, mem: seq<Cell>, first: int, n: int, tag: nat)
    requires Proper(v) && Shows(v, mask, mem, first, n, tag)
    ensures Mask2Ptr(v, mask, first) == Referential(mem, first, first + n, tag)
  {
    hide LaneOf, BitFor, IsTagBit, Bits, Referential, LowestBit;
    var low := LowestBit(mask, 0);
    var found := if low.Some? then Some(first + LaneOf(v, low.value)) else None;
    if low.Some? {
      PtrOf(v, low.value);
      BitMeans(v, low.value);
    }
    forall k | first <= k < (if found.Some? then found.value else first + n) ensures mem[k].hi != tag {
      var j := k - first;
      assert mem[first + j] == mem[k];
      if low.Some? { BitsInOrder(v, j, LaneOf(v, low.value)); }
    }
    FirstIsUnique(mem, first, first + n, tag, found);
  }

  lemma WholeWindow(v: Lanes, mem: seq<Cell>, scan: int, tag: nat)
    requires Proper(v) && 0 <= scan && scan + v.width <= |mem|
    ensures Shows(v, And(TagBits(v), Compare(v, mem, scan, tag)), mem, scan, v.width, tag)
  {
    hide LaneOf, BitFor, IsTagBit, Bits, TagBits, Compare;
    var mask := And(TagBits(v), Compare(v, mem, scan, tag));
    forall i | 0 <= i < |mask| && mask[i]
      ensures IsTagBit(v, i) && 0 <= LaneOf(v, i) < v.width && mem[scan + LaneOf(v, i)].hi == tag
    {
      TagIsCompared(v, mem, scan, tag, i);
    }
    forall j | 0 <= j < v.width && mem[scan + j].hi == tag ensures 0 <= BitFor(v, j) < |mask| && mask[BitFor(v, j)] {
      LaneMeans(v, j);
      TagIsCompared(v, mem, scan, tag, BitFor(v, j));
    }
  }

  /** A short index, looked at through the window that ends with it: the shift drops the
      descriptors before it and brings its first one to the bottom. */
  lemma WindowBelow(v: Lanes, mem: seq<Cell>, begin: int, end: int, tag: nat)
    requires Proper(v) && 0 <= begin < end <= |mem| && end - begin < v.width && end - v.width >= 0
    ensures 0 <= Skipped(v, v.width - (end - begin)) <= Bits(v)
    ensures Shows(v, ShiftRight(And(Compare(v, mem, end - v.width, tag), TagBits(v)),
                  Skipped(v, v.width - (end - begin))), mem, begin, end - begin, tag)
  {
    hide LaneOf, BitFor, IsTagBit, Bits, TagBits, Compare, And, ShiftRight, Skipped, Shows;
    var skip, low := v.width - (end - begin), end - v.width;
    assert low + skip == begin && v.width - skip == end - begin;
    ShiftFits(v, skip);
    var whole := And(Compare(v, mem, low, tag), TagBits(v));
    ShownBelow(v, mem, low, skip, tag, ShiftRight(whole, Skipped(v, skip)), whole);
  }

  lemma ShownBelow(v: Lanes, mem: seq<Cell>, low: int, skip: nat, tag: nat, mask: seq<bool>, whole: seq<bool>)
    requires Proper(v) && 0 <= low && low + v.width <= |mem| && skip < v.width && Skipped(v, skip) <= Bits(v)
    requires whole == And(Compare(v, mem, low, tag), TagBits(v)) && mask == ShiftRight(whole, Skipped(v, skip))
    ensures Shows(v, mask, mem, low + skip, v.width - skip, tag)
  {
    hide Proper, LaneOf, BitFor, IsTagBit, Bits, TagBits, Compare, And, ShiftRight, Skipped;
    forall i | 0 <= i < |mask| && mask[i]
      ensures IsTagBit(v, i) && 0 <= LaneOf(v, i) < v.width - skip && mem[low + skip + LaneOf(v, i)].hi == tag
    {
      BelowBack(v, mem, low, skip, tag, mask, whole, i);
    }
    forall j | 0 <= j < v.width - skip && mem[low + skip + j].hi == tag
      ensures 0 <= BitFor(v, j) < |mask| && mask[BitFor(v, j)]
    {
      BelowForth(v, mem, low, skip, tag, mask, whole, j);
    }
  }

  lemma BelowBack(v: Lanes, mem: seq<Cell>, low: int, skip: nat, tag: nat, mask: seq<bool>, whole: seq<bool>, i: nat)
    requires Proper(v) && 0 <= low && low + v.width <= |mem| && skip <= v.width && Skipped(v, skip) <= Bits(v)
    requires whole == And(Compare(v, mem, low, tag), TagBits(v)) && mask == ShiftRight(whole, Skipped(v, skip))
    requires i < |mask| && mask[i]
    ensures IsTagBit(v, i) && 0 <= LaneOf(v, i) < v.width - skip && mem[low + skip + LaneOf(v, i)].hi == tag
  {
    hide LaneOf, BitFor, IsTagBit, Bits, TagBits, Compare, And, ShiftRight, Skipped;
    var s := Skipped(v, skip);
    assert whole[i + s] && IsTagBit(v, i + s);
    TagBitsShift(v, i, skip);
    TagIsCompared(v, mem, low, tag, i + s);
    BitMeans(v, i);
  }

  lemma BelowForth(v: Lanes, mem: seq<Cell>, low: int, skip: nat, tag: nat, mask: seq<bool>, whole: seq<bool>, j: nat)
    requires Proper(v) && 0 <= low && low + v.width <= |mem| && j + skip < v.width && Skipped(v, skip) <= Bits(v)
    requires whole == And(Compare(v, mem, low, tag), TagBits(v)) && mask == ShiftRight(whole, Skipped(v, skip))
    requires mem[low + skip + j].hi == tag
    ensures 0 <= BitFor(v, j) < |mask| && mask[BitFor(v, j)]
  {
    hide LaneOf, BitFor, IsTagBit, Bits, TagBits, Compare, And, ShiftRight, Skipped;
    LaneMeans(v, j);
    LaneMeans(v, j + skip);
    BitsShift(v, j, skip);
    TagIsCompared(v, mem, low, tag, BitFor(v, j + skip));
    assert whole[BitFor(v, j) + Skipped(v, skip)];
  }

  /** A short index, looked at through the window that begins with it: the mask is shortened. */
  lemma WindowAbove(v: Lanes, mem: seq<Cell>, begin: int, end: int, tag: nat)
    requires Proper(v) && 0 <= begin < end <= |mem| && end - begin < v.width && begin + v.width <= |mem|
    ensures 0 <= Skipped(v, v.width - (end - begin)) <= Bits(v)
    ensures Shows(v, And(Compare(v, mem, begin, tag), ShiftRight(TagBits(v), Skipped(v, v.width - (end - begin)))),
            mem, begin, end - begin, tag)
  {
    hide LaneOf, BitFor, IsTagBit, Bits, TagBits, Compare, And, ShiftRight, Skipped, Shows;
    var skip := v.width - (end - begin);
    ShiftFits(v, skip);
    ShownAbove(v, mem, begin, skip, tag, And(Compare(v, mem, begin, tag), ShiftRight(TagBits(v), Skipped(v, skip))));
  }

  lemma ShownAbove(v: Lanes, mem: seq<Cell>, begin: int, skip: nat, tag: nat, mask: seq<bool>)
    requires Proper(v) && 0 <= begin && begin + v.width <= |mem| && skip < v.width && Skipped(v, skip) <= Bits(v)
    requires mask == And(Compare(v, mem, begin, tag), ShiftRight(TagBits(v), Skipped(v, skip)))
    ensures Shows(v, mask, mem, begin, v.width - skip, tag)
  {
    hide Proper, LaneOf, BitFor, IsTagBit, Bits, TagBits, Compare, And, ShiftRight, Skipped;
    forall i | 0 <= i < |mask| && mask[i]
      ensures IsTagBit(v, i) && 0 <= LaneOf(v, i) < v.width - skip && mem[begin + LaneOf(v, i)].hi == tag
    {
      AboveBack(v, mem, begin, skip, tag, mask, i);
    }
    forall j | 0 <= j < v.width - skip && mem[begin + j].hi == tag
      ensures 0 <= BitFor(v, j) < |mask| && mask[BitFor(v, j)]
    {
      AboveForth(v, mem, begin, skip, tag, mask, j);
    }
  }

  lemma AboveBack(v: Lanes, mem: seq<Cell>, begin: int, skip: nat, tag: nat, mask: seq<bool>, i: nat)
    requires Proper(v) && 0 <= begin && begin + v.width <= |mem| && skip < v.width && Skipped(v, skip) <= Bits(v)
    requires mask == And(Compare(v, mem, begin, tag), ShiftRight(TagBits(v), Skipped(v, skip))) && i < |mask| && mask[i]
    ensures IsTagBit(v, i) && 0 <= LaneOf(v, i) < v.width - skip && mem[begin + LaneOf(v, i)].hi == tag
  {
    hide LaneOf, BitFor, IsTagBit, Bits, TagBits, Compare, And, ShiftRight, Skipped;
    TagBitsShift(v, i, skip);
    BitMeans(v, i + Skipped(v, skip));
    TagIsCompared(v, mem, begin, tag, i);
  }

  lemma AboveForth(v: Lanes, mem: seq<Cell>, begin: int, skip: nat, tag: nat, mask: seq<bool>, j: nat)
    requires Proper(v) && 0 <= begin && begin + v.width <= |mem| && j + skip < v.width && Skipped(v, skip) <= Bits(v)
    requires mask == And(Compare(v, mem, begin, tag), ShiftRight(TagBits(v), Skipped(v, skip)))
             && mem[begin + j].hi == tag
    ensures 0 <= BitFor(v, j) < |mask| && mask[BitFor(v, j)]
  {
    hide LaneOf, BitFor, IsTagBit, Bits, TagBits, Compare, And, ShiftRight, Skipped;
    LaneMeans(v, j);
    LaneMeans(v, j + skip);
    BitsShift(v, j, skip);
    TagIsCompared(v, mem, begin, tag, BitFor(v, j));
  }

  // ---- Blocked ---------------------------------------------------------------------------------------------------

  method Step(v: Lanes, mem: seq<Cell>, scan: int, tag: nat) returns (r: Option<int>)
    requires Proper(v) && 0 <= scan && scan + v.width <= |mem|
    ensures r == Referential(mem, scan, scan + v.width, tag)
  {
    hide Shows, Referential, TagBits, Compare, Bits, Mask2Ptr, And;
    WholeWindow(v, mem, scan, tag);
    var mask := And(TagBits(v), Compare(v, mem, scan, tag));
    LowestIsFirst(v, mask, mem, scan, v.width, tag);
    r := Mask2Ptr(v, mask, scan);
  }

  /** The branch for an index shorter than the window. `below` says that the memory before the
      index is on the same page. */
  method ScanShort(v: Lanes, mem: seq<Cell>, begin: int, end: int, tag: nat, below: bool) returns (r: Option<int>)
    requires Proper(v) && end - begin < v.width && (begin < end ==> 0 <= begin && end <= |mem|)
    requires begin < end ==> if below then end - v.width >= 0 else begin + v.width <= |mem|
    ensures r == Referential(mem, begin, end, tag)
  {
    if end - begin < 1 { return None; }
    hide Shows, Referential, TagBits, Compare, Bits, Mask2Ptr, And, ShiftRight, Skipped;
    ShiftFits(v, v.width - (end - begin));
    var mask;
    if below {
      WindowBelow(v, mem, begin, end, tag);
      mask := ShiftRight(And(Compare(v, mem, end - v.width, tag), TagBits(v)), Skipped(v, v.width - (end - begin)));
    } else {
      WindowAbove(v, mem, begin, end, tag);
      mask := And(Compare(v, mem, begin, tag), ShiftRight(TagBits(v), Skipped(v, v.width - (end - begin))));
    }
    LowestIsFirst(v, mask, mem, begin, end - begin, tag);
    r := Mask2Ptr(v, mask, begin);
  }

  /** So many windows of `w` are needed for the rest. */
  ghost predicate IsChunks(rest: int, w: nat, chunks: int) { chunks * w - w < rest <= chunks * w }

  lemma ChunkCount(rest: int, w: nat, chunks: int)
    requires w > 0 && rest >= 0 && chunks == (rest + w - 1) / w
    ensures chunks >= 0 && IsChunks(rest, w, chunks) && (chunks > 8 <==> rest > 8 * w)
  {
    assert rest + w - 1 == chunks * w + (rest + w - 1) % w;
    if chunks > 8 { assert (chunks - 9) * w >= 0; } else { assert (8 - chunks) * w >= 0; }
  }

  lemma ChunkTaken(rest: int, w: nat, chunks: int)
    requires w > 0 && rest >= 0 && IsChunks(rest, w, chunks)
    ensures chunks > 1 ==> rest > w && IsChunks(rest - w, w, chunks - 1)
    ensures chunks == 1 ==> 0 < rest <= w
    ensures chunks <= 0 ==> rest == 0
  {
    if chunks > 1 {
      Times(2, chunks, w);
    } else if chunks <= 0 {
      Times(chunks, 0, w);
    }
    assert (chunks - 1) * w == chunks * w - w;
  }

  ghost predicate Multiple(d: int, m: nat) { exists k: nat :: d == k * m }

  lemma MultipleMore(d: int, m: nat)
    requires Multiple(d, m)
    ensures Multiple(d + m, m)
  {
    var k: nat :| d == k * m;
    assert d + m == (k + 1) * m;
  }

  lemma MultipleLess(d: int, m: nat)
    requires Multiple(d, m) && d > 0
    ensures d >= m && Multiple(d - m, m)
  {
    var k: nat :| d == k * m;
    assert d - m == (k - 1) * m && (k - 1) * m >= 0;
  }

  lemma MultipleRest(items: int, d: int, m: nat)
    requires Multiple(d, m) && 0 <= items - d < m
    ensures items % m == items - d
  {
    var k: nat :| d == k * m;
    Quotient(items, m, k, items - d);
  }

  /** Eight windows. */
  method StepEight(v: Lanes, mem: seq<Cell>, scan0: int, tag: nat) returns (r: Option<int>, scan: int)
    requires Proper(v) && 0 <= scan0 && scan0 + 8 * v.width <= |mem|
    ensures r == Referential(mem, scan0, scan0 + 8 * v.width, tag) && (r.None? ==> scan == scan0 + 8 * v.width)
  {
    hide Multiple, Referential;
    scan := scan0;
    var stop := scan0 + 8 * v.width;
    assert Multiple(stop - scan, v.width) by { EightIsMultiple(v.width); }
    while scan < stop
      invariant scan0 <= scan <= stop && Multiple(stop - scan, v.width)
      invariant forall k :: scan0 <= k < scan ==> mem[k].hi != tag
    {
      MultipleLess(stop - scan, v.width);
      r := Step(v, mem, scan, tag);
      if r.Some? {
        FirstIsUnique(mem, scan0, stop, tag, r);
        return;
      }
      scan := scan + v.width;
    }
    FirstIsUnique(mem, scan0, stop, tag, None);
    r := None;
  }

  lemma EightIsMultiple(w: nat)
    ensures Multiple(8 * w, w) && Multiple(0, w)
  {
    assert 8 * w == 8 * w && 0 == 0 * w;
  }

  /** The last chunks, by falling through the cases; the last window ends with the index. */
  method ScanTail(v: Lanes, mem: seq<Cell>, begin: int, scan0: int, end: int, chunks0: int, tag: nat)
      returns (r: Option<int>)
    requires Proper(v) && 0 <= begin <= scan0 <= end <= |mem| && end - begin >= v.width
    requires IsChunks(end - scan0, v.width, chunks0) && forall k :: begin <= k < scan0 ==> mem[k].hi != tag
    ensures r == Referential(mem, begin, end, tag)
  {
    hide IsChunks, Referential;
    var scan, chunks := scan0, chunks0;
    while chunks > 1
      invariant begin <= scan <= end && IsChunks(end - scan, v.width, chunks)
      invariant forall k :: begin <= k < scan ==> mem[k].hi != tag
    {
      ChunkTaken(end - scan, v.width, chunks);
      r := Step(v, mem, scan, tag);
      if r.Some? {
        FirstIsUnique(mem, begin, end, tag, r);
        return;
      }
      scan := scan + v.width;
      chunks := chunks - 1;
    }
    ChunkTaken(end - scan, v.width, chunks);
    r := None;
    if chunks == 1 {
      r := Step(v, mem, end - v.width, tag);
    }
    FirstIsUnique(mem, begin, end, tag, r);
  }

  /** The scan of the SIMD variants, for any window: eight windows at a time, then the rest one
      by one, and last the window that ends with the index. */
  method ScanBlocked(v: Lanes, mem: seq<Cell>, begin: int, end: int, tag: nat, below: bool) returns (r: Option<int>)
    requires Proper(v) && (begin < end ==> 0 <= begin && end <= |mem|)
    requires begin < end && end - begin < v.width ==> if below then end - v.width >= 0 else begin + v.width <= |mem|
    ensures r == Referential(mem, begin, end, tag)
  {
    hide Multiple, IsChunks, Referential;
    var items, scan := end - begin, begin;
    if items < v.width {
      r := ScanShort(v, mem, begin, end, tag, below);
      return;
    }
    var chunks := (items + v.width - 1) / v.width;
    ChunkCount(items, v.width, chunks);
    if chunks > 8 {
      var again := true;
      EightIsMultiple(8 * v.width);
      while again
        invariant begin <= scan <= end && (again ==> end - scan >= 8 * v.width) && (!again ==> end - scan < 8 * v.width)
        invariant Multiple(scan - begin, 8 * v.width)
        invariant forall k :: begin <= k < scan ==> mem[k].hi != tag
        decreases end - scan, again
      {
        MultipleMore(scan - begin, 8 * v.width);
        var next;
        r, next := StepEight(v, mem, scan, tag);
        if r.Some? {
          FirstIsUnique(mem, begin, end, tag, r);
          return;
        }
        scan := next;
        again := scan < end - (8 * v.width - 1);
      }
      MultipleRest(items, scan - begin, 8 * v.width);
      chunks := (items % (8 * v.width) + v.width - 1) / v.width;
      ChunkCount(end - scan, v.width, chunks);
    }
    r := ScanTail(v, mem, begin, scan, end, chunks, tag);
  }

  // ---- The three variants ----------------------------------------------------------------------------------------

  /** fptu_scan_SSE2: windows of four descriptors, four mask bits each. */
  method ScanSSE2(mem: seq<Cell>, begin: int, end: int, tag: nat, below: bool) returns (r: Option<int>)
    requires begin < end ==> 0 <= begin && end <= |mem|
    requires begin < end && end - begin < 4 ==> if below then end >= 4 else begin + 4 <= |mem|
    ensures r == Referential(mem, begin, end, tag)
  {
    r := ScanBlocked(SSE2, mem, begin, end, tag, below);
  }

  /** fptu_scan_AVX2: windows of eight. */
  method ScanAVX2(mem: seq<Cell>, begin: int, end: int, tag: nat, below: bool) returns (r: Option<int>)
    requires begin < end ==> 0 <= begin && end <= |mem|
    requires begin < end && end - begin < 8 ==> if below then end >= 8 else begin + 8 <= |mem|
    ensures r == Referential(mem, begin, end, tag)
  {
    r := ScanBlocked(AVX2, mem, begin, end, tag, below);
  }

  /** fptu_scan_AVX512: windows of sixteen, two mask bits each. */
  method ScanAVX512(mem: seq<Cell>, begin: int, end: int, tag: nat, below: bool) returns (r: Option<int>)
    requires begin < end ==> 0 <= begin && end <= |mem|
    requires begin < end && end - begin < 16 ==> if below then end >= 16 else begin + 16 <= |mem|
    ensures r == Referential(mem, begin, end, tag)
  {
    r := ScanBlocked(AVX512, mem, begin, end, tag, below);
  }
}
