/** compactify: holes leave the index, then the payload moves down over the gaps. */
module Compaction {
  import opened Tuples
  import opened Gear

  // ---- How long a payload is, as read from the tuple itself -----------------------------------

  /** Units of a fixed-size loose field. */
  function LooseUnits(genus: nat): nat {
    if genus <= 7 then 0 else if genus <= 11 then 1 else if genus <= 16 then 2
    else if genus <= 22 then genus - 14
    else if genus == 23 then 10 else if genus == 24 then 12 else if genus == 25 then 16
    else if genus == 26 || genus == 28 then 2 else if genus == 27 || genus == 29 then 4
    else if genus == 30 then 5 else 0
  }

  function BytesToUnits(bytes: nat): nat { (bytes + 3) / 4 }

  /** The length a variable-length payload keeps in its first unit. */
  function BruttoUnits(genus: nat, u: Unit): nat {
    var lo, hi := u.rel % 65536, (u.tag.genus * 2048 + u.tag.id) % 65536;
    if genus == 0 then
      if lo % 256 < 254 then BytesToUnits(1 + lo % 256)
      else BytesToUnits(3 + lo % 256 + (lo / 256 + hi % 256 * 256) * 2)
    else if genus == 3 then BytesToUnits(2 + lo % 256)
    else lo
  }

  function GenusOf(s: State, k: nat): nat
    requires k < |s.area|
  {
    if k < s.pivot then s.area[k].tag.genus
    else if k < Floor(s) && s.schema[k - s.pivot].Some? then s.schema[k - s.pivot].value else 0
  }

  /** The length of the payload of reference `k`: fixed by its genus, or read from its header. */
  function UnitsAt(s: State, k: nat): nat
    requires k < |s.area|
  {
    if !IsStretchy(GenusOf(s, k)) then LooseUnits(GenusOf(s, k))
    else if 0 <= Payload(s, k) < |s.area| then BruttoUnits(GenusOf(s, k), s.area[Payload(s, k)])
    else 0
  }

  predicate HasPayload(s: State, k: nat)
    requires k < |s.area|
  {
    Refers(s, k) && s.area[k].rel != 0
  }

  /** Every value has been written: the length a payload declares is the length reserved. */
  ghost predicate Written(s: State)
    requires Bounds(s)
  {
    forall k :: s.head <= k < Floor(s) && HasPayload(s, k) ==> UnitsAt(s, k) == s.area[k].own > 0
  }

  // ---- First step: the index -----------------------------------------------------------------------

  /** Descriptor `u` moved up by `delta`, still referring to the same payload. As written a
      reference without payload is shifted like any other, which relative_offset asserts not
      to happen. */
  function Lifted(mode: Mode, u: Unit, delta: nat): Option<Unit> {
    if delta == 0 || IsInplaced(u.tag.genus) then Some(u)
    else if u.rel == 0 then (if mode.AsWritten? then None else Some(u))
    else Some(u.(rel := u.rel - delta))
  }

  /** The loop over the index, from `src` down to `head`. */
  function PackIndex(mode: Mode, area: seq<Unit>, head: nat, src: int, dst: int): (r: Option<seq<Unit>>)
    requires head - 1 <= src <= dst < |area|
    ensures r.Some? ==> |r.value| == |area|
    decreases src
  {
    if src < head then Some(area)
    else if IsHole(area[src]) then PackIndex(mode, area, head, src - 1, dst)
    else
      match Lifted(mode, area[src], dst - src)
      case None => None
      case Some(u) => PackIndex(mode, area[dst := u], head, src - 1, dst - 1)
  }

  // ---- Second step: the payload --------------------------------------------------------------------

  datatype Item = Item(begin: int, length: nat, referrer: nat)

  function ItemAt(s: State, k: nat): Item
    requires k < |s.area|
  {
    Item(Payload(s, k), UnitsAt(s, k), k)
  }

  /** Items of the preplaced references from unit `k` on. */
  function RefItems(s: State, k: nat): seq<Item>
    requires s.pivot <= k <= Floor(s) <= |s.area|
    decreases Floor(s) - k
  {
    if k == Floor(s) then []
    else (if HasPayload(s, k) then [ItemAt(s, k)] else []) + RefItems(s, k + 1)
  }

  /** Items of the descriptors below `k`, the last one first. */
  function LooseItems(s: State, k: nat): seq<Item>
    requires s.head <= k <= s.pivot <= |s.area|
    decreases k
  {
    if k == s.head then []
    else (if HasPayload(s, k - 1) then [ItemAt(s, k - 1)] else []) + LooseItems(s, k - 1)
  }

  function Insert(x: Item, v: seq<Item>): seq<Item> {
    if v == [] then [x]
    else if x.begin < v[0].begin then [x] + v
    else [v[0]] + Insert(x, v[1..])
  }

  /** Sorting by payload offset. */
  function SortItems(v: seq<Item>): seq<Item> {
    if v == [] then [] else Insert(v[0], SortItems(v[1..]))
  }

  function CopyDown(area: seq<Unit>, dst: int, src: int, length: nat): (r: seq<Unit>)
    requires 0 <= dst <= src && src + length <= |area|
    ensures |r| == |area|
  {
    area[..dst] + area[src..src + length] + area[dst + length..]
  }

  /** One chunk moves down to `dst` and its referrer follows. */
  function MoveOne(area: seq<Unit>, x: Item, dst: int): (r: seq<Unit>)
    requires x.referrer < |area| && 0 <= dst <= x.begin && x.begin + x.length <= |area|
    ensures |r| == |area|
  {
    if x.begin == dst then area
    else CopyDown(area[x.referrer := area[x.referrer].(rel := area[x.referrer].rel - (x.begin - dst))],
             dst, x.begin, x.length)
  }

  /** The loop that moves the chunks in ascending order; nothing if one of its own assertions
      fails, namely that a chunk lies between `dst` and the end of data. */
  function MoveAll(area: seq<Unit>, v: seq<Item>, dst: int, tail: int): (r: Option<seq<Unit>>)
    ensures r.Some? ==> |r.value| == |area|
    decreases |v|
  {
    if v == [] then Some(area)
    else if v[0].referrer < |area| && 0 <= dst <= v[0].begin && v[0].begin + v[0].length <= tail <= |area| then
      MoveAll(MoveOne(area, v[0], dst), v[1..], dst + v[0].length, tail)
    else None
  }

  predicate NilReference(s: State)
    requires Bounds(s)
  {
    exists k :: s.pivot <= k < Floor(s) && Refers(s, k) && s.area[k].rel == 0
  }

  /** The only hole in an index that has used up the space below it. */
  predicate Brimful(s: State) { s.head == 0 && s.count == 1 }

  /** compactify. As written it asserts that every preplaced reference has payload, and that the
      index ends up above the first unit but one. The result is nothing when an assertion of the
      source fails. */
  function Compactify(mode: Mode, s: State): (r: Option<State>)
    requires Bounds(s) && 0 <= s.count <= s.pivot - s.head
  {
    if s.count == 0 then CompactData(mode, s)
    else
      match PackIndex(mode, s.area, s.head, s.pivot - 1, s.pivot - 1)
      case None => None
      case Some(area) =>
        if mode.AsWritten? && Brimful(s) then None
        else CompactData(mode, s.(area := area, head := s.head + s.count, count := 0))
  }

  function CompactData(mode: Mode, s: State): (r: Option<State>)
    requires Bounds(s)
  {
    if s.volume == 0 then Some(s)
    else if mode.AsWritten? && NilReference(s) then None
    else
      var v := SortItems(RefItems(s, s.pivot) + LooseItems(s, s.pivot));
      match MoveAll(s.area, v, Floor(s), s.tail)
      case None => None
      case Some(area) => Some(s.(area := area, tail := s.tail - s.volume, volume := 0))
  }

  // ---- What the first step keeps ---------------------------------------------------------------------

  /** A descriptor apart from its position: the value of an in-place field, or the place of
      the payload, if there is one. */
  datatype Entry = Entry(tag: Tag, own: nat, place: Option<int>)

  function EntryOf(u: Unit, k: nat): Entry {
    Entry(u.tag, u.own, if IsInplaced(u.tag.genus) then Some(u.rel) else if u.rel == 0 then None else Some(k + u.rel))
  }

  /** The live descriptors of `area[lo..hi]`, in order. */
  function EntriesIn(area: seq<Unit>, lo: nat, hi: nat): seq<Entry>
    requires lo <= hi <= |area|
    decreases hi - lo
  {
    if lo == hi then [] else (if IsHole(area[lo]) then [] else [EntryOf(area[lo], lo)]) + EntriesIn(area, lo + 1, hi)
  }

  lemma {:induction false} EntriesSnoc(area: seq<Unit>, lo: nat, hi: nat)
    requires lo < hi <= |area|
    ensures EntriesIn(area, lo, hi)
            == EntriesIn(area, lo, hi - 1) + (if IsHole(area[hi - 1]) then [] else [EntryOf(area[hi - 1], hi - 1)])
    decreases hi - lo
  {
    if lo < hi - 1 {
      EntriesSnoc(area, lo + 1, hi);
    }
  }

  lemma {:induction false} EntriesSame(a: seq<Unit>, b: seq<Unit>, lo: nat, hi: nat)
    requires lo <= hi <= |a| && hi <= |b| && a[lo..hi] == b[lo..hi]
    ensures EntriesIn(a, lo, hi) == EntriesIn(b, lo, hi)
    decreases hi - lo
  {
    if lo < hi {
      assert a[lo] == a[lo..hi][0] == b[lo];
      assert a[lo + 1..hi] == a[lo..hi][1..] == b[lo + 1..hi];
      EntriesSame(a, b, lo + 1, hi);
    }
  }

  /** Payload of the descriptors lies beyond `pivot`. */
  ghost predicate Beyond(area: seq<Unit>, lo: int, hi: int, pivot: int) {
    forall k :: 0 <= lo <= k < hi <= |area| && !IsHole(area[k]) && !IsInplaced(area[k].tag.genus) && area[k].rel != 0
           ==> k + area[k].rel >= pivot
  }

  lemma LiftedSameEntry(mode: Mode, u: Unit, k: nat, delta: nat, pivot: int)
    requires Lifted(mode, u, delta).Some? && k + delta < pivot
    requires !IsInplaced(u.tag.genus) && u.rel != 0 ==> k + u.rel >= pivot
    ensures EntryOf(Lifted(mode, u, delta).value, k + delta) == EntryOf(u, k)
    ensures IsHole(Lifted(mode, u, delta).value) == IsHole(u)
  {
  }

  /** The loop moves the live descriptors up, in order, over the holes. */
  lemma {:induction false} PackKeepsEntries(mode: Mode, area: seq<Unit>, head: nat, src: int, dst: int, pivot: nat)
    requires head - 1 <= src <= dst < pivot <= |area| && Beyond(area, head, src + 1, pivot)
    requires PackIndex(mode, area, head, src, dst).Some?
    ensures var r := PackIndex(mode, area, head, src, dst).value;
            var live := EntriesIn(area, head, src + 1);
            && 0 <= dst + 1 - |live|
            && EntriesIn(r, dst + 1 - |live|, pivot) == live + EntriesIn(area, dst + 1, pivot)
            && r[dst + 1..] == area[dst + 1..]
            && (forall k :: dst + 1 - |live| <= k <= dst ==> !IsHole(r[k]))
    decreases src
  {
    if src >= head {
      EntriesSnoc(area, head, src + 1);
      if IsHole(area[src]) {
        PackKeepsEntries(mode, area, head, src - 1, dst, pivot);
      } else {
        PackStep(mode, area, head, src, dst, pivot);
      }
    }
  }

  lemma {:induction false} PackStep(mode: Mode, area: seq<Unit>, head: nat, src: int, dst: int, pivot: nat)
    requires head <= src <= dst < pivot <= |area| && Beyond(area, head, src + 1, pivot) && !IsHole(area[src])
    requires PackIndex(mode, area, head, src, dst).Some?
    ensures var r := PackIndex(mode, area, head, src, dst).value;
            var live := EntriesIn(area, head, src + 1);
            && 0 <= dst + 1 - |live|
            && EntriesIn(r, dst + 1 - |live|, pivot) == live + EntriesIn(area, dst + 1, pivot)
            && r[dst + 1..] == area[dst + 1..]
            && (forall k :: dst + 1 - |live| <= k <= dst ==> !IsHole(r[k]))
    decreases src, 0
  {
    hide EntriesIn, Lifted, Beyond, EntryOf;
    var u := Lifted(mode, area[src], dst - src).value;
    var next := area[dst := u];
    PackOne(mode, area, head, src, dst, pivot);
    PackKeepsEntries(mode, next, head, src - 1, dst - 1, pivot);
    var r := PackIndex(mode, area, head, src, dst).value;
    SameSuffix(area, r, dst, u);
  }

  lemma PackOne(mode: Mode, area: seq<Unit>, head: nat, src: int, dst: int, pivot: nat)
    requires head <= src <= dst < pivot <= |area| && Beyond(area, head, src + 1, pivot) && !IsHole(area[src])
    requires Lifted(mode, area[src], dst - src).Some?
    ensures var u := Lifted(mode, area[src], dst - src).value;
            var next := area[dst := u];
            && !IsHole(u) && Beyond(next, head, src, pivot)
            && EntriesIn(area, head, src + 1) == EntriesIn(next, head, src) + [EntryOf(area[src], src)]
            && EntriesIn(next, dst, pivot) == [EntryOf(area[src], src)] + EntriesIn(area, dst + 1, pivot)
  {
    hide Lifted, EntryOf, Beyond, EntriesIn;
    var u := Lifted(mode, area[src], dst - src).value;
    var next := area[dst := u];
    BeyondBelow(area, next, head, src, pivot);
    LiftedSameEntry(mode, area[src], src, dst - src, pivot);
    EntriesSnoc(area, head, src + 1);
    EntriesSame(area, next, head, src);
    EntriesSame(area, next, dst + 1, pivot);
    EntriesCons(next, dst, pivot);
  }

  lemma BeyondBelow(area: seq<Unit>, next: seq<Unit>, lo: nat, hi: nat, pivot: int)
    requires lo <= hi < |area| == |next| && Beyond(area, lo, hi + 1, pivot) &&
             forall k :: lo <= k < hi ==> next[k] == area[k]
    ensures Beyond(next, lo, hi, pivot)
    ensures !IsHole(area[hi]) && !IsInplaced(area[hi].tag.genus) && area[hi].rel != 0 ==> hi + area[hi].rel >= pivot
  {
  }

  lemma EntriesCons(area: seq<Unit>, lo: nat, hi: nat)
    requires lo < hi <= |area| && !IsHole(area[lo])
    ensures EntriesIn(area, lo, hi) == [EntryOf(area[lo], lo)] + EntriesIn(area, lo + 1, hi)
  {
    hide EntryOf;
  }

  lemma SameSuffix(area: seq<Unit>, r: seq<Unit>, dst: nat, u: Unit)
    requires dst < |area| == |r| && r[dst..] == area[dst := u][dst..]
    ensures r[dst + 1..] == area[dst + 1..] && r[dst] == u
  {
    assert r[dst] == r[dst..][0] == u;
    assert r[dst + 1..] == r[dst..][1..];
  }
}
