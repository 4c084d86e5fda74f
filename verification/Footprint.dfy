/** How many units a tuple needs at the least is settled by what it shows. */
module Footprint {
  import opened Ledger
  import opened Tuples
  import opened Searching
  import opened Compaction
  import opened Operations
  import opened Abstract
  import opened Stepping
  import opened Autogrowth

  function SumSizes(f: seq<Field>): nat {
    if f == [] then 0 else Size(f[0].value) + SumSizes(f[1..])
  }

  lemma {:induction false} SumSizesSplit(a: seq<Field>, i: nat)
    requires i < |a|
    ensures SumSizes(a) == Size(a[i].value) + SumSizes(a[..i] + a[i + 1..])
    decreases i
  {
    var rest := a[..i] + a[i + 1..];
    if i == 0 {
      assert rest == a[1..];
    } else {
      SumSizesSplit(a[1..], i - 1);
      assert rest[1..] == a[1..][..i - 1] + a[1..][i..];
    }
  }

  /** The sum does not depend on the order. */
  lemma {:induction false} SameBagSameSum(a: seq<Field>, b: seq<Field>)
    requires multiset(a) == multiset(b)
    ensures |a| == |b| && SumSizes(a) == SumSizes(b)
    decreases |a|
  {
    assert |multiset(a)| == |a| && |multiset(b)| == |b|;
    if a != [] {
      assert a[0] in multiset(b);
      var i :| 0 <= i < |b| && b[i] == a[0];
      BagWithout(a, 0);
      BagWithout(b, i);
      assert a[..0] + a[1..] == a[1..];
      SumSizesSplit(b, i);
      SameBagSameSum(a[1..], b[..i] + b[i + 1..]);
    }
  }

  lemma BagWithout(a: seq<Field>, i: nat)
    requires i < |a|
    ensures multiset(a[..i] + a[i + 1..]) == multiset(a) - multiset{a[i]}
  {
    assert a == a[..i] + [a[i]] + a[i + 1..];
  }

  /** Units of the values the preplaced references from `i` on refer to. */
  function RefSizes(s: State, i: nat): nat
    requires Bounds(s) && i <= |s.schema|
    decreases |s.schema| - i
  {
    if i == |s.schema| then 0 else (if s.schema[i].Some? then Size(PreplacedAt(s, i)) else 0) + RefSizes(s, i + 1)
  }

  lemma {:induction false} SameRefSizes(s: State, t: State, i: nat)
    requires Bounds(s) && Bounds(t) && t.schema == s.schema && Preplaced(t) == Preplaced(s) && i <= |s.schema|
    ensures RefSizes(t, i) == RefSizes(s, i)
    decreases |s.schema| - i
  {
    if i < |s.schema| {
      assert Preplaced(t)[i] == Preplaced(s)[i];
      SameRefSizes(s, t, i + 1);
    }
  }

  /** The value at a live descriptor or reference is as long as its slot. */
  lemma SizeIsUnits(s: State, k: nat)
    requires Steady(s) && s.head <= k < Floor(s) && k < |s.area| && IsLive(s, k)
    ensures Size(ValueAt(s, k)) == SlotAt(s, k).units
  {
    SlotOf(s, k);
    if Refers(s, k) && s.area[k].rel != 0 {
      assert s.area[k].own > 0 && Slots(s)[k - s.head].units > 0;
    }
  }

  lemma {:induction false} RefTotal(s: State, i: nat)
    requires Steady(s) && Bounds(s) && i <= |s.schema|
    ensures Total(Slots(s)[s.pivot - s.head + i..]) == RefSizes(s, i) && Volume(Slots(s)[s.pivot - s.head + i..]) == 0
    ensures Holes(Slots(s)[s.pivot - s.head + i..]) == 0
    decreases |s.schema| - i
  {
    hide Good, Written, ValueAt;
    if i < |s.schema| {
      SlotOf(s, s.pivot + i);
      assert Slots(s)[s.pivot - s.head + i..][1..] == Slots(s)[s.pivot - s.head + (i + 1)..];
      if s.schema[i].Some? { SizeIsUnits(s, s.pivot + i); }
      RefTotal(s, i + 1);
    }
  }

  lemma {:induction false} LooseTotal(s: State, k: nat)
    requires Steady(s) && Bounds(s) && s.head <= k <= s.pivot
    ensures var c := Slots(s)[k - s.head..];
            && Total(c) == SumSizes(LooseFields(s, k)) + Volume(c) + RefSizes(s, 0)
            && |LooseFields(s, k)| == s.pivot - k - Holes(c)
    decreases s.pivot - k
  {
    hide Good, Written, ValueAt;
    if k == s.pivot {
      RefTotal(s, 0);
    } else {
      SlotOf(s, k);
      assert Slots(s)[k - s.head..][1..] == Slots(s)[k + 1 - s.head..];
      LooseTotal(s, k + 1);
      if !IsHole(s.area[k]) {
        SizeIsUnits(s, k);
        assert LooseFields(s, k)[1..] == LooseFields(s, k + 1);
      } else {
        assert LooseFields(s, k) == LooseFields(s, k + 1);
      }
    }
  }

  /** Without its junk the tuple takes one unit for each loose field, the preplaced part, and
      the units of its values. */
  lemma Needs(s: State)
    requires Steady(s)
    ensures Bounds(s)
    ensures s.tail - s.head - s.volume - s.count
            == |LooseFields(s, s.head)| + |s.schema| + SumSizes(LooseFields(s, s.head)) + RefSizes(s, 0)
  {
    LooseTotal(s, s.head);
    assert Slots(s)[0..] == Slots(s);
  }

  /** The buffer is given up only when it must be: no tuple in it that shows the same, however
      arranged, has the room asked for. */
  lemma NoOtherArrangement(s: State, t: State, wi: nat, wd: nat)
    requires Steady(s) && Steady(t) && Bounds(s) && Bounds(t)
    requires t.schema == s.schema && |t.area| == |s.area| && ViewOf(t) == ViewOf(s)
    requires wi + wd > s.volume + s.count + Unallocated(s)
    ensures t.head < wi || TailSpace(t) < wd
  {
    Needs(s);
    Needs(t);
    BagOfTuple(s);
    BagOfTuple(t);
    SameBagSameSum(LooseFields(s, s.head), LooseFields(t, t.head));
    SameRefSizes(s, t, 0);
    JunkIsNatural(t);
    hide Good, Written, LooseFields, RefSizes, SumSizes, Bag, Preplaced;
  }

  lemma JunkIsNatural(t: State)
    requires Steady(t)
    ensures t.volume >= 0 && t.count >= 0
  {
  }
}
