/** The ledger of a tuple: one entry per descriptor (or preplaced reference), saying which
    units of the payload area it owns. Everything the allocator must keep is a statement
    about this sequence; the allocator's steps are updates, pushes and pops on it. */
module Ledger {

  /** What one referrer owns: `units` consecutive units from `begin`, or nothing when
      `units == 0`. `hole` tells garbage from a live field. */
  datatype Slot = Slot(hole: bool, begin: int, units: nat) {
    function End(): int { begin + units }
  }

  const NOTHING := Slot(false, 0, 0)

  ghost predicate Apart(a: Slot, b: Slot) {
    a.units == 0 || b.units == 0 || a.End() <= b.begin || b.End() <= a.begin
  }

  ghost predicate Disjoint(c: seq<Slot>) {
    forall i, j :: 0 <= i < j < |c| ==> Apart(c[i], c[j])
  }

  ghost predicate Within(c: seq<Slot>, lo: int, hi: int) {
    forall i :: 0 <= i < |c| && c[i].units > 0 ==> lo <= c[i].begin && c[i].End() <= hi
  }

  /** All units owned. */
  function Total(c: seq<Slot>): nat {
    if c == [] then 0 else c[0].units + Total(c[1..])
  }

  /** Number of holes, empty ones included. */
  function Holes(c: seq<Slot>): nat {
    if c == [] then 0 else (if c[0].hole then 1 else 0) + Holes(c[1..])
  }

  /** Units owned by holes. */
  function Volume(c: seq<Slot>): nat {
    if c == [] then 0 else (if c[0].hole then c[0].units else 0) + Volume(c[1..])
  }

  /** The payload area from `lo` to `hi` is shared out completely and without overlap. */
  ghost predicate Packed(c: seq<Slot>, lo: int, hi: int) {
    lo <= hi && Within(c, lo, hi) && Disjoint(c) && Total(c) == hi - lo
  }

  // ---- Sums under the three ways a ledger changes -------------------------------------

  function HoleUnits(x: Slot): nat { if x.hole then x.units else 0 }
  function HoleOne(x: Slot): nat { if x.hole then 1 else 0 }

  lemma {:induction false} SumsAfterUpdate(c: seq<Slot>, i: nat, x: Slot)
    requires i < |c|
    ensures Total(c[i := x]) == Total(c) - c[i].units + x.units
    ensures Holes(c[i := x]) == Holes(c) - HoleOne(c[i]) + HoleOne(x)
    ensures Volume(c[i := x]) == Volume(c) - HoleUnits(c[i]) + HoleUnits(x)
    decreases |c|
  {
    var d := c[i := x];
    if i == 0 {
      assert d[1..] == c[1..];
    } else {
      assert d[1..] == c[1..][i - 1 := x];
      SumsAfterUpdate(c[1..], i - 1, x);
    }
  }

  lemma SumsAfterPush(c: seq<Slot>, x: Slot)
    ensures Total([x] + c) == x.units + Total(c)
    ensures Holes([x] + c) == HoleOne(x) + Holes(c)
    ensures Volume([x] + c) == HoleUnits(x) + Volume(c)
  {
    assert ([x] + c)[1..] == c;
  }

  /** A sum is at least any two of its terms. */
  lemma {:induction false} SumsBound(c: seq<Slot>, i: nat)
    requires i < |c|
    ensures c[i].units <= Total(c) && HoleOne(c[i]) <= Holes(c) && HoleUnits(c[i]) <= Volume(c)
    ensures Holes(c) == 0 ==> !c[i].hole
    decreases |c|
  {
    if i > 0 {
      SumsBound(c[1..], i - 1);
    }
  }

  lemma {:induction false} VolumeAtMostTotal(c: seq<Slot>)
    ensures Volume(c) <= Total(c) && Holes(c) <= |c|
    decreases |c|
  {
    if c != [] {
      VolumeAtMostTotal(c[1..]);
    }
  }

  // ---- The partition theorem ------------------------------------------------------------

  /** The units from `lo` up to, not including, `hi`. */
  function Units(lo: int, hi: int): (r: set<int>)
    ensures forall u :: u in r <==> lo <= u < hi
    ensures |r| == if lo <= hi then hi - lo else 0
    decreases hi - lo
  {
    if hi <= lo then {} else Units(lo, hi - 1) + {hi - 1}
  }

  /** The units some entry owns. */
  ghost function Owned(c: seq<Slot>): set<int> {
    if c == [] then {} else Units(c[0].begin, c[0].End()) + Owned(c[1..])
  }

  ghost predicate Owns(x: Slot, u: int) { x.begin <= u < x.End() }

  lemma {:induction false} OwnedMeaning(c: seq<Slot>, u: int)
    ensures u in Owned(c) <==> exists i :: 0 <= i < |c| && Owns(c[i], u)
    decreases |c|
  {
    if c != [] {
      OwnedMeaning(c[1..], u);
      forall i | 0 < i < |c| ensures Owns(c[i], u) <==> Owns(c[1..][i - 1], u) {}
      if u in Owned(c[1..]) {
        var i :| 0 <= i < |c[1..]| && Owns(c[1..][i], u);
        assert Owns(c[i + 1], u);
      }
    }
  }

  lemma {:induction false} OwnedCount(c: seq<Slot>)
    requires Disjoint(c)
    ensures |Owned(c)| == Total(c)
    decreases |c|
  {
    if c != [] {
      var rest := c[1..];
      forall i, j | 0 <= i < j < |rest| ensures Apart(rest[i], rest[j]) {
        assert Apart(c[i + 1], c[j + 1]);
      }
      OwnedCount(rest);
      forall u | u in Units(c[0].begin, c[0].End()) ensures u !in Owned(rest) {
        OwnedMeaning(rest, u);
        forall i | 0 <= i < |rest| ensures !Owns(rest[i], u) {
          assert Apart(c[0], c[i + 1]);
        }
      }
      assert Units(c[0].begin, c[0].End()) !! Owned(rest);
    }
  }

  lemma SubsetOfSameSize(a: set<int>, b: set<int>)
    requires a <= b && |a| == |b|
    ensures a == b
  {
    assert |a + (b - a)| == |a| + |b - a|;
    assert a + (b - a) == b;
    assert b - a == {};
  }

  /** In a packed ledger every unit of the payload area has exactly one owner. */
  lemma Partition(c: seq<Slot>, lo: int, hi: int, u: int)
    requires Packed(c, lo, hi) && lo <= u < hi
    ensures exists i :: 0 <= i < |c| && Owns(c[i], u)
    ensures forall i, j :: 0 <= i < j < |c| && Owns(c[i], u) ==> !Owns(c[j], u)
  {
    forall v | v in Owned(c) ensures v in Units(lo, hi) {
      OwnedMeaning(c, v);
    }
    OwnedCount(c);
    SubsetOfSameSize(Owned(c), Units(lo, hi));
    OwnedMeaning(c, u);
    forall i, j | 0 <= i < j < |c| && Owns(c[i], u) ensures !Owns(c[j], u) {
      assert Apart(c[i], c[j]);
    }
  }

  /** Conversely a ledger that covers the area without overlap is packed. */
  lemma PackedIfCovered(c: seq<Slot>, lo: int, hi: int)
    requires lo <= hi && Within(c, lo, hi) && Disjoint(c)
    requires forall u :: lo <= u < hi ==> u in Owned(c)
    ensures Packed(c, lo, hi)
  {
    forall v | v in Owned(c) ensures v in Units(lo, hi) {
      OwnedMeaning(c, v);
    }
    assert Owned(c) == Units(lo, hi);
    OwnedCount(c);
  }

  // ---- The ways a packed ledger stays packed -------------------------------------------------

  ghost predicate Inside(x: Slot, lo: int, hi: int) { x.units > 0 ==> lo <= x.begin && x.End() <= hi }

  /** Whatever keeps clear of `a` and `b` keeps clear of `x`. */
  ghost predicate Shelters(a: Slot, b: Slot, x: Slot) {
    forall z: Slot {:trigger Apart(z, x)} :: Apart(z, a) && Apart(z, b) ==> Apart(z, x)
  }

  /** What `a` and `b` cover when they are neighbours, and what they cover singly. */
  lemma SheltersHull(a: Slot, b: Slot, x: Slot)
    requires a.End() == b.begin && a.begin <= x.begin && x.End() <= b.End()
    ensures Shelters(a, b, x) && Shelters(b, a, x)
  {
  }

  lemma SheltersPart(a: Slot, b: Slot, x: Slot)
    requires x.units > 0 ==> a.begin <= x.begin && x.End() <= a.End()
    ensures Shelters(a, b, x) && Shelters(b, a, x)
  {
  }

  lemma ApartAt(c: seq<Slot>, i: nat, j: nat)
    requires Disjoint(c) && i < |c| && j < |c| && i != j
    ensures Apart(c[i], c[j])
  {
    if i < j { assert Apart(c[i], c[j]); } else { assert Apart(c[j], c[i]); }
  }

  /** Two entries share the same units out differently: a join, a split, a move or a swap. */
  lemma Rearrange(c: seq<Slot>, i: nat, j: nat, x: Slot, y: Slot, lo: int, hi: int)
    requires Packed(c, lo, hi) && i < |c| && j < |c| && i != j
    requires Apart(x, y) && x.units + y.units == c[i].units + c[j].units
    requires Inside(x, lo, hi) && Inside(y, lo, hi)
    requires Shelters(c[i], c[j], x) && Shelters(c[i], c[j], y)
    ensures Packed(c[i := x][j := y], lo, hi)
  {
    var d := c[i := x][j := y];
    SumsAfterUpdate(c, i, x);
    SumsAfterUpdate(c[i := x], j, y);
    forall k, l | 0 <= k < l < |d| ensures Apart(d[k], d[l]) {
      if k != i && k != j {
        ApartAt(c, k, i); ApartAt(c, k, j); ApartAt(c, k, l);
        assert Apart(c[k], x) && Apart(c[k], y);
      }
      if l != i && l != j {
        ApartAt(c, l, i); ApartAt(c, l, j); ApartAt(c, k, l);
        assert Apart(c[l], x) && Apart(c[l], y);
      }
    }
    forall k | 0 <= k < |d| ensures Inside(d[k], lo, hi) {}
  }

  /** Entry `k`, which is empty or last in the area, is resized in place. */
  lemma AtTail(c: seq<Slot>, k: nat, x: Slot, lo: int, hi: int)
    requires Packed(c, lo, hi) && k < |c|
    requires c[k].units > 0 ==> c[k].End() == hi
    requires x.units > 0 ==> x.begin == hi - c[k].units
    ensures Packed(c[k := x], lo, hi - c[k].units + x.units)
  {
    var base := hi - c[k].units;
    SumsAfterUpdate(c, k, x);
    forall i | 0 <= i < |c| && i != k ensures Inside(c[i], lo, base) {
      ApartAt(c, i, k);
    }
    var d := c[k := x];
    forall i, j | 0 <= i < j < |d| ensures Apart(d[i], d[j]) {
      ApartAt(c, i, j);
    }
    forall i | 0 <= i < |d| ensures Inside(d[i], lo, base + x.units) {}
  }

  lemma Relabel(c: seq<Slot>, i: nat, x: Slot, lo: int, hi: int)
    requires Packed(c, lo, hi) && i < |c|
    requires x.units == c[i].units && (x.units > 0 ==> x.begin == c[i].begin)
    ensures Packed(c[i := x], lo, hi)
  {
    SumsAfterUpdate(c, i, x);
    var d := c[i := x];
    forall k, l | 0 <= k < l < |d| ensures Apart(d[k], d[l]) {
      ApartAt(c, k, l);
    }
    forall k | 0 <= k < |d| ensures Inside(d[k], lo, hi) {}
  }

  lemma PushEmpty(c: seq<Slot>, x: Slot, lo: int, hi: int)
    requires Packed(c, lo, hi) && x.units == 0
    ensures Packed([x] + c, lo, hi)
  {
    SumsAfterPush(c, x);
    var d := [x] + c;
    forall i, j | 0 <= i < j < |d| ensures Apart(d[i], d[j]) {
      if i > 0 { assert d[i] == c[i - 1] && d[j] == c[j - 1]; }
    }
    forall i | 0 <= i < |d| ensures Inside(d[i], lo, hi) {
      if i > 0 { assert d[i] == c[i - 1]; }
    }
  }

  /** Dropping the first entry, which is empty or last in the area. */
  lemma Pop(c: seq<Slot>, lo: int, hi: int)
    requires Packed(c, lo, hi) && c != []
    requires c[0].units > 0 ==> c[0].End() == hi
    ensures Packed(c[1..], lo, hi - c[0].units)
  {
    var d := c[1..];
    var base := hi - c[0].units;
    forall i | 0 <= i < |d| ensures Inside(d[i], lo, base) {
      assert d[i] == c[i + 1];
      ApartAt(c, i + 1, 0);
    }
    forall i, j | 0 <= i < j < |d| ensures Apart(d[i], d[j]) {
      assert d[i] == c[i + 1] && d[j] == c[j + 1];
      ApartAt(c, i + 1, j + 1);
    }
  }

  // ---- Dropping all holes -----------------------------------------------------------------------

  function LiveOnly(c: seq<Slot>): (r: seq<Slot>)
    ensures |r| <= |c|
  {
    if c == [] then [] else (if c[0].hole then [] else [c[0]]) + LiveOnly(c[1..])
  }

  lemma {:induction false} LiveOnlySums(c: seq<Slot>)
    ensures Total(LiveOnly(c)) == Total(c) - Volume(c)
    ensures Holes(LiveOnly(c)) == 0 && Volume(LiveOnly(c)) == 0 && |LiveOnly(c)| == |c| - Holes(c)
    ensures forall x :: x in LiveOnly(c) ==> x in c && !x.hole
    decreases |c|
  {
    if c != [] {
      var rest := LiveOnly(c[1..]);
      LiveOnlySums(c[1..]);
      if !c[0].hole {
        assert LiveOnly(c) == [c[0]] + rest && ([c[0]] + rest)[1..] == rest;
      } else {
        assert LiveOnly(c) == rest;
      }
    }
  }

  lemma {:induction false} LiveOnlyApart(c: seq<Slot>)
    requires Disjoint(c)
    ensures Disjoint(LiveOnly(c))
    decreases |c|
  {
    if c != [] {
      var rest := c[1..];
      forall i, j | 0 <= i < j < |rest| ensures Apart(rest[i], rest[j]) {
        assert Apart(c[i + 1], c[j + 1]);
      }
      LiveOnlyApart(rest);
      LiveOnlySums(rest);
      var d := LiveOnly(c);
      if !c[0].hole {
        assert d == [c[0]] + LiveOnly(rest);
        forall i, j | 0 <= i < j < |d| ensures Apart(d[i], d[j]) {
          if i == 0 {
            assert d[j] in rest;
            var l :| 0 <= l < |rest| && rest[l] == d[j];
            assert Apart(c[0], c[l + 1]);
          } else {
            assert Apart(LiveOnly(rest)[i - 1], LiveOnly(rest)[j - 1]);
          }
        }
      }
    }
  }

  lemma {:induction false} LiveOnlyConcat(a: seq<Slot>, b: seq<Slot>)
    ensures LiveOnly(a + b) == LiveOnly(a) + LiveOnly(b)
    decreases |a|
  {
    if a == [] {
      assert a + b == b;
    } else {
      assert (a + b)[1..] == a[1..] + b;
      LiveOnlyConcat(a[1..], b);
    }
  }

  lemma {:induction false} TotalConcat(a: seq<Slot>, b: seq<Slot>)
    ensures Total(a + b) == Total(a) + Total(b)
    decreases |a|
  {
    if a == [] {
      assert a + b == b;
    } else {
      assert (a + b)[1..] == a[1..] + b;
      TotalConcat(a[1..], b);
    }
  }

  lemma {:induction false} SameUnitsSameSums(c: seq<Slot>, d: seq<Slot>)
    requires |c| == |d| && forall i :: 0 <= i < |c| ==> c[i].units == d[i].units && c[i].hole == d[i].hole
    ensures Total(c) == Total(d) && Holes(c) == Holes(d) && Volume(c) == Volume(d)
    decreases |c|
  {
    if c != [] {
      SameUnitsSameSums(c[1..], d[1..]);
    }
  }
}
