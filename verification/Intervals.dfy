/** The auditor's map of the payload: a vector of intervals, sorted, disjoint, never touching. */
module Intervals {

  datatype Interval = Interval(begin: int, end: int)

  /** Unit `u` lies in the interval. */
  predicate Holds(x: Interval, u: int) { x.begin <= u < x.end }

  predicate Touch(x: Interval, y: Interval) { x.end == y.begin || y.end == x.begin }

  ghost predicate Canonical(m: seq<Interval>) {
    && (forall i :: 0 <= i < |m| ==> m[i].begin < m[i].end)
    && (forall i, j :: 0 <= i < j < |m| ==> m[i].end < m[j].begin)
  }

  ghost predicate Covers(m: seq<Interval>, u: int) { exists i :: 0 <= i < |m| && Holds(m[i], u) }

  ghost predicate Overlaps(m: seq<Interval>, x: Interval) { exists u :: Holds(x, u) && Covers(m, u) }

  ghost predicate TouchesSome(m: seq<Interval>, x: Interval) { exists i :: 0 <= i < |m| && Touch(m[i], x) }

  /** The first interval that begins after `end`. */
  ghost predicate IsUpperBound(m: seq<Interval>, end: int, n: nat) {
    n <= |m| && (forall i :: 0 <= i < n ==> m[i].begin <= end) && (forall i :: n <= i < |m| ==> end < m[i].begin)
  }

  method UpperBound(m: seq<Interval>, end: int) returns (n: nat)
    requires Canonical(m)
    ensures IsUpperBound(m, end, n)
  {
    var hi := |m|;
    n := 0;
    while n < hi
      invariant n <= hi <= |m|
      invariant forall i :: 0 <= i < n ==> m[i].begin <= end
      invariant forall i :: hi <= i < |m| ==> end < m[i].begin
    {
      var mid := n + (hi - n) / 2;
      if end < m[mid].begin {
        forall i | mid <= i < |m| ensures end < m[i].begin { SortedByBegin(m, mid, i); }
        hi := mid;
      } else {
        forall i | 0 <= i <= mid ensures m[i].begin <= end { SortedByBegin(m, i, mid); }
        n := mid + 1;
      }
    }
  }

  lemma SortedByBegin(m: seq<Interval>, i: nat, j: nat)
    requires Canonical(m) && i <= j < |m|
    ensures m[i].begin <= m[j].begin
  {
  }

  /** What an accepted insertion makes of the map. */
  ghost predicate Joined(m: seq<Interval>, r: seq<Interval>, x: Interval) {
    && Canonical(r) && (forall u :: Covers(r, u) <==> Covers(m, u) || Holds(x, u))
    && (if TouchesSome(m, x) then |r| <= |m|
        else |r| == |m| + 1 && forall y :: y in r <==> y in m || y == x)
  }

  // ---- The four ways to insert -------------------------------------------------------------------------

  lemma InsertedApart(m: seq<Interval>, x: Interval, n: nat)
    requires Canonical(m) && x.begin < x.end && IsUpperBound(m, x.end, n) && (n > 0 ==> m[n - 1].end < x.begin)
    ensures Joined(m, m[..n] + [x] + m[n..], x) && !Overlaps(m, x)
  {
    var r := m[..n] + [x] + m[n..];
    assert forall i :: 0 <= i < n ==> m[i].end < x.begin;
    InsertedMembers(m, x, n);
    forall u ensures Covers(r, u) <==> Covers(m, u) || Holds(x, u) {
      InsertedCovers(m, x, n, u);
    }
  }

  lemma InsertedMembers(m: seq<Interval>, x: Interval, n: nat)
    requires n <= |m|
    ensures var r := m[..n] + [x] + m[n..]; |r| == |m| + 1 && forall y :: y in r <==> y in m || y == x
  {
    assert m == m[..n] + m[n..];
  }

  lemma InsertedCovers(m: seq<Interval>, x: Interval, n: nat, u: int)
    requires n <= |m|
    ensures Covers(m[..n] + [x] + m[n..], u) <==> Covers(m, u) || Holds(x, u)
  {
    var r := m[..n] + [x] + m[n..];
    assert r[n] == x;
    if Covers(m, u) {
      var i :| 0 <= i < |m| && Holds(m[i], u);
      assert r[if i < n then i else i + 1] == m[i];
    }
    if Covers(r, u) && !Holds(x, u) {
      var i :| 0 <= i < |r| && Holds(r[i], u);
      assert r[i] == m[if i < n then i else i - 1];
    }
  }

  /** The interval at `h` grows to `y`, which is it and `x` together. */
  lemma Grown(m: seq<Interval>, x: Interval, h: nat, y: Interval)
    requires Canonical(m) && x.begin < x.end && h < |m|
    requires (m[h].begin == x.end && y == Interval(x.begin, m[h].end))
             || (m[h].end == x.begin && y == Interval(m[h].begin, x.end))
    requires (h > 0 ==> m[h - 1].end < x.begin) && (h + 1 < |m| ==> x.end < m[h + 1].begin)
    ensures Joined(m, m[h := y], x) && !Overlaps(m, x)
  {
    var r := m[h := y];
    assert Touch(m[h], x);
    assert forall i :: 0 <= i < h ==> m[i].end < x.begin;
    assert forall i :: h < i < |m| ==> x.end < m[i].begin;
    forall u ensures Covers(r, u) <==> Covers(m, u) || Holds(x, u) {
      GrownCovers(m, x, h, y, u);
    }
  }

  lemma GrownCovers(m: seq<Interval>, x: Interval, h: nat, y: Interval, u: int)
    requires h < |m| && m[h].begin < m[h].end && x.begin < x.end
    requires (m[h].begin == x.end && y == Interval(x.begin, m[h].end))
             || (m[h].end == x.begin && y == Interval(m[h].begin, x.end))
    ensures Covers(m[h := y], u) <==> Covers(m, u) || Holds(x, u)
  {
    var r := m[h := y];
    if Covers(m, u) || Holds(x, u) {
      if Holds(y, u) {
        assert Holds(r[h], u);
      } else {
        var i :| 0 <= i < |m| && Holds(m[i], u);
        assert i != h && r[i] == m[i];
      }
    }
    if Covers(r, u) && !Holds(x, u) {
      var i :| 0 <= i < |r| && Holds(r[i], u);
      assert Holds(m[i], u);
    }
  }

  /** `x` fills the gap between two neighbours, which become one. */
  lemma Bridged(m: seq<Interval>, x: Interval, h: nat)
    requires Canonical(m) && x.begin < x.end && 0 < h < |m| && m[h].begin == x.end && m[h - 1].end == x.begin
    ensures Joined(m, m[..h - 1] + [Interval(m[h - 1].begin, m[h].end)] + m[h + 1..], x) && !Overlaps(m, x)
  {
    var y := Interval(m[h - 1].begin, m[h].end);
    var r := m[..h - 1] + [y] + m[h + 1..];
    assert Touch(m[h], x);
    forall u ensures Covers(r, u) <==> Covers(m, u) || Holds(x, u) {
      BridgedCovers(m, x, h, u);
    }
    forall i, j | 0 <= i < j < |r| ensures r[i].end < r[j].begin {
      assert r[i] == if i < h - 1 then m[i] else if i == h - 1 then y else m[i + 1];
      assert r[j] == if j < h - 1 then m[j] else if j == h - 1 then y else m[j + 1];
    }
  }

  lemma BridgedCovers(m: seq<Interval>, x: Interval, h: nat, u: int)
    requires Canonical(m) && x.begin < x.end && 0 < h < |m| && m[h].begin == x.end && m[h - 1].end == x.begin
    ensures Covers(m[..h - 1] + [Interval(m[h - 1].begin, m[h].end)] + m[h + 1..], u) <==> Covers(m, u) || Holds(x, u)
  {
    var y := Interval(m[h - 1].begin, m[h].end);
    var r := m[..h - 1] + [y] + m[h + 1..];
    if Covers(m, u) || Holds(x, u) {
      if Holds(y, u) {
        assert Holds(r[h - 1], u);
      } else {
        var i :| 0 <= i < |m| && Holds(m[i], u);
        assert r[if i < h - 1 then i else i - 1] == m[i];
      }
    }
    if Covers(r, u) && !Holds(x, u) {
      var i :| 0 <= i < |r| && Holds(r[i], u);
      if i == h - 1 {
        assert Holds(m[h - 1], u) || Holds(m[h], u);
      } else {
        assert r[i] == m[if i < h - 1 then i else i + 1];
      }
    }
  }

  lemma OverlapAt(m: seq<Interval>, x: Interval, i: nat)
    requires i < |m| && m[i].begin < m[i].end && x.begin < x.end && x.begin < m[i].end && m[i].begin < x.end
    ensures Overlaps(m, x)
  {
    var u := if x.begin < m[i].begin then m[i].begin else x.begin;
    assert Holds(x, u) && Holds(m[i], u) && Covers(m, u);
  }

  /** map_insert: refuses exactly what overlaps, and otherwise keeps the map canonical and adds
      exactly the units of the interval. */
  method MapInsert(m: seq<Interval>, begin: int, end: int) returns (ok: bool, r: seq<Interval>)
    requires Canonical(m) && begin < end
    ensures ok <==> !Overlaps(m, Interval(begin, end))
    ensures if ok then Joined(m, r, Interval(begin, end)) else r == m
  {
    hide Joined, Overlaps;
    ghost var x := Interval(begin, end);
    var next := UpperBound(m, end);
    if next == 0 {
      InsertedApart(m, x, next);
      return true, m[..next] + [Interval(begin, end)] + m[next..];
    }
    var here := next - 1;
    if m[here].end < begin {
      InsertedApart(m, x, next);
      return true, m[..next] + [Interval(begin, end)] + m[next..];
    }
    if m[here].begin == end {
      if here != 0 {
        if m[here - 1].end > begin {
          OverlapAt(m, x, here - 1);
          return false, m;
        }
        if m[here - 1].end == begin {
          Bridged(m, x, here);
          return true, m[..here - 1] + [Interval(m[here - 1].begin, m[here].end)] + m[here + 1..];
        }
      }
      Grown(m, x, here, Interval(begin, m[here].end));
      return true, m[here := Interval(begin, m[here].end)];
    }
    if begin == m[here].end {
      Grown(m, x, here, Interval(m[here].begin, end));
      return true, m[here := Interval(m[here].begin, end)];
    }
    OverlapAt(m, x, here);
    return false, m;
  }
}
