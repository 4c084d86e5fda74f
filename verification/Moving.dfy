/** Sorting the chunks by offset, and moving them down one after another. */
module Moving {
  import opened Tuples
  import opened Compaction

  function EndOf(x: Item): int { x.begin + x.length }

  ghost predicate ItemsApart(x: Item, y: Item) { EndOf(x) <= y.begin || EndOf(y) <= x.begin }

  /** The items follow one another between `lo` and `hi`. */
  ghost predicate Chain(v: seq<Item>, lo: int, hi: int) {
    && (forall i :: 0 <= i < |v| ==> v[i].length > 0 && lo <= v[i].begin && EndOf(v[i]) <= hi)
    && (forall i, j :: 0 <= i < j < |v| ==> EndOf(v[i]) <= v[j].begin)
  }

  ghost predicate Scattered(v: seq<Item>, lo: int, hi: int) {
    && (forall i :: 0 <= i < |v| ==> v[i].length > 0 && lo <= v[i].begin && EndOf(v[i]) <= hi)
    && (forall i, j :: 0 <= i < j < |v| ==> ItemsApart(v[i], v[j]))
  }

  function SumLengths(v: seq<Item>): nat { if v == [] then 0 else v[0].length + SumLengths(v[1..]) }

  lemma {:induction false} InsertIs(x: Item, v: seq<Item>)
    ensures |Insert(x, v)| == |v| + 1 && SumLengths(Insert(x, v)) == x.length + SumLengths(v)
    ensures forall y :: y in Insert(x, v) <==> y == x || y in v
    decreases |v|
  {
    if v != [] && x.begin >= v[0].begin {
      var w := Insert(x, v[1..]);
      InsertIs(x, v[1..]);
      assert ([v[0]] + w)[1..] == w;
      assert v == [v[0]] + v[1..];
    } else {
      assert ([x] + v)[1..] == v;
    }
  }

  lemma ConsChain(x: Item, w: seq<Item>, lo: int, hi: int)
    requires Chain(w, lo, hi) && x.length > 0 && lo <= x.begin && EndOf(x) <= hi
    requires forall y :: y in w ==> EndOf(x) <= y.begin
    ensures Chain([x] + w, lo, hi)
  {
    var r := [x] + w;
    forall i, j | 0 <= i < j < |r| ensures EndOf(r[i]) <= r[j].begin {
      if i == 0 { assert r[j] in w; } else { assert r[i] == w[i - 1] && r[j] == w[j - 1]; }
    }
  }

  lemma RestChain(v: seq<Item>, lo: int, hi: int)
    requires v != [] && Chain(v, lo, hi)
    ensures Chain(v[1..], lo, hi) && forall y :: y in v[1..] ==> EndOf(v[0]) <= y.begin
  {
    var w := v[1..];
    forall i, j | 0 <= i < j < |w| ensures EndOf(w[i]) <= w[j].begin {
      assert EndOf(v[i + 1]) <= v[j + 1].begin;
    }
  }

  lemma {:induction false} InsertChain(x: Item, v: seq<Item>, lo: int, hi: int)
    requires Chain(v, lo, hi) && x.length > 0 && lo <= x.begin && EndOf(x) <= hi
    requires forall y :: y in v ==> ItemsApart(x, y)
    ensures Chain(Insert(x, v), lo, hi)
    decreases |v|
  {
    if v == [] {
      ConsChain(x, v, lo, hi);
    } else {
      assert v[0] in v && ItemsApart(x, v[0]) && v[0].begin < EndOf(v[0]);
      RestChain(v, lo, hi);
      assert lo <= v[0].begin && EndOf(v[0]) <= hi && v[0].length > 0;
      hide Chain;
      if x.begin >= v[0].begin {
        InsertChain(x, v[1..], lo, hi);
        InsertIs(x, v[1..]);
        ConsChain(v[0], Insert(x, v[1..]), lo, hi);
      } else {
        assert v == [v[0]] + v[1..];
        ConsChain(x, v, lo, hi);
      }
    }
  }

  /** Sorting lines the chunks up: the same items, one after another. */
  lemma {:induction false} SortLinesUp(v: seq<Item>, lo: int, hi: int)
    requires Scattered(v, lo, hi)
    ensures Chain(SortItems(v), lo, hi) && SumLengths(SortItems(v)) == SumLengths(v)
    ensures forall y :: y in SortItems(v) <==> y in v
    decreases |v|
  {
    if v != [] {
      var rest := v[1..];
      forall i, j | 0 <= i < j < |rest| ensures ItemsApart(rest[i], rest[j]) {
        assert ItemsApart(v[i + 1], v[j + 1]);
      }
      SortLinesUp(rest, lo, hi);
      var w := SortItems(rest);
      forall y | y in w ensures ItemsApart(v[0], y) {
        assert y in rest;
        var l :| 0 <= l < |rest| && rest[l] == y;
        assert ItemsApart(v[0], v[l + 1]);
      }
      InsertChain(v[0], w, lo, hi);
      InsertIs(v[0], w);
      assert v == [v[0]] + rest;
    }
  }

  // ---- Moving ---------------------------------------------------------------------------------------

  /** Where the chunk of item `i` ends up. */
  function Dest(v: seq<Item>, i: nat, dst: int): (r: int)
    requires i < |v|
    ensures dst <= r
    decreases |v|
  {
    if i == 0 then dst else Dest(v[1..], i - 1, dst + v[0].length)
  }

  lemma {:induction false} DestBounds(v: seq<Item>, i: nat, dst: int, hi: int)
    requires i < |v| && Chain(v, dst, hi)
    ensures dst <= Dest(v, i, dst) <= v[i].begin
    ensures Dest(v, i, dst) + v[i].length <= dst + SumLengths(v)
    ensures forall j :: i < j < |v| ==> Dest(v, i, dst) + v[i].length <= Dest(v, j, dst)
    decreases |v|
  {
    if i > 0 {
      ChainTail(v, dst, hi);
      DestBounds(v[1..], i - 1, dst + v[0].length, hi);
      forall j | i < j < |v| ensures Dest(v, i, dst) + v[i].length <= Dest(v, j, dst) {
        assert Dest(v, j, dst) == Dest(v[1..], j - 1, dst + v[0].length);
      }
    }
  }

  lemma ChainTail(v: seq<Item>, dst: int, hi: int)
    requires v != [] && Chain(v, dst, hi)
    ensures Chain(v[1..], dst + v[0].length, hi)
  {
    var w := v[1..];
    forall i | 0 <= i < |w| ensures dst + v[0].length <= w[i].begin {
      assert EndOf(v[0]) <= v[i + 1].begin;
    }
    forall i, j | 0 <= i < j < |w| ensures EndOf(w[i]) <= w[j].begin {
      assert EndOf(v[i + 1]) <= v[j + 1].begin;
    }
  }

  ghost predicate Referrers(v: seq<Item>, floor: int) {
    && (forall i :: 0 <= i < |v| ==> v[i].referrer < floor)
    && (forall i, j :: 0 <= i < j < |v| ==> v[i].referrer != v[j].referrer)
  }

  /** The chunk of item `x` is at `dest` in `r`, and its referrer has followed it. */
  ghost predicate Arrived(area: seq<Unit>, r: seq<Unit>, x: Item, dest: int) {
    && x.referrer < |area| == |r| && 0 <= dest <= x.begin && EndOf(x) <= |area|
    && r[dest..dest + x.length] == area[x.begin..EndOf(x)]
    && r[x.referrer] == area[x.referrer].(rel := area[x.referrer].rel - (x.begin - dest))
  }

  /** Nothing below `dst` changes but the referrers. */
  ghost predicate OnlyAbove(area: seq<Unit>, r: seq<Unit>, v: seq<Item>, dst: int) {
    |r| == |area| &&
    forall k :: 0 <= k < dst <= |area| && (forall i :: 0 <= i < |v| ==> v[i].referrer != k) ==> r[k] == area[k]
  }

  /** Below `dst` and after the chunk of `x` nothing changes but its referrer. */
  ghost predicate Around(area: seq<Unit>, r: seq<Unit>, x: Item, dst: int) {
    && |r| == |area|
    && (forall k :: 0 <= k < dst && k < |area| && k != x.referrer ==> r[k] == area[k])
    && (forall k: nat :: EndOf(x) <= k < |area| ==> r[k] == area[k])
  }

  lemma MoveOneMoves(area: seq<Unit>, x: Item, dst: int, floor: int)
    requires x.referrer < floor <= dst <= x.begin && EndOf(x) <= |area|
    ensures Arrived(area, MoveOne(area, x, dst), x, dst)
    ensures Around(area, MoveOne(area, x, dst), x, dst)
  {
    var r := MoveOne(area, x, dst);
    if x.begin != dst {
      var b := area[x.referrer := area[x.referrer].(rel := area[x.referrer].rel - (x.begin - dst))];
      assert r == b[..dst] + b[x.begin..EndOf(x)] + b[dst + x.length..];
      forall i | 0 <= i < x.length ensures r[dst..dst + x.length][i] == area[x.begin..EndOf(x)][i] {
        assert r[dst + i] == b[x.begin + i];
      }
      forall k | EndOf(x) <= k < |area| ensures r[k] == area[k] {
        assert r[k] == b[dst + x.length..][k - (dst + x.length)] == b[k];
      }
    }
  }

  /** No chunk is overwritten before it has moved: all of them arrive intact. */
  lemma {:induction false} MoveAllMoves(area: seq<Unit>, v: seq<Item>, dst: int, tail: int, floor: int)
    requires 0 <= floor <= dst && Chain(v, dst, tail) && tail <= |area| && Referrers(v, floor) && dst <= |area|
    ensures var r := MoveAll(area, v, dst, tail);
            && r.Some? && OnlyAbove(area, r.value, v, dst)
            && forall i :: 0 <= i < |v| ==> Arrived(area, r.value, v[i], Dest(v, i, dst))
    decreases |v|
  {
    if v != [] {
      MoveStep(area, v, dst, tail, floor);
    }
  }

  lemma {:induction false} MoveStep(area: seq<Unit>, v: seq<Item>, dst: int, tail: int, floor: int)
    requires v != [] && 0 <= floor <= dst && Chain(v, dst, tail) && tail <= |area| && Referrers(v, floor)
             && dst <= |area|
    ensures var r := MoveAll(area, v, dst, tail);
            && r.Some? && OnlyAbove(area, r.value, v, dst)
            && forall i :: 0 <= i < |v| ==> Arrived(area, r.value, v[i], Dest(v, i, dst))
    decreases |v|, 0
  {
    hide MoveOne, MoveAll, Arrived, Around, OnlyAbove, Chain, Referrers;
    var x, w := v[0], v[1..];
    MoveFirst(area, v, dst, tail, floor);
    var next := MoveOne(area, x, dst);
    MoveAllMoves(next, w, dst + x.length, tail, floor);
    var r := MoveAll(next, w, dst + x.length, tail).value;
    MoveOneMoves(area, x, dst, floor);
    FirstStays(area, next, r, v, dst, floor);
    forall i | 0 < i < |v| ensures Arrived(area, r, v[i], Dest(v, i, dst)) {
      LaterArrives(area, next, r, v, i, dst, tail, floor);
    }
  }

  lemma LaterArrives(area: seq<Unit>, next: seq<Unit>, r: seq<Unit>, v: seq<Item>, i: nat, dst: int, tail: int,
      floor: int)
    requires 0 < i < |v| && 0 <= floor <= dst && Chain(v, dst, tail) && Referrers(v, floor) && |next| == |area|
    requires Arrived(next, r, v[1..][i - 1], Dest(v[1..], i - 1, dst + v[0].length))
    requires Around(area, next, v[0], dst)
    ensures Arrived(area, r, v[i], Dest(v, i, dst))
  {
    hide Arrived, Around, Chain, Referrers;
    LaterReferrer(v, i, dst, tail, floor);
    assert v[i] == v[1..][i - 1] && Dest(v, i, dst) == Dest(v[1..], i - 1, dst + v[0].length);
    ArrivedEarlier(area, next, r, v[0], v[i], Dest(v, i, dst), dst);
  }

  lemma MoveFirst(area: seq<Unit>, v: seq<Item>, dst: int, tail: int, floor: int)
    requires v != [] && 0 <= floor <= dst && Chain(v, dst, tail) && tail <= |area| && Referrers(v, floor)
             && dst <= |area|
    ensures v[0].referrer < floor <= dst <= v[0].begin && dst + v[0].length <= EndOf(v[0]) <= |area|
            && |MoveOne(area, v[0], dst)| == |area|
    ensures Chain(v[1..], dst + v[0].length, tail) && Referrers(v[1..], floor)
    ensures MoveAll(area, v, dst, tail) == MoveAll(MoveOne(area, v[0], dst), v[1..], dst + v[0].length, tail)
  {
    var w := v[1..];
    MoveOneMoves(area, v[0], dst, floor);
    ChainTail(v, dst, tail);
    forall i, j | 0 <= i < j < |w| ensures w[i].referrer != w[j].referrer {
      assert v[i + 1].referrer != v[j + 1].referrer;
    }
  }

  lemma LaterReferrer(v: seq<Item>, i: nat, dst: int, tail: int, floor: int)
    requires 0 < i < |v| && 0 <= floor <= dst && Chain(v, dst, tail) && Referrers(v, floor)
    ensures v[i].referrer != v[0].referrer && v[i].referrer < dst && EndOf(v[0]) <= v[i].begin
  {
  }

  lemma ArrivedEarlier(area: seq<Unit>, next: seq<Unit>, r: seq<Unit>, x: Item, y: Item, dest: int, dst: int)
    requires Arrived(next, r, y, dest) && |next| == |area| && y.referrer != x.referrer && y.referrer < dst
             && EndOf(x) <= y.begin
    requires Around(area, next, x, dst)
    ensures Arrived(area, r, y, dest)
  {
    assert next[y.begin..EndOf(y)] == area[y.begin..EndOf(y)];
  }

  lemma FirstStays(area: seq<Unit>, next: seq<Unit>, r: seq<Unit>, v: seq<Item>, dst: int, floor: int)
    requires v != [] && 0 <= floor <= dst && Referrers(v, floor) && Arrived(area, next, v[0], dst)
    requires dst + v[0].length <= |next| && OnlyAbove(next, r, v[1..], dst + v[0].length)
    requires Around(area, next, v[0], dst)
    ensures Arrived(area, r, v[0], dst) && OnlyAbove(area, r, v, dst)
  {
    var x, w := v[0], v[1..];
    forall i | 0 <= i < |w| ensures w[i].referrer != x.referrer && w[i].referrer < dst {
      assert w[i] == v[i + 1];
    }
    assert r[x.referrer] == next[x.referrer];
    assert r[dst..dst + x.length] == next[dst..dst + x.length];
    forall k | 0 <= k < dst && (forall i :: 0 <= i < |v| ==> v[i].referrer != k) ensures r[k] == area[k] {
      assert v[0].referrer != k;
      forall i | 0 <= i < |w| ensures w[i].referrer != k { assert w[i] == v[i + 1]; }
    }
  }
}
