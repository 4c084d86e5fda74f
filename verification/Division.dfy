/** Division of two words by one, of three by two, and of two by two, by multiplication with a
    reciprocal and at most two corrections. */
module Division {
  import opened Words
  import opened Shifts
  import opened Reciprocals

  /** floor((B^3 - 1) / d) - B, said without division. */
  ghost predicate IsReciprocal2(d: int, v: int) {
    HALF * B <= d < B * B && 0 <= v < B && 1 <= B * B * B - (v + B) * d <= d
  }

  lemma LowCong(x: int, y: int, k: int)
    requires x == y + k * B
    ensures Low(x) == Low(y)
  {
    LowIs(x, Low(y), y / B + k);
  }

  lemma LowProduct(x: int, d: int)
    ensures Low(Low(x) * d) == Low(x * d)
  {
    var k := x / B;
    assert Low(x) * d == x * d - k * B * d;
    assert k * B * d == k * d * B;
    LowCong(Low(x) * d, x * d, -(k * d));
  }

  // ---- Two words by one ------------------------------------------------------------------------------------

  /** The estimate is one too large, right, or one too small: the remainder `t` it leaves is
      above both `-d` and `q0 - B`, and below `B - d` or `q0`. */
  lemma Estimate2by1(t: int, d: int, q0: int, x: int, y: int)
    requires HALF <= d < B && 0 <= q0 < B && 0 <= x <= (d - 1) * d && 0 <= y <= (B - 1) * (B - d)
    requires B * t == x + y + (q0 - B) * d
    ensures t + d >= 0 && t > q0 - B && (t < B - d || t < q0)
  {
    BoundBelow(t, d, q0, x + y);
    BoundAbove(t, d, q0, x, y);
  }

  /** What the reciprocal and the low word contribute to the remainder. */
  lemma Parts2by1(u1: int, u0: int, d: int, v: int)
    requires IsReciprocal(d, v) && 0 <= u1 < d && 0 <= u0 < B
    ensures 0 <= (B * B - (v + B) * d) * u1 <= (d - 1) * d && 0 <= u0 * (B - d) <= (B - 1) * (B - d)
  {
    var rho := B * B - (v + B) * d;
    Times(0, rho, u1);
    Times(rho, d, u1);
    Times(u1, d - 1, d);
    Times(0, u0, B - d);
    Times(u0, B - 1, B - d);
  }

  lemma BoundBelow(t: int, d: int, q0: int, rest: int)
    requires HALF <= d < B && 0 <= q0 < B && rest >= 0 && B * t == rest + (q0 - B) * d
    ensures t >= -d && t > q0 - B
  {
    Times(0, q0, d);
    assert (q0 - B) * d == q0 * d - B * d;
    assert (q0 - B) * B - (q0 - B) * d == (q0 - B) * (B - d);
    Times(q0 - B, -1, B - d);
  }

  lemma BoundAbove(t: int, d: int, q0: int, x: int, y: int)
    requires HALF <= d < B && 0 <= q0 < B && x <= (d - 1) * d && y <= (B - 1) * (B - d) && B * t == x + y + (q0 - B) * d
    ensures t < B - d || t < q0
  {
    assert t * d + t * (B - d) == B * t;
    assert (q0 - B) * d == q0 * d - B * d;
    assert (d - 1) * d == d * d - d;
    assert (B - 1) * (B - d) == B * (B - d) - (B - d);
    assert (B - d) * (B - d) == B * (B - d) - d * (B - d);
    assert d * (B - d) == B * d - d * d;
    if t >= B - d && t >= q0 {
      Times(q0, t, d);
      Times(B - d, t, B - d);
    }
  }

  lemma Remains2by1(u1: int, u0: int, d: int, v: int, q1: int, q0: int)
    requires q1 * B + q0 == (v + B) * u1 + u0
    ensures B * (u1 * B + u0 - (q1 + 1) * d) == (B * B - (v + B) * d) * u1 + u0 * (B - d) + (q0 - B) * d
  {
    assert (q1 * B + q0) * d == ((v + B) * u1 + u0) * d;
    assert ((v + B) * u1 + u0) * d == (v + B) * d * u1 + u0 * d by { Spread7(v + B, u1, u0, d); }
    assert (q1 * B + q0) * d == B * (q1 * d) + q0 * d;
    assert (B * B - (v + B) * d) * u1 == B * B * u1 - (v + B) * d * u1;
    assert (q1 + 1) * d == q1 * d + d;
    assert u0 * (B - d) == u0 * B - u0 * d;
    assert (q0 - B) * d == q0 * d - B * d;
  }

  lemma Spread7(w: int, u: int, c: int, d: int)
    ensures (w * u + c) * d == w * d * u + c * d
  {
    assert w * u * d == w * d * u;
  }

  lemma NoOverflow2by1(u1: int, u0: int, d: int, v: int)
    requires IsReciprocal(d, v) && 0 <= u1 < d && 0 <= u0 < B
    ensures 0 <= (v + B) * u1 + u0 < B * B
  {
    Times(u1, d - 1, v + B);
    Times(0, u1, v + B);
    assert (d - 1) * (v + B) == (v + B) * d - (v + B);
  }

  /** The double word of the estimate. */
  lemma Product2by1(u: U128, d: Word, v: Word)
    requires IsReciprocal(d, v) && u.h < d
    ensures Value(Add128(Umul128(v, u.h), u)) == (v + B) * u.h + u.l
  {
    UmulIsProduct(v, u.h);
    AddWraps(Umul128(v, u.h), u);
    NoOverflow2by1(u.h, u.l, d, v);
    hide Umul128, Add128;
    assert v * u.h + Value(u) == (v + B) * u.h + u.l;
    Remainder(v * u.h + Value(u), 0, v * u.h + Value(u));
  }

  lemma LeftOver2by1(u: U128, d: Word, q1: Word)
    ensures Low(u.l - Low(Low(q1 + 1) * d)) == Low(Value(u) - (q1 + 1) * d)
  {
    var x := (q1 + 1) * d;
    LowProduct(q1 + 1, d);
    LowCong(u.l - Low(x), Value(u) - x, x / B - u.h);
  }

  /** The two corrections. `t` is the remainder that the estimate `q1 + 1` leaves. */
  method Correct2by1(q1: Word, q0: Word, r0: Word, d: Word, ghost t: int) returns (quotient: Word, r: Word)
    requires d >= HALF && t + d >= 0 && t > q0 - B && (t < B - d || t < q0)
    requires r0 == Low(t)
    requires (t >= 0 ==> q1 + 1 < B) && (t >= d ==> q1 + 2 < B)
    ensures r < d && q1 <= quotient <= q1 + 2
    ensures (quotient == q1 && r == t + d) || (quotient == q1 + 1 && r == t) || (quotient == q1 + 2 && r == t - d)
  {
    SignedLow(t);
    quotient := Low(q1 + 1);
    r := r0;
    if r > q0 {
      quotient := Low(quotient - 1);
      r := Low(r + d);
    }
    if r >= d {
      quotient := Low(quotient + 1);
      r := Low(r - d);
    }
  }

  method Divmod2by1(u: U128, d: Word, v: Word) returns (quotient: Word, r: Word)
    requires u.h < d && IsReciprocal(d, v)
    ensures Value(u) == quotient * d + r && r < d
  {
    hide Umul128, Add128;
    var q := Add128(Umul128(v, u.h), u);
    r := Low(u.l - Low(Low(q.h + 1) * d));
    ghost var t := Value(u) - (q.h + 1) * d;
    Product2by1(u, d, v);
    Remains2by1(u.h, u.l, d, v, q.h, q.l);
    Parts2by1(u.h, u.l, d, v);
    Estimate2by1(t, d, q.l, (B * B - (v + B) * d) * u.h, u.l * (B - d));
    LeftOver2by1(u, d, q.h);
    NotLargest(u, d, q.h);
    Multiples(q.h, d);
    hide Low, Value, IsReciprocal;
    quotient, r := Correct2by1(q.h, q.l, r, d, t);
  }

  lemma Multiples(q: int, d: int)
    ensures (q + 1) * d == q * d + d && (q + 2) * d == q * d + 2 * d
  {
  }

  lemma SignedLow(t: int)
    requires -B <= t < B
    ensures Low(t) == if t < 0 then t + B else t
  {
    if t < 0 { LowIs(t, t + B, -1); }
  }

  lemma NotLargest(u: U128, d: Word, q1: Word)
    requires u.h < d
    ensures Value(u) - (q1 + 1) * d >= 0 ==> q1 + 1 < B
    ensures Value(u) - (q1 + 1) * d >= d ==> q1 + 2 < B
  {
    Times(u.h, d - 1, B);
    Multiples(q1, d);
    if q1 + 1 == B { assert (q1 + 1) * d == B * d; }
    if q1 + 2 == B { assert (q1 + 2) * d == B * d; }
  }

  // ---- The reciprocal of two words --------------------------------------------------------------------------

  lemma Reciprocal2IsFloor(d: int, v: int)
    requires IsReciprocal2(d, v)
    ensures v == (B * B * B - 1) / d - B
  {
    QuotientIs(B * B * B - 1, d, v + B, B * B * B - 1 - (v + B) * d);
  }

  /** After the first stage `v` is the reciprocal of the high word with the low word beside it. */
  ghost predicate Stage1(d1: int, d0: int, v: int, p: int) {
    HALF <= d1 < B && 0 <= d0 < B && 0 <= v < B && B - d1 <= p < B && (v + B) * d1 == B * B - d0 - (B - p)
  }

  method FirstStage(d: U128) returns (v: Word, p: Word)
    requires d.h >= HALF
    ensures Stage1(d.h, d.l, v, p)
  {
    hide Reciprocal2by1;
    Reciprocal2by1IsExact(d.h);
    v := Reciprocal2by1(d.h);
    ghost var rho := B * B - (v + B) * d.h;
    Complement(d.h, v);
    p := Low(Low(d.h * v) + d.l);
    assert (v + B - 1) * d.h == (v + B) * d.h - d.h && (v + B - 2) * d.h == (v + B) * d.h - 2 * d.h;
    StillLarge(d.h, d.l, v);
    hide Low;
    if p < d.l {
      LowOf(v); LowIs(Low(d.h * v) + d.l, d.l - rho, 1);
      if p < d.h {
        LowIs(p - d.h, p - d.h + B, -1);
        LowOf(v - 1);
      } else {
        LowIs(d.h + d.h, 2 * d.h - B, 1);
        LowIs(p - Low(d.h + d.h), p - 2 * d.h + B, 0);
        LowOf(v - 2);
      }
      var small := p < d.h;
      v := Low(v - (if small then 1 else 2));
      p := Low(p - (if small then d.h else Low(d.h + d.h)));
    } else {
      assert d.l < rho by { if d.l >= rho { LowIs(Low(d.h * v) + d.l, d.l - rho, 1); } }
      LowIs(Low(d.h * v) + d.l, B - rho + d.l, 0);
    }
  }

  lemma Complement(d1: Word, v: Word)
    requires IsReciprocal(d1, v)
    ensures Low(d1 * v) == B - (B * B - (v + B) * d1)
  {
    var rho := B * B - (v + B) * d1;
    assert d1 * v == (v + B) * d1 - B * d1;
    LowIs(d1 * v, B - rho, B - d1 - 1);
  }

  /** The reciprocal may be lowered without going below zero. */
  lemma StillLarge(d1: Word, d0: Word, v: Word)
    requires IsReciprocal(d1, v)
    ensures B * B - (v + B) * d1 <= d0 ==> v >= 1
    ensures B * B - (v + B) * d1 + d1 <= d0 ==> v >= 2
  {
    Times(d1, B - 1, B - 1);
    assert (v + B) * d1 == v * d1 + B * d1;
    assert v == 1 ==> v * d1 == d1;
  }

  lemma Leftover(d1: Word, d0: Word, v: Word, p: Word)
    requires Stage1(d1, d0, v, p)
    ensures B * B * B - (v + B) * (d1 * B + d0) == B * (B - p) - v * d0
  {
    assert (v + B) * (d1 * B + d0) == (v + B) * d1 * B + (v + B) * d0;
    assert (v + B) * d0 == v * d0 + B * d0;
  }

  lemma CarryOut(p: Word, h: Word)
    ensures Low(p + h) < h <==> p + h >= B
    ensures p + h >= B ==> Low(p + h) == p + h - B
  {
    if p + h >= B { LowIs(p + h, p + h - B, 1); }
  }

  lemma Lowered(v: Word, d: int)
    ensures (v - 1 + B) * d == (v + B) * d - d && (v - 2 + B) * d == (v + B) * d - 2 * d
  {
  }

  lemma NotBelow(v: Word, d: int, x: int)
    requires HALF * B <= d < B * B && x >= 0 && B * B * B - (v + B) * d == -x
    ensures v >= 1 && (x >= d ==> v >= 2)
  {
    assert (v + B) * d == v * d + B * d;
    assert v == 1 ==> v * d == d;
  }

  /** The value when the sum carries: `x` is how much the product exceeds `B^3`. */
  lemma Corrected(d: U128, v: Word, x: int, below: bool)
    requires d.h >= HALF && B * B * B - (v + B) * Value(d) == -x && 0 <= x < B * B
    requires below <==> x < Value(d)
    ensures IsReciprocal2(Value(d), Low(v - (if below then 1 else 2)))
  {
    hide Low;
    var y := Value(d);
    LargeValue(d);
    NotBelow(v, y, x);
    Lowered(v, y);
    if below { LowOf(v - 1); } else { LowOf(v - 2); }
  }

  lemma LargeValue(d: U128)
    requires d.h >= HALF
    ensures HALF * B <= Value(d) < B * B && 2 * Value(d) >= B * B
  {
  }

  lemma SecondStage(d: U128, v: Word, p: Word)
    requires d.h >= HALF && Stage1(d.h, d.l, v, p)
    ensures var t := Umul128(v, d.l); var sum := Low(p + t.h);
            IsReciprocal2(Value(d), if sum < t.h then Low(v - (if Lt128(U128(sum, t.l), d) then 1 else 2)) else v)
  {
    hide Umul128, Low, Lt128, IsReciprocal2;
    UmulIsProduct(v, d.l);
    var t := Umul128(v, d.l);
    var x := Value(t) - B * (B - p);
    Leftover(d.h, d.l, v, p);
    CarryOut(p, t.h);
    var sum := Low(p + t.h);
    if sum < t.h {
      CompareIsOrder(U128(sum, t.l), d);
      Corrected(d, v, x, Lt128(U128(sum, t.l), d));
    } else {
      Uncorrected(d, v, p, x);
    }
  }

  /** Without a carry the value is exact. */
  lemma Uncorrected(d: U128, v: Word, p: Word, x: int)
    requires d.h >= HALF && Stage1(d.h, d.l, v, p) && B * B * B - (v + B) * Value(d) == -x
    requires -B * (B - p) <= x < 0
    ensures IsReciprocal2(Value(d), v)
  {
  }

  /** The exact reciprocal of a normalised double word. */
  method Reciprocal3by2(d: U128) returns (v: Word)
    requires d.h >= HALF
    ensures IsReciprocal2(Value(d), v)
  {
    hide Umul128, Stage1, Low, Lt128, IsReciprocal2;
    var p;
    v, p := FirstStage(d);
    SecondStage(d, v, p);
    var t := Umul128(v, d.l);
    var sum := Low(p + t.h);
    if sum < t.h { v := Low(v - (if Lt128(U128(sum, t.l), d) then 1 else 2)); }
  }

  // ---- Three words by two -----------------------------------------------------------------------------------------

  lemma Remains3by2(u2: int, u1: int, u0: int, d: int, v: int, q1: int, q0: int)
    requires q1 * B + q0 == (v + B) * u2 + u1
    ensures B * (u2 * B * B + u1 * B + u0 - (q1 + 1) * d)
            == (B * B * B - (v + B) * d) * u2 + u1 * (B * B - d) + B * u0 + (q0 - B) * d
  {
    assert (q1 * B + q0) * d == ((v + B) * u2 + u1) * d;
    assert ((v + B) * u2 + u1) * d == (v + B) * d * u2 + u1 * d by { Spread7(v + B, u2, u1, d); }
    assert (q1 * B + q0) * d == B * (q1 * d) + q0 * d;
    assert (B * B * B - (v + B) * d) * u2 == B * B * B * u2 - (v + B) * d * u2;
    assert (q1 + 1) * d == q1 * d + d;
    assert u1 * (B * B - d) == u1 * (B * B) - u1 * d;
    assert (q0 - B) * d == q0 * d - B * d;
  }

  lemma Below3by2(t: int, d: int, q0: int, rest: int)
    requires HALF * B <= d < B * B && 0 <= q0 < B && rest >= 0 && B * t == rest + (q0 - B) * d
    ensures t + d >= 0 && t >= B * q0 - B * B
  {
    Times(0, q0, d);
    assert (q0 - B) * d == q0 * d - B * d;
    Times(d, B * B, B - q0);
    assert (B - q0) * d == B * d - q0 * d;
  }

  /** The reciprocal of a divisor so large is zero. */
  lemma Above3by2Large(u2: int, u1: int, u0: int, d: int, v: int, q0: int, t: int)
    requires IsReciprocal2(d, v) && (B + 1) * d >= B * B * B
    requires 0 <= u2 < B && 0 <= u1 < B && 0 <= u0 < B && 0 <= q0 < B && u2 * B + u1 < d
    requires B * t == (B * B * B - (v + B) * d) * u2 + u1 * (B * B - d) + B * u0 + (q0 - B) * d
    ensures t < B * B - d || t < B * q0
  {
    if v >= 1 { Times(B + 1, v + B, d); }
    var g := B * B - d;
    assert (B * B * B - B * d) * u2 == g * (B * u2);
    assert g * (B * u2) + u1 * g == g * (u2 * B + u1);
    Times(u2 * B + u1, d - 1, g);
    assert (q0 - B) * d == q0 * d - B * d;
    assert g <= B - 1;
    assert g * (d - 1) == g * d - g;
    Times(g, B - 1, d);
    if t >= g && t >= B * q0 {
      Times(d, B * B, q0);
    }
  }

  lemma Above3by2Small(u2: int, u1: int, u0: int, d: int, v: int, q0: int, t: int)
    requires IsReciprocal2(d, v) && (B + 1) * d < B * B * B
    requires 0 <= u2 < B && 0 <= u1 < B && 0 <= u0 < B && 0 <= q0 < B && u2 * B + u1 < d
    requires B * t == (B * B * B - (v + B) * d) * u2 + u1 * (B * B - d) + B * u0 + (q0 - B) * d
    ensures t < B * B - d || t < B * q0
  {
    var g, rho := B * B - d, B * B * B - (v + B) * d;
    var x, y := rho * u2, u1 * g;
    FirstTerm(u2, u1, d, rho);
    SecondTerm(u1, d);
    assert (q0 - B) * d == q0 * d - B * d;
    SquareAbove(t, d, q0, q0 * d, x, y, u1 * d, u0);
  }

  lemma FirstTerm(u2: int, u1: int, d: int, rho: int)
    requires 0 <= rho <= d && 0 <= u2 && 0 <= u1 && u2 * B + u1 < d
    ensures B * (rho * u2) <= d * d - d - u1 * d
  {
    Times(rho, d, B * u2);
    Times(B * u2, d - 1 - u1, d);
    assert B * (rho * u2) == rho * (B * u2);
    assert (d - 1 - u1) * d == d * d - d - u1 * d;
  }

  lemma SecondTerm(u1: int, d: int)
    requires 0 <= u1 < B && (B + 1) * d < B * B * B
    ensures B * (u1 * (B * B - d)) - u1 * d <= (B - 1) * (B * B * B - (B + 1) * d)
  {
    Times(u1, B - 1, B * B * B - (B + 1) * d);
    assert u1 * (B * B * B - (B + 1) * d) == B * (u1 * (B * B - d)) - u1 * d;
  }

  /** A remainder above both bounds would make `B^2 t` too large. */
  lemma SquareAbove(t: int, d: int, q0: int, z: int, x: int, y: int, w: int, u0: int)
    requires HALF * B <= d < B * B && 0 <= q0 < B && z == q0 * d && 0 <= u0 < B
    requires B * x <= d * d - d - w && B * y - w <= (B - 1) * (B * B * B - (B + 1) * d)
    requires B * t == x + y + B * u0 + z - B * d
    ensures t < B * B - d || t < B * q0
  {
    var g := B * B - d;
    if t >= g && t >= B * q0 {
      SquareBelow(t, d, q0, g);
      SquareOf(B * B, d);
    }
  }

  lemma SquareBelow(t: int, d: int, q0: int, g: int)
    requires d >= 0 && g >= 0 && d + g == B * B && t >= g && t >= B * q0
    ensures B * B * t >= B * (q0 * d) + g * g
  {
    Times(B * q0, t, d);
    Times(g, t, g);
    assert t * d + t * g == t * (d + g);
    assert B * q0 * d == B * (q0 * d);
  }

  lemma Estimate3by2(u2: int, u1: int, u0: int, d: int, v: int, q1: int, q0: int)
    requires IsReciprocal2(d, v) && 0 <= u2 < B && 0 <= u1 < B && 0 <= u0 < B && 0 <= q0 < B && u2 * B + u1 < d
    requires q1 * B + q0 == (v + B) * u2 + u1
    ensures var t := u2 * B * B + u1 * B + u0 - (q1 + 1) * d;
            t + d >= 0 && t >= B * q0 - B * B && (t < B * B - d || t < B * q0)
  {
    var t := u2 * B * B + u1 * B + u0 - (q1 + 1) * d;
    Remains3by2(u2, u1, u0, d, v, q1, q0);
    var rho := B * B * B - (v + B) * d;
    Times(0, rho, u2);
    Times(0, u1, B * B - d);
    Below3by2(t, d, q0, rho * u2 + u1 * (B * B - d) + B * u0);
    if (B + 1) * d >= B * B * B {
      Above3by2Large(u2, u1, u0, d, v, q0, t);
    } else {
      Above3by2Small(u2, u1, u0, d, v, q0, t);
    }
  }

  lemma NoOverflow3by2(u2: int, u1: int, d: int, v: int)
    requires IsReciprocal2(d, v) && 0 <= u2 && 0 <= u1 && u2 * B + u1 < d
    ensures 0 <= (v + B) * u2 + u1 < B * B
  {
    var w := v + B;
    Times(u2 * B + u1, d - 1, w);
    assert (u2 * B + u1) * w == B * (w * u2) + u1 * w;
    assert (d - 1) * w == w * d - w;
    Times(B, w, u1);
    Times(0, u2, w);
  }

  lemma Product3by2(u2: Word, u1: Word, d: U128, v: Word)
    requires IsReciprocal2(Value(d), v) && u2 * B + u1 < Value(d)
    ensures Value(Add128(Umul128(v, u2), U128(u2, u1))) == (v + B) * u2 + u1
  {
    UmulIsProduct(v, u2);
    AddWraps(Umul128(v, u2), U128(u2, u1));
    NoOverflow3by2(u2, u1, Value(d), v);
    hide Umul128, Add128;
    assert v * u2 + Value(U128(u2, u1)) == (v + B) * u2 + u1;
    Remainder(v * u2 + Value(U128(u2, u1)), 0, v * u2 + Value(U128(u2, u1)));
  }

  /** The first remainder, modulo `B^2`. */
  function LeftOver(u1: Word, u0: Word, d: U128, q: Word): U128 {
    Sub128(Sub128(U128(Low(u1 - Low(q * d.h)), u0), Umul128(d.l, q)), d)
  }

  lemma LeftOver3by2(u2: Word, u1: Word, u0: Word, d: U128, q: Word)
    ensures Value(LeftOver(u1, u0, d, q)) == (u2 * B * B + u1 * B + u0 - (q + 1) * Value(d)) % (B * B)
  {
    var a := U128(Low(u1 - Low(q * d.h)), u0);
    var m := Umul128(d.l, q);
    UmulIsProduct(d.l, q);
    SubWraps(a, m);
    SubWraps(Sub128(a, m), d);
    LowCong(u1 - Low(q * d.h), u1 - q * d.h, q * d.h / B);
    var h := u1 - q * d.h;
    assert Value(a) == h * B + u0 - h / B * (B * B);
    var t := u2 * B * B + u1 * B + u0 - (q + 1) * Value(d);
    assert (q + 1) * Value(d) == q * d.h * B + d.l * q + Value(d) by { OneMore(q, d.h, d.l); }
    hide Umul128, Sub128;
    var s := Value(Sub128(a, m));
    Twice(Value(a) - Value(m), s, Value(d), t, h / B + u2);
  }

  lemma OneMore(q: int, h: int, l: int)
    ensures (q + 1) * (h * B + l) == q * h * B + l * q + (h * B + l)
  {
  }

  lemma Twice(x: int, s: int, d: int, t: int, k: int)
    requires s == x % (B * B) && t == x - d + k * (B * B)
    ensures (s - d) % (B * B) == t % (B * B)
  {
    Congruent(s - d, t, -(x / (B * B)) - k);
  }

  lemma Congruent(x: int, y: int, k: int)
    requires x == y + k * (B * B)
    ensures x % (B * B) == y % (B * B)
  {
    Remainder(x, y / (B * B) + k, y % (B * B));
  }

  lemma SignedWide(t: int)
    requires -(B * B) <= t < B * B
    ensures t % (B * B) == if t < 0 then t + B * B else t
  {
    Remainder(t, if t < 0 then -1 else 0, if t < 0 then t + B * B else t);
  }

  lemma WideAbove(r: U128, q0: Word)
    ensures r.h >= q0 <==> Value(r) >= B * q0
  {
    if r.h >= q0 { Times(q0, r.h, B); } else { Times(r.h + 1, q0, B); }
  }

  lemma NotLargest3by2(u2: Word, u1: Word, u0: Word, d: U128, q1: Word)
    requires u2 * B + u1 < Value(d)
    ensures u2 * B * B + u1 * B + u0 - (q1 + 1) * Value(d) >= 0 ==> q1 + 1 < B
    ensures u2 * B * B + u1 * B + u0 - (q1 + 1) * Value(d) >= Value(d) ==> q1 + 2 < B
  {
    var x := Value(d);
    Multiples(q1, x);
    if q1 + 1 == B { assert (q1 + 1) * x == B * x; }
    if q1 + 2 == B { assert (q1 + 2) * x == B * x; }
  }

  /** What the first correction leaves: it adds the divisor back whenever the remainder was negative. */
  lemma FirstCorrection(q0: Word, r0: U128, d: U128, t: int)
    requires t + Value(d) >= 0 && t >= B * q0 - B * B && (t < B * B - Value(d) || t < B * q0)
    requires Value(r0) == t % (B * B)
    ensures r0.h >= q0 ==> Value(Add128(r0, d)) == t + Value(d)
    ensures r0.h < q0 ==> t >= 0 && Value(r0) == t
    ensures t < B * B && (r0.h >= q0 ==> t < B * B - Value(d))
  {
    hide Add128;
    SignedWide(t);
    WideAbove(r0, q0);
    if r0.h >= q0 {
      AddWraps(r0, d);
      SignedWide(t + Value(d));
      WrapsBack(Value(r0), Value(d), t);
    }
  }

  lemma SecondCorrection(r: U128, d: U128)
    ensures !Lt128(r, d) <==> Value(r) >= Value(d)
    ensures Value(r) >= Value(d) ==> Value(Sub128(r, d)) == Value(r) - Value(d)
  {
    hide Sub128, Lt128;
    CompareIsOrder(r, d);
    SubWraps(r, d);
    if Value(r) >= Value(d) { SignedWide(Value(r) - Value(d)); }
  }

  /** The quotient goes down and up with wrap-around. */
  lemma QuotientSteps(q: Word)
    ensures Low(Low(q - 1) + 1) == q
    ensures q + 1 < B ==> Low(q + 1) == q + 1 && Low(Low(Low(q - 1) + 1) + 1) == q + 1
    ensures q + 2 < B ==> Low(Low(q + 1) + 1) == q + 2
  {
  }

  /** The two corrections, on two words. */
  method Correct3by2(q1: Word, q0: Word, r0: U128, d: U128, ghost t: int) returns (quotient: Word, r: U128)
    requires d.h >= HALF && t + Value(d) >= 0 && t >= B * q0 - B * B && (t < B * B - Value(d) || t < B * q0)
    requires Value(r0) == t % (B * B) && (t >= 0 ==> q1 + 1 < B) && (t >= Value(d) ==> q1 + 2 < B)
    ensures Value(r) < Value(d)
    ensures (quotient == q1 && Value(r) == t + Value(d)) || (quotient == q1 + 1 && Value(r) == t)
            || (quotient == q1 + 2 && Value(r) == t - Value(d))
  {
    hide Add128, Sub128, Lt128, Low, Value;
    LargeValue(d);
    FirstCorrection(q0, r0, d, t);
    QuotientSteps(q1);
    var q: int := q1;
    r := r0;
    if r.h >= q0 {
      q := Low(q - 1);
      r := Add128(r, d);
    }
    SecondCorrection(r, d);
    if !Lt128(r, d) {
      q := Low(q + 1);
      r := Sub128(r, d);
    }
    quotient := Low(q + 1);
  }

  lemma WrapsBack(r: int, d: int, t: int)
    requires r == t % (B * B) && -(B * B) <= t + d < B * B
    ensures (r + d) % (B * B) == (t + d) % (B * B)
  {
    Congruent(r + d, t + d, -(t / (B * B)));
  }

  lemma NormalisedWide(d: U128, v: Word)
    requires IsReciprocal2(Value(d), v)
    ensures d.h >= HALF
  {
  }

  lemma Wide(x: U128)
    ensures Value(x) == x.h * B + x.l
  {
  }

  lemma Ready3by2(u2: Word, u1: Word, u0: Word, d: U128, v: Word)
    requires u2 * B + u1 < Value(d) && IsReciprocal2(Value(d), v)
    ensures var q := Add128(Umul128(v, u2), U128(u2, u1));
            var t := u2 * B * B + u1 * B + u0 - (q.h + 1) * Value(d);
            && d.h >= HALF && t + Value(d) >= 0 && t >= B * q.l - B * B && (t < B * B - Value(d) || t < B * q.l)
            && Value(LeftOver(u1, u0, d, q.h)) == t % (B * B)
            && (t >= 0 ==> q.h + 1 < B) && (t >= Value(d) ==> q.h + 2 < B)
  {
    hide Umul128, Add128, LeftOver, Value, IsReciprocal2;
    var q := Add128(Umul128(v, u2), U128(u2, u1));
    NormalisedWide(d, v);
    Wide(q);
    Product3by2(u2, u1, d, v);
    Estimate3by2(u2, u1, u0, Value(d), v, q.h, q.l);
    LeftOver3by2(u2, u1, u0, d, q.h);
    NotLargest3by2(u2, u1, u0, d, q.h);
  }

  method Divmod3by2(u2: Word, u1: Word, u0: Word, d: U128, v: Word) returns (quotient: Word, r: U128)
    requires u2 * B + u1 < Value(d) && IsReciprocal2(Value(d), v)
    ensures u2 * B * B + u1 * B + u0 == quotient * Value(d) + Value(r) && Value(r) < Value(d)
  {
    hide Umul128, Add128, Sub128, LeftOver, Value, IsReciprocal2;
    Ready3by2(u2, u1, u0, d, v);
    var q := Add128(Umul128(v, u2), U128(u2, u1));
    Multiples(q.h, Value(d));
    ghost var t := u2 * B * B + u1 * B + u0 - (q.h + 1) * Value(d);
    quotient, r := Correct3by2(q.h, q.l, LeftOver(u1, u0, d, q.h), d, t);
  }

  // ---- Two words by two --------------------------------------------------------------------------------------------

  /** Both are shifted by the same number of bits; the quotient stays, the remainder is shifted. */
  lemma Unshift(x: int, y: int, p: int, q: int, r: int) returns (k: int)
    requires p >= 1 && x * p == q * (y * p) + r && 0 <= r < y * p
    ensures r / p == k && x == q * y + k && 0 <= k < y
  {
    k := x - q * y;
    assert k * p == r by { assert q * (y * p) == q * y * p; }
    if k < 0 { Times(k, -1, p); }
    if k >= y { Times(y, k, p); }
    QuotientIs(r, p, k, 0);
  }

  /** The word shifted out at the top. */
  function ShiftedOut(x: U128, s: nat): Word
    requires s < 64
  {
    if s != 0 then Down(x.h, 64 - s) else 0
  }

  lemma ReadyByWord(x: U128, y: Word)
    requires y > 0
    ensures var s := Clz(y);
            && s < 64 && 1 <= Pow2(s) <= HALF && Up(y, s) == y * Pow2(s) && Up(y, s) >= HALF
            && IsReciprocal(Up(y, s), Reciprocal2by1(Up(y, s))) && ShiftedOut(x, s) < Up(y, s)
            && Value(x) * Pow2(s) == ShiftedOut(x, s) * (B * B) + Value(Shl(x, s))
  {
    hide Shl, Reciprocal2by1, IsReciprocal;
    var s := Clz(y);
    ClzIsShort(y);
    ClzNormalises(y);
    ShlShort(x, s);
    assert ShiftedOut(x, s) == Down(x.h, 64 - s) by { if s == 0 { Pow64(); } }
    assert Up(y, s) == y * Pow2(s) by { LowOf(y * Pow2(s)); }
    SmallPower(s);
    Times(1, y, Pow2(s));
    Reciprocal2by1IsExact(Up(y, s));
  }

  lemma JoinedByWord(x: U128, y: Word, p: int, o: Word, x1: U128, h: Word, hr: Word, l: Word, lr: Word)
    requires y > 0 && p >= 1 && Value(x) * p == o * (B * B) + Value(x1) && 0 <= lr < y * p
    requires o * B + x1.h == h * (y * p) + hr && hr * B + x1.l == l * (y * p) + lr
    ensures 0 <= lr / p < y && Value(x) == Value(U128(h, l)) * y + lr / p
  {
    TwoSteps(o, x1.h, x1.l, h, hr, l, lr, y * p);
    var k := Unshift(Value(x), y, p, h * B + l, lr);
  }

  /** Division by one word: twice two words by one. */
  method DivideByWord(x: U128, y: Word) returns (quotient: U128, remainder: Word)
    requires y > 0
    ensures Value(x) == Value(quotient) * y + remainder && remainder < y
  {
    hide Shl, Up, Clz, Reciprocal2by1, IsReciprocal, ShiftedOut, Pow2;
    ReadyByWord(x, y);
    var s := Clz(y);
    var o, x1, y1 := ShiftedOut(x, s), Shl(x, s), Up(y, s);
    var v := Reciprocal2by1(y1);
    var h, hr := Divmod2by1(U128(o, x1.h), y1, v);
    var l, lr := Divmod2by1(U128(hr, x1.l), y1, v);
    JoinedByWord(x, y, Pow2(s), o, x1, h, hr, l, lr);
    quotient := U128(h, l);
    remainder := lr / Pow2(s);
  }

  lemma SmallPower(s: nat)
    requires s < 64
    ensures Pow2(s) <= HALF
  {
    Pow64();
    PowSum(s, 63 - s);
    PowSum(1, 63);
    Times(1, Pow2(63 - s), Pow2(s));
  }

  lemma TwoSteps(o: int, h: int, l: int, qh: int, rh: int, ql: int, rl: int, y: int)
    requires o * B + h == qh * y + rh && rh * B + l == ql * y + rl
    ensures o * (B * B) + (h * B + l) == (qh * B + ql) * y + rl
  {
    assert (qh * B + ql) * y == qh * y * B + ql * y;
  }

  /** divmod_u128: quotient and remainder of every division but by zero. */
  method DivmodU128(x: U128, y: U128) returns (quotient: U128, remainder: U128)
    requires Value(y) > 0
    ensures Value(x) == Value(quotient) * Value(y) + Value(remainder) && Value(remainder) < Value(y)
  {
    if y.h == 0 {
      var r;
      quotient, r := DivideByWord(x, y.l);
      return quotient, U128(0, r);
    }
    if y.h > x.h {
      CompareIsOrder(x, y);
      return U128(0, 0), x;
    }
    var s := Clz(y.h);
    if s == 0 {
      CompareIsOrder(x, y);
      SubWraps(x, y);
      var q := y.h < x.h || y.l <= x.l;
      assert y.h >= HALF by { ClzNormalises(y.h); }
      hide Sub128;
      if q { Remainder(Value(x) - Value(y), 0, Value(x) - Value(y)); }
      return U128(0, if q then 1 else 0), if q then Sub128(x, y) else x;
    }
    quotient, remainder := DivideNormalised(x, y, s);
  }

  /** The last branch: three words by two. */
  method DivideNormalised(x: U128, y: U128, s: nat) returns (quotient: U128, remainder: U128)
    requires y.h > 0 && s == Clz(y.h) && s > 0
    ensures Value(x) == Value(quotient) * Value(y) + Value(remainder) && Value(remainder) < Value(y)
  {
    ClzIsShort(y.h);
    ClzNormalises(y.h);
    SmallPower(s);
    ShlShort(x, s);
    ShlShort(y, s);
    var o := Down(x.h, 64 - s);
    var x1 := Shl(x, s);
    var y1 := Shl(y, s);
    Normalised(y, s);
    hide Shl, Down, Clz, Pow2;
    var v := Reciprocal3by2(y1);
    Times(o, Pow2(s) - 1, B);
    var q, r := Divmod3by2(o, x1.h, x1.l, y1, v);
    ghost var k := Unshift(Value(x), Value(y), Pow2(s), q, Value(r));
    ShrDivides(r, s);
    quotient := U128(0, q);
    remainder := Shr(r, s);
  }

  lemma Normalised(y: U128, s: nat)
    requires y.h > 0 && s == Clz(y.h) && 0 < s < 64
    ensures Value(Shl(y, s)) == Value(y) * Pow2(s) && Shl(y, s).h >= HALF
  {
    ClzNormalises(y.h);
    ShlShort(y, s);
    var lo := Cut(y.h, s);
    var p := Pow2(s);
    hide Shl, Clz, Pow2;
    assert Value(y) * p == y.h * p * B + y.l * p by { Distribute(y.h, y.l, p); }
    Times(HALF, y.h * p, B);
    Times(0, y.l, p);
  }
}
