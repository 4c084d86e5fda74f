/** The reciprocal of a normalised word by Newton's iteration, from eleven bits to sixty-five. */
module Reciprocals {
  import opened Words
  import opened Shifts

  /** floor((B^2 - 1) / d) - B, said without division. */
  ghost predicate IsReciprocal(d: int, v: int) {
    HALF <= d < B && 0 <= v < B && 1 <= B * B - (v + B) * d <= d
  }

  lemma ReciprocalIsFloor(d: int, v: int)
    requires IsReciprocal(d, v)
    ensures v == (B * B - 1) / d - B
  {
    QuotientIs(B * B - 1, d, v + B, B * B - 1 - (v + B) * d);
  }

  // ---- The first approximation ---------------------------------------------------------------------------

  const P13 := 0x2000
  const P24 := 0x100_0000
  const P31 := 0x8000_0000
  const P40 := 0x100_0000_0000
  const P47 := 0x8000_0000_0000
  const P50 := 0x4_0000_0000_0000
  const P55 := 0x80_0000_0000_0000
  const P60 := 0x1000_0000_0000_0000

  /** How far the first approximation may be off. */
  const OFF0 := 1278 * P31

  lemma Start(d: int, d9: int, d40: int, v0: int)
    requires HALF <= d < B && d9 == d / P55 && d40 == d / P24 + 1 && v0 == 0x7fd00 / d9
    ensures 256 <= d9 <= 511 && 1024 <= v0 <= 2045 && P40 / 2 < d40 <= P40 && P24 * (d40 - 1) <= d < P24 * d40
    ensures -OFF0 <= P50 - v0 * d40 <= OFF0
  {
    var f := d / P24;
    var r := f - d9 * P31;
    assert 0 <= r < P31;
    var r0 := 0x7fd00 - v0 * d9;
    assert 0 <= r0 < d9;
    StartProduct(v0, d9, r, r0);
  }

  lemma StartProduct(v0: int, d9: int, r: int, r0: int)
    requires 256 <= d9 <= 511 && 0 <= r < P31 && 0 <= r0 < d9 && v0 * d9 == 0x7fd00 - r0
    ensures 1024 <= v0 <= 2045 && -OFF0 <= P50 - v0 * (d9 * P31 + r + 1) <= OFF0
  {
    if v0 < 1024 { Times(v0, 1023, d9); }
    if v0 > 2045 { Times(2046, v0, d9); }
    assert v0 * (d9 * P31 + r + 1) == v0 * d9 * P31 + v0 * (r + 1);
    Times(0, v0, r + 1);
    Times(r + 1, P31, v0);
  }

  // ---- The first step ------------------------------------------------------------------------------------------

  /** The error after the step is the square of the one before, and what rounding adds. */
  lemma Step1Error(v0: int, d40: int, v1: int, rest: int)
    requires P40 * v1 == 2 * P50 * v0 - (v0 * v0 * d40 - rest) - P40
    ensures P40 * (P60 - v1 * d40) == (P50 - v0 * d40) * (P50 - v0 * d40) + (P40 - rest) * d40
  {
    var p := v0 * d40;
    assert P40 * v1 * d40 == (2 * P50 * v0 - (v0 * v0 * d40 - rest) - P40) * d40;
    Spread1(v0, d40, rest);
    assert P40 * (v1 * d40) == P40 * v1 * d40;
    SquareOf(P50, p);
  }

  lemma Spread1(v0: int, d40: int, rest: int)
    ensures (2 * P50 * v0 - (v0 * v0 * d40 - rest) - P40) * d40
            == 2 * P50 * (v0 * d40) - v0 * d40 * (v0 * d40) + (rest - P40) * d40
  {
    assert 2 * P50 * v0 * d40 == 2 * P50 * (v0 * d40);
    assert v0 * v0 * d40 * d40 == v0 * d40 * (v0 * d40);
    Spread3(2 * P50 * v0, v0 * v0 * d40, rest - P40, d40);
  }

  lemma Spread3(a: int, b: int, c: int, x: int)
    ensures (a - (b - c)) * x == a * x - b * x + c * x
  {
  }

  lemma SquareOf(a: int, b: int)
    ensures (a - b) * (a - b) == a * a - 2 * a * b + b * b
  {
  }

  lemma SquareAtMost(a: int, m: int)
    requires -m <= a <= m
    ensures 0 <= a * a <= m * m
  {
    assert m * m - a * a == (m - a) * (m + a);
    assert (m - a) * (m + a) >= 0;
  }

  /** What is known of the second approximation. */
  const OFF1 := 1895428 * 0x40_0000

  lemma Step1(v0: int, d40: int, v1: int)
    requires 1024 <= v0 <= 2045 && P40 / 2 < d40 <= P40 && -OFF0 <= P50 - v0 * d40 <= OFF0
    requires v1 == v0 * 0x800 - v0 * v0 * d40 / P40 - 1
    ensures 0 < P60 - v1 * d40 <= OFF1 && 0 < v1 < 0x20_0000 && 0 <= v0 * v0 * d40 < B
  {
    var a := v0 * v0 * d40;
    SquareAtMost(v0, 2045);
    Times(v0 * v0, 2045 * 2045, d40);
    Times(0, v0 * v0, d40);
    var rest := a - a / P40 * P40;
    assert 0 <= rest < P40;
    Step1Error(v0, d40, v1, rest);
    var e0 := P50 - v0 * d40;
    SquareAtMost(e0, OFF0);
    Times(1, P40 - rest, d40);
    Times(P40 - rest, P40, d40);
    var e1 := P60 - v1 * d40;
    assert P40 * e1 == e0 * e0 + (P40 - rest) * d40;
    SmallFactor(v1, d40, P60 - e1);
  }

  lemma SmallFactor(v1: int, d40: int, p: int)
    requires P40 / 2 < d40 && v1 * d40 == p && 0 < p < P60
    ensures 0 < v1 < 0x20_0000
  {
    if v1 <= 0 { Times(v1, 0, d40); }
    if v1 >= 0x20_0000 { Times(0x20_0000, v1, d40); }
  }

  // ---- The second step ----------------------------------------------------------------------------------------------


  /** `e1` and `rest` are the error before the step and the remainder of its rounding. */
  lemma Step2Error(d: int, d40: int, v1: int, e1: int, v2: int, rest: int)
    requires v1 * d40 == P60 - e1 && P47 * v2 == v1 * (P60 + e1) - rest
    ensures var eta := P24 * d40 - d;
            P47 * (2 * H * B - v2 * d) == P24 * (e1 * e1) + eta * v1 * (P60 + e1) + rest * d
  {
    var eta := P24 * d40 - d;
    var w := P60 + e1;
    assert P47 * v2 * d == (v1 * w - rest) * d;
    assert P47 * (v2 * d) == P47 * v2 * d;
    assert (v1 * w - rest) * d == v1 * d * w - rest * d by { Spread2(v1, w, rest, d); }
    assert v1 * d == P24 * (P60 - e1) - eta * v1 by { Spread4(v1, d40, eta); }
    assert v1 * d * w == P24 * ((P60 - e1) * w) - eta * v1 * w by { Spread5(P60 - e1, eta * v1, w); }
    Conjugates(P60, e1);
  }

  lemma Spread2(v1: int, w: int, rest: int, d: int)
    ensures (v1 * w - rest) * d == v1 * d * w - rest * d
  {
    assert v1 * w * d == v1 * d * w;
  }

  lemma Spread4(v1: int, d40: int, eta: int)
    ensures v1 * (P24 * d40 - eta) == P24 * (v1 * d40) - eta * v1
  {
  }

  lemma Spread5(a: int, b: int, w: int)
    ensures (P24 * a - b) * w == P24 * (a * w) - b * w
  {
  }

  lemma Conjugates(a: int, b: int)
    ensures (a - b) * (a + b) == a * a - b * b
  {
  }

  const P34 := 0x4_0000_0000

  lemma Step2(d: int, d40: int, v1: int, v2: int)
    requires HALF <= d < B && P40 / 2 < d40 <= P40 && P24 * (d40 - 1) <= d < P24 * d40
    requires 0 < P60 - v1 * d40 <= OFF1 && 0 < v1 < 0x20_0000
    requires v2 == v1 * P13 + v1 * (P60 - v1 * d40) / P47
    ensures 0 <= v1 * (P60 - v1 * d40) < B
    ensures 0 < 2 * H * B - v2 * d < HALF + d && 0 < v2 < P34
  {
    var e1 := P60 - v1 * d40;
    Times(v1, 0x20_0000, e1);
    Times(0, v1, e1);
    var a := v1 * e1;
    var rest := a - a / P47 * P47;
    assert 0 <= rest < P47;
    assert P47 * v2 == v1 * (P60 + e1) - rest;
    Step2Error(d, d40, v1, e1, v2, rest);
    Step2Bound(d, P24 * d40 - d, v1, e1, rest);
    var e2 := 2 * H * B - v2 * d;
    if v2 <= 0 { Times(v2, 0, d); }
    if v2 >= P34 { Times(P34, v2, d); }
  }

  lemma Step2Bound(d: int, eta: int, v1: int, e1: int, rest: int)
    requires HALF <= d < B && 1 <= eta <= P24 && 0 < e1 <= OFF1 && 0 < v1 < 0x20_0000 && 0 <= rest < P47
    ensures 0 < P24 * (e1 * e1) + eta * v1 * (P60 + e1) + rest * d < P47 * (HALF + d)
  {
    SquareAtMost(e1, OFF1);
    Times(1, e1, e1);
    Times(eta, P24, v1);
    Times(0, eta, v1);
    Times(eta * v1, P24 * 0x20_0000, P60 + e1);
    Times(0, eta * v1, P60 + e1);
    Times(rest, P47 - 1, d);
    Times(0, rest, d);
  }

  // ---- The third step -----------------------------------------------------------------------------------------------

  /** `half` is half the error before the step, rounded down. */
  lemma Step3Error(d: int, v2: int, e2: int, half: int, v3: int, rest: int)
    requires v2 * d == 2 * H * B - e2 && 2 * B * v3 == 2 * B * P31 * v2 + v2 * half - rest
    ensures 2 * B * (B * B - v3 * d) == H * B * (e2 - 2 * half) + e2 * half + rest * d
  {
    assert 2 * B * v3 * d == (2 * B * P31 * v2 + v2 * half - rest) * d;
    assert 2 * B * v3 * d == 2 * B * (v3 * d);
    Spread6(2 * B * P31 * v2, v2 * half, rest, d);
    assert 2 * B * P31 * v2 * d == H * B * (v2 * d);
    assert v2 * half * d == v2 * d * half;
    assert v2 * d * half == 2 * H * B * half - e2 * half;
  }

  lemma Spread6(a: int, b: int, c: int, d: int)
    ensures (a + b - c) * d == a * d + b * d - c * d
  {
  }

  lemma Step3(d: int, v2: int, half: int, v3: int)
    requires HALF <= d < B && 0 < v2 < P34 && 0 < 2 * H * B - v2 * d < HALF + d
    requires half == (2 * H * B - v2 * d) / 2 && v3 == v2 * P31 + v2 * half / (2 * B)
    ensures 0 <= half < B && 0 < B * B - v3 * d < 2 * d && B <= v3 < 2 * B && 0 <= v2 * half
  {
    var e2 := 2 * H * B - v2 * d;
    Times(0, v2, half);
    var a := v2 * half;
    var rest := a - a / (2 * B) * (2 * B);
    assert 0 <= rest < 2 * B;
    Step3Error(d, v2, e2, half, v3, rest);
    Step3Bound(d, e2, half, rest);
    var e3 := B * B - v3 * d;
    if v3 >= 2 * B { Times(2 * B, v3, d); }
    if v3 < B { Times(v3, B - 1, d); Times(d, B - 1, B - 1); }
  }

  lemma Step3Bound(d: int, e2: int, half: int, rest: int)
    requires HALF <= d < B && 0 < e2 < HALF + d && half == e2 / 2 && 0 <= rest < 2 * B
    ensures 0 < H * B * (e2 - 2 * half) + e2 * half + rest * d < 2 * B * (2 * d)
  {
    Times(rest, 2 * B - 1, d);
    Times(0, rest, d);
    assert e2 < 2 * d && half < d;
    Times(e2, HALF + B, half);
    Times(0, e2, half);
    if half == 0 { assert e2 == 1; } else { Times(1, e2, half); }
  }

  // ---- The last step ------------------------------------------------------------------------------------------------

  lemma Step4(d: int, v3: int, v4: int)
    requires HALF <= d < B && B <= v3 < 2 * B && 0 < B * B - v3 * d < 2 * d
    requires v4 == v3 - ((v3 + 1) * d / B - B) - B
    ensures IsReciprocal(d, v4)
  {
    var e3 := B * B - v3 * d;
    assert (v3 + 1) * d == B * B - e3 + d;
    if e3 <= d {
      assert (v3 + 1) * d / B == B;
      assert v4 == v3 - B;
    } else {
      assert (v3 + 1) * d / B == B - 1;
      assert v4 == v3 + 1 - B;
      if v4 == B { Times(HALF, d, 2 * B); }
    }
  }

  // ---- The function, word by word -----------------------------------------------------------------------------------

  function V0(d: Word): Word
    requires d >= HALF
  {
    0x7fd00 / (d / P55)
  }

  function V1(v0: Word, d40: Word): Word {
    Low(Low(Low(v0 * 0x800) - Low(Low(v0 * v0) * d40) / P40) - 1)
  }

  function V2(v1: Word, d40: Word): Word {
    Low(Low(v1 * P13) + Low(v1 * Low(P60 - Low(v1 * d40))) / P47)
  }

  /** Half the error of `v2`. The sum `d + 1` wraps to zero for the largest `d`. */
  function Half(v2: Word, d: Word): Word {
    Low((if d % 2 == 1 then v2 / 2 else 0) - Low(v2 * (Low(d + 1) / 2)))
  }

  function V3(v2: Word, e: Word): Word { Low(Low(v2 * P31) + Umul128(v2, e).h / 2) }

  function V4(v3: Word, d: Word): Word { Low(Low(v3 - Add128(Umul128(v3, d), U128(0, d)).h) - d) }

  function Reciprocal2by1(d: Word): Word
    requires d >= HALF
  {
    var d40 := Low(d / P24 + 1);
    var v2 := V2(V1(V0(d), d40), d40);
    V4(V3(v2, Half(v2, d)), d)
  }

  lemma LowOf(x: int)
    requires 0 <= x < B
    ensures Low(x) == x
  {
  }

  lemma V1Exact(v0: Word, d40: Word)
    requires 1024 <= v0 <= 2045 && P40 / 2 < d40 <= P40 && -OFF0 <= P50 - v0 * d40 <= OFF0
    ensures V1(v0, d40) == v0 * 0x800 - v0 * v0 * d40 / P40 - 1
  {
    Step1(v0, d40, v0 * 0x800 - v0 * v0 * d40 / P40 - 1);
    SquareAtMost(v0, 2045);
    LowOf(v0 * v0);
    LowOf(v0 * v0 * d40);
    LowOf(v0 * 0x800);
    hide Low;
    LowOf(v0 * 0x800 - v0 * v0 * d40 / P40);
    LowOf(v0 * 0x800 - v0 * v0 * d40 / P40 - 1);
  }

  lemma V2Exact(v1: Word, d40: Word, d: Word)
    requires HALF <= d < B && P40 / 2 < d40 <= P40 && P24 * (d40 - 1) <= d < P24 * d40
    requires 0 < P60 - v1 * d40 <= OFF1 && 0 < v1 < 0x20_0000
    ensures V2(v1, d40) == v1 * P13 + v1 * (P60 - v1 * d40) / P47
  {
    var e1 := P60 - v1 * d40;
    Step2(d, d40, v1, v1 * P13 + v1 * e1 / P47);
    hide Low;
    LowOf(v1 * d40);
    LowOf(e1);
    LowOf(v1 * e1);
    LowOf(v1 * P13);
    LowOf(v1 * P13 + v1 * e1 / P47);
  }

  lemma HalfExact(v2: Word, d: Word)
    requires HALF <= d < B - 1 && 0 < v2 < P34 && 0 < 2 * H * B - v2 * d < HALF + d
    ensures Half(v2, d) == (2 * H * B - v2 * d) / 2
  {
    var e2 := 2 * H * B - v2 * d;
    LowOf(d + 1);
    var d63 := (d + 1) / 2;
    var m := v2 * d63;
    if d % 2 == 0 {
      assert v2 * d == 2 * m by { Doubled(v2, d, d63, 0); }
      LowIs(0 - Low(m), e2 / 2, -H + m / B);
    } else {
      assert v2 * d == 2 * m - v2 by { Doubled(v2, d, d63, 1); }
      HalfOdd(v2, e2, m);
      LowIs(v2 / 2 - Low(m), e2 / 2, -H + m / B);
    }
  }

  lemma Doubled(v: int, d: int, k: int, c: int)
    requires d == 2 * k - c
    ensures v * d == 2 * (v * k) - c * v
  {
  }

  lemma HalfOdd(v2: int, e2: int, m: int)
    requires e2 == 2 * H * B - 2 * m + v2 && v2 > 0 && e2 > 0
    ensures e2 / 2 == H * B - m + v2 / 2
  {
  }

  lemma V3Exact(v2: Word, e: Word)
    requires B <= v2 * P31 + v2 * e / (2 * B) < 2 * B
    ensures V3(v2, e) == v2 * P31 + v2 * e / (2 * B) - B
  {
    UmulIsProduct(v2, e);
    var u := Umul128(v2, e);
    assert u.h / 2 == v2 * e / (2 * B) by { HighHalf(u.h, u.l); }
    hide Umul128;
    var w := v2 * P31;
    LowIs(Low(w) + u.h / 2, w + u.h / 2 - B, 1 - w / B);
  }

  lemma HighHalf(h: Word, l: Word)
    ensures h / 2 == (h * B + l) / (2 * B)
  {
  }

  lemma V4High(v3: Word, d: Word)
    ensures Add128(Umul128(v3, d), U128(0, d)).h == (v3 + 1) * d / B && (v3 + 1 + B) * d / B == (v3 + 1) * d / B + d
  {
    UmulIsProduct(v3, d);
    AddWraps(Umul128(v3, d), U128(0, d));
    var r := Add128(Umul128(v3, d), U128(0, d));
    hide Umul128, Add128;
    var x := (v3 + 1) * d;
    assert x == v3 * d + d;
    Times(v3 + 1, B, d);
    Times(0, v3 + 1, d);
    Times(d, B - 1, B);
    Remainder(x, 0, x);
    assert Value(r) == x;
    QuotientIs(x, B, r.h, r.l);
    assert (v3 + 1 + B) * d == x + B * d;
    QuotientIs(x + B * d, B, r.h + d, r.l);
  }

  lemma V4Exact(full: int, d: Word)
    requires HALF <= d && B <= full < 2 * B && 0 <= full - (full + 1) * d / B < B
    ensures V4(full - B, d) == full - (full + 1) * d / B
  {
    var v3: Word := full - B;
    V4High(v3, d);
    var h := Add128(Umul128(v3, d), U128(0, d)).h;
    hide Umul128, Add128;
    assert (full + 1) * d / B == h + d;
    LowIs(Low(v3 - h) - d, full - (h + d), -1 - (v3 - h) / B);
  }

  /** For the largest `d` the wrap spoils half the error, but the last step makes up for it. */
  lemma LargestReciprocal()
    ensures Reciprocal2by1(B - 1) == 1 && IsReciprocal(B - 1, 1)
  {
    assert B * B - (1 + B) * (B - 1) == 1;
    hide V0, V1, V2, Half, V3, V4;
    LargestStart();
    LargestSteps();
    LargestV3();
    LargestV4();
  }

  lemma LargestStart()
    ensures V0(B - 1) == 1024 && Low((B - 1) / P24 + 1) == P40
  {
  }

  lemma LargestSteps()
    ensures V1(1024, P40) == 0xF_FFFF && V2(0xF_FFFF, P40) == 0x1_FFFF_FFFF
    ensures Half(0x1_FFFF_FFFF, B - 1) == 0xFFFF_FFFF
  {
  }

  lemma LargestV3()
    ensures V3(0x1_FFFF_FFFF, 0xFFFF_FFFF) == 0xFFFF_FFFF_8000_0000
  {
    UmulIsProduct(0x1_FFFF_FFFF, 0xFFFF_FFFF);
    var r := Umul128(0x1_FFFF_FFFF, 0xFFFF_FFFF);
    hide Umul128;
    assert r.h * B + r.l == B + 0xFFFF_FFFD_0000_0001;
    assert r.h == 1;
  }

  lemma LargestV4()
    ensures V4(0xFFFF_FFFF_8000_0000, B - 1) == 1
  {
    var v3: Word := 0xFFFF_FFFF_8000_0000;
    V4High(v3, B - 1);
    QuotientIs((v3 + 1) * (B - 1), B, v3, B - v3 - 1);
    hide Umul128, Add128;
  }

  /** The iteration gives the exact reciprocal of every normalised word. */
  lemma Reciprocal2by1IsExact(d: Word)
    requires d >= HALF
    ensures IsReciprocal(d, Reciprocal2by1(d))
  {
    if d == B - 1 {
      LargestReciprocal();
    } else {
      var v0 := V0(d);
      Start(d, d / P55, d / P24 + 1, v0);
      LowOf(d / P24 + 1);
      var d40 := Low(d / P24 + 1);
      V1Exact(v0, d40);
      var v1 := V1(v0, d40);
      Step1(v0, d40, v1);
      hide V0, V1;
      V2Exact(v1, d40, d);
      var v2 := V2(v1, d40);
      Step2(d, d40, v1, v2);
      hide V2;
      HalfExact(v2, d);
      var e := Half(v2, d);
      var full := v2 * P31 + v2 * e / (2 * B);
      Step3(d, v2, e, full);
      hide Half;
      V3Exact(v2, e);
      Step4(d, full, full - (full + 1) * d / B);
      V4Exact(full, d);
    }
  }
}
