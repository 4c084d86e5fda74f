/** Shifts of two-word numbers, and counting leading zeros. */
module Shifts {
  import opened Words

  function Pow2(s: nat): (p: int)
    ensures p >= 1
  {
    if s == 0 then 1 else 2 * Pow2(s - 1)
  }

  lemma {:induction false} PowSum(a: nat, b: nat)
    ensures Pow2(a + b) == Pow2(a) * Pow2(b)
    decreases a
  {
    if a > 0 {
      PowSum(a - 1, b);
      assert a + b - 1 == a - 1 + b;
      assert 2 * Pow2(a - 1) * Pow2(b) == 2 * (Pow2(a - 1) * Pow2(b));
    }
  }

  lemma Pow32()
    ensures Pow2(32) == H
  {
    assert Pow2(8) == 256;
    PowSum(8, 8);
    PowSum(16, 16);
  }

  lemma Pow64()
    ensures Pow2(64) == B
  {
    Pow32();
    PowSum(32, 32);
  }

  /** A word shifted to the left, and to the right. */
  function Up(x: Word, s: nat): Word { Low(x * Pow2(s)) }

  function Down(x: Word, s: nat): Word {
    QuotientSmall(x, Pow2(s));
    x / Pow2(s)
  }

  lemma QuotientSmall(x: Word, p: int)
    requires p >= 1
    ensures 0 <= x / p < B
  {
    Euclid(x, p);
    Times(1, p, x / p);
  }

  lemma Euclid(x: int, q: int)
    requires x >= 0 && q > 0
    ensures x == x / q * q + x % q && 0 <= x % q < q && x / q >= 0
  {
  }

  /** The word is cut `s` bits from the top: the upper part is shifted out, the lower part up. */
  lemma Cut(x: Word, s: nat) returns (lo: int)
    requires s <= 64
    ensures x == Down(x, 64 - s) * Pow2(64 - s) + lo && 0 <= lo < Pow2(64 - s)
    ensures 0 <= Down(x, 64 - s) < Pow2(s) && Up(x, s) == lo * Pow2(s) <= B - Pow2(s)
    ensures x * Pow2(s) == Down(x, 64 - s) * B + Up(x, s)
  {
    Pow64();
    PowSum(s, 64 - s);
    var hi;
    hi, lo := CutParts(x, Pow2(s), Pow2(64 - s));
  }

  lemma CutParts(x: Word, p: int, q: int) returns (hi: int, lo: int)
    requires p >= 1 && q >= 1 && p * q == B
    ensures hi == x / q && x == hi * q + lo && 0 <= lo < q && 0 <= hi < p
    ensures Low(x * p) == lo * p <= B - p && x * p == hi * B + lo * p
  {
    hi, lo := Halves(x, q);
    hide Low;
    Factor(hi, q, lo, p);
    Below(hi, q, p, x);
    Times(lo, q - 1, p);
    Times(0, lo, p);
    assert (q - 1) * p == B - p;
    LowIs(x * p, lo * p, hi);
  }

  lemma Halves(x: int, q: int) returns (hi: int, lo: int)
    requires x >= 0 && q >= 1
    ensures hi == x / q && x == hi * q + lo && 0 <= lo < q && 0 <= hi
  {
    Euclid(x, q);
    hi, lo := x / q, x % q;
  }

  lemma Factor(hi: int, q: int, lo: int, p: int)
    ensures (hi * q + lo) * p == hi * (p * q) + lo * p
  {
    assert (hi * q + lo) * p == hi * q * p + lo * p;
    assert hi * q * p == hi * (q * p);
  }

  lemma Below(hi: int, q: int, p: int, x: int)
    requires hi * q <= x < B && p * q == B && q > 0
    ensures hi < p
  {
    if hi >= p { Times(p, hi, q); }
  }

  // ---- Left shift --------------------------------------------------------------------------------------

  function Shl(x: U128, s: nat): U128
    requires s < 128
  {
    if s < 64 then U128(Low(Up(x.h, s) + if s != 0 then Down(x.l, 64 - s) else 0), Up(x.l, s))
    else U128(Up(x.l, s - 64), 0)
  }

  /** What a short shift loses is the top of the high word. */
  lemma ShlShort(x: U128, s: nat)
    requires s < 64
    ensures Value(x) * Pow2(s) == Down(x.h, 64 - s) * (B * B) + Value(Shl(x, s)) && 0 <= Down(x.h, 64 - s) < Pow2(s)
  {
    hide Pow2, Low, Up, Down;
    var lh := Cut(x.h, s);
    var ll := Cut(x.l, s);
    var o, m, c, r := Down(x.h, 64 - s), Up(x.h, s), Down(x.l, 64 - s), Up(x.l, s);
    NoShiftNoCarry(x.l, s);
    Distribute(x.h, x.l, Pow2(s));
    LowIs(m + c, m + c, 0);
    Gather(o, m, c, r);
  }

  lemma NoShiftNoCarry(x: Word, s: nat)
    requires s < 64
    ensures s == 0 ==> Down(x, 64 - s) == 0
  {
    Pow64();
  }

  lemma Distribute(h: int, l: int, p: int)
    ensures (h * B + l) * p == h * p * B + l * p
  {
  }

  lemma Gather(o: int, m: int, c: int, r: int)
    ensures (o * B + m) * B + (c * B + r) == o * (B * B) + ((m + c) * B + r)
  {
  }

  lemma ShlWraps(x: U128, s: nat)
    requires s < 128
    ensures Value(Shl(x, s)) == Value(x) * Pow2(s) % (B * B)
  {
    hide Shl, Pow2, Down, Up, Low;
    if s < 64 {
      ShlShort(x, s);
      Remainder(Value(x) * Pow2(s), Down(x.h, 64 - s), Value(Shl(x, s)));
    } else {
      ShlLong(x, s);
      Remainder(Value(x) * Pow2(s), x.h * Pow2(s - 64) + Down(x.l, 128 - s), Value(Shl(x, s)));
    }
  }

  /** A long shift loses the high word and what leaves the low one. */
  lemma ShlLong(x: U128, s: nat)
    requires 64 <= s < 128
    ensures Value(x) * Pow2(s) == (x.h * Pow2(s - 64) + Down(x.l, 128 - s)) * (B * B) + Value(Shl(x, s))
  {
    hide Pow2, Low, Up, Down;
    var t := s - 64;
    Pow64();
    PowSum(64, t);
    var lo := Cut(x.l, t);
    Long(x.h, x.l, Pow2(t), Down(x.l, 64 - t), Up(x.l, t));
  }

  lemma Long(h: int, l: int, p: int, hi: int, m: int)
    requires l * p == hi * B + m
    ensures (h * B + l) * (B * p) == (h * p + hi) * (B * B) + m * B
  {
    assert (h * B + l) * (B * p) == h * B * (B * p) + l * (B * p);
    assert h * B * (B * p) == h * p * (B * B);
    assert l * (B * p) == l * p * B;
  }

  // ---- Right shift -------------------------------------------------------------------------------------------

  function Shr(x: U128, s: nat): U128
    requires s < 128
  {
    if s < 64 then U128(Down(x.h, s), Low((if s != 0 then Up(x.h, 64 - s) else 0) + Down(x.l, s)))
    else U128(0, Down(x.h, s - 64))
  }

  lemma QuotientIs(x: int, p: int, k: int, r: int)
    requires x == k * p + r && 0 <= r < p
    ensures x / p == k
  {
    Euclidean(x, p, k, r, x / p, x % p);
  }

  lemma Euclidean(x: int, p: int, k: int, r: int, k2: int, r2: int)
    requires x == k * p + r && 0 <= r < p && x == k2 * p + r2 && 0 <= r2 < p
    ensures k == k2 && r == r2
  {
    if k < k2 { Times(k + 1, k2, p); }
    if k2 < k { Times(k2 + 1, k, p); }
  }

  lemma ShrDivides(x: U128, s: nat)
    requires s < 128
    ensures Value(Shr(x, s)) == Value(x) / Pow2(s)
  {
    if s == 0 {
    } else if s < 64 {
      ShrShort(x, s);
    } else {
      var t := s - 64;
      Pow64();
      PowSum(64, t);
      var p := Pow2(t);
      Euclid(x.h, p);
      var r := x.h % p;
      hide Pow2;
      LongDown(x.h, x.l, p, Down(x.h, t), r);
      QuotientIs(Value(x), B * p, Down(x.h, t), r * B + x.l);
    }
  }

  lemma LongDown(h: int, l: int, p: int, k: int, r: int)
    requires h == k * p + r && 0 <= r < p && 0 <= l < B
    ensures h * B + l == k * (B * p) + (r * B + l) && 0 <= r * B + l < B * p
  {
    assert k * p * B == k * (B * p);
    Times(r, p - 1, B);
  }

  lemma ShrShort(x: U128, s: nat)
    requires 0 < s < 64
    ensures Value(Shr(x, s)) == Value(x) / Pow2(s)
  {
    hide Pow2, Low, Up, Down;
    assert 64 - (64 - s) == s;
    var b := Cut(x.h, 64 - s);
    var e := Cut(x.l, 64 - s);
    var p, q := Pow2(s), Pow2(64 - s);
    Pow64();
    PowSum(s, 64 - s);
    var a, c := Down(x.h, s), Down(x.l, s);
    LowIs(b * q + c, b * q + c, 0);
    Spread(a, b, c, e, p, q);
    QuotientIs(Value(x), p, a * B + (b * q + c), e);
  }

  lemma Spread(a: int, b: int, c: int, e: int, p: int, q: int)
    requires p * q == B
    ensures (a * p + b) * B + (c * p + e) == (a * B + (b * q + c)) * p + e
  {
    assert (a * p + b) * B == a * B * p + b * B;
    assert b * B == b * q * p;
    assert (a * B + (b * q + c)) * p == a * B * p + b * q * p + c * p;
  }

  // ---- Leading zeros --------------------------------------------------------------------------------------------

  function Clz(y: Word): (s: nat)
    requires y > 0
    decreases B - y
  {
    if y >= HALF then 0 else 1 + Clz(2 * y)
  }

  /** Shifting by the leading zeros normalises. */
  lemma {:induction false} ClzNormalises(y: Word)
    requires y > 0
    ensures HALF <= y * Pow2(Clz(y)) < B
    decreases B - y
  {
    if y < HALF {
      ClzNormalises(2 * y);
      var s := Clz(2 * y);
      assert 2 * y * Pow2(s) == y * (2 * Pow2(s));
    }
  }

  lemma ClzIsShort(y: Word)
    requires y > 0
    ensures Clz(y) < 64
  {
    ClzNormalises(y);
    if Clz(y) >= 64 {
      Pow64();
      PowSum(64, Clz(y) - 64);
      Times(1, y, Pow2(Clz(y)));
      Times(1, Pow2(Clz(y) - 64), B);
    }
  }
}
