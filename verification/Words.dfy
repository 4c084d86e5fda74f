/** Two-word arithmetic: 64-bit words with their wrap-around written out. */
module Words {
  const B: int := 0x1_0000_0000_0000_0000
  const HALF: int := 0x8000_0000_0000_0000
  const H: int := 0x1_0000_0000

  type Word = x: int | 0 <= x < B

  datatype U128 = U128(h: Word, l: Word)

  function Value(x: U128): (v: int)
    ensures 0 <= v < B * B
  {
    x.h * B + x.l
  }

  /** The low 64 bits. */
  function Low(x: int): Word { x % B }

  lemma LowIs(x: int, y: int, k: int)
    requires x == y + k * B && 0 <= y < B
    ensures Low(x) == y
  {
  }

  function Of(v: int): U128
    requires 0 <= v < B * B
  {
    U128(v / B, v % B)
  }

  lemma ValueIsOf(x: U128, v: int)
    requires 0 <= v < B * B && Value(x) == v
    ensures x == Of(v)
  {
  }

  // ---- Addition, subtraction, comparison ------------------------------------------------------------------

  function Add128(x: U128, y: U128): U128 {
    var l := Low(x.l + y.l);
    var c := if l < x.l then 1 else 0;
    U128(Low(x.h + y.h + c), l)
  }

  /** The carry is found by comparing the low word of the sum with one of the summands. */
  lemma AddWraps(x: U128, y: U128)
    ensures Value(Add128(x, y)) == (Value(x) + Value(y)) % (B * B)
  {
    var l := Low(x.l + y.l);
    var c := if l < x.l then 1 else 0;
    assert x.l + y.l == c * B + l;
    var s := x.h + y.h + c;
    assert s == s / B * B + Low(s);
    assert Value(x) + Value(y) == s / B * (B * B) + Value(Add128(x, y));
    Remainder(Value(x) + Value(y), s / B, Value(Add128(x, y)));
  }

  function Sub128(x: U128, y: U128): U128 {
    var l := Low(x.l - y.l);
    var c := if l > x.l then 1 else 0;
    U128(Low(x.h - y.h - c), l)
  }

  lemma SubWraps(x: U128, y: U128)
    ensures Value(Sub128(x, y)) == (Value(x) - Value(y)) % (B * B)
  {
    var l := Low(x.l - y.l);
    var c := if l > x.l then 1 else 0;
    assert x.l - y.l == l - c * B;
    var s := x.h - y.h - c;
    assert s == s / B * B + Low(s);
    assert Value(x) - Value(y) == s / B * (B * B) + Value(Sub128(x, y));
    Remainder(Value(x) - Value(y), s / B, Value(Sub128(x, y)));
  }

  lemma Remainder(x: int, k: int, r: int)
    requires x == k * (B * B) + r && 0 <= r < B * B
    ensures x % (B * B) == r
  {
  }

  predicate Gt128(x: U128, y: U128) { x.h > y.h || (x.h == y.h && x.l > y.l) }
  predicate Lt128(x: U128, y: U128) { x.h < y.h || (x.h == y.h && x.l < y.l) }

  lemma CompareIsOrder(x: U128, y: U128)
    ensures (Gt128(x, y) <==> Value(x) > Value(y)) && (Lt128(x, y) <==> Value(x) < Value(y))
    ensures x == y <==> Value(x) == Value(y)
  {
  }

  // ---- Multiplication ----------------------------------------------------------------------------------------

  /** The full product from four products of half words. */
  function Umul128(x: Word, y: Word): U128 {
    Combine(Low(x % H * (y % H)), Low(x / H * (y / H)), Low(x / H * (y % H)), Low(x % H * (y / H)))
  }

  /** The carries between the halves; the two halves of the low word are put side by side. */
  function Combine(ll: Word, hh: Word, m: Word, n: Word): U128 {
    var hl := Low(m + ll / H);
    var lh := Low(n + hl % H);
    U128(Low(hh + hl / H + lh / H), Low(Low(lh * H) + ll % H))
  }

  lemma HalfProduct(x: int, y: int)
    requires 0 <= x < H && 0 <= y < H
    ensures 0 <= x * y <= (H - 1) * (H - 1)
  {
    Times(x, H - 1, y);
    Times(y, H - 1, H - 1);
  }

  lemma Times(a: int, b: int, c: int)
    requires a <= b && c >= 0
    ensures a * c <= b * c
  {
    assert (b - a) * c >= 0;
  }

  /** The words of the result when the four products are `a`, `b`, `c` and `e`. */
  lemma Assemble(a: int, b: int, c: int, e: int)
    requires 0 <= a <= (H - 1) * (H - 1) && 0 <= b <= (H - 1) * (H - 1) && 0 <= c <= (H - 1) * (H - 1)
             && 0 <= e <= (H - 1) * (H - 1)
    ensures var hl := b + e / H; var lh := c + hl % H;
            && 0 <= hl < B && 0 <= lh < B && 0 <= a + hl / H + lh / H < B && Low(lh * H) == lh % H * H
            && (a + hl / H + lh / H) * B + (lh % H * H + e % H) == a * B + (b + c) * H + e
  {
    var hl := b + e / H;
    var lh := c + hl % H;
    assert lh * H == lh % H * H + lh / H * B;
    LowIs(lh * H, lh % H * H, lh / H);
  }

  lemma Expand(xh: int, xl: int, yh: int, yl: int)
    ensures (xh * H + xl) * (yh * H + yl) == xh * yh * B + (xh * yl + xl * yh) * H + xl * yl
  {
    var y := yh * H + yl;
    assert (xh * H + xl) * y == xh * H * y + xl * y;
    assert xh * H * y == H * (xh * y);
    assert xh * y == xh * (yh * H) + xh * yl;
    assert xl * y == xl * (yh * H) + xl * yl;
    assert xh * (yh * H) == xh * yh * H;
    assert xl * (yh * H) == xl * yh * H;
  }

  lemma CombineIs(a: int, b: int, c: int, e: int)
    requires 0 <= a <= (H - 1) * (H - 1) && 0 <= b <= (H - 1) * (H - 1) && 0 <= c <= (H - 1) * (H - 1)
             && 0 <= e <= (H - 1) * (H - 1)
    ensures Value(Combine(Low(e), Low(a), Low(b), Low(c))) == a * B + (b + c) * H + e
  {
    hide Low;
    Assemble(a, b, c, e);
    LowIs(a, a, 0); LowIs(b, b, 0); LowIs(c, c, 0); LowIs(e, e, 0);
    var hl := b + e / H;
    var lh := c + hl % H;
    LowIs(hl, hl, 0);
    LowIs(lh, lh, 0);
    LowIs(a + hl / H + lh / H, a + hl / H + lh / H, 0);
    LowIs(lh % H * H + e % H, lh % H * H + e % H, 0);
  }

  lemma UmulIsProduct(x: Word, y: Word)
    ensures Value(Umul128(x, y)) == x * y
  {
    var xl, xh, yl, yh := x % H, x / H, y % H, y / H;
    assert x == xh * H + xl && y == yh * H + yl;
    HalfProduct(xl, yl);
    HalfProduct(xh, yl);
    HalfProduct(xl, yh);
    HalfProduct(xh, yh);
    hide Combine, Low;
    CombineIs(xh * yh, xh * yl, xl * yh, xl * yl);
    Expand(xh, xl, yh, yl);
  }
}
