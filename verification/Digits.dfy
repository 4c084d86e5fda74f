/** 128-bit numbers as text in bases from 2 to 36. */
module Digits {
  import opened Words
  import opened Division

  const LIMIT: int := B * B

  // ---- Characters ----------------------------------------------------------------------------------------

  /** Sets the bit that makes a letter small. */
  function Small(c: nat): nat { if c / 32 % 2 == 0 then c + 32 else c }

  /** The value of a digit; anything else gives at least 36, because the subtraction wraps. */
  function Char2Digit(c: char): nat {
    var code := c as nat;
    if code <= '9' as nat then (code - '0' as int) % 0x1_0000_0000
    else if Small(code) >= 'a' as nat then Small(code) - 'a' as nat + 10
    else 0xFFFF_FFFF
  }

  function Digit2Char(d: nat): (c: char)
    requires d < 36
    ensures Char2Digit(c) == d && ('0' <= c <= '9' || 'a' <= c <= 'z')
  {
    if d < 10 then (d + '0' as nat) as char else (d + 'a' as nat - 10) as char
  }

  /** Large letters count as small ones. */
  lemma LargeLetters(d: nat)
    requires 10 <= d < 36
    ensures Char2Digit((d + 'A' as nat - 10) as char) == d
  {
  }

  /** A character is a digit of some base exactly when it is a figure or a letter. */
  lemma CharIsDigit(c: char)
    ensures Char2Digit(c) < 36 <==> '0' <= c <= '9' || 'a' <= c <= 'z' || 'A' <= c <= 'Z'
    ensures '0' <= c <= '9' ==> Char2Digit(c) == c as nat - '0' as nat
    ensures 'a' <= c <= 'z' ==> Char2Digit(c) == 10 + (c as nat - 'a' as nat)
    ensures 'A' <= c <= 'Z' ==> Char2Digit(c) == 10 + (c as nat - 'A' as nat)
  {
  }

  // ---- What a text means --------------------------------------------------------------------------------

  predicate AllDigits(s: string, base: nat) { forall i :: 0 <= i < |s| ==> Char2Digit(s[i]) < base }

  /** The number the digits stand for, most significant first. */
  function Number(s: string, base: nat): nat {
    if s == [] then 0 else Number(s[..|s| - 1], base) * base + Char2Digit(s[|s| - 1])
  }

  /** The shortest text of a number. */
  function Text(v: nat, base: nat): (s: string)
    requires 2 <= base <= 36
    ensures s != []
    decreases v
  {
    if v < base then [Digit2Char(v)]
    else
      Shrinks(v, base);
      Text(v / base, base) + [Digit2Char(v % base)]
  }

  lemma Shrinks(v: nat, base: nat)
    requires base >= 2 && v > 0
    ensures 0 <= v / base < v && 0 <= v % base < base && v == v / base * base + v % base
  {
    var q := v / base;
    assert v == q * base + v % base;
    if q >= v { Times(v, q, base); Times(2, base, v); }
  }

  lemma {:induction false} TextMeans(v: nat, base: nat)
    requires 2 <= base <= 36
    ensures AllDigits(Text(v, base), base) && Number(Text(v, base), base) == v
    ensures v > 0 ==> Char2Digit(Text(v, base)[0]) != 0
    decreases v
  {
    if v < base {
      assert Text(v, base)[..0] == [];
    } else {
      Shrinks(v, base);
      TextMeans(v / base, base);
      var s := Text(v / base, base);
      assert Text(v, base)[..|s|] == s;
      if v / base == 0 { Times(0, 1, base); }
    }
  }

  // ---- Writing ---------------------------------------------------------------------------------------------

  function Reverse(s: string): string {
    if s == [] then [] else Reverse(s[1..]) + [s[0]]
  }

  lemma {:induction false} ReverseAppend(s: string, c: char)
    ensures Reverse(s + [c]) == [c] + Reverse(s)
    decreases |s|
  {
    if s == [] {
      assert ([c])[1..] == [];
    } else {
      assert (s + [c])[1..] == s[1..] + [c];
      ReverseAppend(s[1..], c);
    }
  }

  datatype Written = Written(text: string) | InvalidBase

  /** to_string: the digits come out least significant first and are then reversed. */
  method ToString(x: U128, base: nat) returns (r: Written)
    ensures r == if 2 <= base <= 36 then Written(Text(Value(x), base)) else InvalidBase
  {
    if base < 2 || base > 36 { return InvalidBase; }
    if Value(x) < base {
      return Written([Digit2Char(Value(x))]);
    }
    r := ToStringByDigits(x, base);
  }

  method ToStringByDigits(x: U128, base: nat) returns (r: Written)
    requires 2 <= base <= 36
    ensures r == Written(Text(Value(x), base))
  {
    hide Text, Reverse, Digit2Char;
    var v, str, more := x, [], true;
    ReverseNothing();
    while more
      invariant more ==> Text(Value(x), base) == Text(Value(v), base) + Reverse(str)
      invariant !more ==> Text(Value(x), base) == Reverse(str)
      decreases Value(v) + if more then 1 else 0
    {
      var q, d := DivmodU128(v, U128(0, base));
      DigitMoves(Value(v), base, Value(q), Value(d), str);
      str := str + [Digit2Char(Value(d))];
      v := q;
      more := v != U128(0, 0);
    }
    return Written(Reverse(str));
  }

  lemma ReverseNothing()
    ensures Reverse([]) == []
  {
  }

  lemma DigitMoves(v: nat, base: nat, q: nat, d: nat, str: string)
    requires 2 <= base <= 36 && v == q * base + d && d < base
    ensures Text(v, base) + Reverse(str) == (if q == 0 then [] else Text(q, base)) + Reverse(str + [Digit2Char(d)])
    ensures q == 0 || q < v
  {
    hide Text, Reverse, Digit2Char;
    LastDigit(v, base, q, d);
    ReverseAppend(str, Digit2Char(d));
  }

  /** Dividing by the base splits the last digit off. */
  lemma LastDigit(v: nat, base: nat, q: nat, d: nat)
    requires 2 <= base <= 36 && v == q * base + d && d < base
    ensures Text(v, base) == (if q == 0 then [] else Text(q, base)) + [Digit2Char(d)]
    ensures q == 0 || q < v
  {
    SplitOff(v, base, q, d);
    if q == 0 {
      assert v == d;
      assert [] + [Digit2Char(d)] == [Digit2Char(d)];
    } else {
      assert Text(v, base) == Text(v / base, base) + [Digit2Char(v % base)];
    }
  }

  lemma SplitOff(v: nat, base: nat, q: nat, d: nat)
    requires base >= 2 && v == q * base + d && d < base
    ensures v / base == q && v % base == d
    ensures if q == 0 then v == d else q < v && base <= v
  {
    Shifts.QuotientIs(v, base, q, d);
    if q > 0 {
      Times(1, q, base);
      Times(2, base, q);
    }
  }

  // ---- Reading --------------------------------------------------------------------------------------------

  /** operator*: the low two words of the product. */
  function Mul128(x: U128, y: U128): U128 {
    var r := Umul128(x.l, y.l);
    U128(Low(r.h + Low(Low(x.l * y.h) + Low(y.l * x.h))), r.l)
  }

  /** Multiplying by a small number wraps only if the product does not fit. */
  lemma MulSmall(x: U128, y: Word)
    requires Value(x) * y < LIMIT
    ensures Value(Mul128(x, U128(0, y))) == Value(x) * y
  {
    UmulIsProduct(x.l, y);
    var r := Umul128(x.l, y);
    hide Umul128;
    assert Value(x) * y == x.h * y * B + x.l * y;
    assert y * x.h == x.h * y;
    Times(0, x.h, y);
    Times(0, x.l, y);
    assert 0 <= r.h + x.h * y < B;
    LowIs(x.h * y, x.h * y, 0);
    LowIs(r.h + x.h * y, r.h + x.h * y, 0);
  }

  datatype Status = Success | OutOfRange | InvalidArgument

  /** What from_chars returns: where it stopped, the value, and the status. */
  datatype Parsed = Parsed(stop: int, value: U128, status: Status)

  /** The base and the start of the digits when the base is to be found out: a prefix 0 or 0x. */
  function Prefix(s: string, base: nat): (nat, nat) {
    if base != 0 then (base, 0)
    else if |s| > 1 && s[0] == '0' then (if Small(s[1] as nat) == 'x' as nat then (16, 2) else (8, 1))
    else (10, 0)
  }

  /** The loop of from_chars: `state` is 0, 1 after a digit, -1 after a wrap that was noticed. */
  function Scan(s: string, scan: nat, base: nat, result: U128, state: int): (int, U128, int)
    requires scan <= |s|
    decreases |s| - scan
  {
    if scan == |s| || Char2Digit(s[scan]) >= base then (scan, result, state)
    else
      var next := Add128(Mul128(result, U128(0, Low(base))), U128(0, Low(Char2Digit(s[scan]))));
      Scan(s, scan + 1, base, next, if state == -1 || Lt128(next, result) then -1 else 1)
  }

  method FromChars(s: string, base0: nat) returns (r: Parsed)
    ensures var (base, start) := Prefix(s, base0);
            r == if base < 2 || base > 36 then Parsed(-1, U128(0, 0), InvalidArgument)
                 else var (stop, value, state) := Scan(s, start, base, U128(0, 0), 0);
                      Parsed(stop, value,
                             if state > 0 then Success else if state == 0 then InvalidArgument else OutOfRange)
  {
    hide Add128, Mul128, Lt128, Low;
    var scan, base := 0, base0;
    if base == 0 {
      base := 10;
      if scan + 1 < |s| && s[0] == '0' {
        var isHex := Small(s[1] as nat) == 'x' as nat;
        scan := if isHex then 2 else 1;
        base := if isHex then 16 else 8;
      }
    }
    var result := U128(0, 0);
    if base < 2 || base > 36 { return Parsed(-1, result, InvalidArgument); }
    ghost var start := scan;
    var state := 0;
    while scan < |s|
      invariant start <= scan <= |s|
      invariant Scan(s, start, base, U128(0, 0), 0) == Scan(s, scan, base, result, state)
    {
      var digit := Char2Digit(s[scan]);
      if digit >= base { break; }
      var next := Add128(Mul128(result, U128(0, Low(base))), U128(0, Low(digit)));
      state := if state == -1 || Lt128(next, result) then -1 else 1;
      result := next;
      scan := scan + 1;
    }
    return Parsed(scan, result, if state > 0 then Success else if state == 0 then InvalidArgument else OutOfRange);
  }

  lemma {:induction false} NumberPrefix(s: string, base: nat, k: nat)
    requires k <= |s| && base >= 1
    ensures Number(s[..k], base) <= Number(s, base)
    decreases |s|
  {
    if k < |s| {
      var t := s[..|s| - 1];
      assert t[..k] == s[..k];
      NumberPrefix(t, base, k);
      Times(1, base, Number(t, base));
    } else {
      assert s[..k] == s;
    }
  }

  /** One digit more. */
  lemma ScanStep(result: U128, base: nat, digit: nat)
    requires 2 <= base <= 36 && digit < base && Value(result) * base + digit < LIMIT
    ensures var next := Add128(Mul128(result, U128(0, Low(base))), U128(0, Low(digit)));
            Value(next) == Value(result) * base + digit && !Lt128(next, result)
  {
    MulSmall(result, base);
    LowIs(base, base, 0);
    LowIs(digit, digit, 0);
    var m := Mul128(result, U128(0, base));
    Times(1, base, Value(result));
    hide Mul128, Add128, Lt128, Low;
    AddSmall(m, digit, result);
  }

  lemma AddSmall(m: U128, digit: Word, result: U128)
    requires Value(m) + digit < LIMIT && Value(result) <= Value(m)
    ensures Value(Add128(m, U128(0, digit))) == Value(m) + digit && !Lt128(Add128(m, U128(0, digit)), result)
  {
    AddWraps(m, U128(0, digit));
    CompareIsOrder(Add128(m, U128(0, digit)), result);
    hide Add128, Lt128;
    Remainder(Value(m) + digit, 0, Value(m) + digit);
  }

  /** Where the digits end that begin at `start`. */
  ghost predicate DigitsEnd(s: string, start: nat, base: nat, k: nat) {
    start <= k <= |s| && AllDigits(s[start..k], base) && (k < |s| ==> Char2Digit(s[k]) >= base)
  }

  lemma {:induction false} ScanReads(s: string, start: nat, scan: nat, base: nat, result: U128, state: int, k: nat)
    requires 2 <= base <= 36 && DigitsEnd(s, start, base, k) && start <= scan <= k
    requires Number(s[start..k], base) < LIMIT && Value(result) == Number(s[start..scan], base) && 0 <= state <= 1
    ensures Scan(s, scan, base, result, state) == (k, Of(Number(s[start..k], base)), if scan < k then 1 else state)
    decreases k - scan
  {
    hide Add128, Mul128, Lt128, Low, Char2Digit, Number;
    if scan == k {
      ValueIsOf(result, Number(s[start..k], base));
    } else {
      NumberStep(s, start, scan, base, k);
      var digit := Char2Digit(s[scan]);
      ScanStep(result, base, digit);
      var next := Add128(Mul128(result, U128(0, Low(base))), U128(0, Low(digit)));
      ScanReads(s, start, scan + 1, base, next, 1, k);
    }
  }

  lemma SliceOfSlice(s: string, a: nat, b: nat, c: nat)
    requires a <= b <= c <= |s|
    ensures s[a..c][..b - a] == s[a..b]
  {
  }

  lemma NumberStep(s: string, start: nat, scan: nat, base: nat, k: nat)
    requires DigitsEnd(s, start, base, k) && start <= scan < k && base >= 1
    ensures Char2Digit(s[scan]) < base
    ensures Number(s[start..scan + 1], base) == Number(s[start..scan], base) * base + Char2Digit(s[scan])
    ensures Number(s[start..scan + 1], base) <= Number(s[start..k], base)
  {
    hide Char2Digit;
    var digits, t := s[start..k], s[start..scan + 1];
    assert |t| == scan + 1 - start && t[|t| - 1] == s[scan] == digits[scan - start];
    SliceOfSlice(s, start, scan, scan + 1);
    SliceOfSlice(s, start, scan + 1, k);
    NumberPrefix(digits, base, scan + 1 - start);
  }

  /** from_chars reads the longest run of digits, and stops at the first character that is none;
      the value is the number they stand for if it fits, and without a digit there is an error. */
  lemma LongestRunIsRead(s: string, start: nat, base: nat, k: nat)
    requires 2 <= base <= 36 && DigitsEnd(s, start, base, k)
    ensures Scan(s, start, base, U128(0, 0), 0).0 == k
    ensures Number(s[start..k], base) < LIMIT ==>
              Scan(s, start, base, U128(0, 0), 0) == (k, Of(Number(s[start..k], base)), if start < k then 1 else 0)
  {
    assert s[start..start] == [];
    if Number(s[start..k], base) < LIMIT { ScanReads(s, start, start, base, U128(0, 0), 0, k); }
    ScanStops(s, start, start, base, U128(0, 0), 0, k);
  }

  lemma {:induction false} ScanStops(s: string, start: nat, scan: nat, base: nat, result: U128, state: int, k: nat)
    requires DigitsEnd(s, start, base, k) && start <= scan <= k
    ensures Scan(s, scan, base, result, state).0 == k
    decreases k - scan
  {
    hide Add128, Mul128, Lt128, Low;
    if scan < k {
      assert s[scan] == s[start..k][scan - start];
      var next := Add128(Mul128(result, U128(0, Low(base))), U128(0, Low(Char2Digit(s[scan]))));
      ScanStops(s, start, scan + 1, base, next, if state == -1 || Lt128(next, result) then -1 else 1, k);
    }
  }

  /** from_chars reads every text of digits whose number fits: the whole text, without error. */
  lemma DigitsAreRead(s: string, base: nat)
    requires 2 <= base <= 36 && s != [] && AllDigits(s, base) && Number(s, base) < LIMIT
    ensures Scan(s, 0, base, U128(0, 0), 0) == (|s|, Of(Number(s, base)), 1)
  {
    assert s[0..|s|] == s;
    LongestRunIsRead(s, 0, base, |s|);
  }

  /** from_chars gives back what to_string wrote, in every base, for every number. */
  lemma TextRoundTrip(x: U128, base: nat)
    requires 2 <= base <= 36
    ensures var s := Text(Value(x), base);
            Prefix(s, base) == (base, 0) && Scan(s, 0, base, U128(0, 0), 0) == (|s|, x, 1)
  {
    TextMeans(Value(x), base);
    DigitsAreRead(Text(Value(x), base), base);
    ValueIsOf(x, Value(x));
  }

  /** Decimal text is also read back when the base is left to be found out. */
  lemma DecimalRoundTrip(x: U128)
    ensures var s := Text(Value(x), 10);
            Prefix(s, 0) == (10, 0) && Scan(s, 0, 10, U128(0, 0), 0) == (|s|, x, 1)
  {
    TextMeans(Value(x), 10);
    TextRoundTrip(x, 10);
    if Value(x) == 0 { assert |Text(0, 10)| == 1; }
  }

  /** With its prefix, small or large, so is hexadecimal text, and so is octal text with a zero. */
  lemma PrefixedRoundTrip(x: U128, large: bool)
    ensures var s := (if large then "0X" else "0x") + Text(Value(x), 16);
            Prefix(s, 0) == (16, 2) && Scan(s, 2, 16, U128(0, 0), 0) == (|s|, x, 1)
    ensures var s := "0" + Text(Value(x), 8);
            Prefix(s, 0) == (8, 1) && Scan(s, 1, 8, U128(0, 0), 0) == (|s|, x, 1)
  {
    hide Text, Scan;
    PrefixedRead(x, 16, if large then "0X" else "0x");
    PrefixedRead(x, 8, "0");
    TextMeans(Value(x), 8);
    PrefixIsHex(Text(Value(x), 16), large);
    PrefixIsOctal(Text(Value(x), 8));
  }

  lemma PrefixIsHex(t: string, large: bool)
    ensures Prefix((if large then "0X" else "0x") + t, 0) == (16, 2)
  {
    var s := (if large then "0X" else "0x") + t;
    assert s[0] == '0' && s[1] == if large then 'X' else 'x';
  }

  lemma PrefixIsOctal(t: string)
    requires t != [] && Char2Digit(t[0]) < 8
    ensures Prefix("0" + t, 0) == (8, 1)
  {
    CharIsDigit(t[0]);
    assert ("0" + t)[0] == '0' && ("0" + t)[1] == t[0];
  }

  lemma PrefixedRead(x: U128, base: nat, prefix: string)
    requires 2 <= base <= 36
    ensures var s := prefix + Text(Value(x), base);
            |s| > |prefix| && Scan(s, |prefix|, base, U128(0, 0), 0) == (|s|, x, 1)
  {
    var t := Text(Value(x), base);
    var s := prefix + t;
    TextMeans(Value(x), base);
    assert s[|prefix|..|s|] == t;
    LongestRunIsRead(s, |prefix|, base, |s|);
    ValueIsOf(x, Value(x));
  }

  /** The methods together. */
  method RoundTrip(x: U128, base: nat) returns (r: Parsed)
    requires 2 <= base <= 36
    ensures r.value == x && r.status == Success
  {
    var w := ToString(x, base);
    TextRoundTrip(x, base);
    r := FromChars(w.text, base);
  }
}
