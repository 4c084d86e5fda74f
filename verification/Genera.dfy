/** The types of fields by name, and how long their values are: what the numbers of the genera
    stand for, said apart from the tables the allocator and the schema go by. */
module Genera {
  import opened Tuples
  import opened Compaction
  import opened Operations
  import opened Serializing
  import opened TupleRw
  import Schemas

  datatype Type =
    | Text | Varbin | Nested | Property
    | I8 | U8 | I16 | U16
    | I32 | U32 | F32 | T32
    | I64 | U64 | F64 | D64 | T64
    | Bin96 | Bin128 | Bin160 | Bin192 | Bin224 | Bin256 | Bin320 | Bin384 | Bin512
    | Reserved64 | Reserved128 | Mac | Ip | IpNet

  /** The number of the type in its five bits. */
  function Genus(t: Type): nat {
    match t
    case Text => 0 case Varbin => 1 case Nested => 2 case Property => 3
    case I8 => 4 case U8 => 5 case I16 => 6 case U16 => 7
    case I32 => 8 case U32 => 9 case F32 => 10 case T32 => 11
    case I64 => 12 case U64 => 13 case F64 => 14 case D64 => 15 case T64 => 16
    case Bin96 => 17 case Bin128 => 18 case Bin160 => 19 case Bin192 => 20 case Bin224 => 21
    case Bin256 => 22 case Bin320 => 23 case Bin384 => 24 case Bin512 => 25
    case Reserved64 => 26 case Reserved128 => 27 case Mac => 28 case Ip => 29 case IpNet => 30
  }

  predicate VariableLength(t: Type) { t.Text? || t.Varbin? || t.Nested? || t.Property? }

  /** Bits of a value of fixed length; of the others, of the reference to it. */
  function Bits(t: Type): nat {
    match t
    case I8 => 8 case U8 => 8 case I16 => 16 case U16 => 16
    case I32 => 32 case U32 => 32 case F32 => 32 case T32 => 32
    case I64 => 64 case U64 => 64 case F64 => 64 case D64 => 64 case T64 => 64
    case Bin96 => 96 case Bin128 => 128 case Bin160 => 160 case Bin192 => 192 case Bin224 => 224
    case Bin256 => 256 case Bin320 => 320 case Bin384 => 384 case Bin512 => 512
    case Reserved64 => 64 case Reserved128 => 128 case Mac => 64 case Ip => 128 case IpNet => 160
    case _ => 32
  }

  /** Every number below that of a hole is the genus of one type. */
  lemma EveryGenus(g: nat) returns (t: Type)
    requires g < HOLE
    ensures Genus(t) == g && forall u: Type :: Genus(u) == g ==> u == t
  {
    t := if g == 0 then Text else if g == 1 then Varbin else if g == 2 then Nested else if g == 3 then Property
      else if g == 4 then I8 else if g == 5 then U8 else if g == 6 then I16 else if g == 7 then U16
      else if g == 8 then I32 else if g == 9 then U32 else if g == 10 then F32 else if g == 11 then T32
      else if g == 12 then I64 else if g == 13 then U64 else if g == 14 then F64 else if g == 15 then D64
      else if g == 16 then T64 else if g == 17 then Bin96 else if g == 18 then Bin128 else if g == 19 then Bin160
      else if g == 20 then Bin192 else if g == 21 then Bin224 else if g == 22 then Bin256 else if g == 23 then Bin320
      else if g == 24 then Bin384 else if g == 25 then Bin512 else if g == 26 then Reserved64
      else if g == 27 then Reserved128 else if g == 28 then Mac else if g == 29 then Ip else IpNet;
  }

  /** A loose field keeps its value in its descriptor, in so many units as its bits take, or, of
      variable length, as long as its header says. */
  lemma LooseSizes(t: Type)
    ensures Genus(t) < HOLE && (IsStretchy(Genus(t)) <==> VariableLength(t))
    ensures IsInplaced(Genus(t)) <==> Bits(t) <= 16
    ensures !VariableLength(t) ==> LooseUnits(Genus(t)) * 32 == if Bits(t) <= 16 then 0 else Bits(t)
  {
  }

  /** A preplaced field takes the bytes of its value, or of the reference to it, and is aligned to
      its size, but to no more than a unit. */
  lemma PreplacedSizes(t: Type)
    ensures Schemas.PreplacedBytes(Genus(t)) * 8 == Bits(t)
    ensures Schemas.AlignOf(Schemas.PreplacedBytes(Genus(t))) == if Bits(t) <= 32 then Bits(t) / 8 else 4
    ensures !VariableLength(t) && Bits(t) > 16 ==> Schemas.PreplacedBytes(Genus(t)) == 4 * LooseUnits(Genus(t))
  {
  }

  // ---- Headers of values of variable length --------------------------------------------------------------

  /** Four bytes in memory as a unit. */
  function FromBytes(a: nat, b: nat, c: nat, d: nat): Unit {
    Unit(a + 256 * b, Tag((c + 256 * d) / 2048, (c + 256 * d) % 2048), 0)
  }

  const TINY := 254
  const MAX_TEXT := 65535 * 2 + 255

  /** The header of a text of `n` characters, the first three of which may share its unit. */
  function TextHeader(n: nat, x: nat, y: nat, z: nat): Unit {
    if n < TINY then FromBytes(n, x, y, z)
    else
      var prefix := TINY + n % 2;
      var suffix := (n - prefix) / 2;
      FromBytes(prefix, suffix % 256, suffix / 256, x)
  }

  /** Units of a text with its header of one byte or three. */
  function TextUnits(n: nat): nat { BytesToUnits(n + if n < TINY then 1 else 3) }

  lemma TextReadsBack(n: nat, x: nat, y: nat, z: nat)
    requires n <= MAX_TEXT && x < 256 && y < 256 && z < 256
    ensures BruttoUnits(Genus(Text), TextHeader(n, x, y, z)) == TextUnits(n)
  {
    hide BytesToUnits;
    if n < TINY {
      BytesReadBack(n, x, y, z);
    } else {
      var prefix := TINY + n % 2;
      var suffix := (n - prefix) / 2;
      SuffixBounds(n, prefix, suffix);
      BytesReadBack(prefix, suffix % 256, suffix / 256, x);
    }
  }

  lemma SuffixBounds(n: nat, prefix: nat, suffix: nat)
    requires TINY <= n <= MAX_TEXT && prefix == TINY + n % 2 && suffix == (n - prefix) / 2
    ensures TINY <= prefix < 256 && suffix < 65536 && prefix + suffix * 2 == n
    ensures suffix / 256 < 256 && suffix % 256 + suffix / 256 * 256 == suffix
  {
  }

  /** A text is longer than tiny exactly when its first byte says so. */
  lemma BytesReadBack(a: nat, b: nat, c: nat, d: nat)
    requires a < 256 && b < 256 && c < 256 && d < 256
    ensures BruttoUnits(0, FromBytes(a, b, c, d))
            == if a < TINY then BytesToUnits(1 + a) else BytesToUnits(3 + a + (b + c * 256) * 2)
  {
    hide BytesToUnits;
    var u := FromBytes(a, b, c, d);
    var hi := c + 256 * d;
    assert (u.tag.genus * 2048 + u.tag.id) % 65536 == hi;
  }

  function VarbinHeader(n: nat): Unit { FromWords(BytesToUnits(n) + 1, n % 4) }

  /** Two words of 16 bits in memory as a unit. */
  function FromWords(lo: nat, hi: nat): Unit { FromBytes(lo % 256, lo / 256, hi % 256, hi / 256) }

  lemma WordsReadBack(lo: nat, hi: nat)
    requires lo < 65536 && hi < 65536
    ensures BruttoUnits(Genus(Varbin), FromWords(lo, hi)) == lo && BruttoUnits(Genus(Nested), FromWords(lo, hi)) == lo
  {
  }

  /** The units of a binary value and the one before them. */
  lemma VarbinReadsBack(n: nat)
    requires BytesToUnits(n) + 1 <= 65535
    ensures BruttoUnits(Genus(Varbin), VarbinHeader(n)) == BytesToUnits(n) + 1
  {
    WordsReadBack(BytesToUnits(n) + 1, n % 4);
  }

  /** A nested tuple begins with the header it has been taken with. */
  lemma NestedReadsBack(s: State)
    requires Bounds(s) && TakeAsis(s).Some?
    ensures BruttoUnits(Genus(Nested), HeaderUnit(TakeAsis(s).value)) == s.tail - s.head + 1
  {
    HeaderReadsBack(s);
  }

  function PropertyHeader(n: nat, id: nat, x: nat, y: nat): Unit { FromBytes(n, id, x, y) }

  lemma PropertyReadsBack(n: nat, id: nat, x: nat, y: nat)
    requires n <= 255 && id < 256 && x < 256 && y < 256
    ensures BruttoUnits(Genus(Property), PropertyHeader(n, id, x, y)) == BytesToUnits(n + 2)
  {
  }

  /** Values as they are stored are proper for their type. */
  lemma StoredIsProper(t: Type, units: seq<Unit>, n: nat, x: nat, y: nat, z: nat)
    requires 0 < |units| < MAX_UNITS && x < 256 && y < 256 && z < 256 && Bits(t) > 16
    requires match t
             case Text => n <= MAX_TEXT && |units| == TextUnits(n) && units[0] == TextHeader(n, x, y, z)
             case Varbin => |units| == BytesToUnits(n) + 1 && units[0] == VarbinHeader(n)
             case Nested => n < 65536 && units[0] == FromWords(|units|, n)
             case Property => n <= 255 && |units| == BytesToUnits(n + 2) && units[0] == PropertyHeader(n, x, y, z)
             case _ => |units| * 32 == Bits(t)
    ensures Proper(Genus(t), Data(units))
  {
    hide BruttoUnits, TextHeader, TextUnits, VarbinHeader, PropertyHeader, FromWords;
    LooseSizes(t);
    match t
    case Text => TextReadsBack(n, x, y, z);
    case Varbin => VarbinReadsBack(n);
    case Nested => WordsReadBack(|units|, n);
    case Property => PropertyReadsBack(n, x, y, z);
    case _ =>
  }
}
