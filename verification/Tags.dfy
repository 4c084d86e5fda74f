/** Tags as 32-bit numbers: where a field is and what it is, packed so that their order is the
    order of the schema. */
module Tags {
  import Shifts

  const ID_SPAN := 0x800
  const GENERA := 32
  const NULL_FLAG := 0x1_0000
  const SATURATION_FLAG := 0x2_0000
  const COLLECTION_FLAG := 0x4_0000
  const OFFSET_UNIT := 0x4_0000
  const MAX_PREPLACED_OFFSET := 16381
  const LOOSE_THRESHOLD := (MAX_PREPLACED_OFFSET + 1) * OFFSET_UNIT
  const LOOSE_END := 1024
  const HOLE_GENUS := 31

  // ---- Descriptors: five bits of genus, eleven of id or size -------------------------------------------

  /** The upper half of a descriptor, a 16-bit store. */
  function Descriptor(genus: nat, id: nat): nat { (genus * ID_SPAN + id) % 0x1_0000 }

  function DescriptorGenus(d: nat): nat { d / ID_SPAN % GENERA }
  function DescriptorId(d: nat): nat { d % ID_SPAN }

  /** A hole can be read back exactly when its size fits into eleven bits. */
  lemma HoleSizeFits(units: nat)
    ensures DescriptorGenus(Descriptor(HOLE_GENUS, units)) == HOLE_GENUS
            && DescriptorId(Descriptor(HOLE_GENUS, units)) == units
            <==> units < ID_SPAN
  {
    if units < ID_SPAN {
      assert HOLE_GENUS * ID_SPAN + units < 0x1_0000;
    }
  }

  /** A hole of 2048 units reads as an empty text field. */
  lemma HoleSizeOverflows()
    ensures DescriptorGenus(Descriptor(HOLE_GENUS, 2048)) == 0 && DescriptorId(Descriptor(HOLE_GENUS, 2048)) == 0
  {
  }

  // ---- Tokens and their tags ----------------------------------------------------------------------------

  datatype Token =
    | Preplaced(offset: nat, genus: nat, size: nat, nullable: bool, saturated: bool)
    | Loose(genus: nat, id: nat, collection: bool, nullable: bool, saturated: bool)

  /** The fields of the token fit into their bits. */
  predicate Fits(t: Token) {
    match t
    case Preplaced(o, g, s, _, _) => o <= MAX_PREPLACED_OFFSET && g < GENERA && 0 < s < ID_SPAN
    case Loose(g, i, _, _, _) => g < GENERA && i < ID_SPAN
  }

  function Flag(b: bool, flag: nat): nat { if b then flag else 0 }

  function TagOf(t: Token): nat {
    match t
    case Preplaced(o, g, s, n, x) => g * ID_SPAN + o * OFFSET_UNIT + s + Flag(n, NULL_FLAG) + Flag(x, SATURATION_FLAG)
    case Loose(g, i, c, n, x) =>
      LOOSE_THRESHOLD + g * ID_SPAN + i + Flag(c, COLLECTION_FLAG) + Flag(n, NULL_FLAG) + Flag(x, SATURATION_FLAG)
  }

  predicate IsPreplacedTag(tag: nat) { tag < LOOSE_THRESHOLD }

  /** Sets one bit. */
  function WithFlag(tag: nat, flag: nat): nat
    requires flag > 0
  {
    if tag / flag % 2 == 1 then tag else tag + flag
  }

  /** Sets the flags that do not matter for the order and for sameness. */
  function Normalized(tag: nat): nat {
    var t := WithFlag(WithFlag(tag, NULL_FLAG), SATURATION_FLAG);
    if IsPreplacedTag(tag) then t else WithFlag(t, COLLECTION_FLAG)
  }

  function AllFlags(t: Token): Token {
    match t
    case Preplaced(o, g, s, _, _) => Preplaced(o, g, s, true, true)
    case Loose(g, i, _, _, _) => Loose(g, i, true, true, true)
  }

  /** Setting the bits of a tag sets the flags of the token, whatever they were. */
  lemma NormalizedIs(t: Token)
    requires Fits(t)
    ensures Normalized(TagOf(t)) == TagOf(AllFlags(t)) && (IsPreplacedTag(TagOf(t)) <==> t.Preplaced?)
    ensures TagOf(t) < 0x1_0000_0000
  {
    var low := if t.Preplaced? then t.genus * ID_SPAN + t.size else t.genus * ID_SPAN + t.id;
    assert 0 <= low < NULL_FLAG;
    var high := if t.Preplaced? then t.offset else MAX_PREPLACED_OFFSET + 1 + Flag(t.collection, 1);
    var tag := TagOf(t);
    assert tag == high * OFFSET_UNIT + Flag(t.nullable, NULL_FLAG) + Flag(t.saturated, SATURATION_FLAG) + low;
    WithNull(high, low, t.nullable, t.saturated);
    WithSaturation(high, low, t.saturated);
    if t.Loose? { WithCollection(low, t.collection); }
  }

  lemma WithNull(high: nat, low: nat, n: bool, x: bool)
    requires low < NULL_FLAG
    ensures WithFlag(high * OFFSET_UNIT + Flag(n, NULL_FLAG) + Flag(x, SATURATION_FLAG) + low, NULL_FLAG)
            == high * OFFSET_UNIT + NULL_FLAG + Flag(x, SATURATION_FLAG) + low
  {
    var q := 2 * (high * 2 + Flag(x, 1)) + Flag(n, 1);
    Shifts.QuotientIs(high * OFFSET_UNIT + Flag(n, NULL_FLAG) + Flag(x, SATURATION_FLAG) + low, NULL_FLAG, q, low);
    assert q % 2 == Flag(n, 1);
  }

  lemma WithSaturation(high: nat, low: nat, x: bool)
    requires low < NULL_FLAG
    ensures WithFlag(high * OFFSET_UNIT + NULL_FLAG + Flag(x, SATURATION_FLAG) + low, SATURATION_FLAG)
            == high * OFFSET_UNIT + NULL_FLAG + SATURATION_FLAG + low
  {
    var q := 2 * high + Flag(x, 1);
    Shifts.QuotientIs(high * OFFSET_UNIT + NULL_FLAG + Flag(x, SATURATION_FLAG) + low,
        SATURATION_FLAG, q, NULL_FLAG + low);
    assert q % 2 == Flag(x, 1);
  }

  lemma WithCollection(low: nat, c: bool)
    requires low < NULL_FLAG
    ensures var high := MAX_PREPLACED_OFFSET + 1 + Flag(c, 1);
            WithFlag(high * OFFSET_UNIT + NULL_FLAG + SATURATION_FLAG + low, COLLECTION_FLAG)
            == LOOSE_THRESHOLD + COLLECTION_FLAG + NULL_FLAG + SATURATION_FLAG + low
  {
    var high := MAX_PREPLACED_OFFSET + 1 + Flag(c, 1);
    var rest := NULL_FLAG + SATURATION_FLAG + low;
    Shifts.QuotientIs(high * OFFSET_UNIT + rest, COLLECTION_FLAG, high, rest);
    assert high % 2 == Flag(c, 1);
  }

  /** tag_less. */
  predicate Less(a: Token, b: Token) { Normalized(TagOf(a)) < Normalized(TagOf(b)) }

  /** tag_same. */
  predicate Same(a: Token, b: Token) { Normalized(TagOf(a)) == Normalized(TagOf(b)) }

  /** Preplaced before loose; preplaced by offset, then genus, then size; loose by genus, then id. */
  predicate Before(a: Token, b: Token) {
    match (a, b)
    case (Preplaced(o, g, s, _, _), Preplaced(p, h, z, _, _)) => o < p || (o == p && (g < h || (g == h && s < z)))
    case (Preplaced(_, _, _, _, _), Loose(_, _, _, _, _)) => true
    case (Loose(_, _, _, _, _), Preplaced(_, _, _, _, _)) => false
    case (Loose(g, i, _, _, _), Loose(h, j, _, _, _)) => g < h || (g == h && i < j)
  }

  /** The order of normalised tags is the order of the schema, and only the flags are ignored. */
  lemma TagOrder(a: Token, b: Token)
    requires Fits(a) && Fits(b)
    ensures Less(a, b) <==> Before(a, b)
    ensures Same(a, b) <==> AllFlags(a) == AllFlags(b)
  {
    NormalizedIs(a);
    NormalizedIs(b);
    hide Normalized;
  }

  /** Offsets that fit into a tag. */
  const OFFSETS := 0x4000

  /** The tag to look for an offset with, cut to 32 bits. */
  function OffsetTag(offset: nat): nat { offset * OFFSET_UNIT % 0x1_0000_0000 }

  /** The offset can be read back, as the search asserts, exactly when it fits. */
  lemma OffsetTagIs(offset: nat)
    ensures OffsetTag(offset) == offset % OFFSETS * OFFSET_UNIT
    ensures OffsetTag(offset) / OFFSET_UNIT == offset <==> offset < OFFSETS
  {
    var q, r := offset / OFFSETS, offset % OFFSETS;
    Shifts.QuotientIs(offset * OFFSET_UNIT, 0x1_0000_0000, q, r * OFFSET_UNIT);
    Shifts.QuotientIs(r * OFFSET_UNIT, OFFSET_UNIT, r, 0);
  }

  /** A token's tag is below that of an offset exactly when its own offset is below what is left of
      that one: the bits below the offset, flags included, do not matter, so there is no need to
      normalise. */
  lemma OffsetOrder(t: Token, offset: nat)
    requires Fits(t) && t.Preplaced?
    ensures TagOf(t) < OffsetTag(offset) <==> t.offset < offset % OFFSETS
  {
    OffsetTagIs(offset);
    assert t.genus * ID_SPAN + t.size + Flag(t.nullable, NULL_FLAG) + Flag(t.saturated, SATURATION_FLAG) < OFFSET_UNIT;
  }
}
