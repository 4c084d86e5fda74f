/** The schema: tokens sorted by tag, preplaced fields laid out one after another, loose fields
    numbered by type; and the searches over it. */
module Schemas {
  import opened Tags
  import opened Tuples

  datatype Refusal = InvalidType | NameTooLong | NameExists | TokenExists
      | Crossing | Overlap | TooManyPreplaced | TooManyLoose

  datatype Definition = Defined(ident: Token) | Refused(why: Refusal)

  const MAX_NAME := 42

  /** Bytes of a preplaced field: variable-length fields take a reference of four. */
  function PreplacedBytes(genus: nat): (b: nat)
    requires genus < HOLE_GENUS
    ensures b == 1 || b == 2 || (b > 0 && b % 4 == 0)
    ensures 0 < b < ID_SPAN
  {
    if genus <= 3 then 4 else if genus <= 5 then 1 else if genus <= 7 then 2
    else if genus <= 11 then 4 else if genus <= 16 then 8
    else if genus <= 22 then 4 * (genus - 14)
    else if genus == 23 then 40 else if genus == 24 then 48 else if genus == 25 then 64
    else if genus == 26 || genus == 28 then 8 else if genus == 27 || genus == 29 then 16
    else 20
  }

  function AlignOf(bytes: nat): nat { if bytes > 4 then 4 else bytes }

  lemma AlignIsPower(genus: nat)
    requires genus < HOLE_GENUS
    ensures var a := AlignOf(PreplacedBytes(genus)); a == 1 || a == 2 || a == 4
  {
  }

  /** The next offset that is a multiple of 1, 2 or 4. */
  function Aligned(offset: nat, align: nat): (r: nat)
    requires align == 1 || align == 2 || align == 4
    ensures offset <= r < offset + align && r % align == 0
  {
    AlignedStep(offset, align);
    if offset % align == 0 then offset else offset + (align - offset % align)
  }

  lemma AlignedStep(offset: nat, align: nat)
    requires align == 1 || align == 2 || align == 4
    ensures offset % align < align && (offset + (align - offset % align)) % align == 0
  {
    if align == 1 {
    } else if align == 2 {
      assert (offset + (2 - offset % 2)) % 2 == 0;
    } else {
      assert (offset + (4 - offset % 4)) % 4 == 0;
    }
  }

  function EndOf(t: Token): nat
    requires t.Preplaced?
  {
    t.offset + t.size
  }

  // ---- What is kept -----------------------------------------------------------------------------------------

  ghost predicate Sorted(s: seq<Token>) { forall i, j :: 0 <= i < j < |s| ==> Less(s[i], s[j]) }

  ghost predicate AllFit(s: seq<Token>) { forall t :: t in s ==> Fits(t) }

  /** The first `n` tokens are the preplaced ones, in the order of their offsets, each aligned,
      none overlapping the next, the last ending with the image. */
  ghost predicate LaidOut(s: seq<Token>, n: nat, image: nat) {
    && n <= |s|
    && (forall i :: 0 <= i < |s| ==> (s[i].Preplaced? <==> i < n))
    && (forall i :: 0 <= i < n ==>
          s[i].genus < HOLE_GENUS && s[i].size == PreplacedBytes(s[i].genus) && s[i].offset % AlignOf(s[i].size) == 0)
    && (forall i, j :: 0 <= i < j < n ==> EndOf(s[i]) <= s[j].offset)
    && (if n == 0 then image == 0 else EndOf(s[n - 1]) == image)
  }

  ghost predicate HasLoose(s: seq<Token>, genus: nat, id: nat) {
    exists t :: t in s && t.Loose? && t.genus == genus && t.id == id
  }

  /** The ids of each type are consecutive from zero. */
  ghost predicate Numbered(s: seq<Token>) {
    forall t :: t in s && t.Loose? ==> t.id < LOOSE_END && (t.id > 0 ==> HasLoose(s, t.genus, t.id - 1))
  }

  ghost predicate WellFormed(s: seq<Token>, n: nat, image: nat) {
    Sorted(s) && AllFit(s) && LaidOut(s, n, image) && Numbered(s)
  }

  // ---- Insertion in order --------------------------------------------------------------------------------------

  /** Tokens less than `t`. */
  function CountLess(s: seq<Token>, t: Token): (k: nat)
    ensures k <= |s|
    ensures forall i :: 0 <= i < k ==> Less(s[i], t)
    ensures k < |s| ==> !Less(s[k], t)
  {
    if s == [] || !Less(s[0], t) then 0 else 1 + CountLess(s[1..], t)
  }

  /** Pushing a new token and sorting puts it in its place. */
  function Placed(s: seq<Token>, t: Token): (r: seq<Token>)
    ensures |r| == |s| + 1
  {
    var k := CountLess(s, t);
    s[..k] + [t] + s[k..]
  }

  lemma PlacedMembers(s: seq<Token>, t: Token)
    ensures forall x :: x in Placed(s, t) <==> x in s || x == t
    ensures multiset(Placed(s, t)) == multiset(s) + multiset{t}
  {
    var k := CountLess(s, t);
    assert s == s[..k] + s[k..];
  }

  lemma LessIsTransitive(a: Token, b: Token, c: Token)
    ensures Less(a, b) && Less(b, c) ==> Less(a, c)
    ensures !Less(a, b) && !Same(a, b) ==> Less(b, a)
    ensures !Less(a, b) && Less(a, c) ==> Less(b, c)
  {
    hide Normalized;
  }

  lemma NextIsGreater(s: seq<Token>, t: Token)
    requires !Taken(s, t) && CountLess(s, t) < |s|
    ensures Less(t, s[CountLess(s, t)])
  {
    LessIsTransitive(s[CountLess(s, t)], t, t);
  }

  lemma PlacedSorted(s: seq<Token>, t: Token)
    requires Sorted(s) && !Taken(s, t)
    ensures Sorted(Placed(s, t))
  {
    hide Less, Same, CountLess, Taken;
    var k := CountLess(s, t);
    var r := Placed(s, t);
    if k < |s| { NextIsGreater(s, t); }
    forall i, j | 0 <= i < j < |r| ensures Less(r[i], r[j]) {
      if j == k {
        assert r[i] == s[i];
      } else if i == k {
        assert r[j] == s[j - 1];
        LessIsTransitive(t, s[k], s[j - 1]);
        if j - 1 > k { assert Less(s[k], s[j - 1]); }
      } else {
        assert r[i] == s[if i < k then i else i - 1] && r[j] == s[if j < k then j else j - 1];
      }
    }
  }

  // ---- A preplaced field is added at the end of the image ---------------------------------------------------------

  lemma PreplacedGoesLast(s: seq<Token>, n: nat, image: nat, t: Token)
    requires WellFormed(s, n, image) && Fits(t) && t.Preplaced? && t.offset >= image
    ensures CountLess(s, t) == n
    ensures !Taken(s, t)
  {
    hide Sorted, Numbered;
    forall i | 0 <= i < |s| ensures (Less(s[i], t) <==> i < n) && !Same(s[i], t) {
      PreplacedPlace(s, n, image, t, i);
    }
    hide Less, Same, Fits, AllFit;
    CountLessIs(s, t, n);
  }

  lemma {:induction false} CountLessIs(s: seq<Token>, t: Token, n: nat)
    requires n <= |s| && forall i :: 0 <= i < |s| ==> (Less(s[i], t) <==> i < n)
    ensures CountLess(s, t) == n
    decreases |s|
  {
    hide Less;
    if n > 0 { CountLessIs(s[1..], t, n - 1); }
  }

  lemma PreplacedPlace(s: seq<Token>, n: nat, image: nat, t: Token, i: nat)
    requires LaidOut(s, n, image) && AllFit(s) && Fits(t) && t.Preplaced? && t.offset >= image && i < |s|
    ensures (Less(s[i], t) <==> i < n) && !Same(s[i], t)
  {
    assert s[i] in s;
    if i < n - 1 { assert EndOf(s[i]) <= s[n - 1].offset; }
    assert i < n ==> s[i].offset < t.offset;
    hide LaidOut, AllFit, Less, Same;
    TagOrder(s[i], t);
  }

  /** A token that differs at most in its flags is there already. */
  ghost predicate Taken(s: seq<Token>, t: Token) { exists i :: 0 <= i < |s| && Same(s[i], t) }

  lemma PreplacedKeeps(s: seq<Token>, n: nat, image: nat, t: Token)
    requires WellFormed(s, n, image) && Fits(t) && t.Preplaced? && t.offset >= image
    requires t.genus < HOLE_GENUS && t.size == PreplacedBytes(t.genus) && t.offset % AlignOf(t.size) == 0
    ensures WellFormed(Placed(s, t), n + 1, EndOf(t))
    ensures Placed(s, t) == s[..n] + [t] + s[n..]
  {
    PreplacedGoesLast(s, n, image, t);
    PlacedSorted(s, t);
    PlacedMembers(s, t);
    hide Less, Same, Sorted;
    PreplacedLayout(s, n, image, t);
    PreplacedNumbers(s, Placed(s, t), t);
  }

  lemma PreplacedLayout(s: seq<Token>, n: nat, image: nat, t: Token)
    requires LaidOut(s, n, image) && t.Preplaced? && t.offset >= image
    requires t.genus < HOLE_GENUS && t.size == PreplacedBytes(t.genus) && t.offset % AlignOf(t.size) == 0
    ensures LaidOut(s[..n] + [t] + s[n..], n + 1, EndOf(t))
  {
    var r := s[..n] + [t] + s[n..];
    forall i | 0 <= i < |r| && i != n ensures r[i] == s[if i < n then i else i - 1] {}
    forall i, j | 0 <= i < j < n + 1 ensures EndOf(r[i]) <= r[j].offset {
      if j == n && i < n - 1 { assert EndOf(s[i]) <= s[n - 1].offset; }
    }
  }

  lemma PreplacedNumbers(s: seq<Token>, r: seq<Token>, t: Token)
    requires Numbered(s) && t.Preplaced? && forall x :: x in r <==> x in s || x == t
    ensures Numbered(r)
  {
    forall x | x in r && x.Loose? ensures x.id < LOOSE_END && (x.id > 0 ==> HasLoose(r, x.genus, x.id - 1)) {
      if x.id > 0 {
        var y :| y in s && y.Loose? && y.genus == x.genus && y.id == x.id - 1;
        assert y in r;
      }
    }
  }

  // ---- A loose field gets the next id ------------------------------------------------------------------------------

  /** get_next_loose_id: the token before the place of (type, largest id), if it is of this type. */
  function NextLooseId(s: seq<Token>, genus: nat): nat {
    var k := CountLess(s, Loose(genus, ID_SPAN - 1, false, false, false));
    if k > 0 && s[k - 1].Loose? && s[k - 1].genus == genus then s[k - 1].id + 1 else 0
  }

  /** The next id is fresh, and all below it are taken. */
  lemma NextIsFresh(s: seq<Token>, n: nat, image: nat, genus: nat)
    requires WellFormed(s, n, image) && genus < HOLE_GENUS
    ensures var id := NextLooseId(s, genus);
            && !HasLoose(s, genus, id)
            && (forall t :: t in s && t.Loose? && t.genus == genus ==> t.id < id)
            && (id > 0 ==> HasLoose(s, genus, id - 1))
  {
    hide Less, Sorted, LaidOut, CountLess;
    var probe := Loose(genus, ID_SPAN - 1, false, false, false);
    var k := CountLess(s, probe);
    forall t | t in s && t.Loose? && t.genus == genus
      ensures k > 0 && s[k - 1].Loose? && s[k - 1].genus == genus && t.id <= s[k - 1].id
    {
      var i :| 0 <= i < |s| && s[i] == t;
      LastOfType(s, genus, probe, k, i);
    }
    if k > 0 && s[k - 1].Loose? && s[k - 1].genus == genus {
      assert s[k - 1] in s;
    }
  }

  /** A token of the type stands before the place of its largest id, where the search looks. */
  lemma LastOfType(s: seq<Token>, genus: nat, probe: Token, k: nat, i: nat)
    requires Sorted(s) && Numbered(s) && AllFit(s) && genus < HOLE_GENUS
             && probe == Loose(genus, ID_SPAN - 1, false, false, false)
    requires k == CountLess(s, probe) && i < |s| && s[i].Loose? && s[i].genus == genus
    ensures 0 < k && s[k - 1].Loose? && s[k - 1].genus == genus && s[i].id <= s[k - 1].id
  {
    hide Numbered, Less, Sorted;
    assert s[i].id < LOOSE_END by { assert s[i] in s; IdsAreSmall(s, s[i]); }
    assert Fits(s[i]) && Fits(probe) by { assert s[i] in s; }
    TagOrder(s[i], probe);
    LessAreFirst(s, probe, i);
    var last := s[k - 1];
    assert Fits(last) && Less(last, probe) by { assert last in s; }
    TagOrder(last, probe);
    TagOrder(s[i], last);
    SortedAt(s, i, k - 1);
  }

  lemma IdsAreSmall(s: seq<Token>, t: Token)
    requires Numbered(s) && t in s && t.Loose?
    ensures t.id < LOOSE_END
  {
  }

  lemma SortedAt(s: seq<Token>, i: nat, j: nat)
    requires Sorted(s) && i <= j < |s|
    ensures i == j || Less(s[i], s[j])
  {
  }

  lemma LessAreFirst(s: seq<Token>, t: Token, i: nat)
    requires Sorted(s) && i < |s| && Less(s[i], t)
    ensures i < CountLess(s, t)
  {
    var k := CountLess(s, t);
    hide Less, CountLess;
    if k <= i {
      SortedAt(s, k, i);
      LessIsTransitive(s[k], s[i], t);
    }
  }

  lemma LooseKeeps(s: seq<Token>, n: nat, image: nat, t: Token)
    requires WellFormed(s, n, image) && t.Loose? && t.genus < HOLE_GENUS && t.id == NextLooseId(s, t.genus)
             && t.id < LOOSE_END
    ensures WellFormed(Placed(s, t), n, image) && Fits(t) && !Taken(s, t)
  {
    NextIsFresh(s, n, image, t.genus);
    forall i | 0 <= i < |s| ensures !Same(s[i], t) {
      assert s[i] in s;
      TagOrder(s[i], t);
    }
    PlacedSorted(s, t);
    PlacedMembers(s, t);
    LooseAfter(s, n, image, t);
    hide Less, Same, Sorted, NextLooseId;
    LooseLayout(s, n, image, t, CountLess(s, t));
    LooseNumbers(s, Placed(s, t), t);
  }

  lemma LooseAfter(s: seq<Token>, n: nat, image: nat, t: Token)
    requires WellFormed(s, n, image) && t.Loose? && Fits(t)
    ensures CountLess(s, t) >= n
  {
    var k := CountLess(s, t);
    if k < n {
      assert s[k] in s;
      TagOrder(s[k], t);
    }
  }

  lemma LooseLayout(s: seq<Token>, n: nat, image: nat, t: Token, k: nat)
    requires LaidOut(s, n, image) && t.Loose? && n <= k <= |s|
    ensures LaidOut(s[..k] + [t] + s[k..], n, image)
  {
    var r := s[..k] + [t] + s[k..];
    forall i | 0 <= i < |r| && i != k ensures r[i] == s[if i < k then i else i - 1] {}
  }

  lemma LooseNumbers(s: seq<Token>, r: seq<Token>, t: Token)
    requires Numbered(s) && t.Loose? && t.id < LOOSE_END && (forall x :: x in r <==> x in s || x == t)
    requires t.id > 0 ==> HasLoose(s, t.genus, t.id - 1)
    ensures Numbered(r)
  {
    forall x | x in r && x.Loose? ensures x.id < LOOSE_END && (x.id > 0 ==> HasLoose(r, x.genus, x.id - 1)) {
      if x.id > 0 {
        var y :| y in s && y.Loose? && y.genus == x.genus && y.id == x.id - 1;
        assert y in r;
      }
    }
  }

  // ---- Places -------------------------------------------------------------------------------------------------------

  /** One end of `a` lies inside `b` without the other. */
  predicate Crosses(a: Token, b: Token)
    requires a.Preplaced? && b.Preplaced?
  {
    (b.offset <= a.offset < EndOf(b)) != (b.offset <= EndOf(a) - 1 < EndOf(b))
  }

  predicate Overlaps(a: Token, b: Token)
    requires a.Preplaced? && b.Preplaced?
  {
    EndOf(a) > b.offset && a.offset < EndOf(b)
  }

  predicate Collides(a: Token, b: Token) {
    a.Preplaced? && b.Preplaced? &&
    (Crosses(a, b) || (a.genus != HOLE_GENUS && b.genus != HOLE_GENUS && Overlaps(a, b)))
  }

  /** Byte `u` belongs to the field. */
  predicate HasByte(t: Token, u: int)
    requires t.Preplaced?
  {
    t.offset <= u < EndOf(t)
  }

  /** Two fields collide exactly when they share a byte. A field and an opaque structure may, as long
      as the ends of the new one are both inside or both outside. */
  lemma CollidesIff(a: Token, b: Token)
    requires a.Preplaced? && b.Preplaced? && a.size > 0 && b.size > 0
    ensures a.genus != HOLE_GENUS && b.genus != HOLE_GENUS
            ==> (Collides(a, b) <==> exists u: int :: HasByte(a, u) && HasByte(b, u))
    ensures a.genus == HOLE_GENUS || b.genus == HOLE_GENUS
            ==> (Collides(a, b) <==> (HasByte(b, a.offset) != HasByte(b, EndOf(a) - 1)))
  {
    if Collides(a, b) && a.genus != HOLE_GENUS && b.genus != HOLE_GENUS {
      var u := if a.offset < b.offset then b.offset else a.offset;
      assert HasByte(a, u) && HasByte(b, u);
    }
  }

  ghost predicate Conflict(s: seq<Token>, t: Token) { exists i :: 0 <= i < |s| && Collides(t, s[i]) }

  /** The first token the new one collides with is crossed, or else overlapped. */
  ghost predicate FirstConflict(s: seq<Token>, t: Token, why: Refusal) {
    exists i :: 0 <= i < |s| && Collides(t, s[i]) && (forall j :: 0 <= j < i ==> !Collides(t, s[j]))
                && why == if Crosses(t, s[i]) then Crossing else Overlap
  }

  /** The token is one that the two kinds of definition make. */
  ghost predicate Belongs(s: seq<Token>, image: nat, t: Token) {
    && Fits(t) && t.genus < HOLE_GENUS
    && match t
       case Preplaced(offset, genus, size, _, _) =>
         offset >= image && size == PreplacedBytes(genus) && offset % AlignOf(size) == 0
       case Loose(genus, id, _, _, _) => id == NextLooseId(s, genus) && id < LOOSE_END
  }

  lemma BelongingKeeps(s: seq<Token>, n: nat, image: nat, t: Token)
    requires WellFormed(s, n, image) && Belongs(s, image, t)
    ensures WellFormed(Placed(s, t), if t.Preplaced? then n + 1 else n, if t.Preplaced? then EndOf(t) else image)
  {
    hide WellFormed, NextLooseId;
    if t.Preplaced? {
      PreplacedKeeps(s, n, image, t);
    } else {
      LooseKeeps(s, n, image, t);
    }
  }

  /** Such a token is never taken and never collides: neither of the two checks can fail. */
  lemma BelongingIsFree(s: seq<Token>, n: nat, image: nat, t: Token)
    requires WellFormed(s, n, image) && Belongs(s, image, t)
    ensures !Taken(s, t) && !Conflict(s, t)
  {
    if t.Preplaced? {
      PreplacedGoesLast(s, n, image, t);
      hide Less, Sorted, Numbered;
      forall i | 0 <= i < |s| ensures !Collides(t, s[i]) {
        if i < n - 1 { assert EndOf(s[i]) <= s[n - 1].offset; }
      }
    } else {
      LooseKeeps(s, n, image, t);
    }
  }

  // ---- The object ---------------------------------------------------------------------------------------------------

  /** Every token has one name. */
  ghost predicate Named(s: seq<Token>, names: map<string, Token>) {
    && |names| == |s|
    && (forall x :: x in names ==> names[x] in s)
    && (forall x, y :: x in names && y in names && x != y ==> names[x] != names[y])
  }

  lemma NamedAlso(s: seq<Token>, names: map<string, Token>, name: string, t: Token)
    requires Named(s, names) && name !in names && !Taken(s, t)
    ensures Named(Placed(s, t), names[name := t])
  {
    PlacedMembers(s, t);
    hide Same, Placed;
    forall x | x in names ensures names[x] != t {
      var i :| 0 <= i < |s| && s[i] == names[x];
      SameAsItself(t);
    }
  }

  lemma SameAsItself(t: Token)
    ensures Same(t, t)
  {
  }

  /** Preplaced fields of variable length. */
  function Stretchy(s: seq<Token>): nat {
    if s == [] then 0 else (if s[0].Preplaced? && s[0].genus <= 3 then 1 else 0) + Stretchy(s[1..])
  }

  lemma {:induction false} StretchyConcat(a: seq<Token>, b: seq<Token>)
    ensures Stretchy(a + b) == Stretchy(a) + Stretchy(b)
    decreases |a|
  {
    if a == [] {
      assert a + b == b;
    } else {
      assert (a + b)[1..] == a[1..] + b;
      StretchyConcat(a[1..], b);
    }
  }

  lemma StretchyPlaced(s: seq<Token>, t: Token)
    ensures Stretchy(Placed(s, t)) == Stretchy(s) + if t.Preplaced? && t.genus <= 3 then 1 else 0
  {
    var k := CountLess(s, t);
    assert s == s[..k] + s[k..];
    StretchyConcat(s[..k], s[k..]);
    StretchyConcat(s[..k] + [t], s[k..]);
    StretchyConcat(s[..k], [t]);
    assert [t][1..] == [];
  }

  class Schema {
    var tokens: seq<Token>
    var preplaced: nat
    var stretchy: nat
    var image: nat
    var names: map<string, Token>

    constructor ()
      ensures Valid() && tokens == [] && image == 0 && names == map[]
    {
      tokens, preplaced, stretchy, image, names := [], 0, 0, 0, map[];
    }

    ghost predicate Valid()
      reads this
    {
      WellFormed(tokens, preplaced, image) && Named(tokens, names) && stretchy == Stretchy(tokens)
    }

    /** add_definition. */
    method AddDefinition(name: string, ident: Token) returns (r: Definition)
      requires Valid() && Fits(ident)
      requires |name| <= MAX_NAME && name !in names && !Taken(tokens, ident) && !Conflict(tokens, ident)
               ==> Belongs(tokens, image, ident)
      modifies this
      ensures Valid()
      ensures r.Defined? <==>
                |name| <= MAX_NAME && name !in old(names) && !Taken(old(tokens), ident) && !Conflict(old(tokens), ident)
      ensures r.Defined? ==>
                && r.ident == ident && tokens == Placed(old(tokens), ident) && names == old(names)[name := ident]
                && image == (if ident.Preplaced? then EndOf(ident) else old(image))
      ensures r.Refused? ==> tokens == old(tokens) && names == old(names) && image == old(image)
      ensures r.Refused? && |name| > MAX_NAME ==> r.why == NameTooLong
      ensures r.Refused? && |name| <= MAX_NAME && name in old(names) ==> r.why == NameExists
      ensures r.Refused? && |name| <= MAX_NAME && name !in old(names) && Taken(old(tokens), ident)
              ==> r.why == TokenExists
      ensures r.Refused? && |name| <= MAX_NAME && name !in old(names) && !Taken(old(tokens), ident)
              ==> FirstConflict(old(tokens), ident, r.why)
    {
      if |name| > MAX_NAME { return Refused(NameTooLong); }
      if name in names { return Refused(NameExists); }
      var known := FindSame(ident);
      if known { return Refused(TokenExists); }
      var why := CheckPlace(ident);
      if why.Some? { return Refused(why.value); }
      Enter(name, ident);
      r := Defined(ident);
    }

    /** The part of add_definition that changes the schema. */
    method Enter(name: string, ident: Token)
      requires Valid() && Belongs(tokens, image, ident) && name !in names
      modifies this
      ensures Valid() && tokens == Placed(old(tokens), ident) && names == old(names)[name := ident]
      ensures image == (if ident.Preplaced? then EndOf(ident) else old(image))
    {
      hide WellFormed, Belongs, Placed, Named, Stretchy, Taken;
      BelongingIsFree(tokens, preplaced, image, ident);
      BelongingKeeps(tokens, preplaced, image, ident);
      NamedAlso(tokens, names, name, ident);
      StretchyPlaced(tokens, ident);
      if ident.Preplaced? {
        image := EndOf(ident);
        stretchy := stretchy + if ident.genus <= 3 then 1 else 0;
        preplaced := preplaced + 1;
      }
      tokens := Placed(tokens, ident);
      names := names[name := ident];
    }

    /** The look-up in the map from tokens to names, which ignores the flags. */
    method FindSame(ident: Token) returns (found: bool)
      ensures found <==> Taken(tokens, ident)
    {
      var i := 0;
      while i < |tokens|
        invariant 0 <= i <= |tokens| && forall j :: 0 <= j < i ==> !Same(tokens[j], ident)
      {
        if Same(tokens[i], ident) { return true; }
        i := i + 1;
      }
      return false;
    }

    /** The loop over the preplaced tokens that looks for crossing and overlapping fields. */
    method CheckPlace(ident: Token) returns (why: Option<Refusal>)
      requires LaidOut(tokens, preplaced, image)
      ensures why.Some? <==> Conflict(tokens, ident)
      ensures why.Some? ==> FirstConflict(tokens, ident, why.value)
    {
      if ident.Loose? { return None; }
      var i := 0;
      while i < |tokens| && tokens[i].Preplaced?
        invariant 0 <= i <= |tokens| && forall j :: 0 <= j < i ==> !Collides(ident, tokens[j])
      {
        if Crosses(ident, tokens[i]) { return Some(Crossing); }
        if ident.genus != HOLE_GENUS && tokens[i].genus != HOLE_GENUS && Overlaps(ident, tokens[i]) {
          return Some(Overlap);
        }
        i := i + 1;
      }
      return None;
    }

    /** define_preplaced: the field begins at the next aligned byte past the image. */
    method DefinePreplaced(name: string, genus: nat, nullable: bool, saturated: bool) returns (r: Definition)
      requires Valid()
      modifies this
      ensures Valid()
      ensures r.Defined? ==>
                && genus < HOLE_GENUS && r.ident.Preplaced? && r.ident.genus == genus && r.ident.nullable == nullable
                   && r.ident.saturated == saturated
                && r.ident.offset == Aligned(old(image), AlignOf(PreplacedBytes(genus))) && image == EndOf(r.ident)
                && multiset(tokens) == multiset(old(tokens)) + multiset{r.ident} && names == old(names)[name := r.ident]
      ensures r.Refused? ==> tokens == old(tokens) && names == old(names) && image == old(image)
      ensures r.Refused? <==> genus >= HOLE_GENUS || |name| > MAX_NAME || name in old(names)
                              || Aligned(old(image), AlignOf(PreplacedBytes(genus))) > MAX_PREPLACED_OFFSET
      ensures r.Refused? ==> r.why == if genus >= HOLE_GENUS then InvalidType
                                      else if Aligned(old(image), AlignOf(PreplacedBytes(genus))) > MAX_PREPLACED_OFFSET
                                           then TooManyPreplaced
                                      else if |name| > MAX_NAME then NameTooLong else NameExists
    {
      if genus >= HOLE_GENUS { return Refused(InvalidType); }
      var bytes := PreplacedBytes(genus);
      AlignIsPower(genus);
      var offset := Aligned(image, AlignOf(bytes));
      if offset > MAX_PREPLACED_OFFSET { return Refused(TooManyPreplaced); }
      var ident := Preplaced(offset, genus, bytes, nullable, saturated);
      hide WellFormed, Aligned, PreplacedBytes, Taken, Conflict, Placed, Named, Stretchy;
      PlacedMembers(tokens, ident);
      BelongingIsFree(tokens, preplaced, image, ident);
      r := AddDefinition(name, ident);
    }

    /** define_loose: the field gets the next id of its type. */
    method DefineLoose(name: string, genus: nat, collection: bool, nullable: bool, saturated: bool)
        returns (r: Definition)
      requires Valid()
      modifies this
      ensures Valid()
      ensures r.Defined? ==>
                && r.ident.Loose? && r.ident.genus == genus && r.ident.id == NextLooseId(old(tokens), genus)
                && r.ident.collection == collection && r.ident.nullable == nullable && r.ident.saturated == saturated
                && !HasLoose(old(tokens), genus, r.ident.id) && image == old(image)
                && multiset(tokens) == multiset(old(tokens)) + multiset{r.ident} && names == old(names)[name := r.ident]
      ensures r.Refused? ==> tokens == old(tokens) && names == old(names) && image == old(image)
      ensures r.Refused? <==> genus >= HOLE_GENUS || |name| > MAX_NAME || name in old(names) ||
                              NextLooseId(old(tokens), genus) >= LOOSE_END
      ensures r.Refused? ==> r.why == if genus >= HOLE_GENUS then InvalidType
                                    else if NextLooseId(old(tokens), genus) >= LOOSE_END then TooManyLoose
                                      else if |name| > MAX_NAME then NameTooLong else NameExists
    {
      if genus >= HOLE_GENUS { return Refused(InvalidType); }
      var id := NextLooseId(tokens, genus);
      NextIsFresh(tokens, preplaced, image, genus);
      if id >= LOOSE_END { return Refused(TooManyLoose); }
      var ident := Loose(genus, id, collection, nullable, saturated);
      hide WellFormed, NextLooseId, Taken, Conflict, Placed, Named, Stretchy;
      PlacedMembers(tokens, ident);
      BelongingIsFree(tokens, preplaced, image, ident);
      r := AddDefinition(name, ident);
    }

    // ---- Searching ------------------------------------------------------------------------------------------------

    /** search_preplaced: halving without normalising, the last three one by one. With assertions
        on it fails for an offset that does not fit into a tag. */
    method SearchPreplaced(offset: nat, asserting: bool) returns (r: Option<nat>)
      requires Valid()
      ensures r == Search(tokens, preplaced, offset, asserting)
    {
      hide Less, Sorted, Numbered, Named, Stretchy, LowerBound, TagOf, Fits, OffsetTag;
      OffsetTagIs(offset);
      var tag := OffsetTag(offset);
      if asserting && tag / OFFSET_UNIT != offset { return None; }
      ghost var rest := offset % OFFSETS;
      var span: nat, iter: nat := preplaced, 0;
      while span > 3
        invariant iter + span <= preplaced
        invariant forall i :: 0 <= i < iter ==> tokens[i].offset < rest
        invariant forall i :: iter + span <= i < preplaced ==> tokens[i].offset >= rest
      {
        var top := span;
        span := span / 2;
        var middle := iter + span;
        assert tokens[middle] in tokens;
        OffsetOrder(tokens[middle], offset);
        if TagOf(tokens[middle]) < tag {
          forall i | 0 <= i <= middle
              ensures tokens[i].offset < rest { OffsetsInOrder(tokens, preplaced, image, i, middle); }
          iter := middle + 1;
          span := top - span - 1;
        } else {
          forall i | middle <= i < preplaced
              ensures tokens[i].offset >= rest { OffsetsInOrder(tokens, preplaced, image, middle, i); }
        }
      }
      while span > 0
        invariant iter + span <= preplaced
        invariant forall i :: 0 <= i < iter ==> tokens[i].offset < rest
        invariant forall i :: iter + span <= i < preplaced ==> tokens[i].offset >= rest
      {
        assert tokens[iter] in tokens;
        OffsetOrder(tokens[iter], offset);
        if TagOf(tokens[iter]) >= tag {
          forall i | iter <= i < preplaced
              ensures tokens[i].offset >= rest { OffsetsInOrder(tokens, preplaced, image, iter, i); }
          break;
        }
        iter := iter + 1;
        span := span - 1;
      }
      LowerBoundIs(tokens, preplaced, rest, iter);
      r := Some(iter);
    }

    /** by_offset. In a build without assertions it is always right. */
    method ByOffset(offset: int, asserting: bool) returns (r: Found)
      requires Valid()
      ensures r.Failed? <==> asserting && OFFSETS <= offset < image
      ensures r.There? ==> r.token in tokens && r.token.Preplaced? && r.token.offset == offset
      ensures r.Nothing? ==> forall t :: t in tokens && t.Preplaced? ==> t.offset != offset
    {
      hide Less, Sorted, Numbered, Named, Stretchy, LowerBound, PreplacedBytes, AllFit;
      LastBegins(tokens, preplaced, image);
      if offset >= 0 && offset < image {
        var found := SearchPreplaced(offset, asserting);
        if found.None? { return Failed; }
        var iter := found.value;
        if iter < preplaced && tokens[iter].offset == offset { return There(tokens[iter]); }
        NotThere(tokens, preplaced, image, offset);
      }
      r := Nothing;
    }

    method NextByOffset(offset: int, asserting: bool) returns (r: Found)
      requires Valid()
      ensures r == Next(tokens, preplaced, image, offset, asserting)
    {
      hide Less, Sorted, AllFit, Numbered, Named, Stretchy, LowerBound;
      if offset >= 0 && offset < image {
        var found := SearchPreplaced(offset, asserting);
        if found.None? { return Failed; }
        var iter := found.value;
        if iter < preplaced {
          iter := iter + if tokens[iter].offset == offset then 1 else 0;
          if iter < preplaced { return There(tokens[iter]); }
        }
      }
      return Nothing;
    }

    method PrevByOffset(offset: int, asserting: bool) returns (r: Found)
      requires Valid()
      ensures r == Prev(tokens, preplaced, image, offset, asserting)
    {
      hide Less, Sorted, AllFit, Numbered, Named, Stretchy, LowerBound;
      if offset > 0 && offset <= image {
        var found := SearchPreplaced(offset, asserting);
        if found.None? { return Failed; }
        if found.value >= 1 { return There(tokens[found.value - 1]); }
      }
      return Nothing;
    }
  }

  // ---- What the searches find ---------------------------------------------------------------------------------------

  /** The linear search: the first preplaced token that does not begin before `offset`. */
  function LowerBound(s: seq<Token>, n: nat, offset: nat): (k: nat)
    requires n <= |s|
    ensures k <= n
  {
    if n == 0 || !s[0].Preplaced? || s[0].offset >= offset then 0 else 1 + LowerBound(s[1..], n - 1, offset)
  }

  lemma {:induction false} LowerBoundIs(s: seq<Token>, n: nat, offset: nat, k: nat)
    requires k <= n <= |s| && (forall i :: 0 <= i < n ==> s[i].Preplaced?)
    requires (forall i :: 0 <= i < k ==> s[i].offset < offset) && (k < n ==> s[k].offset >= offset)
    ensures LowerBound(s, n, offset) == k
    decreases n
  {
    if k > 0 {
      var t := s[1..];
      assert forall i :: 0 <= i < n - 1 ==> t[i] == s[i + 1];
      LowerBoundIs(t, n - 1, offset, k - 1);
    }
  }

  lemma {:induction false} LowerBoundMeans(s: seq<Token>, n: nat, offset: nat)
    requires n <= |s| && forall i :: 0 <= i < n ==> s[i].Preplaced?
    ensures var k := LowerBound(s, n, offset);
            (forall i :: 0 <= i < k ==> s[i].offset < offset) && (k < n ==> s[k].offset >= offset)
    decreases n
  {
    if n > 0 && s[0].offset < offset {
      var t := s[1..];
      assert forall i :: 0 <= i < n - 1 ==> t[i] == s[i + 1];
      LowerBoundMeans(t, n - 1, offset);
      var k := LowerBound(t, n - 1, offset);
      forall i | 0 <= i < k + 1 ensures s[i].offset < offset {
        if i > 0 { assert t[i - 1] == s[i]; }
      }
    }
  }

  lemma OffsetsInOrder(s: seq<Token>, n: nat, image: nat, i: nat, j: nat)
    requires LaidOut(s, n, image) && i <= j < n
    ensures s[i].offset <= s[j].offset && (i < j ==> s[i].offset < s[j].offset)
  {
    if i < j { assert EndOf(s[i]) <= s[j].offset; }
  }

  /** The first token past `offset`. */
  function Following(s: seq<Token>, n: nat, offset: nat): Option<Token>
    requires n <= |s| && forall i :: 0 <= i < n ==> s[i].Preplaced?
  {
    var k := LowerBound(s, n, offset + 1);
    if k < n then Some(s[k]) else None
  }

  /** The last token before `offset`. */
  function Preceding(s: seq<Token>, n: nat, offset: nat): Option<Token>
    requires n <= |s|
  {
    var k := LowerBound(s, n, offset);
    if k > 0 then Some(s[k - 1]) else None
  }

  /** The token past `offset` is next to where `offset` is found. */
  lemma FollowingIs(s: seq<Token>, n: nat, image: nat, offset: nat)
    requires LaidOut(s, n, image)
    ensures var k := LowerBound(s, n, offset);
            LowerBound(s, n, offset + 1) == if k < n && s[k].offset == offset then k + 1 else k
  {
    hide LowerBound, PreplacedBytes, AlignOf;
    LowerBoundMeans(s, n, offset);
    var k := LowerBound(s, n, offset);
    if k < n && s[k].offset == offset {
      if k + 1 < n { OffsetsInOrder(s, n, image, k, k + 1); }
      LowerBoundIs(s, n, offset + 1, k + 1);
    } else {
      LowerBoundIs(s, n, offset + 1, k);
    }
  }

  // ---- Offsets that do not fit into a tag -----------------------------------------------------------------

  datatype Found = There(token: Token) | Nothing | Failed

  function Find(t: Option<Token>): Found { if t.Some? then There(t.value) else Nothing }

  /** The search as written: the offset is cut to the bits a tag has for it. */
  function Search(s: seq<Token>, n: nat, offset: nat, asserting: bool): Option<nat>
    requires n <= |s|
  {
    if asserting && offset >= OFFSETS then None else Some(LowerBound(s, n, offset % OFFSETS))
  }

  function Next(s: seq<Token>, n: nat, image: nat, offset: int, asserting: bool): Found
    requires n <= |s| && forall i :: 0 <= i < n ==> s[i].Preplaced?
  {
    if 0 <= offset < image then
      match Search(s, n, offset, asserting)
      case None => Failed
      case Some(k) =>
        if k == n then Nothing
        else if s[k].offset != offset then There(s[k])
        else if k + 1 < n then There(s[k + 1]) else Nothing
    else Nothing
  }

  function Prev(s: seq<Token>, n: nat, image: nat, offset: int, asserting: bool): Found
    requires n <= |s|
  {
    if 0 < offset <= image then
      match Search(s, n, offset, asserting)
      case None => Failed
      case Some(k) => if k > 0 then There(s[k - 1]) else Nothing
    else Nothing
  }

  /** Every field begins where an offset fits, but the image can end further on. */
  lemma LastBegins(s: seq<Token>, n: nat, image: nat)
    requires LaidOut(s, n, image) && AllFit(s)
    ensures forall i :: 0 <= i < n ==> s[i].offset < OFFSETS && s[i].offset < image
    ensures image >= OFFSETS ==> n > 0 && image - OFFSETS < s[n - 1].offset && image < 2 * OFFSETS
  {
    hide PreplacedBytes;
    forall i | 0 <= i < n ensures s[i].offset < OFFSETS && s[i].offset < image {
      assert s[i] in s;
      OffsetsInOrder(s, n, image, i, n - 1);
    }
    if n > 0 { assert s[n - 1] in s; }
  }

  /** For an offset within the image or at its end the search is what it should be exactly when the
      offset fits into a tag, with assertions and without. */
  lemma SearchIff(s: seq<Token>, n: nat, image: nat, offset: nat, asserting: bool)
    requires LaidOut(s, n, image) && AllFit(s) && offset <= image
    ensures Search(s, n, offset, asserting) == Some(LowerBound(s, n, offset)) <==> offset < OFFSETS
    ensures offset >= OFFSETS ==> LowerBound(s, n, offset) == n && n > 0 && LowerBound(s, n, offset % OFFSETS) < n
  {
    hide LowerBound, PreplacedBytes;
    LastBegins(s, n, image);
    if offset >= OFFSETS {
      LowerBoundIs(s, n, offset, n);
      LowerBoundMeans(s, n, offset % OFFSETS);
      assert offset % OFFSETS == offset - OFFSETS;
    }
  }

  /** So is the step to the next field, which otherwise goes back to an early one or fails. */
  lemma NextIff(s: seq<Token>, n: nat, image: nat, offset: int, asserting: bool)
    requires LaidOut(s, n, image) && AllFit(s)
    ensures Next(s, n, image, offset, asserting) ==
            (if 0 <= offset < image then Find(Following(s, n, offset)) else Nothing)
            <==> !(OFFSETS <= offset < image)
  {
    hide LowerBound, PreplacedBytes;
    if 0 <= offset < image {
      SearchIff(s, n, image, offset, asserting);
      LastBegins(s, n, image);
      FollowingIs(s, n, image, offset);
    }
  }

  /** And the step to the one before, which is needed at the end of the image. */
  lemma PrevIff(s: seq<Token>, n: nat, image: nat, offset: int, asserting: bool)
    requires LaidOut(s, n, image) && AllFit(s)
    ensures Prev(s, n, image, offset, asserting) ==
            (if 0 < offset <= image then Find(Preceding(s, n, offset)) else Nothing)
            <==> !(OFFSETS <= offset <= image)
  {
    hide LowerBound, PreplacedBytes;
    if 0 < offset <= image {
      SearchIff(s, n, image, offset, asserting);
      LastBegins(s, n, image);
      if offset >= OFFSETS { DifferentTokens(s, n, image, LowerBound(s, n, offset % OFFSETS)); }
    }
  }

  lemma DifferentTokens(s: seq<Token>, n: nat, image: nat, k: nat)
    requires LaidOut(s, n, image) && k < n
    ensures k > 0 ==> s[k - 1] != s[n - 1]
  {
    if k > 0 { OffsetsInOrder(s, n, image, k - 1, n - 1); }
  }

  /** A field that the search does not find is not there. */
  lemma NotThere(s: seq<Token>, n: nat, image: nat, offset: nat)
    requires LaidOut(s, n, image) && AllFit(s)
    requires var k := LowerBound(s, n, offset % OFFSETS); k < n ==> s[k].offset != offset
    ensures forall i :: 0 <= i < n ==> s[i].offset != offset
  {
    hide LowerBound, PreplacedBytes, AllFit;
    LastBegins(s, n, image);
    LowerBoundMeans(s, n, offset % OFFSETS);
    var k := LowerBound(s, n, offset % OFFSETS);
    forall i | 0 <= i < n ensures s[i].offset != offset {
      if i > k { OffsetsInOrder(s, n, image, k, i); }
    }
  }

  lemma WalkLinear(s: seq<Token>, n: nat, image: nat, i: nat)
    requires LaidOut(s, n, image) && i < n
    ensures s[i].offset < image
    ensures Following(s, n, s[i].offset) == if i + 1 < n then Some(s[i + 1]) else None
    ensures Preceding(s, n, s[i].offset) == if i > 0 then Some(s[i - 1]) else None
    ensures Preceding(s, n, image) == Some(s[n - 1])
  {
    hide LowerBound, PreplacedBytes, AlignOf;
    forall j | 0 <= j < n ensures s[j].offset < image && (j < i ==> s[j].offset < s[i].offset) {
      OffsetsInOrder(s, n, image, j, n - 1);
      if j < i { OffsetsInOrder(s, n, image, j, i); }
    }
    LowerBoundIs(s, n, s[i].offset, i);
    FollowingIs(s, n, image, s[i].offset);
    LowerBoundIs(s, n, image, n);
  }

  /** Going from token to token by their offsets visits every preplaced field once, in order, and
      going back undoes it. Going back from the end finds the last field exactly when the end of the
      image fits into a tag. */
  lemma WalkByOffset(s: seq<Token>, n: nat, image: nat, i: nat, asserting: bool)
    requires LaidOut(s, n, image) && AllFit(s) && i < n
    ensures s[i].offset < image
    ensures Next(s, n, image, s[i].offset, asserting) == if i + 1 < n then There(s[i + 1]) else Nothing
    ensures Prev(s, n, image, s[i].offset, asserting) == if i > 0 then There(s[i - 1]) else Nothing
    ensures Prev(s, n, image, image, asserting) == There(s[n - 1]) <==> image < OFFSETS
  {
    hide LowerBound, PreplacedBytes, AllFit, Next, Prev, Following, Preceding, AlignOf;
    LastBegins(s, n, image);
    WalkLinear(s, n, image, i);
    NextIff(s, n, image, s[i].offset, asserting);
    PrevIff(s, n, image, s[i].offset, asserting);
    PrevIff(s, n, image, image, asserting);
    assert s[i].offset == 0 ==> i == 0 by { if i > 0 { OffsetsInOrder(s, n, image, 0, i); } }
    FromStart(s, n, image, asserting);
  }

  lemma FromStart(s: seq<Token>, n: nat, image: nat, asserting: bool)
    requires n <= |s|
    ensures Prev(s, n, image, 0, asserting) == Nothing
  {
  }

  /** One field of four bytes at offset 16380: the image ends at 16384, and the way back from there
      does not find the field. */
  lemma EndIsLost(asserting: bool)
    ensures var t := Preplaced(16380, 8, 4, false, false);
            && WellFormed([t], 1, 16384) && Preceding([t], 1, 16384) == Some(t)
            && Prev([t], 1, 16384, 16384, asserting) == if asserting then Failed else Nothing
  {
    hide Less;
    var t := Preplaced(16380, 8, 4, false, false);
    assert LowerBound([t], 1, 0) == 0;
    assert LowerBound([t][1..], 0, 16384) == 0;
  }
}
