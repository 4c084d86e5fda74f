/** The tuple as its user sees it: a bag of loose fields and the preplaced values. */
module Abstract {
  import opened Ledger
  import opened Tuples
  import opened Searching
  import opened Framing

  datatype View = View(loose: multiset<Field>, preplaced: seq<Value>)

  function FieldAt(s: State, k: nat): Field
    requires k < |s.area|
  {
    Field(s.area[k].tag, ValueAt(s, k))
  }

  /** What unit `k` contributes to the bag. */
  function Piece(s: State, k: nat): multiset<Field>
    requires k < |s.area|
  {
    if k < s.pivot && IsLive(s, k) then multiset{FieldAt(s, k)} else multiset{}
  }

  function Bag(s: State, k: nat): multiset<Field>
    requires k <= s.pivot <= |s.area|
    decreases s.pivot - k
  {
    if k == s.pivot then multiset{} else Piece(s, k) + Bag(s, k + 1)
  }

  function PreplacedAt(s: State, i: nat): Value
    requires i < |s.schema| && s.pivot + i < |s.area|
  {
    if s.schema[i].Some? then ValueAt(s, s.pivot + i) else Data([s.area[s.pivot + i]])
  }

  function Preplaced(s: State): (r: seq<Value>)
    requires Bounds(s)
    ensures |r| == |s.schema| && forall i :: 0 <= i < |r| ==> r[i] == PreplacedAt(s, i)
  {
    seq(|s.schema|, i requires 0 <= i < |s.schema| => PreplacedAt(s, i))
  }

  function ViewOf(s: State): View
    requires Bounds(s)
  {
    View(Bag(s, 0), Preplaced(s))
  }

  /** The bag is the index, read in any order. */
  lemma {:induction false} BagIsIndex(s: State, k: nat)
    requires s.head <= k <= s.pivot <= |s.area|
    ensures Bag(s, k) == multiset(LooseFields(s, k))
    decreases s.pivot - k
  {
    if k < s.pivot {
      BagIsIndex(s, k + 1);
    }
  }

  lemma {:induction false} BagBelowHead(s: State, k: nat)
    requires k <= s.head <= s.pivot <= |s.area|
    ensures Bag(s, k) == Bag(s, s.head)
    decreases s.head - k
  {
    if k < s.head {
      BagBelowHead(s, k + 1);
    }
  }

  lemma BagOfTuple(s: State)
    requires Bounds(s)
    ensures Bag(s, 0) == multiset(LooseFields(s, s.head))
  {
    BagBelowHead(s, 0);
    BagIsIndex(s, s.head);
  }

  // ---- How a step changes the view ------------------------------------------------------------------

  /** Other than at `x` both states show the same. */
  ghost predicate SameElsewhere(s: State, t: State, x: int) {
    && Bounds(s) && Bounds(t) && t.pivot == s.pivot && t.schema == s.schema && |t.area| == |s.area|
    && (forall k: nat :: k < s.pivot && k != x ==> Piece(t, k) == Piece(s, k))
    && (forall i: nat :: i < |s.schema| && s.pivot + i != x ==> PreplacedAt(t, i) == PreplacedAt(s, i))
  }

  /** The bag without the contribution of unit `x`. */
  function BagBut(s: State, x: int, k: nat): multiset<Field>
    requires k <= s.pivot <= |s.area|
    decreases s.pivot - k
  {
    if k == s.pivot then multiset{} else (if k == x then multiset{} else Piece(s, k)) + BagBut(s, x, k + 1)
  }

  lemma {:induction false} BagSplit(s: State, x: int, k: nat)
    requires k <= s.pivot <= |s.area|
    ensures Bag(s, k) == BagBut(s, x, k) + (if k <= x < s.pivot then Piece(s, x) else multiset{})
    decreases s.pivot - k
  {
    hide Piece;
    if k < s.pivot {
      BagSplit(s, x, k + 1);
    }
  }

  lemma {:induction false} BagButSame(s: State, t: State, x: int, k: nat)
    requires SameElsewhere(s, t, x) && k <= s.pivot
    ensures BagBut(t, x, k) == BagBut(s, x, k)
    decreases s.pivot - k
  {
    hide Piece, PreplacedAt;
    if k < s.pivot {
      BagButSame(s, t, x, k + 1);
    }
  }

  /** A value of `s` other than at `x` reads the same in `t`. */
  lemma ValueElsewhere(s: State, t: State, x: int, k: nat)
    requires Layout(s) && Untouched(s, t, x) && k != x && k < |s.area| && IsLive(s, k)
    requires k >= s.head && x < Floor(s)
    ensures ValueAt(t, k) == ValueAt(s, k)
  {
    if k < Floor(s) && Refers(s, k) && s.area[k].rel != 0 && s.area[k].own > 0 {
      SlotOf(s, k);
      assert Slots(s)[k - s.head].units > 0;
      var p := Payload(s, k);
      hide Packed, Slots, HolesMarked;
      assert Floor(s) <= p && p + s.area[k].own <= |s.area|;
      UntouchedRange(s, t, x, p, p + s.area[k].own);
    }
  }

  lemma UntouchedRange(s: State, t: State, x: int, p: int, q: int)
    requires Untouched(s, t, x) && s.pivot <= p <= q <= |s.area| && (x < p || x >= q)
    ensures t.area[p..q] == s.area[p..q]
  {
  }

  lemma UntouchedShowsSame(s: State, t: State, x: int)
    requires Layout(s) && Bounds(t) && Untouched(s, t, x) && x < Floor(s)
    ensures SameElsewhere(s, t, x)
  {
    forall k: nat | k < s.pivot && k != x ensures Piece(t, k) == Piece(s, k) {
      if IsLive(s, k) {
        ValueElsewhere(s, t, x, k);
      }
    }
    forall i: nat | i < |s.schema| && s.pivot + i != x ensures PreplacedAt(t, i) == PreplacedAt(s, i) {
      if s.schema[i].Some? {
        ValueElsewhere(s, t, x, s.pivot + i);
      }
    }
  }

  // ---- Effects on the view ----------------------------------------------------------------------------

  datatype Effect =
    | Nothing
    | Gained(field: Field)
    | Lost(field: Field)
    | Changed(before: Field, after: Field)
    | Set(i: nat, value: Value)

  function Perform(v: View, e: Effect): View {
    match e
    case Nothing => v
    case Gained(f) => v.(loose := v.loose + multiset{f})
    case Lost(f) => v.(loose := v.loose - multiset{f})
    case Changed(f, g) => v.(loose := v.loose - multiset{f} + multiset{g})
    case Set(i, x) => if i < |v.preplaced| then v.(preplaced := v.preplaced[i := x]) else v
  }

  lemma SamePreplaced(s: State, t: State, x: int)
    requires SameElsewhere(s, t, x)
    ensures forall i :: 0 <= i < |s.schema| && s.pivot + i != x ==> Preplaced(t)[i] == Preplaced(s)[i]
  {
    hide PreplacedAt, Piece;
  }

  lemma ViewAtLoose(s: State, t: State, x: nat)
    requires SameElsewhere(s, t, x) && x < s.pivot
    ensures ViewOf(t) == View(Bag(s, 0) - Piece(s, x) + Piece(t, x), Preplaced(s))
  {
    SamePreplaced(s, t, x);
    BagButSame(s, t, x, 0);
    BagSplit(s, x, 0);
    BagSplit(t, x, 0);
    hide Piece, Bag, SameElsewhere, PreplacedAt;
    assert Preplaced(t) == Preplaced(s);
  }

  lemma PieceInBag(s: State, x: nat)
    requires x < s.pivot <= |s.area|
    ensures Piece(s, x) <= Bag(s, 0)
  {
    BagSplit(s, x, 0);
  }

  lemma ViewAtPreplaced(s: State, t: State, i: nat)
    requires SameElsewhere(s, t, s.pivot + i) && i < |s.schema|
    ensures ViewOf(t) == View(Bag(s, 0), Preplaced(s)[i := PreplacedAt(t, i)])
  {
    hide Piece, Bag, PreplacedAt;
    SamePreplaced(s, t, s.pivot + i);
    BagButSame(s, t, s.pivot + i, 0);
    BagSplit(s, s.pivot + i, 0);
    BagSplit(t, s.pivot + i, 0);
    assert Preplaced(t) == Preplaced(s)[i := PreplacedAt(t, i)];
  }
}
