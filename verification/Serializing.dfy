/** A tuple is its own serialised form: take_asis puts a header before the index, and a tuple
    is created again by copying the units behind the header into a buffer. */
module Serializing {
  import opened Ledger
  import opened Tuples
  import opened Gear
  import opened Compaction
  import opened Abstract
  import opened Stepping
  import opened Running
  import opened Relocating
  import opened Autogrowth
  import Shifts
  import opened Audit
  import opened Agreement

  /** The header, whose two halves are 16 bits each, and the units behind it. */
  datatype Image = Image(brutto: nat, itemsAndFlags: nat, units: seq<Unit>)

  const FLAGS := 8
  const PREPLACED_FLAG := 2

  /** take_asis; nothing when its first assertion fails. The sorted flag is never set. */
  function TakeAsis(s: State): Option<Image>
    requires Bounds(s)
  {
    if s.tail - s.head >= UINT16_MAX || s.pivot - s.head > MAX_FIELDS then None
    else Some(Image((s.tail - s.head + 1) % 65536,
                    ((s.pivot - s.head) * FLAGS + if |s.schema| > 0 then PREPLACED_FLAG else 0) % 65536,
                    s.area[s.head..s.tail]))
  }

  function IndexSize(i: Image): nat { i.itemsAndFlags / FLAGS }

  predicate HavePreplaced(i: Image) { i.itemsAndFlags / PREPLACED_FLAG % 2 == 1 }

  function PayloadUnits(i: Image): int { i.brutto - 1 - IndexSize(i) }

  /** The image as the auditor walks over it. */
  function Walked(i: Image, schema: seq<Option<nat>>): State {
    State(i.units, 0, IndexSize(i), |i.units|, 0, 0, schema)
  }

  /** tuple_ro::audit: the quick checks of the header, then the audit. */
  ghost predicate AcceptableRo(i: Image, schema: seq<Option<nat>>) {
    && 1 <= |i.units| + 1 <= MAX_UNITS && |i.units| + 1 == i.brutto && IndexSize(i) <= MAX_FIELDS
    && IndexSize(i) <= |i.units|
    && Acceptable(Walked(i, schema), HavePreplaced(i), false)
  }

  /** take_asis with, as written, the assertion that audits the image. */
  ghost function Taken(mode: Mode, s: State): Option<Image>
    requires Bounds(s)
  {
    var i := TakeAsis(s);
    if i.Some? && mode.AsWritten? && !AcceptableRo(i.value, s.schema) then None else i
  }

  datatype Fetched = Tuple(state: State) | Corrupted | InvalidArgument | TooLarge | NoSpace | Overrun

  function ReserveItems(i: Image, moreItems: nat): nat { Min(MAX_FIELDS, IndexSize(i) + moreItems) }

  /** The sanity limit on the bytes of a buffer. */
  const BUFFER_BYTES := 4 * BUFFER_LIMIT

  /** Units for the tuple in a buffer of `bytes` bytes that begins with `header` bytes. */
  function Capacity(bytes: nat, header: nat): nat { if bytes < header then 0 else (bytes - header) / 4 }

  /** create_from_buffer into a buffer of `bytes` bytes, the first `header` of which the object
      takes before its array. What the array held is `stale`. */
  ghost function Fetch(i: Image, schema: seq<Option<nat>>, moreItems: nat, bytes: nat, header: nat,
      stale: seq<Unit>): Fetched
    requires |stale| == Min(MAX_UNITS, Capacity(bytes, header))
  {
    if !AcceptableRo(i, schema) then Corrupted
    else if moreItems > MAX_FIELDS || bytes > BUFFER_BYTES then InvalidArgument
    else if PayloadUnits(i) > MAX_UNITS - |schema| then TooLarge
    else
      var pivot := ReserveItems(i, moreItems);
      var head := pivot - IndexSize(i);
      var tail := pivot + PayloadUnits(i);
      if bytes < header + 4 * tail then NoSpace
      else if tail > |stale| || head < 0 then Overrun
      else Tuple(State(stale[..head] + i.units + stale[tail..], head, pivot, tail,
                       HolesBelow(Walked(i, schema), 0), VolumeBelow(Walked(i, schema), 0), schema))
  }

  // ---- The header --------------------------------------------------------------------------------------

  /** Every tuple with no more loose fields than the limit can be taken. */
  lemma TakenIff(s: State)
    requires Bounds(s)
    ensures TakeAsis(s).Some? <==> s.pivot - s.head <= MAX_FIELDS
  {
  }

  /** The header can be read back: 13 bits hold the size of the index, 16 the size of it all. */
  lemma HeaderReadsBack(s: State)
    requires Bounds(s) && TakeAsis(s).Some?
    ensures var i := TakeAsis(s).value;
            && i.brutto == s.tail - s.head + 1 && IndexSize(i) == s.pivot - s.head
               && PayloadUnits(i) == s.tail - s.pivot
            && (HavePreplaced(i) <==> |s.schema| > 0)
            && i.units == s.area[s.head..s.tail]
  {
    var items, flags := s.pivot - s.head, if |s.schema| > 0 then PREPLACED_FLAG else 0;
    var x := items * FLAGS + flags;
    assert x % 65536 == x;
    BitsReadBack(x, items, flags);
  }

  lemma BitsReadBack(x: nat, items: nat, flags: nat)
    requires x == items * FLAGS + flags && (flags == 0 || flags == PREPLACED_FLAG)
    ensures x / FLAGS == items && (x / PREPLACED_FLAG % 2 == 1 <==> flags == PREPLACED_FLAG)
  {
    Shifts.QuotientIs(x, FLAGS, items, flags);
    var bit := if flags == 0 then 0 else 1;
    var q := 2 * (2 * items) + bit;
    Shifts.QuotientIs(x, PREPLACED_FLAG, q, 0);
    Shifts.QuotientIs(q, 2, 2 * items, bit);
    assert q == q / 2 * 2 + q % 2;
  }

  // ---- The counters do not matter to the auditor ---------------------------------------------------------

  lemma {:induction false} SameCounts(s: State, t: State, k: nat)
    requires t == s.(count := t.count, volume := t.volume) && k <= s.pivot <= |s.area|
    ensures HolesBelow(t, k) == HolesBelow(s, k) && VolumeBelow(t, k) == VolumeBelow(s, k)
    decreases s.pivot - k
  {
    if k < s.pivot { SameCounts(s, t, k + 1); }
  }

  lemma SameFine(s: State, t: State, j: int, m: int)
    requires t == s.(count := t.count, volume := t.volume) && AllFine(s, j, m)
    ensures AllFine(t, j, m)
  {
    hide UnitsAt;
    forall k | j <= k < m ensures Fine(t, k) && ChunkOf(t, k) == ChunkOf(s, k) {
      SameChunkOf(s, t, k);
      assert Fine(s, k);
    }
    hide Fine, ChunkOf;
    forall k, l | j <= k < l < m ensures Apart(ChunkOf(t, k), ChunkOf(t, l)) {}
  }

  lemma SameChunkOf(s: State, t: State, k: nat)
    requires t == s.(count := t.count, volume := t.volume) && k < |s.area|
    ensures ChunkOf(t, k) == ChunkOf(s, k) && UnitsAt(t, k) == UnitsAt(s, k) && (Fine(t, k) <==> Fine(s, k))
  {
    hide BruttoUnits, LooseUnits;
  }

  lemma SameExact(s: State, t: State)
    requires t == s.(count := t.count, volume := t.volume) && (SomeChunk(s) ==> Exact(s))
    ensures SomeChunk(t) ==> Exact(t)
  {
    hide Fine, ChunkOf;
    if SomeChunk(t) {
      forall k | 0 <= k < |s.area| ensures ChunkOf(t, k) == ChunkOf(s, k) {
        SameChunkOf(s, t, k);
      }
      assert SomeChunk(s);
      forall u | Floor(t) <= u < t.tail ensures OwnedIn(t, t.head, Floor(t), u) {
        assert OwnedIn(s, s.head, Floor(s), u);
      }
    }
  }

  lemma SameVerdict(s: State, t: State, havePreplaced: bool)
    requires t == s.(count := t.count, volume := t.volume) && Acceptable(s, havePreplaced, false)
    ensures Acceptable(t, havePreplaced, false)
  {
    SameCounts(s, t, s.head);
    SameFine(s, t, s.head, Floor(s));
    SameExact(s, t);
    hide AllFine, Exact, SomeChunk;
  }

  // ---- Round trip ---------------------------------------------------------------------------------------------

  /** The units of `s` standing alone. */
  function Alone(s: State): State
    requires Bounds(s)
  {
    State(s.area[s.head..s.tail], 0, s.pivot - s.head, s.tail - s.head, s.count, s.volume, s.schema)
  }

  lemma AloneRelocated(s: State)
    requires Bounds(s)
    ensures Relocated(s, Alone(s), 0 - s.head)
  {
    forall k | s.head <= k < s.tail ensures Alone(s).area[k + (0 - s.head)] == s.area[k] {}
  }

  lemma AlonePasses(s: State)
    requires Steady(s) && Furnished(s) && Bounds(s)
    ensures var a := Alone(s);
            && (InLimit(s) ==> Acceptable(a, |s.schema| > 0, false))
            && HolesBelow(a, 0) == s.count && VolumeBelow(a, 0) == s.volume
  {
    AloneRelocated(s);
    hide UnitsAt;
    RelocatedKeeps(s, Alone(s), 0 - s.head);
    FurnishedMoves(s, Alone(s), 0 - s.head);
    hide Steady, Furnished, Relocated, References;
    AuditComplete(Alone(s));
    OrderlyCounts(Alone(s));
  }

  lemma FurnishedMoves(s: State, t: State, d: int)
    requires Furnished(s) && Relocated(s, t, d)
    ensures Furnished(t)
  {
    forall k: nat | t.head <= k < t.pivot && Refers(t, k) && !IsStretchy(t.area[k].tag.genus)
      ensures t.area[k].rel != 0
    {
      RelocatedCell(s, t, d, k - d);
    }
  }

  /** What is taken passes tuple_ro::audit, unless the tuple fills the largest buffer, when it is
      one unit longer than the quick checks allow, or has too many descriptors and references. */
  lemma TakenPasses(s: State)
    requires Steady(s) && Furnished(s) && Bounds(s)
    ensures Taken(AsWritten, s).Some? <==> s.tail - s.head < MAX_UNITS && InLimit(s)
    ensures Taken(Repaired, s).Some? <==> s.pivot - s.head <= MAX_FIELDS
    ensures s.pivot - s.head <= MAX_FIELDS ==>
              && TakeAsis(s).Some?
              && (AcceptableRo(TakeAsis(s).value, s.schema) <==> s.tail - s.head < MAX_UNITS && InLimit(s))
              && HolesBelow(Walked(TakeAsis(s).value, s.schema), 0) == s.count
              && VolumeBelow(Walked(TakeAsis(s).value, s.schema), 0) == s.volume
  {
    TakenIff(s);
    if s.pivot - s.head <= MAX_FIELDS { ImagePasses(s); }
    hide TakeAsis, AcceptableRo, References;
  }

  lemma ImagePasses(s: State)
    requires Steady(s) && Furnished(s) && Bounds(s) && TakeAsis(s).Some?
    ensures AcceptableRo(TakeAsis(s).value, s.schema) <==> s.tail - s.head < MAX_UNITS && InLimit(s)
    ensures HolesBelow(Walked(TakeAsis(s).value, s.schema), 0) == s.count
    ensures VolumeBelow(Walked(TakeAsis(s).value, s.schema), 0) == s.volume
  {
    HeaderReadsBack(s);
    AlonePasses(s);
    var i := TakeAsis(s).value;
    hide TakeAsis, Steady, Furnished, AllFine, Exact, SomeChunk, Separated, PayloadUnits, IndexSize, HavePreplaced,
        References;
    assert Walked(i, s.schema) == Alone(s).(count := 0, volume := 0);
    if InLimit(s) { SameVerdict(Alone(s), Walked(i, s.schema), |s.schema| > 0); }
    SameCounts(Alone(s), Walked(i, s.schema), 0);
  }

  /** The conditions under which a taken tuple can be fetched into a buffer. */
  predicate Fetchable(s: State, moreItems: nat, bytes: nat, header: nat)
    requires Bounds(s)
  {
    var tail := Min(MAX_FIELDS, s.pivot - s.head + moreItems) + (s.tail - s.pivot);
    Admitted(s, moreItems, bytes) && header + 4 * tail <= bytes && tail <= MAX_UNITS
  }

  /** The checks that come before the space is measured. */
  predicate Admitted(s: State, moreItems: nat, bytes: nat) {
    && s.tail - s.head < MAX_UNITS && InLimit(s) && moreItems <= MAX_FIELDS && bytes <= BUFFER_BYTES
    && s.tail - s.pivot <= MAX_UNITS - |s.schema|
  }

  lemma FetchedRelocated(s: State, t: State, pivot: nat, stale: seq<Unit>)
    requires Bounds(s) && s.pivot - s.head <= pivot && pivot + (s.tail - s.pivot) <= |stale| <= MAX_UNITS
    requires var head := pivot - (s.pivot - s.head); var tail := pivot + (s.tail - s.pivot);
             t == State(stale[..head] + s.area[s.head..s.tail] + stale[tail..], head, pivot, tail,
                        s.count, s.volume, s.schema)
    ensures Relocated(s, t, pivot - s.pivot)
  {
    var d := pivot - s.pivot;
    forall k | s.head <= k < s.tail ensures t.area[k + d] == s.area[k] {
      assert t.area[k + d] == s.area[s.head..s.tail][k - s.head];
    }
  }

  /** Taking a tuple and fetching what was taken; nothing when it cannot be taken. */
  ghost function Transfer(s: State, moreItems: nat, bytes: nat, header: nat, stale: seq<Unit>): Option<Fetched>
    requires Bounds(s) && |stale| == Min(MAX_UNITS, Capacity(bytes, header))
  {
    match TakeAsis(s)
    case None => None
    case Some(i) => Some(Fetch(i, s.schema, moreItems, bytes, header, stale))
  }

  /** Another tuple with the same fields in the same order, values and counters. */
  ghost predicate SameTuple(s: State, t: State)
    requires Bounds(s)
  {
    && Steady(t) && Bounds(t) && AcceptableRw(t) && ViewOf(t) == ViewOf(s) && t.schema == s.schema
    && t.count == s.count && t.volume == s.volume && LooseFields(t, t.head) == LooseFields(s, s.head)
  }

  /** Taking a tuple and fetching it gives a tuple that shows the same, with the same counters
      and the fields in the same order, and passes the audit, exactly when it is fetchable. */
  lemma RoundTrip(s: State, moreItems: nat, bytes: nat, header: nat, stale: seq<Unit>)
    requires Steady(s) && Furnished(s) && Bounds(s) && |stale| == Min(MAX_UNITS, Capacity(bytes, header))
    ensures var r := Transfer(s, moreItems, bytes, header, stale);
            && (r.Some? && r.value.Tuple? <==> Fetchable(s, moreItems, bytes, header))
            && (r.Some? && r.value.Tuple? ==>
                  && SameTuple(s, r.value.state) && |r.value.state.area| == Min(MAX_UNITS, Capacity(bytes, header))
                  && r.value.state.pivot == Min(MAX_FIELDS, s.pivot - s.head + moreItems))
  {
    hide Steady, Furnished, Fetch, TakeAsis, AcceptableRw, ViewOf, LooseFields;
    TakenIff(s);
    if s.pivot - s.head <= MAX_FIELDS {
      FetchedIs(s, moreItems, bytes, header, stale);
    } else {
      BeyondLimit(s);
    }
  }

  lemma BeyondLimit(s: State)
    requires s.pivot - s.head > MAX_FIELDS
    ensures !InLimit(s)
  {
  }

  lemma FetchedIs(s: State, moreItems: nat, bytes: nat, header: nat, stale: seq<Unit>)
    requires Steady(s) && Furnished(s) && Bounds(s) && TakeAsis(s).Some?
             && |stale| == Min(MAX_UNITS, Capacity(bytes, header))
    ensures var r := Fetch(TakeAsis(s).value, s.schema, moreItems, bytes, header, stale);
            && (r.Tuple? <==> Fetchable(s, moreItems, bytes, header))
            && (r.Tuple? ==> && SameTuple(s, r.state) && |r.state.area| == |stale|
                             && r.state.pivot == Min(MAX_FIELDS, s.pivot - s.head + moreItems))
  {
    hide Steady, Furnished, AcceptableRo, PayloadUnits, IndexSize, HavePreplaced, HolesBelow, VolumeBelow, ViewOf,
        LooseFields, Relocated, AcceptableRw, References;
    TakenPasses(s);
    TakenIff(s);
    HeaderReadsBack(s);
    var i := TakeAsis(s).value;
    var r := Fetch(i, s.schema, moreItems, bytes, header, stale);
    if r.Tuple? {
      var pivot := ReserveItems(i, moreItems);
      FetchedRelocated(s, r.state, pivot, stale);
      RelocatedKeeps(s, r.state, pivot - s.pivot);
      FurnishedMoves(s, r.state, pivot - s.pivot);
      AuditComplete(r.state);
    }
  }

  /** The constructor would copy past the end of the new tuple exactly when the buffer is large
      enough, but a tuple may not be, for the reserve of items together with the payload. */
  lemma ReserveOverruns(s: State, moreItems: nat, bytes: nat, header: nat, stale: seq<Unit>)
    requires Steady(s) && Furnished(s) && Bounds(s) && |stale| == Min(MAX_UNITS, Capacity(bytes, header))
    ensures var tail := Min(MAX_FIELDS, s.pivot - s.head + moreItems) + (s.tail - s.pivot);
            Transfer(s, moreItems, bytes, header, stale) == Some(Overrun)
            <==> Admitted(s, moreItems, bytes) && MAX_UNITS < tail && header + 4 * tail <= bytes
  {
    hide Steady, Furnished, AcceptableRo, PayloadUnits, IndexSize, HavePreplaced, HolesBelow, VolumeBelow, References,
        TakeAsis;
    TakenIff(s);
    if s.pivot - s.head <= MAX_FIELDS {
      TakenPasses(s);
      HeaderReadsBack(s);
    } else {
      BeyondLimit(s);
    }
  }

  /** The other refusals, each by what the tuple and the buffer are. */
  lemma Refusals(s: State, moreItems: nat, bytes: nat, header: nat, stale: seq<Unit>)
    requires Steady(s) && Furnished(s) && Bounds(s) && |stale| == Min(MAX_UNITS, Capacity(bytes, header))
    ensures var r := Transfer(s, moreItems, bytes, header, stale);
            var tail := Min(MAX_FIELDS, s.pivot - s.head + moreItems) + (s.tail - s.pivot);
            var passes := s.tail - s.head < MAX_UNITS && InLimit(s);
            && (r == Some(Corrupted) <==> s.pivot - s.head <= MAX_FIELDS && !passes)
            && (r == Some(InvalidArgument) <==> passes && (moreItems > MAX_FIELDS || bytes > BUFFER_BYTES))
            && (r == Some(TooLarge) <==>
                  && passes && moreItems <= MAX_FIELDS && bytes <= BUFFER_BYTES
                  && s.tail - s.pivot > MAX_UNITS - |s.schema|)
            && (r == Some(NoSpace) <==> Admitted(s, moreItems, bytes) && bytes < header + 4 * tail)
  {
    hide Steady, Furnished, AcceptableRo, PayloadUnits, IndexSize, HavePreplaced, HolesBelow, VolumeBelow, References,
        TakeAsis;
    TakenIff(s);
    if s.pivot - s.head <= MAX_FIELDS {
      TakenPasses(s);
      HeaderReadsBack(s);
    } else {
      BeyondLimit(s);
    }
  }

  /** One nested tuple of sixty thousand units. */
  function Bulky(): State {
    State([Unit(1, Tag(2, 1), 60000), Unit(60000, Tag(0, 0), 0)] + seq(59999, i => EMPTY_HOLE), 0, 1, 60001, 0, 0, [])
  }

  lemma BulkyIsSteady()
    ensures Steady(Bulky()) && Furnished(Bulky()) && TakeAsis(Bulky()).Some?
  {
    var s := Bulky();
    assert Slots(s) == [Slot(false, 1, 60000)];
    assert Slots(s)[1..] == [];
    assert UnitsAt(s, 0) == 60000;
  }

  /** With a reserve of eight thousand items it does not fit, however large the buffer. */
  lemma BulkyOverruns(stale: seq<Unit>)
    requires |stale| == MAX_UNITS
    ensures Bounds(Bulky()) && TakeAsis(Bulky()).Some? && Capacity(300000, 64) >= MAX_UNITS
    ensures Fetch(TakeAsis(Bulky()).value, [], 8000, 300000, 64, stale) == Overrun
  {
    BulkyIsSteady();
    assert References([]) == 0;
    hide Steady, Furnished, Fetch, TakeAsis, References;
    TakenIff(Bulky());
    ReserveOverruns(Bulky(), 8000, 300000, 64, stale);
  }

  /** A tuple that fills the largest buffer fails the assertion when it is taken; taken without
      assertions it cannot be fetched. */
  lemma LargestIsLost(s: State, moreItems: nat, bytes: nat, header: nat, stale: seq<Unit>)
    requires Steady(s) && Furnished(s) && Bounds(s) && s.pivot - s.head <= MAX_FIELDS
             && |stale| == Min(MAX_UNITS, Capacity(bytes, header))
    requires s.tail - s.head == MAX_UNITS
    ensures Taken(AsWritten, s).None? && TakeAsis(s).Some?
    ensures Fetch(TakeAsis(s).value, s.schema, moreItems, bytes, header, stale) == Corrupted
  {
    TakenPasses(s);
    hide Steady, Furnished, AcceptableRo;
  }
}
