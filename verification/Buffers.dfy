/** The reference counter of a shared buffer, as a protocol: any number of threads, and detach
    in separate steps for its plain read, its atomic decrement, drown and repay. */
module Buffers {

  /** Where a thread is in detach: outside, past the read and about to decrement, past the
      decision that its reference was the last, past drown. */
  datatype Place = Outside | Decrementing | Last | Drowned

  /** A thread with the references it holds, besides the one it is detaching. */
  datatype Thread = Thread(refs: nat, place: Place)

  datatype Buffer = Buffer(counter: int, repaid: nat, threads: seq<Thread>)

  datatype Event =
    | AddReference(t: nat)
    | HandOver(t: nat, u: nat)
    | EnterDetach(t: nat)
    | Decrement(t: nat)
    | Drown(t: nat)
    | Repay(t: nat)

  /** What a thread may do: only who holds a reference may copy, pass on or detach it. */
  predicate Enabled(b: Buffer, e: Event) {
    match e
    case AddReference(t) => t < |b.threads| && b.threads[t].place.Outside? && b.threads[t].refs > 0
    case HandOver(t, u) =>
      t < |b.threads| && u < |b.threads| && t != u && b.threads[t].place.Outside? && b.threads[t].refs > 0
    case EnterDetach(t) => t < |b.threads| && b.threads[t].place.Outside? && b.threads[t].refs > 0
    case Decrement(t) => t < |b.threads| && b.threads[t].place.Decrementing?
    case Drown(t) => t < |b.threads| && b.threads[t].place.Last?
    case Repay(t) => t < |b.threads| && b.threads[t].place.Drowned?
  }

  function Update(b: Buffer, t: nat, th: Thread): (r: Buffer)
    requires t < |b.threads|
    ensures |r.threads| == |b.threads|
  {
    b.(threads := b.threads[t := th])
  }

  function Next(b: Buffer, e: Event): (r: Buffer)
    requires Enabled(b, e)
    ensures |r.threads| == |b.threads|
  {
    match e
    case AddReference(t) =>
      Update(b, t, b.threads[t].(refs := b.threads[t].refs + 1)).(counter := b.counter + 1)
    case HandOver(t, u) =>
      var c := Update(b, t, b.threads[t].(refs := b.threads[t].refs - 1));
      Update(c, u, c.threads[u].(refs := c.threads[u].refs + 1))
    case EnterDetach(t) =>
      Update(b, t, Thread(b.threads[t].refs - 1, if b.counter != 1 then Decrementing else Last))
    case Decrement(t) =>
      Update(b, t, b.threads[t].(place := if b.counter - 1 > 0 then Outside else Last)).(counter := b.counter - 1)
    case Drown(t) => Update(b, t, b.threads[t].(place := Drowned)).(counter := -1)
    case Repay(t) => Update(b, t, b.threads[t].(place := Outside)).(repaid := b.repaid + 1)
  }

  // ---- Sums over the threads -----------------------------------------------------------------------------

  function Held(s: seq<Thread>): nat { if s == [] then 0 else s[0].refs + Held(s[1..]) }

  function Inside(s: seq<Thread>, p: Place): nat {
    if s == [] then 0 else (if s[0].place == p then 1 else 0) + Inside(s[1..], p)
  }

  function One(th: Thread, p: Place): nat { if th.place == p then 1 else 0 }

  lemma {:induction false} SumsAfterUpdate(s: seq<Thread>, t: nat, th: Thread, p: Place)
    requires t < |s|
    ensures Held(s[t := th]) == Held(s) - s[t].refs + th.refs
    ensures Inside(s[t := th], p) == Inside(s, p) - One(s[t], p) + One(th, p)
    ensures s[t].refs <= Held(s) && One(s[t], p) <= Inside(s, p)
    decreases |s|
  {
    var d := s[t := th];
    if t == 0 {
      assert d[1..] == s[1..];
    } else {
      assert d[1..] == s[1..][t - 1 := th];
      SumsAfterUpdate(s[1..], t - 1, th, p);
    }
  }

  lemma {:induction false} TwoOfThem(s: seq<Thread>, t: nat, u: nat, p: Place)
    requires t < |s| && u < |s| && t != u
    ensures s[t].refs + s[u].refs <= Held(s) && One(s[t], p) + One(s[u], p) <= Inside(s, p)
    decreases |s|
  {
    SumsAfterUpdate(s, t, Thread(0, Outside), p);
    var d := s[t := Thread(0, if p.Outside? then Last else Outside)];
    SumsAfterUpdate(s, t, d[t], p);
    SumsAfterUpdate(d, u, d[u], p);
  }

  // ---- The invariant ---------------------------------------------------------------------------------------

  /** References in use: those held and those whose detach has not decremented yet. */
  function InUse(b: Buffer): nat { Held(b.threads) + Inside(b.threads, Decrementing) }

  function Leaving(b: Buffer): nat { Inside(b.threads, Last) + Inside(b.threads, Drowned) }

  /** Either the counter counts the references in use, or there are none and exactly one thread
      is giving the buffer back, or it has been given back once. */
  ghost predicate Consistent(b: Buffer) {
    if InUse(b) > 0 then b.counter == InUse(b) && Leaving(b) == 0 && b.repaid == 0
    else Leaving(b) + b.repaid == 1
  }

  lemma StepHolds(b: Buffer, e: Event, t: nat)
    requires Consistent(b) && Enabled(b, e) && t == (match e case HandOver(x, _) => x case _ => e.t)
    ensures Consistent(Next(b, e))
  {
    var s := b.threads;
    match e
    case HandOver(_, u) =>
      var x := s[t].(refs := s[t].refs - 1);
      var d := s[t := x];
      SumsAll(s, t, x);
      SumsAll(d, u, d[u].(refs := d[u].refs + 1));
    case _ =>
      SumsAll(s, t, Next(b, e).threads[t]);
  }

  lemma SumsAll(s: seq<Thread>, t: nat, th: Thread)
    requires t < |s|
    ensures Held(s[t := th]) == Held(s) - s[t].refs + th.refs && s[t].refs <= Held(s)
    ensures forall p ::
            Inside(s[t := th], p) == Inside(s, p) - One(s[t], p) + One(th, p) && One(s[t], p) <= Inside(s, p)
  {
    forall p ensures Inside(s[t := th], p) == Inside(s, p) - One(s[t], p) + One(th, p) && One(s[t], p) <= Inside(s, p) {
      SumsAfterUpdate(s, t, th, p);
    }
    SumsAfterUpdate(s, t, th, Last);
  }

  lemma StepKeeps(b: Buffer, e: Event)
    requires Consistent(b) && Enabled(b, e)
    ensures Consistent(Next(b, e))
  {
    StepHolds(b, e, match e case HandOver(x, _) => x case _ => e.t);
  }

  // ---- Every interleaving ------------------------------------------------------------------------------------

  ghost predicate Possible(b: Buffer, events: seq<Event>)
    decreases |events|
  {
    events == [] || (Enabled(b, events[0]) && Possible(Next(b, events[0]), events[1..]))
  }

  ghost function After(b: Buffer, events: seq<Event>): Buffer
    requires Possible(b, events)
    decreases |events|
  {
    if events == [] then b else After(Next(b, events[0]), events[1..])
  }

  lemma {:induction false} RunKeeps(b: Buffer, events: seq<Event>)
    requires Consistent(b) && Possible(b, events)
    ensures Consistent(After(b, events)) && |After(b, events).threads| == |b.threads|
    decreases |events|
  {
    if events != [] {
      StepKeeps(b, events[0]);
      RunKeeps(Next(b, events[0]), events[1..]);
    }
  }

  /** init: one thread has the one reference. */
  ghost predicate Fresh(b: Buffer) {
    && b.counter == 1 && b.repaid == 0 && Held(b.threads) == 1
    && forall t :: 0 <= t < |b.threads| ==> b.threads[t].place.Outside?
  }

  lemma {:induction false} AllOutside(s: seq<Thread>, p: Place)
    requires forall t :: 0 <= t < |s| ==> s[t].place.Outside?
    ensures !p.Outside? ==> Inside(s, p) == 0
    decreases |s|
  {
    if s != [] { AllOutside(s[1..], p); }
  }

  lemma FreshIsConsistent(b: Buffer)
    requires Fresh(b)
    ensures Consistent(b) && InUse(b) == 1
  {
    AllOutside(b.threads, Decrementing);
    AllOutside(b.threads, Last);
    AllOutside(b.threads, Drowned);
  }

  /** Under every interleaving: the buffer is repaid at most once; nobody has a reference then,
      nor from the moment a thread has decided that it detaches the last one; and only one
      thread decides so. */
  lemma NeverTooEarly(b: Buffer, events: seq<Event>, t: nat, u: nat)
    requires Fresh(b) && Possible(b, events) && t < |b.threads| && u < |b.threads| && t != u
    ensures var c := After(b, events);
            && c.repaid <= 1
            && |c.threads| == |b.threads|
            && (c.repaid == 1 || c.threads[t].place.Last? || c.threads[t].place.Drowned? ==>
                  && c.threads[u].refs == 0 && c.threads[t].refs == 0
                  && c.threads[u].place.Outside?)
  {
    FreshIsConsistent(b);
    RunKeeps(b, events);
    var s := After(b, events).threads;
    TwoOfThem(s, t, u, Decrementing);
    TwoOfThem(s, t, u, Last);
    TwoOfThem(s, t, u, Drowned);
  }

  /** When all threads are done with it the buffer has been repaid, exactly once. */
  lemma RepaidInTheEnd(b: Buffer, events: seq<Event>)
    requires Fresh(b) && Possible(b, events)
    requires forall t :: 0 <= t < |After(b, events).threads| ==> After(b, events).threads[t].place.Outside?
    ensures After(b, events).repaid == if Held(After(b, events).threads) == 0 then 1 else 0
  {
    FreshIsConsistent(b);
    RunKeeps(b, events);
    var s := After(b, events).threads;
    AllOutside(s, Decrementing);
    AllOutside(s, Last);
    AllOutside(s, Drowned);
  }

  /** The assertions of add_reference and detach never fail: the counter is positive when a
      thread that holds a reference enters. */
  lemma CounterIsPositive(b: Buffer, events: seq<Event>, t: nat)
    requires Fresh(b) && Possible(b, events) && t < |b.threads|
    ensures var c := After(b, events);
            t < |c.threads| && (c.threads[t].refs > 0 || c.threads[t].place.Decrementing? ==> c.counter > 0)
  {
    FreshIsConsistent(b);
    RunKeeps(b, events);
    var c := After(b, events);
    SumsAfterUpdate(c.threads, t, c.threads[t], Decrementing);
  }

  // ---- What the steps add up to --------------------------------------------------------------------------------

  /** The step gives a reference up: a decrement, or the decision that it is the last one. */
  predicate GivesUp(b: Buffer, e: Event) { e.Decrement? || (e.EnterDetach? && b.counter == 1) }

  /** References in use change by one where one is added or given up, and nowhere else. */
  lemma StepCounts(b: Buffer, e: Event)
    requires Consistent(b) && Enabled(b, e)
    ensures InUse(Next(b, e)) == InUse(b) + (if e.AddReference? then 1 else 0) - (if GivesUp(b, e) then 1 else 0)
  {
    var s := b.threads;
    match e
    case HandOver(t, u) =>
      var x := s[t].(refs := s[t].refs - 1);
      var d := s[t := x];
      SumsAll(s, t, x);
      SumsAll(d, u, d[u].(refs := d[u].refs + 1));
    case _ =>
      SumsAll(s, e.t, Next(b, e).threads[e.t]);
  }

  function Additions(events: seq<Event>): nat {
    if events == [] then 0 else (if events[0].AddReference? then 1 else 0) + Additions(events[1..])
  }

  ghost function GivenUp(b: Buffer, events: seq<Event>): nat
    requires Possible(b, events)
    decreases |events|
  {
    if events == [] then 0 else (if GivesUp(b, events[0]) then 1 else 0) + GivenUp(Next(b, events[0]), events[1..])
  }

  /** Over every interleaving the references in use are those there were, plus the additions, less
      those given up. */
  lemma {:induction false} RunCounts(b: Buffer, events: seq<Event>)
    requires Consistent(b) && Possible(b, events)
    ensures InUse(After(b, events)) + GivenUp(b, events) == InUse(b) + Additions(events)
    decreases |events|
  {
    hide InUse, Consistent, Enabled, GivesUp;
    if events != [] {
      StepCounts(b, events[0]);
      StepKeeps(b, events[0]);
      RunCounts(Next(b, events[0]), events[1..]);
    }
  }

  /** A detach without interruption: its steps one after the other. */
  function Detach(b: Buffer, t: nat): (r: Buffer)
    requires Enabled(b, EnterDetach(t))
  {
    var c := Next(b, EnterDetach(t));
    var d := if c.threads[t].place.Decrementing? then Next(c, Decrement(t)) else c;
    if d.threads[t].place.Last? then Next(Next(d, Drown(t)), Repay(t)) else d
  }

  /** It takes exactly one reference from the thread, and either the counter down by one or, if that
      was the last one, gives the buffer back. */
  lemma DetachGivesUpOne(b: Buffer, t: nat)
    requires Consistent(b) && t < |b.threads| && b.threads[t].place.Outside? && b.threads[t].refs > 0
    ensures var r := Detach(b, t);
            && r.threads == b.threads[t := Thread(b.threads[t].refs - 1, Outside)]
            && (InUse(b) > 1 ==> r.counter == b.counter - 1 && r.repaid == b.repaid)
            && (InUse(b) == 1 ==> r.repaid == b.repaid + 1 && r.counter == -1)
  {
    SumsAll(b.threads, t, b.threads[t]);
  }

  /** Who holds a reference may always add one, pass it on or detach it; add_reference gives the
      thread exactly one more, and passing on moves exactly one. */
  lemma AddGivesOne(b: Buffer, t: nat)
    requires t < |b.threads| && b.threads[t].place.Outside? && b.threads[t].refs > 0
    ensures Enabled(b, AddReference(t)) && Enabled(b, EnterDetach(t))
    ensures forall u: nat :: u < |b.threads| && u != t ==> Enabled(b, HandOver(t, u))
    ensures Next(b, AddReference(t)) == b.(counter := b.counter + 1,
                                           threads := b.threads[t := Thread(b.threads[t].refs + 1, Outside)])
    ensures forall u: nat :: Enabled(b, HandOver(t, u)) ==>
              Next(b, HandOver(t, u)) == b.(threads := b.threads[t := Thread(b.threads[t].refs - 1, Outside)]
                                                       [u := Thread(b.threads[u].refs + 1, b.threads[u].place)])
  {
  }

  // ---- Nobody is stuck ----------------------------------------------------------------------------------------

  function Way(p: Place): nat {
    match p case Outside => 0 case Decrementing => 3 case Last => 2 case Drowned => 1
  }

  /** Steps that are at most left when nobody takes another reference. */
  function Left(s: seq<Thread>): nat { if s == [] then 0 else 4 * s[0].refs + Way(s[0].place) + Left(s[1..]) }

  lemma {:induction false} LeftAfter(s: seq<Thread>, t: nat, th: Thread)
    requires t < |s|
    ensures Left(s[t := th]) == Left(s) - 4 * s[t].refs - Way(s[t].place) + 4 * th.refs + Way(th.place)
    decreases |s|
  {
    var d := s[t := th];
    if t == 0 {
      assert d[1..] == s[1..];
    } else {
      assert d[1..] == s[1..][t - 1 := th];
      LeftAfter(s[1..], t - 1, th);
    }
  }

  lemma {:induction false} SomeoneLeft(s: seq<Thread>) returns (t: nat)
    requires Left(s) > 0
    ensures t < |s| && (s[t].refs > 0 || !s[t].place.Outside?)
    decreases |s|
  {
    if s[0].refs > 0 || !s[0].place.Outside? {
      t := 0;
    } else {
      t := SomeoneLeft(s[1..]);
      t := t + 1;
    }
  }

  lemma {:induction false} NobodyLeft(s: seq<Thread>)
    requires Left(s) == 0
    ensures Held(s) == 0 && forall p: Place :: !p.Outside? ==> Inside(s, p) == 0
    decreases |s|
  {
    if s != [] { NobodyLeft(s[1..]); }
  }

  /** The next step of a thread on its way out. */
  function WayOut(b: Buffer, t: nat): Event
    requires t < |b.threads|
  {
    match b.threads[t].place
    case Outside => EnterDetach(t)
    case Decrementing => Decrement(t)
    case Last => Drown(t)
    case Drowned => Repay(t)
  }

  /** From every state the threads can detach all there is, one step after another, and the buffer
      has then been given back once. */
  lemma {:induction false} CanBeRepaid(b: Buffer) returns (events: seq<Event>)
    requires Consistent(b)
    ensures Possible(b, events) && After(b, events).repaid == 1 && Held(After(b, events).threads) == 0
    decreases Left(b.threads)
  {
    if Left(b.threads) == 0 {
      NobodyLeft(b.threads);
      events := [];
    } else {
      var t := SomeoneLeft(b.threads);
      var e := WayOut(b, t);
      StepKeeps(b, e);
      LeftAfter(b.threads, t, Next(b, e).threads[t]);
      var rest := CanBeRepaid(Next(b, e));
      events := [e] + rest;
    }
  }
}
