// How long a constructor can stay open.

module Timeouts {
  import opened Basics
  import opened Events
  import opened FilterModel
  import opened MergeLaw
  import opened Separation

  const MINIMUM: int := 800 * MILLISECOND
  const MAXIMUM_BASE: int := 120000 * MILLISECOND
  const MAXIMUM_FACTOR: real := 8.0
  const MAXIMUM: int := 960000 * MILLISECOND

  // What the timebase and the stations deliver.
  ghost predicate GoodTimebase(base: int, factor: real) {
    MINIMUM <= base <= MAXIMUM_BASE && 1.0 <= factor <= MAXIMUM_FACTOR
  }

  predicate Sane(t: int) {
    MINIMUM <= t <= MAXIMUM
  }

  lemma ScaledBounds(ms: int, factor: real)
    requires 800 <= ms <= 120000 && 1.0 <= factor <= 8.0
    ensures 800 <= Scaled(ms, factor) <= 960000
  {
    var x := ms as real;
    assert x * factor >= x * 1.0;
    assert x * factor <= x * 8.0;
  }

  lemma TimeoutForSane(base: int, factor: real)
    requires GoodTimebase(base, factor)
    ensures Sane(TimeoutFor(base, factor))
  {
    ScaledBounds(TruncDiv(base, MILLISECOND), factor);
  }

  // The timeout is the greatest whole number of milliseconds that does not exceed the base,
  // in whole milliseconds, times the factor.
  lemma TimeoutLaw(base: int, factor: real)
    requires base >= 0 && factor >= 0.0
    ensures var t := TimeoutFor(base, factor);
            && t % 1000000 == 0
            && (t / 1000000) as real <= (base / 1000000) as real * factor < (t / 1000000 + 1) as real
  {
    var x := (base / 1000000) as real * factor;
    assert TruncDiv(base, MILLISECOND) == base / 1000000;
    NotNegative((base / 1000000) as real, factor);
    assert TimeoutFor(base, factor) == x.Floor * 1000000;
    assert TimeoutFor(base, factor) / 1000000 == x.Floor;
  }

  lemma NotNegative(x: real, y: real)
    requires x >= 0.0 && y >= 0.0
    ensures x * y >= 0.0
  {
  }

  ghost predicate AllSane(s: Filter) {
    Sane(s.timeout) && forall i :: 0 <= i < |s.ctors| ==> Sane(s.ctors[i].timeout)
  }

  ghost predicate GoodActions(actions: seq<Action>) {
    forall i :: 0 <= i < |actions| && actions[i].Timebase? ==> GoodTimebase(actions[i].base, actions[i].factor)
  }

  lemma {:induction false} MergeRestSane(cs: seq<Ctor>, head: nat, rest: seq<nat>)
    requires head < |cs| && forall i :: 0 <= i < |cs| ==> Sane(cs[i].timeout)
    requires forall k :: 0 <= k < |rest| ==> head < rest[k]
    requires MergeRest(cs, head, rest).Some?
    ensures forall i :: 0 <= i < |MergeRest(cs, head, rest).value| ==> Sane(MergeRest(cs, head, rest).value[i].timeout)
    decreases |rest|
  {
    if rest != [] {
      MergeRestSane(MergeOne(cs, head, rest[0]), head, rest[1..]);
    }
  }

  lemma ArrivalSane(s: Filter, e: Event, at: int)
    requires AllSane(s) && Arrive(s, e, at).Some?
    ensures AllSane(Arrive(s, e, at).value)
  {
    var ms := Matches(s.ctors, e);
    if ms != [] {
      MergeRestSane(s.ctors[ms[0] := Joined(s.ctors, e, ms[0])], ms[0], ms[1..]);
    }
  }

  lemma TickSane(s: Filter, at: int)
    requires AllSane(s)
    ensures AllSane(Tick(s, at))
  {
    TickSplits(Raised(s.ctors, s.timeout), at);
  }

  // In every run whose timebases are in range, all timeouts are in range.
  lemma {:induction false} RunSane(actions: seq<Action>)
    requires GoodActions(actions) && Run(actions).Some?
    ensures AllSane(Run(actions).value)
  {
    if actions != [] {
      var init, a := actions[..|actions| - 1], actions[|actions| - 1];
      RunSane(init);
      match a
      case Arrival(e, at) => ArrivalSane(Run(init).value, e, at);
      case Ticking(at) => TickSane(Run(init).value, at);
      case Timebase(base, factor) => TimeoutForSane(base, factor);
    }
  }

  ghost predicate Lengthened(c: Ctor, d: Ctor) {
    d == c.(timeout := d.timeout) && c.timeout <= d.timeout
  }

  lemma TickKeepsYoung(s: Filter, at: int, i: nat)
    requires AllSane(s) && i < |s.ctors| && at - s.ctors[i].born < MINIMUM
    ensures exists c :: c in Tick(s, at).ctors && Lengthened(s.ctors[i], c)
  {
    var cs := Raised(s.ctors, s.timeout);
    var stay := Indices(cs, at, false, |cs|);
    TickSplits(cs, at);
    assert i in stay;
    var k :| 0 <= k < |stay| && stay[k] == i;
    assert Kept(cs, at)[k] in Kept(cs, at) && Lengthened(s.ctors[i], Kept(cs, at)[k]);
  }

  lemma TickSendsOld(s: Filter, at: int, i: nat)
    requires AllSane(s) && i < |s.ctors| && at - s.ctors[i].born >= MAXIMUM
    ensures s.ctors[i].event in Tick(s, at).emitted[|s.emitted|..]
  {
    var cs := Raised(s.ctors, s.timeout);
    var go := Indices(cs, at, true, |cs|);
    TickSplits(cs, at);
    assert i in go;
    var k :| 0 <= k < |go| && go[k] == i;
    assert Sent(cs, at)[|go| - 1 - k] == cs[go[k]].event;
    assert Tick(s, at).emitted[|s.emitted|..] == Sent(cs, at);
  }

  lemma TickLengthens(s: Filter, at: int, c: Ctor)
    requires AllSane(s) && c in Tick(s, at).ctors
    ensures at - c.born < MAXIMUM && exists i :: 0 <= i < |s.ctors| && Lengthened(s.ctors[i], c)
  {
    var cs := Raised(s.ctors, s.timeout);
    var stay := Indices(cs, at, false, |cs|);
    TickSplits(cs, at);
    var k :| 0 <= k < |stay| && Kept(cs, at)[k] == c;
    assert stay[k] in stay;
    assert Lengthened(s.ctors[stay[k]], c);
  }

  // In every such run, a tick may only lengthen the timeout of a constructor; it
  // keeps each one younger than 800 ms and sends each one that is 960 s old.
  lemma TickDeadlines(actions: seq<Action>, at: int)
    requires GoodActions(actions) && Run(actions).Some?
    ensures var s, t := Run(actions).value, Tick(Run(actions).value, at);
            && (forall c :: c in t.ctors ==>
                  at - c.born < MAXIMUM && exists i :: 0 <= i < |s.ctors| && Lengthened(s.ctors[i], c))
            && (forall i :: 0 <= i < |s.ctors| && at - s.ctors[i].born < MINIMUM ==>
                  exists c :: c in t.ctors && Lengthened(s.ctors[i], c))
            && (forall i :: 0 <= i < |s.ctors| && at - s.ctors[i].born >= MAXIMUM ==>
                  s.ctors[i].event in t.emitted[|s.emitted|..])
  {
    RunSane(actions);
    var s := Run(actions).value;
    forall c | c in Tick(s, at).ctors
      ensures at - c.born < MAXIMUM && exists i :: 0 <= i < |s.ctors| && Lengthened(s.ctors[i], c)
    {
      TickLengthens(s, at, c);
    }
    forall i | 0 <= i < |s.ctors| && at - s.ctors[i].born < MINIMUM
      ensures exists c :: c in Tick(s, at).ctors && Lengthened(s.ctors[i], c)
    {
      TickKeepsYoung(s, at, i);
    }
    forall i | 0 <= i < |s.ctors| && at - s.ctors[i].born >= MAXIMUM
      ensures s.ctors[i].event in Tick(s, at).emitted[|s.emitted|..]
    {
      TickSendsOld(s, at, i);
    }
  }
}
