// The coincidence filter as a state machine on values: open constructors, the
// current timeout, the events put downstream, and the supervisor's counters.

module FilterModel {
  import opened Basics
  import opened ClusterState
  import opened Events
  import opened Criterion

  const INITIAL_TIMEOUT: int := 10000 * MILLISECOND

  datatype Ctor = Ctor(event: Event, timeout: int, born: int) {
    function SetTimeout(t: int): Ctor {
      if t <= timeout then this else this.(timeout := t)
    }

    predicate TimedOut(now: int) {
      now - born >= timeout
    }
  }

  datatype Filter = Filter(ctors: seq<Ctor>, timeout: int, emitted: seq<Event>, counters: Counters)

  const EMPTY: Filter := Filter([], INITIAL_TIMEOUT, [], Counters(0, map[], 0, 0))

  // +++ arrival of an event

  predicate Matching(c: Ctor, e: Event) {
    !Skipped(c.event, e) && Coincident(e, c.event)
  }

  // The matching indices at or above i, in ascending order.
  function MatchesFrom(cs: seq<Ctor>, e: Event, i: nat): (ms: seq<nat>)
    requires i <= |cs|
    ensures forall k :: 0 <= k < |ms| ==> i <= ms[k] < |cs| && Matching(cs[ms[k]], e)
    ensures forall j, k :: 0 <= j < k < |ms| ==> ms[j] < ms[k]
    ensures forall x :: i <= x < |cs| && Matching(cs[x], e) ==> x in ms
    decreases |cs| - i
  {
    if i == |cs| then []
    else (if Matching(cs[i], e) then [i] else []) + MatchesFrom(cs, e, i + 1)
  }

  function Matches(cs: seq<Ctor>, e: Event): seq<nat> {
    MatchesFrom(cs, e, 0)
  }

  // The contested-merge loop. The queued indices refer to the list before the
  // loop and are used as they are; an index past the end has no defined result.
  function MergeRest(cs: seq<Ctor>, head: nat, rest: seq<nat>): Option<seq<Ctor>>
    requires head < |cs|
    requires forall k :: 0 <= k < |rest| ==> head < rest[k]
    decreases |rest|
  {
    if rest == [] then Some(cs)
    else if rest[0] >= |cs| then None
    else
      var absorbed := cs[head].(event := cs[head].event.ExtendAll(cs[rest[0]].event.Hits()));
      MergeRest(Erase(cs[head := absorbed], rest[0]), head, rest[1..])
  }

  function Merge(cs: seq<Ctor>, e: Event, ms: seq<nat>): Option<seq<Ctor>>
    requires |ms| > 0 && ms[0] < |cs|
    requires forall k :: 0 < k < |ms| ==> ms[0] < ms[k]
  {
    var joined := cs[ms[0]].(event := cs[ms[0]].event.Join(e));
    MergeRest(cs[ms[0] := joined], ms[0], ms[1..])
  }

  // The list of constructors after an event has come in.
  function Enter(cs: seq<Ctor>, e: Event, timeout: int, now: int): Option<seq<Ctor>> {
    var ms := Matches(cs, e);
    if ms == [] then Some(cs + [Ctor(e, timeout, now)]) else Merge(cs, e, ms)
  }

  function Arrive(s: Filter, e: Event, now: int): Option<Filter> {
    match Enter(s.ctors, e, s.timeout, now)
    case None => None
    case Some(cs) => Some(s.(ctors := cs, counters := s.counters.CountIncoming().(bufferLength := |s.ctors|)))
  }

  // +++ periodic tick

  function Raised(cs: seq<Ctor>, timeout: int): (r: seq<Ctor>)
    ensures |r| == |cs|
    ensures forall i :: 0 <= i < |cs| ==> r[i] == cs[i].SetTimeout(timeout)
  {
    if cs == [] then [] else Raised(cs[..|cs| - 1], timeout) + [cs[|cs| - 1].SetTimeout(timeout)]
  }

  // The constructors that stay, in their order.
  function Kept(cs: seq<Ctor>, now: int): seq<Ctor> {
    if cs == [] then []
    else
      var last := cs[|cs| - 1];
      Kept(cs[..|cs| - 1], now) + (if last.TimedOut(now) then [] else [last])
  }

  lemma KeptSnoc(cs: seq<Ctor>, c: Ctor, now: int)
    ensures Kept(cs + [c], now) == Kept(cs, now) + (if c.TimedOut(now) then [] else [c])
  {
    assert (cs + [c])[..|cs|] == cs;
  }

  lemma SentSnoc(cs: seq<Ctor>, c: Ctor, now: int)
    ensures Sent(cs + [c], now) == (if c.TimedOut(now) then [c.event] else []) + Sent(cs, now)
  {
    assert (cs + [c])[..|cs|] == cs;
  }

  // The events that leave, latest constructor first.
  function Sent(cs: seq<Ctor>, now: int): seq<Event> {
    if cs == [] then []
    else
      var last := cs[|cs| - 1];
      (if last.TimedOut(now) then [last.event] else []) + Sent(cs[..|cs| - 1], now)
  }

  function CountAll(c: Counters, es: seq<Event>): Counters
    decreases |es|
  {
    if es == [] then c else CountAll(c.CountOutgoing(es[0].N()), es[1..])
  }

  function Tick(s: Filter, now: int): Filter {
    var cs := Raised(s.ctors, s.timeout);
    var kept, sent := Kept(cs, now), Sent(cs, now);
    s.(ctors := kept, emitted := s.emitted + sent,
       counters := CountAll(s.counters, sent).(bufferLength := |kept|))
  }

  // +++ arrival of a timebase

  function Scaled(ms: int, factor: real): int {
    Truncate(ms as real * factor)
  }

  function TimeoutFor(base: int, factor: real): int {
    Scaled(TruncDiv(base, MILLISECOND), factor) * MILLISECOND
  }

  function Retime(s: Filter, base: int, factor: real): Filter {
    s.(timeout := TimeoutFor(base, factor))
  }

  // +++ runs

  datatype Action =
    | Arrival(event: Event, at: int)
    | Ticking(at: int)
    | Timebase(base: int, factor: real)

  function Step(s: Filter, a: Action): Option<Filter> {
    match a
    case Arrival(e, at) => Arrive(s, e, at)
    case Ticking(at) => Some(Tick(s, at))
    case Timebase(base, factor) => Some(Retime(s, base, factor))
  }

  // The state after all actions, if every erase stayed in range.
  function Run(actions: seq<Action>): Option<Filter> {
    if actions == [] then Some(EMPTY)
    else
      match Run(actions[..|actions| - 1])
      case None => None
      case Some(s) => Step(s, actions[|actions| - 1])
  }
}
