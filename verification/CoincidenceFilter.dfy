// The coincidence filter as the source has it: a list of open constructors that
// events join, and that a periodic tick drains.

module CoincidenceFilter {
  import opened Basics
  import opened Events
  import opened ClusterState
  import opened FilterModel
  import opened Timeouts

  class EventConstructor {
    const event: EventRecord
    var timeout: int
    const born: int

    function Value(): Ctor
      reads this, event
    {
      Ctor(event.Value(), timeout, born)
    }

    constructor (e: Event, timeout: int, now: int)
      ensures Value() == Ctor(e, timeout, now) && fresh(event)
    {
      event := new EventRecord(e);
      this.timeout := timeout;
      born := now;
    }

    method SetTimeout(newTimeout: int)
      modifies this`timeout
      ensures timeout == Max(old(timeout), newTimeout)
      ensures Value() == old(Value()).SetTimeout(newTimeout)
    {
      if newTimeout <= timeout {
        return;
      }
      timeout := newTimeout;
    }

    predicate TimedOut(now: int)
      reads this
    {
      now - born >= timeout
    }
  }

  function Records(cs: seq<EventConstructor>): set<EventRecord> {
    set c | c in cs :: c.event
  }

  ghost predicate Separate(cs: seq<EventConstructor>) {
    forall i, j :: 0 <= i < j < |cs| ==> cs[i] != cs[j] && cs[i].event != cs[j].event
  }

  function Values(cs: seq<EventConstructor>): (r: seq<Ctor>)
    reads cs, Records(cs)
    ensures |r| == |cs|
    ensures forall i :: 0 <= i < |cs| ==> r[i] == cs[i].Value()
  {
    if cs == [] then [] else Values(cs[..|cs| - 1]) + [cs[|cs| - 1].Value()]
  }

  class Filter {
    var constructors: seq<EventConstructor>
    var timeout: int
    // Everything put to the event sink so far.
    var emitted: seq<Event>
    const supervisor: State

    ghost predicate Valid()
      reads this
    {
      Separate(constructors)
    }

    ghost function Value(): FilterModel.Filter
      reads this, constructors, Records(constructors), supervisor
    {
      FilterModel.Filter(Values(constructors), timeout, emitted, supervisor.EventCounters())
    }

    constructor (supervisor: State)
      requires supervisor.EventCounters() == Counters(0, map[], 0, 0)
      ensures Valid() && Value() == EMPTY && this.supervisor == supervisor
    {
      constructors, timeout, emitted := [], INITIAL_TIMEOUT, [];
      this.supervisor := supervisor;
    }

    method GetTimebase(base: int, factor: real)
      requires Valid()
      modifies this`timeout, supervisor`timebase, supervisor`timeout
      ensures Valid() && Value() == Retime(old(Value()), base, factor)
      ensures supervisor.timebase == TruncDiv(base, MILLISECOND)
      ensures supervisor.timeout == TruncDiv(timeout, MILLISECOND)
      ensures base >= 0 && factor >= 0.0 ==>
                && timeout % 1000000 == 0
                && supervisor.timeout as real <= (base / 1000000) as real * factor < (supervisor.timeout + 1) as real
                && supervisor.timebase == base / 1000000 && timeout == supervisor.timeout * 1000000
    {
      timeout := TimeoutFor(base, factor);
      if base >= 0 && factor >= 0.0 {
        TimeoutLaw(base, factor);
      }
      supervisor.TimeStatus(TruncDiv(base, MILLISECOND), TruncDiv(timeout, MILLISECOND));
    }

    // Collects the matching indices.
    method FindMatches(e: Event) returns (matches: seq<nat>)
      ensures matches == Matches(old(Values(constructors)), e)
    {
      ghost var vs := Values(constructors);
      matches := [];
      var i := 0;
      while i < |constructors|
        invariant 0 <= i <= |constructors|
        invariant matches + MatchesFrom(vs, e, i) == Matches(vs, e)
      {
        MatchesStep(vs, e, i, matches);
        if Matching(constructors[i].Value(), e) {
          matches := matches + [i];
        }
        i := i + 1;
      }
      assert MatchesFrom(vs, e, |vs|) == [];
    }

    // Lets the event at index i take in the hits of e.
    method Add(i: nat, e: Event)
      requires Valid() && i < |constructors|
      modifies constructors[i].event
      ensures Values(constructors) == old(Values(constructors))[i := old(constructors[i].Value()).(event :=
                old(constructors[i].event.Value()).ExtendAll(e.Hits()))]
    {
      constructors[i].event.Emplace(e);
    }

    method JoinAt(i: nat, e: Event)
      requires Valid() && i < |constructors|
      modifies constructors[i].event
      ensures Values(constructors) == old(Values(constructors))[i := old(constructors[i].Value()).(event :=
                old(constructors[i].event.Value()).Join(e))]
    {
      constructors[i].event.Promote();
      constructors[i].event.Emplace(e);
    }

    // Combines all contesting constructors into the first one. `defined` is false
    // where the source would reach past the end of its list.
    method MergeContested(head: nat, queue: seq<nat>) returns (defined: bool)
      requires Valid() && head < |constructors|
      requires forall k :: 0 <= k < |queue| ==> head < queue[k]
      modifies this`constructors, constructors[head].event
      ensures defined <==> MergeRest(old(Values(constructors)), head, queue).Some?
      ensures defined ==> Valid() && Values(constructors) == MergeRest(old(Values(constructors)), head, queue).value
      ensures forall c :: c in constructors ==> c in old(constructors)
    {
      var matches := queue;
      ghost var start := Values(constructors);
      while matches != []
        invariant Valid() && head < |constructors|
        invariant constructors[head] == old(constructors)[head]
        invariant forall c :: c in constructors ==> c in old(constructors)
        invariant forall k :: 0 <= k < |matches| ==> head < matches[k]
        invariant MergeRest(Values(constructors), head, matches) == MergeRest(start, head, queue)
        decreases |matches|
      {
        if matches[0] >= |constructors| {
          return false;
        }
        Absorb(head, matches[0]);
        matches := matches[1..];
      }
      return true;
    }

    // Moves the hits at index i into the constructor at head.
    method Absorb(head: nat, i: nat)
      requires Valid() && head < i < |constructors|
      modifies this`constructors, constructors[head].event
      ensures Valid() && head < |constructors| && constructors[head] == old(constructors[head])
      ensures forall c :: c in constructors ==> c in old(constructors)
      ensures var was := old(Values(constructors));
              Values(constructors) ==
              Erase(was[head := was[head].(event := was[head].event.ExtendAll(was[i].event.Hits()))], i)
    {
      Add(head, constructors[i].event.Value());
      EraseAt(i);
    }

    method EraseAt(i: nat)
      requires Valid() && i < |constructors|
      modifies this`constructors
      ensures Valid() && constructors == Erase(old(constructors), i)
      ensures Values(constructors) == Erase(old(Values(constructors)), i)
    {
      ghost var was := Values(constructors);
      constructors := Erase(constructors, i);
      forall k | 0 <= k < |constructors| ensures Values(constructors)[k] == Erase(was, i)[k] {
      }
    }

    // Counts the arriving event and looks for constructors to join.
    method Announce(e: Event) returns (matches: seq<nat>)
      requires Valid()
      modifies supervisor`incoming, supervisor`outgoing, supervisor`maximumN, supervisor`bufferLength
      ensures Values(constructors) == old(Values(constructors))
      ensures matches == Matches(old(Values(constructors)), e)
      ensures supervisor.EventCounters()
           == old(supervisor.EventCounters()).CountIncoming().(bufferLength := |constructors|)
    {
      ghost var was := Values(constructors);
      supervisor.IncreaseEventCount(true, 1);
      assert Values(constructors) == was;
      matches := FindMatches(e);
      PublishQueueSize();
    }

    method PublishQueueSize()
      modifies supervisor`bufferLength
      ensures Values(constructors) == old(Values(constructors))
      ensures supervisor.EventCounters() == old(supervisor.EventCounters()).(bufferLength := |constructors|)
    {
      supervisor.SetQueueSize(|constructors|);
    }

    // One event arrives.
    method ProcessEvent(e: Event, now: int) returns (defined: bool)
      requires Valid()
      modifies this`constructors, Records(constructors)
      modifies supervisor`incoming, supervisor`outgoing, supervisor`maximumN, supervisor`bufferLength
      ensures defined <==> Arrive(old(Value()), e, now).Some?
      ensures defined ==> Valid() && Value() == Arrive(old(Value()), e, now).value
      ensures forall c :: c in constructors && c !in old(constructors) ==> fresh(c) && fresh(c.event)
    {
      var matches := Announce(e);
      defined := Place(e, matches, now);
    }

    method Place(e: Event, matches: seq<nat>, now: int) returns (defined: bool)
      requires Valid() && matches == Matches(Values(constructors), e)
      modifies this`constructors, Records(constructors)
      ensures defined <==> Enter(old(Values(constructors)), e, timeout, now).Some?
      ensures defined ==> Valid() && Values(constructors) == Enter(old(Values(constructors)), e, timeout, now).value
      ensures forall c :: c in constructors && c !in old(constructors) ==> fresh(c) && fresh(c.event)
    {
      if |matches| == 1 {
        JoinAt(matches[0], e);
        assert matches[1..] == [];
        return true;
      }
      if matches == [] {
        Open(e, now);
        return true;
      }
      JoinAt(matches[0], e);
      defined := MergeContested(matches[0], matches[1..]);
    }

    method Open(e: Event, now: int)
      requires Valid()
      modifies this`constructors
      ensures Valid() && Values(constructors) == old(Values(constructors)) + [Ctor(e, timeout, now)]
      ensures forall c :: c in constructors && c !in old(constructors) ==> fresh(c) && fresh(c.event)
    {
      var c := new EventConstructor(e, timeout, now);
      constructors := constructors + [c];
    }

    method RaiseAt(i: nat)
      requires Valid() && i < |constructors|
      modifies constructors[i]
      ensures var was := old(Value());
              Value() == was.(ctors := was.ctors[i := was.ctors[i].SetTimeout(timeout)])
    {
      constructors[i].SetTimeout(timeout);
    }

    // Counts the event at i and puts it to the sink.
    method PutAt(i: nat)
      requires Valid() && i < |constructors|
      modifies this`emitted, supervisor`incoming, supervisor`outgoing, supervisor`maximumN
      ensures var was := old(Value());
              Value() == was.(emitted := was.emitted + [was.ctors[i].event],
                              counters := was.counters.CountOutgoing(was.ctors[i].event.N()))
    {
      supervisor.IncreaseEventCount(false, constructors[i].event.Value().N());
      emitted := emitted + [constructors[i].event.Value()];
    }

    method SendAt(i: nat)
      requires Valid() && i < |constructors|
      modifies this`constructors, this`emitted, supervisor`incoming, supervisor`outgoing, supervisor`maximumN
      ensures Valid() && constructors == Erase(old(constructors), i)
      ensures var was := old(Value());
              Value() == was.(ctors := Erase(was.ctors, i), emitted := was.emitted + [was.ctors[i].event],
                              counters := was.counters.CountOutgoing(was.ctors[i].event.N()))
    {
      PutAt(i);
      EraseAt(i);
    }

    // Raises the timeout of the constructor at i, and sends its event off if it has
    // timed out.
    method VisitAt(i: nat, now: int)
      requires Valid() && i < |constructors|
      modifies this`constructors, this`emitted, constructors[i]
      modifies supervisor`incoming, supervisor`outgoing, supervisor`maximumN
      ensures Valid() && forall c :: c in constructors ==> c in old(constructors)
      ensures Value() == Visit(old(Value()), i, now)
    {
      EraseUpdated(Values(constructors), i, constructors[i].Value().SetTimeout(timeout));
      RaiseAt(i);
      if constructors[i].TimedOut(now) {
        SendAt(i);
      }
    }

    // Walks the list from its end, visiting every constructor.
    method VisitAll(now: int)
      requires Valid()
      modifies this`constructors, this`emitted, constructors
      modifies supervisor`incoming, supervisor`outgoing, supervisor`maximumN
      ensures Valid() && TickProgress(old(Value()), Value(), 0, now)
      ensures forall c :: c in constructors ==> c in old(constructors)
    {
      ghost var was := Value();
      var i := |constructors|;
      TickBegins(was, now);
      while i > 0
        invariant 0 <= i <= |constructors|
        invariant Valid()
        invariant forall c :: c in constructors ==> c in old(constructors)
        invariant TickProgress(was, Value(), i, now)
      {
        i := i - 1;
        assert constructors[i] in constructors;
        TickProceeds(was, Value(), i, now);
        VisitAt(i, now);
      }
    }

    // The periodic tick.
    method ProcessTick(now: int)
      requires Valid()
      modifies this`constructors, this`emitted, constructors
      modifies supervisor`incoming, supervisor`outgoing, supervisor`maximumN, supervisor`bufferLength
      ensures Valid() && Value() == Tick(old(Value()), now)
      ensures forall c :: c in constructors ==> c in old(constructors)
    {
      VisitAll(now);
      TickEnds(old(Value()), Value(), now);
      PublishQueueSize();
    }

    method Perform(a: Action) returns (defined: bool)
      requires Valid()
      modifies this, constructors, Records(constructors), supervisor
      ensures defined <==> Step(old(Value()), a).Some?
      ensures defined ==> Valid() && Value() == Step(old(Value()), a).value
      ensures forall c :: c in constructors && c !in old(constructors) ==> fresh(c) && fresh(c.event)
    {
      match a
      case Arrival(e, at) =>
        defined := ProcessEvent(e, at);
      case Ticking(at) =>
        ProcessTick(at);
        defined := true;
      case Timebase(base, factor) =>
        GetTimebase(base, factor);
        defined := true;
    }
  }

  // A filter that has performed the actions is in the state that the model has after
  // them, as far as that is defined.
  method Replay(supervisor: State, actions: seq<Action>) returns (filter: Filter, defined: bool)
    requires supervisor.EventCounters() == Counters(0, map[], 0, 0)
    modifies supervisor
    ensures defined <==> Run(actions).Some?
    ensures defined ==> filter.Valid() && filter.Value() == Run(actions).value
  {
    filter := new Filter(supervisor);
    defined := true;
    var i := 0;
    while defined && i < |actions|
      invariant 0 <= i <= |actions| && fresh(filter)
      invariant forall c :: c in filter.constructors ==> fresh(c) && fresh(c.event)
      invariant defined <==> Run(actions[..i]).Some?
      invariant defined ==> filter.Valid() && filter.Value() == Run(actions[..i]).value
      decreases |actions| - i
    {
      PrefixSnoc(actions, i);
      defined := filter.Perform(actions[i]);
      i := i + 1;
    }
    if defined {
      WholeSlice(actions);
    } else {
      UndefinedStays(actions, i);
    }
  }

  lemma UndefinedStays(actions: seq<Action>, i: nat)
    requires i <= |actions| && Run(actions[..i]).None?
    ensures Run(actions).None?
    decreases |actions|
  {
    if i == |actions| {
      WholeSlice(actions);
    } else {
      var init := actions[..|actions| - 1];
      assert init[..i] == actions[..i];
      UndefinedStays(init, i);
    }
  }

  // How far a tick has come: positions below i are still to be visited.
  ghost predicate TickProgress(s: FilterModel.Filter, t: FilterModel.Filter, i: nat, now: int) {
    && i <= |s.ctors| && i <= |t.ctors| && t.ctors[..i] == s.ctors[..i] && t.timeout == s.timeout
    && (var raised := Raised(s.ctors, s.timeout);
        && Kept(raised, now) == Kept(raised[..i], now) + t.ctors[i..]
        && s.emitted + Sent(raised, now) == t.emitted + Sent(raised[..i], now)
        && CountAll(s.counters, Sent(raised, now)) == CountAll(t.counters, Sent(raised[..i], now)))
  }

  lemma TickBegins(s: FilterModel.Filter, now: int)
    ensures TickProgress(s, s, |s.ctors|, now)
  {
    var raised := Raised(s.ctors, s.timeout);
    assert raised[..|s.ctors|] == raised && s.ctors[|s.ctors|..] == [];
  }

  // One visit, at index i.
  function Visit(t: FilterModel.Filter, i: nat, now: int): FilterModel.Filter
    requires i < |t.ctors|
  {
    var c := t.ctors[i].SetTimeout(t.timeout);
    if c.TimedOut(now)
    then FilterModel.Filter(Erase(t.ctors, i), t.timeout, t.emitted + [c.event], t.counters.CountOutgoing(c.event.N()))
    else t.(ctors := t.ctors[i := c])
  }

  lemma TickProceeds(s: FilterModel.Filter, t: FilterModel.Filter, i: nat, now: int)
    requires TickProgress(s, t, i + 1, now)
    ensures TickProgress(s, Visit(t, i, now), i, now)
  {
    var raised := Raised(s.ctors, s.timeout);
    var c := t.ctors[i].SetTimeout(t.timeout);
    var u := Visit(t, i, now);
    var front := raised[..i];
    VisitedFront(s.ctors, t.ctors, i);
    PrefixSnoc(raised, i);
    KeptSnoc(front, c, now);
    SentSnoc(front, c, now);
    TickSnoc(front, c, now);
    SuffixAfter(t.ctors, i, c);
    if c.TimedOut(now) {
      PrependOne(t.emitted, c.event, Sent(front, now));
      assert Kept(front, now) + [] == Kept(front, now);
    } else {
      PrependOne(Kept(front, now), c, t.ctors[i + 1..]);
      assert [] + Sent(front, now) == Sent(front, now);
    }
  }

  lemma MatchesStep(cs: seq<Ctor>, e: Event, i: nat, ms: seq<nat>)
    requires i < |cs|
    ensures ms + MatchesFrom(cs, e, i)
         == (if Matching(cs[i], e) then ms + [i] else ms) + MatchesFrom(cs, e, i + 1)
  {
    var rest := MatchesFrom(cs, e, i + 1);
    PrependOne(ms, i, rest);
    assert [] + rest == rest;
  }

  lemma EraseUpdated<T>(s: seq<T>, i: nat, x: T)
    requires i < |s|
    ensures Erase(s[i := x], i) == Erase(s, i)
  {
  }

  lemma SuffixAfter<T>(s: seq<T>, i: nat, x: T)
    requires i < |s|
    ensures Erase(s, i)[..i] == s[..i] && Erase(s, i)[i..] == s[i + 1..]
    ensures s[i := x][..i] == s[..i] && s[i := x][i..] == [x] + s[i + 1..]
  {
  }

  lemma VisitedFront<T>(a: seq<T>, b: seq<T>, i: nat)
    requires i < |a| && i < |b| && a[..i + 1] == b[..i + 1]
    ensures a[i] == b[i] && a[..i] == b[..i]
  {
    assert a[..i + 1][i] == b[..i + 1][i];
    assert a[..i + 1][..i] == a[..i] && b[..i + 1][..i] == b[..i];
  }

  lemma TickSnoc(cs: seq<Ctor>, c: Ctor, now: int)
    ensures forall k :: CountAll(k, Sent(cs + [c], now)) ==
                        CountAll(if c.TimedOut(now) then k.CountOutgoing(c.event.N()) else k, Sent(cs, now))
  {
    SentSnoc(cs, c, now);
    if c.TimedOut(now) {
      assert Sent(cs + [c], now)[1..] == Sent(cs, now);
    } else {
      assert Sent(cs + [c], now) == Sent(cs, now);
    }
  }

  lemma TickEnds(s: FilterModel.Filter, t: FilterModel.Filter, now: int)
    requires TickProgress(s, t, 0, now)
    ensures t.(counters := t.counters.(bufferLength := |t.ctors|)) == Tick(s, now)
  {
    var raised := Raised(s.ctors, s.timeout);
    assert raised[..0] == [] && t.ctors[0..] == t.ctors;
  }
}
