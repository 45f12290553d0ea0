// What the filter's operations do, in terms of times, ends and hits alone.

module FilterLaws {
  import opened Basics
  import opened ClusterState
  import opened Events
  import opened Criterion
  import opened FilterModel
  import opened MergeLaw
  import opened Separation

  // --- ticks

  lemma RaisedIs(s: Filter, at: int, i: nat)
    requires i < |s.ctors|
    ensures var c, r := s.ctors[i], Raised(s.ctors, s.timeout)[i];
            && r == Ctor(c.event, Max(c.timeout, s.timeout), c.born)
            && (r.TimedOut(at) <==> at - c.born >= Max(c.timeout, s.timeout))
  {
  }

  // A tick raises every timeout to that of the filter if it is less. It keeps the
  // constructors that are younger than that, in their order, and sends the events of all
  // others, latest first; the published queue length is what remains.
  lemma TickLaw(s: Filter, at: int) returns (stay: seq<nat>, go: seq<nat>)
    ensures Increasing(stay) && Increasing(go)
    ensures forall i: nat ::
              i in stay <==> i < |s.ctors| && at - s.ctors[i].born < Max(s.ctors[i].timeout, s.timeout)
    ensures forall i: nat ::
              i in go <==> i < |s.ctors| && at - s.ctors[i].born >= Max(s.ctors[i].timeout, s.timeout)
    ensures (forall k :: 0 <= k < |stay| ==> stay[k] < |s.ctors|) && (forall k :: 0 <= k < |go| ==> go[k] < |s.ctors|)
    ensures var t := Tick(s, at);
            && t.timeout == s.timeout && |t.ctors| == |stay| == t.counters.bufferLength
            && (forall k :: 0 <= k < |stay| ==>
                  var c := s.ctors[stay[k]]; t.ctors[k] == Ctor(c.event, Max(c.timeout, s.timeout), c.born))
            && |t.emitted| == |s.emitted| + |go| && s.emitted <= t.emitted
            && (forall k :: 0 <= k < |go| ==> t.emitted[|t.emitted| - 1 - k] == s.ctors[go[k]].event)
  {
    var cs := Raised(s.ctors, s.timeout);
    stay, go := Indices(cs, at, false, |cs|), Indices(cs, at, true, |cs|);
    TickSplits(cs, at);
    forall i: nat | i < |s.ctors|
      ensures cs[i].TimedOut(at) <==> at - s.ctors[i].born >= Max(s.ctors[i].timeout, s.timeout)
    {
      RaisedIs(s, at, i);
    }
    var t, sent := Tick(s, at), Sent(cs, at);
    forall k | 0 <= k < |go| ensures t.emitted[|t.emitted| - 1 - k] == s.ctors[go[k]].event {
      assert t.emitted[|t.emitted| - 1 - k] == sent[|go| - 1 - k] == cs[go[k]].event;
      RaisedIs(s, at, go[k]);
    }
    forall k | 0 <= k < |stay|
      ensures var c := s.ctors[stay[k]]; t.ctors[k] == Ctor(c.event, Max(c.timeout, s.timeout), c.born)
    {
      assert t.ctors[k] == cs[stay[k]];
      RaisedIs(s, at, stay[k]);
    }
  }

  // --- arrivals

  // The two share no detector, and an end of one is within 100000 ns of an end of the other.
  ghost predicate Fits(c: Event, e: Event) {
    && (forall a, b :: a in c.Hits() && b in e.Hits() ==> a.hash != b.hash)
    && (-100000 <= c.Lo() - e.Lo() <= 100000 || -100000 <= c.Lo() - e.Hi() <= 100000
        || -100000 <= c.Hi() - e.Lo() <= 100000 || -100000 <= c.Hi() - e.Hi() <= 100000)
  }

  lemma FitsIff(c: Ctor, e: Event)
    ensures Matching(c, e) <==> Fits(c.event, e)
  {
    SkippedMeansShared(c.event, e);
    CoincidentMeansTouching(e, c.event);
  }

  lemma FittingAreMatches(s: Filter, e: Event)
    ensures forall i: nat :: i in Matches(s.ctors, e) <==> i < |s.ctors| && Fits(s.ctors[i].event, e)
  {
    forall i: nat | i < |s.ctors| ensures Matching(s.ctors[i], e) <==> Fits(s.ctors[i].event, e) {
      FitsIff(s.ctors[i], e);
    }
  }

  lemma NoneOrOne(ms: seq<nat>, i: nat)
    requires Increasing(ms)
    ensures (forall k: nat :: k !in ms) ==> ms == []
    ensures (forall k: nat :: k in ms <==> k == i) ==> ms == [i]
  {
    assert ms != [] ==> ms[0] in ms;
    assert |ms| >= 2 ==> ms[1] in ms && ms[0] < ms[1];
    assert i in ms ==> ms != [];
  }

  // An event that fits no constructor opens one, at the end of the list, with the filter's
  // timeout and the present time; the queue length published is that before.
  lemma ArrivalOpens(s: Filter, e: Event, at: int)
    requires forall i :: 0 <= i < |s.ctors| ==> !Fits(s.ctors[i].event, e)
    ensures Arrive(s, e, at).Some?
    ensures var t := Arrive(s, e, at).value;
            && t.ctors == s.ctors + [Ctor(e, s.timeout, at)]
            && t.timeout == s.timeout && t.emitted == s.emitted
            && t.counters.bufferLength == |s.ctors| && t.counters.incoming == s.counters.incoming + 1
  {
    FittingAreMatches(s, e);
    NoneOrOne(Matches(s.ctors, e), 0);
  }

  // An event that fits exactly one constructor joins it: the hits of both, the hull of both
  // intervals, and the constructor's own timeout and birth; no other constructor changes.
  lemma ArrivalJoins(s: Filter, e: Event, at: int, i: nat)
    requires i < |s.ctors| && s.ctors[i].event.Framed() && e.Framed()
    requires forall k: nat :: k < |s.ctors| ==> (Fits(s.ctors[k].event, e) <==> k == i)
    ensures Arrive(s, e, at).Some?
    ensures var c, t := s.ctors[i], Arrive(s, e, at).value;
            && |t.ctors| == |s.ctors| && (forall k :: 0 <= k < |s.ctors| && k != i ==> t.ctors[k] == s.ctors[k])
            && t.ctors[i].timeout == c.timeout && t.ctors[i].born == c.born
            && t.ctors[i].event.Hits() == c.event.Hits() + e.Hits()
            && t.ctors[i].event.Lo() == Min(c.event.Lo(), e.Lo())
            && t.ctors[i].event.Hi() == Max(c.event.Hi(), e.Hi())
            && t.timeout == s.timeout && t.emitted == s.emitted
            && t.counters.bufferLength == |s.ctors| && t.counters.incoming == s.counters.incoming + 1
  {
    FittingAreMatches(s, e);
    NoneOrOne(Matches(s.ctors, e), i);
    MergeOneMatch(s.ctors, e, [i]);
    JoinLaw(s.ctors[i].event, e);
  }

  // --- the published counts

  // How many of the events have n hits; an event without a list has one.
  function OfLevel(es: seq<Event>, n: nat): nat {
    if es == [] then 0
    else
      var e := es[|es| - 1];
      OfLevel(es[..|es| - 1], n) + if (if |e.events| > 1 then |e.events| else 1) == n then 1 else 0
  }

  lemma {:induction false} OfLevelSplit(a: seq<Event>, b: seq<Event>, n: nat)
    ensures OfLevel(a + b, n) == OfLevel(a, n) + OfLevel(b, n)
  {
    if b == [] {
      assert a + b == a;
    } else {
      var init := b[..|b| - 1];
      OfLevelSplit(a, init, n);
      assert (a + b)[..|a + b| - 1] == a + init;
    }
  }

  // The counts of emitted events are those of their levels, and the maximum is attained.
  ghost predicate Published(c: Counters, es: seq<Event>) {
    && (forall n: nat :: c.At(n) == OfLevel(es, n))
    && (forall i :: 0 <= i < |es| ==> |es[i].events| <= c.maximumN && 1 <= c.maximumN)
    && (es == [] ==> c.maximumN == 0)
    && (es != [] ==> OfLevel(es, c.maximumN) > 0)
  }

  lemma PublishedOne(c: Counters, es: seq<Event>, e: Event)
    requires Published(c, es)
    ensures Published(c.CountOutgoing(e.N()), es + [e])
  {
    var d, more := c.CountOutgoing(e.N()), es + [e];
    forall n: nat ensures OfLevel(more, n) == OfLevel(es, n) + if e.N() == n then 1 else 0 {
      assert more[..|es|] == es;
    }
    forall n: nat ensures d.At(n) == OfLevel(more, n) {
    }
  }

  lemma {:induction false} PublishedAll(c: Counters, es: seq<Event>, more: seq<Event>)
    requires Published(c, es)
    ensures Published(CountAll(c, more), es + more)
    decreases |more|
  {
    if more == [] {
      assert es + more == es;
    } else {
      PublishedOne(c, es, more[0]);
      PublishedAll(c.CountOutgoing(more[0].N()), es + [more[0]], more[1..]);
      assert es + more == es + [more[0]] + more[1..];
    }
  }

  // After every run, the supervisor's count for each level is the number of events of that
  // level sent out, and its maximum is the highest level sent out.
  lemma {:induction false} RunPublished(actions: seq<Action>)
    requires Run(actions).Some?
    ensures Published(Run(actions).value.counters, Run(actions).value.emitted)
  {
    if actions != [] {
      var init, a := actions[..|actions| - 1], actions[|actions| - 1];
      RunPublished(init);
      var s := Run(init).value;
      if a.Ticking? {
        var sent := Sent(Raised(s.ctors, s.timeout), a.at);
        PublishedAll(s.counters, s.emitted, sent);
        SamePublished(CountAll(s.counters, sent), Run(actions).value.counters, s.emitted + sent);
      } else {
        SamePublished(s.counters, Run(actions).value.counters, s.emitted);
      }
    }
  }

  lemma SamePublished(c: Counters, d: Counters, es: seq<Event>)
    requires Published(c, es) && c.outgoing == d.outgoing && c.maximumN == d.maximumN
    ensures Published(d, es)
  {
    forall n: nat ensures d.At(n) == c.At(n) {
    }
  }
}
