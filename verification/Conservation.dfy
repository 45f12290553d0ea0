// No hit is lost, doubled or altered between arrival and emission. The accounts
// are kept for an arbitrary weight of hits: the weight that is 1 for one hit `d`
// and 0 for all others counts the copies of `d`, and the weight 1 counts hits.

module Conservation {
  import opened Basics
  import opened Events
  import opened Criterion
  import opened ClusterState
  import opened FilterModel
  import opened MergeLaw

  type Weight = Data -> nat

  function Only(d: Data): Weight {
    (h: Data) => if h == d then 1 else 0
  }

  function Ones(): Weight {
    (h: Data) => 1
  }

  function Sum(ds: seq<Data>, w: Weight): nat {
    if ds == [] then 0 else Sum(ds[..|ds| - 1], w) + w(ds[|ds| - 1])
  }

  function Count(e: Event, w: Weight): nat {
    Sum(e.Hits(), w)
  }

  // Occurrences among the open constructors.
  function Buffered(cs: seq<Ctor>, w: Weight): nat {
    if cs == [] then 0 else Buffered(cs[..|cs| - 1], w) + Count(cs[|cs| - 1].event, w)
  }

  // Occurrences among events put downstream.
  function Put(es: seq<Event>, w: Weight): nat
    decreases |es|
  {
    if es == [] then 0 else Count(es[0], w) + Put(es[1..], w)
  }

  // Occurrences among the events that have arrived in a run.
  function Ingested(actions: seq<Action>, w: Weight): nat {
    if actions == [] then 0
    else
      var last := actions[|actions| - 1];
      Ingested(actions[..|actions| - 1], w) + (if last.Arrival? then Count(last.event, w) else 0)
  }

  function Accounted(s: Filter, w: Weight): nat {
    Buffered(s.ctors, w) + Put(s.emitted, w)
  }

  // --- weights

  lemma {:induction false} SumSplit(a: seq<Data>, b: seq<Data>, w: Weight)
    ensures Sum(a + b, w) == Sum(a, w) + Sum(b, w)
    decreases |b|
  {
    if b == [] {
      assert a + b == a;
    } else {
      var c := b[..|b| - 1];
      assert (a + b)[..|a + b| - 1] == a + c;
      SumSplit(a, c, w);
    }
  }

  lemma SumOne(d: Data, w: Weight)
    ensures Sum([d], w) == w(d)
  {
    assert [d][..0] == [];
  }

  // The weights mean what they are meant to.
  lemma {:induction false} SumCounts(ds: seq<Data>, d: Data)
    ensures Sum(ds, Only(d)) == multiset(ds)[d]
    ensures Sum(ds, Ones()) == |ds|
  {
    if ds != [] {
      var init, last := ds[..|ds| - 1], ds[|ds| - 1];
      assert ds == init + [last];
      SumCounts(init, d);
    }
  }

  // --- lists of constructors

  lemma {:induction false} BufferedSplit(a: seq<Ctor>, b: seq<Ctor>, w: Weight)
    ensures Buffered(a + b, w) == Buffered(a, w) + Buffered(b, w)
    decreases |b|
  {
    if b == [] {
      assert a + b == a;
    } else {
      var c := b[..|b| - 1];
      assert (a + b)[..|a + b| - 1] == a + c;
      BufferedSplit(a, c, w);
    }
  }

  lemma BufferedThree(a: seq<Ctor>, c: Ctor, b: seq<Ctor>, w: Weight)
    ensures Buffered(a + [c] + b, w) == Buffered(a, w) + Count(c.event, w) + Buffered(b, w)
  {
    BufferedSplit(a + [c], b, w);
    BufferedSplit(a, [c], w);
    assert [c][..0] == [];
  }

  lemma BufferedUpdate(cs: seq<Ctor>, i: nat, c: Ctor, w: Weight)
    requires i < |cs|
    ensures Buffered(cs[i := c], w) == Buffered(cs, w) - Count(cs[i].event, w) + Count(c.event, w)
  {
    var a, b := cs[..i], cs[i + 1..];
    SplitAt(cs, i);
    UpdateSplit(cs, i, c);
    BufferedThree(a, cs[i], b, w);
    BufferedThree(a, c, b, w);
  }

  lemma BufferedErase(cs: seq<Ctor>, i: nat, w: Weight)
    requires i < |cs|
    ensures Buffered(Erase(cs, i), w) == Buffered(cs, w) - Count(cs[i].event, w)
  {
    var a, b := cs[..i], cs[i + 1..];
    SplitAt(cs, i);
    BufferedThree(a, cs[i], b, w);
    BufferedSplit(a, b, w);
  }

  lemma {:induction false} PutAppend(a: seq<Event>, b: seq<Event>, w: Weight)
    ensures Put(a + b, w) == Put(a, w) + Put(b, w)
    decreases |a|
  {
    if a == [] {
      assert a + b == b;
    } else {
      assert (a + b)[1..] == a[1..] + b;
      PutAppend(a[1..], b, w);
    }
  }

  // --- joining and merging

  lemma PromoteCount(c: Event, w: Weight)
    ensures Sum(c.Promote().events, w) == Count(c, w) + (if |c.events| == 1 then w(c.events[0]) else 0)
    ensures |c.Promote().events| >= 1 && (|c.events| > 0 ==> |c.Promote().events| >= 2)
  {
    if |c.events| < 2 {
      assert c.Promote().events == c.events + [c.data];
      SumSplit(c.events, [c.data], w);
      if |c.events| == 1 {
        assert c.events == [c.events[0]];
        SumOne(c.events[0], w);
      }
    }
  }

  // A join adds exactly the joining hits, unless a single event already lists a
  // hit: promotion then lists a second one out of nowhere.
  lemma JoinCount(c: Event, e: Event, w: Weight)
    ensures Count(c.Join(e), w) == Count(c, w) + Count(e, w) + (if |c.events| == 1 then w(c.events[0]) else 0)
    ensures |c.Join(e).events| >= 2
  {
    PromoteCount(c, w);
    ExtendAllAppends(c.Promote(), e.Hits());
    SumSplit(c.Promote().events, e.Hits(), w);
  }

  lemma AbsorbCount(c: Event, e: Event, w: Weight)
    requires |c.events| >= 2
    ensures Count(c.ExtendAll(e.Hits()), w) == Count(c, w) + Count(e, w)
    ensures |c.ExtendAll(e.Hits()).events| >= 2
  {
    ExtendAllAppends(c, e.Hits());
    SumSplit(c.events, e.Hits(), w);
  }

  // The contested loop moves hits but keeps their number, drifted indices or not.
  lemma {:induction false} MergeRestConserves(cs: seq<Ctor>, head: nat, rest: seq<nat>, w: Weight)
    requires head < |cs| && |cs[head].event.events| >= 2
    requires forall k :: 0 <= k < |rest| ==> head < rest[k]
    requires MergeRest(cs, head, rest).Some?
    ensures Buffered(MergeRest(cs, head, rest).value, w) == Buffered(cs, w)
    decreases |rest|
  {
    if rest != [] {
      var i := rest[0];
      var absorbed := cs[head].(event := cs[head].event.ExtendAll(cs[i].event.Hits()));
      AbsorbCount(cs[head].event, cs[i].event, w);
      BufferedUpdate(cs, head, absorbed, w);
      BufferedErase(cs[head := absorbed], i, w);
      MergeRestConserves(Erase(cs[head := absorbed], i), head, rest[1..], w);
    }
  }

  // The constructor that an arrival joins, if any.
  ghost predicate JoinsListedSingle(s: Filter, e: Event) {
    var ms := Matches(s.ctors, e);
    ms != [] && |s.ctors[ms[0]].event.events| == 1
  }

  lemma MergeCount(cs: seq<Ctor>, e: Event, ms: seq<nat>, w: Weight)
    requires |ms| > 0 && ms[0] < |cs|
    requires forall k :: 0 < k < |ms| ==> ms[0] < ms[k]
    requires Merge(cs, e, ms).Some?
    ensures Buffered(Merge(cs, e, ms).value, w) == Buffered(cs, w) + Count(e, w) +
            (if |cs[ms[0]].event.events| == 1 then w(cs[ms[0]].event.events[0]) else 0)
  {
    var c := cs[ms[0]];
    var joined := c.(event := c.event.Join(e));
    JoinCount(c.event, e, w);
    BufferedUpdate(cs, ms[0], joined, w);
    MergeRestConserves(cs[ms[0] := joined], ms[0], ms[1..], w);
  }

  lemma ArrivalCount(s: Filter, e: Event, now: int, w: Weight)
    requires Arrive(s, e, now).Some?
    ensures Accounted(Arrive(s, e, now).value, w) == Accounted(s, w) + Count(e, w) +
            (if JoinsListedSingle(s, e) then w(s.ctors[Matches(s.ctors, e)[0]].event.events[0]) else 0)
  {
    var ms := Matches(s.ctors, e);
    if ms == [] {
      BufferedSplit(s.ctors, [Ctor(e, s.timeout, now)], w);
      BufferedThree([], Ctor(e, s.timeout, now), [], w);
      assert [] + [Ctor(e, s.timeout, now)] + [] == [Ctor(e, s.timeout, now)];
    } else {
      MergeCount(s.ctors, e, ms, w);
    }
  }

  // An arrival conserves every hit if and only if it does not join a constructor
  // whose event lists exactly one hit.
  lemma ArrivalConserves(s: Filter, e: Event, now: int)
    requires Arrive(s, e, now).Some?
    ensures (forall w: Weight :: Accounted(Arrive(s, e, now).value, w) == Accounted(s, w) + Count(e, w))
            <==> !JoinsListedSingle(s, e)
  {
    forall w: Weight {
      ArrivalCount(s, e, now, w);
    }
    if JoinsListedSingle(s, e) {
      ArrivalCount(s, e, now, Ones());
    }
  }

  // An event that lists one hit, and then another hit in time: two have come in, and three
  // are open.
  lemma OneListedDoubles()
    ensures var d, e := Data(1, 0, 0, 0, 1, ""), Data(2, 5, 5, 0, 1, "");
            var actions := [Arrival(Event(d, [d]), 0), Arrival(Event(e, []), 0)];
            && Run(actions).Some? && Ingested(actions, Ones()) == 2
            && Accounted(Run(actions).value, Ones()) == 3
  {
    var d, e := Event(Data(1, 0, 0, 0, 1, ""), [Data(1, 0, 0, 0, 1, "")]), Event(Data(2, 5, 5, 0, 1, ""), []);
    var s := ListedOpens(d);
    ListedMatches(s.ctors, d, e);
    ArrivalCount(s, e, 0, Ones());
    TwoArrivals(d, e);
  }

  lemma ListedOpens(d: Event) returns (s: Filter)
    ensures Arrive(EMPTY, d, 0) == Some(s) && s.ctors == [Ctor(d, INITIAL_TIMEOUT, 0)]
    ensures Accounted(s, Ones()) == Count(d, Ones())
  {
    s := Arrive(EMPTY, d, 0).value;
    ArrivalCount(EMPTY, d, 0, Ones());
  }

  lemma ListedMatches(cs: seq<Ctor>, d: Event, e: Event)
    requires |cs| == 1 && cs[0].event == d && !Skipped(d, e) && Touching(e, d)
    ensures Matches(cs, e) == [0] && Enter(cs, e, 0, 0).Some?
  {
    CoincidentMeansTouching(e, d);
    assert MatchesFrom(cs, e, 1) == [];
  }

  lemma TwoArrivals(d: Event, e: Event)
    requires Arrive(EMPTY, d, 0).Some?
    ensures Run([Arrival(d, 0), Arrival(e, 0)]) == Arrive(Arrive(EMPTY, d, 0).value, e, 0)
    ensures Ingested([Arrival(d, 0), Arrival(e, 0)], Ones()) == Count(d, Ones()) + Count(e, Ones())
  {
    var one, two := [Arrival(d, 0)], [Arrival(d, 0), Arrival(e, 0)];
    assert Ingested(one, Ones()) == Ingested([], Ones()) + Count(d, Ones());
    assert one[..0] == [] && two[..1] == one;
    assert Run(one) == Arrive(EMPTY, d, 0);
  }

  // --- ticks

  lemma {:induction false} RaisedCount(cs: seq<Ctor>, timeout: int, w: Weight)
    ensures Buffered(Raised(cs, timeout), w) == Buffered(cs, w)
  {
    if cs != [] {
      var init := cs[..|cs| - 1];
      RaisedCount(init, timeout, w);
      assert Raised(cs, timeout)[..|cs| - 1] == Raised(init, timeout);
    }
  }

  lemma {:induction false} SplitCount(cs: seq<Ctor>, now: int, w: Weight)
    ensures Buffered(Kept(cs, now), w) + Put(Sent(cs, now), w) == Buffered(cs, w)
  {
    if cs != [] {
      var init, last := cs[..|cs| - 1], cs[|cs| - 1];
      SplitCount(init, now, w);
      if last.TimedOut(now) {
        assert Sent(cs, now)[1..] == Sent(init, now);
        assert Kept(cs, now) == Kept(init, now);
      } else {
        assert Kept(cs, now)[..|Kept(cs, now)| - 1] == Kept(init, now);
        assert Sent(cs, now) == Sent(init, now);
      }
    }
  }

  lemma TickCount(s: Filter, now: int, w: Weight)
    ensures Accounted(Tick(s, now), w) == Accounted(s, w)
  {
    RaisedCount(s.ctors, s.timeout, w);
    SplitCount(Raised(s.ctors, s.timeout), now, w);
    PutAppend(s.emitted, Sent(Raised(s.ctors, s.timeout), now), w);
  }

  // --- runs

  // No constructor lists exactly one hit.
  ghost predicate Unlisted(s: Filter) {
    forall i :: 0 <= i < |s.ctors| ==> |s.ctors[i].event.events| != 1
  }

  // Arriving events list no hits or at least two.
  ghost predicate WellListed(actions: seq<Action>) {
    forall i :: 0 <= i < |actions| && actions[i].Arrival? ==> |actions[i].event.events| != 1
  }

  lemma {:induction false} MergeRestListed(cs: seq<Ctor>, head: nat, rest: seq<nat>)
    requires head < |cs| && |cs[head].event.events| >= 2
    requires forall i :: 0 <= i < |cs| ==> |cs[i].event.events| != 1
    requires forall k :: 0 <= k < |rest| ==> head < rest[k]
    requires MergeRest(cs, head, rest).Some?
    ensures forall i :: 0 <= i < |MergeRest(cs, head, rest).value| ==>
                          |MergeRest(cs, head, rest).value[i].event.events| != 1
    decreases |rest|
  {
    if rest != [] {
      AbsorbCount(cs[head].event, cs[rest[0]].event, Ones());
      MergeRestListed(MergeOne(cs, head, rest[0]), head, rest[1..]);
    }
  }

  lemma ArrivalUnlisted(s: Filter, e: Event, at: int)
    requires Unlisted(s) && Arrive(s, e, at).Some? && |e.events| != 1
    ensures Unlisted(Arrive(s, e, at).value)
  {
    var ms := Matches(s.ctors, e);
    if ms != [] {
      var c := s.ctors[ms[0]];
      JoinCount(c.event, e, Ones());
      MergeRestListed(s.ctors[ms[0] := c.(event := c.event.Join(e))], ms[0], ms[1..]);
    }
  }

  lemma {:induction false} KeptFrom(cs: seq<Ctor>, now: int)
    ensures forall i :: 0 <= i < |Kept(cs, now)| ==> Kept(cs, now)[i] in cs && !Kept(cs, now)[i].TimedOut(now)
  {
    if cs != [] {
      KeptFrom(cs[..|cs| - 1], now);
    }
  }

  lemma TickUnlisted(s: Filter, now: int)
    requires Unlisted(s)
    ensures Unlisted(Tick(s, now))
  {
    KeptFrom(Raised(s.ctors, s.timeout), now);
  }

  // In every run that stays defined, the hits ingested are exactly the hits
  // buffered plus the hits emitted, each one unchanged.
  lemma {:induction false} RunConserves(actions: seq<Action>)
    requires WellListed(actions) && Run(actions).Some?
    ensures Unlisted(Run(actions).value)
    ensures forall w: Weight :: Ingested(actions, w) == Accounted(Run(actions).value, w)
  {
    if actions != [] {
      var init, a := actions[..|actions| - 1], actions[|actions| - 1];
      RunConserves(init);
      var s := Run(init).value;
      match a
      case Arrival(e, at) =>
        ArrivalUnlisted(s, e, at);
        ArrivalConserves(s, e, at);
      case Ticking(at) =>
        TickUnlisted(s, at);
        forall w: Weight { TickCount(s, at, w); }
      case Timebase(_, _) =>
    }
  }

  // --- the same as bags

  function Open(cs: seq<Ctor>): seq<Data> {
    if cs == [] then [] else Open(cs[..|cs| - 1]) + cs[|cs| - 1].event.Hits()
  }

  function Flat(es: seq<Event>): seq<Data>
    decreases |es|
  {
    if es == [] then [] else es[0].Hits() + Flat(es[1..])
  }

  function Arrived(actions: seq<Action>): seq<Data> {
    if actions == [] then []
    else
      var last := actions[|actions| - 1];
      Arrived(actions[..|actions| - 1]) + (if last.Arrival? then last.event.Hits() else [])
  }

  lemma {:induction false} OpenSum(cs: seq<Ctor>, w: Weight)
    ensures Sum(Open(cs), w) == Buffered(cs, w)
  {
    if cs != [] {
      OpenSum(cs[..|cs| - 1], w);
      SumSplit(Open(cs[..|cs| - 1]), cs[|cs| - 1].event.Hits(), w);
    }
  }

  lemma {:induction false} FlatSum(es: seq<Event>, w: Weight)
    ensures Sum(Flat(es), w) == Put(es, w)
    decreases |es|
  {
    if es != [] {
      FlatSum(es[1..], w);
      SumSplit(es[0].Hits(), Flat(es[1..]), w);
    }
  }

  lemma {:induction false} ArrivedSum(actions: seq<Action>, w: Weight)
    ensures Sum(Arrived(actions), w) == Ingested(actions, w)
  {
    if actions != [] {
      var last := actions[|actions| - 1];
      ArrivedSum(actions[..|actions| - 1], w);
      SumSplit(Arrived(actions[..|actions| - 1]), if last.Arrival? then last.event.Hits() else [], w);
    }
  }

  // In every run that stays defined, the bag of hits that arrived is the bag of
  // hits still open together with the bag of hits put downstream.
  lemma RunKeepsBag(actions: seq<Action>)
    requires WellListed(actions) && Run(actions).Some?
    ensures var s := Run(actions).value;
            multiset(Arrived(actions)) == multiset(Open(s.ctors)) + multiset(Flat(s.emitted))
  {
    var s := Run(actions).value;
    RunConserves(actions);
    forall d
      ensures multiset(Arrived(actions))[d] == multiset(Open(s.ctors))[d] + multiset(Flat(s.emitted))[d]
    {
      SumCounts(Arrived(actions), d);
      SumCounts(Open(s.ctors), d);
      SumCounts(Flat(s.emitted), d);
      ArrivedSum(actions, Only(d));
      OpenSum(s.ctors, Only(d));
      FlatSum(s.emitted, Only(d));
      assert Ingested(actions, Only(d)) == Accounted(s, Only(d));
    }
  }

  // --- levels

  // The hits represented by the supervisor's counters of emitted events.
  function Weighted(c: Counters, k: nat): nat {
    if k == 0 then 0 else Weighted(c, k - 1) + k * c.At(k)
  }

  ghost predicate Bounded(c: Counters) {
    forall n :: n in c.outgoing ==> n <= c.maximumN
  }

  lemma {:induction false} WeightedSame(c: Counters, d: Counters, k: nat)
    requires forall n :: 1 <= n <= k ==> c.At(n) == d.At(n)
    ensures Weighted(c, k) == Weighted(d, k)
  {
    if k > 0 {
      WeightedSame(c, d, k - 1);
    }
  }

  lemma {:induction false} WeightedBump(c: Counters, d: Counters, n: nat, k: nat)
    requires 1 <= n <= k && d.At(n) == c.At(n) + 1
    requires forall m :: m != n ==> d.At(m) == c.At(m)
    ensures Weighted(d, k) == Weighted(c, k) + n
  {
    if k > n {
      WeightedBump(c, d, n, k - 1);
    } else {
      WeightedSame(c, d, k - 1);
      assert k * d.At(k) == k * c.At(k) + k;
    }
  }

  lemma {:induction false} WeightedBeyond(c: Counters, j: nat, k: nat)
    requires j <= k && forall n :: j < n <= k ==> c.At(n) == 0
    ensures Weighted(c, k) == Weighted(c, j)
  {
    if j < k {
      WeightedBeyond(c, j, k - 1);
      assert k * c.At(k) == 0;
    }
  }

  lemma CountOutgoingLaw(c: Counters, n: nat)
    requires Bounded(c) && n >= 1
    ensures Bounded(c.CountOutgoing(n))
    ensures var d := c.CountOutgoing(n); Weighted(d, d.maximumN) == Weighted(c, c.maximumN) + n
  {
    var d := c.CountOutgoing(n);
    WeightedBeyond(c, c.maximumN, d.maximumN);
    WeightedBump(c, d, n, d.maximumN);
  }

  lemma {:induction false} CountAllLaw(c: Counters, es: seq<Event>)
    requires Bounded(c)
    ensures Bounded(CountAll(c, es)) && CountAll(c, es).incoming == c.incoming
    ensures var d := CountAll(c, es); Weighted(d, d.maximumN) == Weighted(c, c.maximumN) + Put(es, Ones())
    decreases |es|
  {
    if es != [] {
      CountOutgoingLaw(c, es[0].N());
      CountAllLaw(c.CountOutgoing(es[0].N()), es[1..]);
      SumCounts(es[0].Hits(), es[0].data);
    }
  }

  lemma CountersIgnoreQueue(c: Counters, b: nat, i: nat)
    ensures var d := c.(bufferLength := b, incoming := i); Weighted(d, d.maximumN) == Weighted(c, c.maximumN)
  {
    WeightedSame(c, c.(bufferLength := b, incoming := i), c.maximumN);
  }

  function Arrivals(actions: seq<Action>): nat {
    if actions == [] then 0
    else Arrivals(actions[..|actions| - 1]) + (if actions[|actions| - 1].Arrival? then 1 else 0)
  }

  ghost predicate Agree(s: Filter) {
    Bounded(s.counters) && Weighted(s.counters, s.counters.maximumN) == Put(s.emitted, Ones())
  }

  lemma TickCounters(s: Filter, at: int)
    requires Agree(s)
    ensures Agree(Tick(s, at)) && Tick(s, at).counters.incoming == s.counters.incoming
  {
    var sent := Sent(Raised(s.ctors, s.timeout), at);
    var c := CountAll(s.counters, sent);
    CountAllLaw(s.counters, sent);
    CountersIgnoreQueue(c, Tick(s, at).counters.bufferLength, c.incoming);
    PutAppend(s.emitted, sent, Ones());
  }

  lemma ArrivalCounters(s: Filter, e: Event, at: int)
    requires Agree(s) && Arrive(s, e, at).Some?
    ensures Agree(Arrive(s, e, at).value)
    ensures Arrive(s, e, at).value.counters.incoming == s.counters.incoming + 1
  {
    CountersIgnoreQueue(s.counters, |s.ctors|, s.counters.incoming + 1);
  }

  // The supervisor's counters agree with the run: one incoming per arrival, and
  // the levels of outgoing events add up to the hits emitted.
  lemma {:induction false} RunCounters(actions: seq<Action>)
    requires Run(actions).Some?
    ensures Agree(Run(actions).value)
    ensures Run(actions).value.counters.incoming == Arrivals(actions)
  {
    if actions != [] {
      var init, a := actions[..|actions| - 1], actions[|actions| - 1];
      RunCounters(init);
      match a
      case Arrival(e, at) => ArrivalCounters(Run(init).value, e, at);
      case Ticking(at) => TickCounters(Run(init).value, at);
      case Timebase(_, _) =>
    }
  }

  ghost predicate SingleHits(actions: seq<Action>) {
    forall i :: 0 <= i < |actions| && actions[i].Arrival? ==> actions[i].event.events == []
  }

  // With single-hit input, incoming events are the levels of all events sent out,
  // each counted once, plus the hits still open.
  lemma {:induction false} LevelsAddUp(actions: seq<Action>)
    requires SingleHits(actions) && Run(actions).Some?
    ensures var s := Run(actions).value;
            s.counters.incoming == Weighted(s.counters, s.counters.maximumN) + |Open(s.ctors)|
  {
    var s := Run(actions).value;
    RunCounters(actions);
    RunConserves(actions);
    SingleArrivals(actions);
    assert Ingested(actions, Ones()) == Accounted(s, Ones());
    OpenSum(s.ctors, Ones());
    if Open(s.ctors) != [] {
      SumCounts(Open(s.ctors), Open(s.ctors)[0]);
    }
  }

  lemma {:induction false} SingleArrivals(actions: seq<Action>)
    requires SingleHits(actions)
    ensures Ingested(actions, Ones()) == Arrivals(actions)
  {
    if actions != [] {
      var last := actions[|actions| - 1];
      SingleArrivals(actions[..|actions| - 1]);
      if last.Arrival? {
        SumOne(last.event.data, Ones());
      }
    }
  }
}
