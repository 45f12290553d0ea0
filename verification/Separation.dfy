// When the contested merge is right: single-hit runs in which a hit is never
// kept away from a coincident constructor by a shared detector.

module Separation {
  import opened Basics
  import opened Events
  import opened Criterion
  import opened FilterModel
  import opened MergeLaw

  // No two open constructors coincide.
  ghost predicate Separated(cs: seq<Ctor>) {
    forall i, j :: 0 <= i < j < |cs| ==> !Coincident(cs[i].event, cs[j].event)
  }

  // An event of n hits spans at most n - 1 coincidence windows.
  ghost predicate Spanned(e: Event) {
    0 <= e.Hi() - e.Lo() <= (e.N() - 1) * TIME
  }

  ghost predicate Proper(e: Event) {
    e.Framed() && Spanned(e)
  }

  ghost predicate AllProper(cs: seq<Ctor>) {
    forall i :: 0 <= i < |cs| ==> Proper(cs[i].event)
  }

  ghost predicate Single(e: Event) {
    e.events == []
  }

  // The arriving hit passes the criterion with no constructor it is kept from.
  ghost predicate Clean(cs: seq<Ctor>, e: Event) {
    forall i :: 0 <= i < |cs| && Skipped(cs[i].event, e) ==> !Coincident(e, cs[i].event)
  }

  // Three endpoints pairwise more than TIME apart cannot all lie within TIME of one time.
  lemma AtMostTwoMatches(cs: seq<Ctor>, e: Event)
    requires Separated(cs) && Single(e)
    ensures |Matches(cs, e)| <= 2
  {
    var ms := Matches(cs, e);
    if |ms| >= 3 {
      var a, b, c := cs[ms[0]].event, cs[ms[1]].event, cs[ms[2]].event;
      assert !Coincident(a, b) && !Coincident(a, c) && !Coincident(b, c);
      CoincidentMeansTouching(a, b);
      CoincidentMeansTouching(a, c);
      CoincidentMeansTouching(b, c);
      CoincidentMeansTouching(e, a);
      CoincidentMeansTouching(e, b);
      CoincidentMeansTouching(e, c);
      NoThreeNear(a, b, c, e.data.start);
    }
  }

  ghost predicate Near(e: Event, t: int) {
    Close(t, e.Lo()) || Close(t, e.Hi())
  }

  lemma NoThreeNear(a: Event, b: Event, c: Event, t: int)
    requires Near(a, t) && Near(b, t) && Near(c, t)
    ensures Touching(a, b) || Touching(a, c) || Touching(b, c)
  {
    var p :| (p == a.Lo() || p == a.Hi()) && Close(t, p);
    var q :| (q == b.Lo() || q == b.Hi()) && Close(t, q);
    var r :| (r == c.Lo() || r == c.Hi()) && Close(t, r);
    TwoOfThreeClose(p, q, r, t);
  }

  lemma TwoOfThreeClose(p: int, q: int, r: int, t: int)
    requires Close(t, p) && Close(t, q) && Close(t, r)
    ensures Close(p, q) || Close(p, r) || Close(q, r)
  {
  }

  // Joining a matching hit to a proper event widens it by at most one window.
  lemma JoinProper(c: Event, e: Event)
    requires Proper(c) && Single(e) && Coincident(e, c)
    ensures Proper(c.Join(e)) && c.Join(e).N() == c.N() + 1
    ensures c.Join(e).Lo() == Min(c.Lo(), e.Lo()) && c.Join(e).Hi() == Max(c.Hi(), e.Lo())
  {
    JoinLaw(c, e);
  }

  // A two-way merge: the joined event takes in a second proper event that
  // matched the same hit t.
  lemma MergeProper(c: Event, d: Event, t: int)
    requires Proper(c) && c.N() >= 2 && c.Lo() <= t <= c.Hi()
    requires Proper(d) && Near(d, t)
    ensures var m := c.ExtendAll(d.Hits());
            Proper(m) && m.N() == c.N() + d.N() && m.Lo() == Min(c.Lo(), d.Lo()) && m.Hi() == Max(c.Hi(), d.Hi())
  {
    JoinLaw(c, d);
    assert c.Promote() == c;
    var m := c.ExtendAll(d.Hits());
    assert m.Hi() - m.Lo() <= (c.N() - 1) * TIME + d.N() * TIME;
  }

  // --- one arrival

  // The two ways a match can change one constructor.
  function Joined(cs: seq<Ctor>, e: Event, i: nat): Ctor
    requires i < |cs|
  {
    cs[i].(event := cs[i].event.Join(e))
  }

  function Merged(cs: seq<Ctor>, e: Event, i: nat, j: nat): Ctor
    requires i < |cs| && j < |cs|
  {
    cs[i].(event := cs[i].event.Join(e).ExtendAll(cs[j].event.Hits()))
  }

  lemma MergeOneMatch(cs: seq<Ctor>, e: Event, ms: seq<nat>)
    requires |ms| == 1 && ms[0] < |cs|
    ensures Merge(cs, e, ms) == Some(cs[ms[0] := Joined(cs, e, ms[0])])
  {
    assert ms[1..] == [];
  }

  lemma MergeTwoMatches(cs: seq<Ctor>, e: Event, ms: seq<nat>)
    requires |ms| == 2 && ms[0] < ms[1] < |cs|
    ensures Merge(cs, e, ms) == Some(Erase(cs[ms[0] := Merged(cs, e, ms[0], ms[1])], ms[1]))
  {
    var i, rest := ms[0], ms[1..];
    var joined := cs[i := Joined(cs, e, i)];
    var once := Erase(joined[i := Merged(cs, e, i, ms[1])], ms[1]);
    assert rest[1..] == [];
    assert MergeRest(once, i, []) == Some(once);
    assert joined[i := Merged(cs, e, i, ms[1])] == cs[i := Merged(cs, e, i, ms[1])];
    assert MergeRest(joined, i, rest) == MergeRest(once, i, rest[1..]);
  }

  lemma ArrivalShape(s: Filter, e: Event, at: int)
    requires |Matches(s.ctors, e)| <= 2
    ensures Arrive(s, e, at).Some?
    ensures var cs, ms := s.ctors, Matches(s.ctors, e);
            Arrive(s, e, at).value.ctors ==
            if |ms| == 0 then cs + [Ctor(e, s.timeout, at)]
            else if |ms| == 1 then cs[ms[0] := Joined(cs, e, ms[0])]
            else Erase(cs[ms[0] := Merged(cs, e, ms[0], ms[1])], ms[1])
  {
    var ms := Matches(s.ctors, e);
    if |ms| == 1 {
      MergeOneMatch(s.ctors, e, ms);
    } else if |ms| == 2 {
      MergeTwoMatches(s.ctors, e, ms);
    }
  }

  // With at most two matches an arrival is defined, and every event stays proper.
  lemma ArrivalProper(s: Filter, e: Event, at: int)
    requires AllProper(s.ctors) && Single(e) && |Matches(s.ctors, e)| <= 2
    ensures Arrive(s, e, at).Some? && AllProper(Arrive(s, e, at).value.ctors)
  {
    var cs, ms := s.ctors, Matches(s.ctors, e);
    ArrivalShape(s, e, at);
    if ms != [] {
      JoinProper(cs[ms[0]].event, e);
      if |ms| == 2 {
        CoincidentMeansTouching(e, cs[ms[1]].event);
        MergeProper(cs[ms[0]].event.Join(e), cs[ms[1]].event, e.data.start);
      }
    }
  }

  // Growing by a clean hit moves no endpoint near another constructor.
  lemma StaysApart(c: Event, x: Event, t: int, m: Event)
    requires !Coincident(c, x) && !Near(x, t)
    requires m.Lo() == Min(c.Lo(), t) && m.Hi() == Max(c.Hi(), t)
    ensures !Coincident(m, x) && !Coincident(x, m)
  {
  }

  lemma StaysApartMerged(c: Event, d: Event, x: Event, m: Event)
    requires !Coincident(c, x) && !Coincident(d, x)
    requires m.Lo() == Min(c.Lo(), d.Lo()) && m.Hi() == Max(c.Hi(), d.Hi())
    ensures !Coincident(m, x) && !Coincident(x, m)
  {
  }

  lemma NotNear(cs: seq<Ctor>, e: Event, k: nat)
    requires k < |cs| && k !in Matches(cs, e) && Clean(cs, e) && Single(e)
    ensures !Near(cs[k].event, e.data.start) && !Coincident(e, cs[k].event) && !Coincident(cs[k].event, e)
  {
    CoincidentMeansTouching(e, cs[k].event);
  }

  lemma ArrivalSeparatedNone(cs: seq<Ctor>, e: Event, c: Ctor)
    requires Separated(cs) && Single(e) && Clean(cs, e) && Matches(cs, e) == [] && c.event == e
    ensures Separated(cs + [c])
  {
    forall k | 0 <= k < |cs| ensures !Coincident(cs[k].event, e) {
      NotNear(cs, e, k);
    }
  }

  lemma ReplaceSeparated(cs: seq<Ctor>, i: nat, c: Ctor)
    requires Separated(cs) && i < |cs|
    requires forall k :: 0 <= k < |cs| && k != i ==>
               !Coincident(c.event, cs[k].event) && !Coincident(cs[k].event, c.event)
    ensures Separated(cs[i := c])
  {
  }

  lemma EraseSeparated(cs: seq<Ctor>, i: nat)
    requires Separated(cs) && i < |cs|
    ensures Separated(Erase(cs, i))
  {
  }

  lemma ArrivalSeparatedOne(cs: seq<Ctor>, e: Event, i: nat, c: Ctor)
    requires Separated(cs) && AllProper(cs) && Single(e) && Clean(cs, e) && Matches(cs, e) == [i]
    requires i < |cs| && c == Joined(cs, e, i)
    ensures Separated(cs[i := c])
  {
    assert Matches(cs, e)[0] == i;
    JoinProper(cs[i].event, e);
    forall k | 0 <= k < |cs| && k != i
      ensures !Coincident(c.event, cs[k].event) && !Coincident(cs[k].event, c.event)
    {
      NotNear(cs, e, k);
      CoincidentMeansTouching(cs[i].event, cs[k].event);
      StaysApart(cs[i].event, cs[k].event, e.data.start, c.event);
    }
    ReplaceSeparated(cs, i, c);
  }

  // The merged event of a two-way match, seen from another constructor.
  lemma MergedApart(c: Event, d: Event, e: Event, x: Event)
    requires Proper(c) && Proper(d) && Single(e) && Coincident(e, c) && Coincident(e, d)
    requires !Coincident(c, x) && !Coincident(d, x) && !Near(x, e.data.start)
    ensures var m := c.Join(e).ExtendAll(d.Hits()); !Coincident(m, x) && !Coincident(x, m)
  {
    CoincidentMeansTouching(e, d);
    JoinProper(c, e);
    MergeProper(c.Join(e), d, e.data.start);
    StaysApart(c, x, e.data.start, c.Join(e));
    StaysApartMerged(c.Join(e), d, x, c.Join(e).ExtendAll(d.Hits()));
  }

  lemma EraseAfterUpdate(cs: seq<Ctor>, i: nat, j: nat, c: Ctor)
    requires i < j < |cs|
    ensures Erase(cs[i := c], j) == Erase(cs, j)[i := c]
  {
  }

  ghost predicate AloneAt(cs: seq<Ctor>, e: Event, i: nat, j: nat) {
    && Separated(cs) && AllProper(cs) && Single(e) && Clean(cs, e)
    && i < j < |cs| && Matches(cs, e) == [i, j]
  }

  lemma ApartAfterMerge(cs: seq<Ctor>, e: Event, i: nat, j: nat, o: nat)
    requires AloneAt(cs, e, i, j) && o < |cs| && o != i && o != j
    ensures var m := Merged(cs, e, i, j).event; !Coincident(m, cs[o].event) && !Coincident(cs[o].event, m)
  {
    assert Matches(cs, e)[0] == i && Matches(cs, e)[1] == j;
    NotNear(cs, e, o);
    ApartFromBoth(cs, i, j, o);
    MergedApart(cs[i].event, cs[j].event, e, cs[o].event);
  }

  lemma ArrivalSeparatedTwo(cs: seq<Ctor>, e: Event, i: nat, j: nat)
    requires AloneAt(cs, e, i, j)
    ensures Separated(Erase(cs[i := Merged(cs, e, i, j)], j))
  {
    var c, ds := Merged(cs, e, i, j), Erase(cs, j);
    EraseSeparated(cs, j);
    EraseAfterUpdate(cs, i, j, c);
    forall k | 0 <= k < |ds| && k != i
      ensures !Coincident(c.event, ds[k].event) && !Coincident(ds[k].event, c.event)
    {
      ApartAfterMerge(cs, e, i, j, if k < j then k else k + 1);
    }
    ReplaceSeparated(ds, i, c);
  }

  lemma ApartFromBoth(cs: seq<Ctor>, i: nat, j: nat, o: nat)
    requires Separated(cs) && i < |cs| && j < |cs| && o < |cs| && o != i && o != j
    ensures !Coincident(cs[i].event, cs[o].event) && !Coincident(cs[j].event, cs[o].event)
  {
    CoincidentMeansTouching(cs[i].event, cs[o].event);
    CoincidentMeansTouching(cs[j].event, cs[o].event);
  }

  lemma ArrivalSeparated(s: Filter, e: Event, at: int)
    requires Separated(s.ctors) && AllProper(s.ctors) && Single(e) && Clean(s.ctors, e)
    ensures Arrive(s, e, at).Some? && Separated(Arrive(s, e, at).value.ctors)
  {
    var cs, ms := s.ctors, Matches(s.ctors, e);
    AtMostTwoMatches(cs, e);
    ArrivalShape(s, e, at);
    if ms == [] {
      ArrivalSeparatedNone(cs, e, Ctor(e, s.timeout, at));
    } else if |ms| == 1 {
      assert ms == [ms[0]];
      ArrivalSeparatedOne(cs, e, ms[0], Joined(cs, e, ms[0]));
    } else {
      assert ms == [ms[0], ms[1]];
      ArrivalSeparatedTwo(cs, e, ms[0], ms[1]);
    }
  }

  // Without a match, separation survives if and only if the hit is clean.
  lemma NewConstructorSeparated(s: Filter, e: Event, at: int)
    requires Separated(s.ctors) && Single(e) && Matches(s.ctors, e) == []
    ensures Separated(Arrive(s, e, at).value.ctors) <==> Clean(s.ctors, e)
  {
    var c := Ctor(e, s.timeout, at);
    var ds := s.ctors + [c];
    if Clean(s.ctors, e) {
      ArrivalSeparatedNone(s.ctors, e, c);
    } else {
      var k :| 0 <= k < |s.ctors| && Skipped(s.ctors[k].event, e) && Coincident(e, s.ctors[k].event);
      CoincidentMeansTouching(e, s.ctors[k].event);
      assert Coincident(ds[k].event, ds[|s.ctors|].event);
    }
  }

  // --- ticks

  // The indices below n of expired, or of unexpired, constructors in ascending order.
  function Indices(cs: seq<Ctor>, now: int, expired: bool, n: nat): (from: seq<nat>)
    requires n <= |cs|
    ensures forall i :: 0 <= i < |from| ==> from[i] < n
    ensures Increasing(from)
    ensures forall x :: 0 <= x < n ==> (x in from <==> cs[x].TimedOut(now) == expired)
  {
    if n == 0 then []
    else
      var before := Indices(cs, now, expired, n - 1);
      if cs[n - 1].TimedOut(now) == expired then before + [n - 1] else before
  }

  ghost predicate KeptLike(cs: seq<Ctor>, from: seq<nat>, kept: seq<Ctor>) {
    |kept| == |from| && forall i :: 0 <= i < |from| ==> from[i] < |cs| && kept[i] == cs[from[i]]
  }

  ghost predicate SentLike(cs: seq<Ctor>, from: seq<nat>, sent: seq<Event>) {
    |sent| == |from| &&
    forall i :: 0 <= i < |from| ==> from[i] < |cs| && sent[|from| - 1 - i] == cs[from[i]].event
  }

  lemma KeptLikeSnoc(cs: seq<Ctor>, from: seq<nat>, kept: seq<Ctor>, i: nat)
    requires KeptLike(cs, from, kept) && i < |cs|
    ensures KeptLike(cs, from + [i], kept + [cs[i]])
  {
  }

  lemma SentLikeSnoc(cs: seq<Ctor>, from: seq<nat>, sent: seq<Event>, i: nat)
    requires SentLike(cs, from, sent) && i < |cs|
    ensures SentLike(cs, from + [i], [cs[i].event] + sent)
  {
    var longer, all := from + [i], [cs[i].event] + sent;
    forall k | 0 <= k < |longer|
      ensures longer[k] < |cs| && all[|longer| - 1 - k] == cs[longer[k]].event
    {
      if k < |from| {
        assert all[|longer| - 1 - k] == sent[|from| - 1 - k];
      }
    }
  }

  lemma {:induction false} TickKeeps(cs: seq<Ctor>, now: int, n: nat)
    requires n <= |cs|
    ensures KeptLike(cs, Indices(cs, now, false, n), Kept(cs[..n], now))
  {
    if n > 0 {
      TickKeeps(cs, now, n - 1);
      var init, c := cs[..n - 1], cs[n - 1];
      var kept := Kept(init, now);
      PrefixSnoc(cs, n - 1);
      KeptSnoc(init, c, now);
      if c.TimedOut(now) {
        assert kept + [] == kept;
      } else {
        KeptLikeSnoc(cs, Indices(cs, now, false, n - 1), kept, n - 1);
      }
    }
  }

  lemma {:induction false} TickSends(cs: seq<Ctor>, now: int, n: nat)
    requires n <= |cs|
    ensures SentLike(cs, Indices(cs, now, true, n), Sent(cs[..n], now))
  {
    if n > 0 {
      TickSends(cs, now, n - 1);
      var init, c := cs[..n - 1], cs[n - 1];
      var sent := Sent(init, now);
      PrefixSnoc(cs, n - 1);
      SentSnoc(init, c, now);
      if c.TimedOut(now) {
        SentLikeSnoc(cs, Indices(cs, now, true, n - 1), sent, n - 1);
      } else {
        assert [] + sent == sent;
      }
    }
  }

  // A tick keeps exactly the unexpired constructors, in order, and sends exactly
  // the events of the expired ones, latest first.
  lemma TickSplits(cs: seq<Ctor>, now: int)
    ensures KeptLike(cs, Indices(cs, now, false, |cs|), Kept(cs, now))
    ensures SentLike(cs, Indices(cs, now, true, |cs|), Sent(cs, now))
  {
    TickKeeps(cs, now, |cs|);
    TickSends(cs, now, |cs|);
    WholeSlice(cs);
  }

  lemma TickSeparated(s: Filter, at: int)
    requires Separated(s.ctors)
    ensures Separated(Tick(s, at).ctors)
  {
    var cs := Raised(s.ctors, s.timeout);
    var stay := Indices(cs, at, false, |cs|);
    TickSplits(cs, at);
    forall i, j | 0 <= i < j < |stay|
      ensures !Coincident(Tick(s, at).ctors[i].event, Tick(s, at).ctors[j].event)
    {
      assert !Coincident(s.ctors[stay[i]].event, s.ctors[stay[j]].event);
    }
  }

  ghost predicate EmittedProper(s: Filter) {
    forall i :: 0 <= i < |s.emitted| ==> Proper(s.emitted[i])
  }

  lemma TickProper(s: Filter, at: int)
    requires AllProper(s.ctors) && EmittedProper(s)
    ensures AllProper(Tick(s, at).ctors) && EmittedProper(Tick(s, at))
  {
    var cs := Raised(s.ctors, s.timeout);
    TickSplits(cs, at);
    var sent, go := Sent(cs, at), Indices(cs, at, true, |cs|);
    forall i | 0 <= i < |sent| ensures Proper(sent[i]) {
      assert sent[|go| - 1 - (|go| - 1 - i)] == cs[go[|go| - 1 - i]].event;
    }
    assert Tick(s, at).emitted == s.emitted + sent;
  }

  // --- runs

  // Single-hit runs whose arrivals match at most two constructors.
  ghost predicate SparseRun(actions: seq<Action>) {
    actions == [] ||
    (var init, a := actions[..|actions| - 1], actions[|actions| - 1];
     SparseRun(init) &&
     (a.Arrival? && Run(init).Some? ==> Single(a.event) && |Matches(Run(init).value.ctors, a.event)| <= 2))
  }

  // Single-hit runs whose arrivals are all clean.
  ghost predicate CleanRun(actions: seq<Action>) {
    actions == [] ||
    (var init, a := actions[..|actions| - 1], actions[|actions| - 1];
     CleanRun(init) &&
     (a.Arrival? && Run(init).Some? ==> Single(a.event) && Clean(Run(init).value.ctors, a.event)))
  }

  // Every buffered and every emitted event of a sparse run shows the true
  // interval of its hits, and n hits span at most n - 1 coincidence windows.
  lemma {:induction false} SparseRunProper(actions: seq<Action>)
    requires SparseRun(actions)
    ensures Run(actions).Some?
    ensures AllProper(Run(actions).value.ctors) && EmittedProper(Run(actions).value)
  {
    if actions != [] {
      var init, a := actions[..|actions| - 1], actions[|actions| - 1];
      SparseRunProper(init);
      match a
      case Arrival(e, at) => ArrivalProper(Run(init).value, e, at);
      case Ticking(at) => TickProper(Run(init).value, at);
      case Timebase(_, _) =>
    }
  }

  // In a clean run open constructors never coincide, so no arrival matches more
  // than two of them: no erase goes out of range and every merge takes in exactly
  // the matched constructors.
  lemma {:induction false} CleanRunSeparated(actions: seq<Action>)
    requires CleanRun(actions)
    ensures Run(actions).Some? && Separated(Run(actions).value.ctors) && SparseRun(actions)
  {
    if actions != [] {
      var init, a := actions[..|actions| - 1], actions[|actions| - 1];
      CleanRunSeparated(init);
      SparseRunProper(init);
      match a
      case Arrival(e, at) =>
        AtMostTwoMatches(Run(init).value.ctors, e);
        ArrivalSeparated(Run(init).value, e, at);
      case Ticking(at) => TickSeparated(Run(init).value, at);
      case Timebase(_, _) =>
    }
  }
}
