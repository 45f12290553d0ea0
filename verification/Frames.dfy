// The interval that an event shows, in every run: arriving events may list several hits, and
// merges may go astray.

module Frames {
  import opened Basics
  import opened Events
  import opened FilterModel
  import opened Separation

  ghost predicate AllFramed(cs: seq<Ctor>) {
    forall i :: 0 <= i < |cs| ==> cs[i].event.Framed()
  }

  ghost predicate EmittedFramed(s: Filter) {
    forall i :: 0 <= i < |s.emitted| ==> s.emitted[i].Framed()
  }

  ghost predicate FramedArrivals(actions: seq<Action>) {
    forall i :: 0 <= i < |actions| && actions[i].Arrival? ==> actions[i].event.Framed()
  }

  lemma AbsorbFramed(c: Event, d: Event)
    requires c.Framed() && |c.events| >= 2
    ensures c.ExtendAll(d.Hits()).Framed() && |c.ExtendAll(d.Hits()).events| >= 2
  {
    ExtendAllTight(c, d.Hits());
    ExtendAllAppends(c, d.Hits());
  }

  lemma {:induction false} MergeRestFramed(cs: seq<Ctor>, head: nat, rest: seq<nat>)
    requires AllFramed(cs) && head < |cs| && |cs[head].event.events| >= 2
    requires forall k :: 0 <= k < |rest| ==> head < rest[k]
    requires MergeRest(cs, head, rest).Some?
    ensures AllFramed(MergeRest(cs, head, rest).value)
    decreases |rest|
  {
    if rest != [] {
      AbsorbFramed(cs[head].event, cs[rest[0]].event);
      var absorbed := cs[head].(event := cs[head].event.ExtendAll(cs[rest[0]].event.Hits()));
      MergeRestFramed(Erase(cs[head := absorbed], rest[0]), head, rest[1..]);
    }
  }

  lemma ArrivalFramed(s: Filter, e: Event, at: int)
    requires AllFramed(s.ctors) && e.Framed() && Arrive(s, e, at).Some?
    ensures AllFramed(Arrive(s, e, at).value.ctors)
  {
    var cs, ms := s.ctors, Matches(s.ctors, e);
    if ms != [] {
      JoinLaw(cs[ms[0]].event, e);
      assert |cs[ms[0]].event.Join(e).events| >= 2;
      var joined := cs[ms[0]].(event := cs[ms[0]].event.Join(e));
      MergeRestFramed(cs[ms[0] := joined], ms[0], ms[1..]);
    }
  }

  lemma TickFramed(s: Filter, at: int)
    requires AllFramed(s.ctors) && EmittedFramed(s)
    ensures AllFramed(Tick(s, at).ctors) && EmittedFramed(Tick(s, at))
  {
    var cs := Raised(s.ctors, s.timeout);
    TickSplits(cs, at);
    var sent, go := Sent(cs, at), Indices(cs, at, true, |cs|);
    forall i | 0 <= i < |sent| ensures sent[i].Framed() {
      assert sent[|go| - 1 - (|go| - 1 - i)] == cs[go[|go| - 1 - i]].event;
    }
    assert Tick(s, at).emitted == s.emitted + sent;
  }

  // In every run that stays defined, each buffered and each emitted event shows the exact
  // range of the starts of its hits.
  lemma {:induction false} RunFramed(actions: seq<Action>)
    requires FramedArrivals(actions) && Run(actions).Some?
    ensures AllFramed(Run(actions).value.ctors) && EmittedFramed(Run(actions).value)
  {
    if actions != [] {
      var init, a := actions[..|actions| - 1], actions[|actions| - 1];
      RunFramed(init);
      match a
      case Arrival(e, at) => ArrivalFramed(Run(init).value, e, at);
      case Ticking(at) => TickFramed(Run(init).value, at);
      case Timebase(_, _) =>
    }
  }

  // The same for the hits themselves.
  lemma RunShowsHulls(actions: seq<Action>, e: Event)
    requires FramedArrivals(actions) && Run(actions).Some?
    requires e in Run(actions).value.emitted || exists c :: c in Run(actions).value.ctors && c.event == e
    ensures Hull(e.Hits(), e.Lo(), e.Hi())
  {
    RunFramed(actions);
    FramedHull(e);
  }
}
