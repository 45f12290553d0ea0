// When a combined event can hold hits of one detector twice, and what a
// detector that fires three times in a row does to the contested merge.

module Duplicates {
  import opened Events
  import opened Criterion
  import opened FilterModel
  import opened MergeLaw
  import opened Separation

  ghost predicate DistinctHits(ds: seq<Data>) {
    forall i, j :: 0 <= i < j < |ds| ==> ds[i].hash != ds[j].hash
  }

  ghost predicate Distinct(e: Event) {
    DistinctHits(e.Hits())
  }

  ghost predicate SharedHash(xs: seq<Data>, ys: seq<Data>) {
    exists i, j :: 0 <= i < |xs| && 0 <= j < |ys| && xs[i].hash == ys[j].hash
  }

  lemma DistinctConcat(xs: seq<Data>, ys: seq<Data>)
    ensures DistinctHits(xs + ys) <==> DistinctHits(xs) && DistinctHits(ys) && !SharedHash(xs, ys)
  {
    var zs := xs + ys;
    if DistinctHits(xs) && DistinctHits(ys) && !SharedHash(xs, ys) {
      forall i, j | 0 <= i < j < |zs| ensures zs[i].hash != zs[j].hash {
        if i < |xs| <= j {
          assert xs[i].hash != ys[j - |xs|].hash;
        }
      }
    }
    if DistinctHits(zs) {
      forall i, j | 0 <= i < j < |xs| ensures xs[i].hash != xs[j].hash {
        assert zs[i].hash != zs[j].hash;
      }
      forall i, j | 0 <= i < j < |ys| ensures ys[i].hash != ys[j].hash {
        assert zs[|xs| + i].hash != zs[|xs| + j].hash;
      }
      forall i, j | 0 <= i < |xs| && 0 <= j < |ys| ensures xs[i].hash != ys[j].hash {
        assert zs[i].hash != zs[|xs| + j].hash;
      }
    }
  }

  lemma SkippedMeansSharedHash(c: Event, e: Event)
    ensures Skipped(c, e) <==> SharedHash(c.Hits(), e.Hits())
  {
    SkippedMeansShared(c, e);
    if Skipped(c, e) {
      var a, b :| a in c.Hits() && b in e.Hits() && a.hash == b.hash;
      var i :| 0 <= i < |c.Hits()| && c.Hits()[i] == a;
      var j :| 0 <= j < |e.Hits()| && e.Hits()[j] == b;
      assert c.Hits()[i].hash == e.Hits()[j].hash;
    }
    if SharedHash(c.Hits(), e.Hits()) {
      var i, j :| 0 <= i < |c.Hits()| && 0 <= j < |e.Hits()| && c.Hits()[i].hash == e.Hits()[j].hash;
      assert c.Hits()[i] in c.Hits() && e.Hits()[j] in e.Hits();
    }
  }

  // A plain join never lists a detector twice that was not there already.
  lemma JoinDistinct(c: Event, e: Event)
    requires c.Framed() && e.Framed() && !Skipped(c, e)
    ensures Distinct(c.Join(e)) <==> Distinct(c) && Distinct(e)
  {
    JoinLaw(c, e);
    DistinctConcat(c.Hits(), e.Hits());
    SkippedMeansSharedHash(c, e);
  }

  // The two-way merge of c and d on a hit of neither's detectors lists a detector
  // twice if and only if c and d share one: the loop compares each of them with the
  // arriving hit only.
  lemma MergeDistinct(c: Event, d: Event, e: Event)
    requires c.Framed() && d.Framed() && e.Framed() && !Skipped(c, e) && !Skipped(d, e)
    requires Distinct(c) && Distinct(d) && Distinct(e)
    ensures Distinct(c.Join(e).ExtendAll(d.Hits())) <==> !Skipped(c, d)
  {
    JoinLaw(c, e);
    var j := c.Join(e);
    JoinLaw(j, d);
    assert j.Promote() == j;
    DistinctConcat(j.Hits(), d.Hits());
    JoinDistinct(c, e);
    SkippedMeansSharedHash(c, d);
    SkippedMeansSharedHash(d, e);
    assert SharedHash(j.Hits(), d.Hits()) <==> SharedHash(c.Hits(), d.Hits()) || SharedHash(d.Hits(), e.Hits()) by {
      SharedConcat(c.Hits(), e.Hits(), d.Hits());
    }
  }

  lemma SharedConcat(xs: seq<Data>, ys: seq<Data>, zs: seq<Data>)
    ensures SharedHash(xs + ys, zs) <==> SharedHash(xs, zs) || SharedHash(zs, ys)
  {
    if SharedHash(xs, zs) {
      var i, j :| 0 <= i < |xs| && 0 <= j < |zs| && xs[i].hash == zs[j].hash;
      assert (xs + ys)[i].hash == zs[j].hash;
    }
    if SharedHash(zs, ys) {
      var i, j :| 0 <= i < |zs| && 0 <= j < |ys| && zs[i].hash == ys[j].hash;
      assert (xs + ys)[|xs| + j].hash == zs[i].hash;
    }
  }

  function Hit(hash: nat, t: int): Event {
    Event(Data(hash, t, t, 0, 1, ""), [])
  }

  lemma {:induction false} NoneMatch(cs: seq<Ctor>, e: Event, i: nat)
    requires i <= |cs| && forall k :: i <= k < |cs| ==> Skipped(cs[k].event, e)
    ensures MatchesFrom(cs, e, i) == []
    decreases |cs| - i
  {
    if i < |cs| {
      NoneMatch(cs, e, i + 1);
    }
  }

  // A hit of a detector that all open constructors belong to opens a new one.
  lemma SameDetectorOpens(actions: seq<Action>, hash: nat, t: int) returns (longer: seq<Action>)
    requires Run(actions).Some? && Run(actions).value.timeout == INITIAL_TIMEOUT
    requires forall i :: 0 <= i < |Run(actions).value.ctors| ==>
                           Skipped(Run(actions).value.ctors[i].event, Hit(hash, t))
    ensures longer == actions + [Arrival(Hit(hash, t), 0)] && Run(longer).Some?
    ensures Run(longer).value.ctors == Run(actions).value.ctors + [Ctor(Hit(hash, t), INITIAL_TIMEOUT, 0)]
    ensures Run(longer).value.timeout == INITIAL_TIMEOUT
  {
    var e := Hit(hash, t);
    var s := Run(actions).value;
    NoneMatch(s.ctors, e, 0);
    longer := actions + [Arrival(e, 0)];
    assert longer[..|longer| - 1] == actions;
  }

  // One detector firing at 0, 10 and 20 ns leaves three coincident constructors;
  // a hit of another detector then matches all three and the second erase is out
  // of range, so the state of the filter is no longer defined.
  lemma ThreeInARowBreaksTheMerge()
    ensures Run([Arrival(Hit(1, 0), 0), Arrival(Hit(1, 10), 0), Arrival(Hit(1, 20), 0), Arrival(Hit(2, 5), 0)]).None?
  {
    var three := ThreeOpen();
    FourthBreaks(three);
    SameList(three, Arrival(Hit(1, 0), 0), Arrival(Hit(1, 10), 0), Arrival(Hit(1, 20), 0), Arrival(Hit(2, 5), 0));
  }

  lemma SameList(three: seq<Action>, a: Action, b: Action, c: Action, d: Action)
    requires |three| == 3 && three[0] == a && three[1] == b && three[2] == c
    ensures three + [d] == [a, b, c, d]
  {
  }

  lemma ThreeOpen() returns (three: seq<Action>)
    ensures |three| == 3 && three[0] == Arrival(Hit(1, 0), 0)
    ensures three[1] == Arrival(Hit(1, 10), 0) && three[2] == Arrival(Hit(1, 20), 0)
    ensures Run(three).Some?
    ensures var cs := Run(three).value.ctors;
            |cs| == 3 && cs[0].event == Hit(1, 0) && cs[1].event == Hit(1, 10) && cs[2].event == Hit(1, 20)
  {
    var one := SameDetectorOpens([], 1, 0);
    var two := SameDetectorOpens(one, 1, 10);
    three := SameDetectorOpens(two, 1, 20);
  }

  lemma FourthBreaks(three: seq<Action>)
    requires Run(three).Some?
    requires var cs := Run(three).value.ctors;
             |cs| == 3 && cs[0].event == Hit(1, 0) && cs[1].event == Hit(1, 10) && cs[2].event == Hit(1, 20)
    ensures Run(three + [Arrival(Hit(2, 5), 0)]).None?
  {
    var four := three + [Arrival(Hit(2, 5), 0)];
    assert four[..|four| - 1] == three;
    ThirdMatchOutOfRange(Run(three).value.ctors, Hit(2, 5));
  }

  lemma ThirdMatchOutOfRange(cs: seq<Ctor>, e: Event)
    requires |cs| == 3 && e == Hit(2, 5)
    requires cs[0].event == Hit(1, 0) && cs[1].event == Hit(1, 10) && cs[2].event == Hit(1, 20)
    ensures Matches(cs, e) == [0, 1, 2] && Merge(cs, e, [0, 1, 2]).None?
  {
    assert MatchesFrom(cs, e, 2) == [2] + MatchesFrom(cs, e, 3);
    assert MatchesFrom(cs, e, 1) == [1] + MatchesFrom(cs, e, 2);
    var rest := [0, 1, 2][1..];
    assert rest[1] + 1 == 3;
    MergeRestLaw(cs[0 := Joined(cs, e, 0)], 0, rest);
  }

  // Even where nothing coincides beforehand, a detector can be listed twice: it
  // fires at 0 and 150000 ns, and a hit of another at 75000 ns matches both.
  lemma CleanRunCanDuplicate() returns (actions: seq<Action>)
    ensures CleanRun(actions) && Run(actions).Some?
    ensures |Run(actions).value.ctors| == 1 && !Distinct(Run(actions).value.ctors[0].event)
  {
    var two := TwoOpen();
    actions := two + [Arrival(Hit(2, 75000), 0)];
    ThirdJoinsBoth(two);
  }

  lemma TwoOpen() returns (two: seq<Action>)
    ensures CleanRun(two) && Run(two).Some?
    ensures var cs := Run(two).value.ctors; |cs| == 2 && cs[0].event == Hit(1, 0) && cs[1].event == Hit(1, 150000)
  {
    var one := SameDetectorOpens([], 1, 0);
    two := SameDetectorOpens(one, 1, 150000);
    FirstTwoClean(one, two);
  }

  lemma ThirdJoinsBoth(two: seq<Action>)
    requires CleanRun(two) && Run(two).Some?
    requires var cs := Run(two).value.ctors; |cs| == 2 && cs[0].event == Hit(1, 0) && cs[1].event == Hit(1, 150000)
    ensures var actions := two + [Arrival(Hit(2, 75000), 0)];
            && CleanRun(actions) && Run(actions).Some?
            && |Run(actions).value.ctors| == 1 && !Distinct(Run(actions).value.ctors[0].event)
  {
    var actions := two + [Arrival(Hit(2, 75000), 0)];
    assert actions[..|actions| - 1] == two;
    BothMerge(Run(two).value, Hit(1, 0), Hit(1, 150000), Hit(2, 75000));
  }

  lemma FirstTwoClean(one: seq<Action>, two: seq<Action>)
    requires one == [Arrival(Hit(1, 0), 0)] && two == one + [Arrival(Hit(1, 150000), 0)]
    requires Run(one).Some? && Run(one).value.ctors == [Ctor(Hit(1, 0), INITIAL_TIMEOUT, 0)]
    ensures CleanRun(two)
  {
    assert one[..0] == [] && two[..1] == one;
    assert Run(one[..0]).value.ctors == [];
    assert CleanRun(one[..0]) && CleanRun(one);
  }

  lemma BothMerge(s: Filter, a: Event, b: Event, e: Event)
    requires a == Hit(1, 0) && b == Hit(1, 150000) && e == Hit(2, 75000)
    requires |s.ctors| == 2 && s.ctors[0].event == a && s.ctors[1].event == b
    ensures Arrive(s, e, 0).Some? && Clean(s.ctors, e)
    ensures var cs := Arrive(s, e, 0).value.ctors; |cs| == 1 && !Distinct(cs[0].event)
  {
    assert MatchesFrom(s.ctors, e, 1) == [1] + MatchesFrom(s.ctors, e, 2);
    assert Matches(s.ctors, e) == [0, 1];
    ArrivalShape(s, e, 0);
    MergeDistinct(a, b, e);
  }

  // The same with the other two at 0 and 10 ns: the hits of one detector end around that of
  // the other in one event.
  lemma SandwichedHit() returns (actions: seq<Action>)
    ensures Run(actions).Some? && |Run(actions).value.ctors| == 1
    ensures Run(actions).value.ctors[0].event.events == [Hit(1, 0).data, Hit(2, 5).data, Hit(1, 10).data]
  {
    var one := SameDetectorOpens([], 1, 0);
    var two := SameDetectorOpens(one, 1, 10);
    actions := two + [Arrival(Hit(2, 5), 0)];
    BetweenBoth(two);
  }

  lemma BetweenBoth(two: seq<Action>)
    requires Run(two).Some?
    requires var cs := Run(two).value.ctors; |cs| == 2 && cs[0].event == Hit(1, 0) && cs[1].event == Hit(1, 10)
    ensures var actions := two + [Arrival(Hit(2, 5), 0)];
            && Run(actions).Some? && |Run(actions).value.ctors| == 1
            && Run(actions).value.ctors[0].event.events == [Hit(1, 0).data, Hit(2, 5).data, Hit(1, 10).data]
  {
    var actions, s, e := two + [Arrival(Hit(2, 5), 0)], Run(two).value, Hit(2, 5);
    assert actions[..|actions| - 1] == two;
    assert MatchesFrom(s.ctors, e, 1) == [1] + MatchesFrom(s.ctors, e, 2);
    assert Matches(s.ctors, e) == [0, 1];
    ArrivalShape(s, e, 0);
    SandwichedEvents(s.ctors, e);
  }

  lemma SandwichedEvents(cs: seq<Ctor>, e: Event)
    requires |cs| == 2 && cs[0].event == Hit(1, 0) && cs[1].event == Hit(1, 10) && e == Hit(2, 5)
    ensures Merged(cs, e, 0, 1).event.events == [Hit(1, 0).data, Hit(2, 5).data, Hit(1, 10).data]
  {
    var j := cs[0].event.Join(e);
    ExtendAllAppends(j, cs[1].event.Hits());
    JoinLaw(cs[0].event, e);
  }
}
