// What the contested-merge loop really erases. Its queued indices are not
// adjusted after an erase, so the effective indices drift upwards.

module MergeLaw {
  import opened Basics
  import opened Events
  import opened FilterModel

  ghost predicate Increasing(ms: seq<nat>) {
    forall j, k :: 0 <= j < k < |ms| ==> ms[j] < ms[k]
  }

  // How many queued indices lie at or below position p.
  function AtOrBelow(rest: seq<nat>, p: nat): nat {
    if rest == [] then 0 else (if rest[0] <= p then 1 else 0) + AtOrBelow(rest[1..], p)
  }

  // Every access is in range exactly when each index, drifted by its rank, is.
  ghost predicate InRange(rest: seq<nat>, n: nat) {
    forall j :: 0 <= j < |rest| ==> rest[j] + j < n
  }

  // The hits that the loop adds to the head constructor, in order, when d erases
  // have gone before.
  function Absorbed(cs: seq<Ctor>, rest: seq<nat>, d: nat): seq<Data>
    requires forall j :: 0 <= j < |rest| ==> rest[j] + j + d < |cs|
  {
    if rest == [] then [] else cs[rest[0] + d].event.Hits() + Absorbed(cs, rest[1..], d + 1)
  }

  lemma {:induction false} AbsorbedShift(cs: seq<Ctor>, es: seq<Ctor>, from: nat, rest: seq<nat>, d: nat)
    requires |cs| == |es| + 1
    requires forall q :: from <= q < |es| ==> es[q] == cs[q + 1]
    requires forall j :: 0 <= j < |rest| ==> from <= rest[j] && rest[j] + j + d < |es|
    ensures Absorbed(es, rest, d) == Absorbed(cs, rest, d + 1)
  {
    if rest != [] {
      AbsorbedShift(cs, es, from, rest[1..], d + 1);
    }
  }

  lemma InRangeTail(rest: seq<nat>, n: nat)
    requires |rest| > 0 && rest[0] < n
    ensures InRange(rest, n) <==> InRange(rest[1..], n - 1)
  {
    if InRange(rest[1..], n - 1) {
      forall j | 0 <= j < |rest| ensures rest[j] + j < n {
        if j > 0 {
          assert rest[1..][j - 1] + (j - 1) < n - 1;
        }
      }
    }
    if InRange(rest, n) {
      forall j | 0 <= j < |rest[1..]| ensures rest[1..][j] + j < n - 1 {
        assert rest[j + 1] + (j + 1) < n;
      }
    }
  }

  lemma {:induction false} AtOrBelowNone(rest: seq<nat>, p: nat)
    requires forall j :: 0 <= j < |rest| ==> p < rest[j]
    ensures AtOrBelow(rest, p) == 0
  {
    if rest != [] {
      AtOrBelowNone(rest[1..], p);
    }
  }

  lemma {:induction false} ExtendAllTwice(e: Event, xs: seq<Data>, ys: seq<Data>)
    ensures e.ExtendAll(xs).ExtendAll(ys) == e.ExtendAll(xs + ys)
    decreases |xs|
  {
    if xs == [] {
      assert xs + ys == ys;
    } else {
      assert (xs + ys)[1..] == xs[1..] + ys;
      ExtendAllTwice(e.Extend(xs[0]), xs[1..], ys);
    }
  }

  // One round of the loop.
  function MergeOne(cs: seq<Ctor>, head: nat, i: nat): (es: seq<Ctor>)
    requires head < i < |cs|
    ensures |es| == |cs| - 1
    ensures es[head] == cs[head].(event := cs[head].event.ExtendAll(cs[i].event.Hits()))
    ensures forall q :: 0 <= q < i && q != head ==> es[q] == cs[q]
    ensures forall q :: i <= q < |es| ==> es[q] == cs[q + 1]
  {
    Erase(cs[head := cs[head].(event := cs[head].event.ExtendAll(cs[i].event.Hits()))], i)
  }

  // What the loop leaves behind.
  ghost predicate Leaves(cs: seq<Ctor>, head: nat, rest: seq<nat>, r: seq<Ctor>)
    requires head < |cs| && InRange(rest, |cs|)
  {
    && |r| + |rest| == |cs| && head < |r|
    && r[head] == cs[head].(event := cs[head].event.ExtendAll(Absorbed(cs, rest, 0)))
    && forall p :: 0 <= p < |r| && p != head ==>
         p + AtOrBelow(rest, p) < |cs| && r[p] == cs[p + AtOrBelow(rest, p)]
  }

  lemma LeavesStep(cs: seq<Ctor>, head: nat, rest: seq<nat>, r: seq<Ctor>)
    requires |rest| > 0 && head < rest[0] < |cs| && Increasing(rest)
    requires InRange(rest, |cs|) && InRange(rest[1..], |cs| - 1)
    requires Leaves(MergeOne(cs, head, rest[0]), head, rest[1..], r)
    ensures Leaves(cs, head, rest, r)
  {
    var es := MergeOne(cs, head, rest[0]);
    var tail := rest[1..];
    AbsorbedShift(cs, es, rest[0], tail, 0);
    ExtendAllTwice(cs[head].event, cs[rest[0]].event.Hits(), Absorbed(es, tail, 0));
    forall p | 0 <= p < |r| && p != head
      ensures p + AtOrBelow(rest, p) < |cs| && r[p] == cs[p + AtOrBelow(rest, p)]
    {
      if p < rest[0] {
        AtOrBelowNone(tail, p);
      }
    }
  }

  lemma LeavesNothing(cs: seq<Ctor>, head: nat)
    requires head < |cs|
    ensures Leaves(cs, head, [], cs)
  {
    forall p: nat ensures AtOrBelow([], p) == 0 {
    }
  }

  // The loop is defined exactly when all drifted indices are in range. Then its
  // (j+1)-st erase removes what was originally at rest[j] + j: the head absorbs
  // precisely those constructors, in order, and position p of the result holds
  // what was at p plus the number of queued indices at or below p.
  lemma {:induction false} MergeRestLaw(cs: seq<Ctor>, head: nat, rest: seq<nat>)
    requires head < |cs| && Increasing(rest)
    requires forall k :: 0 <= k < |rest| ==> head < rest[k]
    ensures MergeRest(cs, head, rest).Some? <==> InRange(rest, |cs|)
    ensures InRange(rest, |cs|) ==> Leaves(cs, head, rest, MergeRest(cs, head, rest).value)
    decreases |rest|
  {
    if rest == [] {
      LeavesNothing(cs, head);
    } else if rest[0] >= |cs| {
      assert rest[0] + 0 >= |cs|;
    } else {
      var es := MergeOne(cs, head, rest[0]);
      MergeRestLaw(es, head, rest[1..]);
      InRangeTail(rest, |cs|);
      if InRange(rest, |cs|) {
        LeavesStep(cs, head, rest, MergeRest(es, head, rest[1..]).value);
      }
    }
  }

  // The original indices the loop erases.
  ghost function ErasedIndices(rest: seq<nat>): set<nat> {
    set j | 0 <= j < |rest| :: rest[j] + j
  }

  // The number of queued indices at or below p is the place of p among them.
  lemma {:induction false} AtOrBelowIff(rest: seq<nat>, p: nat, k: nat)
    requires Increasing(rest) && k <= |rest|
    ensures AtOrBelow(rest, p) == k <==> (k > 0 ==> rest[k - 1] <= p) && (k < |rest| ==> p < rest[k])
  {
    if rest == [] {
    } else if p < rest[0] {
      AtOrBelowNone(rest[1..], p);
    } else if k == 0 {
    } else {
      AtOrBelowIff(rest[1..], p, k - 1);
    }
  }

  lemma {:induction false} AtOrBelowRange(rest: seq<nat>, p: nat)
    ensures AtOrBelow(rest, p) <= |rest|
  {
    if rest != [] {
      AtOrBelowRange(rest[1..], p);
    }
  }

  // The drifted indices rise at least as fast as their ranks.
  lemma {:induction false} Rising(rest: seq<nat>, j: nat, k: nat)
    requires Increasing(rest) && j <= k < |rest|
    ensures rest[j] + (k - j) <= rest[k]
  {
    if j < k {
      Rising(rest, j, k - 1);
    }
  }

  lemma SurvivorIsNotErased(rest: seq<nat>, p: nat)
    requires Increasing(rest)
    ensures p + AtOrBelow(rest, p) !in ErasedIndices(rest)
  {
    var k := AtOrBelow(rest, p);
    AtOrBelowRange(rest, p);
    AtOrBelowIff(rest, p, k);
    forall j | 0 <= j < |rest| ensures rest[j] + j != p + k {
      if j < k {
        Rising(rest, j, k - 1);
      } else {
        Rising(rest, k, j);
      }
    }
  }

  // How many of the drifted indices lie below i.
  function DriftedBelow(rest: seq<nat>, i: nat): (k: nat)
    ensures k <= |rest|
  {
    if rest == [] then 0
    else
      var n := |rest| - 1;
      if rest[n] + n < i then |rest| else DriftedBelow(rest[..n], i)
  }

  lemma {:induction false} DriftedBelowIs(rest: seq<nat>, i: nat)
    requires Increasing(rest)
    ensures var k := DriftedBelow(rest, i);
            (k > 0 ==> rest[k - 1] + (k - 1) < i) && (k < |rest| ==> rest[k] + k >= i)
  {
    if rest != [] {
      DriftedBelowIs(rest[..|rest| - 1], i);
    }
  }

  lemma NotErasedSurvives(rest: seq<nat>, i: nat, n: nat) returns (p: nat)
    requires Increasing(rest) && InRange(rest, n) && i < n && i !in ErasedIndices(rest)
    ensures p + |rest| < n && p + AtOrBelow(rest, p) == i
  {
    var k := DriftedBelow(rest, i);
    DriftedBelowIs(rest, i);
    if k < |rest| {
      assert rest[k] + k in ErasedIndices(rest);
      Rising(rest, k, |rest| - 1);
    }
    p := i - k;
    AtOrBelowIff(rest, p, k);
  }

  // What the remaining positions held before.
  ghost function Remaining(rest: seq<nat>, n: nat): set<nat> {
    set p | 0 <= p < n - |rest| :: p + AtOrBelow(rest, p)
  }

  // The positions that remain hold exactly the constructors that are not erased.
  lemma Survivors(rest: seq<nat>, n: nat)
    requires Increasing(rest) && InRange(rest, n)
    ensures forall i: nat :: i in Remaining(rest, n) <==> i < n && i !in ErasedIndices(rest)
  {
    forall p: nat | p < n - |rest| ensures p + AtOrBelow(rest, p) !in ErasedIndices(rest) {
      SurvivorIsNotErased(rest, p);
      AtOrBelowRange(rest, p);
    }
    forall i: nat | i in Remaining(rest, n) ensures i < n {
      var p :| 0 <= p < n - |rest| && i == p + AtOrBelow(rest, p);
      AtOrBelowRange(rest, p);
    }
    forall i: nat | i < n && i !in ErasedIndices(rest) ensures i in Remaining(rest, n) {
      var p := NotErasedSurvives(rest, i, n);
      assert 0 <= p < n - |rest| && p + AtOrBelow(rest, p) == i;
    }
  }

  // --- what the merge is meant to do

  // The constructors without those at the given indices.
  function Without(cs: seq<Ctor>, rest: seq<nat>): (es: seq<Ctor>)
    requires Increasing(rest) && (forall j :: 0 <= j < |rest| ==> rest[j] < |cs|)
    ensures |es| + |rest| == |cs|
  {
    if rest == [] then cs
    else
      var n := |rest| - 1;
      Without(Erase(cs, rest[n]), rest[..n])
  }

  // The hits of the constructors at the given indices, in order.
  function Gathered(cs: seq<Ctor>, rest: seq<nat>): seq<Data>
    requires forall j :: 0 <= j < |rest| ==> rest[j] < |cs|
  {
    if rest == [] then [] else cs[rest[0]].event.Hits() + Gathered(cs, rest[1..])
  }

  // The constructor at head takes in those at the given indices, and they go.
  function Intended(cs: seq<Ctor>, head: nat, rest: seq<nat>): seq<Ctor>
    requires head < |cs| && Increasing(rest)
    requires forall j :: 0 <= j < |rest| ==> head < rest[j] < |cs|
  {
    Without(cs[head := cs[head].(event := cs[head].event.ExtendAll(Gathered(cs, rest)))], rest)
  }

  lemma {:induction false} WithoutKeepsNone(cs: seq<Ctor>, rest: seq<nat>, c: Ctor)
    requires Increasing(rest) && (forall j :: 0 <= j < |rest| ==> rest[j] < |cs|)
    requires forall i :: 0 <= i < |cs| && i !in rest ==> cs[i] != c
    ensures c !in Without(cs, rest)
  {
    if rest == [] {
    } else {
      var n := |rest| - 1;
      var es := Erase(cs, rest[n]);
      forall i | 0 <= i < |es| && i !in rest[..n] ensures es[i] != c {
        assert rest == rest[..n] + [rest[n]];
        assert es[i] == cs[if i < rest[n] then i else i + 1];
      }
      WithoutKeepsNone(es, rest[..n], c);
    }
  }

  // Up to two constructors are merged as intended.
  lemma TwoAreMerged(cs: seq<Ctor>, head: nat, rest: seq<nat>)
    requires head < |cs| && Increasing(rest) && |rest| <= 1
    requires forall j :: 0 <= j < |rest| ==> head < rest[j] < |cs|
    ensures MergeRest(cs, head, rest) == Some(Intended(cs, head, rest))
  {
    var joined := cs[head := cs[head].(event := cs[head].event.ExtendAll(Gathered(cs, rest)))];
    if rest == [] {
      assert joined == cs;
    } else {
      assert rest[1..] == [] && rest[..0] == [];
      assert Gathered(cs, rest) == cs[rest[0]].event.Hits();
      assert Intended(cs, head, rest) == Without(Erase(joined, rest[0]), []);
      assert MergeRest(cs, head, rest) == MergeRest(Erase(joined, rest[0]), head, []);
    }
  }

  // Constructors that can be told apart by when they were opened.
  function Row(n: nat): (cs: seq<Ctor>)
    ensures |cs| == n && forall i :: 0 <= i < n ==> cs[i].born == i
  {
    seq(n, i requires 0 <= i < n => Ctor(Event(Data(i, 0, 0, 0, 1, ""), []), 0, i))
  }

  // With three or more, the second one that should go stays.
  lemma ThirdGoesWrong(head: nat, rest: seq<nat>, n: nat)
    requires head < n && Increasing(rest) && |rest| >= 2
    requires forall j :: 0 <= j < |rest| ==> head < rest[j] < n
    ensures MergeRest(Row(n), head, rest) != Some(Intended(Row(n), head, rest))
  {
    var cs, m := Row(n), |rest|;
    MergeRestLaw(cs, head, rest);
    if InRange(rest, n) {
      var r := MergeRest(cs, head, rest).value;
      var p := rest[1] - 1;
      AtOrBelowIff(rest, p, 1);
      Rising(rest, 1, m - 1);
      assert r[p] == cs[rest[1]];
      var joined := cs[head := cs[head].(event := cs[head].event.ExtendAll(Gathered(cs, rest)))];
      forall i | 0 <= i < n && i !in rest ensures joined[i] != cs[rest[1]] {
        assert joined[i].born == i && rest[1] in rest;
      }
      WithoutKeepsNone(joined, rest, cs[rest[1]]);
    }
  }

  // A merge does with all lists of constructors what it is meant to if and only if at most
  // two have matched.
  lemma MergeExactlyMatched(ms: seq<nat>, n: nat)
    requires |ms| > 0 && Increasing(ms) && ms[|ms| - 1] < n
    ensures (forall cs: seq<Ctor> :: |cs| == n ==>
               MergeRest(cs, ms[0], ms[1..]) == Some(Intended(cs, ms[0], ms[1..])))
            <==> |ms| <= 2
  {
    var head, rest := ms[0], ms[1..];
    if |ms| <= 2 {
      forall cs: seq<Ctor> | |cs| == n ensures MergeRest(cs, head, rest) == Some(Intended(cs, head, rest)) {
        TwoAreMerged(cs, head, rest);
      }
    } else {
      ThirdGoesWrong(head, rest, n);
    }
  }
}
