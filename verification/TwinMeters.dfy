// Two meters that count the same events but have started at different instants. The
// second is stepped only when the first has fired.

module TwinMeters {
  import opened Basics
  import opened RateMeasurement
  import opened Statistics

  datatype Twins = Twins(short: Counter, long: Counter)

  datatype Beat = Count | Tick(at: int)

  function Next(p: Twins, x: Beat, interval: nat): Twins
    requires interval > 0
  {
    match x
    case Count => Twins(p.short.Counted(), p.long.Counted())
    case Tick(at) =>
      if Due(p.short.last, at, interval)
      then Twins(p.short.Stepped(at, interval), p.long.Stepped(at, interval))
      else p
  }

  // Meters that have started at a and at b.
  function Started(a: int, b: int): Twins {
    Twins(Counter(a, 0, []), Counter(b, 0, []))
  }

  // The meters after some beats.
  function Beaten(p: Twins, xs: seq<Beat>, interval: nat): Twins
    requires interval > 0
  {
    if xs == [] then p else Next(Beaten(p, xs[..|xs| - 1], interval), xs[|xs| - 1], interval)
  }

  // The first meter fires and the second does not.
  predicate Gap(p: Twins, at: int, interval: nat) {
    Due(p.short.last, at, interval) && !Due(p.long.last, at, interval)
  }

  // The meters are equal, or have not fired yet.
  predicate Agree(p: Twins) {
    p.short == p.long || (p.short.rates == p.long.rates == [] && p.short.count == p.long.count)
  }

  // Meters that agree go on to agree if and only if no tick falls into their gap.
  lemma AgreeIff(p: Twins, x: Beat, interval: nat)
    requires interval > 0 && Agree(p)
    ensures Agree(Next(p, x, interval)) <==> !(x.Tick? && Gap(p, x.at, interval))
  {
    if x.Tick? && Gap(p, x.at, interval) {
      assert |Next(p, x, interval).short.rates| == |p.short.rates| + 1;
    }
  }

  // The second meter can miss rates, but never catch up.
  predicate Behind(p: Twins) {
    |p.long.rates| < |p.short.rates|
  }

  lemma BehindStays(p: Twins, x: Beat, interval: nat)
    requires interval > 0 && Behind(p)
    ensures Behind(Next(p, x, interval))
  {
  }

  // Between the ends of the first intervals of the two meters.
  predicate Between(a: int, b: int, at: int, interval: nat) {
    a + interval * MILLISECOND <= at < b + interval * MILLISECOND
  }

  ghost predicate NoneBetween(a: int, b: int, xs: seq<Beat>, interval: nat) {
    forall i :: 0 <= i < |xs| && xs[i].Tick? ==> !Between(a, b, xs[i].at, interval)
  }

  // A clock that does not step back, read into 64 bits.
  ghost predicate Clocked(a: int, b: int, xs: seq<Beat>) {
    && (forall i :: 0 <= i < |xs| && xs[i].Tick? ==> Max(a, b) <= xs[i].at && xs[i].at - Min(a, b) < WORD)
    && (forall i, j :: 0 <= i < j < |xs| && xs[i].Tick? && xs[j].Tick? ==> xs[i].at <= xs[j].at)
  }

  // What holds of meters that have not missed a step, when the last tick was before now.
  predicate Together(p: Twins, a: int, b: int, now: int, interval: nat) {
    && Agree(p)
    && (p.short.rates == [] ==> p.short.last == a && p.long.last == b)
    && (p.short.rates != [] ==> p.short.last >= b + interval * MILLISECOND && Min(a, b) <= p.short.last <= now)
  }

  lemma TogetherTick(p: Twins, a: int, b: int, was: int, now: int, interval: nat)
    requires interval > 0 && Together(p, a, b, was, interval)
    requires was <= now && Max(a, b) <= now && now - Min(a, b) < WORD
    ensures Gap(p, now, interval) <==> Between(a, b, now, interval)
    ensures !Between(a, b, now, interval) ==> Together(Next(p, Tick(now), interval), a, b, now, interval)
  {
    DueIff(p.short.last, now, interval);
    DueIff(p.long.last, now, interval);
    AgreeIff(p, Tick(now), interval);
  }

  // The time of the last tick, or the later start.
  function LastTick(a: int, b: int, xs: seq<Beat>): int {
    if xs == [] then Max(a, b)
    else if xs[|xs| - 1].Tick? then xs[|xs| - 1].at
    else LastTick(a, b, xs[..|xs| - 1])
  }

  lemma {:induction false} LastTickIs(a: int, b: int, xs: seq<Beat>)
    ensures LastTick(a, b, xs) == Max(a, b) || exists i :: 0 <= i < |xs| && xs[i] == Tick(LastTick(a, b, xs))
  {
    if xs != [] && !xs[|xs| - 1].Tick? {
      var init := xs[..|xs| - 1];
      LastTickIs(a, b, init);
      if i :| 0 <= i < |init| && init[i] == Tick(LastTick(a, b, init)) {
        assert xs[i] == Tick(LastTick(a, b, xs));
      }
    }
  }

  lemma {:induction false} RunTogether(a: int, b: int, xs: seq<Beat>, interval: nat)
    requires interval > 0 && Clocked(a, b, xs)
    ensures NoneBetween(a, b, xs, interval) ==>
              Together(Beaten(Started(a, b), xs, interval), a, b, LastTick(a, b, xs), interval)
    ensures !NoneBetween(a, b, xs, interval) ==> Behind(Beaten(Started(a, b), xs, interval))
  {
    if xs != [] {
      var init, x := xs[..|xs| - 1], xs[|xs| - 1];
      var p := Beaten(Started(a, b), init, interval);
      assert xs == init + [x];
      RunTogether(a, b, init, interval);
      LastTickIs(a, b, init);
      if !NoneBetween(a, b, init, interval) {
        var i :| 0 <= i < |init| && init[i].Tick? && Between(a, b, init[i].at, interval);
        assert xs[i] == init[i];
        BehindStays(p, x, interval);
      } else if x.Tick? {
        TogetherTick(p, a, b, LastTick(a, b, init), x.at, interval);
        assert xs[|init|] == x;
      }
    }
  }

  // After any run the two histories are equal if and only if no tick has fallen between
  // the ends of the first intervals.
  lemma SameHistoryIff(a: int, b: int, xs: seq<Beat>, interval: nat)
    requires interval > 0 && Clocked(a, b, xs)
    ensures var p := Beaten(Started(a, b), xs, interval);
            p.short.rates == p.long.rates <==> NoneBetween(a, b, xs, interval)
  {
    RunTogether(a, b, xs, interval);
  }

  // If the second meter has started later, there is a run in which it misses a step: one
  // event, a tick between the ends of the intervals, and a tick one interval later.
  function Missing(a: int, b: int, interval: nat): seq<Beat> {
    var first := Max(a + interval * MILLISECOND, b);
    [Count, Tick(first), Tick(first + interval * MILLISECOND)]
  }

  lemma MissingMisses(a: int, b: int, interval: nat)
    requires interval > 0 && a < b && b - a + 2 * interval * MILLISECOND < WORD
    ensures Clocked(a, b, Missing(a, b, interval))
    ensures var p, r := Beaten(Started(a, b), Missing(a, b, interval), interval), Rate(1, interval);
            p.short.rates == [r, Rate(0, interval)] && p.long.rates == [r]
  {
    var first := Max(a + interval * MILLISECOND, b);
    var second := first + interval * MILLISECOND;
    var xs := Missing(a, b, interval);
    var p1 := Next(Started(a, b), Count, interval);
    var p2 := Next(p1, Tick(first), interval);
    assert xs[..2] == [Count, Tick(first)] && xs[..2][..1] == [Count] && xs[..2][..1][..0] == [];
    assert Beaten(Started(a, b), [Count], interval) == p1;
    assert Beaten(Started(a, b), xs[..2], interval) == p2;
    DueIff(a, first, interval);
    DueIff(b, first, interval);
    DueIff(first, second, interval);
    DueIff(b, second, interval);
    assert p2.short == Counter(first, 0, [Rate(1, interval)]);
  }

  // --- after a missed step

  // The meters will fire together: they are in step, or have not fired yet.
  predicate Paired(p: Twins) {
    && p.short.count == p.long.count
    && (p.short.last == p.long.last || p.short.rates == p.long.rates == [])
  }

  // Nothing or everything but the first m rates of the two meters is the same.
  predicate SameTail(p: Twins, m: nat) {
    && |p.short.rates| == |p.long.rates| + 1
    && m <= |p.long.rates| && p.short.rates[m + 1..] == p.long.rates[m..]
  }

  // What holds once a step has been missed: either the second meter has not fired yet and
  // is due, or the two are in step, and differ in the missed rate and in the next one only.
  predicate Missed(p: Twins, b: int, now: int, interval: nat) {
    && p.short.last <= now
    && if p.long.rates == []
       then |p.short.rates| == 1 && p.long.last == b <= p.short.last
       else Paired(p) && p.short.last == p.long.last && SameTail(p, 1) && b <= p.short.last
  }

  lemma MissedBegins(p: Twins, a: int, b: int, was: int, now: int, interval: nat)
    requires interval > 0 && Together(p, a, b, was, interval)
    requires was <= now && Max(a, b) <= now && now - Min(a, b) < WORD && Between(a, b, now, interval)
    ensures Missed(Next(p, Tick(now), interval), b, now, interval)
  {
    TogetherTick(p, a, b, was, now, interval);
  }

  lemma MissedStays(p: Twins, b: int, was: int, now: int, interval: nat)
    requires interval > 0 && Missed(p, b, was, interval) && was <= now && now - b < WORD
    ensures Missed(Next(p, Tick(now), interval), b, now, interval)
  {
    DueIff(p.short.last, now, interval);
    DueIff(p.long.last, now, interval);
  }

  lemma {:induction false} RunMissed(a: int, b: int, xs: seq<Beat>, interval: nat)
    requires interval > 0 && Clocked(a, b, xs) && !NoneBetween(a, b, xs, interval)
    ensures Missed(Beaten(Started(a, b), xs, interval), b, LastTick(a, b, xs), interval)
  {
    var init, x := xs[..|xs| - 1], xs[|xs| - 1];
    var p := Beaten(Started(a, b), init, interval);
    assert xs == init + [x];
    LastTickIs(a, b, init);
    if NoneBetween(a, b, init, interval) {
      RunTogether(a, b, init, interval);
      assert x.Tick? && Between(a, b, x.at, interval) by {
        var i :| 0 <= i < |xs| && xs[i].Tick? && Between(a, b, xs[i].at, interval);
        assert i < |init| ==> init[i] == xs[i];
      }
      MissedBegins(p, a, b, LastTick(a, b, init), x.at, interval);
    } else {
      RunMissed(a, b, init, interval);
      if x.Tick? {
        MissedStays(p, b, LastTick(a, b, init), x.at, interval);
      }
    }
  }

  // A missed step is forgotten: after any run in which the second meter has fired more than
  // n times, the last n rates of the two are the same, and they will fire together.
  lemma Heals(a: int, b: int, xs: seq<Beat>, interval: nat, n: nat)
    requires interval > 0 && Clocked(a, b, xs)
    requires |Beaten(Started(a, b), xs, interval).long.rates| > n
    ensures var p := Beaten(Started(a, b), xs, interval);
            Paired(p) && Window(p.short.rates, n) == Window(p.long.rates, n)
  {
    var p := Beaten(Started(a, b), xs, interval);
    RunTogether(a, b, xs, interval);
    if !NoneBetween(a, b, xs, interval) {
      RunMissed(a, b, xs, interval);
      var s, l := p.short.rates, p.long.rates;
      assert s[|s| - n..] == s[2..][|s| - n - 2..] && l[|l| - n..] == l[1..][|l| - n - 1..];
    }
  }

  // The meters give the same last n rates, now and as long as no step is missed.
  predicate Healthy(p: Twins, n: nat) {
    Paired(p) && Window(p.short.rates, n) == Window(p.long.rates, n)
  }

  lemma WindowGrows(g: seq<real>, h: seq<real>, r: real, n: nat)
    requires Window(g, n) == Window(h, n)
    ensures Window(g + [r], n) == Window(h + [r], n)
  {
    WindowOne(g, r, n);
    WindowOne(h, r, n);
  }

  lemma WindowOne(h: seq<real>, r: real, n: nat)
    ensures Window(h + [r], n) == Window(Window(h, n) + [r], n)
  {
  }

  lemma HealthyStays(p: Twins, x: Beat, interval: nat, n: nat)
    requires interval > 0 && Healthy(p, n) && !(x.Tick? && Gap(p, x.at, interval))
    ensures Healthy(Next(p, x, interval), n)
  {
    if x.Tick? && Due(p.short.last, x.at, interval) {
      WindowGrows(p.short.rates, p.long.rates, Rate(p.short.count, interval), n);
    }
  }

  lemma {:induction false} RatesNotNegative(a: int, b: int, xs: seq<Beat>, interval: nat)
    requires interval > 0
    ensures var h := Beaten(Started(a, b), xs, interval).long.rates; forall i :: 0 <= i < |h| ==> h[i] >= 0.0
  {
    if xs != [] {
      RatesNotNegative(a, b, xs[..|xs| - 1], interval);
      assert Rate(Beaten(Started(a, b), xs[..|xs| - 1], interval).long.count, interval) >= 0.0;
    }
  }
}
