// What happens to a station, in terms of its data alone.

module StationLaws {
  import opened Basics
  import opened ClusterState
  import opened Events
  import opened Statistics
  import opened RateMeasurement
  import opened DetectorStation

  // --- the factor

  // When a step renews the factor: it says by how many times the spread of the last 100
  // rates the mean of the last 10 has dropped below theirs, plus one, doubled; and one, if
  // it has dropped by no more than the spread.
  lemma FactorLaw(s: Station, now: int, root: real -> real)
    requires IsRoot(root) && s.meters.short.last + 30000 * 1000000 <= now && now - s.meters.short.last < WORD
    ensures var t := s.Measured(now, root);
            var long, short := Window(t.meters.long.rates, 100), Window(t.meters.short.rates, 10);
            var mu, c, spread := Mean(long), Mean(short), root(Variance(long));
            && (c >= mu - spread ==> t.factor == Finite(1.0))
            && (c < mu - spread && spread > 0.0 ==> t.factor.Finite? && spread * (t.factor.x - 2.0) == 2.0 * (mu - c))
            && (c < mu - spread && spread <= 0.0 ==> t.factor == Infinite)
  {
    DueIff(s.meters.short.last, now, TIME_INTERVAL);
    var t := s.Measured(now, root);
    var long, short := Window(t.meters.long.rates, 100), Window(t.meters.short.rates, 10);
    VarianceNonNegative(long);
    assert RootAt(root, Variance(long));
    FactorIs(Mean(short), Mean(long), root(Variance(long)));
    assert t.factor == FactorOf(Mean(short), Mean(long), root(Variance(long)));
  }

  lemma FactorIs(c: real, mu: real, s: real)
    requires s >= 0.0
    ensures var f := FactorOf(c, mu, s);
            && (c >= mu - s ==> f == Finite(1.0))
            && (c < mu - s && s > 0.0 ==> f.Finite? && s * (f.x - 2.0) == 2.0 * (mu - c))
            && (c < mu - s && s <= 0.0 ==> f == Infinite)
  {
    if s > 0.0 {
      DropLaw(mu, c, s);
    }
  }

  lemma DropLaw(mu: real, c: real, s: real)
    requires s > 0.0
    ensures s * (DropFactor(mu, c, s) - 2.0) == 2.0 * (mu - c)
  {
    TimesQuotient(s, mu - c);
    assert s * ((mu - c) / s) == mu - c;
    assert s * (((mu - c) / s + 1.0) * 2.0 - 2.0) == 2.0 * (s * ((mu - c) / s));
  }

  // Otherwise the factor and both meters stay.
  lemma NoFactorLaw(s: Station, now: int, root: real -> real)
    requires 0 <= now - s.meters.short.last < 30000 * 1000000
    ensures s.Measured(now, root) == s
  {
    DueIff(s.meters.short.last, now, TIME_INTERVAL);
  }

  // --- reliability

  // The three quantities that a check looks at, in units of what is allowed. Without a rate
  // there is no third one.
  function Blur(l: Location, root: real -> real): real {
    l.dop * root(l.hAcc * l.hAcc + l.vAcc * l.vAcc)
  }

  function LocationOff(s: Station, root: real -> real): real {
    Blur(s.location, root) / 299.792458
  }

  function TimeOff(s: Station): real {
    Mean(Window(s.accuracies, 5)) / 1000.0
  }

  predicate HasRate(s: Station) {
    Mean(Window(s.meters.long.rates, 100)) != 0.0
  }

  function RateOff(s: Station, root: real -> real): real
    requires HasRate(s)
  {
    root(Variance(Window(s.meters.long.rates, 100))) / (Mean(Window(s.meters.long.rates, 100)) * 0.75)
  }

  ghost predicate TooBad(s: Station, root: real -> real) {
    LocationOff(s, root) > 1.15 || TimeOff(s) > 1.15 || (HasRate(s) && RateOff(s, root) > 1.15)
  }

  ghost predicate GoodEnough(s: Station, root: real -> real) {
    LocationOff(s, root) < 0.85 && TimeOff(s) < 0.85 && HasRate(s) && RateOff(s, root) < 0.85
  }

  lemma RatiosAre(s: Station, root: real -> real)
    ensures s.CurrentRatios(root) ==
            Ratios(Some(LocationOff(s, root)), Some(TimeOff(s)), if HasRate(s) then Some(RateOff(s, root)) else None)
  {
    assert Blur(s.location, root) == LocationPrecisionOf(s.location, root);
    SameQuotient(Blur(s.location, root), MAX_LOCATION_ERROR, 299.792458);
  }

  lemma SameQuotient(x: real, a: real, b: real)
    requires a == b != 0.0
    ensures x / a == x / b
  {
  }

  // A check makes a station unreliable exactly if one of the quantities exceeds what is
  // allowed by more than 15 percent, and reliable exactly if all three are known and more
  // than 15 percent below. Otherwise the status stays. Nothing else of the station changes.
  lemma CheckLaw(s: Station, root: real -> real)
    ensures var t := s.Checked(root).0;
            && t == s.(status := t.status)
            && (TooBad(s, root) ==> t.status == Unreliable)
            && (GoodEnough(s, root) ==> t.status == Reliable)
            && (!TooBad(s, root) && !GoodEnough(s, root) ==> t.status == s.status)
  {
    RatiosAre(s, root);
  }

  // What is reported is a change only, with the first reason in the order location, time,
  // rate.
  lemma CheckReports(s: Station, root: real -> real)
    ensures var (t, n) := s.Checked(root);
            && (t.status == s.status ==> n == None)
            && (t.status != s.status ==> n.Some? && n.value.status == t.status)
            && (n.Some? && t.status == Reliable ==> n.value.reason == Miscellaneous)
            && (n.Some? && t.status == Unreliable ==>
                  n.value.reason == if LocationOff(s, root) > 1.15 then LocationPrecision
                                    else if TimeOff(s) > 1.15 then TimeAccuracy
                                    else RateUnstable)
  {
    RatiosAre(s, root);
  }

  // A log renews place and time, and the station is then checked.
  lemma LogLaw(s: Station, location: Location, now: int, root: real -> real)
    ensures var u, t := s.(lastLog := now, location := location), s.Logged(location, now, root).0;
            && t == u.(status := t.status)
            && (TooBad(u, root) ==> t.status == Unreliable)
            && (GoodEnough(u, root) ==> t.status == Reliable)
            && (!TooBad(u, root) && !GoodEnough(u, root) ==> t.status == s.status)
  {
    CheckLaw(s.(lastLog := now, location := location), root);
  }

  // --- events

  // Both meters count the event and its accuracy is kept. An accuracy beyond 100 us makes
  // the station unreliable.
  lemma EventLaw(s: Station, data: Data)
    ensures var (t, n) := s.Counted(data);
            && t.meters.short == s.meters.short.(count := s.meters.short.count + 1)
            && t.meters.long == s.meters.long.(count := s.meters.long.count + 1)
            && |t.accuracies| == |s.accuracies| + 1 && t.accuracies[..|s.accuracies|] == s.accuracies
            && t.accuracies[|s.accuracies|] == data.timeAcc as real
            && t.location == s.location && t.lastLog == s.lastLog && t.factor == s.factor
            && t.status == (if data.timeAcc > 100000 then Unreliable else s.status)
            && (n.Some? ==> n.value == Notice(Unreliable, TimeAccuracyExtreme))
  {
  }

  // --- steps

  // A station that has had a log within 90 s is checked; without one it is unreliable, and
  // after 270 s it is gone. Unless it is gone, its meters are stepped.
  lemma StepLaw(s: Station, now: int, root: real -> real)
    ensures var silence, (t, n) := now - s.lastLog, s.Stepped(now, root);
            && (silence > 270_000_000_000 ==> t == s.(status := Deleted))
            && (90_000_000_000 < silence <= 270_000_000_000 ==>
                  t == s.(status := Unreliable).Measured(now, root))
            && (silence <= 90_000_000_000 ==>
                  t == s.(status := t.status).Measured(now, root)
                  && (TooBad(s, root) ==> t.status == Unreliable)
                  && (GoodEnough(s, root) ==> t.status == Reliable)
                  && (!TooBad(s, root) && !GoodEnough(s, root) ==> t.status == s.status))
            && (n.Some? && silence > 90_000_000_000 ==> n.value.reason == MissedLogInterval)
  {
    CheckLaw(s, root);
    var silence := now - s.lastLog;
    if silence <= QUIT_INTERVAL {
      var u := if silence > LOG_INTERVAL then s.(status := Unreliable) else s.Checked(root).0;
      MeasuredLaw(u, now, root);
      assert s.Stepped(now, root).0 == u.Measured(now, root);
    }
  }
}
