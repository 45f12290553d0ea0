// One detector station: its reliability and its slow-down factor.

module DetectorStation {
  import opened Basics
  import opened ClusterState
  import opened Events
  import opened Statistics
  import opened DataSeries
  import opened RateMeasurement
  import opened TwinMeters

  const MAX_TIMING_ERROR: real := 1000.0
  const MAX_LOCATION_ERROR: real := 1000.0 * 0.299792458
  const EXTREME_TIMING_ERROR: real := 100000.0
  const STDDEV_FACTOR: real := 0.75
  const HYSTERESIS: real := 0.15
  const HISTORY_LENGTH: nat := 10
  const TIME_INTERVAL: nat := 30000
  const LOG_INTERVAL: int := 90000 * MILLISECOND
  const QUIT_INTERVAL: int := 3 * LOG_INTERVAL

  datatype Reason =
    | Miscellaneous
    | TimeAccuracy
    | TimeAccuracyExtreme
    | LocationPrecision
    | RateUnstable
    | MissedLogInterval

  // What a station reports to its supervisor when its status changes.
  datatype Notice = Notice(status: Status, reason: Reason)

  datatype Location = Location(hAcc: real, vAcc: real, dop: real)

  // --- reliability

  // A ratio that the source computes as 0/0 compares false with everything.
  predicate Above(ratio: Option<real>, bound: real) {
    ratio.Some? && ratio.value > bound
  }

  predicate Below(ratio: Option<real>, bound: real) {
    ratio.Some? && ratio.value < bound
  }

  datatype Ratios = Ratios(location: Option<real>, time: Option<real>, rate: Option<real>)

  // The status the ratios call for, if any.
  function Verdict(r: Ratios): Option<Notice> {
    if Above(r.location, 1.0 + HYSTERESIS) then Some(Notice(Unreliable, LocationPrecision))
    else if Above(r.time, 1.0 + HYSTERESIS) then Some(Notice(Unreliable, TimeAccuracy))
    else if Above(r.rate, 1.0 + HYSTERESIS) then Some(Notice(Unreliable, RateUnstable))
    else if Below(r.location, 1.0 - HYSTERESIS) && Below(r.time, 1.0 - HYSTERESIS) && Below(r.rate, 1.0 - HYSTERESIS)
    then Some(Notice(Reliable, Miscellaneous))
    else None
  }

  function Judged(s: Status, r: Ratios): Status {
    match Verdict(r)
    case None => s
    case Some(n) => n.status
  }

  ghost predicate FellBy(before: Option<real>, after: Option<real>, d: real) {
    before.Some? && after.Some? && before.value - after.value > d
  }

  // A station cannot flicker: between a check that finds it unreliable and one that
  // finds it reliable again, the offending ratio has fallen by more than twice the
  // hysteresis.
  lemma Hysteresis(before: Ratios, after: Ratios)
    requires Judged(Reliable, before) == Unreliable && Judged(Unreliable, after) == Reliable
    ensures FellBy(before.location, after.location, 2.0 * HYSTERESIS)
            || FellBy(before.time, after.time, 2.0 * HYSTERESIS)
            || FellBy(before.rate, after.rate, 2.0 * HYSTERESIS)
  {
  }

  function LocationPrecisionOf(l: Location, root: real -> real): real {
    l.dop * root(l.hAcc * l.hAcc + l.vAcc * l.vAcc)
  }

  function LocationRatio(l: Location, root: real -> real): real {
    LocationPrecisionOf(l, root) / MAX_LOCATION_ERROR
  }

  // No events seen means a mean of zero; the spread is then zero too, and the
  // quotient has no value.
  function RateRatio(spread: real, mean: real): Option<real> {
    if mean == 0.0 then None else Some(spread / (mean * STDDEV_FACTOR))
  }

  lemma {:induction false} SumNonNegative(s: seq<real>)
    requires forall i :: 0 <= i < |s| ==> s[i] >= 0.0
    ensures Sum(s) >= 0.0
    ensures Sum(s) == 0.0 ==> forall i :: 0 <= i < |s| ==> s[i] == 0.0
  {
    if s != [] {
      SumNonNegative(s[..|s| - 1]);
      forall i | 0 <= i < |s| && Sum(s) == 0.0 ensures s[i] == 0.0 {
        if i < |s| - 1 {
          assert s[..|s| - 1][i] == 0.0;
        }
      }
    }
  }

  lemma {:induction false} ZeroDeviation(s: seq<real>)
    requires forall i :: 0 <= i < |s| ==> s[i] == 0.0
    ensures Deviation(s, 0.0) == 0.0
  {
    if s != [] {
      ZeroDeviation(s[..|s| - 1]);
    }
  }

  // The quotient is never a positive number over zero: rates are not negative, so
  // a zero mean leaves no variance.
  lemma NoEventsNoSpread(s: seq<real>)
    requires forall i :: 0 <= i < |s| ==> s[i] >= 0.0
    requires Mean(s) == 0.0
    ensures Variance(s) == 0.0
  {
    if s != [] {
      MeanTimes(s);
      SumNonNegative(s);
      ZeroDeviation(s);
    }
  }

  // --- the factor

  // A positive number over zero is infinite, and larger than every other factor.
  datatype Factor = Finite(x: real) | Infinite

  predicate Exceeds(f: Factor, g: Factor) {
    g.Finite? && (f.Infinite? || f.x > g.x)
  }

  predicate Bounded(f: Factor) {
    f.Finite? && (f.x == 1.0 || 4.0 < f.x <= 8.0)
  }

  // How far the mean of the last 10 rates of one meter has dropped below the mean of the
  // last 100 of the other, in units of their spread.
  function SlowDown(short: seq<real>, long: seq<real>, root: real -> real): Factor {
    var w := Window(long, 10 * HISTORY_LENGTH);
    FactorOf(Mean(Window(short, HISTORY_LENGTH)), Mean(w), root(Variance(w)))
  }

  function FactorOf(c: real, mu: real, s: real): Factor {
    if c < mu - s then (if s == 0.0 then Infinite else Finite(DropFactor(mu, c, s))) else Finite(1.0)
  }

  // The factor that two meters give whose last 10 rates are the same.
  lemma FactorBounds(short: seq<real>, long: seq<real>, root: real -> real)
    requires IsRoot(root) && Window(short, HISTORY_LENGTH) == Window(long, HISTORY_LENGTH)
    ensures Bounded(SlowDown(short, long, root))
  {
    var w := Window(long, 10 * HISTORY_LENGTH);
    VarianceNonNegative(w);
    assert RootAt(root, Variance(w));
    var mu, c, s := Mean(w), Mean(Window(long, HISTORY_LENGTH)), root(Variance(w));
    if c < mu - s {
      DropIsBounded(long, HISTORY_LENGTH, s);
      DropFactorBounds(mu, c, s);
    }
  }

  // A step missed by the meter of the long window can leave a drop without a spread.
  lemma MissedStepIsInfinite(r: real, root: real -> real)
    requires IsRoot(root) && r > 0.0
    ensures SlowDown([r, 0.0], [r], root) == Infinite
  {
    var long, short := Window([r], 10 * HISTORY_LENGTH), Window([r, 0.0], HISTORY_LENGTH);
    assert long == [r] && short == [r, 0.0];
    MeanOfOne(r);
    assert short[..1] == [r] && Sum(short) == r && Len(short) == 2.0;
    assert Mean(short) == r / 2.0;
    RootOfZero(root);
  }

  // The factor after a run of the two meters of a station that have started at a and b.
  function FactorAfter(a: int, b: int, xs: seq<Beat>, root: real -> real): Factor {
    var p := Beaten(Started(a, b), xs, TIME_INTERVAL);
    SlowDown(p.short.rates, p.long.rates, root)
  }

  lemma FactorWithoutMiss(a: int, b: int, xs: seq<Beat>, root: real -> real)
    requires IsRoot(root) && Clocked(a, b, xs) && NoneBetween(a, b, xs, TIME_INTERVAL)
    ensures Bounded(FactorAfter(a, b, xs, root))
  {
    var p := Beaten(Started(a, b), xs, TIME_INTERVAL);
    SameHistoryIff(a, b, xs, TIME_INTERVAL);
    FactorBounds(p.short.rates, p.long.rates, root);
  }

  // A missed step is forgotten when the meter of the long window has fired more than ten
  // times.
  lemma FactorHeals(a: int, b: int, xs: seq<Beat>, root: real -> real)
    requires IsRoot(root) && Clocked(a, b, xs)
    requires |Beaten(Started(a, b), xs, TIME_INTERVAL).long.rates| > HISTORY_LENGTH
    ensures Bounded(FactorAfter(a, b, xs, root))
  {
    var p := Beaten(Started(a, b), xs, TIME_INTERVAL);
    Heals(a, b, xs, TIME_INTERVAL, HISTORY_LENGTH);
    FactorBounds(p.short.rates, p.long.rates, root);
  }

  // The factor stays within its bounds in all runs if and only if the meter of the long
  // window has not started later than the other.
  lemma FactorAlwaysBoundedIff(a: int, b: int, root: real -> real)
    requires IsRoot(root) && b - a + 2 * TIME_INTERVAL * MILLISECOND < WORD
    ensures (forall xs :: Clocked(a, b, xs) ==> Bounded(FactorAfter(a, b, xs, root))) <==> b <= a
  {
    if a < b {
      var xs := Missing(a, b, TIME_INTERVAL);
      MissingMisses(a, b, TIME_INTERVAL);
      MissedStepIsInfinite(Rate(1, TIME_INTERVAL), root);
      assert Rate(0, TIME_INTERVAL) == 0.0;
      assert !Bounded(FactorAfter(a, b, xs, root));
    } else {
      forall xs | Clocked(a, b, xs) ensures Bounded(FactorAfter(a, b, xs, root)) {
        FactorWithoutMiss(a, b, xs, root);
      }
    }
  }

  // --- a station as a value

  // `meters` are the two rate meters, and `accuracies` all values ever added to the
  // reliability series.
  datatype Station = Station(
    status: Status, location: Location, lastLog: int, factor: Factor, meters: Twins, accuracies: seq<real>)
  {
    // The meters have missed no step, or it is forgotten.
    ghost predicate Good() {
      && Bounded(factor) && Healthy(meters, HISTORY_LENGTH)
      && (forall i :: 0 <= i < |meters.long.rates| ==> meters.long.rates[i] >= 0.0)
    }

    function SetTo(n: Notice): (Station, Option<Notice>) {
      (this.(status := n.status), if status != n.status then Some(n) else None)
    }

    function CurrentRatios(root: real -> real): Ratios {
      var long := Window(meters.long.rates, 10 * HISTORY_LENGTH);
      Ratios(Some(LocationRatio(location, root)),
             Some(Mean(Window(accuracies, 5)) / MAX_TIMING_ERROR),
             RateRatio(root(Variance(long)), Mean(long)))
    }

    function Checked(root: real -> real): (Station, Option<Notice>) {
      match Verdict(CurrentRatios(root))
      case None => (this, None)
      case Some(n) => SetTo(n)
    }

    // An event has been counted.
    function Counted(data: Data): (Station, Option<Notice>) {
      var s := this.(meters := Next(meters, Count, TIME_INTERVAL), accuracies := accuracies + [data.timeAcc as real]);
      if data.timeAcc as real > EXTREME_TIMING_ERROR
      then s.SetTo(Notice(Unreliable, TimeAccuracyExtreme))
      else (s, None)
    }

    // A log message has come in.
    function Logged(newLocation: Location, now: int, root: real -> real): (Station, Option<Notice>) {
      this.(lastLog := now, location := newLocation).Checked(root)
    }

    // At the end of an interval a rate is added and the factor renewed.
    function Measured(now: int, root: real -> real): Station {
      if Due(meters.short.last, now, TIME_INTERVAL) then
        var m := Next(meters, Tick(now), TIME_INTERVAL);
        this.(meters := m, factor := SlowDown(m.short.rates, m.long.rates, root))
      else this
    }

    // The periodic step.
    function Stepped(now: int, root: real -> real): (Station, Option<Notice>) {
      var silence := now - lastLog;
      if silence > QUIT_INTERVAL then SetTo(Notice(Deleted, MissedLogInterval))
      else
        var (s, n) := if silence > LOG_INTERVAL then SetTo(Notice(Unreliable, MissedLogInterval)) else Checked(root);
        (s.Measured(now, root), n)
    }
  }

  function Accepted(data: Data): bool {
    data.timeAcc as real <= MAX_TIMING_ERROR && data.fix == 1
  }

  // A change of status, and nothing else, is reported.
  ghost predicate Reported(before: Status, after: Status, notice: Option<Notice>) {
    && (notice.Some? <==> before != after)
    && (notice.Some? ==> notice.value.status == after)
  }

  // A station whose meters have started at a and b.
  function Fresh(location: Location, now: int, a: int, b: int): Station {
    Station(Unreliable, location, now, Finite(1.0), Started(a, b), [])
  }

  lemma CountedLaw(s: Station, data: Data)
    ensures s.Good() ==> s.Counted(data).0.Good()
    ensures Reported(s.status, s.Counted(data).0.status, s.Counted(data).1)
  {
    if s.Good() {
      HealthyStays(s.meters, Count, TIME_INTERVAL, HISTORY_LENGTH);
    }
  }

  lemma CheckedLaw(s: Station, root: real -> real)
    ensures s.Good() ==> s.Checked(root).0.Good()
    ensures Reported(s.status, s.Checked(root).0.status, s.Checked(root).1)
    ensures s.Checked(root).0 == s.(status := s.Checked(root).0.status)
    ensures s.status != Deleted ==> s.Checked(root).0.status != Deleted
  {
    var v := Verdict(s.CurrentRatios(root));
    assert v.Some? ==> v.value.status == Unreliable || v.value.status == Reliable;
  }

  lemma LoggedLaw(s: Station, location: Location, now: int, root: real -> real)
    ensures s.Good() ==> s.Logged(location, now, root).0.Good()
    ensures var (t, n) := s.Logged(location, now, root); Reported(s.status, t.status, n)
    ensures s.status != Deleted ==> s.Logged(location, now, root).0.status != Deleted
  {
    CheckedLaw(s.(lastLog := now, location := location), root);
  }

  lemma FreshGood(location: Location, now: int, a: int, b: int, status: Status)
    ensures Fresh(location, now, a, b).(status := status).Good()
  {
  }

  // No step is missed at this time.
  predicate Calm(s: Station, now: int) {
    !Gap(s.meters, now, TIME_INTERVAL)
  }

  lemma MeasuredLaw(s: Station, now: int, root: real -> real)
    ensures s.Measured(now, root).status == s.status
    ensures IsRoot(root) && s.Good() && Calm(s, now) ==> s.Measured(now, root).Good()
  {
    assert Rate(s.meters.long.count, TIME_INTERVAL) >= 0.0;
    if IsRoot(root) && s.Good() && Calm(s, now) {
      var m := Next(s.meters, Tick(now), TIME_INTERVAL);
      HealthyStays(s.meters, Tick(now), TIME_INTERVAL, HISTORY_LENGTH);
      FactorBounds(m.short.rates, m.long.rates, root);
    }
  }

  lemma SteppedLaw(s: Station, now: int, root: real -> real)
    ensures Reported(s.status, s.Stepped(now, root).0.status, s.Stepped(now, root).1)
    ensures IsRoot(root) && s.Good() && Calm(s, now) ==> s.Stepped(now, root).0.Good()
  {
    CheckedLaw(s, root);
    var silence := now - s.lastLog;
    var (t, n) := if silence > LOG_INTERVAL then s.SetTo(Notice(Unreliable, MissedLogInterval)) else s.Checked(root);
    MeasuredLaw(t, now, root);
  }

  // Whatever happens to a station, its supervisor hears of every change of status, and of
  // nothing else.
  lemma StationReports(s: Station, data: Data, location: Location, now: int, root: real -> real)
    ensures Reported(s.status, s.Counted(data).0.status, s.Counted(data).1)
    ensures var (t, n) := s.Logged(location, now, root); Reported(s.status, t.status, n)
    ensures var (t, n) := s.Stepped(now, root); Reported(s.status, t.status, n)
  {
    CountedLaw(s, data);
    LoggedLaw(s, location, now, root);
    SteppedLaw(s, now, root);
  }

  // --- runs of a station

  datatype Call = Counting(data: Data) | Logging(location: Location, at: int) | Stepping(at: int)

  function Serve(s: Station, call: Call, root: real -> real): Station {
    match call
    case Counting(data) => s.Counted(data).0
    case Logging(location, at) => s.Logged(location, at, root).0
    case Stepping(at) => s.Stepped(at, root).0
  }

  function ServeAll(s: Station, calls: seq<Call>, root: real -> real): Station {
    if calls == [] then s else Serve(ServeAll(s, calls[..|calls| - 1], root), calls[|calls| - 1], root)
  }

  // The last log of a station after some calls.
  function LastLog(log: int, calls: seq<Call>): int {
    if calls == [] then log
    else if calls[|calls| - 1].Logging? then calls[|calls| - 1].at
    else LastLog(log, calls[..|calls| - 1])
  }

  // What the meters see of the calls: a station that has been silent too long does not
  // step them.
  function Beats(log: int, calls: seq<Call>): seq<Beat> {
    if calls == [] then []
    else
      var init, call := calls[..|calls| - 1], calls[|calls| - 1];
      Beats(log, init) + match call
                         case Counting(_) => [Count]
                         case Logging(_, _) => []
                         case Stepping(at) => if at - LastLog(log, init) > QUIT_INTERVAL then [] else [Tick(at)]
  }

  lemma {:induction false} MetersRun(s: Station, calls: seq<Call>, root: real -> real)
    ensures ServeAll(s, calls, root).meters == Beaten(s.meters, Beats(s.lastLog, calls), TIME_INTERVAL)
    ensures ServeAll(s, calls, root).lastLog == LastLog(s.lastLog, calls)
  {
    if calls != [] {
      var init, call := calls[..|calls| - 1], calls[|calls| - 1];
      var t, xs := ServeAll(s, init, root), Beats(s.lastLog, init);
      MetersRun(s, init, root);
      if call.Counting? {
        assert (xs + [Count])[..|xs|] == xs;
      } else if call.Logging? {
        assert Beats(s.lastLog, calls) == xs;
      } else if call.at - t.lastLog > QUIT_INTERVAL {
        assert Beats(s.lastLog, calls) == xs;
      } else {
        assert (xs + [Tick(call.at)])[..|xs|] == xs;
      }
    }
  }

  // In every run of a new station, the histories of its meters agree if and only if no
  // tick has fallen between the ends of their first intervals.
  lemma StationHistoryIff(location: Location, now: int, a: int, b: int, calls: seq<Call>, root: real -> real)
    requires Clocked(a, b, Beats(now, calls))
    ensures var m := ServeAll(Fresh(location, now, a, b), calls, root).meters;
            m.short.rates == m.long.rates <==> NoneBetween(a, b, Beats(now, calls), TIME_INTERVAL)
  {
    MetersRun(Fresh(location, now, a, b), calls, root);
    SameHistoryIff(a, b, Beats(now, calls), TIME_INTERVAL);
  }

  // In every such run without a missed step, the factor is 1 or above 4 and at most 8.
  lemma {:induction false} StationRunGood(location: Location, now: int, a: int, b: int, calls: seq<Call>,
                                          root: real -> real)
    requires IsRoot(root) && Clocked(a, b, Beats(now, calls))
    requires NoneBetween(a, b, Beats(now, calls), TIME_INTERVAL)
    ensures ServeAll(Fresh(location, now, a, b), calls, root).Good()
  {
    if calls != [] {
      var init, call := calls[..|calls| - 1], calls[|calls| - 1];
      var s, xs := Fresh(location, now, a, b), Beats(now, init);
      var t := ServeAll(s, init, root);
      BeatsPrefix(a, b, now, calls);
      StationRunGood(location, now, a, b, init, root);
      match call
      case Counting(data) => CountedLaw(t, data);
      case Logging(l, at) => LoggedLaw(t, l, at, root);
      case Stepping(at) =>
        MetersRun(s, init, root);
        if at - t.lastLog <= QUIT_INTERVAL {
          StepIsCalm(a, b, xs, at);
        }
        SteppedOrGone(t, at, root);
    }
  }

  predicate Present(s: Station, root: real -> real) {
    s.factor == SlowDown(s.meters.short.rates, s.meters.long.rates, root)
  }

  lemma FreshPresent(location: Location, now: int, a: int, b: int, root: real -> real)
    requires IsRoot(root)
    ensures Present(Fresh(location, now, a, b), root)
  {
    VarianceNonNegative([]);
    assert RootAt(root, 0.0);
  }

  lemma PresentStays(s: Station, call: Call, root: real -> real)
    requires Present(s, root)
    ensures Present(Serve(s, call, root), root)
  {
    if call.Logging? {
      CheckedLaw(s.(lastLog := call.at, location := call.location), root);
    } else if call.Stepping? {
      CheckedLaw(s, root);
    }
  }

  // The factor is always that of the present histories.
  lemma {:induction false} FactorIsPresent(location: Location, now: int, a: int, b: int, calls: seq<Call>,
                                           root: real -> real)
    requires IsRoot(root)
    ensures Present(ServeAll(Fresh(location, now, a, b), calls, root), root)
  {
    if calls == [] {
      FreshPresent(location, now, a, b, root);
    } else {
      var init := calls[..|calls| - 1];
      FactorIsPresent(location, now, a, b, init, root);
      PresentStays(ServeAll(Fresh(location, now, a, b), init, root), calls[|calls| - 1], root);
    }
  }

  // In every run of a new station, also if a step has been missed, the station is good again
  // when its meter of the long window has fired more than ten times.
  lemma StationHeals(location: Location, now: int, a: int, b: int, calls: seq<Call>, root: real -> real)
    requires IsRoot(root) && Clocked(a, b, Beats(now, calls))
    requires |ServeAll(Fresh(location, now, a, b), calls, root).meters.long.rates| > HISTORY_LENGTH
    ensures ServeAll(Fresh(location, now, a, b), calls, root).Good()
  {
    var xs := Beats(now, calls);
    MetersRun(Fresh(location, now, a, b), calls, root);
    FactorIsPresent(location, now, a, b, calls, root);
    FactorHeals(a, b, xs, root);
    Heals(a, b, xs, TIME_INTERVAL, HISTORY_LENGTH);
    RatesNotNegative(a, b, xs, TIME_INTERVAL);
  }

  lemma SteppedOrGone(s: Station, now: int, root: real -> real)
    requires IsRoot(root) && s.Good() && (now - s.lastLog <= QUIT_INTERVAL ==> Calm(s, now))
    ensures s.Stepped(now, root).0.Good()
  {
    if now - s.lastLog <= QUIT_INTERVAL {
      SteppedLaw(s, now, root);
    }
  }

  lemma BeatsPrefix(a: int, b: int, log: int, calls: seq<Call>)
    requires calls != [] && Clocked(a, b, Beats(log, calls)) && NoneBetween(a, b, Beats(log, calls), TIME_INTERVAL)
    ensures var init := Beats(log, calls[..|calls| - 1]);
            Clocked(a, b, init) && NoneBetween(a, b, init, TIME_INTERVAL)
  {
    var all, init := Beats(log, calls), Beats(log, calls[..|calls| - 1]);
    assert init <= all;
    forall i | 0 <= i < |init| ensures init[i] == all[i] {
    }
  }

  lemma StepIsCalm(a: int, b: int, xs: seq<Beat>, at: int)
    requires Clocked(a, b, xs + [Tick(at)]) && NoneBetween(a, b, xs + [Tick(at)], TIME_INTERVAL)
    ensures !Gap(Beaten(Started(a, b), xs, TIME_INTERVAL), at, TIME_INTERVAL)
  {
    var ys := xs + [Tick(at)];
    assert ys[..|xs|] == xs && ys[|xs|] == Tick(at);
    SameHistoryIff(a, b, ys, TIME_INTERVAL);
    SameHistoryIff(a, b, xs, TIME_INTERVAL) by {
      forall i | 0 <= i < |xs| ensures xs[i] == ys[i] {
      }
    }
  }

  // A station is dropped exactly after 270 s without a log message, and cannot be
  // reliable after 90 s without one.
  lemma SilenceLaw(s: Station, now: int, root: real -> real)
    requires s.status != Deleted
    ensures s.Stepped(now, root).0.status == Deleted <==> now - s.lastLog > QUIT_INTERVAL
    ensures now - s.lastLog > LOG_INTERVAL ==> s.Stepped(now, root).0.status != Reliable
  {
    var silence := now - s.lastLog;
    if silence <= QUIT_INTERVAL {
      CheckedLaw(s, root);
      var t := if silence > LOG_INTERVAL then s.(status := Unreliable) else s.Checked(root).0;
      MeasuredLaw(t, now, root);
      assert s.Stepped(now, root).0 == t.Measured(now, root);
    }
  }

  class Detector {
    const hash: nat
    const root: real -> real
    const currentRate: Meter
    const meanRate: Meter
    const reliabilityTimeAcc: Series
    var status: Status
    var location: Location
    var lastLog: int
    var factor: Factor

    ghost function Footprint(): set<object> {
      {this} + currentRate.Footprint() + meanRate.Footprint() + {reliabilityTimeAcc, reliabilityTimeAcc.buffer}
    }

    ghost predicate Apart() {
      && currentRate.Footprint() !! meanRate.Footprint()
      && {this, reliabilityTimeAcc, reliabilityTimeAcc.buffer} !! currentRate.Footprint() + meanRate.Footprint()
    }

    ghost predicate Valid()
      reads Footprint()
    {
      && IsRoot(root) && Apart()
      && currentRate.interval == meanRate.interval == TIME_INTERVAL
      && currentRate.series.n == HISTORY_LENGTH && meanRate.series.n == 10 * HISTORY_LENGTH
      && currentRate.series.root == root && meanRate.series.root == root
      && currentRate.Valid() && meanRate.Valid()
      && reliabilityTimeAcc.Valid() && reliabilityTimeAcc.n == 5
    }

    ghost function Value(): Station
      reads Footprint()
    {
      Station(status, location, lastLog, factor, Twins(currentRate.Value(), meanRate.Value()),
              reliabilityTimeAcc.history)
    }

    // The clock is read for the log, and then by each meter.
    constructor (hash: nat, location: Location, root: real -> real, now: int, a: int, b: int)
      requires IsRoot(root)
      ensures Valid() && fresh(Footprint()) && this.hash == hash && this.root == root
      ensures Value() == Fresh(location, now, a, b)
    {
      this.hash, this.location, this.root := hash, location, root;
      currentRate := new Meter(HISTORY_LENGTH, TIME_INTERVAL, root, a);
      meanRate := new Meter(10 * HISTORY_LENGTH, TIME_INTERVAL, root, b);
      reliabilityTimeAcc := new Series(5, root);
      status, lastLog, factor := Unreliable, now, Finite(1.0);
      new;
      assert Apart();
    }

    method SetStatus(n: Notice) returns (notice: Option<Notice>)
      requires Valid()
      modifies this`status
      ensures Valid() && (Value(), notice) == old(Value()).SetTo(n)
    {
      notice := None;
      if status != n.status {
        notice := Some(n);
      }
      status := n.status;
    }

    method Enable() returns (notice: Option<Notice>)
      requires Valid()
      modifies this`status
      ensures Valid() && (Value(), notice) == old(Value()).SetTo(Notice(Created, Miscellaneous))
    {
      notice := SetStatus(Notice(Created, Miscellaneous));
    }

    method CountEvent(accuracy: real)
      requires Valid()
      modifies Footprint() - {this}
      ensures Valid()
      ensures Value() == old(Value()).(meters := Next(old(Value()).meters, Count, TIME_INTERVAL),
                                       accuracies := old(Value()).accuracies + [accuracy])
    {
      currentRate.IncreaseCounter();
      meanRate.IncreaseCounter();
      reliabilityTimeAcc.Add(accuracy);
    }

    // One event of this detector: both meters count it. The result tells whether the
    // event is good enough to be passed on.
    method ProcessEvent(data: Data) returns (accepted: bool, notice: Option<Notice>)
      requires Valid()
      modifies Footprint()
      ensures Valid() && (Value(), notice) == old(Value()).Counted(data)
      ensures accepted <==> Accepted(data)
    {
      CountEvent(data.timeAcc as real);
      notice := None;
      if data.timeAcc as real > EXTREME_TIMING_ERROR {
        notice := SetStatus(Notice(Unreliable, TimeAccuracyExtreme));
      }
      accepted := data.timeAcc as real <= MAX_TIMING_ERROR && data.fix == 1;
    }

    method ReadTime() returns (time: real)
      requires Valid()
      modifies reliabilityTimeAcc
      ensures Valid() && Value() == old(Value())
      ensures time == Mean(Window(Value().accuracies, 5))
    {
      time := reliabilityTimeAcc.GetMean();
    }

    method ReadSpread() returns (spread: real, mean: real)
      requires Valid()
      modifies meanRate.series
      ensures Valid() && Value() == old(Value())
      ensures spread == root(Variance(Window(Value().meters.long.rates, 10 * HISTORY_LENGTH)))
      ensures mean == Mean(Window(Value().meters.long.rates, 10 * HISTORY_LENGTH))
    {
      spread := meanRate.series.GetStddev();
      mean := meanRate.series.GetMean();
    }

    // Reads the three ratios, through the statistics caches.
    method ReadRatios() returns (r: Ratios)
      requires Valid()
      modifies reliabilityTimeAcc, meanRate.series
      ensures Valid() && Value() == old(Value()) && r == Value().CurrentRatios(root)
    {
      var time := ReadTime();
      var spread, mean := ReadSpread();
      r := Ratios(Some(LocationRatio(location, root)), Some(time / MAX_TIMING_ERROR), RateRatio(spread, mean));
    }

    method CheckReliability() returns (notice: Option<Notice>)
      requires Valid()
      modifies this`status, reliabilityTimeAcc, meanRate.series
      ensures Valid() && (Value(), notice) == old(Value()).Checked(root)
    {
      var r := ReadRatios();
      notice := None;
      match Verdict(r)
      case None =>
      case Some(n) => notice := SetStatus(n);
    }

    // A log message of this detector.
    method ProcessLog(newLocation: Location, now: int) returns (notice: Option<Notice>)
      requires Valid()
      modifies Footprint()
      ensures Valid() && (Value(), notice) == old(Value()).Logged(newLocation, now, root)
    {
      lastLog := now;
      location := newLocation;
      notice := CheckReliability();
    }

    method StepMeters(now: int) returns (fired: bool)
      requires Valid()
      modifies Footprint() - {this}
      ensures Valid() && fired == Due(old(currentRate.last), now, TIME_INTERVAL)
      ensures Value() == old(Value()).(meters := Next(old(Value()).meters, Tick(now), TIME_INTERVAL))
    {
      fired := currentRate.Step(now);
      if fired {
        var other := meanRate.Step(now);
      }
    }

    method ReadShort() returns (c: real)
      requires Valid()
      modifies currentRate.series
      ensures Valid() && Value() == old(Value())
      ensures c == Mean(Window(Value().meters.short.rates, HISTORY_LENGTH))
    {
      c := currentRate.series.GetMean();
    }

    method NewFactor() returns (f: Factor)
      requires Valid()
      modifies currentRate.series, meanRate.series
      ensures Valid() && Value() == old(Value())
      ensures f == SlowDown(Value().meters.short.rates, Value().meters.long.rates, root)
    {
      var c := ReadShort();
      var s, mu := ReadSpread();
      f := Finite(1.0);
      if c < mu - s {
        f := if s == 0.0 then Infinite else Finite(DropFactor(mu, c, s));
      }
    }

    // Steps the meters and, when an interval has ended, renews the factor.
    method Measure(now: int)
      requires Valid()
      modifies Footprint()
      ensures Valid() && Value() == old(Value()).Measured(now, root)
    {
      var fired := StepMeters(now);
      if fired {
        RenewFactor();
      }
    }

    method RenewFactor()
      requires Valid()
      modifies this`factor, currentRate.series, meanRate.series
      ensures Valid()
      ensures var was := old(Value());
              Value() == was.(factor := SlowDown(was.meters.short.rates, was.meters.long.rates, root))
    {
      factor := NewFactor();
    }

    // The periodic step.
    method Step(now: int) returns (notice: Option<Notice>)
      requires Valid()
      modifies Footprint()
      ensures Valid() && (Value(), notice) == old(Value()).Stepped(now, root)
    {
      var silence := now - lastLog;
      if silence > LOG_INTERVAL {
        if silence > QUIT_INTERVAL {
          notice := SetStatus(Notice(Deleted, MissedLogInterval));
          return;
        }
        notice := SetStatus(Notice(Unreliable, MissedLogInterval));
      } else {
        notice := CheckReliability();
      }
      Measure(now);
    }
  }
}
