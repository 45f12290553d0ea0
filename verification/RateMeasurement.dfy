// A counter that is turned into a rate once per interval.

module RateMeasurement {
  import opened Basics
  import opened Statistics
  import opened DataSeries

  const WORD: int := 0x1_0000_0000_0000_0000

  // The elapsed milliseconds are truncated and then read as an unsigned word, so
  // a clock that has stepped back also ends the interval.
  predicate Due(last: int, now: int, interval: nat) {
    TruncDiv(now - last, MILLISECOND) % WORD >= interval
  }

  // As long as times fit into 64 bits and the clock does not step back, the interval is
  // over exactly when its length has passed.
  lemma DueIff(last: int, now: int, interval: nat)
    requires 0 <= now - last < WORD
    ensures Due(last, now, interval) <==> last + interval * MILLISECOND <= now
  {
    var d := now - last;
    var q := d / MILLISECOND;
    assert TruncDiv(d, MILLISECOND) == q && q * MILLISECOND <= d < (q + 1) * MILLISECOND;
  }

  function Rate(count: nat, interval: nat): real
    requires interval > 0
  {
    count as real * 1000.0 / interval as real
  }

  // A meter as a value: when it last fired, what it has counted since, and all rates so far.
  datatype Counter = Counter(last: int, count: nat, rates: seq<real>) {
    function Counted(): Counter {
      this.(count := count + 1)
    }

    function Stepped(now: int, interval: nat): Counter
      requires interval > 0
    {
      if Due(last, now, interval) then Counter(now, 0, rates + [Rate(count, interval)]) else this
    }
  }

  // On a clock that does not step back, a meter fires when its interval has passed. Then the
  // rate added is the number of events counted, per second of the interval.
  lemma FiringLaw(c: Counter, now: int, interval: nat)
    requires interval > 0 && 0 <= now - c.last < WORD
    ensures now - c.last < interval * 1000000 ==> c.Stepped(now, interval) == c
    ensures now - c.last >= interval * 1000000 ==>
              var d := c.Stepped(now, interval);
              && d.last == now && d.count == 0
              && |d.rates| == |c.rates| + 1 && d.rates[..|c.rates|] == c.rates
              && d.rates[|c.rates|] * (interval as real / 1000.0) == c.count as real
  {
    DueIff(c.last, now, interval);
    RateLaw(c.count, interval);
  }

  lemma RateLaw(count: nat, interval: nat)
    requires interval > 0
    ensures Rate(count, interval) * (interval as real / 1000.0) == count as real
  {
    var i := interval as real;
    assert count as real * 1000.0 / i * i == count as real * 1000.0;
  }

  // A clock that has stepped back by a millisecond or more fires the meter as well.
  lemma BackFires(c: Counter, now: int, interval: nat)
    requires 0 < interval <= WORD / 2 && 1000000 <= c.last - now < WORD
    ensures c.Stepped(now, interval).last == now && c.Stepped(now, interval).count == 0
  {
    var k := (c.last - now) / MILLISECOND;
    assert TruncDiv(now - c.last, MILLISECOND) == -k && 1 <= k < WORD / 2;
    assert (-k) % WORD == WORD - k;
  }

  class Meter {
    const series: Series
    const interval: nat
    var currentN: nat
    var last: int

    ghost function Footprint(): set<object> {
      {this, series, series.buffer}
    }

    ghost predicate Valid()
      reads this, series, series.buffer
    {
      && interval > 0 && series.Valid()
      && forall i :: 0 <= i < |series.history| ==> series.history[i] >= 0.0
    }

    ghost function Value(): Counter
      reads this, series
    {
      Counter(last, currentN, series.history)
    }

    constructor (n: nat, interval: nat, root: real -> real, now: int)
      requires n > 0 && interval > 0 && IsRoot(root)
      ensures Valid() && fresh(series) && fresh(series.buffer)
      ensures series.n == n && series.root == root && this.interval == interval
      ensures Value() == Counter(now, 0, [])
    {
      series := new Series(n, root);
      this.interval := interval;
      currentN, last := 0, now;
    }

    method IncreaseCounter()
      modifies this`currentN
      ensures Value() == old(Value()).Counted()
    {
      currentN := currentN + 1;
    }

    method Step(now: int) returns (fired: bool)
      requires Valid()
      modifies this, series, series.buffer
      ensures Valid() && fired == Due(old(last), now, interval)
      ensures Value() == old(Value()).Stepped(now, interval)
    {
      fired := TruncDiv(now - last, MILLISECOND) % WORD >= interval;
      if fired {
        last := now;
        series.Add(Rate(currentN, interval));
        currentN := 0;
      }
    }
  }
}
