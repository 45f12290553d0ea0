// The timebase: the spread of recent event times, clamped.

module TimebaseSupervisor {
  import opened Basics
  import opened Events
  import opened Timeouts

  const SAMPLE_TIME: int := 2000000000
  const INT64_MAX: int := 0x7fff_ffff_ffff_ffff
  const INT64_MIN: int := -0x8000_0000_0000_0000

  // Two's complement result of a 64-bit operation.
  function Wrap64(x: int): (r: int)
    ensures INT64_MIN <= r <= INT64_MAX
    ensures INT64_MIN <= x <= INT64_MAX ==> r == x
  {
    (x - INT64_MIN) % 0x1_0000_0000_0000_0000 + INT64_MIN
  }

  function Clamp(x: int, lo: int, hi: int): int {
    if x < lo then lo else if hi < x then hi else x
  }

  // The bounds recorded for the event times of a sample: an event that is a new minimum
  // is not considered as a maximum.
  function Recorded(ts: seq<int>): (int, int) {
    if ts == [] then (INT64_MAX, INT64_MIN)
    else
      var t, (start, end) := ts[|ts| - 1], Recorded(ts[..|ts| - 1]);
      if t < start then (t, end) else (start, Max(end, t))
  }

  predicate Least(ts: seq<int>, x: int) {
    x in ts && forall i :: 0 <= i < |ts| ==> x <= ts[i]
  }

  predicate Greatest(ts: seq<int>, x: int) {
    x in ts && forall i :: 0 <= i < |ts| ==> ts[i] <= x
  }

  predicate Times(ts: seq<int>) {
    forall i :: 0 <= i < |ts| ==> 0 < ts[i] < INT64_MAX
  }

  // Some later event is not earlier than the first.
  predicate NotFirstLatest(ts: seq<int>) {
    exists i :: 1 <= i < |ts| && ts[i] >= ts[0]
  }

  // The recorded minimum is right; the recorded maximum is right if and only if some
  // later event is not earlier than the first of the sample.
  lemma {:induction false} RecordedLaw(ts: seq<int>)
    requires ts != [] && Times(ts)
    ensures Least(ts, Recorded(ts).0)
    ensures Greatest(ts, Recorded(ts).1) <==> NotFirstLatest(ts)
    ensures !NotFirstLatest(ts) ==> Greatest(ts, ts[0]) && Recorded(ts).1 < ts[0]
  {
    var n := |ts| - 1;
    if n > 0 {
      var init := ts[..n];
      assert ts == init + [ts[n]];
      RecordedLaw(init);
      if NotFirstLatest(init) {
        var i :| 1 <= i < n && init[i] >= init[0];
        assert ts[i] >= ts[0];
      }
      if NotFirstLatest(ts) && !NotFirstLatest(init) {
        assert ts[n] >= ts[0];
      }
    } else {
      assert ts[..0] == [] && ts[0] in ts;
    }
  }

  // The times of the events that were no new minimum: an earlier one was not later.
  ghost function Later(ts: seq<int>): seq<int> {
    if ts == [] then []
    else
      var init, t := ts[..|ts| - 1], ts[|ts| - 1];
      Later(init) + if exists j :: 0 <= j < |init| && init[j] <= t then [t] else []
  }

  // The recorded end is the greatest of these times.
  lemma {:induction false} RecordedEnd(ts: seq<int>)
    requires Times(ts)
    ensures if Later(ts) == [] then Recorded(ts).1 == INT64_MIN else Greatest(Later(ts), Recorded(ts).1)
  {
    if ts != [] {
      var init, t := ts[..|ts| - 1], ts[|ts| - 1];
      RecordedEnd(init);
      if init != [] {
        RecordedLaw(init);
        var j :| 0 <= j < |init| && init[j] == Recorded(init).0;
      }
      assert (exists j :: 0 <= j < |init| && init[j] <= t) <==> t >= Recorded(init).0;
      if t >= Recorded(init).0 {
        GreatestOne(Later(init), Recorded(init).1, t);
      }
    }
  }

  lemma {:induction false} LaterIsSeen(ts: seq<int>, x: int)
    requires x in Later(ts)
    ensures x in ts
  {
    var init, t := ts[..|ts| - 1], ts[|ts| - 1];
    if x in Later(init) {
      LaterIsSeen(init, x);
    } else {
      assert x == t;
    }
  }

  lemma GreatestOne(ts: seq<int>, x: int, t: int)
    requires if ts == [] then x < t else Greatest(ts, x)
    ensures Greatest(ts + [t], Max(x, t))
  {
    assert (ts + [t])[|ts|] == t;
    if ts != [] {
      var i :| 0 <= i < |ts| && ts[i] == x;
      assert (ts + [t])[i] == x;
    }
  }

  // The base that a sample of event times leads to.
  function BaseOf(ts: seq<int>): int {
    Clamp(Wrap64(Recorded(ts).1 - Recorded(ts).0), MINIMUM, MAXIMUM_BASE)
  }

  // If some event was no new minimum, the base is the clamped spread if and only if the
  // greatest such event is the greatest of all, or the clamp makes up for the difference.
  lemma BaseIsSpreadIff(ts: seq<int>, least: int, greatest: int, e: int)
    requires Times(ts) && Least(ts, least) && Greatest(ts, greatest) && Greatest(Later(ts), e)
    ensures BaseOf(ts) == Clamp(e - least, MINIMUM, MAXIMUM_BASE)
    ensures BaseOf(ts) == Clamp(greatest - least, MINIMUM, MAXIMUM_BASE)
            <==> NotFirstLatest(ts) || greatest - least <= MINIMUM || e - least >= MAXIMUM_BASE
  {
    RecordedLaw(ts);
    RecordedEnd(ts);
    LaterIsSeen(ts, e);
    assert Recorded(ts) == (least, e);
  }

  // If some later event is not earlier than the first, the base is the spread of the event
  // times, but at least 0.8 s and at most 120 s.
  lemma BaseLaw(ts: seq<int>, least: int, greatest: int)
    requires Times(ts) && Least(ts, least) && Greatest(ts, greatest) && NotFirstLatest(ts)
    ensures greatest - least < 800_000_000 ==> BaseOf(ts) == 800_000_000
    ensures 800_000_000 <= greatest - least <= 120_000_000_000 ==> BaseOf(ts) == greatest - least
    ensures greatest - least > 120_000_000_000 ==> BaseOf(ts) == 120_000_000_000
  {
    RecordedLaw(ts);
  }

  // If all events were new minima, a single one among them, the subtraction overflows to
  // the largest base, which is right if and only if the events span as much.
  lemma FallingSaturates(ts: seq<int>, least: int, greatest: int)
    requires ts != [] && Times(ts) && Least(ts, least) && Greatest(ts, greatest) && Later(ts) == []
    requires least <= INT64_MAX - MAXIMUM_BASE
    ensures BaseOf(ts) == MAXIMUM_BASE
    ensures BaseOf(ts) == Clamp(greatest - least, MINIMUM, MAXIMUM_BASE) <==> greatest - least >= MAXIMUM_BASE
  {
    RecordedLaw(ts);
    RecordedEnd(ts);
    var d := INT64_MIN - least;
    assert Wrap64(d) == d + 0x1_0000_0000_0000_0000;
  }

  // No event at all gives the smallest base.
  lemma NoEventsSmallest()
    ensures BaseOf([]) == MINIMUM
  {
    assert Wrap64(INT64_MIN - INT64_MAX) == 1;
  }

  class Timebase {
    var sampleStart: int
    var start: int
    var end: int
    var current: int
    // The times of the events seen in the present sample.
    ghost var seen: seq<int>
    // What has been handed on to the event sink.
    var events: seq<Event>

    ghost predicate Valid()
      reads this
    {
      MINIMUM <= current <= MAXIMUM_BASE && (start, end) == Recorded(seen)
    }

    constructor (now: int)
      ensures Valid() && seen == [] && sampleStart == now && events == []
    {
      sampleStart, start, end, current := now, INT64_MAX, INT64_MIN, MINIMUM;
      seen, events := [], [];
    }

    method GetEvent(e: Event)
      requires Valid()
      modifies this`start, this`end, this`seen, this`events
      ensures Valid() && seen == old(seen) + [e.data.start] && events == old(events) + [e]
    {
      seen := seen + [e.data.start];
      assert seen[..|seen| - 1] == old(seen);
      if e.data.start < start {
        start := e.data.start;
      } else if e.data.start > end {
        end := e.data.start;
      }
      events := events + [e];
    }

    // The base sent along with a factor: renewed from the events of the sample when its
    // time is over.
    method GetTimebase(now: int) returns (base: int)
      requires Valid()
      modifies this`sampleStart, this`start, this`end, this`current, this`seen
      ensures Valid() && base == current && MINIMUM <= base <= MAXIMUM_BASE
      ensures now - old(sampleStart) < SAMPLE_TIME ==>
                base == old(current) && seen == old(seen) && sampleStart == old(sampleStart)
      ensures now - old(sampleStart) >= SAMPLE_TIME ==>
                base == BaseOf(old(seen)) && seen == [] && sampleStart == now
    {
      if now - sampleStart < SAMPLE_TIME {
        return current;
      }
      sampleStart := now;
      current := Clamp(Wrap64(end - start), MINIMUM, MAXIMUM_BASE);
      base := current;
      start, end := INT64_MAX, INT64_MIN;
      seen := [];
    }
  }
}
