// Detector hits and the events built from them.

module Events {
  import opened Basics

  // One hit as a station reports it. `origin` stands for the descriptive fields
  // (user, station, location, quality flags) that are only carried along.
  datatype Data = Data(
    hash: nat, start: int, end: int, timeAcc: nat, fix: nat, origin: string)

  // An event is either one hit (`data`) or a combination whose hits are listed
  // in `events`; `data.start` and `data.end` then describe the combination.
  datatype Event = Event(data: Data, events: seq<Data>) {

    // The number of hits this event stands for.
    function N(): nat {
      if |events| == 0 then 1 else |events|
    }

    // The hits themselves.
    function Hits(): seq<Data> {
      if N() < 2 then [data] else events
    }

    function Lo(): int { data.start }

    // The later endpoint that the coincidence criterion looks at.
    function Hi(): int {
      if N() > 1 then data.end else data.start
    }

    // The event after one more hit has been added.
    function Extend(d: Data): Event {
      Event(if d.start < data.start then data.(start := d.start)
            else if d.start > data.end then data.(end := d.start)
            else data,
            events + [d])
    }

    // The event after several hits have been added in order.
    function ExtendAll(ds: seq<Data>): Event
      decreases |ds|
    {
      if ds == [] then this else Extend(ds[0]).ExtendAll(ds[1..])
    }

    // An event that is about to receive a second hit lists its own hit first,
    // and its interval shrinks to that hit's start.
    function Promote(): Event {
      if N() < 2 then this.(data := data.(end := data.start)).Extend(data) else this
    }

    function Join(e: Event): Event {
      Promote().ExtendAll(e.Hits())
    }

    // The interval of the listed hits: all starts inside, both bounds attained.
    ghost predicate Tight() {
      && |events| > 0
      && (forall h :: h in events ==> data.start <= h.start <= data.end)
      && (exists h :: h in events && h.start == data.start)
      && (exists h :: h in events && h.start == data.end)
    }

    // What the pipeline promises of every event it builds.
    ghost predicate Framed() {
      |events| != 1 && (|events| >= 2 ==> Tight())
    }
  }

  // event_t as the source updates it, in place.
  class EventRecord {
    var data: Data
    var events: seq<Data>

    function Value(): Event
      reads this
    {
      Event(data, events)
    }

    constructor (e: Event)
      ensures Value() == e
    {
      data, events := e.data, e.events;
    }

    method EmplaceData(d: Data)
      modifies this
      ensures events == old(events) + [d]
      ensures data.start == Min(old(data.start), d.start)
      ensures data.end == if d.start >= old(data.start) then Max(old(data.end), d.start) else old(data.end)
      ensures data == old(data).(start := data.start, end := data.end)
      ensures Value() == old(Value()).Extend(d)
    {
      if d.start < data.start {
        data := data.(start := d.start);
      } else if d.start > data.end {
        data := data.(end := d.start);
      }
      events := events + [d];
    }

    method Emplace(e: Event)
      modifies this
      ensures Value() == old(Value()).ExtendAll(e.Hits())
    {
      if e.N() > 1 {
        var i := 0;
        while i < |e.events|
          invariant 0 <= i <= |e.events|
          invariant Value().ExtendAll(e.events[i..]) == old(Value()).ExtendAll(e.events)
        {
          assert e.events[i..][1..] == e.events[i + 1..];
          EmplaceData(e.events[i]);
          i := i + 1;
        }
        return;
      }
      EmplaceData(e.data);
      assert e.Hits()[1..] == [];
    }

    method Promote()
      modifies this
      ensures Value() == old(Value()).Promote()
    {
      if Value().N() < 2 {
        var e := Value();
        data := data.(end := data.start);
        Emplace(e);
        assert e.Hits()[1..] == [];
      }
    }
  }

  // Adding hits only appends them; apart from its interval the event keeps its data.
  lemma {:induction false} ExtendAllAppends(e: Event, ds: seq<Data>)
    ensures e.ExtendAll(ds).events == e.events + ds
    ensures var d := e.ExtendAll(ds).data; d == e.data.(start := d.start, end := d.end)
    decreases |ds|
  {
    if ds != [] {
      ExtendAllAppends(e.Extend(ds[0]), ds[1..]);
      assert e.events + ds == (e.events + [ds[0]]) + ds[1..];
    }
  }

  // However many hits are added, a tight interval stays tight: the `else if`
  // loses nothing once start <= end holds.
  lemma {:induction false} ExtendAllTight(e: Event, ds: seq<Data>)
    requires e.Tight()
    ensures e.ExtendAll(ds).Tight()
    decreases |ds|
  {
    if ds != [] {
      var f := e.Extend(ds[0]);
      var lo :| lo in e.events && lo.start == e.data.start;
      var hi :| hi in e.events && hi.start == e.data.end;
      assert lo in f.events && hi in f.events && ds[0] in f.events;
      ExtendAllTight(f, ds[1..]);
    }
  }

  // lo and hi bound the starts of ds, and both are attained.
  ghost predicate Hull(ds: seq<Data>, lo: int, hi: int) {
    && (forall h :: h in ds ==> lo <= h.start <= hi)
    && (exists h :: h in ds && h.start == lo)
    && (exists h :: h in ds && h.start == hi)
  }

  lemma HullUnique(ds: seq<Data>, lo: int, hi: int, lo': int, hi': int)
    requires Hull(ds, lo, hi) && Hull(ds, lo', hi')
    ensures lo == lo' && hi == hi'
  {
  }

  lemma HullConcat(xs: seq<Data>, lx: int, hx: int, ys: seq<Data>, ly: int, hy: int)
    requires Hull(xs, lx, hx) && Hull(ys, ly, hy)
    ensures Hull(xs + ys, Min(lx, ly), Max(hx, hy))
  {
    var a :| a in xs && a.start == lx;
    var b :| b in xs && b.start == hx;
    var c :| c in ys && c.start == ly;
    var d :| d in ys && d.start == hy;
    assert a in xs + ys && b in xs + ys && c in xs + ys && d in xs + ys;
  }

  lemma FramedHull(e: Event)
    requires e.Framed()
    ensures Hull(e.Hits(), e.Lo(), e.Hi())
  {
    if e.N() < 2 {
      assert e.data in e.Hits();
    }
  }

  lemma JoinFramed(c: Event, e: Event)
    requires c.Framed()
    ensures c.Join(e).Framed()
    ensures c.Join(e).events == c.Hits() + e.Hits() && c.Join(e).Hits() == c.Hits() + e.Hits()
  {
    var p := c.Promote();
    assert p.events == c.Hits();
    assert p.Tight() by {
      if c.N() < 2 {
        assert c.data in p.events;
      }
    }
    ExtendAllAppends(p, e.Hits());
    ExtendAllTight(p, e.Hits());
  }

  // Joining two well-formed events, single or combined, gives a combined event
  // with both bags of hits whose interval is the hull of the two intervals.
  lemma JoinLaw(c: Event, e: Event)
    requires c.Framed() && e.Framed()
    ensures c.Join(e).Framed()
    ensures c.Join(e).events == c.Hits() + e.Hits() && c.Join(e).Hits() == c.Hits() + e.Hits()
    ensures c.Join(e).Lo() == Min(c.Lo(), e.Lo())
    ensures c.Join(e).Hi() == Max(c.Hi(), e.Hi())
  {
    var j := c.Join(e);
    JoinFramed(c, e);
    FramedHull(c);
    FramedHull(e);
    FramedHull(j);
    HullConcat(c.Hits(), c.Lo(), c.Hi(), e.Hits(), e.Lo(), e.Hi());
    HullUnique(j.Hits(), j.Lo(), j.Hi(), Min(c.Lo(), e.Lo()), Max(c.Hi(), e.Hi()));
  }
}
