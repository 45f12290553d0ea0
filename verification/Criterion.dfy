// The coincidence criterion of the filter.

module Criterion {
  import opened Events

  const TIME: int := 100000
  const MAXIMUM_FALSE: real := -3.5

  function Distance(a: int, b: int): int {
    if a < b then b - a else a - b
  }

  function Compare(t1: int, t2: int): real {
    if Distance(t1, t2) <= TIME then 1.0 else -1.0
  }

  // Scores all four pairs of endpoints.
  function Apply(first: Event, second: Event): real {
    var t11, t21 := first.data.start, second.data.start;
    var t12 := if first.N() > 1 then first.data.end else first.data.start;
    var t22 := if second.N() > 1 then second.data.end else second.data.start;
    Compare(t11, t21) + Compare(t11, t22) + Compare(t12, t21) + Compare(t12, t22)
  }

  predicate Coincident(first: Event, second: Event) {
    MAXIMUM_FALSE < Apply(first, second)
  }

  predicate Close(a: int, b: int) {
    Distance(a, b) <= TIME
  }

  predicate Touching(a: Event, b: Event) {
    Close(a.Lo(), b.Lo()) || Close(a.Lo(), b.Hi()) || Close(a.Hi(), b.Lo()) || Close(a.Hi(), b.Hi())
  }

  // The score passes exactly when some endpoint of one event is close to some
  // endpoint of the other, so the relation is symmetric.
  lemma CoincidentMeansTouching(a: Event, b: Event)
    ensures Coincident(a, b) <==> Touching(a, b)
    ensures Coincident(a, b) <==> Coincident(b, a)
  {
  }

  // The shared-detector test between a buffered event and an arriving one.
  predicate CheckHash(d: Data, e: Event) {
    if e.N() < 2 then d.hash == e.data.hash else exists x | x in e.events :: x.hash == d.hash
  }

  predicate Skipped(buffered: Event, arriving: Event) {
    if buffered.N() > 1 then exists d | d in buffered.events :: CheckHash(d, arriving)
    else if arriving.N() > 1 then exists d | d in arriving.events :: CheckHash(d, buffered)
    else buffered.data.hash == arriving.data.hash
  }

  // Whatever branch is taken, an event is skipped exactly when the two share a detector.
  lemma SkippedMeansShared(c: Event, e: Event)
    ensures Skipped(c, e) <==> exists a, b :: a in c.Hits() && b in e.Hits() && a.hash == b.hash
    ensures Skipped(c, e) <==> Skipped(e, c)
  {
    SkippedOneWay(c, e);
    SkippedOneWay(e, c);
    if exists a, b :: a in c.Hits() && b in e.Hits() && a.hash == b.hash {
      var a, b :| a in c.Hits() && b in e.Hits() && a.hash == b.hash;
      assert b in e.Hits() && a in c.Hits() && b.hash == a.hash;
    }
  }

  lemma SkippedOneWay(c: Event, e: Event)
    ensures Skipped(c, e) <==> exists a, b :: a in c.Hits() && b in e.Hits() && a.hash == b.hash
  {
    if Skipped(c, e) {
      if c.N() > 1 {
        var d :| d in c.events && CheckHash(d, e);
        var x :| x in e.Hits() && x.hash == d.hash;
        assert d in c.Hits();
      } else if e.N() > 1 {
        var d :| d in e.events && CheckHash(d, c);
        assert c.data in c.Hits() && d in e.Hits();
      } else {
        assert c.data in c.Hits() && e.data in e.Hits();
      }
    }
    if exists a, b :: a in c.Hits() && b in e.Hits() && a.hash == b.hash {
      var a, b :| a in c.Hits() && b in e.Hits() && a.hash == b.hash;
      if c.N() > 1 {
        assert CheckHash(a, e);
      } else if e.N() > 1 {
        assert CheckHash(b, c);
      }
    }
  }
}
