// Histograms of time differences for every pair of stations.

module StationCoincidence {
  import opened Basics
  import opened Events
  import opened UpperMatrix
  import opened PairAccounting

  class StationCoincidence {
    var stations: seq<nat>
    const data: Matrix<Pair>
    var saving: bool
    // The bin width for two stations, from their distance.
    const widthOf: Widths

    ghost predicate Valid()
      reads this, data
    {
      data.columns == |stations| && Aligned(stations, data.elements)
    }

    constructor (widthOf: Widths)
      ensures Valid() && stations == [] && fresh(data)
    {
      stations, saving := [], false;
      data := new Matrix(0, BLANK);
      this.widthOf := widthOf;
    }

    // Adds a station and an empty histogram for each of its pairs.
    method AddStation(hash: nat)
      requires Valid() && hash !in stations
      modifies this`stations, data
      ensures Valid() && stations == old(stations) + [hash]
      ensures Grown(old(stations), old(data.elements), hash, widthOf, stations, data.elements)
    {
      ghost var was, n := data.elements, |stations|;
      var x := data.Increase();
      stations := stations + [hash];
      var y := 0;
      while y < x
        invariant 0 <= y <= x && data.Valid() && data.columns == |stations|
        invariant stations == old(stations) + [hash]
        invariant forall a: nat, b: nat :: b < a < x ==> data.At(a, b) == Cell(was, n, a, b)
        invariant forall b: nat :: b < y ==>
                    data.At(x, b) == Pair(hash, stations[b], PairHist(widthOf(hash, stations[b])))
      {
        data.Emplace(x, y, Pair(hash, stations[y], PairHist(widthOf(hash, stations[y]))));
        y := y + 1;
      }
      forall a: nat, b: nat | b < a < |stations|
        ensures Cell(data.elements, |stations|, a, b) ==
                if a < n then Cell(was, n, a, b)
                else Pair(stations[a], stations[b], PairHist(widthOf(stations[a], stations[b])))
      {
        assert Cell(data.elements, |stations|, a, b) == data.At(a, b);
      }
      GrownAligned(old(stations), was, hash, widthOf, stations, data.elements);
    }

    // The index of a station, which is added if it is not there yet.
    method Lookup(hash: nat) returns (index: nat)
      requires Valid()
      modifies this`stations, data
      ensures Valid() && index < |stations| && stations[index] == hash
      ensures hash in old(stations) ==> stations == old(stations) && data.elements == old(data.elements)
      ensures hash !in old(stations) ==>
                stations == old(stations) + [hash]
                && Grown(old(stations), old(data.elements), hash, widthOf, stations, data.elements)
    {
      index := 0;
      while index < |stations| && stations[index] != hash
        invariant 0 <= index <= |stations| && forall k :: 0 <= k < index ==> stations[k] != hash
      {
        index := index + 1;
      }
      if index == |stations| {
        AddStation(hash);
        index := |stations| - 1;
      }
    }

    // Adds a value to the histogram of two stations. With the same station twice the
    // offset is that of the first cell of the next column, or past the end; `ok` is
    // false where the source throws.
    method Record(first: nat, second: nat, value: int) returns (ok: bool)
      requires Valid() && first < |stations| && second < |stations|
      modifies data`elements
      ensures Valid() && (ok <==> first != second || first + 1 < |stations|)
      ensures ok ==> Recorded(old(data.elements), |stations|,
                              if first == second then first + 1 else Max(first, second),
                              if first == second then 0 else Min(first, second), value, data.elements)
      ensures !ok ==> data.elements == old(data.elements)
    {
      var p := ComputePosition(Max(first, second), Min(first, second));
      ghost var c, d := if first == second then first + 1 else Max(first, second),
                        if first == second then 0 else Min(first, second);
      assert p == Position(c, d);
      if c < |stations| {
        PositionBijective(c, d, |stations|);
      } else {
        TriGrows(|stations|, c);
      }
      if p >= |data.elements| {
        return false;
      }
      ghost var was := data.elements;
      assert Belongs(Cell(was, |stations|, c, d), stations[c], stations[d]);
      data.elements := data.elements[p := data.elements[p].(hist := data.elements[p].hist.Added(value))];
      CellUpdate(was, |stations|, c, d, data.elements[p], data.elements);
      RecordedAligned(stations, was, c, d, value, data.elements);
      return true;
    }

    // Looks up the station of hit m.
    method LookupHit(hits: seq<Data>, i: nat, j: nat, m: nat, ghost k: Task) returns (index: nat)
      requires Valid() && hits == k.hits && k.w == widthOf && i <= |hits| && j <= |hits| && m < |hits|
      requires Handled(k, i, j, m, stations, data.elements)
      modifies this`stations, data
      ensures Valid() && index < |stations| && stations[index] == hits[m].hash && old(stations) <= stations
      ensures Handled(k, i, j, m + 1, stations, data.elements)
    {
      ghost var s, cells := stations, data.elements;
      index := Lookup(hits[m].hash);
      HandledLookup(k, i, j, m, s, cells, stations, data.elements);
    }

    method RecordHits(a: Data, b: Data, first: nat, second: nat) returns (ok: bool)
      requires Valid() && first < |stations| && second < |stations|
      modifies data`elements
      ensures Valid() && (ok <==> first != second || first + 1 < |stations|)
      ensures ok ==> Recorded(old(data.elements), |stations|,
                              if first == second then first + 1 else Max(first, second),
                              if first == second then 0 else Min(first, second), Delta(a, b), data.elements)
      ensures !ok ==> data.elements == old(data.elements)
    {
      if b.hash > a.hash {
        ok := Record(first, second, Wrap32(a.start - b.start));
      } else {
        ok := Record(first, second, Wrap32(b.start - a.start));
      }
    }

    // Handles the pair at positions i and j.
    method Handle(hits: seq<Data>, i: nat, j: nat, first: nat, ghost k: Task) returns (ok: bool)
      requires Valid() && hits == k.hits && k.w == widthOf && i < j < |hits|
      requires first < |stations| && stations[first] == hits[i].hash
      requires Handled(k, i, j, j, stations, data.elements)
      modifies this`stations, data
      ensures Valid() && first < |stations| && stations[first] == hits[i].hash
      ensures ok <==> !Throws(k, i, j)
      ensures if ok then Handled(k, i, j + 1, j + 1, stations, data.elements)
              else Handled(k, i, j, j + 1, stations, data.elements)
    {
      var second := LookupHit(hits, i, j, j, k);
      ghost var cells := data.elements;
      ThrowsIff(k, i, j, stations, first, second);
      EntryIs(k, i, j, stations, first, second);
      ok := RecordHits(hits[i], hits[j], first, second);
      if ok {
        HandledRecord(k, i, j, stations, cells, data.elements);
      }
    }

    // Handles the hit at position i with all later ones.
    method HandleRow(hits: seq<Data>, i: nat, ghost k: Task) returns (ok: bool)
      requires Valid() && hits == k.hits && k.w == widthOf && i + 1 < |hits|
      requires Handled(k, i, i + 1, i, stations, data.elements)
      modifies this`stations, data
      ensures Valid() && (ok <==> !RowThrows(k, i, |hits|))
      ensures ok ==> Handled(k, i, |hits|, |hits|, stations, data.elements)
      ensures !ok ==> Interrupted(k, i, stations, data.elements)
    {
      var first := LookupHit(hits, i, i + 1, i, k);
      ok := HandleRest(hits, i, first, k);
    }

    // Handles all pairs of the hit at position i with a later one.
    method HandleRest(hits: seq<Data>, i: nat, first: nat, ghost k: Task) returns (ok: bool)
      requires Valid() && hits == k.hits && k.w == widthOf && i + 1 < |hits|
      requires first < |stations| && stations[first] == hits[i].hash
      requires Handled(k, i, i + 1, i + 1, stations, data.elements)
      modifies this`stations, data
      ensures Valid() && (ok <==> !RowThrows(k, i, |hits|))
      ensures ok ==> Handled(k, i, |hits|, |hits|, stations, data.elements)
      ensures !ok ==> Interrupted(k, i, stations, data.elements)
    {
      var j := i + 1;
      ghost var es := k.made(i, i + 1);
      while j < |hits|
        invariant i < j <= |hits| && Valid() && first < |stations| && stations[first] == hits[i].hash
        invariant stations == k.FoundFor(i, j) && es == k.made(i, j) && Reached(k, es, stations, data.elements)
        invariant !RowThrows(k, i, j)
      {
        RowThrowsNext(k, i, j);
        ok := Handle(hits, i, j, first, k);
        if !ok {
          IsInterrupted(k, i, j, stations, data.elements);
          return;
        }
        es := k.made(i, j + 1);
        j := j + 1;
      }
      RowIsHandled(k, i, j, es, stations, data.elements);
      ok := true;
    }

    // An event of at least two hits adds its stations and makes one entry for each pair of
    // its hits, in the cell that the pair is sent to. `ok` is false exactly where the source
    // throws; then the entries of the pairs before have been made.
    method GetEvent(e: Event) returns (ok: bool)
      requires Valid()
      modifies this`stations, data
      ensures Valid() && old(stations) <= stations
      ensures e.N() < 2 || saving ==> ok && stations == old(stations) && data.elements == old(data.elements)
      ensures e.N() >= 2 && !saving ==>
                var k := TaskFor(old(stations), old(data.elements), widthOf, e.events);
                && (ok <==> !SomeThrows(k, |e.events|))
                && if ok then Accounted(k, stations, data.elements)
                   else SomeInterrupted(k, stations, data.elements)
    {
      if e.N() < 2 || saving {
        return true;
      }
      ok := HandleAll(e.events, TaskFor(stations, data.elements, widthOf, e.events));
    }

    // Handles all pairs of hits.
    method HandleAll(hits: seq<Data>, ghost k: Task) returns (ok: bool)
      requires Valid() && |hits| >= 2 && hits == k.hits && k.w == widthOf
      requires k.Sound() && stations == k.known && data.elements == k.cells
      modifies this`stations, data
      ensures Valid() && k.known <= stations && (ok <==> !SomeThrows(k, |hits|))
      ensures ok ==> Accounted(k, stations, data.elements)
      ensures !ok ==> SomeInterrupted(k, stations, data.elements)
    {
      HandledStart(k);
      var i := 0;
      ghost var es := k.made(0, 1);
      while i < |hits| - 1
        invariant 0 <= i <= |hits| - 1 && Valid() && !SomeThrows(k, i)
        invariant stations == k.FoundFor(i, i) && es == k.made(i, i + 1) && Reached(k, es, stations, data.elements)
      {
        SomeThrowsNext(k, i);
        ok := HandleRow(hits, i, k);
        if !ok {
          return;
        }
        HandledRow(k, i, stations, data.elements);
        es := k.made(i + 1, i + 2);
        i := i + 1;
      }
      SomeThrowsNext(k, i);
      HandledEnd(k, i, stations, data.elements);
      ok := true;
    }

    // Starts over with the given stations and empty histograms.
    method Reset(hashes: seq<nat>)
      requires forall i, j :: 0 <= i < j < |hashes| ==> hashes[i] != hashes[j]
      requires Valid()
      modifies this`stations, data
      ensures Valid() && stations == hashes
      ensures forall x: nat, y: nat :: y < x < |stations| ==>
                data.At(x, y) == Pair(stations[x], stations[y], PairHist(widthOf(stations[x], stations[y])))
    {
      stations := [];
      data.Reset();
      var i := 0;
      while i < |hashes|
        invariant 0 <= i <= |hashes| && Valid() && stations == hashes[..i]
        invariant forall x: nat, y: nat :: y < x < |stations| ==>
                    data.At(x, y) == Pair(stations[x], stations[y], PairHist(widthOf(stations[x], stations[y])))
      {
        ghost var before, cells := stations, data.elements;
        AddStation(hashes[i]);
        forall x: nat, y: nat | y < x < |stations|
          ensures data.At(x, y) == Pair(stations[x], stations[y], PairHist(widthOf(stations[x], stations[y])))
        {
          assert data.At(x, y) == Cell(data.elements, |stations|, x, y);
          if x < |before| {
            assert data.At(x, y) == Cell(cells, |before|, x, y);
          }
        }
        i := i + 1;
      }
    }
  }
}
