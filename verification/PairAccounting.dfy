// What an event of several hits does to the histograms of the pairs of stations.

module PairAccounting {
  import opened Basics
  import opened Events
  import opened Histogram
  import opened UpperMatrix

  const BINS: nat := 2000
  const INT32_MIN: int := -0x8000_0000

  // The value of a 64-bit difference after the cast to 32 bits.
  function Wrap32(x: int): (r: int)
    ensures -0x8000_0000 <= r < 0x8000_0000 && (r - x) % 0x1_0000_0000 == 0
    ensures -0x8000_0000 <= x < 0x8000_0000 ==> r == x
  {
    (x - INT32_MIN) % 0x1_0000_0000 + INT32_MIN
  }

  datatype Pair = Pair(first: nat, second: nat, hist: Hist)

  const BLANK: Pair := Pair(0, 0, Hist(0, 0, 0, seq(BINS, _ => 0)))

  // The empty histogram of a pair whose bins are `width` ns wide.
  function PairHist(width: nat): (h: Hist)
    requires 1 <= width <= 100
    ensures h.Proper() && h.width == width && |h.bins| == 2000
    ensures h.lower == -1000 * width && h.upper == 1000 * width
    ensures forall m :: 0 <= m < |h.bins| ==> h.bins[m] == 0
  {
    Empty(BINS, width * -1000, width * 1000)
  }

  // What a pair of hits adds to its histogram: the time of the station with the
  // smaller hash minus that of the other.
  function Delta(a: Data, b: Data): int {
    if b.hash > a.hash then Wrap32(a.start - b.start) else Wrap32(b.start - a.start)
  }

  // --- the list of stations and the packed cells, as values

  type Widths = w: (nat, nat) -> nat | forall g, h :: 1 <= w(g, h) <= 100 witness ((g: nat, h: nat) => 1)

  ghost predicate NoneTwice(s: seq<nat>) {
    forall i, j :: 0 <= i < j < |s| ==> s[i] != s[j]
  }

  // The matrix is aligned with the list of stations: cell (x, y) belongs to the
  // stations x and y.
  ghost predicate Aligned(stations: seq<nat>, cells: seq<Pair>) {
    && Packs(cells, |stations|)
    && NoneTwice(stations)
    && forall x: nat, y: nat :: y < x < |stations| ==> Belongs(Cell(cells, |stations|, x, y), stations[x], stations[y])
  }

  ghost predicate Belongs(p: Pair, g: nat, h: nat) {
    p.first == g && p.second == h && p.hist.Proper()
  }

  // A station has been appended, with an empty histogram for each of its pairs.
  ghost predicate Grown(stations: seq<nat>, cells: seq<Pair>, hash: nat, w: Widths, all: seq<nat>, longer: seq<Pair>) {
    && all == stations + [hash] && Packs(cells, |stations|) && Packs(longer, |all|)
    && forall x: nat, y: nat :: y < x < |all| ==>
         Cell(longer, |all|, x, y) ==
         if x < |stations| then Cell(cells, |stations|, x, y) else Pair(all[x], all[y], PairHist(w(all[x], all[y])))
  }

  lemma GrownAligned(stations: seq<nat>, cells: seq<Pair>, hash: nat, w: Widths, all: seq<nat>, longer: seq<Pair>)
    requires Aligned(stations, cells) && hash !in stations && Grown(stations, cells, hash, w, all, longer)
    ensures Aligned(all, longer)
  {
    forall x: nat, y: nat | y < x < |all| ensures Belongs(Cell(longer, |all|, x, y), all[x], all[y]) {
      if x < |stations| {
        assert Belongs(Cell(cells, |stations|, x, y), stations[x], stations[y]);
      }
    }
  }

  // A value has been added to the histogram of cell (c, d).
  ghost predicate Recorded(cells: seq<Pair>, n: nat, c: nat, d: nat, value: int, after: seq<Pair>) {
    && Packs(cells, n) && Packs(after, n) && d < c < n && Cell(cells, n, c, d).hist.Proper()
    && forall x: nat, y: nat :: y < x < n ==>
         Cell(after, n, x, y) ==
         if x == c && y == d then Cell(cells, n, c, d).(hist := Cell(cells, n, c, d).hist.Added(value))
         else Cell(cells, n, x, y)
  }

  lemma RecordedAligned(stations: seq<nat>, cells: seq<Pair>, c: nat, d: nat, value: int, after: seq<Pair>)
    requires Aligned(stations, cells) && Recorded(cells, |stations|, c, d, value, after)
    ensures Aligned(stations, after)
  {
    forall x: nat, y: nat | y < x < |stations|
      ensures Belongs(Cell(after, |stations|, x, y), stations[x], stations[y])
    {
      assert Belongs(Cell(cells, |stations|, x, y), stations[x], stations[y]);
      assert Belongs(Cell(cells, |stations|, c, d), stations[c], stations[d]);
    }
  }

  // --- the stations an event brings

  function Looked(stations: seq<nat>, h: nat): seq<nat> {
    if h in stations then stations else stations + [h]
  }

  // The stations after each of the hits has been looked up.
  function Trail(stations: seq<nat>, hits: seq<Data>): (t: seq<seq<nat>>)
    ensures Follows(t, stations, hits)
    decreases |hits|
  {
    if hits == [] then [stations]
    else
      var rest := Trail(Looked(stations, hits[0].hash), hits[1..]);
      var t := [stations] + rest;
      assert forall k: nat :: k < |hits| ==> FoundNext(t, hits, k) by {
        forall k: nat | k < |hits| ensures FoundNext(t, hits, k) {
          if k > 0 {
            assert FoundNext(rest, hits[1..], k - 1);
          }
        }
      }
      t
  }

  predicate FoundNext(t: seq<seq<nat>>, hits: seq<Data>, k: nat)
    requires k < |hits| && |t| == |hits| + 1
  {
    t[k + 1] == Looked(t[k], hits[k].hash)
  }

  ghost predicate Follows(t: seq<seq<nat>>, stations: seq<nat>, hits: seq<Data>) {
    |t| == |hits| + 1 && t[0] == stations && forall k: nat :: k < |hits| ==> FoundNext(t, hits, k)
  }

  lemma {:induction false} TrailGrows(t: seq<seq<nat>>, stations: seq<nat>, hits: seq<Data>, j: nat, k: nat)
    requires Follows(t, stations, hits) && j <= k <= |hits|
    ensures t[j] <= t[k]
  {
    if j < k {
      TrailGrows(t, stations, hits, j, k - 1);
      assert FoundNext(t, hits, k - 1);
    }
  }

  lemma TrailHas(t: seq<seq<nat>>, stations: seq<nat>, hits: seq<Data>, i: nat, k: nat)
    requires Follows(t, stations, hits) && i < k <= |hits|
    ensures hits[i].hash in t[k]
  {
    assert FoundNext(t, hits, i);
    TrailGrows(t, stations, hits, i + 1, k);
    if hits[i].hash in t[i + 1] {
      var p :| 0 <= p < |t[i + 1]| && t[i + 1][p] == hits[i].hash;
      assert t[k][p] == hits[i].hash;
    }
  }

  // The event brings no other stations than those of its hits.
  lemma {:induction false} TrailOnly(t: seq<seq<nat>>, stations: seq<nat>, hits: seq<Data>, k: nat, h: nat)
    requires Follows(t, stations, hits) && k <= |hits| && h in t[k]
    ensures h in stations || exists i :: 0 <= i < k && hits[i].hash == h
  {
    if k > 0 {
      assert FoundNext(t, hits, k - 1);
      if h in t[k - 1] {
        TrailOnly(t, stations, hits, k - 1, h);
      }
    }
  }

  lemma {:induction false} TrailNoneTwice(t: seq<seq<nat>>, stations: seq<nat>, hits: seq<Data>, k: nat)
    requires Follows(t, stations, hits) && NoneTwice(stations) && k <= |hits|
    ensures NoneTwice(t[k])
  {
    if k > 0 {
      TrailNoneTwice(t, stations, hits, k - 1);
      assert FoundNext(t, hits, k - 1);
    }
  }

  // The place of a station in a list, or the end of the list.
  ghost function Place(s: seq<nat>, h: nat): (i: nat)
    ensures i <= |s| && (i < |s| <==> h in s) && (i < |s| ==> s[i] == h)
  {
    if h in s then
      var i: nat :| i < |s| && s[i] == h;
      i
    else |s|
  }

  lemma PlaceIs(s: seq<nat>, all: seq<nat>, i: nat)
    requires NoneTwice(all) && s <= all && i < |s|
    ensures Place(all, s[i]) == i
  {
    assert all[i] == s[i];
  }

  // --- the entries an event makes

  // A time difference for a cell.
  datatype Entry = Entry(cell: (nat, nat), value: int)

  // The cell that the source addresses for two stations: with one station twice, it is the
  // first cell of the next column.
  ghost function Target(all: seq<nat>, g: nat, h: nat): (nat, nat) {
    var p, q := Place(all, g), Place(all, h);
    if p == q then (p + 1, 0) else (Max(p, q), Min(p, q))
  }

  // What the pair of hits at i and j makes.
  ghost function EntryOf(all: seq<nat>, hits: seq<Data>, i: nat, j: nat): Entry
    requires i < j < |hits|
  {
    Entry(Target(all, hits[i].hash, hits[j].hash), Delta(hits[i], hits[j]))
  }

  // The pairs of n hits, row by row, that come before the pair i and j.
  function PairsBefore(n: nat, i: nat, j: nat): (ps: seq<(nat, nat)>)
    requires i <= n && j <= n
    ensures AllBelow(ps, n)
    decreases i, j
  {
    if j > i + 1 then PairsBefore(n, i, j - 1) + [(i, j - 1)]
    else if i == 0 then []
    else PairsBefore(n, i - 1, n)
  }

  predicate AllBelow(ps: seq<(nat, nat)>, n: nat) {
    forall p :: 0 <= p < |ps| ==> ps[p].0 < ps[p].1 < n
  }

  // What the given pairs of hits make.
  ghost function MadeOf(all: seq<nat>, hits: seq<Data>, ps: seq<(nat, nat)>): seq<Entry>
    requires AllBelow(ps, |hits|)
  {
    if ps == [] then []
    else
      var p := ps[|ps| - 1];
      MadeOf(all, hits, ps[..|ps| - 1]) + [EntryOf(all, hits, p.0, p.1)]
  }

  // What has been made when the pair at i and j comes next.
  ghost function Made(all: seq<nat>, hits: seq<Data>, i: nat, j: nat): seq<Entry>
    requires i <= |hits| && j <= |hits|
  {
    MadeOf(all, hits, PairsBefore(|hits|, i, j))
  }

  lemma MadeNext(all: seq<nat>, hits: seq<Data>, i: nat, j: nat)
    requires i < j < |hits|
    ensures Made(all, hits, i, j + 1) == Made(all, hits, i, j) + [EntryOf(all, hits, i, j)]
  {
    var ps := PairsBefore(|hits|, i, j);
    assert (ps + [(i, j)])[..|ps|] == ps;
  }

  // The values for one cell, in order.
  function Picked(es: seq<Entry>, cell: (nat, nat)): seq<int> {
    if es == [] then []
    else
      var e := es[|es| - 1];
      Picked(es[..|es| - 1], cell) + if e.cell == cell then [e.value] else []
  }

  lemma PickedOne(es: seq<Entry>, e: Entry, cell: (nat, nat))
    ensures Picked(es + [e], cell) == Picked(es, cell) + if e.cell == cell then [e.value] else []
  {
    assert (es + [e])[..|es|] == es;
  }

  lemma {:induction false} PickedNone(es: seq<Entry>, cell: (nat, nat))
    requires forall p :: 0 <= p < |es| ==> es[p].cell != cell
    ensures Picked(es, cell) == []
  {
    if es != [] {
      PickedNone(es[..|es| - 1], cell);
    }
  }

  // --- an event to be accounted for

  // An event to be accounted for, on given stations and cells. `trail` are the stations
  // after each lookup, and `made(i, j)` the entries when the pair at i and j comes next.
  datatype Task = Task(
    known: seq<nat>, cells: seq<Pair>, w: Widths, hits: seq<Data>,
    trail: seq<seq<nat>>, made: (nat, nat) -> seq<Entry>)
  {
    ghost predicate Sound() {
      && Aligned(known, cells) && Follows(trail, known, hits)
      && forall i: nat, j: nat :: i <= |hits| && j <= |hits| ==> MadeRight(i, j)
    }

    ghost predicate MadeRight(i: nat, j: nat)
      requires |trail| == |hits| + 1 && i <= |hits| && j <= |hits|
    {
      made(i, j) == Made(All(), hits, i, j)
    }

    // All stations after the event.
    function All(): seq<nat>
      requires |trail| == |hits| + 1
    {
      trail[|hits|]
    }

    // The stations when the pair at i and j is handled: all hits up to j have been looked
    // up, and in later rows all hits.
    function FoundFor(i: nat, j: nat): seq<nat>
      requires j <= |hits| && |trail| == |hits| + 1
    {
      trail[if i == 0 then j else |hits|]
    }

    // The histogram that cell (x, y) starts with.
    ghost function Before(x: nat, y: nat): (r: Hist)
      requires Sound() && y < x < |All()|
      ensures r.Proper()
    {
      if x < |known| then
        assert Belongs(Cell(cells, |known|, x, y), known[x], known[y]);
        Cell(cells, |known|, x, y).hist
      else PairHist(w(All()[x], All()[y]))
    }
  }

  ghost function TaskFor(stations: seq<nat>, cells: seq<Pair>, w: Widths, hits: seq<Data>): (k: Task)
    ensures Aligned(stations, cells) ==> k.Sound()
  {
    var t := Trail(stations, hits);
    Task(stations, cells, w, hits, t,
         (i: nat, j: nat) => if i <= |hits| && j <= |hits| then Made(t[|hits|], hits, i, j) else [])
  }

  // The histogram of cell (x, y) after the entries.
  ghost function Expected(k: Task, x: nat, y: nat, es: seq<Entry>): (h: Hist)
    requires k.Sound() && y < x < |k.All()|
    ensures h.Proper()
  {
    k.Before(x, y).AddedAll(Picked(es, (x, y)))
  }

  // The cells of the first n stations have got the entries.
  ghost predicate Holds(k: Task, es: seq<Entry>, n: nat, cells: seq<Pair>)
    requires k.Sound() && n <= |k.All()| && Packs(cells, n)
  {
    forall x: nat, y: nat :: y < x < n ==> Cell(cells, n, x, y).hist == Expected(k, x, y, es)
  }

  // The cells have got the entries; none is for a station that has not been added.
  ghost predicate Reached(k: Task, es: seq<Entry>, stations: seq<nat>, cells: seq<Pair>) {
    && k.Sound() && Aligned(stations, cells) && k.known <= stations <= k.All()
    && Holds(k, es, |stations|, cells)
    && Below(es, |stations|)
  }

  ghost predicate Below(es: seq<Entry>, n: nat) {
    forall p :: 0 <= p < |es| ==> es[p].cell.0 < n
  }

  lemma ReachedStart(k: Task)
    requires k.Sound()
    ensures Reached(k, [], k.known, k.cells)
  {
    TrailGrows(k.trail, k.known, k.hits, 0, |k.hits|);
  }

  lemma ReachedGrown(k: Task, es: seq<Entry>, stations: seq<nat>, cells: seq<Pair>, hash: nat,
                     all: seq<nat>, longer: seq<Pair>)
    requires Reached(k, es, stations, cells)
    requires hash !in stations && Grown(stations, cells, hash, k.w, all, longer) && all <= k.All()
    ensures Reached(k, es, all, longer)
  {
    GrownAligned(stations, cells, hash, k.w, all, longer);
    forall x: nat, y: nat | y < x < |all| ensures Cell(longer, |all|, x, y).hist == Expected(k, x, y, es) {
      if x < |stations| {
        assert Cell(longer, |all|, x, y) == Cell(cells, |stations|, x, y);
      } else {
        assert all[x] == k.All()[x] && all[y] == k.All()[y];
        PickedNone(es, (x, y));
      }
    }
  }

  // Recording an entry.
  lemma ReachedRecorded(k: Task, es: seq<Entry>, stations: seq<nat>, cells: seq<Pair>, e: Entry, after: seq<Pair>)
    requires Reached(k, es, stations, cells)
    requires e.cell.1 < e.cell.0 < |stations|
    requires Recorded(cells, |stations|, e.cell.0, e.cell.1, e.value, after)
    ensures Reached(k, es + [e], stations, after)
  {
    RecordedAligned(stations, cells, e.cell.0, e.cell.1, e.value, after);
    HoldsRecorded(k, es, |stations|, cells, e, after);
  }

  lemma HoldsRecorded(k: Task, es: seq<Entry>, n: nat, cells: seq<Pair>, e: Entry, after: seq<Pair>)
    requires k.Sound() && n <= |k.All()| && Packs(cells, n) && Holds(k, es, n, cells)
    requires e.cell.1 < e.cell.0 < n && Recorded(cells, n, e.cell.0, e.cell.1, e.value, after)
    ensures Holds(k, es + [e], n, after)
  {
    var more := es + [e];
    forall x: nat, y: nat | y < x < n ensures Cell(after, n, x, y).hist == Expected(k, x, y, more) {
      ExpectedOne(k, x, y, es, e);
      assert Cell(cells, n, x, y).hist == Expected(k, x, y, es);
    }
  }

  lemma ExpectedOne(k: Task, x: nat, y: nat, es: seq<Entry>, e: Entry)
    requires k.Sound() && y < x < |k.All()|
    ensures Expected(k, x, y, es + [e])
         == if e.cell == (x, y) then Expected(k, x, y, es).Added(e.value) else Expected(k, x, y, es)
  {
    PickedOne(es, e, (x, y));
    k.Before(x, y).AddedAllOne(Picked(es, (x, y)), e.value);
    assert Picked(es, (x, y)) + [] == Picked(es, (x, y));
  }

  // What an event does to the histograms: each cell gets one entry for each pair of hits
  // that is sent to it.
  ghost predicate Accounted(k: Task, stations: seq<nat>, cells: seq<Pair>) {
    && k.Sound() && stations == k.All() && Aligned(stations, cells)
    && Holds(k, k.made(|k.hits|, 0), |stations|, cells) && Below(k.made(|k.hits|, 0), |stations|)
  }

  // --- where the source throws

  // The pair at i and j is of one station, which is the last one at that time.
  predicate Throws(k: Task, i: nat, j: nat)
    requires i < j < |k.hits| && |k.trail| == |k.hits| + 1
  {
    var s := k.FoundFor(i, j + 1);
    k.hits[i].hash == k.hits[j].hash && s != [] && s[|s| - 1] == k.hits[i].hash
  }

  predicate RowThrows(k: Task, i: nat, m: nat)
    requires m <= |k.hits| && |k.trail| == |k.hits| + 1
  {
    exists j :: i < j < m && Throws(k, i, j)
  }

  predicate SomeThrows(k: Task, n: nat)
    requires |k.trail| == |k.hits| + 1
  {
    exists i :: 0 <= i < n && RowThrows(k, i, |k.hits|)
  }

  lemma ThrowsIff(k: Task, i: nat, j: nat, s: seq<nat>, first: nat, second: nat)
    requires i < j < |k.hits| && |k.trail| == |k.hits| + 1 && s == k.FoundFor(i, j + 1) && NoneTwice(s)
    requires first < |s| && second < |s| && s[first] == k.hits[i].hash && s[second] == k.hits[j].hash
    ensures Throws(k, i, j) <==> first == second == |s| - 1
  {
  }

  lemma RowThrowsNext(k: Task, i: nat, j: nat)
    requires i < j < |k.hits| && |k.trail| == |k.hits| + 1 && !RowThrows(k, i, j)
    ensures RowThrows(k, i, j + 1) <==> Throws(k, i, j)
    ensures Throws(k, i, j) ==> RowThrows(k, i, |k.hits|)
  {
  }

  lemma SomeThrowsNext(k: Task, i: nat)
    requires i < |k.hits| && |k.trail| == |k.hits| + 1 && !SomeThrows(k, i)
    ensures SomeThrows(k, i + 1) <==> RowThrows(k, i, |k.hits|)
    ensures RowThrows(k, i, |k.hits|) ==> SomeThrows(k, |k.hits|)
    ensures i + 1 == |k.hits| ==> !SomeThrows(k, |k.hits|)
  {
  }

  lemma {:induction false} NothingFound(stations: seq<nat>, hits: seq<Data>, m: nat)
    requires m <= |hits| && forall i :: 0 <= i < |hits| ==> hits[i].hash in stations
    ensures Trail(stations, hits)[m] == stations
  {
    if m > 0 {
      NothingFound(stations, hits, m - 1);
      assert FoundNext(Trail(stations, hits), hits, m - 1);
    }
  }

  lemma SameThrows(k: Task, s: seq<nat>)
    requires |k.trail| == |k.hits| + 1 && (forall m :: 0 <= m <= |k.hits| ==> k.trail[m] == s)
    requires |k.hits| > 0 ==> s != []
    ensures SomeThrows(k, |k.hits|) <==>
            exists i, j :: 0 <= i < j < |k.hits| && k.hits[i].hash == k.hits[j].hash == s[|s| - 1]
  {
    if i, j :| 0 <= i < j < |k.hits| && k.hits[i].hash == k.hits[j].hash == s[|s| - 1] {
      assert Throws(k, i, j) && RowThrows(k, i, |k.hits|);
    }
    if SomeThrows(k, |k.hits|) {
      var i :| 0 <= i < |k.hits| && RowThrows(k, i, |k.hits|);
      var j :| i < j < |k.hits| && Throws(k, i, j);
      assert k.hits[i].hash == k.hits[j].hash;
    }
  }

  // If all stations are known, some pair throws exactly if two hits are of the last one.
  lemma KnownThrowIff(stations: seq<nat>, cells: seq<Pair>, w: Widths, hits: seq<Data>)
    requires forall i :: 0 <= i < |hits| ==> hits[i].hash in stations
    ensures SomeThrows(TaskFor(stations, cells, w, hits), |hits|) <==>
            exists i, j :: 0 <= i < j < |hits| && hits[i].hash == hits[j].hash == stations[|stations| - 1]
  {
    var k := TaskFor(stations, cells, w, hits);
    forall m | 0 <= m <= |hits| ensures k.trail[m] == stations {
      NothingFound(stations, hits, m);
    }
    SameThrows(k, stations);
  }

  // --- the course of the double loop over the hits

  // The pairs before positions i and j have been handled, and all hits before m looked up.
  ghost predicate Handled(k: Task, i: nat, j: nat, m: nat, stations: seq<nat>, cells: seq<Pair>)
    requires i <= |k.hits| && j <= |k.hits| && m <= |k.hits|
  {
    && |k.trail| == |k.hits| + 1 && stations == k.FoundFor(i, m)
    && Reached(k, k.made(i, j), stations, cells)
  }

  lemma HandledStart(k: Task)
    requires k.Sound() && |k.hits| > 0
    ensures Handled(k, 0, 1, 0, k.known, k.cells)
  {
    assert k.MadeRight(0, 1);
    ReachedStart(k);
  }

  // A hit has been looked up.
  lemma HandledLookup(k: Task, i: nat, j: nat, m: nat, stations: seq<nat>, cells: seq<Pair>,
                      all: seq<nat>, longer: seq<Pair>)
    requires i <= |k.hits| && j <= |k.hits| && m < |k.hits| && Handled(k, i, j, m, stations, cells)
    requires k.hits[m].hash in stations ==> all == stations && longer == cells
    requires k.hits[m].hash !in stations ==> all == stations + [k.hits[m].hash]
                                             && Grown(stations, cells, k.hits[m].hash, k.w, all, longer)
    ensures Handled(k, i, j, m + 1, all, longer)
  {
    assert FoundNext(k.trail, k.hits, m);
    if k.hits[m].hash !in stations {
      if i > 0 {
        TrailHas(k.trail, k.known, k.hits, m, |k.hits|);
      }
      TrailGrows(k.trail, k.known, k.hits, m + 1, |k.hits|);
      ReachedGrown(k, k.made(i, j), stations, cells, k.hits[m].hash, all, longer);
    }
  }

  lemma EntryIs(k: Task, i: nat, j: nat, s: seq<nat>, first: nat, second: nat)
    requires k.Sound() && s <= k.All() && i < j < |k.hits| && first < |s| && second < |s|
    requires s[first] == k.hits[i].hash && s[second] == k.hits[j].hash
    ensures EntryOf(k.All(), k.hits, i, j) ==
            Entry(if first == second then (first + 1, 0) else (Max(first, second), Min(first, second)),
                  Delta(k.hits[i], k.hits[j]))
  {
    TrailNoneTwice(k.trail, k.known, k.hits, |k.hits|);
    PlaceIs(s, k.All(), first);
    PlaceIs(s, k.All(), second);
  }

  // A pair has been recorded.
  lemma HandledRecord(k: Task, i: nat, j: nat, stations: seq<nat>, cells: seq<Pair>, after: seq<Pair>)
    requires i < j < |k.hits| && Handled(k, i, j, j + 1, stations, cells)
    requires var e := EntryOf(k.All(), k.hits, i, j);
             e.cell.1 < e.cell.0 < |stations|
             && Recorded(cells, |stations|, e.cell.0, e.cell.1, e.value, after)
    ensures Handled(k, i, j + 1, j + 1, stations, after)
  {
    assert k.MadeRight(i, j) && k.MadeRight(i, j + 1);
    MadeNext(k.All(), k.hits, i, j);
    ReachedRecorded(k, k.made(i, j), stations, cells, EntryOf(k.All(), k.hits, i, j), after);
  }

  lemma RowIsHandled(k: Task, i: nat, j: nat, es: seq<Entry>, stations: seq<nat>, cells: seq<Pair>)
    requires i <= |k.hits| && j == |k.hits| && Reached(k, es, stations, cells)
    requires es == k.made(i, j) && stations == k.FoundFor(i, j)
    ensures Handled(k, i, |k.hits|, |k.hits|, stations, cells)
  {
  }

  lemma NextRow(k: Task, i: nat, j: nat)
    requires k.Sound() && i < |k.hits| && j <= i + 2 && j <= |k.hits|
    ensures k.made(i + 1, j) == k.made(i, |k.hits|)
  {
    assert k.MadeRight(i, |k.hits|) && k.MadeRight(i + 1, j);
  }

  lemma HandledRow(k: Task, i: nat, stations: seq<nat>, cells: seq<Pair>)
    requires i + 1 < |k.hits| && Handled(k, i, |k.hits|, |k.hits|, stations, cells)
    ensures i + 2 <= |k.hits| && Handled(k, i + 1, i + 2, i + 1, stations, cells)
  {
    NextRow(k, i, i + 2);
  }

  lemma HandledEnd(k: Task, i: nat, stations: seq<nat>, cells: seq<Pair>)
    requires i + 1 == |k.hits| && Handled(k, i, |k.hits|, |k.hits|, stations, cells)
    ensures Accounted(k, stations, cells)
  {
    NextRow(k, i, 0);
  }

  // A pair of hit i has thrown: the entries of the pairs before have been made.
  ghost predicate Interrupted(k: Task, i: nat, stations: seq<nat>, cells: seq<Pair>)
    requires i <= |k.hits| && |k.trail| == |k.hits| + 1
  {
    exists j :: i < j < |k.hits| && Throws(k, i, j) && Handled(k, i, j, j + 1, stations, cells)
  }

  ghost predicate SomeInterrupted(k: Task, stations: seq<nat>, cells: seq<Pair>)
    requires |k.trail| == |k.hits| + 1
  {
    exists i :: 0 <= i < |k.hits| && Interrupted(k, i, stations, cells)
  }

  lemma IsInterrupted(k: Task, i: nat, j: nat, stations: seq<nat>, cells: seq<Pair>)
    requires i < j < |k.hits| && |k.trail| == |k.hits| + 1
    requires Throws(k, i, j) && Handled(k, i, j, j + 1, stations, cells)
    ensures Interrupted(k, i, stations, cells)
  {
  }
}
