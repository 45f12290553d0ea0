// What the entries of an event mean for each pair of stations.

module PairLaws {
  import opened Basics
  import opened Events
  import opened Duplicates
  import opened Histogram
  import opened UpperMatrix
  import opened PairAccounting

  // The differences of those of the pairs of hits that are of two stations.
  function Between(hits: seq<Data>, g: nat, h: nat, ps: seq<(nat, nat)>): seq<int>
    requires AllBelow(ps, |hits|)
  {
    if ps == [] then []
    else
      var (i, j) := ps[|ps| - 1];
      Between(hits, g, h, ps[..|ps| - 1]) + if OfBoth(hits[i], hits[j], g, h) then [Delta(hits[i], hits[j])] else []
  }

  predicate OfBoth(a: Data, b: Data, g: nat, h: nat) {
    (a.hash == g && b.hash == h) || (a.hash == h && b.hash == g)
  }

  // All pairs of n hits.
  function AllPairs(n: nat): (ps: seq<(nat, nat)>)
    ensures AllBelow(ps, n)
  {
    PairsBefore(n, n, 0)
  }

  // The differences that go astray to cell (x, y): those of the station before x alone.
  function Astray(all: seq<nat>, hits: seq<Data>, x: nat, y: nat, ps: seq<(nat, nat)>): seq<int>
    requires y < x < |all| && AllBelow(ps, |hits|)
  {
    if y == 0 then Between(hits, all[x - 1], all[x - 1], ps) else []
  }

  // Whether a value goes to bin b.
  function One(f: Hist, more: bool, v: int, b: nat): nat
    requires f.Proper()
  {
    if more && f.Accepts(v) && f.Position(v) == b then 1 else 0
  }

  lemma GoingOne(f: Hist, values: seq<int>, more: bool, v: int, b: nat)
    requires f.Proper()
    ensures f.Going(values + if more then [v] else [], b) == f.Going(values, b) + One(f, more, v, b)
  {
    if more {
      assert (values + [v])[..|values|] == values;
    } else {
      assert values + [] == values;
    }
  }

  // How the entries for cell (x, y) divide.
  lemma {:induction false} PickedGoing(all: seq<nat>, hits: seq<Data>, x: nat, y: nat, ps: seq<(nat, nat)>,
                                       f: Hist, b: nat)
    requires NoneTwice(all) && (forall m :: 0 <= m < |hits| ==> hits[m].hash in all)
    requires y < x < |all| && AllBelow(ps, |hits|) && f.Proper()
    ensures f.Going(Picked(MadeOf(all, hits, ps), (x, y)), b)
         == f.Going(Between(hits, all[x], all[y], ps), b) + f.Going(Astray(all, hits, x, y, ps), b)
  {
    if ps != [] {
      var init, i, j := ps[..|ps| - 1], ps[|ps| - 1].0, ps[|ps| - 1].1;
      var e := EntryOf(all, hits, i, j);
      PickedGoing(all, hits, x, y, init, f, b);
      TargetIs(all, hits[i].hash, hits[j].hash, x, y);
      PickedOne(MadeOf(all, hits, init), e, (x, y));
      GoingOne(f, Picked(MadeOf(all, hits, init), (x, y)), e.cell == (x, y), e.value, b);
      GoingOne(f, Between(hits, all[x], all[y], init), OfBoth(hits[i], hits[j], all[x], all[y]), e.value, b);
      GoingOne(f, Between(hits, all[x - 1], all[x - 1], init), OfBoth(hits[i], hits[j], all[x - 1], all[x - 1]),
               e.value, b);
    }
  }

  lemma TargetIs(all: seq<nat>, g: nat, h: nat, x: nat, y: nat)
    requires NoneTwice(all) && g in all && h in all && y < x < |all|
    ensures Target(all, g, h) == (x, y) <==>
            (g == all[x] && h == all[y]) || (g == all[y] && h == all[x]) || (y == 0 && g == h == all[x - 1])
    ensures !(y == 0 && g == h == all[x - 1] && ((g == all[x] && h == all[y]) || (g == all[y] && h == all[x])))
  {
    PlaceIs(all, all, x);
    PlaceIs(all, all, y);
    PlaceIs(all, all, x - 1);
  }

  lemma TaskFacts(k: Task)
    requires k.Sound()
    ensures NoneTwice(k.All()) && forall m :: 0 <= m < |k.hits| ==> k.hits[m].hash in k.All()
    ensures k.made(|k.hits|, 0) == MadeOf(k.All(), k.hits, AllPairs(|k.hits|))
  {
    TrailNoneTwice(k.trail, k.known, k.hits, |k.hits|);
    forall m | 0 <= m < |k.hits| ensures k.hits[m].hash in k.All() {
      TrailHas(k.trail, k.known, k.hits, m, |k.hits|);
    }
    assert k.MadeRight(|k.hits|, 0);
  }

  // The histogram of the stations of cell (x, y) with an entry for each pair of their hits.
  ghost function Right(k: Task, x: nat, y: nat): (f: Hist)
    requires k.Sound() && y < x < |k.All()|
    ensures f.Proper() && f.(bins := k.Before(x, y).bins) == k.Before(x, y)
  {
    k.Before(x, y).AddedAll(Between(k.hits, k.All()[x], k.All()[y], AllPairs(|k.hits|)))
  }

  ghost function Stray(k: Task, x: nat, y: nat): seq<int>
    requires k.Sound() && y < x < |k.All()|
  {
    Astray(k.All(), k.hits, x, y, AllPairs(|k.hits|))
  }

  // Each histogram gets an entry for each pair of hits of its two stations, and that of
  // cell (s + 1, 0) also one for each pair of hits of station s alone.
  lemma GeneralLaw(k: Task, stations: seq<nat>, cells: seq<Pair>, x: nat, y: nat)
    requires Accounted(k, stations, cells) && y < x < |stations|
    ensures Cell(cells, |stations|, x, y).hist == Right(k, x, y).AddedAll(Stray(k, x, y))
  {
    TaskFacts(k);
    var before, es, ps := k.Before(x, y), k.made(|k.hits|, 0), AllPairs(|k.hits|);
    var one, two := before.AddedAll(Picked(es, (x, y))), Right(k, x, y).AddedAll(Stray(k, x, y));
    assert Cell(cells, |stations|, x, y).hist == one;
    forall b | 0 <= b < |before.bins| ensures one.bins[b] == two.bins[b] {
      before.BinAfter(Picked(es, (x, y)), b);
      before.BinAfter(Between(k.hits, k.All()[x], k.All()[y], ps), b);
      Right(k, x, y).BinAfter(Stray(k, x, y), b);
      before.GoingSame(Right(k, x, y), Stray(k, x, y), b);
      PickedGoing(k.All(), k.hits, x, y, ps, before, b);
    }
    assert one.bins == two.bins;
  }

  // All histograms have exactly the entries of their two stations.
  ghost predicate AllRight(k: Task, stations: seq<nat>, cells: seq<Pair>)
    requires k.Sound() && stations == k.All() && Packs(cells, |stations|)
  {
    forall x: nat, y: nat :: y < x < |stations| ==> Cell(cells, |stations|, x, y).hist == Right(k, x, y)
  }

  // No difference of two hits of one station is accepted by the cell it goes to.
  ghost predicate Harmless(k: Task)
    requires k.Sound()
  {
    forall i, j :: 0 <= i < j < |k.hits| && k.hits[i].hash == k.hits[j].hash ==> PairHarmless(k, i, j)
  }

  ghost predicate PairHarmless(k: Task, i: nat, j: nat)
    requires k.Sound() && i < j < |k.hits|
  {
    var x := Place(k.All(), k.hits[i].hash) + 1;
    x < |k.All()| ==> !k.Before(x, 0).Accepts(Delta(k.hits[i], k.hits[j]))
  }

  lemma {:induction false} BetweenHas(hits: seq<Data>, g: nat, h: nat, ps: seq<(nat, nat)>, m: nat)
    requires AllBelow(ps, |hits|) && m < |ps| && OfBoth(hits[ps[m].0], hits[ps[m].1], g, h)
    ensures Delta(hits[ps[m].0], hits[ps[m].1]) in Between(hits, g, h, ps)
  {
    if m < |ps| - 1 {
      BetweenHas(hits, g, h, ps[..|ps| - 1], m);
    }
  }

  lemma {:induction false} BetweenFrom(hits: seq<Data>, g: nat, h: nat, ps: seq<(nat, nat)>, v: int)
    requires AllBelow(ps, |hits|) && v in Between(hits, g, h, ps)
    ensures exists m :: 0 <= m < |ps| && OfBoth(hits[ps[m].0], hits[ps[m].1], g, h)
                        && Delta(hits[ps[m].0], hits[ps[m].1]) == v
  {
    var n := |ps| - 1;
    if v in Between(hits, g, h, ps[..n]) {
      BetweenFrom(hits, g, h, ps[..n], v);
      var m :| 0 <= m < n && OfBoth(hits[ps[..n][m].0], hits[ps[..n][m].1], g, h)
               && Delta(hits[ps[..n][m].0], hits[ps[..n][m].1]) == v;
      assert ps[..n][m] == ps[m];
    }
  }

  // Every pair is among all pairs, exactly once.
  lemma {:induction false} PairAmong(n: nat, i: nat, j: nat, p: nat, q: nat)
    requires i <= n && j <= n && p < q < n
    ensures Occurrences(PairsBefore(n, i, j), (p, q)) == if p < i || (p == i && q < j) then 1 else 0
    decreases i, j
  {
    if j > i + 1 {
      PairAmong(n, i, j - 1, p, q);
      assert PairsBefore(n, i, j)[..|PairsBefore(n, i, j)| - 1] == PairsBefore(n, i, j - 1);
    } else if i > 0 {
      PairAmong(n, i - 1, n, p, q);
    }
  }

  function Occurrences(ps: seq<(nat, nat)>, p: (nat, nat)): nat {
    if ps == [] then 0 else Occurrences(ps[..|ps| - 1], p) + if ps[|ps| - 1] == p then 1 else 0
  }

  lemma {:induction false} NoneBeyond(ps: seq<(nat, nat)>, n: nat, p: (nat, nat))
    requires AllBelow(ps, n) && p.1 >= n
    ensures Occurrences(ps, p) == 0
  {
    if ps != [] {
      NoneBeyond(ps[..|ps| - 1], n, p);
    }
  }

  lemma {:induction false} Occurs(ps: seq<(nat, nat)>, p: (nat, nat)) returns (m: nat)
    requires Occurrences(ps, p) > 0
    ensures m < |ps| && ps[m] == p
  {
    m := |ps| - 1;
    if ps[m] != p {
      m := Occurs(ps[..m], p);
    }
  }

  // An event that does not throw leaves exactly the right histograms if and only if the
  // difference of any two hits of one station is rejected by the cell it goes to.
  lemma AllRightIff(k: Task, stations: seq<nat>, cells: seq<Pair>)
    requires Accounted(k, stations, cells)
    ensures AllRight(k, stations, cells) <==> Harmless(k)
  {
    TaskFacts(k);
    forall x: nat, y: nat | y < x < |stations|
      ensures Cell(cells, |stations|, x, y).hist == Right(k, x, y) <==> Rejects(k, x, y)
    {
      GeneralLaw(k, stations, cells, x, y);
      Right(k, x, y).NoTraceIff(Stray(k, x, y));
    }
    if AllRight(k, stations, cells) {
      forall i, j | 0 <= i < j < |k.hits| && k.hits[i].hash == k.hits[j].hash ensures PairHarmless(k, i, j) {
        var x := Place(k.All(), k.hits[i].hash) + 1;
        if x < |k.All()| {
          assert Cell(cells, |stations|, x, 0).hist == Right(k, x, 0);
          RejectsPair(k, x, i, j);
        }
      }
    }
    if Harmless(k) {
      forall x: nat, y: nat | y < x < |stations| ensures Cell(cells, |stations|, x, y).hist == Right(k, x, y) {
        HarmlessRejects(k, x, y);
      }
    }
  }

  ghost predicate Rejects(k: Task, x: nat, y: nat)
    requires k.Sound() && y < x < |k.All()|
  {
    forall m :: 0 <= m < |Stray(k, x, y)| ==> !k.Before(x, y).Accepts(Stray(k, x, y)[m])
  }

  lemma RejectsPair(k: Task, x: nat, i: nat, j: nat)
    requires k.Sound() && i < j < |k.hits| && k.hits[i].hash == k.hits[j].hash
    requires x == Place(k.All(), k.hits[i].hash) + 1 < |k.All()| && Rejects(k, x, 0)
    ensures !k.Before(x, 0).Accepts(Delta(k.hits[i], k.hits[j]))
  {
    var n, g := |k.hits|, k.All()[x - 1];
    PairAmong(n, n, 0, i, j);
    var m := Occurs(AllPairs(n), (i, j));
    BetweenHas(k.hits, g, g, AllPairs(n), m);
    var p :| 0 <= p < |Stray(k, x, 0)| && Stray(k, x, 0)[p] == Delta(k.hits[i], k.hits[j]);
  }

  lemma HarmlessRejects(k: Task, x: nat, y: nat)
    requires k.Sound() && y < x < |k.All()| && Harmless(k)
    ensures Rejects(k, x, y)
  {
    if y == 0 {
      TaskFacts(k);
      var n, g := |k.hits|, k.All()[x - 1];
      PlaceIs(k.All(), k.All(), x - 1);
      forall p | 0 <= p < |Stray(k, x, y)| ensures !k.Before(x, y).Accepts(Stray(k, x, y)[p]) {
        var v := Stray(k, x, y)[p];
        BetweenFrom(k.hits, g, g, AllPairs(n), v);
        var m :| 0 <= m < |AllPairs(n)| && OfBoth(k.hits[AllPairs(n)[m].0], k.hits[AllPairs(n)[m].1], g, g)
                 && Delta(k.hits[AllPairs(n)[m].0], k.hits[AllPairs(n)[m].1]) == v;
        assert PairHarmless(k, AllPairs(n)[m].0, AllPairs(n)[m].1);
      }
    }
  }

  // --- events that list no detector twice

  // The first hit of a detector.
  function IndexOf(hits: seq<Data>, h: nat): (i: nat)
    ensures i <= |hits| && (i < |hits| ==> hits[i].hash == h)
    ensures forall k :: 0 <= k < i ==> hits[k].hash != h
  {
    if hits == [] then 0
    else if hits[0].hash == h then 0
    else 1 + IndexOf(hits[1..], h)
  }

  lemma IndexUnique(hits: seq<Data>, i: nat)
    requires DistinctHits(hits) && i < |hits|
    ensures IndexOf(hits, hits[i].hash) == i
  {
    forall k | 0 <= k < i ensures hits[k].hash != hits[i].hash {
    }
  }

  ghost predicate Involved(hits: seq<Data>, g: nat, h: nat) {
    IndexOf(hits, g) < |hits| && IndexOf(hits, h) < |hits|
  }

  // The histogram of stations g and h after an event with these hits.
  ghost function After(hits: seq<Data>, g: nat, h: nat, before: Hist): Hist
    requires before.Proper()
  {
    if Involved(hits, g, h) then before.Added(Delta(hits[IndexOf(hits, g)], hits[IndexOf(hits, h)])) else before
  }

  // Where the pair of the hits of two detectors is.
  ghost function Spot(hits: seq<Data>, g: nat, h: nat): (nat, nat) {
    (Min(IndexOf(hits, g), IndexOf(hits, h)), Max(IndexOf(hits, g), IndexOf(hits, h)))
  }

  lemma BothAtSpot(hits: seq<Data>, g: nat, h: nat, i: nat, j: nat)
    requires DistinctHits(hits) && g != h && i < j < |hits|
    ensures OfBoth(hits[i], hits[j], g, h) <==> (i, j) == Spot(hits, g, h)
    ensures OfBoth(hits[i], hits[j], g, h) ==>
              Involved(hits, g, h) && Delta(hits[i], hits[j]) == Delta(hits[IndexOf(hits, g)], hits[IndexOf(hits, h)])
  {
    IndexUnique(hits, i);
    IndexUnique(hits, j);
  }

  lemma {:induction false} BetweenDistinct(hits: seq<Data>, g: nat, h: nat, ps: seq<(nat, nat)>)
    requires DistinctHits(hits) && g != h && AllBelow(ps, |hits|) && Occurrences(ps, Spot(hits, g, h)) <= 1
    ensures Between(hits, g, h, ps) ==
            if Involved(hits, g, h) && Occurrences(ps, Spot(hits, g, h)) == 1
            then [Delta(hits[IndexOf(hits, g)], hits[IndexOf(hits, h)])]
            else []
  {
    if ps != [] {
      var p := ps[|ps| - 1];
      BetweenDistinct(hits, g, h, ps[..|ps| - 1]);
      BothAtSpot(hits, g, h, p.0, p.1);
    }
  }

  // Then each histogram gets one entry if both stations have a hit, and none otherwise.
  lemma DistinctLaw(k: Task, stations: seq<nat>, cells: seq<Pair>, x: nat, y: nat)
    requires Accounted(k, stations, cells) && DistinctHits(k.hits) && y < x < |stations|
    ensures Cell(cells, |stations|, x, y).hist == After(k.hits, stations[x], stations[y], k.Before(x, y))
  {
    AllRightIff(k, stations, cells);
    assert Cell(cells, |stations|, x, y).hist == Right(k, x, y);
    TaskFacts(k);
    OneBetween(k.hits, stations[x], stations[y], k.Before(x, y));
  }

  lemma OneBetween(hits: seq<Data>, g: nat, h: nat, before: Hist)
    requires DistinctHits(hits) && g != h && before.Proper()
    ensures before.AddedAll(Between(hits, g, h, AllPairs(|hits|))) == After(hits, g, h, before)
  {
    var n, p := |hits|, Spot(hits, g, h);
    if Involved(hits, g, h) {
      var v := Delta(hits[IndexOf(hits, g)], hits[IndexOf(hits, h)]);
      PairAmong(n, n, 0, p.0, p.1);
      before.AddedAllOne([], v);
      assert [] + [v] == [v];
    } else {
      NoneBeyond(AllPairs(n), n, p);
    }
    BetweenDistinct(hits, g, h, AllPairs(n));
  }

  // The values of bin m of a histogram.
  predicate InBin(f: Hist, m: int, v: int) {
    f.lower <= v < f.upper && f.lower + m * f.width <= v < f.lower + (m + 1) * f.width
  }

  lemma AddedRaises(f: Hist, v: int, m: int)
    requires f.Proper() && 0 <= m < |f.bins|
    ensures f.Added(v).bins[m] == f.bins[m] + if InBin(f, m, v) then 1 else 0
  {
    if f.Accepts(v) {
      f.IndexLaw(v);
      SameBin(f, v, m, f.Index(v));
    }
  }

  lemma SameBin(f: Hist, v: int, m: int, n: int)
    requires f.width > 0 && f.lower <= v < f.upper && f.lower + n * f.width <= v < f.lower + (n + 1) * f.width
    ensures InBin(f, m, v) <==> m == n
  {
    ProductGrows(m + 1, n, f.width);
    ProductGrows(n + 1, m, f.width);
  }

  // With hits of two stations g < h, the bin of their histogram that holds the time of g
  // minus that of h is raised by one, and no other, whichever is listed first.
  lemma DifferenceLaw(k: Task, stations: seq<nat>, cells: seq<Pair>, i: nat, j: nat, x: nat, y: nat)
    requires Accounted(k, stations, cells) && DistinctHits(k.hits) && i < |k.hits| && j < |k.hits|
    requires k.hits[i].hash < k.hits[j].hash
    requires -0x8000_0000 <= k.hits[i].start - k.hits[j].start < 0x8000_0000
    requires y < x < |stations| && {stations[x], stations[y]} == {k.hits[i].hash, k.hits[j].hash}
    ensures var before, after := k.Before(x, y), Cell(cells, |stations|, x, y).hist;
            && after.(bins := before.bins) == before && |after.bins| == |before.bins|
            && forall m :: 0 <= m < |after.bins| ==>
                 after.bins[m] == before.bins[m]
                                  + if InBin(before, m, k.hits[i].start - k.hits[j].start) then 1 else 0
  {
    var g, h := stations[x], stations[y];
    assert g in {k.hits[i].hash, k.hits[j].hash} && h in {k.hits[i].hash, k.hits[j].hash};
    assert k.hits[i].hash in {g, h} && k.hits[j].hash in {g, h};
    DistinctLaw(k, stations, cells, x, y);
    IndexUnique(k.hits, i);
    IndexUnique(k.hits, j);
    var before, v := k.Before(x, y), k.hits[i].start - k.hits[j].start;
    assert Cell(cells, |stations|, x, y).hist == before.Added(v);
    forall m | 0 <= m < |before.bins|
      ensures before.Added(v).bins[m] == before.bins[m] + if InBin(before, m, v) then 1 else 0
    {
      AddedRaises(before, v, m);
    }
  }

  // The histogram of two stations that do not both have a hit stays.
  lemma NoDifferenceLaw(k: Task, stations: seq<nat>, cells: seq<Pair>, x: nat, y: nat)
    requires Accounted(k, stations, cells) && DistinctHits(k.hits) && y < x < |stations|
    requires (forall i :: 0 <= i < |k.hits| ==> k.hits[i].hash != stations[x])
             || (forall i :: 0 <= i < |k.hits| ==> k.hits[i].hash != stations[y])
    ensures Cell(cells, |stations|, x, y).hist == k.Before(x, y)
  {
    DistinctLaw(k, stations, cells, x, y);
  }

  // --- the order of the hits

  lemma SameHit(hits: seq<Data>, other: seq<Data>, g: nat)
    requires DistinctHits(other) && forall d :: d in hits <==> d in other
    ensures IndexOf(hits, g) < |hits| ==>
              IndexOf(other, g) < |other| && other[IndexOf(other, g)] == hits[IndexOf(hits, g)]
  {
    var i := IndexOf(hits, g);
    if i < |hits| {
      assert hits[i] in other;
      var j :| 0 <= j < |other| && other[j] == hits[i];
      IndexUnique(other, j);
    }
  }

  ghost predicate Symmetric(w: Widths) {
    forall g, h :: w(g, h) == w(h, g)
  }

  // The histogram of two stations.
  ghost function HistOf(stations: seq<nat>, cells: seq<Pair>, g: nat, h: nat): Hist
    requires Packs(cells, |stations|) && g in stations && h in stations && g != h
  {
    var p, q := Place(stations, g), Place(stations, h);
    Cell(cells, |stations|, Max(p, q), Min(p, q)).hist
  }

  // The histogram of two stations before an event, as far as they are known.
  ghost function BeforeOf(k: Task, g: nat, h: nat): (f: Hist)
    requires Aligned(k.known, k.cells) && g != h
    ensures f.Proper()
  {
    if g in k.known && h in k.known then
      var p, q := Place(k.known, g), Place(k.known, h);
      assert Belongs(Cell(k.cells, |k.known|, Max(p, q), Min(p, q)), k.known[Max(p, q)], k.known[Min(p, q)]);
      HistOf(k.known, k.cells, g, h)
    else PairHist(k.w(g, h))
  }

  lemma BeforeIs(k: Task, g: nat, h: nat)
    requires k.Sound() && Symmetric(k.w) && g != h && g in k.All() && h in k.All()
    ensures var p, q := Place(k.All(), g), Place(k.All(), h);
            Min(p, q) < Max(p, q) && k.Before(Max(p, q), Min(p, q)) == BeforeOf(k, g, h)
  {
    var p, q := Place(k.All(), g), Place(k.All(), h);
    TrailNoneTwice(k.trail, k.known, k.hits, |k.hits|);
    TrailGrows(k.trail, k.known, k.hits, 0, |k.hits|);
    if g in k.known {
      PlaceIs(k.known, k.All(), Place(k.known, g));
    }
    if h in k.known {
      PlaceIs(k.known, k.All(), Place(k.known, h));
    }
    if Max(p, q) < |k.known| {
      assert k.known[p] == g && k.known[q] == h;
    }
  }

  lemma HistIs(k: Task, stations: seq<nat>, cells: seq<Pair>, g: nat, h: nat)
    requires Accounted(k, stations, cells) && DistinctHits(k.hits) && Symmetric(k.w)
    requires g != h && g in stations && h in stations
    ensures HistOf(stations, cells, g, h) == After(k.hits, g, h, BeforeOf(k, g, h))
  {
    var p, q := Place(stations, g), Place(stations, h);
    BeforeIs(k, g, h);
    DistinctLaw(k, stations, cells, Max(p, q), Min(p, q));
    OtherWay(k.hits, g, h, BeforeOf(k, g, h));
  }

  lemma OtherWay(hits: seq<Data>, g: nat, h: nat, before: Hist)
    requires before.Proper() && g != h
    ensures After(hits, g, h, before) == After(hits, h, g, before)
  {
  }

  // The order of the hits in an event that lists no detector twice has no influence: the
  // same stations are known afterwards, and any two have the same histogram.
  lemma OrderIrrelevant(k: Task, stations: seq<nat>, cells: seq<Pair>, l: Task, others: seq<nat>, further: seq<Pair>)
    requires Accounted(k, stations, cells) && Accounted(l, others, further)
    requires k.known == l.known && k.cells == l.cells && k.w == l.w && Symmetric(k.w)
    requires DistinctHits(k.hits) && DistinctHits(l.hits) && forall d :: d in k.hits <==> d in l.hits
    ensures forall g :: g in stations <==> g in others
    ensures forall g, h :: g in stations && h in stations && g != h ==>
              HistOf(stations, cells, g, h) == HistOf(others, further, g, h)
  {
    forall g | g in stations ensures g in others {
      SameStations(k, l, g);
    }
    forall g | g in others ensures g in stations {
      SameStations(l, k, g);
    }
    forall g, h | g in stations && h in stations && g != h
      ensures HistOf(stations, cells, g, h) == HistOf(others, further, g, h)
    {
      HistIs(k, stations, cells, g, h);
      HistIs(l, others, further, g, h);
      SameHit(k.hits, l.hits, g);
      SameHit(k.hits, l.hits, h);
      SameHit(l.hits, k.hits, g);
      SameHit(l.hits, k.hits, h);
    }
  }

  lemma SameStations(k: Task, l: Task, g: nat)
    requires k.Sound() && l.Sound() && k.known == l.known && (forall d :: d in k.hits <==> d in l.hits)
    requires g in k.All()
    ensures g in l.All()
  {
    TrailOnly(k.trail, k.known, k.hits, |k.hits|, g);
    TrailGrows(l.trail, l.known, l.hits, 0, |l.hits|);
    if g in k.known {
      var p :| 0 <= p < |k.known| && k.known[p] == g;
      assert l.All()[p] == g;
    } else {
      var i :| 0 <= i < |k.hits| && k.hits[i].hash == g;
      assert k.hits[i] in l.hits;
      var j :| 0 <= j < |l.hits| && l.hits[j] == k.hits[i];
      TrailHas(l.trail, l.known, l.hits, j, |l.hits|);
    }
  }

  // --- a stray entry

  // One detector at 0 and 10 ns and another at 5 ns: with the stations 1 and 2, the source
  // does not throw, and the two hits of the first make a stray entry in the histogram of
  // both.
  lemma StrayEntry(width: nat, w: Widths, hits: seq<Data>, stations: seq<nat>, cells: seq<Pair>)
    requires 1 <= width <= 100 && |hits| == 3
    requires hits[0].hash == 1 && hits[0].start == 0 && hits[1].hash == 2 && hits[1].start == 5
    requires hits[2].hash == 1 && hits[2].start == 10
    ensures var k := TaskFor([1, 2], [Pair(2, 1, PairHist(width))], w, hits);
            k.Sound() && !SomeThrows(k, 3) && (Accounted(k, stations, cells) ==> !AllRight(k, stations, cells))
  {
    var cell := Pair(2, 1, PairHist(width));
    var k := TaskFor([1, 2], [cell], w, hits);
    OneCell(cell);
    NothingFound([1, 2], hits, 3);
    KnownThrowIff([1, 2], [cell], w, hits);
    if Accounted(k, stations, cells) {
      StrayIn(k, width, stations, cells);
    }
  }

  lemma StrayIn(k: Task, width: nat, stations: seq<nat>, cells: seq<Pair>)
    requires Accounted(k, stations, cells) && 1 <= width <= 100 && |k.hits| == 3
    requires k.known == k.All() == [1, 2] && k.cells == [Pair(2, 1, PairHist(width))]
    requires k.hits[0].hash == k.hits[2].hash == 1 && k.hits[0].start == 0 && k.hits[2].start == 10
    ensures !AllRight(k, stations, cells)
  {
    OneCell(k.cells[0]);
    assert k.Before(1, 0) == PairHist(width);
    assert Delta(k.hits[0], k.hits[2]) == 10;
    PlaceIs([1, 2], k.All(), 0);
    NotHarmless(k, 0, 2);
    AllRightIff(k, stations, cells);
  }

  lemma NotHarmless(k: Task, i: nat, j: nat)
    requires k.Sound() && i < j < |k.hits| && k.hits[i].hash == k.hits[j].hash && !PairHarmless(k, i, j)
    ensures !Harmless(k)
  {
  }

  lemma OneCell(cell: Pair)
    requires cell.first == 2 && cell.second == 1 && cell.hist.Proper()
    ensures Aligned([1, 2], [cell]) && Cell([cell], 2, 1, 0) == cell
  {
    assert Tri(2) == 1;
  }
}
