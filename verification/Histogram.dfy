// Histograms with integer bins of equal width.

module Histogram {
  import opened Basics

  // A histogram as a value.
  datatype Hist = Hist(lower: int, upper: int, width: int, bins: seq<nat>) {

    // The bins tile the interval, unless it is empty.
    ghost predicate Proper() {
      |bins| > 0 && (lower < upper ==> |bins| * width == upper - lower)
    }

    predicate Accepts(value: int) {
      lower <= value < upper
    }

    function Index(value: int): int
      requires width != 0
    {
      (value - lower) / width
    }

    lemma IndexLaw(value: int)
      requires Proper() && Accepts(value)
      ensures width > 0 && 0 <= Index(value) < |bins|
      ensures lower + Index(value) * width <= value < lower + (Index(value) + 1) * width
    {
      var n := |bins|;
      SignOfProduct(n, width);
      var d, i := value - lower, (value - lower) / width;
      assert d == width * i + d % width;
      assert i * width == width * i && (i + 1) * width == i * width + width;
      ProductGrows(n, i, width);
    }

    function Added(value: int): (h: Hist)
      requires Proper()
      ensures h.Proper() && h.(bins := bins) == this && |h.bins| == |bins|
    {
      if !Accepts(value) then this
      else
        IndexLaw(value);
        this.(bins := bins[Index(value) := bins[Index(value)] + 1])
    }

    // The histogram after all the values, in order.
    function AddedAll(values: seq<int>): (h: Hist)
      requires Proper()
      ensures h.Proper() && h.(bins := bins) == this && |h.bins| == |bins|
    {
      if values == [] then this else AddedAll(values[..|values| - 1]).Added(values[|values| - 1])
    }

    lemma AddedAllOne(values: seq<int>, v: int)
      requires Proper()
      ensures AddedAll(values + [v]) == AddedAll(values).Added(v)
    {
      assert (values + [v])[..|values|] == values;
    }

    // How many of the values go to bin b.
    function Going(values: seq<int>, b: nat): nat
      requires Proper()
    {
      if values == [] then 0
      else
        var v := values[|values| - 1];
        Going(values[..|values| - 1], b) + if Accepts(v) && Position(v) == b then 1 else 0
    }

    function Position(value: int): (i: nat)
      requires Proper() && Accepts(value)
      ensures i < |bins| && i == Index(value)
    {
      IndexLaw(value);
      Index(value)
    }

    lemma {:induction false} BinAfter(values: seq<int>, b: nat)
      requires Proper() && b < |bins|
      ensures AddedAll(values).bins[b] == bins[b] + Going(values, b)
    {
      if values != [] {
        BinAfter(values[..|values| - 1], b);
      }
    }

    lemma {:induction false} GoingSame(other: Hist, values: seq<int>, b: nat)
      requires Proper() && other.Proper() && other.(bins := bins) == this
      ensures Going(values, b) == other.Going(values, b)
    {
      if values != [] {
        GoingSame(other, values[..|values| - 1], b);
      }
    }

    // Values leave no trace if and only if none of them is accepted.
    lemma NoTraceIff(values: seq<int>)
      requires Proper()
      ensures AddedAll(values) == this <==> forall k :: 0 <= k < |values| ==> !Accepts(values[k])
    {
      if AddedAll(values) == this {
        forall k | 0 <= k < |values| ensures !Accepts(values[k]) {
          if Accepts(values[k]) {
            BinAfter(values, Position(values[k]));
            GoesSomewhere(values, k);
          }
        }
      }
      if forall k :: 0 <= k < |values| ==> !Accepts(values[k]) {
        AddedNone(values);
      }
    }

    lemma {:induction false} GoesSomewhere(values: seq<int>, k: nat)
      requires Proper() && k < |values| && Accepts(values[k])
      ensures Going(values, Position(values[k])) > 0
    {
      if k < |values| - 1 {
        GoesSomewhere(values[..|values| - 1], k);
      }
    }

    lemma {:induction false} AddedNone(values: seq<int>)
      requires Proper() && forall k :: 0 <= k < |values| ==> !Accepts(values[k])
      ensures AddedAll(values) == this
    {
      if values != [] {
        AddedNone(values[..|values| - 1]);
      }
    }
  }

  // An empty histogram of n bins between two bounds.
  function Empty(n: nat, lower: int, upper: int): Hist
    requires n > 0
  {
    Hist(lower, upper, TruncDiv(upper - lower, n), seq(n, _ => 0))
  }

  // Every accepted value indexes a bin that exists, if and only if the number of
  // bins divides the length of the interval.
  lemma IndexInRangeIff(n: nat, lower: int, upper: int)
    requires n > 0 && lower < upper
    ensures var h := Empty(n, lower, upper);
            (h.width != 0 && forall v :: h.Accepts(v) ==> 0 <= h.Index(v) < n) <==> h.Proper()
  {
    var h := Empty(n, lower, upper);
    var d, w := upper - lower, (upper - lower) / n;
    assert d == n * w + d % n;
    if h.Proper() {
      forall v | h.Accepts(v) ensures h.width != 0 && 0 <= h.Index(v) < n {
        h.IndexLaw(v);
      }
      assert h.Accepts(lower);
    } else if w != 0 {
      // The last value lies beyond the last bin.
      assert n * w < d;
      assert h.Accepts(lower + n * w) && h.Index(lower + n * w) == (n * w) / w;
      QuotientOfProduct(n, w);
    }
  }

  lemma QuotientOfProduct(n: nat, w: int)
    requires w > 0
    ensures (n * w) / w == n
  {
    RemainderUnique(n, w, (n * w) / w, (n * w) % w);
  }

  lemma RemainderUnique(n: int, w: int, q: int, r: int)
    requires w > 0 && 0 <= r < w && n * w == w * q + r
    ensures q == n
  {
    assert w * (n - q) == r;
    ProductGrows(1, n - q, w);
    ProductGrows(n - q, 0, w);
  }

  lemma SignOfProduct(n: nat, w: int)
    ensures w <= 0 ==> n * w <= 0
  {
  }

  lemma ProductGrows(i: int, j: int, w: int)
    ensures w >= 0 && i <= j ==> i * w <= j * w
  {
    assert j * w - i * w == (j - i) * w;
  }

  // How many of the values lie in [a, b).
  function CountIn(values: seq<int>, a: int, b: int): nat {
    if values == [] then 0
    else CountIn(values[..|values| - 1], a, b) + (if a <= values[|values| - 1] < b then 1 else 0)
  }

  lemma {:induction false} CountInSplit(values: seq<int>, a: int, m: int, b: int)
    requires a <= m <= b
    ensures CountIn(values, a, b) == CountIn(values, a, m) + CountIn(values, m, b)
  {
    if values != [] {
      CountInSplit(values[..|values| - 1], a, m, b);
    }
  }

  lemma {:induction false} CountInNone(values: seq<int>, a: int)
    ensures CountIn(values, a, a) == 0
  {
    if values != [] {
      CountInNone(values[..|values| - 1], a);
    }
  }

  lemma {:induction false} CountInAll(values: seq<int>, a: int, b: int)
    requires forall i :: 0 <= i < |values| ==> a <= values[i] < b
    ensures CountIn(values, a, b) == |values|
  {
    if values != [] {
      CountInAll(values[..|values| - 1], a, b);
    }
  }

  function Edge(lower: int, width: int, i: int): int {
    lower + i * width
  }

  lemma EdgeNext(lower: int, width: int, i: int)
    ensures Edge(lower, width, i + 1) == Edge(lower, width, i) + width
    ensures Edge(lower, width, 0) == lower
  {
  }

  lemma {:induction false} EdgesGrow(lower: int, width: int, i: int, j: int)
    requires width > 0 && i <= j
    ensures Edge(lower, width, i) <= Edge(lower, width, j)
    decreases j - i
  {
    if i < j {
      EdgesGrow(lower, width, i, j - 1);
      EdgeNext(lower, width, j - 1);
    }
  }

  lemma EdgeOf(lower: int, width: int, i: int, v: int)
    requires width > 0 && Edge(lower, width, i) <= v < Edge(lower, width, i + 1)
    ensures forall j :: Edge(lower, width, j) <= v < Edge(lower, width, j + 1) ==> j == i
  {
    forall j | Edge(lower, width, j) <= v < Edge(lower, width, j + 1) ensures j == i {
      if j < i {
        EdgesGrow(lower, width, j + 1, i);
      } else if j > i {
        EdgesGrow(lower, width, i + 1, j);
      }
    }
  }

  datatype Bin = Bin(lower: int, upper: int, count: nat)

  class Histogram {
    const lower: int
    const upper: int
    const width: int
    const bins: array<nat>

    // The values accepted since the last clear.
    ghost var accepted: seq<int>

    function Value(): Hist
      reads bins
    {
      Hist(lower, upper, width, bins[..])
    }

    // Bin i counts exactly the accepted values of its interval.
    ghost predicate Valid()
      reads this, bins
    {
      && Value().Proper()
      && (forall k :: 0 <= k < |accepted| ==> lower <= accepted[k] < upper)
      && forall i :: 0 <= i < bins.Length ==>
           bins[i] == CountIn(accepted, Edge(lower, width, i), Edge(lower, width, i + 1))
    }

    constructor (n: nat, lower: int, upper: int)
      requires n > 0 && Empty(n, lower, upper).Proper()
      ensures Valid() && fresh(bins) && accepted == [] && Value() == Empty(n, lower, upper)
    {
      this.lower, this.upper, width := lower, upper, TruncDiv(upper - lower, n);
      bins := new nat[n](_ => 0);
      accepted := [];
    }

    method Add(value: int)
      requires Valid()
      modifies this, bins
      ensures Valid() && Value() == old(Value()).Added(value)
      ensures accepted == if lower <= value < upper then old(accepted) + [value] else old(accepted)
    {
      if value < lower || value >= upper {
        return;
      }
      ghost var was := Value();
      was.IndexLaw(value);
      var i := (value - lower) / width;
      bins[i] := bins[i] + 1;
      EdgeOf(lower, width, i, value);
      accepted := accepted + [value];
      assert Value() == was.Added(value);
    }

    // The number of entries is the number of values accepted.
    method Integral() returns (total: nat)
      requires Valid()
      ensures total == |accepted|
    {
      total := 0;
      var i := 0;
      CountInNone(accepted, lower);
      while i < bins.Length
        invariant 0 <= i <= bins.Length
        invariant total == CountIn(accepted, lower, Edge(lower, width, i))
      {
        if accepted != [] {
          Value().IndexLaw(accepted[0]);
          CountInSplit(accepted, lower, Edge(lower, width, i), Edge(lower, width, i + 1));
        }
        total := total + bins[i];
        i := i + 1;
      }
      if accepted != [] {
        CountInAll(accepted, lower, upper);
      }
    }

    // The bins with their bounds: they follow each other without gaps from the lower
    // to the upper bound.
    method QualifiedBins() returns (r: seq<Bin>)
      requires Valid()
      ensures |r| == bins.Length && r[0].lower == lower
      ensures lower < upper ==> r[|r| - 1].upper == upper
      ensures forall i :: 0 <= i < |r| - 1 ==> r[i].upper == r[i + 1].lower
      ensures forall i :: 0 <= i < |r| ==> r[i].count == CountIn(accepted, r[i].lower, r[i].upper)
    {
      r := [];
      var last := lower;
      EdgeNext(lower, width, 0);
      var i := 0;
      while i < bins.Length
        invariant 0 <= i <= bins.Length && |r| == i && last == Edge(lower, width, i)
        invariant forall k :: 0 <= k < i ==>
                    r[k] == Bin(Edge(lower, width, k), Edge(lower, width, k + 1), bins[k])
      {
        EdgeNext(lower, width, i);
        r := r + [Bin(last, last + width, bins[i])];
        last := last + width;
        i := i + 1;
      }
      forall k | 0 <= k < |r| ensures r[k].count == CountIn(accepted, r[k].lower, r[k].upper) {
        assert r[k] == Bin(Edge(lower, width, k), Edge(lower, width, k + 1), bins[k]);
      }
      forall k | 0 <= k < |r| - 1 ensures r[k].upper == r[k + 1].lower {
        var j := k + 1;
        assert r[k] == Bin(Edge(lower, width, k), Edge(lower, width, k + 1), bins[k]);
        assert r[j] == Bin(Edge(lower, width, j), Edge(lower, width, j + 1), bins[j]);
      }
    }

    method Clear()
      requires Valid()
      modifies this, bins
      ensures Valid() && accepted == [] && Value().bins == seq(bins.Length, _ => 0)
    {
      accepted := [];
      var i := 0;
      while i < bins.Length
        invariant 0 <= i <= bins.Length && accepted == []
        invariant forall k :: 0 <= k < i ==> bins[k] == 0
      {
        bins[i] := 0;
        i := i + 1;
      }
    }
  }
}
