// The ring buffer with cached statistics.

module DataSeries {
  import opened Basics
  import opened Statistics

  class Series {
    const n: nat
    const root: real -> real
    const buffer: array<real>
    var index: nat
    var full: bool

    // The three cached values with their markers.
    var meanDirty: bool
    var varianceDirty: bool
    var stddevDirty: bool
    var mean: real
    var variance: real
    var stddev: real

    // Every value ever added.
    ghost var history: seq<real>

    // The part of the buffer that is in use, in buffer order.
    function Stored(): seq<real>
      requires index <= buffer.Length
      reads this, buffer
    {
      if full then buffer[..] else buffer[..index]
    }

    ghost predicate Shape()
      reads this, buffer
    {
      && 0 < n == buffer.Length && index < n && IsRoot(root)
      && (full ==> |history| >= n && Window(history, n) == buffer[index..] + buffer[..index])
      && (!full ==> history == buffer[..index] && forall k :: index <= k < n ==> buffer[k] == 0.0)
    }

    // A clean cache holds what a fresh computation over the window would give.
    ghost predicate MeanCached()
      reads this
    {
      !meanDirty ==> mean == Mean(Window(history, n))
    }

    ghost predicate VarianceCached()
      reads this
    {
      !varianceDirty ==> variance == Variance(Window(history, n))
    }

    ghost predicate Valid()
      reads this, buffer
    {
      && Shape() && MeanCached() && VarianceCached()
      && (!stddevDirty ==> stddev == root(Variance(Window(history, n))))
    }

    // The buffer is a rotation of the window.
    lemma StoredLaw()
      requires Shape()
      ensures |Stored()| == |Window(history, n)|
      ensures Mean(Stored()) == Mean(Window(history, n)) && Variance(Stored()) == Variance(Window(history, n))
    {
      if full {
        assert buffer[..] == buffer[..index] + buffer[index..];
        RotationLaw(buffer[..index], buffer[index..]);
      } else {
        assert Window(history, n) == history;
      }
    }

    constructor (n: nat, root: real -> real)
      requires n > 0 && IsRoot(root)
      ensures Valid() && fresh(buffer) && history == [] && this.n == n && this.root == root
    {
      this.n, this.root := n, root;
      buffer := new real[n](_ => 0.0);
      index, full := 0, false;
      meanDirty, varianceDirty, stddevDirty := false, false, false;
      mean, variance, stddev := 0.0, 0.0, 0.0;
      history := [];
      new;
      RootOfZero(root);
    }

    method Add(value: real)
      requires Valid()
      modifies this, buffer
      ensures Valid() && history == old(history) + [value]
    {
      ghost var was := buffer[..];
      buffer[index] := value;
      meanDirty, stddevDirty, varianceDirty := true, true, true;
      Rotates(was, index, value, history, n, full);
      assert buffer[..] == was[index := value];
      NextIndex(index, n);
      index := (index + 1) % n;
      if index == 0 {
        full := true;
      }
      history := history + [value];
    }

    function Entries(): (r: nat)
      requires Valid()
      reads this, buffer
      ensures r == |Window(history, n)|
    {
      if full then n else index
    }

    // The slot that `add` would overwrite next: the oldest value of a full window.
    method Current() returns (r: real)
      requires Valid()
      ensures r == NextSlot(history, n)
    {
      r := buffer[index];
    }

    method PrivateMean() returns (r: real)
      requires Shape()
      ensures r == Mean(Window(history, n))
    {
      var count := if full then n else if index < 1 then 1 else index;
      r := Sum(Stored()) / (count as real);
      StoredLaw();
    }

    method GetMean() returns (r: real)
      requires Shape() && MeanCached()
      modifies this`meanDirty, this`mean
      ensures Shape() && MeanCached() && r == Mean(Window(history, n))
    {
      if meanDirty {
        meanDirty := false;
        mean := PrivateMean();
      }
      r := mean;
    }

    method PrivateVariance() returns (r: real)
      requires Shape() && MeanCached()
      modifies this`meanDirty, this`mean
      ensures Shape() && MeanCached() && r == Variance(Window(history, n))
    {
      var count := if full then n else if index < 1 then 1 else index;
      var m := GetMean();
      r := 1.0 / (count as real) * Deviation(Stored(), m);
      StoredLaw();
      Reciprocal(count as real, Deviation(Stored(), m));
    }

    method GetVariance() returns (r: real)
      requires Shape() && MeanCached() && VarianceCached()
      modifies this`meanDirty, this`mean, this`varianceDirty, this`variance
      ensures Shape() && MeanCached() && VarianceCached() && r == Variance(Window(history, n))
    {
      if varianceDirty {
        varianceDirty := false;
        variance := PrivateVariance();
      }
      r := variance;
    }

    // The square root reads the variance cache, which reads the mean cache.
    method GetStddev() returns (r: real)
      requires Valid()
      modifies this`meanDirty, this`mean, this`varianceDirty, this`variance, this`stddevDirty, this`stddev
      ensures Valid() && r == root(Variance(Window(history, n)))
      ensures r >= 0.0 && Times(r, r) == Variance(Window(history, n))
    {
      if stddevDirty {
        stddevDirty := false;
        var v := GetVariance();
        stddev := root(v);
      }
      r := stddev;
      VarianceNonNegative(Window(history, n));
      assert RootAt(root, Variance(Window(history, n)));
    }
  }

  lemma Reciprocal(k: real, x: real)
    requires k > 0.0
    ensures 1.0 / k * x == x / k
  {
  }

  // What is in the slot that is overwritten next: the oldest value of a full window.
  function NextSlot(h: seq<real>, n: nat): real
    requires n > 0
  {
    if |h| >= n then Window(h, n)[0] else 0.0
  }

  // That is the latest value, for all histories, if and only if the window holds but one.
  lemma NextIsLatestIff(n: nat)
    requires n > 0
    ensures (forall h: seq<real> :: h != [] ==> NextSlot(h, n) == h[|h| - 1]) <==> n == 1
  {
    if n > 1 {
      assert NextSlot([1.0], n) != [1.0][0];
    }
  }

  // Overwriting slot i of the buffer advances the window by one value.
  lemma Rotates(was: seq<real>, i: nat, value: real, h: seq<real>, n: nat, full: bool)
    requires 0 < n == |was| && i < n
    requires full ==> |h| >= n && Window(h, n) == was[i..] + was[..i]
    requires !full ==> h == was[..i]
    ensures var now, j := was[i := value], if i + 1 == n then 0 else i + 1;
            && (full || j == 0 ==> |h| + 1 >= n && Window(h + [value], n) == now[j..] + now[..j])
            && (!full && j != 0 ==> h + [value] == now[..j])
  {
    var now, j := was[i := value], if i + 1 == n then 0 else i + 1;
    if full {
      assert Window(h + [value], n) == Window(h, n)[1..] + [value];
      assert Window(h, n)[1..] == was[i + 1..] + was[..i];
      assert now[j..] + now[..j] == was[i + 1..] + was[..i] + [value];
    } else if j == 0 {
      assert now[0..] + now[..0] == was[..i] + [value];
    }
  }
}
