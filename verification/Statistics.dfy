// Mean, variance and how far the mean of a part can lie from the mean of the whole.

module Statistics {

  function Sum(s: seq<real>): real {
    if s == [] then 0.0 else Sum(s[..|s| - 1]) + s[|s| - 1]
  }

  function Square(x: real): real {
    x * x
  }

  // The sum of squared distances from m.
  function Deviation(s: seq<real>, m: real): real {
    if s == [] then 0.0 else Deviation(s[..|s| - 1], m) + Square(s[|s| - 1] - m)
  }

  function Len(s: seq<real>): real {
    |s| as real
  }

  function Mean(s: seq<real>): real {
    if s == [] then 0.0 else Sum(s) / Len(s)
  }

  function Variance(s: seq<real>): real {
    if s == [] then 0.0 else Deviation(s, Mean(s)) / Len(s)
  }

  lemma {:induction false} SumSplit(a: seq<real>, b: seq<real>)
    ensures Sum(a + b) == Sum(a) + Sum(b)
    decreases |b|
  {
    if b == [] {
      assert a + b == a;
    } else {
      var c := b[..|b| - 1];
      assert (a + b)[..|a + b| - 1] == a + c;
      SumSplit(a, c);
    }
  }

  lemma {:induction false} DeviationSplit(a: seq<real>, b: seq<real>, m: real)
    ensures Deviation(a + b, m) == Deviation(a, m) + Deviation(b, m)
    decreases |b|
  {
    if b == [] {
      assert a + b == a;
    } else {
      var c := b[..|b| - 1];
      assert (a + b)[..|a + b| - 1] == a + c;
      DeviationSplit(a, c, m);
    }
  }

  lemma MeanOfOne(x: real)
    ensures Sum([x]) == Mean([x]) == x && Variance([x]) == 0.0
  {
    assert [x][..0] == [] && Len([x]) == 1.0;
    DividedByOne(Sum([x]));
    DividedByOne(Deviation([x], x));
    assert Deviation([x], x) == Square(x - x) == Square(0.0);
  }

  lemma DividedByOne(x: real)
    ensures x / 1.0 == x
  {
  }

  // A rotation of a window has its mean and variance.
  lemma RotationLaw(a: seq<real>, b: seq<real>)
    ensures Mean(a + b) == Mean(b + a) && Variance(a + b) == Variance(b + a)
  {
    SumSplit(a, b);
    SumSplit(b, a);
    DeviationSplit(a, b, Mean(a + b));
    DeviationSplit(b, a, Mean(a + b));
  }

  lemma SquareNonNegative(x: real)
    ensures Square(x) >= 0.0
  {
  }

  lemma {:induction false} DeviationNonNegative(s: seq<real>, m: real)
    ensures Deviation(s, m) >= 0.0
  {
    if s != [] {
      DeviationNonNegative(s[..|s| - 1], m);
      SquareNonNegative(s[|s| - 1] - m);
    }
  }

  // The squared distances from m, given those from c (dc), the sum and the number
  // k of the values.
  function Shifted(dc: real, sum: real, k: real, m: real, c: real): real {
    dc + 2.0 * (c - m) * (sum - k * c) + k * Square(c - m)
  }

  lemma ShiftStep(dc: real, sum: real, k: real, x: real, m: real, c: real)
    ensures Shifted(dc, sum, k, m, c) + Square(x - m) == Shifted(dc + Square(x - c), sum + x, k + 1.0, m, c)
  {
    assert Square(x - m) == Square(x - c) + 2.0 * (c - m) * (x - c) + Square(c - m);
    assert 2.0 * (c - m) * (sum - k * c) + 2.0 * (c - m) * (x - c)
        == 2.0 * (c - m) * ((sum - k * c) + (x - c));
  }

  lemma ShiftNone(m: real, c: real)
    ensures Shifted(0.0, 0.0, 0.0, m, c) == 0.0
  {
  }

  lemma ShiftAtMean(dc: real, sum: real, k: real, m: real, c: real)
    requires Times(k, c) == sum
    ensures Shifted(dc, sum, k, m, c) == dc + Times(k, Square(c - m))
  {
    assert sum - k * c == 0.0;
  }

  lemma {:induction false} ShiftCenter(s: seq<real>, m: real, c: real)
    ensures Deviation(s, m) == Shifted(Deviation(s, c), Sum(s), Len(s), m, c)
  {
    if s == [] {
      ShiftNone(m, c);
    } else {
      var init, x := s[..|s| - 1], s[|s| - 1];
      ShiftCenter(init, m, c);
      ShiftStep(Deviation(init, c), Sum(init), Len(init), x, m, c);
      assert Len(init) + 1.0 == Len(s);
    }
  }

  function Times(x: real, y: real): real {
    x * y
  }

  lemma TimesQuotient(k: real, x: real)
    requires k > 0.0
    ensures Times(k, x / k) == x
  {
  }

  lemma MeanTimes(s: seq<real>)
    requires s != []
    ensures Times(Len(s), Mean(s)) == Sum(s)
    ensures Times(Len(s), Variance(s)) == Deviation(s, Mean(s))
  {
    TimesQuotient(Len(s), Sum(s));
    TimesQuotient(Len(s), Deviation(s, Mean(s)));
  }

  // The squared distances from any m are at least what the mean alone forces.
  lemma DeviationAtLeast(s: seq<real>, m: real)
    requires s != []
    ensures Deviation(s, m) >= Times(Len(s), Square(Mean(s) - m))
  {
    var c := Mean(s);
    MeanTimes(s);
    ShiftCenter(s, m, c);
    ShiftAtMean(Deviation(s, c), Sum(s), Len(s), m, c);
    DeviationNonNegative(s, c);
  }

  // For m values with mean mu and variance v, a part of k values with mean c
  // satisfies k (mu - c)^2 <= (m - k) v.
  lemma PartMeanBound(a: seq<real>, b: seq<real>)
    requires b != []
    ensures Times(Len(b), Square(Mean(a + b) - Mean(b))) <= Times(Len(a), Variance(a + b))
  {
    var w := a + b;
    if a == [] {
      assert w == b;
    } else {
      var mu := Mean(w);
      MeanTimes(a);
      MeanTimes(b);
      MeanTimes(w);
      assert Len(w) == Len(a) + Len(b);
      SumSplit(a, b);
      DeviationSplit(a, b, mu);
      DeviationAtLeast(a, mu);
      DeviationAtLeast(b, mu);
      Combine(Len(a), Len(b), Mean(a), Mean(b), mu, Variance(w));
    }
  }

  lemma Combine(p: real, k: real, ma: real, mb: real, mu: real, v: real)
    requires p > 0.0 && k > 0.0
    requires Times(p, ma) + Times(k, mb) == Times(p + k, mu)
    requires Times(p + k, v) >= Times(p, Square(ma - mu)) + Times(k, Square(mb - mu))
    ensures Times(k, Square(mu - mb)) <= Times(p, v)
  {
    assert p * (ma - mu) + k * (mb - mu) == 0.0;
    Weighing(p, k, ma - mu, mb - mu, v);
    assert Square(mu - mb) == Square(mb - mu);
  }

  lemma Weighing(p: real, k: real, y: real, x: real, v: real)
    requires p > 0.0 && k > 0.0
    requires p * y + k * x == 0.0
    requires (p + k) * v >= p * Square(y) + k * Square(x)
    ensures k * Square(x) <= p * v
  {
    assert (p * y) * (p * y) == (k * x) * (k * x);
    assert p * ((p + k) * v) >= p * (p * Square(y) + k * Square(x));
    assert p * (p * Square(y)) == (p * y) * (p * y);
    assert (k * x) * (k * x) == k * (k * Square(x));
    assert p * (k * Square(x)) + k * (k * Square(x)) == (p + k) * (k * Square(x));
    assert (p + k) * (p * v) >= (p + k) * (k * Square(x));
  }

  // The last n values of a history, or all of it.
  function Window(h: seq<real>, n: nat): (w: seq<real>)
    ensures |w| == if |h| < n then |h| else n
  {
    if |h| <= n then h else h[|h| - n..]
  }

  // When the mean over the last k values lies more than s below the mean over the
  // last 10 k, s being the longer window's standard deviation, then s is positive
  // and the mean lies less than 3 s below, inclusively.
  lemma DropIsBounded(h: seq<real>, k: nat, s: real)
    requires k > 0 && s >= 0.0 && Times(s, s) == Variance(Window(h, 10 * k))
    requires Mean(Window(h, k)) < Mean(Window(h, 10 * k)) - s
    ensures s > 0.0
    ensures s < Mean(Window(h, 10 * k)) - Mean(Window(h, k)) <= 3.0 * s
  {
    var long, short := Window(h, 10 * k), Window(h, k);
    if h != [] {
      var a := long[..|long| - |short|];
      assert long == a + short;
      PartMeanBound(a, short);
      assert |a| <= 9 * |short|;
      ThreeSigma(Len(short), Len(a), Mean(long) - Mean(short), s);
    }
  }

  lemma ThreeSigma(k: real, p: real, x: real, s: real)
    requires k > 0.0 && 0.0 <= p <= 9.0 * k && s >= 0.0 && x > s
    requires Times(k, Square(x)) <= Times(p, Times(s, s))
    ensures s > 0.0 && x <= 3.0 * s
  {
    assert p * (s * s) <= (9.0 * k) * (s * s);
    assert (9.0 * k) * (s * s) == k * ((3.0 * s) * (3.0 * s));
    assert Times(k, Square(x)) == k * (x * x);
    assert Times(p, Times(s, s)) == p * (s * s);
    if x > 3.0 * s {
      SquareGrows(3.0 * s, x);
      Scale(k, (3.0 * s) * (3.0 * s), x * x);
    }
  }

  lemma Scale(k: real, x: real, y: real)
    requires k > 0.0 && x < y
    ensures k * x < k * y
  {
    assert k * (y - x) > 0.0;
  }

  lemma SquareGrows(x: real, y: real)
    requires 0.0 <= x < y
    ensures x * x < y * y
  {
    assert x * (y - x) >= 0.0;
    Scale(y, x, y);
  }

  // The slow-down factor computed from such a drop.
  function DropFactor(mu: real, c: real, s: real): real
    requires s != 0.0
  {
    ((mu - c) / s + 1.0) * 2.0
  }

  lemma DropFactorBounds(mu: real, c: real, s: real)
    requires s > 0.0 && s < mu - c <= 3.0 * s
    ensures 4.0 < DropFactor(mu, c, s) <= 8.0
  {
    var q := (mu - c) / s;
    assert s * q == mu - c;
    if q > 3.0 {
      Scale(s, 3.0, q);
    }
    if q < 1.0 {
      Scale(s, q, 1.0);
    }
  }

  // What is asked of a square-root function.
  ghost predicate RootAt(root: real -> real, x: real) {
    root(x) >= 0.0 && Times(root(x), root(x)) == x
  }

  ghost predicate IsRoot(root: real -> real) {
    forall x :: x >= 0.0 ==> RootAt(root, x)
  }

  lemma RootOfZero(root: real -> real)
    requires IsRoot(root)
    ensures root(0.0) == 0.0
  {
    assert RootAt(root, 0.0);
    if root(0.0) > 0.0 {
      SquareGrows(0.0, root(0.0));
    }
  }

  lemma VarianceNonNegative(s: seq<real>)
    ensures Variance(s) >= 0.0
  {
    DeviationNonNegative(s, Mean(s));
  }
}
