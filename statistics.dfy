/** The per-class statistics that fitting stores: column means, population
    variances and class priors, over exact reals. */
module Statistics {
  import opened Dataset

  lemma {:induction false} SquareNonNegative(a: real)
    ensures a * a >= 0.0
  {
    if a < 0.0 {
      var b := -a;
      assert b * b > 0.0;
      assert a * a == b * b;
    }
  }

  /** The fraction `part / whole` of two counts. */
  function Share(part: nat, whole: nat): (r: real)
    requires whole > 0
    ensures r >= 0.0
    ensures r > 0.0 <==> part > 0
    ensures part <= whole ==> r <= 1.0
  {
    part as real / whole as real
  }

  /** A share is one exactly when the part is the whole. */
  lemma ShareIsOne(part: nat, whole: nat)
    requires whole > 0
    ensures Share(part, whole) == 1.0 <==> part == whole
  {
  }

  /** Shares of one whole add up as their parts do. */
  lemma ShareAdd(a: nat, b: nat, n: nat)
    requires n > 0
    ensures Share(a, n) + Share(b, n) == Share(a + b, n)
  {
  }

  /** The sum of a sequence of reals; values that are all non-negative have a non-negative sum. */
  function Sum(s: seq<real>): (r: real)
    ensures (forall i :: 0 <= i < |s| ==> s[i] >= 0.0) ==> r >= 0.0
  {
    if s == [] then 0.0 else Sum(s[..|s| - 1]) + s[|s| - 1]
  }

  lemma {:induction false} SumConcat(a: seq<real>, b: seq<real>)
    ensures Sum(a + b) == Sum(a) + Sum(b)
    decreases |b|
  {
    if b == [] {
      assert a + b == a;
    } else {
      SumConcat(a, b[..|b| - 1]);
      assert (a + b)[..|a + b| - 1] == a + b[..|b| - 1];
    }
  }

  /** Column `d` of `rows`. */
  function Column(rows: seq<Row>, d: nat): (col: seq<real>)
    requires forall i :: 0 <= i < |rows| ==> d < |rows[i]|
    ensures |col| == |rows|
    ensures forall i :: 0 <= i < |rows| ==> col[i] == rows[i][d]
  {
    seq(|rows|, i requires 0 <= i < |rows| => rows[i][d])
  }

  /** The arithmetic mean: the value whose `|v|` copies add up to the sum of `v`. */
  function Mean(v: seq<real>): (r: real)
    requires |v| > 0
    ensures r * |v| as real == Sum(v)
  {
    Sum(v) / |v| as real
  }

  lemma {:induction false} SumBounds(v: seq<real>, lo: real, hi: real)
    requires forall i :: 0 <= i < |v| ==> lo <= v[i] <= hi
    ensures |v| as real * lo <= Sum(v) <= |v| as real * hi
  {
    if v != [] {
      SumBounds(v[..|v| - 1], lo, hi);
      assert |v| as real * lo == (|v| - 1) as real * lo + lo;
      assert |v| as real * hi == (|v| - 1) as real * hi + hi;
    }
  }

  /** A mean lies between any lower and upper bound of the values it averages. */
  lemma {:induction false} MeanBounds(v: seq<real>, lo: real, hi: real)
    requires |v| > 0
    requires forall i :: 0 <= i < |v| ==> lo <= v[i] <= hi
    ensures lo <= Mean(v) <= hi
  {
    SumBounds(v, lo, hi);
    var n := |v| as real;
    assert Sum(v) == Mean(v) * n;
    assert n * lo <= n * Mean(v) <= n * hi;
  }

  /** The sum of the squared deviations of `v` from `m`. */
  function SquaredDeviations(v: seq<real>, m: real): (r: real)
    ensures r >= 0.0
  {
    if v == [] then 0.0
    else
      var x := v[|v| - 1];
      var p := (x - m) * (x - m);
      SquareNonNegative(x - m);
      assert p >= 0.0;
      SquaredDeviations(v[..|v| - 1], m) + p
  }

  /** The population variance: squared deviations from the mean, divided by the count. */
  function Variance(v: seq<real>): (r: real)
    requires |v| > 0
    ensures r >= 0.0
  {
    SquaredDeviations(v, Mean(v)) / |v| as real
  }

  /** Values that all equal `m` have no squared deviation from it. */
  lemma {:induction false} SquaredDeviationsOfConstant(v: seq<real>, m: real)
    requires forall i :: 0 <= i < |v| ==> v[i] == m
    ensures SquaredDeviations(v, m) == 0.0
  {
    if v != [] {
      var init := v[..|v| - 1];
      SquaredDeviationsOfConstant(init, m);
      ZeroSquare(v[|v| - 1] - m);
    }
  }

  lemma {:induction false} ZeroSquare(a: real)
    requires a == 0.0
    ensures a * a == 0.0
  {
  }

  /** A column whose values are all equal has variance zero. */
  lemma {:induction false} VarianceOfConstant(v: seq<real>)
    requires |v| > 0
    requires forall i :: 0 <= i < |v| ==> v[i] == v[0]
    ensures Mean(v) == v[0]
    ensures Variance(v) == 0.0
  {
    MeanBounds(v, v[0], v[0]);
    SquaredDeviationsOfConstant(v, v[0]);
  }

  /** Per-column means of `rows` (`rows.mean(axis=0)`). */
  function ColumnMeans(rows: seq<Row>, width: nat): (m: Row)
    requires |rows| > 0 && HasWidth(rows, width)
    ensures |m| == width
    ensures forall d :: 0 <= d < width ==> m[d] * |rows| as real == Sum(Column(rows, d))
  {
    seq(width, d requires 0 <= d < width => Mean(Column(rows, d)))
  }

  /** Per-column population variances of `rows` (`rows.var(axis=0)`). */
  function ColumnVariances(rows: seq<Row>, width: nat): (v: Row)
    requires |rows| > 0 && HasWidth(rows, width)
    ensures |v| == width
    ensures forall d :: 0 <= d < width ==> v[d] >= 0.0
  {
    seq(width, d requires 0 <= d < width => Variance(Column(rows, d)))
  }

  /** The share of the rows of `y` that carry label `c`. */
  function Prior(y: seq<Label>, c: Label): (p: real)
    requires |y| > 0
    ensures 0.0 <= p <= 1.0
    ensures p > 0.0 <==> c in y
  {
    Share(Count(y, c), |y|)
  }

  /** The prior of each label of `cs`, in the order of `cs`. */
  function Priors(y: seq<Label>, cs: seq<Label>): (ps: seq<real>)
    requires forall k :: 0 <= k < |cs| ==> cs[k] in y
    ensures |ps| == |cs|
    ensures forall k :: 0 <= k < |cs| ==> ps[k] > 0.0
  {
    seq(|cs|, k requires 0 <= k < |cs| => Prior(y, cs[k]))
  }

  lemma {:induction false} SumOfPriors(y: seq<Label>, cs: seq<Label>)
    requires |y| > 0
    requires forall k :: 0 <= k < |cs| ==> cs[k] in y
    ensures Sum(Priors(y, cs)) == Share(TotalCount(y, cs), |y|)
  {
    if cs != [] {
      var init := cs[..|cs| - 1];
      SumOfPriors(y, init);
      assert Priors(y, cs)[..|cs| - 1] == Priors(y, init);
      ShareAdd(TotalCount(y, init), Count(y, cs[|cs| - 1]), |y|);
    }
  }

  /** The priors of the sorted distinct labels of a non-empty `y` add up to one. */
  lemma {:induction false} PriorsSumToOne(y: seq<Label>)
    requires |y| > 0
    ensures Sum(Priors(y, Unique(y))) == 1.0
  {
    var cs := Unique(y);
    assert forall k :: 0 <= k < |cs| ==> cs[k] in y;
    SumOfPriors(y, cs);
    assert forall i :: 0 <= i < |y| ==> y[i] in cs;
    TotalCountCovers(y, cs);
    ShareIsOne(|y|, |y|);
  }
}
