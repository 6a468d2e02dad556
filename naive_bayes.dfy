/** The Gaussian Naive Bayes classifier: fitting fills per-class tables of
    column means, column variances and priors; prediction scores every class
    by its log-prior plus its summed per-feature log-densities and returns the
    first class with the highest score. The density and the logarithm are
    transcendental and enter as parameters `pdf` and `ln`. */
module NaiveBayes {
  import opened Dataset
  import opened Statistics

  /** The fitted state as values: labels, one mean row and one variance row per
      label, and one prior per label, all indexed alike. */
  datatype Parameters = Parameters(classes: seq<Label>, mean: seq<Row>, variance: seq<Row>, priors: seq<real>)

  /** Every table has one entry per class and every statistics row `width` entries. */
  predicate Shaped(p: Parameters, width: nat) {
    && |p.mean| == |p.classes| && |p.variance| == |p.classes| && |p.priors| == |p.classes|
    && HasWidth(p.mean, width) && HasWidth(p.variance, width)
  }

  /** The tables that fitting on `X`, `y` produces, stated as values. */
  function Train(X: seq<Row>, y: seq<Label>, width: nat): (p: Parameters)
    requires |X| == |y| && HasWidth(X, width)
    ensures Shaped(p, width)
    ensures StrictlyIncreasing(p.classes)
    ensures forall c :: c in p.classes <==> c in y
    ensures forall k :: 0 <= k < |p.classes| ==> Select(X, y, p.classes[k]) != []
    ensures forall k :: 0 <= k < |p.classes| ==> p.priors[k] > 0.0
    ensures forall k, d :: 0 <= k < |p.classes| && 0 <= d < width ==> p.variance[k][d] >= 0.0
  {
    var cs := Unique(y);
    Parameters(
      cs,
      seq(|cs|, k requires 0 <= k < |cs| => ColumnMeans(Select(X, y, cs[k]), width)),
      seq(|cs|, k requires 0 <= k < |cs| => ColumnVariances(Select(X, y, cs[k]), width)),
      Priors(y, cs))
  }

  /** The entries of the fitted tables for class index `k`. */
  lemma TrainRow(X: seq<Row>, y: seq<Label>, width: nat, k: nat)
    requires |X| == |y| && HasWidth(X, width)
    requires k < |Unique(y)|
    ensures Unique(y)[k] in y && |y| > 0
    ensures Train(X, y, width).mean[k] == ColumnMeans(Select(X, y, Unique(y)[k]), width)
    ensures Train(X, y, width).variance[k] == ColumnVariances(Select(X, y, Unique(y)[k]), width)
    ensures Train(X, y, width).priors[k] == Share(|Select(X, y, Unique(y)[k])|, |X|)
  {
    assert Unique(y)[k] in Unique(y);
  }

  /** The fitted priors of a non-empty training set add up to one. */
  lemma FittedPriorsSumToOne(X: seq<Row>, y: seq<Label>, width: nat)
    requires |X| == |y| && HasWidth(X, width) && |y| > 0
    ensures Sum(Train(X, y, width).priors) == 1.0
  {
    PriorsSumToOne(y);
  }

  /** Each fitted prior is the share of the training rows that carry its label. */
  lemma FittedPriorIsShare(X: seq<Row>, y: seq<Label>, width: nat, k: nat)
    requires |X| == |y| && HasWidth(X, width)
    requires k < |Train(X, y, width).classes|
    ensures |y| > 0
    ensures Train(X, y, width).priors[k] == Share(Count(y, Train(X, y, width).classes[k]), |y|)
  {
    var p := Train(X, y, width);
    assert p.classes[k] in y;
  }

  /** A fitted mean lies within any bounds that hold for that feature over the rows of its class. */
  lemma FittedMeanWithinClassRange(X: seq<Row>, y: seq<Label>, width: nat, k: nat, d: nat, lo: real, hi: real)
    requires |X| == |y| && HasWidth(X, width)
    requires k < |Train(X, y, width).classes| && d < width
    requires forall i :: 0 <= i < |y| && y[i] == Train(X, y, width).classes[k] ==> lo <= X[i][d] <= hi
    ensures lo <= Train(X, y, width).mean[k][d] <= hi
  {
    var p := Train(X, y, width);
    var rows := Select(X, y, p.classes[k]);
    var col := Column(rows, d);
    forall j | 0 <= j < |col| ensures lo <= col[j] <= hi {
      var i := Indices(y, p.classes[k])[j];
      assert col[j] == X[i][d] && y[i] == p.classes[k];
    }
    MeanBounds(col, lo, hi);
  }

  /** A feature that takes one value over all rows of a class gets that value as mean and zero variance. */
  lemma FittedConstantFeature(X: seq<Row>, y: seq<Label>, width: nat, k: nat, d: nat, value: real)
    requires |X| == |y| && HasWidth(X, width)
    requires k < |Train(X, y, width).classes| && d < width
    requires forall i :: 0 <= i < |y| && y[i] == Train(X, y, width).classes[k] ==> X[i][d] == value
    ensures Train(X, y, width).mean[k][d] == value
    ensures Train(X, y, width).variance[k][d] == 0.0
  {
    var p := Train(X, y, width);
    var rows := Select(X, y, p.classes[k]);
    var col := Column(rows, d);
    forall j | 0 <= j < |col| ensures col[j] == value {
      var i := Indices(y, p.classes[k])[j];
      assert col[j] == X[i][d] && y[i] == p.classes[k];
    }
    VarianceOfConstant(col);
  }

  /** The log-density of each feature of `x` under one class's mean and variance rows. */
  function LogDensities(mean: Row, variance: Row, x: Row, ln: real -> real, pdf: (real, real, real) -> real): (t: seq<real>)
    requires |mean| == |x| && |variance| == |x|
    ensures |t| == |x|
  {
    seq(|x|, d requires 0 <= d < |x| => ln(pdf(x[d], mean[d], variance[d])))
  }

  /** The naive independence assumption: the log-likelihood of a row split into two
      groups of features is the sum of the log-likelihoods of the groups. */
  lemma {:induction false} LogLikelihoodSplits(m1: Row, v1: Row, x1: Row, m2: Row, v2: Row, x2: Row,
                                               ln: real -> real, pdf: (real, real, real) -> real)
    requires |m1| == |x1| && |v1| == |x1| && |m2| == |x2| && |v2| == |x2|
    ensures Sum(LogDensities(m1 + m2, v1 + v2, x1 + x2, ln, pdf))
         == Sum(LogDensities(m1, v1, x1, ln, pdf)) + Sum(LogDensities(m2, v2, x2, ln, pdf))
  {
    assert LogDensities(m1 + m2, v1 + v2, x1 + x2, ln, pdf)
        == LogDensities(m1, v1, x1, ln, pdf) + LogDensities(m2, v2, x2, ln, pdf);
    SumConcat(LogDensities(m1, v1, x1, ln, pdf), LogDensities(m2, v2, x2, ln, pdf));
  }

  /** The posterior score of class `k` for row `x`: summed log-densities plus the log-prior. */
  function Score(p: Parameters, k: nat, x: Row, ln: real -> real, pdf: (real, real, real) -> real): real
    requires k < |p.classes| && Shaped(p, |x|)
  {
    Sum(LogDensities(p.mean[k], p.variance[k], x, ln, pdf)) + ln(p.priors[k])
  }

  /** The scores of all classes, in class order. */
  function Scores(p: Parameters, x: Row, ln: real -> real, pdf: (real, real, real) -> real): (s: seq<real>)
    requires Shaped(p, |x|)
    ensures |s| == |p.classes|
    ensures forall k :: 0 <= k < |s| ==> s[k] == Score(p, k, x, ln, pdf)
  {
    seq(|p.classes|, k requires 0 <= k < |p.classes| => Score(p, k, x, ln, pdf))
  }

  /** Index `i` holds the maximum of `s`, and no earlier index reaches it. */
  predicate IsFirstMax(s: seq<real>, i: nat) {
    && i < |s|
    && (forall j :: 0 <= j < |s| ==> s[j] <= s[i])
    && (forall j :: 0 <= j < i ==> s[j] < s[i])
  }

  /** The position of the first maximum, as numpy's `argmax` returns it. */
  function ArgMax(s: seq<real>): (i: nat)
    requires |s| > 0
    ensures IsFirstMax(s, i)
  {
    if |s| == 1 then 0
    else
      var j := ArgMax(s[..|s| - 1]);
      if s[|s| - 1] > s[j] then |s| - 1 else j
  }

  /** At most one index is the first maximum of a sequence. */
  lemma FirstMaxUnique(s: seq<real>, i: nat, j: nat)
    requires IsFirstMax(s, i) && IsFirstMax(s, j)
    ensures i == j
  {
    assert s[i] <= s[j] && s[j] <= s[i];
  }

  /** The label predicted for row `x`: the class at the first maximal score. */
  function Classify(p: Parameters, x: Row, ln: real -> real, pdf: (real, real, real) -> real): (c: Label)
    requires Shaped(p, |x|) && |p.classes| > 0
    ensures c in p.classes
  {
    p.classes[ArgMax(Scores(p, x, ln, pdf))]
  }

  /** With distinct labels, the prediction is `classes[i]` exactly when `i` is the first
      index of a maximal score. */
  lemma ClassifyIsFirstMax(p: Parameters, x: Row, ln: real -> real, pdf: (real, real, real) -> real, i: nat)
    requires Shaped(p, |x|) && StrictlyIncreasing(p.classes) && i < |p.classes|
    ensures Classify(p, x, ln, pdf) == p.classes[i] <==> IsFirstMax(Scores(p, x, ln, pdf), i)
  {
    var s := Scores(p, x, ln, pdf);
    var a := ArgMax(s);
    if IsFirstMax(s, i) {
      FirstMaxUnique(s, a, i);
    } else if a != i {
      if a < i {
        assert p.classes[a] < p.classes[i];
      } else {
        assert p.classes[i] < p.classes[a];
      }
    }
  }

  /** On a tie for the best score, the earlier class wins. */
  lemma TieGoesToEarlierClass(p: Parameters, x: Row, ln: real -> real, pdf: (real, real, real) -> real, k: nat, k': nat)
    requires Shaped(p, |x|) && StrictlyIncreasing(p.classes)
    requires k < k' < |p.classes|
    requires Score(p, k, x, ln, pdf) == Score(p, k', x, ln, pdf)
    ensures Classify(p, x, ln, pdf) != p.classes[k']
  {
    ClassifyIsFirstMax(p, x, ln, pdf, k');
    assert Scores(p, x, ln, pdf)[k] == Scores(p, x, ln, pdf)[k'];
  }

  /** Two classes with the same mean and variance rows are told apart only by their
      priors: under an increasing logarithm the class with the larger prior scores
      higher, so the other one is never predicted. */
  lemma LargerPriorWins(p: Parameters, x: Row, ln: real -> real, pdf: (real, real, real) -> real, k: nat, k': nat)
    requires Shaped(p, |x|) && StrictlyIncreasing(p.classes)
    requires k < |p.classes| && k' < |p.classes|
    requires p.mean[k] == p.mean[k'] && p.variance[k] == p.variance[k']
    requires 0.0 < p.priors[k'] < p.priors[k]
    requires forall a, b :: 0.0 < a < b ==> ln(a) < ln(b)
    ensures Score(p, k', x, ln, pdf) < Score(p, k, x, ln, pdf)
    ensures Classify(p, x, ln, pdf) != p.classes[k']
  {
    assert ln(p.priors[k']) < ln(p.priors[k]);
    ClassifyIsFirstMax(p, x, ln, pdf, k');
    assert Scores(p, x, ln, pdf)[k'] < Scores(p, x, ln, pdf)[k];
  }

  /** Two classes with identical means, variances and priors tie on every row, and the
      earlier of them is preferred: the later one is never predicted. */
  lemma IdenticalClassesPreferEarlier(p: Parameters, x: Row, ln: real -> real, pdf: (real, real, real) -> real, k: nat, k': nat)
    requires Shaped(p, |x|) && StrictlyIncreasing(p.classes)
    requires k < k' < |p.classes|
    requires p.mean[k] == p.mean[k'] && p.variance[k] == p.variance[k'] && p.priors[k] == p.priors[k']
    ensures Score(p, k, x, ln, pdf) == Score(p, k', x, ln, pdf)
    ensures Classify(p, x, ln, pdf) != p.classes[k']
  {
    TieGoesToEarlierClass(p, x, ln, pdf, k, k');
  }

  /** Row `k` of a two-dimensional array. */
  function RowOf(a: array2<real>, k: nat): (r: Row)
    requires k < a.Length0
    reads a
    ensures |r| == a.Length1
    ensures forall d :: 0 <= d < a.Length1 ==> r[d] == a[k, d]
  {
    seq(a.Length1, d requires 0 <= d < a.Length1 reads a => a[k, d])
  }

  /** All rows of a two-dimensional array. */
  function Rows(a: array2<real>): (rs: seq<Row>)
    reads a
    ensures |rs| == a.Length0
    ensures forall k :: 0 <= k < a.Length0 ==> rs[k] == RowOf(a, k)
  {
    seq(a.Length0, k requires 0 <= k < a.Length0 reads a => RowOf(a, k))
  }

  /** An array whose every cell agrees with `rs` holds `rs` as its rows. */
  lemma RowsFromCells(a: array2<real>, rs: seq<Row>)
    requires |rs| == a.Length0 && HasWidth(rs, a.Length1)
    requires forall k, d :: 0 <= k < a.Length0 && 0 <= d < a.Length1 ==> a[k, d] == rs[k][d]
    ensures Rows(a) == rs
  {
    forall k | 0 <= k < a.Length0 ensures Rows(a)[k] == rs[k] {
      assert RowOf(a, k) == rs[k];
    }
  }

  /** Overwrites row `k` of `a` with `values`, one cell at a time. */
  method FillRow(a: array2<real>, k: nat, values: Row)
    requires k < a.Length0 && |values| == a.Length1
    modifies a
    ensures forall i, d :: 0 <= i < a.Length0 && 0 <= d < a.Length1 ==>
      a[i, d] == if i == k then values[d] else old(a[i, d])
  {
    for d := 0 to a.Length1
      invariant forall i, e :: 0 <= i < a.Length0 && 0 <= e < a.Length1 ==>
        a[i, e] == if i == k && e < d then values[e] else old(a[i, e])
    {
      a[k, d] := values[d];
    }
  }

  /** Allocates the mean, variance and prior tables for the labels of `y` and
      fills them class by class. */
  method FitTables(X: seq<Row>, y: seq<Label>, nFeatures: nat)
      returns (cs: seq<Label>, m: array2<real>, v: array2<real>, pr: array<real>)
    requires |X| == |y| && HasWidth(X, nFeatures)
    ensures cs == Unique(y)
    ensures fresh(m) && fresh(v) && fresh(pr)
    ensures m.Length0 == v.Length0 == pr.Length == |cs|
    ensures m.Length1 == v.Length1 == nFeatures
    ensures forall k, d :: 0 <= k < |cs| && 0 <= d < nFeatures ==> m[k, d] == Train(X, y, nFeatures).mean[k][d]
    ensures forall k, d :: 0 <= k < |cs| && 0 <= d < nFeatures ==> v[k, d] == Train(X, y, nFeatures).variance[k][d]
    ensures pr[..] == Train(X, y, nFeatures).priors
  {
    cs := Unique(y);
    m := new real[|cs|, nFeatures];
    v := new real[|cs|, nFeatures];
    pr := new real[|cs|];
    FillTables(X, y, nFeatures, cs, Train(X, y, nFeatures), m, v, pr);
  }

  /** The loop of fitting: for each class index in turn, selects the rows of that class
      and stores their column means, column variances and prior. */
  method FillTables(X: seq<Row>, y: seq<Label>, nFeatures: nat, cs: seq<Label>, ghost p: Parameters,
                    m: array2<real>, v: array2<real>, pr: array<real>)
    requires |X| == |y| && HasWidth(X, nFeatures) && cs == Unique(y) && p == Train(X, y, nFeatures)
    requires m != v && m.Length0 == v.Length0 == pr.Length == |cs| && m.Length1 == v.Length1 == nFeatures
    modifies m, v, pr
    ensures forall k, d :: 0 <= k < |cs| && 0 <= d < nFeatures ==> m[k, d] == p.mean[k][d]
    ensures forall k, d :: 0 <= k < |cs| && 0 <= d < nFeatures ==> v[k, d] == p.variance[k][d]
    ensures pr[..] == p.priors
  {
    for idx := 0 to |cs|
      invariant forall k, d :: 0 <= k < idx && 0 <= d < nFeatures ==> m[k, d] == p.mean[k][d]
      invariant forall k, d :: 0 <= k < idx && 0 <= d < nFeatures ==> v[k, d] == p.variance[k][d]
      invariant forall k :: 0 <= k < idx ==> pr[k] == p.priors[k]
    {
      StoreTrainedClass(X, y, nFeatures, cs, p, m, v, pr, idx);
    }
  }

  /** One pass of the fitting loop: selects the rows of class index `k` and stores
      their statistics, which are row `k` of the reference parameters. */
  method StoreTrainedClass(X: seq<Row>, y: seq<Label>, nFeatures: nat, cs: seq<Label>, ghost p: Parameters,
                           m: array2<real>, v: array2<real>, pr: array<real>, k: nat)
    requires |X| == |y| && HasWidth(X, nFeatures) && cs == Unique(y) && p == Train(X, y, nFeatures)
    requires m != v && m.Length0 == v.Length0 == pr.Length == |cs| && m.Length1 == v.Length1 == nFeatures
    requires k < |cs|
    modifies m, v, pr
    ensures forall i, d :: 0 <= i < |cs| && 0 <= d < nFeatures ==>
      m[i, d] == (if i == k then p.mean[k][d] else old(m[i, d]))
    ensures forall i, d :: 0 <= i < |cs| && 0 <= d < nFeatures ==>
      v[i, d] == (if i == k then p.variance[k][d] else old(v[i, d]))
    ensures pr[..] == old(pr[..])[k := p.priors[k]]
  {
    var rows := Select(X, y, cs[k]);
    TrainRow(X, y, nFeatures, k);
    var means, variances, prior := ColumnMeans(rows, nFeatures), ColumnVariances(rows, nFeatures), Share(|rows|, |X|);
    StoreClass(m, v, pr, k, means, variances, prior);
  }

  /** Stores the statistics of class index `k`: its mean row, its variance row and its prior. */
  method StoreClass(m: array2<real>, v: array2<real>, pr: array<real>, k: nat, means: Row, variances: Row, prior: real)
    requires m != v && k < m.Length0 && m.Length0 == v.Length0 == pr.Length
    requires |means| == m.Length1 == v.Length1 == |variances|
    modifies m, v, pr
    ensures forall i, d :: 0 <= i < m.Length0 && 0 <= d < m.Length1 ==>
      m[i, d] == (if i == k then means[d] else old(m[i, d]))
    ensures forall i, d :: 0 <= i < v.Length0 && 0 <= d < v.Length1 ==>
      v[i, d] == (if i == k then variances[d] else old(v[i, d]))
    ensures pr[..] == old(pr[..])[k := prior]
  {
    FillRow(m, k, means);
    FillRow(v, k, variances);
    pr[k] := prior;
  }

  /** The position of the first maximum of `s`, found by one left-to-right scan. */
  method FirstMaxIndex(s: seq<real>) returns (best: nat)
    requires |s| > 0
    ensures IsFirstMax(s, best)
    ensures best == ArgMax(s)
  {
    best := 0;
    for i := 1 to |s|
      invariant best < i
      invariant forall j :: 0 <= j < i ==> s[j] <= s[best]
      invariant forall j :: 0 <= j < best ==> s[j] < s[best]
    {
      if s[i] > s[best] {
        best := i;
      }
    }
    FirstMaxUnique(s, best, ArgMax(s));
  }

  /** The classifier: fitted labels, a mean and a variance table with one row per
      label, and a prior per label. */
  class Classifier {
    var classes: seq<Label>
    var mean: array2<real>
    var variance: array2<real>
    var priors: array<real>

    /** The tables have one row per label and agree on their width. */
    ghost predicate Valid()
      reads this
    {
      && mean.Length0 == |classes| && variance.Length0 == |classes| && priors.Length == |classes|
      && variance.Length1 == mean.Length1
    }

    /** The number of features the classifier was fitted on. */
    function Width(): nat
      reads this
    {
      mean.Length1
    }

    /** The fitted state as values. */
    ghost function Current(): Parameters
      reads this, mean, variance, priors
    {
      Parameters(classes, Rows(mean), Rows(variance), priors[..])
    }

    /** A classifier that knows no labels yet. */
    constructor ()
      ensures Valid() && classes == [] && Width() == 0
    {
      classes := [];
      mean := new real[0, 0];
      variance := new real[0, 0];
      priors := new real[0];
    }

    /** Fits the tables to the training rows `X` with labels `y`. */
    method Fit(X: seq<Row>, y: seq<Label>, nFeatures: nat)
      requires |X| == |y| && HasWidth(X, nFeatures)
      modifies this
      ensures Valid() && Width() == nFeatures
      ensures fresh(mean) && fresh(variance) && fresh(priors)
      ensures Current() == Train(X, y, nFeatures)
    {
      classes, mean, variance, priors := FitTables(X, y, nFeatures);
      ghost var p := Train(X, y, nFeatures);
      RowsFromCells(mean, p.mean);
      RowsFromCells(variance, p.variance);
    }

    /** The label predicted for one row: the posterior of each class is collected in
        class order, and the class at the first maximum is returned. */
    method PredictOne(x: Row, ln: real -> real, pdf: (real, real, real) -> real) returns (predicted: Label)
      requires Valid() && |classes| > 0 && |x| == Width()
      ensures predicted == Classify(Current(), x, ln, pdf)
      ensures predicted in classes
    {
      ghost var p := Current();
      var posteriors: seq<real> := [];
      for idx := 0 to |classes|
        invariant posteriors == Scores(p, x, ln, pdf)[..idx]
      {
        var prior := ln(priors[idx]);
        var posterior := Sum(LogDensities(RowOf(mean, idx), RowOf(variance, idx), x, ln, pdf));
        posterior := posterior + prior;
        posteriors := posteriors + [posterior];
      }
      assert posteriors == Scores(p, x, ln, pdf);
      var best := FirstMaxIndex(posteriors);
      predicted := classes[best];
    }

    /** One predicted label per row of `X`, in row order; the tables are not changed. */
    method Predict(X: seq<Row>, ln: real -> real, pdf: (real, real, real) -> real) returns (yPred: seq<Label>)
      requires Valid() && HasWidth(X, Width())
      requires |X| > 0 ==> |classes| > 0
      ensures |yPred| == |X|
      ensures forall i :: 0 <= i < |X| ==> yPred[i] == Classify(Current(), X[i], ln, pdf)
    {
      yPred := [];
      for i := 0 to |X|
        invariant |yPred| == i
        invariant forall j :: 0 <= j < i ==> yPred[j] == Classify(Current(), X[j], ln, pdf)
      {
        var predicted := PredictOne(X[i], ln, pdf);
        yPred := yPred + [predicted];
      }
    }
  }
}
