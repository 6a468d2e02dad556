/** The accuracy score: the share of positions at which the true and the
    predicted labels agree. */
module Metrics {
  import opened Dataset
  import opened Statistics

  /** The number of positions at which `a` and `b` hold the same label. */
  function Matches(a: seq<Label>, b: seq<Label>): (n: nat)
    requires |a| == |b|
    ensures n <= |a|
    ensures n == |a| <==> a == b
    ensures n == 0 <==> forall i :: 0 <= i < |a| ==> a[i] != b[i]
  {
    if a == [] then 0
    else
      var k := |a| - 1;
      assert a == a[..k] + [a[k]] && b == b[..k] + [b[k]];
      assert forall i :: 0 <= i < k ==> a[..k][i] == a[i] && b[..k][i] == b[i];
      Matches(a[..k], b[..k]) + (if a[k] == b[k] then 1 else 0)
  }

  /** The fraction of positions at which the predictions `yPred` hit the true labels `yTrue`. */
  function Accuracy(yTrue: seq<Label>, yPred: seq<Label>): (acc: real)
    requires |yTrue| == |yPred| && |yTrue| > 0
    ensures 0.0 <= acc <= 1.0
    ensures acc == 1.0 <==> yTrue == yPred
    ensures acc == 0.0 <==> forall i :: 0 <= i < |yTrue| ==> yTrue[i] != yPred[i]
  {
    ShareIsOne(Matches(yTrue, yPred), |yTrue|);
    Share(Matches(yTrue, yPred), |yTrue|)
  }

  /** Swapping the true and the predicted labels does not change the accuracy. */
  lemma {:induction false} AccuracySymmetric(yTrue: seq<Label>, yPred: seq<Label>)
    requires |yTrue| == |yPred| && |yTrue| > 0
    ensures Accuracy(yTrue, yPred) == Accuracy(yPred, yTrue)
  {
    MatchesSymmetric(yTrue, yPred);
  }

  lemma {:induction false} MatchesSymmetric(a: seq<Label>, b: seq<Label>)
    requires |a| == |b|
    ensures Matches(a, b) == Matches(b, a)
  {
    if a != [] {
      MatchesSymmetric(a[..|a| - 1], b[..|b| - 1]);
    }
  }
}
