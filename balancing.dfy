/** Class balancing of a labelled diagnosis dataset: when the benign and the
    malignant counts differ by more than a tenth of the smaller count, the
    dataset is cut down to every row of the smaller class followed by as many
    distinct rows drawn from the larger class. */
module Balancing {
  import opened Dataset

  /** One record of the dataset: its diagnosis label and its remaining columns. */
  datatype Sample = Sample(diagnosis: Label, features: Row)

  /** The outcome of balancing: the new dataset, or the label whose count lookup fails. */
  datatype Result<T> = Ok(value: T) | KeyError(missing: Label)

  const Benign: Label := 0
  const Malignant: Label := 1

  /** The diagnosis column. */
  function Diagnoses(data: seq<Sample>): (ds: seq<Label>)
    ensures |ds| == |data|
    ensures forall i :: 0 <= i < |data| ==> ds[i] == data[i].diagnosis
  {
    seq(|data|, i requires 0 <= i < |data| => data[i].diagnosis)
  }

  /** Every record is either benign or malignant. */
  predicate Binary(data: seq<Sample>) {
    forall i :: 0 <= i < |data| ==> data[i].diagnosis == Benign || data[i].diagnosis == Malignant
  }

  function Min(a: nat, b: nat): nat {
    if a <= b then a else b
  }

  /** The counts are more than ten percent of the smaller count apart. */
  predicate NeedsBalancing(benign: nat, malignant: nat)
    ensures NeedsBalancing(benign, malignant) ==> benign != malignant
  {
    (if benign >= malignant then benign - malignant else malignant - benign) as real
      > 0.1 * Min(benign, malignant) as real
  }

  /** The threshold on whole counts: ten times the gap exceeds the smaller count. */
  lemma NeedsBalancingIff(benign: nat, malignant: nat)
    ensures NeedsBalancing(benign, malignant)
        <==> 10 * (if benign >= malignant then benign - malignant else malignant - benign) > Min(benign, malignant)
  {
  }

  /** Only unequal counts are ever rebalanced. */
  lemma EqualCountsAreBalanced(n: nat)
    ensures !NeedsBalancing(n, n)
  {
  }

  /** `draw` names `size` different records of `data`, all carrying `c`: one
      outcome of drawing without replacement from the rows of that class. */
  predicate IsDraw(data: seq<Sample>, draw: seq<nat>, c: Label, size: nat) {
    && |draw| == size
    && Distinct(draw)
    && forall k :: 0 <= k < |draw| ==> draw[k] < |data| && data[draw[k]].diagnosis == c
  }

  /** The count that `value_counts` reports for label `c`, of the two diagnoses. */
  function CountOf(benign: nat, malignant: nat, c: Label): nat {
    if c == Benign then benign else malignant
  }

  /** The class with fewer records (`idxmin` of the counts). */
  function Smaller(benign: nat, malignant: nat): (c: Label)
    ensures c == Benign || c == Malignant
    ensures CountOf(benign, malignant, c) == Min(benign, malignant)
  {
    if benign <= malignant then Benign else Malignant
  }

  /** The class with more records (`idxmax` of the counts); it is never the smaller class. */
  function Larger(benign: nat, malignant: nat): (c: Label)
    ensures c == Benign || c == Malignant
    ensures c != Smaller(benign, malignant)
    ensures CountOf(benign, malignant, c) >= CountOf(benign, malignant, Smaller(benign, malignant))
  {
    if benign <= malignant then Malignant else Benign
  }

  /** A draw as `np.random.choice(..., replace=False)` needs it always exists: the larger
      class holds at least `Min(b, m)` records, for instance its first ones. */
  lemma DrawExists(data: seq<Sample>)
    ensures var b, m := Count(Diagnoses(data), Benign), Count(Diagnoses(data), Malignant);
      IsDraw(data, Indices(Diagnoses(data), Larger(b, m))[..Min(b, m)], Larger(b, m), Min(b, m))
  {
    var ds := Diagnoses(data);
    var b, m := Count(ds, Benign), Count(ds, Malignant);
    var l := Larger(b, m);
    assert |Indices(ds, l)| == Count(ds, l) == CountOf(b, m, l) >= Min(b, m);
    var draw := Indices(ds, l)[..Min(b, m)];
    assert forall k :: 0 <= k < |draw| ==> draw[k] == Indices(ds, l)[k];
  }

  /** Balances `data`; `draw` is the outcome of the random choice from the larger class. */
  function BalanceClasses(data: seq<Sample>, draw: seq<nat>): (r: Result<seq<Sample>>)
    requires Binary(data)
    requires var b, m := Count(Diagnoses(data), Benign), Count(Diagnoses(data), Malignant);
      b > 0 && m > 0 && NeedsBalancing(b, m) ==> IsDraw(data, draw, Larger(b, m), Min(b, m))
    ensures var b, m := Count(Diagnoses(data), Benign), Count(Diagnoses(data), Malignant);
      && (r.KeyError? <==> b == 0 || m == 0)
      && (r.KeyError? ==> r.missing == if b == 0 then Benign else Malignant)
      && (r.Ok? && !NeedsBalancing(b, m) ==> r.value == data)
      && (r.Ok? && NeedsBalancing(b, m) ==>
            && Count(Diagnoses(r.value), Benign) == Min(b, m)
            && Count(Diagnoses(r.value), Malignant) == Min(b, m)
            && |r.value| == 2 * Min(b, m)
            && r.value[..Min(b, m)] == Select(data, Diagnoses(data), Smaller(b, m))
            && r.value[Min(b, m)..] == Pick(data, draw))
  {
    var ds := Diagnoses(data);
    var b, m := Count(ds, Benign), Count(ds, Malignant);
    if b == 0 then KeyError(Benign)
    else if m == 0 then KeyError(Malignant)
    else if NeedsBalancing(b, m) then
      var kept := Select(data, ds, Smaller(b, m));
      var drawn := Pick(data, draw);
      BalancedCounts(data, b, m, kept, drawn);
      Ok(kept + drawn)
    else Ok(data)
  }

  /** The counts of the rebalanced dataset: the kept rows all carry the smaller label,
      the drawn rows all carry the larger one, and there are `Min(b, m)` of each. */
  lemma BalancedCounts(data: seq<Sample>, b: nat, m: nat, kept: seq<Sample>, drawn: seq<Sample>)
    requires b == Count(Diagnoses(data), Benign) && m == Count(Diagnoses(data), Malignant)
    requires kept == Select(data, Diagnoses(data), Smaller(b, m))
    requires |drawn| == Min(b, m)
    requires forall k :: 0 <= k < |drawn| ==> drawn[k].diagnosis == Larger(b, m)
    ensures Count(Diagnoses(kept + drawn), Benign) == Min(b, m)
    ensures Count(Diagnoses(kept + drawn), Malignant) == Min(b, m)
  {
    var s, l := Smaller(b, m), Larger(b, m);
    SelectedLabels(data, s);
    UniformCounts(kept, s, l);
    UniformCounts(drawn, l, s);
    assert Diagnoses(kept + drawn) == Diagnoses(kept) + Diagnoses(drawn);
    CountConcat(Diagnoses(kept), Diagnoses(drawn), Benign);
    CountConcat(Diagnoses(kept), Diagnoses(drawn), Malignant);
  }

  /** Every record selected for label `c` carries `c`. */
  lemma SelectedLabels(data: seq<Sample>, c: Label)
    ensures forall k :: 0 <= k < |Select(data, Diagnoses(data), c)| ==> Select(data, Diagnoses(data), c)[k].diagnosis == c
  {
    var ds := Diagnoses(data);
    forall k | 0 <= k < |Select(data, ds, c)| ensures Select(data, ds, c)[k].diagnosis == c {
      assert Select(data, ds, c)[k] == data[Indices(ds, c)[k]];
    }
  }

  /** Records that all carry `c` count once each for `c` and never for another label. */
  lemma UniformCounts(samples: seq<Sample>, c: Label, other: Label)
    requires forall k :: 0 <= k < |samples| ==> samples[k].diagnosis == c
    ensures Count(Diagnoses(samples), c) == |samples|
    ensures other != c ==> Count(Diagnoses(samples), other) == 0
  {
    CountUniform(Diagnoses(samples), c, other);
  }

  /** A balanced result is left alone by a second balancing, whatever is drawn then. */
  lemma BalanceIdempotent(data: seq<Sample>, draw: seq<nat>, draw': seq<nat>)
    requires Binary(data)
    requires var b, m := Count(Diagnoses(data), Benign), Count(Diagnoses(data), Malignant);
      b > 0 && m > 0 && NeedsBalancing(b, m) ==> IsDraw(data, draw, Larger(b, m), Min(b, m))
    requires BalanceClasses(data, draw).Ok?
    ensures Binary(BalanceClasses(data, draw).value)
    ensures BalanceClasses(BalanceClasses(data, draw).value, draw') == BalanceClasses(data, draw)
  {
    var out := BalanceClasses(data, draw).value;
    var ds := Diagnoses(data);
    var b, m := Count(ds, Benign), Count(ds, Malignant);
    if NeedsBalancing(b, m) {
      var n := Min(b, m);
      forall i | 0 <= i < |out| ensures out[i].diagnosis == Benign || out[i].diagnosis == Malignant {
        if i < n {
          assert out[i] == out[..n][i];
        } else {
          assert out[i] == out[n..][i - n];
        }
      }
      EqualCountsAreBalanced(n);
    }
  }

  /** Balancing never invents or duplicates records: the result is a sub-multiset of the input. */
  lemma BalanceKeepsRecords(data: seq<Sample>, draw: seq<nat>)
    requires Binary(data)
    requires var b, m := Count(Diagnoses(data), Benign), Count(Diagnoses(data), Malignant);
      b > 0 && m > 0 && NeedsBalancing(b, m) ==> IsDraw(data, draw, Larger(b, m), Min(b, m))
    requires BalanceClasses(data, draw).Ok?
    ensures multiset(BalanceClasses(data, draw).value) <= multiset(data)
  {
    var ds := Diagnoses(data);
    var b, m := Count(ds, Benign), Count(ds, Malignant);
    if NeedsBalancing(b, m) {
      var s, l := Smaller(b, m), Larger(b, m);
      var kept := Indices(ds, s);
      forall i, j | 0 <= i < |kept| && 0 <= j < |draw| ensures kept[i] != draw[j] {
        assert ds[kept[i]] == s && data[draw[j]].diagnosis == l;
      }
      DistinctConcat(kept, draw);
      PickConcat(data, kept, draw);
      PickDistinctIsSubMultiset(data, kept + draw);
    }
  }
}
