/** Labels, feature rows, and the label-driven selections that fitting and
    class balancing share: counting a label, the sorted distinct labels, and
    the boolean-mask selection of the rows that carry one label. */
module Dataset {

  /** A class label; the training labels are integers. */
  type Label = int

  /** One feature row. Feature values are exact reals. */
  type Row = seq<real>

  /** Every row of `X` has exactly `width` features, as in a two-dimensional array. */
  predicate HasWidth(X: seq<Row>, width: nat) {
    forall i :: 0 <= i < |X| ==> |X[i]| == width
  }

  /** The number of positions of `y` that hold the label `c`. */
  function Count(y: seq<Label>, c: Label): (n: nat)
    ensures n <= |y|
    ensures n > 0 <==> c in y
  {
    if y == [] then 0
    else
      assert y == y[..|y| - 1] + [y[|y| - 1]];
      Count(y[..|y| - 1], c) + (if y[|y| - 1] == c then 1 else 0)
  }

  lemma {:induction false} CountConcat(a: seq<Label>, b: seq<Label>, c: Label)
    ensures Count(a + b, c) == Count(a, c) + Count(b, c)
    decreases |b|
  {
    if b == [] {
      assert a + b == a;
    } else {
      CountConcat(a, b[..|b| - 1], c);
      assert (a + b)[..|a + b| - 1] == a + b[..|b| - 1];
    }
  }

  /** When every element of `s` is `c`, `c` occurs `|s|` times and any other label never. */
  lemma {:induction false} CountUniform(s: seq<Label>, c: Label, other: Label)
    requires forall k :: 0 <= k < |s| ==> s[k] == c
    ensures Count(s, c) == |s|
    ensures other != c ==> Count(s, other) == 0
  {
    if s != [] {
      CountUniform(s[..|s| - 1], c, other);
    }
  }

  /** Positions in `ix` are pairwise different. */
  predicate Distinct(ix: seq<nat>) {
    forall k, k' :: 0 <= k < k' < |ix| ==> ix[k] != ix[k']
  }

  /** Two position lists without repeats and without common positions join into one without repeats. */
  lemma DistinctConcat(a: seq<nat>, b: seq<nat>)
    requires forall k, k' :: 0 <= k < k' < |a| ==> a[k] < a[k']
    requires Distinct(b)
    requires forall i, j :: 0 <= i < |a| && 0 <= j < |b| ==> a[i] != b[j]
    ensures Distinct(a + b)
  {
    forall k, k' | 0 <= k < k' < |a + b| ensures (a + b)[k] != (a + b)[k'] {
      if k' < |a| {
        assert (a + b)[k] == a[k] && (a + b)[k'] == a[k'];
      } else if k >= |a| {
        assert (a + b)[k] == b[k - |a|] && (a + b)[k'] == b[k' - |a|];
      } else {
        assert (a + b)[k] == a[k] && (a + b)[k'] == b[k' - |a|];
      }
    }
  }

  predicate StrictlyIncreasing(s: seq<Label>) {
    forall i, j :: 0 <= i < j < |s| ==> s[i] < s[j]
  }

  /** A label occurs exactly once in a strictly increasing sequence that holds it. */
  lemma {:induction false} CountInStrictlyIncreasing(s: seq<Label>, c: Label)
    requires StrictlyIncreasing(s) && c in s
    ensures Count(s, c) == 1
  {
    var init := s[..|s| - 1];
    assert s == init + [s[|s| - 1]];
    if s[|s| - 1] == c {
      assert c !in init by {
        forall k | 0 <= k < |init| ensures init[k] != c {
          assert init[k] == s[k] < s[|s| - 1];
        }
      }
    } else {
      CountInStrictlyIncreasing(init, c);
    }
  }

  /** Inserts `x` into the strictly increasing `s`, unless it is already there. */
  function Insert(s: seq<Label>, x: Label): (r: seq<Label>)
    requires StrictlyIncreasing(s)
    ensures StrictlyIncreasing(r)
    ensures forall z :: z in r <==> z in s || z == x
  {
    if s == [] then [x]
    else if x < s[0] then [x] + s
    else if x == s[0] then s
    else
      var rest := Insert(s[1..], x);
      InsertAbove(s, x, rest);
      [s[0]] + rest
  }

  /** What remains after the head of `s`, with `x` inserted, lies above that head. */
  lemma InsertAbove(s: seq<Label>, x: Label, rest: seq<Label>)
    requires StrictlyIncreasing(s) && |s| > 0 && s[0] < x
    requires StrictlyIncreasing(rest)
    requires forall z :: z in rest <==> z in s[1..] || z == x
    ensures StrictlyIncreasing([s[0]] + rest)
    ensures forall z :: z in [s[0]] + rest <==> z in s || z == x
  {
    assert forall z :: z in s <==> z == s[0] || z in s[1..] by {
      assert s == [s[0]] + s[1..];
    }
    forall j | 0 <= j < |rest| ensures s[0] < rest[j] {
      assert rest[j] in rest;
      if rest[j] != x {
        var i :| 0 <= i < |s[1..]| && s[1..][i] == rest[j];
        assert s[i + 1] == rest[j];
      }
    }
    var r := [s[0]] + rest;
    forall i, j | 0 <= i < j < |r| ensures r[i] < r[j] {
      if i == 0 {
        assert r[j] == rest[j - 1];
      } else {
        assert r[i] == rest[i - 1] && r[j] == rest[j - 1];
      }
    }
  }

  /** The sorted distinct labels of `y` (numpy's `unique`). */
  function Unique(y: seq<Label>): (r: seq<Label>)
    ensures StrictlyIncreasing(r)
    ensures forall z :: z in r <==> z in y
  {
    if y == [] then []
    else
      assert y == y[..|y| - 1] + [y[|y| - 1]];
      Insert(Unique(y[..|y| - 1]), y[|y| - 1])
  }

  /** The positions of `y` that hold `c`, in increasing order: the boolean mask `y == c`. */
  function Indices(y: seq<Label>, c: Label): (ix: seq<nat>)
    ensures |ix| == Count(y, c)
    ensures forall k :: 0 <= k < |ix| ==> ix[k] < |y| && y[ix[k]] == c
    ensures forall k, k' :: 0 <= k < k' < |ix| ==> ix[k] < ix[k']
    ensures forall i :: 0 <= i < |y| && y[i] == c ==> i in ix
  {
    if y == [] then []
    else
      var n := |y| - 1;
      var init := Indices(y[..n], c);
      var last := if y[n] == c then [n] else [];
      IndicesStep(y, c, init, last);
      init + last
  }

  /** One step of Indices: the positions in `y[..n]`, then `n` itself when it holds `c`. */
  lemma IndicesStep(y: seq<Label>, c: Label, init: seq<nat>, last: seq<nat>)
    requires |y| > 0
    requires |init| == Count(y[..|y| - 1], c)
    requires forall k :: 0 <= k < |init| ==> init[k] < |y| - 1 && y[..|y| - 1][init[k]] == c
    requires forall k, k' :: 0 <= k < k' < |init| ==> init[k] < init[k']
    requires forall i :: 0 <= i < |y| - 1 && y[..|y| - 1][i] == c ==> i in init
    requires last == if y[|y| - 1] == c then [|y| - 1] else []
    ensures |init + last| == Count(y, c)
    ensures forall k :: 0 <= k < |init + last| ==> (init + last)[k] < |y| && y[(init + last)[k]] == c
    ensures forall k, k' :: 0 <= k < k' < |init + last| ==> (init + last)[k] < (init + last)[k']
    ensures forall i :: 0 <= i < |y| && y[i] == c ==> i in init + last
  {
    var n := |y| - 1;
    var z := y[..n];
    assert forall i :: 0 <= i < n ==> z[i] == y[i];
    IndicesStepIn(y, c, init, last);
    IndicesStepOrder(n, init, last);
    IndicesStepComplete(y, c, init, last);
  }

  lemma IndicesStepIn(y: seq<Label>, c: Label, init: seq<nat>, last: seq<nat>)
    requires |y| > 0
    requires forall k :: 0 <= k < |init| ==> init[k] < |y| - 1 && y[init[k]] == c
    requires last == if y[|y| - 1] == c then [|y| - 1] else []
    ensures forall k :: 0 <= k < |init + last| ==> (init + last)[k] < |y| && y[(init + last)[k]] == c
  {
    forall k | 0 <= k < |init + last| ensures (init + last)[k] < |y| && y[(init + last)[k]] == c {
      if k < |init| {
        assert (init + last)[k] == init[k];
      } else {
        assert (init + last)[k] == last[k - |init|];
      }
    }
  }

  lemma IndicesStepOrder(n: nat, init: seq<nat>, last: seq<nat>)
    requires forall k :: 0 <= k < |init| ==> init[k] < n
    requires forall k, k' :: 0 <= k < k' < |init| ==> init[k] < init[k']
    requires last == [] || last == [n]
    ensures forall k, k' :: 0 <= k < k' < |init + last| ==> (init + last)[k] < (init + last)[k']
  {
    forall k, k' | 0 <= k < k' < |init + last| ensures (init + last)[k] < (init + last)[k'] {
      assert (init + last)[k] == init[k];
      if k' < |init| {
        assert (init + last)[k'] == init[k'];
      } else {
        assert (init + last)[k'] == n;
      }
    }
  }

  lemma IndicesStepComplete(y: seq<Label>, c: Label, init: seq<nat>, last: seq<nat>)
    requires |y| > 0
    requires forall i :: 0 <= i < |y| - 1 && y[i] == c ==> i in init
    requires last == if y[|y| - 1] == c then [|y| - 1] else []
    ensures forall i :: 0 <= i < |y| && y[i] == c ==> i in init + last
  {
    forall i | 0 <= i < |y| && y[i] == c ensures i in init + last {
      if i < |y| - 1 {
        assert i in init;
      } else {
        assert (init + last)[|init|] == i;
      }
    }
  }

  /** The elements of `s` at the positions `ix`, in the order of `ix`. */
  function Pick<T>(s: seq<T>, ix: seq<nat>): (r: seq<T>)
    requires forall k :: 0 <= k < |ix| ==> ix[k] < |s|
    ensures |r| == |ix|
    ensures forall k :: 0 <= k < |ix| ==> r[k] == s[ix[k]]
  {
    seq(|ix|, k requires 0 <= k < |ix| => s[ix[k]])
  }

  /** Picking at the positions `a + b` picks at `a`, then at `b`. */
  lemma PickConcat<T>(s: seq<T>, a: seq<nat>, b: seq<nat>)
    requires forall k :: 0 <= k < |a| ==> a[k] < |s|
    requires forall k :: 0 <= k < |b| ==> b[k] < |s|
    ensures forall k :: 0 <= k < |a + b| ==> (a + b)[k] < |s|
    ensures Pick(s, a + b) == Pick(s, a) + Pick(s, b)
  {
    assert forall k :: 0 <= k < |a + b| ==> (a + b)[k] == if k < |a| then a[k] else b[k - |a|];
  }

  /** Positions that all lie below `n` pick the same elements from `s` and from `s[..n]`. */
  lemma PickPrefix<T>(s: seq<T>, n: nat, ix: seq<nat>)
    requires n <= |s|
    requires forall k :: 0 <= k < |ix| ==> ix[k] < n
    ensures Pick(s, ix) == Pick(s[..n], ix)
  {
  }

  /** Taking position `p` out of `ix` takes one copy of `s[ix[p]]` out of the picked multiset. */
  lemma PickRemove<T>(s: seq<T>, ix: seq<nat>, p: nat, rest: seq<nat>)
    requires p < |ix| && rest == ix[..p] + ix[p + 1..]
    requires forall k :: 0 <= k < |ix| ==> ix[k] < |s|
    ensures forall k :: 0 <= k < |rest| ==> rest[k] < |s|
    ensures multiset(Pick(s, ix)) == multiset(Pick(s, rest)) + multiset{s[ix[p]]}
  {
    assert forall k :: 0 <= k < |rest| ==> rest[k] == (if k < p then ix[k] else ix[k + 1]);
    assert Pick(s, ix) == Pick(s, ix[..p]) + [s[ix[p]]] + Pick(s, ix[p + 1..]);
    assert Pick(s, rest) == Pick(s, ix[..p]) + Pick(s, ix[p + 1..]);
  }

  /** Picking at distinct positions never takes an element more often than `s` holds it. */
  lemma {:induction false} PickDistinctIsSubMultiset<T>(s: seq<T>, ix: seq<nat>)
    requires Distinct(ix)
    requires forall k :: 0 <= k < |ix| ==> ix[k] < |s|
    ensures multiset(Pick(s, ix)) <= multiset(s)
    decreases |s|
  {
    if s != [] {
      var n := |s| - 1;
      assert s == s[..n] + [s[n]];
      if p :| 0 <= p < |ix| && ix[p] == n {
        var rest := ix[..p] + ix[p + 1..];
        assert forall k :: 0 <= k < |rest| ==> rest[k] == (if k < p then ix[k] else ix[k + 1]);
        assert Distinct(rest);
        assert forall k :: 0 <= k < |rest| ==> rest[k] < n;
        PickRemove(s, ix, p, rest);
        PickPrefix(s, n, rest);
        PickDistinctIsSubMultiset(s[..n], rest);
      } else {
        assert forall k :: 0 <= k < |ix| ==> ix[k] < n;
        PickPrefix(s, n, ix);
        PickDistinctIsSubMultiset(s[..n], ix);
      }
    }
  }

  /** The rows of `X` whose label in `y` is `c`, in their original order (`X[y == c]`). */
  function Select<T>(X: seq<T>, y: seq<Label>, c: Label): (rows: seq<T>)
    requires |X| == |y|
    ensures |rows| == Count(y, c)
    ensures rows != [] <==> c in y
    ensures forall k :: 0 <= k < |rows| ==> rows[k] == X[Indices(y, c)[k]]
  {
    Pick(X, Indices(y, c))
  }

  /** Sum over the labels `cs` of how often each occurs in `y`. */
  function TotalCount(y: seq<Label>, cs: seq<Label>): nat {
    if cs == [] then 0 else TotalCount(y, cs[..|cs| - 1]) + Count(y, cs[|cs| - 1])
  }

  lemma {:induction false} TotalCountAppend(y: seq<Label>, l: Label, cs: seq<Label>)
    ensures TotalCount(y + [l], cs) == TotalCount(y, cs) + Count(cs, l)
  {
    if cs != [] {
      var init := cs[..|cs| - 1];
      TotalCountAppend(y, l, init);
      assert (y + [l])[..|y|] == y;
    }
  }

  /** Counting every label of a strictly increasing `cs` that covers `y` counts each row once. */
  lemma {:induction false} TotalCountCovers(y: seq<Label>, cs: seq<Label>)
    requires StrictlyIncreasing(cs)
    requires forall i :: 0 <= i < |y| ==> y[i] in cs
    ensures TotalCount(y, cs) == |y|
  {
    if y == [] {
      TotalCountEmpty(cs);
    } else {
      var init := y[..|y| - 1];
      assert y == init + [y[|y| - 1]];
      TotalCountCovers(init, cs);
      TotalCountAppend(init, y[|y| - 1], cs);
      CountInStrictlyIncreasing(cs, y[|y| - 1]);
    }
  }

  lemma {:induction false} TotalCountEmpty(cs: seq<Label>)
    ensures TotalCount([], cs) == 0
  {
    if cs != [] {
      TotalCountEmpty(cs[..|cs| - 1]);
    }
  }
}
