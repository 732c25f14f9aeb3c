/** The numpy vector operations the engine relies on (sum, max, argmax, flatnonzero, cumsum),
    as functions on sequences of reals. */
module Vectors {

  /** np.sum: the sum of a sequence, accumulated from the left. */
  function Sum(s: seq<real>): real
  {
    if s == [] then 0.0 else Sum(s[..|s| - 1]) + s[|s| - 1]
  }

  /** The sum of a sequence of counts. */
  function Total(s: seq<nat>): nat
  {
    if s == [] then 0 else Total(s[..|s| - 1]) + s[|s| - 1]
  }

  lemma SumAppend(s: seq<real>, x: real)
    ensures Sum(s + [x]) == Sum(s) + x
  {
    assert (s + [x])[..|s|] == s;
  }

  /** Every entry in [lo, hi] puts the sum in [|s| * lo, |s| * hi]. */
  lemma {:induction false} SumBounds(s: seq<real>, lo: real, hi: real)
    requires forall i :: 0 <= i < |s| ==> lo <= s[i] <= hi
    ensures (|s| as real) * lo <= Sum(s) <= (|s| as real) * hi
  {
    if s != [] {
      var k := (|s| - 1) as real;
      SumBounds(s[..|s| - 1], lo, hi);
      assert k * lo + lo == (k + 1.0) * lo && k * hi + hi == (k + 1.0) * hi;
    }
  }

  /** The mean of entries within [lo, hi] lies within [lo, hi]. */
  lemma MeanBounds(s: seq<real>, lo: real, hi: real)
    requires |s| > 0
    requires forall i :: 0 <= i < |s| ==> lo <= s[i] <= hi
    ensures lo <= Sum(s) / (|s| as real) <= hi
  {
    SumBounds(s, lo, hi);
    QuotientBetween(Sum(s), |s| as real, lo, hi);
  }

  /** A total between n * lo and n * hi, divided by n, lies between lo and hi. */
  lemma QuotientBetween(total: real, n: real, lo: real, hi: real)
    requires n > 0.0 && n * lo <= total <= n * hi
    ensures lo <= total / n <= hi
  {
    DivMonotone(n * lo, total, n);
    DivMonotone(total, n * hi, n);
    MulDivCancel(lo, n);
    MulDivCancel(hi, n);
  }

  lemma DivMonotone(a: real, b: real, n: real)
    requires a <= b && n > 0.0
    ensures a / n <= b / n
  {
    assert b / n - a / n == (b - a) / n;
  }

  lemma MulDivCancel(x: real, n: real)
    requires n > 0.0
    ensures (n * x) / n == x
  {
  }

  /** A sequence whose every entry is v sums to |s| * v. */
  lemma SumConstant(s: seq<real>, v: real)
    requires forall i :: 0 <= i < |s| ==> s[i] == v
    ensures Sum(s) == (|s| as real) * v
  {
    SumBounds(s, v, v);
  }

  /** Summing two sequences pointwise sums their sums. */
  lemma {:induction false} SumPointwise(a: seq<real>, b: seq<real>, c: seq<real>)
    requires |a| == |b| == |c|
    requires forall i :: 0 <= i < |c| ==> c[i] == a[i] + b[i]
    ensures Sum(c) == Sum(a) + Sum(b)
  {
    if c != [] {
      SumPointwise(a[..|a| - 1], b[..|b| - 1], c[..|c| - 1]);
    }
  }

  /** Updating one count by one raises the total by one. */
  lemma {:induction false} TotalIncrement(s: seq<nat>, i: nat)
    requires i < |s|
    ensures Total(s[i := s[i] + 1]) == Total(s) + 1
  {
    var t := s[i := s[i] + 1];
    if i < |s| - 1 {
      assert t[..|t| - 1] == s[..|s| - 1][i := s[i] + 1];
      TotalIncrement(s[..|s| - 1], i);
    } else {
      assert t[..|t| - 1] == s[..|s| - 1];
    }
  }

  /** Counts that are all zero total zero. */
  lemma {:induction false} TotalOfZeros(s: seq<nat>)
    requires forall i :: 0 <= i < |s| ==> s[i] == 0
    ensures Total(s) == 0
  {
    if s != [] {
      TotalOfZeros(s[..|s| - 1]);
    }
  }

  /** Counts that are all at least one total at least the number of counts. */
  lemma {:induction false} TotalAtLeastLength(s: seq<nat>)
    requires forall i :: 0 <= i < |s| ==> s[i] >= 1
    ensures Total(s) >= |s|
  {
    if s != [] {
      TotalAtLeastLength(s[..|s| - 1]);
    }
  }

  /** Counts that are at most one, one of them zero, total less than the number of counts. */
  lemma {:induction false} TotalWithZero(s: seq<nat>, z: nat)
    requires z < |s| && s[z] == 0
    requires forall i :: 0 <= i < |s| ==> s[i] <= 1
    ensures Total(s) < |s|
  {
    if z == |s| - 1 {
      TotalAtMostLength(s[..|s| - 1]);
    } else {
      TotalWithZero(s[..|s| - 1], z);
    }
  }

  lemma {:induction false} TotalAtMostLength(s: seq<nat>)
    requires forall i :: 0 <= i < |s| ==> s[i] <= 1
    ensures Total(s) <= |s|
  {
    if s != [] {
      TotalAtMostLength(s[..|s| - 1]);
    }
  }

  /** np.max: the largest entry. */
  function Max(s: seq<real>): (m: real)
    requires |s| > 0
    ensures m in s
    ensures forall i :: 0 <= i < |s| ==> s[i] <= m
  {
    if |s| == 1 then s[0]
    else
      var m := Max(s[..|s| - 1]);
      if s[|s| - 1] > m then s[|s| - 1] else m
  }

  /** np.argmax: the first index of a largest entry. */
  function ArgMax(s: seq<real>): (k: nat)
    requires |s| > 0
    ensures k < |s|
    ensures forall i :: 0 <= i < |s| ==> s[i] <= s[k]
    ensures forall i :: 0 <= i < k ==> s[i] < s[k]
  {
    if |s| == 1 then 0
    else
      var k := ArgMax(s[..|s| - 1]);
      if s[|s| - 1] > s[k] then |s| - 1 else k
  }

  /** np.flatnonzero: the indices of the true entries of a mask, in increasing order. */
  function Where(mask: seq<bool>): (r: seq<nat>)
    ensures forall i :: i in r <==> 0 <= i < |mask| && mask[i]
    ensures forall j, k :: 0 <= j < k < |r| ==> r[j] < r[k]
  {
    if mask == [] then []
    else
      var front := mask[..|mask| - 1];
      var rest := Where(front);
      forall j | 0 <= j < |rest|
        ensures rest[j] < |front|
      {
        assert rest[j] in rest;
      }
      if mask[|mask| - 1] then rest + [|front|] else rest
  }

  /** The first index Where reports is the least of them. */
  lemma WhereLeast(mask: seq<bool>)
    ensures forall x :: x in Where(mask) ==> Where(mask)[0] <= x
  {
    var r := Where(mask);
    forall x | x in r
      ensures r[0] <= x
    {
      var j :| 0 <= j < |r| && r[j] == x;
    }
  }

  /** np.flatnonzero(s == s.max()): every index at which s reaches its maximum. */
  function Maximisers(s: seq<real>): (r: seq<nat>)
    requires |s| > 0
    ensures |r| > 0
    ensures forall i :: i in r <==> 0 <= i < |s| && s[i] == Max(s)
    ensures forall i :: i in r ==> forall j :: 0 <= j < |s| ==> s[j] <= s[i]
  {
    var m := Max(s);
    var r := Where(seq(|s|, i requires 0 <= i < |s| => s[i] == m));
    var k := ArgMax(s);
    var w :| 0 <= w < |s| && s[w] == m;
    assert s[k] == m by { assert s[w] <= s[k]; }
    assert k in r;
    r
  }

  /** The first maximiser is np.argmax. */
  lemma FirstMaximiserIsArgMax(s: seq<real>)
    requires |s| > 0
    ensures Maximisers(s)[0] == ArgMax(s)
  {
    var r := Maximisers(s);
    var k := ArgMax(s);
    assert k in r;
    var j :| 0 <= j < |r| && r[j] == k;
    assert r[0] in r;
    assert s[r[0]] == s[k];
  }

  /** np.cumsum: entry t is the sum of the first t + 1 entries. */
  function CumSum(s: seq<real>): (r: seq<real>)
    ensures |r| == |s|
    ensures forall t :: 0 <= t < |s| ==> r[t] == Sum(s[..t + 1])
  {
    if s == [] then []
    else
      var front := s[..|s| - 1];
      var p := CumSum(front);
      forall t | 0 <= t < |front| ensures p[t] == Sum(s[..t + 1]) {
        assert front[..t + 1] == s[..t + 1];
      }
      assert s[..|s|] == s;
      assert p != [] ==> p[|p| - 1] == Sum(front) by {
        assert p != [] ==> front[..|front|] == front;
      }
      p + [(if p == [] then 0.0 else p[|p| - 1]) + s[|s| - 1]]
  }
}
