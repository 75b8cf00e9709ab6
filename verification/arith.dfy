/** Integer and real sums, occurrence counts, index ranges and C++ integer division:
    the arithmetic vocabulary the environment and the resource-abstraction layer share. */
module Arith {

  /** Sum of a sequence, accumulated left to right as the source's loops do. */
  function SumInt(s: seq<int>): int
  {
    if |s| == 0 then 0 else SumInt(s[..|s| - 1]) + s[|s| - 1]
  }

  function SumReal(s: seq<real>): real
  {
    if |s| == 0 then 0.0 else SumReal(s[..|s| - 1]) + s[|s| - 1]
  }

  lemma SumRealSnoc(s: seq<real>, x: real)
    ensures SumReal(s + [x]) == SumReal(s) + x
  {
  }

  /** Appending x to a sequence adds x to the sum of each of its suffixes. */
  lemma SumRealSuffixSnoc(s: seq<real>, k: nat, x: real)
    requires k <= |s|
    ensures SumReal((s + [x])[k..]) == SumReal(s[k..]) + x
  {
    assert (s + [x])[k..] == s[k..] + [x];
    SumRealSnoc(s[k..], x);
  }

  /** Raising one entry by one raises the sum by one. */
  lemma {:induction false} SumIntBump(s: seq<int>, k: int)
    requires 0 <= k < |s|
    ensures SumInt(s[k := s[k] + 1]) == SumInt(s) + 1
  {
    var t := s[k := s[k] + 1];
    if k == |s| - 1 {
      assert t[..|t| - 1] == s[..|s| - 1];
    } else {
      assert t[..|t| - 1] == s[..|s| - 1][k := s[k] + 1];
      SumIntBump(s[..|s| - 1], k);
    }
  }

  /** Number of positions of `s` holding `v`. */
  function Count(s: seq<int>, v: int): nat
  {
    if |s| == 0 then 0 else Count(s[..|s| - 1], v) + (if s[|s| - 1] == v then 1 else 0)
  }

  /** Occurrence counts of the values 0 .. n - 1 in `s`. */
  function Histogram(s: seq<int>, n: nat): seq<int>
  {
    seq(n, v => Count(s, v))
  }

  lemma HistogramSnoc(s: seq<int>, v: int, n: nat)
    requires 0 <= v < n
    ensures Histogram(s + [v], n) == Histogram(s, n)[v := Histogram(s, n)[v] + 1]
  {
  }

  /** Counting values that all lie in 0 .. n - 1 loses nothing: the counts add up to |s|. */
  lemma {:induction false} HistogramSum(s: seq<int>, n: nat)
    requires forall i :: 0 <= i < |s| ==> 0 <= s[i] < n
    ensures SumInt(Histogram(s, n)) == |s|
  {
    if |s| > 0 {
      var p, v := s[..|s| - 1], s[|s| - 1];
      assert s == p + [v];
      HistogramSum(p, n);
      HistogramSnoc(p, v, n);
      SumIntBump(Histogram(p, n), v);
    } else {
      assert forall v :: 0 <= v < n ==> Histogram(s, n)[v] == 0;
      ZerosSum(Histogram(s, n));
    }
  }

  lemma {:induction false} ZerosSum(s: seq<int>)
    requires forall i :: 0 <= i < |s| ==> s[i] == 0
    ensures SumInt(s) == 0
  {
    if |s| > 0 {
      ZerosSum(s[..|s| - 1]);
    }
  }

  /** No value occurs more often than the sequence is long. */
  lemma {:induction false} CountAtMostLength(s: seq<int>, v: int)
    ensures Count(s, v) <= |s|
  {
    if |s| > 0 {
      CountAtMostLength(s[..|s| - 1], v);
    }
  }

  /** Every entry of `idx` is a valid index of a sequence of length n. */
  predicate IndicesIn(idx: seq<int>, n: int)
  {
    forall i :: 0 <= i < |idx| ==> 0 <= idx[i] < n
  }

  /** Sum of the entries of `a` at the positions listed in `idx`, in list order. */
  function SumAt(a: seq<int>, idx: seq<int>): int
    requires IndicesIn(idx, |a|)
  {
    if |idx| == 0 then 0 else a[idx[0]] + SumAt(a, idx[1..])
  }

  lemma {:induction false} SumAtConcat(a: seq<int>, x: seq<int>, y: seq<int>)
    requires IndicesIn(x, |a|) && IndicesIn(y, |a|)
    ensures IndicesIn(x + y, |a|)
    ensures SumAt(a, x + y) == SumAt(a, x) + SumAt(a, y)
  {
    if |x| > 0 {
      assert (x + y)[1..] == x[1..] + y;
      SumAtConcat(a, x[1..], y);
    } else {
      assert x + y == y;
    }
  }

  /** Taking one entry out of an index list takes its value out of the sum. */
  lemma {:induction false} SumAtRemove(a: seq<int>, y: seq<int>, j: int)
    requires IndicesIn(y, |a|)
    requires 0 <= j < |y|
    ensures IndicesIn(y[..j] + y[j + 1..], |a|)
    ensures SumAt(a, y) == a[y[j]] + SumAt(a, y[..j] + y[j + 1..])
  {
    assert y == y[..j] + ([y[j]] + y[j + 1..]);
    assert ([y[j]] + y[j + 1..])[1..] == y[j + 1..];
    SumAtConcat(a, y[..j], y[j + 1..]);
    SumAtConcat(a, y[..j], [y[j]] + y[j + 1..]);
  }

  lemma MultisetRemove(x: seq<int>, y: seq<int>, j: int)
    requires |x| > 0 && 0 <= j < |y| && y[j] == x[0]
    requires multiset(x) == multiset(y)
    ensures multiset(x[1..]) == multiset(y[..j] + y[j + 1..])
  {
    var v := x[0];
    assert y == y[..j] + [v] + y[j + 1..];
    assert x == [v] + x[1..];
    calc {
      multiset(x[1..]);
      multiset(x) - multiset{v};
      multiset(y) - multiset{v};
      multiset(y[..j]) + multiset(y[j + 1..]);
      multiset(y[..j] + y[j + 1..]);
    }
  }

  /** Summing over two orderings of the same multiset of indices gives the same total. */
  lemma {:induction false} SumAtPermutation(a: seq<int>, x: seq<int>, y: seq<int>)
    requires IndicesIn(x, |a|)
    requires multiset(x) == multiset(y)
    ensures IndicesIn(y, |a|)
    ensures SumAt(a, x) == SumAt(a, y)
    decreases |x|
  {
    forall i | 0 <= i < |y|
      ensures 0 <= y[i] < |a|
    {
      assert y[i] in multiset(y);
      assert y[i] in x;
    }
    if |x| == 0 {
      assert |multiset(y)| == 0;
    } else {
      assert x[0] in multiset(y);
      var j :| 0 <= j < |y| && y[j] == x[0];
      MultisetRemove(x, y, j);
      SumAtPermutation(a, x[1..], y[..j] + y[j + 1..]);
      SumAtRemove(a, y, j);
    }
  }

  /** The indices 0 .. n - 1 in increasing order. */
  function Range(n: nat): seq<int>
  {
    seq(n, i => i)
  }

  /** Each index below n occurs exactly once in Range(n), and nothing else occurs. */
  lemma {:induction false} RangeOnce(n: nat, l: int)
    ensures multiset(Range(n))[l] == (if 0 <= l < n then 1 else 0)
  {
    if n > 0 {
      assert Range(n) == Range(n - 1) + [n - 1];
      RangeOnce(n - 1, l);
    }
  }

  lemma {:induction false} SumAtRangePrefix(a: seq<int>, k: nat)
    requires k <= |a|
    ensures IndicesIn(Range(k), |a|)
    ensures SumAt(a, Range(k)) == SumInt(a[..k])
  {
    if k > 0 {
      assert Range(k) == Range(k - 1) + [k - 1];
      SumAtRangePrefix(a, k - 1);
      SumAtConcat(a, Range(k - 1), [k - 1]);
      assert a[..k][..k - 1] == a[..k - 1];
    }
  }

  /** Summing a sequence at every index is summing the sequence. */
  lemma SumAtRange(a: seq<int>)
    ensures IndicesIn(Range(|a|), |a|)
    ensures SumAt(a, Range(|a|)) == SumInt(a)
  {
    SumAtRangePrefix(a, |a|);
    assert a[..|a|] == a;
  }

  lemma {:induction false} SumAtNonNegative(a: seq<int>, idx: seq<int>)
    requires IndicesIn(idx, |a|)
    requires forall i :: 0 <= i < |a| ==> a[i] >= 0
    ensures SumAt(a, idx) >= 0
  {
    if |idx| > 0 {
      SumAtNonNegative(a, idx[1..]);
    }
  }

  function Abs(x: int): nat
  {
    if x < 0 then -x else x
  }

  /** C++ integer division: the quotient is truncated toward zero, so the remainder
      a - q * b is smaller than the divisor in magnitude and never has the opposite sign
      to the dividend (Dafny's own `/` is Euclidean instead). */
  function TruncDiv(a: int, b: int): (q: int)
    requires b != 0
    ensures Abs(a - q * b) < Abs(b)
    ensures a - q * b == 0 || (a - q * b < 0 <==> a < 0)
  {
    if a >= 0 then
      if b > 0 then a / b else -(a / -b)
    else
      if b > 0 then -(-a / b) else -a / -b
  }
}
