/**
 The running statistics of a sample set (Welford's recurrence), over the reals, and the batch
 statistics they stand for.
 */
module SampleStats {

  /** `prevMean` and `prevVar` are the scratch fields the recurrence leaves behind. */
  datatype Stats = Stats(n: nat, min: real, max: real, sum: real,
                         mean: real, prevMean: real, vari: real, prevVar: real)

  const EMPTY := Stats(0, 0.0, 0.0, 0.0, 0.0, 0.0, 0.0, 0.0)

  function Data(s: Stats, v: real): Stats {
    var n := s.n + 1;
    var mean := s.mean + (v - s.mean) / (n as real);
    Stats(
      n,
      if s.n == 0 || v < s.min then v else s.min,
      if s.n == 0 || v > s.max then v else s.max,
      s.sum + v,
      mean, s.mean,
      (s.n as real * s.vari + (v - s.mean) * (v - mean)) / (n as real), s.vari)
  }

  /** The statistics after the values `vs`, one call of `Data` per value. */
  function DataAll(s: Stats, vs: seq<real>): Stats {
    if vs == [] then s else Data(DataAll(s, vs[..|vs| - 1]), vs[|vs| - 1])
  }

  lemma {:induction false} DataAllAppend(s: Stats, a: seq<real>, b: seq<real>)
    ensures DataAll(s, a + b) == DataAll(DataAll(s, a), b)
  {
    hide Data;
    if b == [] {
      assert a + b == a;
    } else {
      assert (a + b)[..|a + b| - 1] == a + b[..|b| - 1];
      DataAllAppend(s, a, b[..|b| - 1]);
    }
  }

  // ---------------------------------------------------------------- batch statistics

  /** The sum of `f(v)` over the values. */
  function SumOf(f: real -> real, vs: seq<real>): real {
    if vs == [] then 0.0 else SumOf(f, vs[..|vs| - 1]) + f(vs[|vs| - 1])
  }

  function Same(v: real): real { v }
  function Square(v: real): real { v * v }

  function Sum(vs: seq<real>): real { SumOf(Same, vs) }
  function SumSquares(vs: seq<real>): real { SumOf(Square, vs) }

  ghost predicate IsMin(vs: seq<real>, m: real) {
    m in vs && forall v | v in vs :: m <= v
  }

  ghost predicate IsMax(vs: seq<real>, m: real) {
    m in vs && forall v | v in vs :: v <= m
  }

  // ---------------------------------------------------------------- mean and variance

  /** The batch identities for n, sum, mean and variance, stated without division. */
  ghost predicate HasMoments(s: Stats, n: nat, sum: real, squares: real) {
    && s.n == n && s.sum == sum
    && n as real * s.mean == sum
    && n as real * (s.vari + Square(s.mean)) == squares
  }

  lemma DataMoments(s: Stats, n: nat, sum: real, squares: real, v: real)
    requires HasMoments(s, n, sum, squares)
    ensures HasMoments(Data(s, v), n + 1, sum + v, squares + Square(v))
  {
    hide Square;
    var s' := Data(s, v);
    assert (n + 1) as real == n as real + 1.0;
    MomentStep(n as real, n as real + 1.0, sum, squares, s.mean, s.vari, v, s'.mean, s'.vari);
  }

  lemma MomentStep(r: real, m: real, sum: real, squares: real, mean: real, vari: real, v: real, mean': real,
                   vari': real)
    requires m == r + 1.0 > 0.0
    requires mean' == mean + (v - mean) / m
    requires vari' == (r * vari + (v - mean) * (v - mean')) / m
    requires r * mean == sum && r * (vari + Square(mean)) == squares
    ensures m * mean' == sum + v && m * (vari' + Square(mean')) == squares + Square(v)
  {
    Cleared(r, m, mean, vari, v, mean', vari');
    Recurrence(r, m, mean, vari, v, mean', vari');
  }

  lemma Cleared(r: real, m: real, mean: real, vari: real, v: real, mean': real, vari': real)
    requires m == r + 1.0 > 0.0
    requires mean' == mean + (v - mean) / m
    requires vari' == (r * vari + (v - mean) * (v - mean')) / m
    ensures m * mean' == r * mean + v
    ensures m * vari' == r * vari + (v - mean) * (v - mean')
  {
    var q := (v - mean) / m;
    assert m * q == v - mean;
    assert m * mean' == m * mean + m * q;
  }

  lemma Recurrence(r: real, m: real, mean: real, vari: real, v: real, mean': real, vari': real)
    requires m == r + 1.0
    requires m * mean' == r * mean + v
    requires m * vari' == r * vari + (v - mean) * (v - mean')
    ensures m * (vari' + mean' * mean') == r * (vari + mean * mean) + v * v
  {
    calc {
      m * (vari' + mean' * mean');
      r * vari + (v - mean) * (v - mean') + (r * mean + v) * mean';
      r * vari + v * v - v * mean + mean * (m * mean');
      r * vari + v * v - v * mean + mean * (r * mean + v);
    }
  }

  lemma {:induction false} Moments(vs: seq<real>)
    ensures HasMoments(DataAll(EMPTY, vs), |vs|, Sum(vs), SumSquares(vs))
  {
    if vs == [] {
    } else {
      hide HasMoments, Data, Square;
      var before, v := vs[..|vs| - 1], vs[|vs| - 1];
      Moments(before);
      DataMoments(DataAll(EMPTY, before), |before|, Sum(before), SumSquares(before), v);
      assert DataAll(EMPTY, vs) == Data(DataAll(EMPTY, before), v);
    }
  }

  lemma Divide(n: real, a: real, b: real)
    requires n > 0.0
    ensures n * a == b ==> a == b / n
    ensures n * a <= b ==> a <= b / n
    ensures b <= n * a ==> b / n <= a
  {
    assert n * (b / n) == b;
    assert n * (a - b / n) == n * a - b;
  }

  lemma MomentsDivided(s: Stats, n: nat, sum: real, squares: real)
    requires HasMoments(s, n, sum, squares) && n > 0
    ensures s.mean == sum / n as real
    ensures s.vari == squares / n as real - Square(s.mean)
  {
    hide Square;
    Divide(n as real, s.mean, sum);
    Divide(n as real, s.vari + Square(s.mean), squares);
  }

  lemma {:induction false} VarianceNonNegative(vs: seq<real>)
    ensures DataAll(EMPTY, vs).vari >= 0.0
  {
    if vs == [] {
    } else {
      hide Data;
      var before, v := vs[..|vs| - 1], vs[|vs| - 1];
      VarianceNonNegative(before);
      DataVariance(DataAll(EMPTY, before), v);
      assert DataAll(EMPTY, vs) == Data(DataAll(EMPTY, before), v);
    }
  }

  lemma DataVariance(s: Stats, v: real)
    requires s.vari >= 0.0
    ensures Data(s, v).vari >= 0.0
  {
    var r := s.n as real;
    var d, e := v - s.mean, v - Data(s, v).mean;
    SpreadNonNegative(r, d, e);
    assert r * s.vari >= 0.0;
    assert Data(s, v).vari == (r * s.vari + d * e) / (r + 1.0);
  }

  lemma SpreadNonNegative(r: real, d: real, e: real)
    requires r >= 0.0 && e == d - d / (r + 1.0)
    ensures d * e >= 0.0
  {
    var q := d / (r + 1.0);
    assert d == q * (r + 1.0);
    assert d * e == (q * q) * ((r + 1.0) * r);
    assert q * q >= 0.0 && (r + 1.0) * r >= 0.0;
  }

  // ---------------------------------------------------------------- extremes

  lemma {:induction false} Extremes(vs: seq<real>)
    requires vs != []
    ensures IsMin(vs, DataAll(EMPTY, vs).min) && IsMax(vs, DataAll(EMPTY, vs).max)
    ensures DataAll(EMPTY, vs).n == |vs|
  {
    hide Data, DataAll, IsMin, IsMax;
    var before, v := vs[..|vs| - 1], vs[|vs| - 1];
    var s := DataAll(EMPTY, before);
    DataAllLast(EMPTY, vs);
    DataExtremes(s, v);
    assert vs == before + [v];
    if before == [] {
      DataAllNone(EMPTY);
      OneExtreme(v);
    } else {
      Extremes(before);
      MinMore(before, s.min, v);
      MaxMore(before, s.max, v);
    }
  }

  lemma OneExtreme(v: real)
    ensures IsMin([] + [v], v) && IsMax([] + [v], v)
  {
    assert v in [] + [v];
  }

  lemma MinMore(vs: seq<real>, m: real, v: real)
    requires IsMin(vs, m)
    ensures IsMin(vs + [v], if v < m then v else m)
  {
    assert v in vs + [v] && m in vs + [v];
  }

  lemma MaxMore(vs: seq<real>, m: real, v: real)
    requires IsMax(vs, m)
    ensures IsMax(vs + [v], if v > m then v else m)
  {
    assert v in vs + [v] && m in vs + [v];
  }

  lemma DataAllLast(s: Stats, vs: seq<real>)
    requires vs != []
    ensures DataAll(s, vs) == Data(DataAll(s, vs[..|vs| - 1]), vs[|vs| - 1])
  {
    hide Data;
  }

  lemma DataAllNone(s: Stats)
    ensures DataAll(s, []) == s
  {
  }

  lemma DataExtremes(s: Stats, v: real)
    ensures Data(s, v).n == s.n + 1
    ensures Data(s, v).min == if s.n == 0 || v < s.min then v else s.min
    ensures Data(s, v).max == if s.n == 0 || v > s.max then v else s.max
  {
  }

  lemma {:induction false} SumBounds(vs: seq<real>, lo: real, hi: real)
    requires forall i | 0 <= i < |vs| :: lo <= vs[i] <= hi
    ensures |vs| as real * lo <= Sum(vs) <= |vs| as real * hi
  {
    if vs == [] {
    } else {
      var before, v := vs[..|vs| - 1], vs[|vs| - 1];
      SumBounds(before, lo, hi);
      assert Sum(vs) == Sum(before) + v;
      assert |vs| as real == |before| as real + 1.0;
      assert |vs| as real * lo == |before| as real * lo + lo;
      assert |vs| as real * hi == |before| as real * hi + hi;
    }
  }

  lemma MeanBetween(vs: seq<real>, lo: real, hi: real)
    requires vs != [] && IsMin(vs, lo) && IsMax(vs, hi)
    ensures lo <= Sum(vs) / |vs| as real <= hi
  {
    assert forall i | 0 <= i < |vs| :: vs[i] in vs;
    SumBounds(vs, lo, hi);
    Divide(|vs| as real, lo, Sum(vs));
    Divide(|vs| as real, hi, Sum(vs));
  }

  /** The running statistics are the batch statistics of the values seen since the reset. */
  lemma Batch(vs: seq<real>)
    requires vs != []
    ensures var s, n := DataAll(EMPTY, vs), |vs| as real;
            && s.n == |vs| && s.sum == Sum(vs)
            && IsMin(vs, s.min) && IsMax(vs, s.max)
            && s.mean == Sum(vs) / n
            && s.vari == SumSquares(vs) / n - Square(s.mean)
            && s.vari >= 0.0
            && s.min <= s.mean <= s.max
  {
    hide Data, Square;
    var s := DataAll(EMPTY, vs);
    Moments(vs);
    MomentsDivided(s, |vs|, Sum(vs), SumSquares(vs));
    Extremes(vs);
    VarianceNonNegative(vs);
    MeanBetween(vs, s.min, s.max);
  }

  // ---------------------------------------------------------------- order does not matter

  /** What is broadcast about a sample set: everything but the scratch fields. */
  datatype Summary = Summary(n: nat, min: real, max: real, sum: real, mean: real, vari: real)

  function Summarise(s: Stats): Summary {
    Summary(s.n, s.min, s.max, s.sum, s.mean, s.vari)
  }

  lemma {:induction false} SumOfConcat(f: real -> real, a: seq<real>, b: seq<real>)
    ensures SumOf(f, a + b) == SumOf(f, a) + SumOf(f, b)
  {
    if b == [] {
      assert a + b == a;
    } else {
      assert (a + b)[..|a + b| - 1] == a + b[..|b| - 1];
      SumOfConcat(f, a, b[..|b| - 1]);
    }
  }

  lemma WithoutBoth(a: seq<real>, b: seq<real>, i: nat)
    requires multiset(a) == multiset(b)
    requires a != [] && i < |b| && b[i] == a[|a| - 1]
    ensures multiset(a[..|a| - 1]) == multiset(b[..i] + b[i + 1..])
  {
    var v, x, y := b[i], a[..|a| - 1], b[..i] + b[i + 1..];
    Without(a, |a| - 1);
    Without(b, i);
    assert x + a[|a|..] == x;
    assert multiset(x) == multiset(a) - multiset{v} && multiset(y) == multiset(b) - multiset{v};
  }

  lemma Without(s: seq<real>, i: nat)
    requires i < |s|
    ensures multiset(s) == multiset(s[..i] + s[i + 1..]) + multiset{s[i]}
  {
    assert s == s[..i] + [s[i]] + s[i + 1..];
  }

  lemma {:induction false} SumOfPermutation(f: real -> real, a: seq<real>, b: seq<real>)
    requires multiset(a) == multiset(b)
    ensures SumOf(f, a) == SumOf(f, b)
    decreases |a|
  {
    if a == [] {
      assert |multiset(b)| == |b|;
    } else {
      var before, v := a[..|a| - 1], a[|a| - 1];
      assert v in multiset(a);
      var i :| 0 <= i < |b| && b[i] == v;
      var left, right := b[..i], b[i + 1..];
      assert b == left + ([v] + right);
      WithoutBoth(a, b, i);
      SumOfPermutation(f, before, left + right);
      SumOfConcat(f, left, right);
      SumOfConcat(f, [v], right);
      SumOfConcat(f, left, [v] + right);
      assert SumOf(f, [v]) == f(v);
    }
  }

  lemma ExtremesOfPermutation(a: seq<real>, b: seq<real>, lo: real, hi: real, lo': real, hi': real)
    requires multiset(a) == multiset(b)
    requires IsMin(a, lo) && IsMax(a, hi) && IsMin(b, lo') && IsMax(b, hi')
    ensures lo == lo' && hi == hi'
  {
    assert forall v :: v in a <==> v in multiset(a);
    assert forall v :: v in b <==> v in multiset(b);
  }

  /** What is broadcast does not depend on the order of the values. */
  lemma OrderIndependent(a: seq<real>, b: seq<real>)
    requires multiset(a) == multiset(b)
    ensures Summarise(DataAll(EMPTY, a)) == Summarise(DataAll(EMPTY, b))
  {
    assert |a| == |multiset(a)| == |multiset(b)| == |b|;
    if a != [] {
      hide Data, Square;
      SumOfPermutation(Same, a, b);
      SumOfPermutation(Square, a, b);
      Batch(a);
      Batch(b);
      var s, s' := DataAll(EMPTY, a), DataAll(EMPTY, b);
      ExtremesOfPermutation(a, b, s.min, s.max, s'.min, s'.max);
    }
  }
}
