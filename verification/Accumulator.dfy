/** Running statistics of a stage, in exact real arithmetic: Welford's update and Chan's merge against
    the mean and the squared deviations they stand for. */
module Accumulators {
  import Arith
  import opened Buckets
  import opened Ranks
  import opened Histograms

  function SumOf(xs: seq<nat>): real {
    if xs == [] then 0.0 else SumOf(xs[..|xs| - 1]) + xs[|xs| - 1] as real
  }

  function MeanOf(xs: seq<nat>): real {
    if xs == [] then 0.0 else SumOf(xs) / |xs| as real
  }

  /** The squared deviations from m, added up. */
  function Deviations(xs: seq<nat>, m: real): real {
    if xs == [] then 0.0
    else
      var off := xs[|xs| - 1] as real - m;
      Deviations(xs[..|xs| - 1], m) + off * off
  }

  function Squares(xs: seq<nat>): real {
    if xs == [] then 0.0
    else
      var x := xs[|xs| - 1] as real;
      Squares(xs[..|xs| - 1]) + x * x
  }

  lemma {:induction false} SumsSplit(xs: seq<nat>, ys: seq<nat>)
    ensures SumOf(xs + ys) == SumOf(xs) + SumOf(ys)
    ensures Squares(xs + ys) == Squares(xs) + Squares(ys)
  {
    if ys == [] {
      assert xs + ys == xs;
    } else {
      assert (xs + ys)[..|xs + ys| - 1] == xs + ys[..|ys| - 1];
      SumsSplit(xs, ys[..|ys| - 1]);
    }
  }

  lemma {:induction false} DeviationsExpand(xs: seq<nat>, m: real)
    ensures Expanded(|xs| as real, SumOf(xs), Squares(xs), m, Deviations(xs, m))
  {
    if xs == [] {
    } else {
      var n := |xs| - 1;
      DeviationsExpand(xs[..n], m);
      ExpandOne(n as real, SumOf(xs[..n]), Squares(xs[..n]), m, Deviations(xs[..n], m), xs[n] as real,
                |xs| as real, SumOf(xs), Squares(xs), Deviations(xs, m));
    }
  }

  /** The squared deviations of n values from m, multiplied out. */
  predicate Expanded(n: real, s: real, q: real, m: real, dev: real) {
    dev == q - 2.0 * m * s + n * (m * m)
  }

  lemma ExpandOne(n: real, s: real, q: real, m: real, dev: real, x: real, n': real, s': real, q': real, dev': real)
    requires Expanded(n, s, q, m, dev)
    requires n' == n + 1.0 && s' == s + x && q' == q + x * x && dev' == dev + (x - m) * (x - m)
    ensures Expanded(n', s', q', m, dev')
  {
    assert 2.0 * m * s' == 2.0 * m * s + 2.0 * m * x;
  }

  /** m and dev are the mean and squared deviations of n values adding up to s, and to q squared. */
  predicate StandFor(n: real, s: real, q: real, m: real, dev: real) {
    n * m == s && dev == q - n * (m * m)
  }

  /** About the mean, the deviations are the squares less n times its own. */
  lemma AboutTheMean(xs: seq<nat>)
    ensures StandFor(|xs| as real, SumOf(xs), Squares(xs), MeanOf(xs), Deviations(xs, MeanOf(xs)))
  {
    DeviationsExpand(xs, MeanOf(xs));
    MeanTimesCount(xs);
    Collapse(|xs| as real, SumOf(xs), Squares(xs), MeanOf(xs), Deviations(xs, MeanOf(xs)));
  }

  lemma MeanTimesCount(xs: seq<nat>)
    ensures |xs| as real * MeanOf(xs) == SumOf(xs)
  {
  }

  lemma Collapse(n: real, s: real, q: real, m: real, dev: real)
    requires Expanded(n, s, q, m, dev) && n * m == s
    ensures StandFor(n, s, q, m, dev)
  {
    assert 2.0 * m * (n * m) == 2.0 * (n * (m * m));
  }

  lemma SameQuotient(n: real, a: real, b: real)
    requires n > 0.0 && n * a == n * b
    ensures a == b
  {
    assert n * (a - b) == 0.0;
  }

  /** No other mean and deviations stand for the same values. */
  lemma StandAlone(n: real, s: real, q: real, m: real, dev: real, m': real, dev': real)
    requires n > 0.0 && StandFor(n, s, q, m, dev) && StandFor(n, s, q, m', dev')
    ensures m == m' && dev == dev'
  {
    SameQuotient(n, m, m');
  }

  /** Welford's update of a mean over n values, for one value more. */
  function WelfordMean(n: real, m: real, x: real): real
    requires n >= 0.0
  {
    m + (x - m) / (n + 1.0)
  }

  function WelfordDeviations(n: real, m: real, dev: real, x: real): real
    requires n >= 0.0
  {
    dev + (x - m) * (x - WelfordMean(n, m, x))
  }

  lemma WelfordAlgebra(n: real, m: real, s: real, q: real, dev: real, x: real)
    requires n >= 0.0 && StandFor(n, s, q, m, dev)
    ensures StandFor(n + 1.0, s + x, q + x * x, WelfordMean(n, m, x), WelfordDeviations(n, m, dev, x))
  {
    var d, k := x - m, n + 1.0;
    var e := d / k;
    assert k * e == d;
    assert k * (m + e) == k * m + d;
    Squared(k, m, e);
    assert k * e * e == d * e;
    assert x * x == m * m + 2.0 * m * d + d * d;
  }

  lemma Squared(k: real, m: real, e: real)
    ensures k * ((m + e) * (m + e)) == k * (m * m) + 2.0 * m * (k * e) + k * e * e
  {
  }

  lemma SumsOneMore(xs: seq<nat>, x: nat)
    ensures |xs + [x]| as real == |xs| as real + 1.0
    ensures SumOf(xs + [x]) == SumOf(xs) + x as real
    ensures Squares(xs + [x]) == Squares(xs) + x as real * x as real
  {
    assert (xs + [x])[..|xs|] == xs;
  }

  /** One sample more: Welford's update gives the new mean and deviations. */
  lemma WelfordStep(xs: seq<nat>, x: nat)
    ensures var n, m := |xs| as real, MeanOf(xs);
      && WelfordMean(n, m, x as real) == MeanOf(xs + [x])
      && WelfordDeviations(n, m, Deviations(xs, m), x as real) == Deviations(xs + [x], MeanOf(xs + [x]))
  {
    SumsOneMore(xs, x);
    AboutTheMean(xs);
    AboutTheMean(xs + [x]);
    WelfordAgrees(|xs| as real, SumOf(xs), Squares(xs), MeanOf(xs), Deviations(xs, MeanOf(xs)), x as real,
                  |xs + [x]| as real, SumOf(xs + [x]), Squares(xs + [x]), MeanOf(xs + [x]),
                  Deviations(xs + [x], MeanOf(xs + [x])));
  }

  lemma WelfordAgrees(n: real, s: real, q: real, m: real, dev: real, x: real,
                      n': real, s': real, q': real, m': real, dev': real)
    requires n >= 0.0 && StandFor(n, s, q, m, dev) && StandFor(n', s', q', m', dev')
    requires n' == n + 1.0 && s' == s + x && q' == q + x * x
    ensures WelfordMean(n, m, x) == m' && WelfordDeviations(n, m, dev, x) == dev'
  {
    WelfordAlgebra(n, m, s, q, dev, x);
    StandAlone(n', s', q', WelfordMean(n, m, x), WelfordDeviations(n, m, dev, x), m', dev');
  }

  /** Chan's combination of two such. */
  function ChanMean(na: real, ma: real, nb: real, mb: real): real
    requires na >= 0.0 && nb > 0.0
  {
    ma + (mb - ma) * nb / (na + nb)
  }

  function ChanDeviations(na: real, ma: real, devA: real, nb: real, mb: real, devB: real): real
    requires na >= 0.0 && nb > 0.0
  {
    devA + (devB + (mb - ma) * (mb - ma) * na * nb / (na + nb))
  }

  lemma ChanAlgebra(na: real, sa: real, qa: real, ma: real, devA: real,
                    nb: real, sb: real, qb: real, mb: real, devB: real)
    requires na >= 0.0 && nb > 0.0 && StandFor(na, sa, qa, ma, devA) && StandFor(nb, sb, qb, mb, devB)
    ensures StandFor(na + nb, sa + sb, qa + qb, ChanMean(na, ma, nb, mb), ChanDeviations(na, ma, devA, nb, mb, devB))
  {
    var n, delta := na + nb, mb - ma;
    var e := delta * nb / n;
    assert n * e == delta * nb;
    assert n * (ma + e) == n * ma + delta * nb;
    Rescale(delta, na, nb, n);
    Squared(n, ma, e);
    Squared(nb, ma, delta);
    assert n * e * e == delta * nb * e;
    assert nb * delta * delta == n * e * delta;
  }

  lemma Rescale(delta: real, na: real, nb: real, n: real)
    requires n > 0.0
    ensures delta * delta * na * nb / n == delta * na * (delta * nb / n)
  {
    var e := delta * nb / n;
    assert n * e == delta * nb;
    assert delta * delta * na * nb == delta * na * (delta * nb) == delta * na * (n * e) == n * (delta * na * e);
  }

  /** What the running sum, mean and m2 hold. */
  ghost predicate Moments(xs: seq<nat>, sum: real, mean: real, m2: real) {
    sum == SumOf(xs) && mean == MeanOf(xs) && m2 == Deviations(xs, MeanOf(xs))
  }

  lemma MomentsStep(xs: seq<nat>, sum: real, mean: real, m2: real, x: nat)
    requires Moments(xs, sum, mean, m2)
    ensures var n, v := |xs| as real, x as real;
      Moments(xs + [x], sum + v, WelfordMean(n, mean, v), WelfordDeviations(n, mean, m2, v))
  {
    assert (xs + [x])[..|xs|] == xs;
    WelfordStep(xs, x);
  }

  lemma MomentsJoin(xs: seq<nat>, sumA: real, ma: real, devA: real, ys: seq<nat>, sumB: real, mb: real, devB: real)
    requires Moments(xs, sumA, ma, devA) && Moments(ys, sumB, mb, devB) && ys != []
    ensures var na, nb := |xs| as real, |ys| as real;
      Moments(xs + ys, sumA + sumB, ChanMean(na, ma, nb, mb), ChanDeviations(na, ma, devA, nb, mb, devB))
  {
    SumsSplit(xs, ys);
    ChanStep(xs, ys);
  }

  /** Two batches: Chan's form gives the mean and deviations of all of it. */
  lemma ChanStep(xs: seq<nat>, ys: seq<nat>)
    requires ys != []
    ensures var na, nb, ma, mb := |xs| as real, |ys| as real, MeanOf(xs), MeanOf(ys);
      && ChanMean(na, ma, nb, mb) == MeanOf(xs + ys)
      && ChanDeviations(na, ma, Deviations(xs, ma), nb, mb, Deviations(ys, mb)) == Deviations(xs + ys, MeanOf(xs + ys))
  {
    SumsSplit(xs, ys);
    AboutTheMean(xs);
    AboutTheMean(ys);
    AboutTheMean(xs + ys);
    ChanAgrees(|xs| as real, SumOf(xs), Squares(xs), MeanOf(xs), Deviations(xs, MeanOf(xs)),
               |ys| as real, SumOf(ys), Squares(ys), MeanOf(ys), Deviations(ys, MeanOf(ys)),
               |xs + ys| as real, SumOf(xs + ys), Squares(xs + ys), MeanOf(xs + ys),
               Deviations(xs + ys, MeanOf(xs + ys)));
  }

  lemma ChanAgrees(na: real, sa: real, qa: real, ma: real, devA: real,
                   nb: real, sb: real, qb: real, mb: real, devB: real,
                   n: real, s: real, q: real, m: real, dev: real)
    requires na >= 0.0 && nb > 0.0 && StandFor(na, sa, qa, ma, devA) && StandFor(nb, sb, qb, mb, devB)
    requires StandFor(n, s, q, m, dev) && n == na + nb && s == sa + sb && q == qa + qb
    ensures ChanMean(na, ma, nb, mb) == m && ChanDeviations(na, ma, devA, nb, mb, devB) == dev
  {
    ChanAlgebra(na, sa, qa, ma, devA, nb, sb, qb, mb, devB);
    StandAlone(n, s, q, ChanMean(na, ma, nb, mb), ChanDeviations(na, ma, devA, nb, mb, devB), m, dev);
  }

  /** The smallest 64-bit value there is no sample above, as an empty accumulator's minimum. */
  const MAX_WORD: nat := Pow2(WORD_BITS) - 1

  /** lo and hi are the least and the greatest of the samples. */
  ghost predicate Extremes(xs: seq<nat>, lo: nat, hi: nat) {
    if xs == [] then lo == MAX_WORD && hi == 0
    else lo in xs && hi in xs && forall x :: x in xs ==> lo <= x <= hi
  }

  lemma ExtremesJoin(xs: seq<nat>, lo: nat, hi: nat, ys: seq<nat>, lo2: nat, hi2: nat)
    requires Extremes(xs, lo, hi) && Extremes(ys, lo2, hi2) && ys != []
    requires forall y :: y in ys ==> y <= MAX_WORD
    ensures Extremes(xs + ys, if lo2 < lo then lo2 else lo, if hi2 > hi then hi2 else hi)
  {
  }

  class Accumulator {
    const hist: Histogram
    var count: nat
    var min: nat
    var max: nat
    var sum: real
    var mean: real
    var m2: real

    ghost function Samples(): seq<nat>
      reads this, hist
    {
      hist.samples
    }

    ghost predicate Valid()
      reads this, hist, hist.counts
    {
      && hist.Valid() && count == |Samples()| && Extremes(Samples(), min, max)
      && Moments(Samples(), sum, mean, m2)
    }

    constructor (precision: nat)
      requires precision <= WORD_BITS
      ensures Valid() && Samples() == [] && hist.p == precision && fresh(hist) && fresh(hist.counts)
    {
      hist := new Histogram(precision);
      count, min, max, sum, mean, m2 := 0, MAX_WORD, 0, 0.0, 0.0, 0.0;
    }

    /** One sample more. */
    method Add(value: nat)
      requires Valid() && value < Pow2(WORD_BITS)
      modifies this, hist, hist.counts
      ensures Valid() && Samples() == old(Samples()) + [value]
    {
      ExtremesJoin(Samples(), min, max, [value], value, value);
      count := count + 1;
      Stretch(value);
      TakeIn(value);
      hist.Add(value);
    }

    /** Take a value into the observed range. */
    method Stretch(value: nat)
      modifies this`min, this`max
      ensures min == if value < old(min) then value else old(min)
      ensures max == if value > old(max) then value else old(max)
    {
      if value < min {
        min := value;
      }
      if value > max {
        max := value;
      }
    }

    /** Take a value into the sum, the mean and the deviations; it has been counted already. */
    method TakeIn(value: nat)
      requires count == |Samples()| + 1 && Moments(Samples(), sum, mean, m2)
      modifies this`sum, this`mean, this`m2
      ensures Moments(Samples() + [value], sum, mean, m2)
    {
      MomentsStep(Samples(), sum, mean, m2, value);
      sum := sum + value as real;
      Welford(value as real);
    }

    method Welford(x: real)
      requires count > 0
      modifies this`mean, this`m2
      ensures mean == WelfordMean((count - 1) as real, old(mean), x)
      ensures m2 == WelfordDeviations((count - 1) as real, old(mean), old(m2), x)
    {
      assert (count - 1) as real + 1.0 == count as real;
      var delta := x - mean;
      var moved := mean + delta / count as real;
      assert moved == WelfordMean((count - 1) as real, mean, x);
      mean := moved;
      m2 := m2 + delta * (x - moved);
    }

    method Clear()
      requires Valid()
      modifies this, hist, hist.counts
      ensures Valid() && Samples() == []
    {
      count, min, max, sum, mean, m2 := 0, MAX_WORD, 0, 0.0, 0.0, 0.0;
      hist.Clear();
    }

    /** Fold this into another, or into itself, as if its samples had been added there. */
    method MergeInto(dst: Accumulator)
      requires Valid() && dst.Valid() && dst.hist.p == hist.p
      requires dst == this || (dst.hist != hist && dst.hist.counts != hist.counts)
      modifies dst, dst.hist, dst.hist.counts
      ensures Valid() && dst.Valid() && dst.Samples() == old(dst.Samples()) + old(Samples())
    {
      if count == 0 {
        assert dst.Samples() + Samples() == dst.Samples();
        return;
      }
      MergeSummary(dst);
      dst.hist.Merge(hist);
    }

    /** All but the histogram. */
    method MergeSummary(dst: Accumulator)
      requires Valid() && dst.Valid() && count > 0
      modifies dst
      ensures dst.count == |dst.Samples() + Samples()|
      ensures Extremes(dst.Samples() + Samples(), dst.min, dst.max)
      ensures Moments(dst.Samples() + Samples(), dst.sum, dst.mean, dst.m2)
    {
      Widen(dst);
      MergeMoments(dst);
      dst.count := dst.count + count;
    }

    method MergeMoments(dst: Accumulator)
      requires count == |Samples()| > 0 && dst.count == |dst.Samples()|
      requires Moments(Samples(), sum, mean, m2) && Moments(dst.Samples(), dst.sum, dst.mean, dst.m2)
      modifies dst`sum, dst`mean, dst`m2
      ensures Moments(dst.Samples() + Samples(), dst.sum, dst.mean, dst.m2)
    {
      MomentsJoin(dst.Samples(), dst.sum, dst.mean, dst.m2, Samples(), sum, mean, m2);
      Chan(dst);
      dst.sum := dst.sum + sum;
    }

    method Widen(dst: Accumulator)
      requires Valid() && dst.Valid() && count > 0
      modifies dst`min, dst`max
      ensures Extremes(dst.Samples() + Samples(), dst.min, dst.max)
    {
      ExtremesJoin(dst.Samples(), dst.min, dst.max, Samples(), min, max);
      if dst.count == 0 {
        dst.min := min;
        dst.max := max;
      } else {
        if min < dst.min {
          dst.min := min;
        }
        if max > dst.max {
          dst.max := max;
        }
      }
    }

    method Chan(dst: Accumulator)
      requires count > 0
      modifies dst`mean, dst`m2
      ensures var na, nb := dst.count as real, count as real;
        && dst.mean == ChanMean(na, old(dst.mean), nb, old(mean))
        && dst.m2 == ChanDeviations(na, old(dst.mean), old(dst.m2), nb, old(mean), old(m2))
    {
      var na, nb := dst.count as real, count as real;
      var n := na + nb;
      var delta := mean - dst.mean;
      dst.m2 := dst.m2 + (m2 + delta * delta * na * nb / n);
      dst.mean := dst.mean + delta * nb / n;
    }

    /** A percentile, kept within what was observed. It stays within one part in 2^(p + 1) of the sample
        it stands for. */
    method ValueAt(at: Percentile) returns (r: nat)
      requires Valid() && (at.Within? ==> at.scaled <= RANK_SCALE)
      ensures Samples() == [] ==> r == 0
      ensures Samples() != [] ==>
        min <= r <= max && exists v :: Stands(Samples(), at, v) && v in Samples()
                                       && 2 * SubBuckets(hist.p) * Apart(r, v) <= v
    {
      if count == 0 {
        return 0;
      }
      var m := hist.ValueAt(at);
      ghost var v :| v in Samples() && m == Midpoint(hist.p, IndexOf(hist.p, v)) && Stands(Samples(), at, v);
      WithinHalfABucket(hist.p, v);
      r := if m < min then min else if m > max then max else m;
      CloserIsBetter(SubBuckets(hist.p), m, r, v);
    }
  }

  lemma CloserIsBetter(s: nat, m: nat, r: nat, v: nat)
    requires Apart(r, v) <= Apart(m, v) && 2 * s * Apart(m, v) <= v
    ensures 2 * s * Apart(r, v) <= v
  {
    Arith.MulBounds(Apart(m, v) - Apart(r, v), 2 * s);
    assert (Apart(m, v) - Apart(r, v)) * (2 * s) == 2 * s * Apart(m, v) - 2 * s * Apart(r, v);
  }
}
