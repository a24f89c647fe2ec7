/** The latency histogram: bucket counts with an occupied band, against the samples they stand for. */
module Histograms {
  import opened Buckets
  import opened Ranks

  /** A percentile argument: a part of the population, or beyond one of its ends. */
  datatype Percentile = AtMostZero | Within(scaled: nat) | AtLeastHundred

  /** How many samples are counted in a bucket. */
  function CountIn(p: nat, xs: seq<nat>, i: nat): nat {
    if xs == [] then 0 else CountIn(p, xs[..|xs| - 1], i) + if IndexOf(p, xs[|xs| - 1]) == i then 1 else 0
  }

  /** How many samples are counted in the buckets up to i. */
  function CountTo(p: nat, xs: seq<nat>, i: nat): nat {
    if xs == [] then 0 else CountTo(p, xs[..|xs| - 1], i) + if IndexOf(p, xs[|xs| - 1]) <= i then 1 else 0
  }

  lemma {:induction false} CountToStep(p: nat, xs: seq<nat>, i: nat)
    ensures CountTo(p, xs, i) == CountIn(p, xs, i) + if i == 0 then 0 else CountTo(p, xs, i - 1)
  {
    if xs == [] {
    } else {
      CountToStep(p, xs[..|xs| - 1], i);
    }
  }

  lemma {:induction false} CountInSplits(p: nat, xs: seq<nat>, ys: seq<nat>, i: nat)
    ensures CountIn(p, xs + ys, i) == CountIn(p, xs, i) + CountIn(p, ys, i)
  {
    if ys == [] {
      assert xs + ys == xs;
    } else {
      assert (xs + ys)[..|xs + ys| - 1] == xs + ys[..|ys| - 1];
      CountInSplits(p, xs, ys[..|ys| - 1], i);
    }
  }

  lemma CountedOneMore(p: nat, xs: seq<nat>, v: nat)
    ensures forall i :: CountIn(p, xs + [v], i) == CountIn(p, xs, i) + if IndexOf(p, v) == i then 1 else 0
  {
    assert (xs + [v])[..|xs|] == xs;
  }

  lemma {:induction false} CountedIfIn(p: nat, xs: seq<nat>, v: nat)
    requires v in xs
    ensures CountIn(p, xs, IndexOf(p, v)) > 0
  {
    if xs[|xs| - 1] != v {
      CountedIfIn(p, xs[..|xs| - 1], v);
    }
  }

  lemma {:induction false} InIfCounted(p: nat, xs: seq<nat>, i: nat) returns (v: nat)
    requires CountIn(p, xs, i) > 0
    ensures v in xs && IndexOf(p, v) == i
  {
    v := xs[|xs| - 1];
    if IndexOf(p, v) != i {
      v := InIfCounted(p, xs[..|xs| - 1], i);
    }
  }

  /** Counting by buckets takes in everything up to a value, and counting short of its bucket nothing
      from it on. */
  lemma {:induction false} CountToBounds(p: nat, xs: seq<nat>, v: nat, i: nat)
    ensures IndexOf(p, v) <= i ==> AtMost(xs, v) <= CountTo(p, xs, i)
    ensures i < IndexOf(p, v) && v > 0 ==> CountTo(p, xs, i) <= AtMost(xs, v - 1)
    ensures i < IndexOf(p, v) && v == 0 ==> CountTo(p, xs, i) == 0
  {
    if xs == [] {
    } else {
      var x := xs[|xs| - 1];
      CountToBounds(p, xs[..|xs| - 1], v, i);
      if x <= v {
        IndexKeepsOrder(p, x, v);
      }
      if v <= x {
        IndexKeepsOrder(p, v, x);
      }
    }
  }

  /** The first bucket by which the rank is reached holds the nearest-rank sample. */
  lemma FirstReachedHoldsNearest(p: nat, xs: seq<nat>, scaled: nat, v: nat, i: nat)
    requires IsNearest(xs, scaled, v)
    requires NearestRank(scaled, |xs|) <= CountTo(p, xs, i)
    requires i > 0 ==> CountTo(p, xs, i - 1) < NearestRank(scaled, |xs|)
    ensures i == IndexOf(p, v)
  {
    RankIsThere(xs, scaled, v);
    RankIsCeiling(scaled, |xs|);
    CountToBounds(p, xs, v, i);
    if i > 0 {
      CountToBounds(p, xs, v, i - 1);
    }
  }

  /** Every sample is counted somewhere up to the last bucket. */
  lemma {:induction false} CountToAll(p: nat, xs: seq<nat>, i: nat)
    requires forall x :: x in xs ==> IndexOf(p, x) <= i
    ensures CountTo(p, xs, i) == |xs|
  {
    if xs == [] {
    } else {
      var rest := xs[..|xs| - 1];
      assert xs[|xs| - 1] in xs && forall x :: x in rest ==> x in xs;
      CountToAll(p, rest, i);
    }
  }

  /** The band [lo, hi] is where the counts are: empty as lo > hi, or with a sample at either end. */
  ghost predicate Band(p: nat, xs: seq<nat>, lo: nat, hi: nat)
    requires p <= WORD_BITS
  {
    && (xs == [] ==> lo == BucketCount(p) && hi == 0)
    && (xs != [] ==> lo <= hi < BucketCount(p) && CountIn(p, xs, lo) > 0 && CountIn(p, xs, hi) > 0)
    && (forall x :: x in xs ==> lo <= IndexOf(p, x) <= hi)
  }

  lemma NothingOutside(p: nat, xs: seq<nat>, lo: nat, hi: nat, i: nat)
    requires p <= WORD_BITS && Band(p, xs, lo, hi) && !(lo <= i <= hi)
    ensures CountIn(p, xs, i) == 0
  {
    if CountIn(p, xs, i) > 0 {
      var v := InIfCounted(p, xs, i);
    }
  }

  lemma BandsJoin(p: nat, xs: seq<nat>, lo: nat, hi: nat, ys: seq<nat>, lo2: nat, hi2: nat)
    requires p <= WORD_BITS && Band(p, xs, lo, hi) && Band(p, ys, lo2, hi2) && ys != []
    ensures Band(p, xs + ys, if lo2 < lo then lo2 else lo, if hi2 > hi then hi2 else hi)
  {
    var l, h := if lo2 < lo then lo2 else lo, if hi2 > hi then hi2 else hi;
    CountInSplits(p, xs, ys, l);
    CountInSplits(p, xs, ys, h);
    forall x | x in xs + ys
      ensures l <= IndexOf(p, x) <= h
    {
    }
  }

  lemma BandTakesIn(p: nat, xs: seq<nat>, lo: nat, hi: nat, v: nat)
    requires p <= WORD_BITS && v < Pow2(WORD_BITS) && Band(p, xs, lo, hi)
    ensures var i := IndexOf(p, v);
      Band(p, xs + [v], if i < lo then i else lo, if i > hi then i else hi)
  {
    IndexInRange(p, v);
    CountedIfIn(p, [v], v);
    assert Band(p, [v], IndexOf(p, v), IndexOf(p, v));
    BandsJoin(p, xs, lo, hi, [v], IndexOf(p, v), IndexOf(p, v));
  }

  /** Add the counts of buckets lo to hi, which may be of the same array. */
  method AddBand(counts: array<nat>, theirs: array<nat>, lo: nat, hi: nat)
    requires lo <= hi < counts.Length == theirs.Length
    modifies counts
    ensures forall j :: 0 <= j < counts.Length ==>
              counts[j] == old(counts[j]) + if lo <= j <= hi then old(theirs[j]) else 0
  {
    for i := lo to hi + 1
      invariant forall j :: lo <= j < i ==> counts[j] == old(counts[j]) + old(theirs[j])
      invariant forall j :: 0 <= j < counts.Length && !(lo <= j < i) ==> counts[j] == old(counts[j])
      invariant forall j :: i <= j < counts.Length ==> theirs[j] == old(theirs[j])
    {
      counts[i] := counts[i] + theirs[i];
    }
  }

  class Histogram {
    const p: nat
    const counts: array<nat>
    var total: nat
    var usedLo: nat
    var usedHi: nat

    /** All samples added or merged in since the last clear. */
    ghost var samples: seq<nat>

    ghost predicate Valid()
      reads this, counts
    {
      && p <= WORD_BITS && counts.Length == BucketCount(p)
      && (forall i :: 0 <= i < counts.Length ==> counts[i] == CountIn(p, samples, i))
      && total == |samples| && Band(p, samples, usedLo, usedHi)
      && (forall x :: x in samples ==> x < Pow2(WORD_BITS))
    }

    constructor (precision: nat)
      requires precision <= WORD_BITS
      ensures Valid() && p == precision && samples == [] && fresh(counts)
    {
      p := precision;
      counts := new nat[BucketCount(precision)](_ => 0);
      total, samples := 0, [];
      usedLo, usedHi := BucketCount(precision), 0;
    }

    method Add(v: nat)
      requires Valid() && v < Pow2(WORD_BITS)
      modifies this, counts
      ensures Valid() && samples == old(samples) + [v]
    {
      BandTakesIn(p, samples, usedLo, usedHi, v);
      CountOne(v);
      Occupy(IndexOf(p, v), IndexOf(p, v));
      TakeOver([v], 1);
    }

    method CountOne(v: nat)
      requires Valid() && v < Pow2(WORD_BITS)
      modifies counts
      ensures forall j :: 0 <= j < counts.Length ==> counts[j] == CountIn(p, samples + [v], j)
    {
      IndexInRange(p, v);
      CountedOneMore(p, samples, v);
      var i := IndexOf(p, v);
      counts[i] := counts[i] + 1;
    }

    /** Widen the band to take in buckets lo and hi. */
    method Occupy(lo: nat, hi: nat)
      modifies this`usedLo, this`usedHi
      ensures usedLo == if lo < old(usedLo) then lo else old(usedLo)
      ensures usedHi == if hi > old(usedHi) then hi else old(usedHi)
    {
      if lo < usedLo {
        usedLo := lo;
      }
      if hi > usedHi {
        usedHi := hi;
      }
    }

    method Clear()
      requires Valid()
      modifies this, counts
      ensures Valid() && samples == []
    {
      forall i | 0 <= i < counts.Length && !(usedLo <= i <= usedHi)
        ensures counts[i] == 0
      {
        NothingOutside(p, samples, usedLo, usedHi, i);
      }
      var i := usedLo;
      while i <= usedHi
        invariant usedLo <= i && (samples != [] ==> i <= usedHi + 1 <= counts.Length)
        invariant forall j :: 0 <= j < counts.Length && !(i <= j <= usedHi) ==> counts[j] == 0
        modifies counts
        decreases usedHi + 1 - i
      {
        counts[i] := 0;
        i := i + 1;
      }
      total, samples := 0, [];
      usedLo, usedHi := BucketCount(p), 0;
    }

    /** Fold a histogram in, another or this one itself: afterwards this one holds the samples of both. */
    method Merge(other: Histogram)
      requires Valid() && other.Valid() && other.p == p && (other == this || other.counts != counts)
      modifies this, counts
      ensures Valid() && other.Valid() && samples == old(samples) + old(other.samples)
    {
      if other.total == 0 {
        assert samples + other.samples == samples;
        return;
      }
      BandsJoin(p, samples, usedLo, usedHi, other.samples, other.usedLo, other.usedHi);
      AddCounts(other);
      Occupy(other.usedLo, other.usedHi);
      TakeOver(other.samples, other.total);
    }

    /** The counts and the band are those of both; so are the samples now. */
    method TakeOver(ghost more: seq<nat>, n: nat)
      requires p <= WORD_BITS && counts.Length == BucketCount(p) && total == |samples| && n == |more|
      requires forall i :: 0 <= i < counts.Length ==> counts[i] == CountIn(p, samples + more, i)
      requires Band(p, samples + more, usedLo, usedHi)
      requires (forall x :: x in samples ==> x < Pow2(WORD_BITS)) && forall x :: x in more ==> x < Pow2(WORD_BITS)
      modifies this`total, this`samples
      ensures Valid() && samples == old(samples) + more
    {
      total := total + n;
      samples := samples + more;
    }

    /** Add the other's occupied buckets to these. */
    method AddCounts(other: Histogram)
      requires Valid() && other.Valid() && other.p == p && other.samples != []
      requires other == this || other.counts != counts
      modifies counts
      ensures forall j :: 0 <= j < counts.Length ==> counts[j] == CountIn(p, samples + other.samples, j)
    {
      forall j | 0 <= j < counts.Length
        ensures CountIn(p, samples + other.samples, j) ==
                counts[j] + if other.usedLo <= j <= other.usedHi then other.counts[j] else 0
      {
        CountInSplits(p, samples, other.samples, j);
        if !(other.usedLo <= j <= other.usedHi) {
          NothingOutside(p, other.samples, other.usedLo, other.usedHi, j);
        }
      }
      AddBand(counts, other.counts, other.usedLo, other.usedHi);
    }

    /** The midpoint of the bucket that holds the nearest-rank sample; at or beyond the ends, of the one
        that holds the smallest or the largest sample. */
    method ValueAt(at: Percentile) returns (r: nat)
      requires Valid() && (at.Within? ==> at.scaled <= RANK_SCALE)
      ensures samples == [] ==> r == 0
      ensures samples != [] ==> exists v :: v in samples && r == Midpoint(p, IndexOf(p, v)) && Stands(samples, at, v)
    {
      if total == 0 {
        return 0;
      }
      if at.AtMostZero? {
        ghost var v := EndOfBand(usedLo, true);
        return Midpoint(p, usedLo);
      }
      if at.AtLeastHundred? {
        ghost var v := EndOfBand(usedHi, false);
        return Midpoint(p, usedHi);
      }
      var want := NearestRank(at.scaled, total);
      ghost var v := NearestExists(samples, at.scaled);
      RankIsThere(samples, at.scaled, v);
      var seen := 0;
      var i := usedLo;
      NothingBefore(i);
      while i <= usedHi
        invariant usedLo <= i <= usedHi + 1
        invariant seen == if i == 0 then 0 else CountTo(p, samples, i - 1)
        invariant seen < want
        decreases usedHi + 1 - i
      {
        CountToStep(p, samples, i);
        seen := seen + counts[i];
        if seen >= want {
          FirstReachedHoldsNearest(p, samples, at.scaled, v, i);
          return Midpoint(p, i);
        }
        i := i + 1;
      }
      CountToAll(p, samples, usedHi);
      AtMostBounds(samples, v);
      return Midpoint(p, usedHi);
    }

    lemma NothingBefore(i: nat)
      requires Valid() && i == usedLo && samples != []
      ensures i > 0 ==> CountTo(p, samples, i - 1) == 0
      ensures NearestRank(0, 0) >= 1
    {
      if i > 0 {
        NoneTo(p, samples, i - 1);
      }
    }

    /** Whatever is counted at an end of the band is as low, or as high, as any sample by bucket. */
    lemma EndOfBand(end: nat, low: bool) returns (v: nat)
      requires Valid() && samples != [] && end == if low then usedLo else usedHi
      ensures v in samples && IndexOf(p, v) == end && Stands(samples, if low then AtMostZero else AtLeastHundred, v)
    {
      var there := InIfCounted(p, samples, end);
      if low {
        v := Smallest(samples);
        IndexKeepsOrder(p, v, there);
      } else {
        v := Largest(samples);
        IndexKeepsOrder(p, there, v);
      }
    }
  }

  /** The sample a percentile stands for. */
  ghost predicate Stands(xs: seq<nat>, at: Percentile, v: nat) {
    match at
    case AtMostZero => forall x :: x in xs ==> v <= x
    case AtLeastHundred => forall x :: x in xs ==> x <= v
    case Within(scaled) => IsNearest(xs, scaled, v)
  }

  lemma {:induction false} NoneTo(p: nat, xs: seq<nat>, i: nat)
    requires forall x :: x in xs ==> i < IndexOf(p, x)
    ensures CountTo(p, xs, i) == 0
  {
    if xs == [] {
    } else {
      var rest := xs[..|xs| - 1];
      assert xs[|xs| - 1] in xs && forall x :: x in rest ==> x in xs;
      NoneTo(p, rest, i);
    }
  }

  lemma {:induction false} Smallest(xs: seq<nat>) returns (v: nat)
    requires xs != []
    ensures v in xs && forall x :: x in xs ==> v <= x
  {
    var last := |xs| - 1;
    if last == 0 {
      v := xs[0];
    } else {
      assert xs == xs[..last] + [xs[last]];
      v := Smallest(xs[..last]);
      if xs[last] < v {
        v := xs[last];
      }
    }
  }
}
