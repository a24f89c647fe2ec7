/** Nearest rank: which sample a percentile stands for, and its rank in 64-bit integer arithmetic. */
module Ranks {
  import opened Arith
  import opened Buckets

  /** The whole of the samples, in the unit percentiles are given in. */
  const RANK_SCALE: nat := 1_000_000_000

  /** The rank of a percentile, given in that unit, among n samples. */
  function NearestRank(scaled: nat, n: nat): nat {
    var q, r := n / RANK_SCALE, n % RANK_SCALE;
    var rank := q * scaled + (r * scaled + RANK_SCALE - 1) / RANK_SCALE;
    if rank == 0 then 1 else rank
  }

  /** The rank is the least number, from one up, that is at least the given part of the population: the
      product is split so as to stay exact. */
  lemma RankIsCeiling(scaled: nat, n: nat)
    ensures var rank := NearestRank(scaled, n);
      && rank >= 1 && n * scaled <= rank * RANK_SCALE
      && (rank > 1 ==> (rank - 1) * RANK_SCALE < n * scaled)
  {
    var q, r := n / RANK_SCALE, n % RANK_SCALE;
    SplitProduct(n, q, r, scaled);
    Ceiling(r * scaled);
    MulBounds(q, scaled);
    MulBounds(r, scaled);
  }

  lemma SplitProduct(n: nat, q: nat, r: nat, scaled: nat)
    requires n == q * RANK_SCALE + r
    ensures n * scaled == q * scaled * RANK_SCALE + r * scaled
  {
    assert n * scaled == (q * RANK_SCALE) * scaled + r * scaled;
  }

  lemma Ceiling(x: nat)
    ensures var c := (x + RANK_SCALE - 1) / RANK_SCALE;
      x <= c * RANK_SCALE < x + RANK_SCALE
  {
  }

  /** No intermediate value of the rank wraps: each stays below 2^64, for any 64-bit count. */
  lemma RankFits(scaled: nat, n: nat)
    requires scaled <= RANK_SCALE && n < Pow2(WORD_BITS)
    ensures var q, r := n / RANK_SCALE, n % RANK_SCALE;
      && q * scaled <= n && r * scaled + RANK_SCALE - 1 < Pow2(WORD_BITS)
      && q * scaled + (r * scaled + RANK_SCALE - 1) / RANK_SCALE <= n
    ensures NearestRank(scaled, n) <= if n == 0 then 1 else n
  {
    var q, r := n / RANK_SCALE, n % RANK_SCALE;
    ScaledDown(q, scaled);
    ScaledDown(r, scaled);
    ScaleSquaredFits();
    assert r * scaled <= r * RANK_SCALE;
    Ceiling(r * scaled);
  }

  lemma ScaledDown(x: nat, scaled: nat)
    requires scaled <= RANK_SCALE
    ensures 0 <= x * scaled <= x * RANK_SCALE
  {
    MulBounds(x, RANK_SCALE - scaled);
    MulBounds(x, scaled);
    assert x * (RANK_SCALE - scaled) == x * RANK_SCALE - x * scaled;
  }

  lemma ScaleSquaredFits()
    ensures RANK_SCALE * RANK_SCALE < Pow2(WORD_BITS)
  {
    Pow2Adds(32, 32);
    Pow2Adds(16, 16);
    Pow2Adds(8, 8);
    assert Pow2(8) == 256;
    assert Pow2(16) == 65536;
  }

  /** How many samples are no greater than v. */
  function AtMost(xs: seq<nat>, v: nat): nat {
    if xs == [] then 0 else AtMost(xs[..|xs| - 1], v) + if xs[|xs| - 1] <= v then 1 else 0
  }

  lemma {:induction false} AtMostBounds(xs: seq<nat>, v: nat)
    ensures AtMost(xs, v) <= |xs|
    ensures v in xs ==> AtMost(xs, v) > 0
  {
    if xs == [] {
    } else {
      var rest := xs[..|xs| - 1];
      assert xs == rest + [xs[|xs| - 1]];
      AtMostBounds(rest, v);
    }
  }

  lemma {:induction false} AllAtMost(xs: seq<nat>, v: nat)
    requires forall x :: x in xs ==> x <= v
    ensures AtMost(xs, v) == |xs|
  {
    if xs == [] {
    } else {
      var rest := xs[..|xs| - 1];
      assert xs[|xs| - 1] in xs && forall x :: x in rest ==> x in xs;
      AllAtMost(rest, v);
    }
  }

  /** Nothing between u and v makes no difference to the count. */
  lemma {:induction false} AtMostFlat(xs: seq<nat>, u: nat, v: nat)
    requires u <= v && forall x :: x in xs ==> x <= u || v < x
    ensures AtMost(xs, u) == AtMost(xs, v)
  {
    if xs == [] {
    } else {
      var rest := xs[..|xs| - 1];
      assert xs[|xs| - 1] in xs && forall x :: x in rest ==> x in xs;
      AtMostFlat(rest, u, v);
    }
  }

  /** At least the given part of the samples is at or below v. */
  predicate Reaches(xs: seq<nat>, scaled: nat, v: nat) {
    |xs| * scaled <= AtMost(xs, v) * RANK_SCALE
  }

  /** The smallest sample with at least the given part of them at or below it. */
  ghost predicate IsNearest(xs: seq<nat>, scaled: nat, v: nat) {
    v in xs && Reaches(xs, scaled, v) && forall u :: u in xs && u < v ==> !Reaches(xs, scaled, u)
  }

  lemma {:induction false} Largest(xs: seq<nat>) returns (v: nat)
    requires xs != []
    ensures v in xs && forall x :: x in xs ==> x <= v
  {
    var last := |xs| - 1;
    if last == 0 {
      v := xs[0];
    } else {
      assert xs == xs[..last] + [xs[last]];
      v := Largest(xs[..last]);
      if v < xs[last] {
        v := xs[last];
      }
    }
  }

  /** There is always such a sample, and only one. */
  lemma NearestExists(xs: seq<nat>, scaled: nat) returns (v: nat)
    requires xs != [] && scaled <= RANK_SCALE
    ensures IsNearest(xs, scaled, v)
  {
    v := Largest(xs);
    AllAtMost(xs, v);
    ScaledDown(|xs|, scaled);
    v := NearestBelow(xs, scaled, v);
  }

  lemma {:induction false} NearestBelow(xs: seq<nat>, scaled: nat, top: nat) returns (v: nat)
    requires top in xs && Reaches(xs, scaled, top)
    ensures IsNearest(xs, scaled, v)
    decreases top
  {
    if u :| u in xs && u < top && Reaches(xs, scaled, u) {
      v := NearestBelow(xs, scaled, u);
    } else {
      v := top;
    }
  }

  lemma NearestIsUnique(xs: seq<nat>, scaled: nat, u: nat, v: nat)
    requires IsNearest(xs, scaled, u) && IsNearest(xs, scaled, v)
    ensures u == v
  {
  }

  /** Counting up the samples reaches the rank at the nearest sample, not before. */
  lemma RankIsThere(xs: seq<nat>, scaled: nat, v: nat)
    requires IsNearest(xs, scaled, v)
    ensures var rank := NearestRank(scaled, |xs|);
      rank <= AtMost(xs, v) && (v > 0 ==> AtMost(xs, v - 1) < rank)
  {
    var rank := NearestRank(scaled, |xs|);
    RankIsCeiling(scaled, |xs|);
    AtMostBounds(xs, v);
    if AtMost(xs, v) < rank {
      MulBounds(rank - 1 - AtMost(xs, v), RANK_SCALE);
    }
    if v > 0 {
      TooFewBelow(xs, scaled, v);
    }
  }

  lemma TooFewBelow(xs: seq<nat>, scaled: nat, v: nat)
    requires IsNearest(xs, scaled, v) && v > 0
    ensures AtMost(xs, v - 1) < NearestRank(scaled, |xs|)
  {
    RankIsCeiling(scaled, |xs|);
    var none, u := LargestBelow(xs, v);
    if none {
      NoneAtMost(xs, v - 1);
    } else {
      AtMostFlat(xs, u, v - 1);
      assert !Reaches(xs, scaled, u);
    }
  }

  /** No sample lies strictly between u and v. */
  predicate Gap(xs: seq<nat>, u: int, v: nat) {
    forall x :: x in xs ==> x <= u || v <= x
  }

  lemma {:induction false} LargestBelow(xs: seq<nat>, v: nat) returns (none: bool, u: nat)
    ensures none ==> Gap(xs, -1, v)
    ensures !none ==> u in xs && u < v && Gap(xs, u, v)
  {
    if xs == [] {
      none, u := true, 0;
    } else {
      var rest, last := xs[..|xs| - 1], xs[|xs| - 1];
      assert xs == rest + [last];
      none, u := LargestBelow(rest, v);
      if last < v && (none || u < last) {
        none, u := false, last;
      }
    }
  }

  lemma {:induction false} NoneAtMost(xs: seq<nat>, v: nat)
    requires forall x :: x in xs ==> v < x
    ensures AtMost(xs, v) == 0
  {
    if xs == [] {
    } else {
      var rest := xs[..|xs| - 1];
      assert xs[|xs| - 1] in xs && forall x :: x in rest ==> x in xs;
      NoneAtMost(rest, v);
    }
  }
}
