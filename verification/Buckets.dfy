/** The log-linear buckets of the histogram. `p` is the precision: values below 2^p have a bucket each,
    and every power of two above is split into 2^p equal ones. */
module Buckets {
  import opened Arith

  const WORD_BITS: nat := 64

  function Pow2(n: nat): (r: nat)
    ensures r > 0
  {
    if n == 0 then 1 else 2 * Pow2(n - 1)
  }

  lemma {:induction false} Pow2Adds(a: nat, b: nat)
    ensures Pow2(a + b) == Pow2(a) * Pow2(b)
  {
    if a == 0 {
    } else {
      Pow2Adds(a - 1, b);
      assert Pow2(a + b) == 2 * Pow2(a - 1 + b);
      assert 2 * (Pow2(a - 1) * Pow2(b)) == 2 * Pow2(a - 1) * Pow2(b);
    }
  }

  lemma {:induction false} Pow2Grows(a: nat, b: nat)
    requires a <= b
    ensures Pow2(a) <= Pow2(b)
    decreases b
  {
    if a == b {
    } else {
      Pow2Grows(a, b - 1);
    }
  }

  /** The position of the highest bit. */
  function FloorLog2(v: nat): (e: nat)
    requires v > 0
    ensures Pow2(e) <= v < Pow2(e + 1)
  {
    if v == 1 then 0 else FloorLog2(v / 2) + 1
  }

  /** How many buckets the linear region has, and each power of two above it. */
  function SubBuckets(p: nat): (s: nat)
    ensures s > 0
  {
    Pow2(p)
  }

  function BucketCount(p: nat): (n: nat)
    requires p <= WORD_BITS
    ensures n > 0
  {
    MulBounds(WORD_BITS - p + 1, SubBuckets(p));
    (WORD_BITS - p + 1) * SubBuckets(p)
  }

  function IndexOf(p: nat, v: nat): nat {
    if v < SubBuckets(p) then v
    else
      LinearBelow(p, v);
      LeadingBits(p, v);
      var shift := FloorLog2(v) - p;
      var sub := v / Pow2(shift) - SubBuckets(p);
      Block(shift + 1, SubBuckets(p)) + sub
  }

  function Block(n: nat, s: nat): (i: nat)
    ensures i == n * s
  {
    MulBounds(n, s);
    n * s
  }

  lemma LinearBelow(p: nat, v: nat)
    requires SubBuckets(p) <= v
    ensures p <= FloorLog2(v)
  {
    if FloorLog2(v) < p {
      Pow2Grows(FloorLog2(v) + 1, p);
    }
  }

  /** The leading p + 1 bits of a value, of which the highest is 1. */
  lemma LeadingBits(p: nat, v: nat)
    requires SubBuckets(p) <= v && p <= FloorLog2(v)
    ensures SubBuckets(p) <= v / Pow2(FloorLog2(v) - p) < 2 * SubBuckets(p)
  {
    var e := FloorLog2(v);
    var w := Pow2(e - p);
    Pow2Adds(e - p, p);
    Pow2Adds(e - p, p + 1);
    DivBetween(v, w, SubBuckets(p), 2 * SubBuckets(p));
  }

  lemma DivBetween(v: nat, w: nat, lo: nat, hi: nat)
    requires w > 0 && w * lo <= v < w * hi
    ensures lo <= v / w < hi
  {
    var q := v / w;
    assert v == w * q + v % w;
    MulBounds(lo - q, w);
    MulBounds(q - hi, w);
    assert (lo - q) * w == w * lo - w * q && (q - hi) * w == w * q - w * hi;
  }

  /** Smallest value in a bucket. */
  function Lower(p: nat, i: nat): nat {
    if i < SubBuckets(p) then i
    else (SubBuckets(p) + i % SubBuckets(p)) * Pow2(Shift(p, i))
  }

  function Width(p: nat, i: nat): (w: nat)
    ensures w > 0
  {
    if i < SubBuckets(p) then 1 else Pow2(Shift(p, i))
  }

  /** How far the values of a bucket above the linear region are shifted. */
  function Shift(p: nat, i: nat): nat
    requires SubBuckets(p) <= i
  {
    BlockPositive(p, i);
    i / SubBuckets(p) - 1
  }

  lemma BlockPositive(p: nat, i: nat)
    requires SubBuckets(p) <= i
    ensures i / SubBuckets(p) >= 1
  {
    var s := SubBuckets(p);
    assert i == i / s * s + i % s;
    MulBounds(i / s, s);
  }

  /** The value reported for a bucket. */
  function Midpoint(p: nat, i: nat): nat {
    Lower(p, i) + Width(p, i) / 2
  }

  ghost predicate InBucket(p: nat, v: nat, i: nat) {
    Lower(p, i) <= v < Lower(p, i) + Width(p, i)
  }

  /** The parts of the index of a value above the linear region. */
  lemma IndexParts(p: nat, v: nat)
    requires SubBuckets(p) <= v && p <= FloorLog2(v)
    ensures var s, i := SubBuckets(p), IndexOf(p, v);
      && s <= i && Shift(p, i) == FloorLog2(v) - p
      && s <= v / Pow2(Shift(p, i)) < 2 * s && i % s == v / Pow2(Shift(p, i)) - s
  {
    LeadingBits(p, v);
    var s := SubBuckets(p);
    var e := FloorLog2(v);
    var sub := v / Pow2(e - p) - s;
    DivUnique(IndexOf(p, v), s, e - p + 1, sub);
    MulBounds(e - p + 1, s);
  }

  /** Every value lies in the bucket it is counted in. */
  lemma ValueInBucket(p: nat, v: nat)
    ensures InBucket(p, v, IndexOf(p, v))
  {
    if v >= SubBuckets(p) {
      LinearBelow(p, v);
      IndexParts(p, v);
      DropRemainder(v, Pow2(Shift(p, IndexOf(p, v))));
    }
  }

  lemma DropRemainder(v: nat, w: nat)
    requires w > 0
    ensures v / w * w <= v < v / w * w + w
  {
    assert v == w * (v / w) + v % w;
  }

  /** The buckets tile the values: each begins where the one before ends. */
  lemma BucketsTile(p: nat, i: nat)
    ensures Lower(p, i + 1) == Lower(p, i) + Width(p, i)
  {
    var s := SubBuckets(p);
    if i + 1 < s {
    } else if i + 1 == s {
      DivUnique(s, s, 1, 0);
    } else {
      var q, r := i / s, i % s;
      if r + 1 < s {
        DivUnique(i + 1, s, q, r + 1);
        assert (s + r + 1) * Pow2(q - 1) == (s + r) * Pow2(q - 1) + Pow2(q - 1);
      } else {
        assert i + 1 == (q + 1) * s;
        DivUnique(i + 1, s, q + 1, 0);
        BlockPositive(p, i);
        assert (s + r) * Pow2(q - 1) + Pow2(q - 1) == (s + r + 1) * Pow2(q - 1) == 2 * s * Pow2(q - 1);
        assert s * Pow2(q) == s * (2 * Pow2(q - 1)) == 2 * s * Pow2(q - 1);
      }
    }
  }

  lemma {:induction false} LowerGrows(p: nat, i: nat, j: nat)
    requires i < j
    ensures Lower(p, i) + Width(p, i) <= Lower(p, j)
    decreases j
  {
    BucketsTile(p, j - 1);
    if i < j - 1 {
      LowerGrows(p, i, j - 1);
    }
  }

  /** A value lies in no other bucket. */
  lemma OnlyBucket(p: nat, v: nat, i: nat)
    ensures InBucket(p, v, i) <==> i == IndexOf(p, v)
  {
    ValueInBucket(p, v);
    if i < IndexOf(p, v) {
      LowerGrows(p, i, IndexOf(p, v));
    } else if IndexOf(p, v) < i {
      LowerGrows(p, IndexOf(p, v), i);
    }
  }

  /** A smaller value is in no later bucket. */
  lemma IndexKeepsOrder(p: nat, u: nat, v: nat)
    requires u <= v
    ensures IndexOf(p, u) <= IndexOf(p, v)
  {
    ValueInBucket(p, u);
    ValueInBucket(p, v);
    if IndexOf(p, v) < IndexOf(p, u) {
      LowerGrows(p, IndexOf(p, v), IndexOf(p, u));
    }
  }

  /** The buckets cover the 64-bit values exactly: one past the last begins at 2^64. */
  lemma CoversTheWord(p: nat)
    requires p <= WORD_BITS
    ensures Lower(p, BucketCount(p)) == Pow2(WORD_BITS)
  {
    var s := SubBuckets(p);
    DivUnique(BucketCount(p), s, WORD_BITS - p + 1, 0);
    MulBounds(WORD_BITS - p + 1, s);
    Pow2Adds(p, WORD_BITS - p);
  }

  /** A 64-bit value, and no other, has a bucket in the array. */
  lemma IndexInRange(p: nat, v: nat)
    requires p <= WORD_BITS
    ensures IndexOf(p, v) < BucketCount(p) <==> v < Pow2(WORD_BITS)
  {
    CoversTheWord(p);
    ValueInBucket(p, v);
    if IndexOf(p, v) < BucketCount(p) {
      LowerGrows(p, IndexOf(p, v), BucketCount(p));
    } else if BucketCount(p) < IndexOf(p, v) {
      LowerGrows(p, BucketCount(p), IndexOf(p, v));
    }
  }

  /** Nothing the bucket arithmetic computes leaves 64 bits: a bucket ends within the word, and so do
      its midpoint and the number shifted into place. */
  lemma BucketsFitTheWord(p: nat, i: nat)
    requires p <= WORD_BITS && i < BucketCount(p)
    ensures Lower(p, i) + Width(p, i) <= Pow2(WORD_BITS) && Midpoint(p, i) < Pow2(WORD_BITS)
    ensures SubBuckets(p) <= i ==> Shift(p, i) + p < WORD_BITS
  {
    CoversTheWord(p);
    LowerGrows(p, i, BucketCount(p));
    if SubBuckets(p) <= i {
      FewBlocks(i, SubBuckets(p), WORD_BITS - p + 1);
    }
  }

  lemma FewBlocks(i: nat, s: nat, n: nat)
    requires s > 0 && i < n * s
    ensures i / s < n
  {
    DropRemainder(i, s);
    MulBounds(i / s - n, s);
    assert (i / s - n) * s == i / s * s - n * s;
  }

  /** Up to precision 26 every index fits 32 bits. */
  lemma IndexFits(p: nat)
    requires p <= 26
    ensures BucketCount(p) <= Pow2(32)
  {
    var s := SubBuckets(p);
    Pow2Adds(6, 26);
    if p < 26 {
      Pow2Grows(p + 1, 26);
      MulBounds(p, s);
      assert (WORD_BITS - p + 1) * s == 65 * s - p * s;
    }
  }

  /** The reported value is within one part in 2^(p + 1) of any value it stands for. */
  lemma WithinHalfABucket(p: nat, v: nat)
    ensures 2 * SubBuckets(p) * Apart(Midpoint(p, IndexOf(p, v)), v) <= v
  {
    var s, i := SubBuckets(p), IndexOf(p, v);
    ValueInBucket(p, v);
    if v >= s {
      LinearBelow(p, v);
      IndexParts(p, v);
      HalfWidth(Shift(p, i), Lower(p, i), v);
      HalfOfBlock(s, i % s, Pow2(Shift(p, i)), Apart(Midpoint(p, i), v));
    }
  }

  function Apart(a: nat, b: nat): nat {
    if a > b then a - b else b - a
  }

  lemma HalfOfBlock(s: nat, sub: nat, w: nat, off: nat)
    requires 2 * off <= w
    ensures 2 * s * off <= (s + sub) * w
  {
    MulBounds(w - 2 * off, s);
    assert (w - 2 * off) * s == w * s - 2 * s * off;
    MulBounds(sub, w);
    assert (s + sub) * w == s * w + sub * w;
  }

  lemma HalfWidth(shift: nat, lower: nat, v: nat)
    requires lower <= v < lower + Pow2(shift)
    ensures 2 * Apart(lower + Pow2(shift) / 2, v) <= Pow2(shift)
  {
    if shift > 0 {
      assert Pow2(shift) == 2 * Pow2(shift - 1);
    }
  }
}
