/**
 The latency histogram: 40 power-of-two buckets, the last one open-ended. A quantile is read off the
 bucket counts; the property is how far it can be from the sample it stands for.
 */
module Histogram {

  const NB := 40

  function Pow2(n: nat): (p: nat)
    ensures p > 0
  {
    if n == 0 then 1 else 2 * Pow2(n - 1)
  }

  /** The number of binary digits: 64 less the leading zeros of a 64-bit word. */
  function Bits(x: nat): nat {
    if x == 0 then 0 else 1 + Bits(x / 2)
  }

  function Bucket(us: nat): (i: nat)
    ensures i < NB
  {
    if us == 0 then 0 else if Bits(us) < NB - 1 then Bits(us) else NB - 1
  }

  /** Bit length tied to powers of two. */
  lemma {:induction false} BitsBetweenPowers(x: nat)
    ensures x < Pow2(Bits(x))
    ensures x > 0 ==> Bits(x) > 0 && Pow2(Bits(x) - 1) <= x
  {
    if x > 0 {
      BitsBetweenPowers(x / 2);
    }
  }

  lemma {:induction false} BitsMonotone(x: nat, y: nat)
    requires x <= y
    ensures Bits(x) <= Bits(y)
  {
    if x > 0 {
      BitsMonotone(x / 2, y / 2);
    }
  }

  lemma {:induction false} Pow2Monotone(m: nat, n: nat)
    requires m <= n
    ensures Pow2(m) <= Pow2(n)
  {
    if m < n {
      Pow2Monotone(m, n - 1);
    }
  }

  /** A bucket's bound is above its values and at most twice any of them, except in the last bucket for
      the values it has no room for. */
  lemma BucketBound(x: nat)
    ensures x < Pow2(NB - 1) ==> x < Pow2(Bucket(x)) <= Max(1, 2 * x)
    ensures x >= Pow2(NB - 1) ==> Bucket(x) == NB - 1
  {
    BitsBetweenPowers(x);
    if Bits(x) >= NB {
      Pow2Monotone(NB - 1, Bits(x) - 1);
    } else if x >= Pow2(NB - 1) {
      if Bits(x) < NB - 1 {
        Pow2Monotone(Bits(x), NB - 1);
      }
    }
  }

  function Max(a: nat, b: nat): nat {
    if a < b then b else a
  }

  // ---- Counting samples ---------------------------------------------------------------------------

  function CountBelow(samples: seq<nat>, x: nat): (n: nat)
    ensures n <= |samples|
  {
    if samples == [] then 0
    else CountBelow(samples[..|samples| - 1], x) + if samples[|samples| - 1] < x then 1 else 0
  }

  /** The samples in the buckets before `i`. */
  function CountBuckets(samples: seq<nat>, i: nat): nat {
    if samples == [] then 0
    else CountBuckets(samples[..|samples| - 1], i) + if Bucket(samples[|samples| - 1]) < i then 1 else 0
  }

  function InBucket(samples: seq<nat>, i: nat): nat {
    if samples == [] then 0
    else InBucket(samples[..|samples| - 1], i) + if Bucket(samples[|samples| - 1]) == i then 1 else 0
  }

  function Sum(samples: seq<nat>): nat {
    if samples == [] then 0 else Sum(samples[..|samples| - 1]) + samples[|samples| - 1]
  }

  predicate IsMax(samples: seq<nat>, m: nat) {
    (forall x: nat | x in samples :: x <= m) && (m in samples || (samples == [] && m == 0))
  }

  /** `x` is the `k`-th smallest sample, counting from 1. */
  predicate IsKth(samples: seq<nat>, x: nat, k: nat) {
    CountBelow(samples, x) < k <= CountBelow(samples, x + 1)
  }

  lemma {:induction false} BucketsAddUp(samples: seq<nat>, i: nat)
    ensures CountBuckets(samples, 0) == 0
    ensures CountBuckets(samples, i + 1) == CountBuckets(samples, i) + InBucket(samples, i)
    ensures CountBuckets(samples, NB) == |samples|
  {
    if samples != [] {
      BucketsAddUp(samples[..|samples| - 1], i);
    }
  }

  lemma {:induction false} EarlierBucketsHoldTheSmaller(samples: seq<nat>, x: nat, i: nat)
    ensures Bucket(x) < i ==> CountBelow(samples, x + 1) <= CountBuckets(samples, i)
    ensures Bucket(x) > i ==> CountBuckets(samples, i + 1) <= CountBelow(samples, x)
  {
    if samples != [] {
      EarlierBucketsHoldTheSmaller(samples[..|samples| - 1], x, i);
      var y := samples[|samples| - 1];
      if y <= x {
        BitsMonotone(y, x);
      } else {
        BitsMonotone(x, y);
      }
    }
  }

  /** The bucket where the running count reaches `k` is the `k`-th smallest sample's own. */
  lemma RankFindsBucket(samples: seq<nat>, x: nat, k: nat, i: nat)
    requires IsKth(samples, x, k)
    requires CountBuckets(samples, i) < k <= CountBuckets(samples, i + 1)
    ensures Bucket(x) == i
  {
    EarlierBucketsHoldTheSmaller(samples, x, i);
  }

  lemma {:induction false} EverySampleBelow(samples: seq<nat>, m: nat)
    requires forall i | 0 <= i < |samples| :: samples[i] < m
    ensures CountBelow(samples, m) == |samples|
  {
    if samples != [] {
      EverySampleBelow(samples[..|samples| - 1], m);
    }
  }

  lemma {:induction false} CountBelowZero(samples: seq<nat>)
    ensures CountBelow(samples, 0) == 0
  {
    if samples != [] {
      CountBelowZero(samples[..|samples| - 1]);
    }
  }

  lemma {:induction false} CountJumpsAtSamples(samples: seq<nat>, x: nat)
    requires CountBelow(samples, x) < CountBelow(samples, x + 1)
    ensures x in samples
  {
    if samples[|samples| - 1] != x {
      CountJumpsAtSamples(samples[..|samples| - 1], x);
    }
  }

  lemma {:induction false} KthUpTo(samples: seq<nat>, k: nat, m: nat) returns (x: nat)
    requires 0 < k <= CountBelow(samples, m + 1)
    ensures IsKth(samples, x, k)
  {
    CountBelowZero(samples);
    if m > 0 && CountBelow(samples, m) >= k {
      x := KthUpTo(samples, k, m - 1);
    } else {
      x := m;
    }
  }

  /** There is a `k`-th smallest sample for every rank in range, and it is a sample. */
  lemma KthExists(samples: seq<nat>, k: nat, m: nat)
    requires 0 < k <= |samples| && IsMax(samples, m)
    ensures exists x: nat | x in samples :: IsKth(samples, x, k)
  {
    forall i | 0 <= i < |samples| ensures samples[i] < m + 1 {
      assert samples[i] in samples;
    }
    EverySampleBelow(samples, m + 1);
    var x := KthUpTo(samples, k, m);
    CountJumpsAtSamples(samples, x);
  }

  // ---- The histogram ------------------------------------------------------------------------------

  function Ceil(r: real): int {
    -((-r).Floor)
  }

  function Target(q: real, count: nat): nat {
    var t := Ceil(q * count as real);
    Max(if t < 0 then 0 else t, 1)
  }

  /** The rank asked for: the least number not below `q * count`, but 1 at least. */
  lemma TargetIs(q: real, count: nat)
    ensures var x := q * count as real;
            if x <= 0.0 then Target(q, count) == 1
            else (Target(q, count) - 1) as real < x <= Target(q, count) as real
    ensures q <= 0.0 ==> Target(q, count) == 1
    ensures 0.0 < q <= 1.0 && count > 0 ==> 1 <= Target(q, count) <= count
  {
    if q <= 0.0 {
      assert q * count as real <= 0.0;
    } else if q <= 1.0 && count > 0 {
      assert 0.0 < q * count as real <= count as real;
    }
  }

  class Hist {
    const buckets: array<nat>
    var count: nat
    var sum: nat
    var max: nat
    ghost var samples: seq<nat>

    ghost predicate Valid()
      reads this, buckets
    {
      && buckets.Length == NB && count == |samples| && sum == Sum(samples) && IsMax(samples, max)
      && forall i | 0 <= i < NB :: buckets[i] == InBucket(samples, i)
    }

    constructor ()
      ensures Valid() && samples == [] && fresh(buckets)
    {
      buckets := new nat[NB](i => 0);
      count, sum, max := 0, 0, 0;
      samples := [];
    }

    method Record(us: nat)
      requires Valid()
      modifies this, buckets
      ensures Valid() && samples == old(samples) + [us]
    {
      samples := samples + [us];
      assert samples[..|samples| - 1] == old(samples);
      buckets[Bucket(us)] := buckets[Bucket(us)] + 1;
      count := count + 1;
      sum := sum + us;
      max := Max(max, us);
    }

    method Reset()
      requires Valid()
      modifies this, buckets
      ensures Valid() && samples == []
    {
      var i := 0;
      while i < buckets.Length
        invariant i <= buckets.Length && forall j | 0 <= j < i :: buckets[j] == 0
      {
        buckets[i] := 0;
        i := i + 1;
      }
      count, sum, max := 0, 0, 0;
      samples := [];
    }

    /** The bound of the bucket in which the running count reaches the target, which is the bucket of
        the sample of that rank. */
    method Quantile(q: real) returns (v: nat)
      requires Valid()
      ensures samples == [] ==> v == 0
      ensures samples != [] ==> HasRank(samples, Target(q, |samples|), v)
    {
      if count == 0 {
        return 0;
      }
      v := BoundReaching(Target(q, count));
    }

    method BoundReaching(target: nat) returns (v: nat)
      requires Valid() && target > 0
      ensures HasRank(samples, target, v)
    {
      var cum := 0;
      var i := 0;
      BucketsAddUp(samples, 0);
      while i < buckets.Length
        invariant i <= NB && cum == CountBuckets(samples, i) && cum < target
      {
        BucketsAddUp(samples, i);
        cum := cum + buckets[i];
        if cum >= target {
          BoundHasRank(samples, target, i);
          return Pow2(i);
        }
        i := i + 1;
      }
      v := Pow2(NB - 1);
    }
  }

  /** `v` is the bucket bound of the sample of rank `k`; of the last bucket, if there is no such rank. */
  ghost predicate HasRank(samples: seq<nat>, k: nat, v: nat) {
    if k > |samples| then v == Pow2(NB - 1)
    else forall x: nat | IsKth(samples, x, k) :: v == Pow2(Bucket(x))
  }

  lemma BoundHasRank(samples: seq<nat>, k: nat, i: nat)
    requires i < NB && CountBuckets(samples, i) < k <= CountBuckets(samples, i + 1)
    ensures HasRank(samples, k, Pow2(i))
  {
    CountWithinBuckets(samples, i + 1);
    forall x: nat | IsKth(samples, x, k) ensures Pow2(i) == Pow2(Bucket(x)) {
      RankFindsBucket(samples, x, k, i);
    }
  }

  lemma {:induction false} CountWithinBuckets(samples: seq<nat>, i: nat)
    ensures CountBuckets(samples, i) <= |samples|
  {
    if samples != [] {
      CountWithinBuckets(samples[..|samples| - 1], i);
    }
  }

  /** For a quantile in (0, 1] there is a sample of that rank, and the value returned is above it and at
      most twice it (1 for a sample of 0) exactly when it is below 2^39; beyond, it is always 2^39. */
  lemma QuantileErrorIff(samples: seq<nat>, q: real, m: nat, v: nat)
    requires samples != [] && 0.0 < q <= 1.0 && IsMax(samples, m)
    requires HasRank(samples, Target(q, |samples|), v)
    ensures exists x: nat | x in samples :: IsKth(samples, x, Target(q, |samples|))
    ensures forall x: nat | IsKth(samples, x, Target(q, |samples|)) ::
              && (x < v <= Max(1, 2 * x) <==> x < Pow2(NB - 1))
              && (x >= Pow2(NB - 1) ==> v == Pow2(NB - 1))
  {
    TargetIs(q, |samples|);
    var k := Target(q, |samples|);
    KthExists(samples, k, m);
    forall x: nat | IsKth(samples, x, k)
      ensures x < v <= Max(1, 2 * x) <==> x < Pow2(NB - 1)
      ensures x >= Pow2(NB - 1) ==> v == Pow2(NB - 1)
    {
      BucketBound(x);
    }
  }
}
