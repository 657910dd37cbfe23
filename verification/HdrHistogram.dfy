/** The latency histogram (game-master/telemetry.hpp, `HDRHistogram`): bit-level
    bucketing, its error bound, and percentiles as order statistics. */
module HdrHistograms {
  import opened MarketTypes

  const BUCKETS: nat := 2048

  function Pow2(k: nat): (r: nat)
    ensures r > 0
  {
    if k == 0 then 1 else 2 * Pow2(k - 1)
  }

  /** Index of the highest set bit. */
  function Msb(n: nat): nat
    requires n > 0
  {
    if n < 2 then 0 else 1 + Msb(n / 2)
  }

  lemma {:induction false} MsbBounds(n: nat)
    requires n > 0
    ensures Pow2(Msb(n)) <= n < 2 * Pow2(Msb(n))
  {
    if n >= 2 { MsbBounds(n / 2); }
  }

  lemma {:induction false} Pow2Monotone(i: nat, j: nat)
    requires i <= j
    ensures Pow2(i) <= Pow2(j)
    decreases j
  {
    if i < j { Pow2Monotone(i, j - 1); }
  }

  lemma {:induction false} MsbBelow(n: nat, k: nat)
    requires n > 0
    ensures n < Pow2(k) <==> Msb(n) < k
  {
    MsbBounds(n);
    if Msb(n) < k {
      Pow2Monotone(Msb(n) + 1, k);
    } else {
      Pow2Monotone(k, Msb(n));
    }
  }

  lemma MsbAtLeastFive(ns: nat)
    requires ns >= 32
    ensures Msb(ns) >= 5 && Pow2(Msb(ns)) == 32 * Pow2(Msb(ns) - 5)
  {
    MsbBelow(ns, 5);
    assert Pow2(5) == 32 by { assert Pow2(3) == 8; }
    ShiftByFive(Msb(ns) - 5);
  }

  lemma ShiftByFive(k: nat)
    ensures Pow2(k + 5) == 32 * Pow2(k)
  {
    assert Pow2(k + 5) == 2 * Pow2(k + 4);
    assert Pow2(k + 4) == 2 * Pow2(k + 3);
    assert Pow2(k + 3) == 2 * Pow2(k + 2);
    assert Pow2(k + 2) == 2 * Pow2(k + 1);
  }

  /** 32 sub-buckets per power of two; values below 32 are their own bucket. */
  function GetBucket(ns: nat): nat {
    if ns < 32 then ns
    else
      MsbAtLeastFive(ns);
      var msb := Msb(ns);
      msb * 32 + ns / Pow2(msb - 5) % 32
  }

  /** The buckets a value can fall into; 32..159 are never used. */
  predicate Used(bucket: nat) {
    bucket < 32 || 160 <= bucket < BUCKETS
  }

  /** The lower bound of a bucket; decoding an unused one would shift by a
      negative amount. */
  function BucketToNs(bucket: nat): nat
    requires Used(bucket)
  {
    if bucket < 32 then bucket
    else Pow2(bucket / 32) + bucket % 32 * Pow2(bucket / 32 - 5)
  }

  // ---------------------------------------------------------------- buckets

  lemma DivBounds(n: nat, w: nat)
    requires w > 0 && 32 * w <= n < 64 * w
    ensures 32 <= n / w < 64 && n / w * w <= n < n / w * w + w
  {
    var q := n / w;
    assert n == q * w + n % w;
    MulMonotone(q, 31, w);
    MulMonotone(64, q, w);
  }

  lemma MulMonotone(a: nat, b: nat, w: nat)
    ensures a <= b ==> a * w <= b * w
  {
  }

  /** A value from 32 up: its bucket splits into the power and the top six bits. */
  lemma Decompose(ns: nat)
    requires ns >= 32
    ensures Msb(ns) >= 5
    ensures
      var msb := Msb(ns);
      var w := Pow2(msb - 5);
      && 32 <= ns / w < 64
      && GetBucket(ns) == 32 * msb + ns / w - 32
      && ns / w * w <= ns < ns / w * w + w
      && 32 * w <= ns
      && Pow2(msb) == 32 * w
  {
    MsbAtLeastFive(ns);
    MsbBounds(ns);
    hide Pow2, Msb;
    var w := Pow2(Msb(ns) - 5);
    DivBounds(ns, w);
    ProductDivMod(1, ns / w - 32);
    assert GetBucket(ns) == Msb(ns) * 32 + ns / w % 32;
  }

  lemma Pow2Is64()
    ensures Pow2(64) == 0x1_0000_0000_0000_0000
  {
    assert Pow2(8) == 256;
    assert Pow2(16) == 65536 by { ShiftByFive(8); ShiftByFive(3); ShiftByFive(11); }
    ShiftByFive(16); ShiftByFive(21); ShiftByFive(26);
    ShiftByFive(31); ShiftByFive(36); ShiftByFive(41); ShiftByFive(46); ShiftByFive(51); ShiftByFive(56);
    assert Pow2(64) == 8 * Pow2(61);
  }

  /** Values of 64 bits fall into used buckets. */
  lemma BucketInRange(ns: nat)
    requires ns < 0x1_0000_0000_0000_0000
    ensures Used(GetBucket(ns))
  {
    if ns >= 32 {
      Decompose(ns);
      Pow2Is64();
      MsbBelow(ns, 64);
    }
  }

  /** Larger values never fall into lower buckets. */
  lemma BucketMonotone(a: nat, b: nat)
    requires a <= b
    ensures GetBucket(a) <= GetBucket(b)
  {
    if b >= 32 {
      Decompose(b);
      if a >= 32 {
        Decompose(a);
        MsbBelow(a, Msb(b) + 1);
        MsbBelow(b, Msb(b) + 1);
        if Msb(a) == Msb(b) {
          DivMonotone(a, b, Pow2(Msb(a) - 5));
        }
      }
    }
  }

  lemma DivMonotone(a: nat, b: nat, w: nat)
    requires w > 0 && a <= b
    ensures a / w <= b / w
  {
    assert a == a / w * w + a % w && b == b / w * w + b % w;
    MulMonotone(b / w + 1, a / w, w);
    assert (b / w + 1) * w == b / w * w + w;
  }

  lemma ProductDivMod(m: nat, r: nat)
    requires r < 32
    ensures (32 * m + r) / 32 == m && (32 * m + r) % 32 == r
  {
  }

  /** Decoding the bucket of a value from 32 up drops the bits below the top six. */
  lemma DecodeBucket(v: nat)
    requires 32 <= v < 0x1_0000_0000_0000_0000
    ensures Used(GetBucket(v)) && Msb(v) >= 5
    ensures BucketToNs(GetBucket(v)) == v / Pow2(Msb(v) - 5) * Pow2(Msb(v) - 5)
  {
    hide Pow2, Msb;
    BucketInRange(v);
    Decompose(v);
    hide GetBucket;
    var w := Pow2(Msb(v) - 5);
    var q := v / w;
    ProductDivMod(Msb(v), q - 32);
    assert GetBucket(v) == 32 * Msb(v) + (q - 32);
    assert q * w == 32 * w + (q - 32) * w;
  }

  /** Decoding a value's bucket gives its lower bound, within one part in 32. */
  lemma BucketErrorBound(v: nat)
    requires v < 0x1_0000_0000_0000_0000
    ensures Used(GetBucket(v))
    ensures BucketToNs(GetBucket(v)) <= v
    ensures 32 * (v - BucketToNs(GetBucket(v))) <= v
    ensures v < 32 ==> BucketToNs(GetBucket(v)) == v
  {
    if v >= 32 {
      hide GetBucket, BucketToNs, Pow2, Msb;
      DecodeBucket(v);
      Decompose(v);
    }
  }

  lemma LeastOfPower(bucket: nat)
    requires 160 <= bucket < BUCKETS
    ensures GetBucket(BucketToNs(bucket)) == bucket
  {
    hide Pow2, Msb, GetBucket;
    var m, r := bucket / 32, bucket % 32;
    var w := Pow2(m - 5);
    ShiftByFive(m - 5);
    PowerStep(m, w, r);
    var ns := (32 + r) * w;
    assert BucketToNs(bucket) == ns;
    DivExact(32 + r, w, ns);
    Decompose(ns);
  }

  lemma Distribute(a: nat, b: nat, w: nat)
    ensures (a + b) * w == a * w + b * w
  {
  }

  /** A number between two powers has the lower one's highest bit. */
  lemma MsbIs(m: nat, ns: nat)
    requires 0 < Pow2(m) <= ns < 2 * Pow2(m)
    ensures Msb(ns) == m
  {
    assert Pow2(m + 1) == 2 * Pow2(m);
    MsbBelow(ns, m);
    MsbBelow(ns, m + 1);
  }

  /** A number made of a power's top six bits has that power. */
  lemma PowerStep(m: nat, w: nat, r: nat)
    requires Pow2(m) == 32 * w && w > 0 && r < 32
    ensures (32 + r) * w == 32 * w + r * w >= 32
    ensures Msb((32 + r) * w) == m
  {
    hide Pow2, Msb;
    Distribute(32, r, w);
    MulMonotone(r, 31, w);
    MsbIs(m, (32 + r) * w);
  }

  /** The lower bound of a used bucket lies in that bucket: it is the least value
      the bucket holds. */
  lemma BucketLeast(bucket: nat)
    requires Used(bucket)
    ensures GetBucket(BucketToNs(bucket)) == bucket
    ensures forall v: nat :: v < 0x1_0000_0000_0000_0000 && GetBucket(v) == bucket ==> BucketToNs(bucket) <= v
  {
    forall v: nat | v < 0x1_0000_0000_0000_0000 && GetBucket(v) == bucket ensures BucketToNs(bucket) <= v {
      BucketErrorBound(v);
    }
    if bucket >= 32 { LeastOfPower(bucket); }
  }

  lemma DivExact(q: nat, w: nat, n: nat)
    requires w > 0 && n == q * w
    ensures n / w == q
  {
    assert n == n / w * w + n % w;
    MulMonotone(q + 1, n / w, w);
    MulMonotone(n / w + 1, q, w);
    assert (q + 1) * w == q * w + w;
    assert (n / w + 1) * w == n / w * w + w;
  }

  // --------------------------------------------------------- order statistics

  function CountUpTo(s: seq<nat>, v: int): nat {
    if s == [] then 0 else (if s[0] <= v then 1 else 0) + CountUpTo(s[1..], v)
  }

  /** `v` is the `k`-th smallest sample, counting from 1. */
  ghost predicate IsKthSmallest(s: seq<nat>, k: nat, v: nat) {
    v in s && CountUpTo(s, v - 1) < k <= CountUpTo(s, v)
  }

  lemma {:induction false} CountAll(s: seq<nat>, v: nat)
    requires forall i :: 0 <= i < |s| ==> s[i] <= v
    ensures CountUpTo(s, v) == |s|
  {
    if s != [] { CountAll(s[1..], v); }
  }

  lemma {:induction false} CountGrows(s: seq<nat>, u: int, v: int)
    requires u <= v
    ensures CountUpTo(s, u) <= CountUpTo(s, v)
    ensures CountUpTo(s, v - 1) < CountUpTo(s, v) ==> v in s
  {
    if s != [] { CountGrows(s[1..], u, v); }
  }

  lemma {:induction false} KthBelow(s: seq<nat>, k: nat, n: nat)
    requires 1 <= k <= CountUpTo(s, n)
    ensures exists v: nat :: IsKthSmallest(s, k, v)
  {
    if CountUpTo(s, n - 1) < k {
      CountGrows(s, n, n);
      assert IsKthSmallest(s, k, n);
    } else {
      if n == 0 { CountNone(s); }
      KthBelow(s, k, n - 1);
    }
  }

  lemma {:induction false} CountNone(s: seq<nat>)
    ensures CountUpTo(s, -1) == 0
  {
    if s != [] { CountNone(s[1..]); }
  }

  function MaxOf(s: seq<nat>): (m: nat)
    ensures forall i :: 0 <= i < |s| ==> s[i] <= m
  {
    if s == [] then 0
    else
      var m := MaxOf(s[1..]);
      assert forall i :: 0 < i < |s| ==> s[i] == s[1..][i - 1];
      if s[0] > m then s[0] else m
  }

  lemma KthExists(s: seq<nat>, k: nat)
    requires 1 <= k <= |s|
    ensures exists v: nat :: IsKthSmallest(s, k, v)
  {
    CountAll(s, MaxOf(s));
    KthBelow(s, k, MaxOf(s));
  }

  lemma {:induction false} CountSplit(s: seq<nat>, t: seq<nat>, v: int)
    ensures CountUpTo(s + t, v) == CountUpTo(s, v) + CountUpTo(t, v)
  {
    if s == [] {
      assert s + t == t;
    } else {
      assert (s + t)[1..] == s[1..] + t;
      CountSplit(s[1..], t, v);
    }
  }

  lemma CountRemove(t: seq<nat>, i: nat, v: int)
    requires i < |t|
    ensures CountUpTo(t, v) == CountUpTo(t[..i] + t[i + 1..], v) + if t[i] <= v then 1 else 0
  {
    CountSplit(t[..i], t[i + 1..], v);
    CountSplit(t[..i], t[i..], v);
    assert t == t[..i] + t[i..];
    assert t[i..][1..] == t[i + 1..];
  }

  lemma MultisetRemove(t: seq<nat>, i: nat)
    requires i < |t|
    ensures multiset(t[..i] + t[i + 1..]) == multiset(t) - multiset{t[i]}
  {
    assert t == t[..i] + [t[i]] + t[i + 1..];
  }

  lemma {:induction false} CountPermutation(s: seq<nat>, t: seq<nat>, v: int)
    requires multiset(s) == multiset(t)
    ensures CountUpTo(s, v) == CountUpTo(t, v)
  {
    assert |s| == |multiset(s)| == |multiset(t)| == |t|;
    if s != [] {
      var i := FirstTaken(s, t);
      CountPermutation(s[1..], t[..i] + t[i + 1..], v);
      CountRemove(t, i, v);
    }
  }

  /** Taking the first of `s` out of a permutation leaves a permutation of the rest. */
  lemma FirstTaken(s: seq<nat>, t: seq<nat>) returns (i: nat)
    requires s != [] && multiset(s) == multiset(t)
    ensures i < |t| && t[i] == s[0] && multiset(s[1..]) == multiset(t[..i] + t[i + 1..])
  {
    MultisetHead(s);
    assert s[0] in multiset(t);
    i :| 0 <= i < |t| && t[i] == s[0];
    MultisetRemove(t, i);
  }

  lemma MultisetHead(s: seq<nat>)
    requires s != []
    ensures multiset(s) == multiset{s[0]} + multiset(s[1..])
  {
    assert s == [s[0]] + s[1..];
  }

  lemma {:induction false} CountExcluded(s: seq<nat>, v: int)
    requires forall i :: 0 <= i < |s| ==> s[i] > v
    ensures CountUpTo(s, v) == 0
  {
    if s != [] { CountExcluded(s[1..], v); }
  }

  lemma {:induction false} CountAtMost(s: seq<nat>, v: int)
    ensures CountUpTo(s, v) <= |s|
  {
    if s != [] { CountAtMost(s[1..], v); }
  }

  lemma KthUnique(s: seq<nat>, k: nat, u: nat, v: nat)
    requires IsKthSmallest(s, k, u) && IsKthSmallest(s, k, v)
    ensures u == v
  {
    if u < v { CountGrows(s, u, v as int - 1); }
    if v < u { CountGrows(s, v, u as int - 1); }
  }

  lemma SortedCounts(t: seq<nat>, k: nat)
    requires 1 <= k <= |t| && forall i, j :: 0 <= i <= j < |t| ==> t[i] <= t[j]
    ensures CountUpTo(t, t[k - 1] as int - 1) < k <= CountUpTo(t, t[k - 1])
  {
    var v := t[k - 1];
    assert t == t[..k] + t[k..] && t == t[..k - 1] + t[k - 1..];
    CountSplit(t[..k], t[k..], v);
    CountAll(t[..k], v);
    CountSplit(t[..k - 1], t[k - 1..], v as int - 1);
    CountExcluded(t[k - 1..], v as int - 1);
    CountAtMost(t[..k - 1], v as int - 1);
  }

  /** The k-th smallest sample is the k-th entry of the samples sorted. */
  lemma KthIsSortedEntry(s: seq<nat>, t: seq<nat>, k: nat)
    requires multiset(s) == multiset(t) && 1 <= k <= |t|
    requires forall i, j :: 0 <= i <= j < |t| ==> t[i] <= t[j]
    ensures forall v: nat :: IsKthSmallest(s, k, v) <==> v == t[k - 1]
  {
    var v := t[k - 1];
    SortedCounts(t, k);
    CountPermutation(s, t, v);
    CountPermutation(s, t, v as int - 1);
    assert v in s by { assert v in multiset(t); }
    forall u: nat | IsKthSmallest(s, k, u) ensures u == v {
      KthUnique(s, k, u, v);
    }
  }

  // --------------------------------------------------------------- histogram

  function CountBelow(s: seq<nat>, b: nat): nat {
    if s == [] then 0 else (if GetBucket(s[0]) < b then 1 else 0) + CountBelow(s[1..], b)
  }

  function CountIn(s: seq<nat>, b: nat): nat {
    if s == [] then 0 else (if GetBucket(s[0]) == b then 1 else 0) + CountIn(s[1..], b)
  }

  lemma {:induction false} CountStep(s: seq<nat>, b: nat)
    ensures CountBelow(s, b + 1) == CountBelow(s, b) + CountIn(s, b)
    ensures CountIn(s, b) > 0 ==> exists x :: x in s && GetBucket(x) == b
  {
    if s != [] {
      CountStep(s[1..], b);
      if GetBucket(s[0]) == b {
        assert s[0] in s;
      } else if CountIn(s[1..], b) > 0 {
        var x :| x in s[1..] && GetBucket(x) == b;
        assert x in s;
      }
    }
  }

  lemma {:induction false} CountInAppend(s: seq<nat>, x: nat, b: nat)
    ensures CountIn(s + [x], b) == CountIn(s, b) + if GetBucket(x) == b then 1 else 0
  {
    if s != [] {
      assert (s + [x])[1..] == s[1..] + [x];
      CountInAppend(s[1..], x, b);
    } else {
      assert s + [x] == [x];
    }
  }

  /** Samples at or below `v` all sit in buckets below `b`. */
  lemma {:induction false} UpToWithinBuckets(s: seq<nat>, v: nat, b: nat)
    requires GetBucket(v) < b
    ensures CountUpTo(s, v) <= CountBelow(s, b)
  {
    if s != [] {
      UpToWithinBuckets(s[1..], v, b);
      if s[0] <= v { BucketMonotone(s[0], v); }
    }
  }

  /** Samples in buckets below `b` are all smaller than `v`. */
  lemma {:induction false} BucketsWithinBelow(s: seq<nat>, v: nat, b: nat)
    requires b <= GetBucket(v)
    ensures CountBelow(s, b) <= CountUpTo(s, v - 1)
  {
    if s != [] {
      BucketsWithinBelow(s[1..], v, b);
      if s[0] >= v { BucketMonotone(v, s[0]); }
    }
  }

  /** The bucket at which the running count reaches `k` holds the k-th sample. */
  lemma BucketOfKth(s: seq<nat>, k: nat, v: nat, b: nat)
    requires IsKthSmallest(s, k, v)
    requires CountBelow(s, b) < k <= CountBelow(s, b + 1)
    ensures GetBucket(v) == b
  {
    if GetBucket(v) < b { UpToWithinBuckets(s, v, b); }
    if GetBucket(v) > b { BucketsWithinBelow(s, v, b + 1); }
  }

  lemma {:induction false} NothingBelowZero(s: seq<nat>)
    ensures CountBelow(s, 0) == 0
  {
    if s != [] { NothingBelowZero(s[1..]); }
  }

  lemma {:induction false} AllBelowLast(s: seq<nat>)
    requires forall i :: 0 <= i < |s| ==> s[i] <= INT64_MAX
    ensures CountBelow(s, BUCKETS) == |s|
  {
    if s != [] {
      BucketInRange(s[0]);
      AllBelowLast(s[1..]);
    }
  }

  lemma UnusedCount(s: seq<nat>, b: nat)
    requires forall i :: 0 <= i < |s| ==> s[i] <= INT64_MAX
    requires CountIn(s, b) > 0
    ensures Used(b)
  {
    CountStep(s, b);
    var x :| x in s && GetBucket(x) == b;
    BucketInRange(x);
  }

  function Truncated(x: real): int {
    if x >= 0.0 then x.Floor else -((-x).Floor)
  }

  /** Of `n` samples the percentile `p` asks for the one of rank `k`: the whole part
      of `n` times `p`. */
  predicate AsksFor(n: nat, p: real, k: nat) {
    k as real <= n as real * p < k as real + 1.0
  }

  function ToInt64(u: nat): int {
    if u > INT64_MAX then u - 0x1_0000_0000_0000_0000 else u
  }

  class HdrHistogram {
    const counts: array<int>
    var totalCount: int
    ghost var samples: seq<nat>  // everything recorded, negative readings as 0

    ghost predicate Valid()
      reads this, counts
    {
      && counts.Length == BUCKETS
      && totalCount == |samples|
      && (forall i :: 0 <= i < |samples| ==> samples[i] <= INT64_MAX)
      && (forall b :: 0 <= b < BUCKETS ==> counts[b] == CountIn(samples, b))
    }

    constructor ()
      ensures Valid() && samples == [] && fresh(counts)
    {
      counts := new int[BUCKETS](_ => 0);
      totalCount := 0;
      samples := [];
    }

    method Record(ns: int)
      requires Valid() && ns <= INT64_MAX
      modifies this, counts
      ensures Valid() && samples == old(samples) + [if ns < 0 then 0 else ns]
    {
      var clamped: nat := if ns < 0 then 0 else ns;
      var bucket := GetBucket(clamped);
      BucketInRange(clamped);
      var slot := if bucket < BUCKETS - 1 then bucket else BUCKETS - 1;
      counts[slot] := counts[slot] + 1;
      totalCount := totalCount + 1;
      forall b | 0 <= b < BUCKETS ensures counts[b] == CountIn(samples + [clamped], b) {
        CountInAppend(samples, clamped, b);
      }
      samples := samples + [clamped];
    }

    /** The lower bound of the bucket of the sample it asks for, 0 for rank 0 and
        below, the last bucket for a rank beyond the samples. */
    method Percentile(p: real) returns (r: int)
      requires Valid()
      ensures samples == [] || p < 0.0 ==> r == 0
      ensures samples != [] && p >= 0.0 ==> exists k: nat :: AsksFor(|samples|, p, k)
      ensures forall k: nat :: samples != [] && AsksFor(|samples|, p, k) ==>
        && (k == 0 ==> r == 0)
        && (1 <= k <= |samples| ==>
              exists v: nat :: IsKthSmallest(samples, k, v) && Used(GetBucket(v)) && r == BucketToNs(GetBucket(v)))
        && (k > |samples| ==> r == ToInt64(BucketToNs(BUCKETS - 1)))
      ensures forall k: nat :: samples != [] && p <= 1.0 && AsksFor(|samples|, p, k) ==> k <= |samples|
    {
      hide BucketToNs, GetBucket, IsKthSmallest, Truncated, AsksFor;
      if totalCount == 0 { return 0; }
      var total: nat := totalCount;
      var target := Truncated(total as real * p);
      assert total as real * p == Share(total, p);
      TruncatedRank(total, p, target);
      var running := 0;
      NothingBelowZero(samples);
      for i := 0 to BUCKETS
        invariant running == CountBelow(samples, i)
        invariant i > 0 ==> running < target
      {
        CountStep(samples, i);
        ghost var before := running;
        running := running + counts[i];
        if running >= target {
          Reached(samples, i, target, before, running);
          return ToInt64(BucketToNs(i));
        }
      }
      AllBelowLast(samples);
      return ToInt64(BucketToNs(BUCKETS - 1));
    }
  }

  ghost function Share(n: nat, p: real): real {
    n as real * p
  }

  lemma AsksForShare(n: nat, p: real)
    ensures forall k: nat :: AsksFor(n, p, k) <==> k as real <= Share(n, p) < k as real + 1.0
  {
  }

  /** The cast to an integer gives that rank. */
  lemma TruncatedRank(n: nat, p: real, target: int)
    requires n > 0 && target == Truncated(Share(n, p))
    ensures p < 0.0 ==> target <= 0 && forall k: nat :: !AsksFor(n, p, k)
    ensures p >= 0.0 ==> target >= 0 && AsksFor(n, p, target)
    ensures p >= 0.0 ==> forall k: nat :: AsksFor(n, p, k) ==> k == target
    ensures 0.0 <= p <= 1.0 ==> target <= n
  {
    hide Truncated, Share, AsksFor;
    var x := Share(n, p);
    ShareWithin(n, p);
    AsksForShare(n, p);
    TruncatedWhole(x, target);
    if p < 0.0 {
      forall k: nat ensures !AsksFor(n, p, k) { assert k as real >= 0.0; }
    } else {
      forall k: nat | AsksFor(n, p, k) ensures k == target { WholeUnique(x, k, target); }
      if p <= 1.0 { WholeBelow(target, n); }
    }
  }

  lemma TruncatedWhole(x: real, target: int)
    requires target == Truncated(x)
    ensures x < 0.0 ==> target <= 0
    ensures x >= 0.0 ==> target >= 0 && target as real <= x < target as real + 1.0
  {
  }

  lemma WholeUnique(x: real, a: int, b: int)
    requires a as real <= x < a as real + 1.0 && b as real <= x < b as real + 1.0
    ensures a == b
  {
  }

  lemma WholeBelow(a: int, b: int)
    requires a as real <= b as real
    ensures a <= b
  {
  }

  lemma ShareWithin(n: nat, p: real)
    requires n > 0
    ensures p >= 0.0 ==> Share(n, p) >= 0.0
    ensures p < 0.0 ==> Share(n, p) < 0.0
    ensures p <= 1.0 ==> Share(n, p) <= n as real
  {
    ShareBounds(n as real, p);
  }

  lemma ShareBounds(n: real, p: real)
    requires n > 0.0
    ensures p >= 0.0 ==> n * p >= 0.0
    ensures p < 0.0 ==> n * p < 0.0
    ensures p <= 1.0 ==> n * p <= n
  {
  }

  /** The bucket the percentile walk stops at is decodable and holds the rank. */
  lemma Reached(s: seq<nat>, i: nat, target: int, before: nat, running: nat)
    requires forall i :: 0 <= i < |s| ==> s[i] <= INT64_MAX
    requires before == CountBelow(s, i) && running == CountBelow(s, i + 1) == before + CountIn(s, i) && running >= target
    requires i > 0 ==> before < target
    requires i == 0 ==> before == 0
    requires i < BUCKETS && s != []
    ensures Used(i) && ToInt64(BucketToNs(i)) >= 0
    ensures target <= 0 ==> i == 0 && BucketToNs(i) == 0
    ensures 1 <= target ==> target <= |s| && exists v: nat :: IsKthSmallest(s, target, v) && GetBucket(v) == i && ToInt64(BucketToNs(i)) == BucketToNs(i)
  {
    CountBelowAtMost(s, i + 1);
    if i > 0 || target > 0 {
      UnusedCount(s, i);
    }
    if 1 <= target {
      KthExists(s, target);
      var v: nat :| IsKthSmallest(s, target, v);
      BucketOfKth(s, target, v, i);
      BucketErrorBound(v);
      assert v <= INT64_MAX;
    }
  }

  lemma {:induction false} CountBelowAtMost(s: seq<nat>, b: nat)
    ensures CountBelow(s, b) <= |s|
  {
    if s != [] { CountBelowAtMost(s[1..], b); }
  }

  /** The reported percentile never exceeds the order statistic it stands for and
      is within one part in 32 of it. */
  lemma PercentileError(s: seq<nat>, k: nat, v: nat, r: int)
    requires forall i :: 0 <= i < |s| ==> s[i] <= INT64_MAX
    requires IsKthSmallest(s, k, v) && Used(GetBucket(v)) && r == BucketToNs(GetBucket(v))
    ensures 0 <= r <= v && 32 * (v - r) <= v
  {
    BucketErrorBound(v);
  }
}
