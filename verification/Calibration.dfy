/**
 * The scales of the per-dimension codec: each dimension's order statistic of absolute values,
 * by two passes of 16-bit histograms. A non-negative float orders as its bits, so a value
 * here is the bits of its absolute value.
 */
module Calibration {
  import opened Wrappers

  const BUCKETS: nat := 0x1_0000
  const INFINITY: nat := 0x7F80_0000
  const ONE: nat := 0x3F80_0000

  type Bits = n: nat | n < 0x8000_0000

  datatype CalibrationError = NoVectors | ClipOutOfRange

  ghost predicate Wide(vectors: seq<seq<Bits>>, dim: nat) {
    forall v <- vectors :: |v| == dim
  }

  /** How many of the first `n` vectors have component `d` in `lo` up to `hi`. */
  ghost function CountIn(vectors: seq<seq<Bits>>, n: nat, d: nat, lo: nat, hi: nat): nat
    requires n <= |vectors| && forall i :: 0 <= i < n ==> d < |vectors[i]|
  {
    if n == 0 then 0 else
      CountIn(vectors, n - 1, d, lo, hi) + if lo <= vectors[n - 1][d] < hi then 1 else 0
  }

  lemma {:induction false} CountSplits(vectors: seq<seq<Bits>>, n: nat, d: nat, lo: nat, mid: nat, hi: nat)
    requires n <= |vectors| && forall i :: 0 <= i < n ==> d < |vectors[i]|
    requires lo <= mid <= hi
    ensures CountIn(vectors, n, d, lo, hi) == CountIn(vectors, n, d, lo, mid) + CountIn(vectors, n, d, mid, hi)
    ensures lo == 0 && hi >= 0x8000_0000 ==> CountIn(vectors, n, d, lo, hi) == n
    ensures lo == hi ==> CountIn(vectors, n, d, lo, hi) == 0
  {
    if n > 0 { CountSplits(vectors, n - 1, d, lo, mid, hi); }
  }

  /** The first pass counts upper halves; the second, lower halves under one upper half. */
  datatype Pass = Upper | Lower(high: seq<nat>) {
    function BucketOf(d: nat, bits: Bits): Option<nat>
      requires Lower? ==> d < |high|
    {
      match this
      case Upper => Some(bits / BUCKETS)
      case Lower(high) => if bits / BUCKETS == high[d] then Some(bits % BUCKETS) else None
    }

    /** The values bucket `b` of dimension `d` counts start here, and end where the next starts. */
    function Start(d: nat, b: nat): nat
      requires Lower? ==> d < |high|
    {
      match this
      case Upper => b * BUCKETS
      case Lower(high) => high[d] * BUCKETS + b
    }
  }

  function Cell(d: nat, b: nat): nat {
    d * BUCKETS + b
  }

  lemma CellInjective(d: nat, b: nat, d': nat, b': nat)
    requires b < BUCKETS && b' < BUCKETS
    ensures Cell(d, b) == Cell(d', b') <==> d == d' && b == b'
    ensures forall dim: nat :: d < dim ==> Cell(d, b) < dim * BUCKETS
  {
  }

  lemma BucketHolds(pass: Pass, d: nat, bits: Bits, b: nat)
    requires pass.Lower? ==> d < |pass.high|
    requires b < BUCKETS
    ensures pass.BucketOf(d, bits) == Some(b) <==> pass.Start(d, b) <= bits < pass.Start(d, b + 1)
    ensures pass.BucketOf(d, bits).Some? ==> pass.BucketOf(d, bits).value < BUCKETS
  {
  }

  /** The histogram of the first `n` vectors, where the next one is counted up to `upTo`. */
  ghost predicate Counted(vectors: seq<seq<Bits>>, dim: nat, pass: Pass, n: nat, upTo: nat, counts: seq<nat>)
    requires n <= |vectors| && Wide(vectors, dim) && (pass.Lower? ==> |pass.high| == dim)
  {
    && |counts| == dim * BUCKETS
    && forall d, b {:trigger Cell(d, b)} :: 0 <= d < dim && 0 <= b < BUCKETS ==>
        Cell(d, b) < |counts| && counts[Cell(d, b)] == Expected(vectors, dim, pass, n, upTo, d, b)
  }

  ghost function Expected(vectors: seq<seq<Bits>>, dim: nat, pass: Pass, n: nat, upTo: nat, d: nat, b: nat): nat
    requires n <= |vectors| && Wide(vectors, dim) && (pass.Lower? ==> |pass.high| == dim) && d < dim
  {
    CountIn(vectors, if d < upTo && n < |vectors| then n + 1 else n, d, pass.Start(d, b), pass.Start(d, b + 1))
  }

  /** Fill the histogram: one bucket per dimension of each vector, where it has one. */
  method Count(vectors: seq<seq<Bits>>, dim: nat, pass: Pass, counts: array<nat>)
    requires Wide(vectors, dim) && counts.Length == dim * BUCKETS && (pass.Lower? ==> |pass.high| == dim)
    modifies counts
    ensures Counted(vectors, dim, pass, |vectors|, 0, counts[..])
  {
    for i := 0 to counts.Length
      invariant forall k :: 0 <= k < i ==> counts[k] == 0
    {
      counts[i] := 0;
    }
    Cleared(vectors, dim, pass, counts[..]);
    for n := 0 to |vectors|
      invariant Counted(vectors, dim, pass, n, 0, counts[..])
    {
      for d := 0 to dim
        invariant Counted(vectors, dim, pass, n, d, counts[..])
      {
        ghost var before := counts[..];
        var bucket := pass.BucketOf(d, vectors[n][d]);
        if bucket.Some? {
          BucketHolds(pass, d, vectors[n][d], bucket.value);
          CellInjective(d, bucket.value, d, bucket.value);
          counts[Cell(d, bucket.value)] := counts[Cell(d, bucket.value)] + 1;
          assert counts[..] == before[Cell(d, bucket.value) := before[Cell(d, bucket.value)] + 1];
        }
        CountOne(vectors, dim, pass, n, d, before, counts[..]);
      }
      NextVector(vectors, dim, pass, n, counts[..]);
    }
  }

  lemma Cleared(vectors: seq<seq<Bits>>, dim: nat, pass: Pass, counts: seq<nat>)
    requires Wide(vectors, dim) && |counts| == dim * BUCKETS && (pass.Lower? ==> |pass.high| == dim)
    requires forall k :: 0 <= k < |counts| ==> counts[k] == 0
    ensures Counted(vectors, dim, pass, 0, 0, counts)
  {
    forall d, b | 0 <= d < dim && 0 <= b < BUCKETS ensures Cell(d, b) < |counts| {
      CellInjective(d, b, d, b);
    }
  }

  lemma CountOne(vectors: seq<seq<Bits>>, dim: nat, pass: Pass, n: nat, at: nat, before: seq<nat>, counts: seq<nat>)
    requires Wide(vectors, dim) && (pass.Lower? ==> |pass.high| == dim) && n < |vectors| && at < dim
    requires Counted(vectors, dim, pass, n, at, before)
    requires |counts| == |before|
    requires var bucket := pass.BucketOf(at, vectors[n][at]);
      if bucket.Some? then
        var cell := Cell(at, bucket.value);
        cell < |before| && counts == before[cell := before[cell] + 1]
      else counts == before
    ensures Counted(vectors, dim, pass, n, at + 1, counts)
  {
    var bucket := pass.BucketOf(at, vectors[n][at]);
    forall d, b {:trigger Cell(d, b)} | 0 <= d < dim && 0 <= b < BUCKETS
      ensures Cell(d, b) < |counts| && counts[Cell(d, b)] == Expected(vectors, dim, pass, n, at + 1, d, b)
    {
      BucketHolds(pass, at, vectors[n][at], b);
      if bucket.Some? {
        CellInjective(d, b, at, bucket.value);
      }
    }
  }

  lemma NextVector(vectors: seq<seq<Bits>>, dim: nat, pass: Pass, n: nat, counts: seq<nat>)
    requires Wide(vectors, dim) && (pass.Lower? ==> |pass.high| == dim) && n < |vectors|
    requires Counted(vectors, dim, pass, n, dim, counts)
    ensures Counted(vectors, dim, pass, n + 1, 0, counts)
  {
  }

  /** Whether `v` is the value of dimension `d` at `rank` in ascending order. */
  ghost predicate IsRank(vectors: seq<seq<Bits>>, dim: nat, d: nat, rank: nat, v: nat)
    requires Wide(vectors, dim) && d < dim
  {
    CountIn(vectors, |vectors|, d, 0, v) <= rank < CountIn(vectors, |vectors|, d, 0, v + 1)
  }

  /** The bucket holding a rank, and the rank inside it. Falling off the end is unreachable. */
  method Find(ghost vectors: seq<seq<Bits>>, ghost dim: nat, ghost pass: Pass, counts: array<nat>, d: nat, rank: nat)
    returns (bucket: nat, inside: nat)
    requires Wide(vectors, dim) && (pass.Lower? ==> |pass.high| == dim) && d < dim
    requires Counted(vectors, dim, pass, |vectors|, 0, counts[..])
    requires rank < CountIn(vectors, |vectors|, d, pass.Start(d, 0), pass.Start(d, BUCKETS))
    ensures bucket < BUCKETS
    ensures rank - inside == CountIn(vectors, |vectors|, d, pass.Start(d, 0), pass.Start(d, bucket))
    ensures inside < CountIn(vectors, |vectors|, d, pass.Start(d, bucket), pass.Start(d, bucket + 1))
  {
    ghost var n, start := |vectors|, pass.Start(d, 0);
    var below := 0;
    CountSplits(vectors, n, d, start, start, start);
    for b := 0 to BUCKETS
      invariant below == CountIn(vectors, n, d, start, pass.Start(d, b)) <= rank
    {
      assert counts[..][Cell(d, b)] == Expected(vectors, dim, pass, n, 0, d, b);
      CountSplits(vectors, n, d, start, pass.Start(d, b), pass.Start(d, b + 1));
      var count := counts[Cell(d, b)];
      if below + count > rank {
        return b, rank - below;
      }
      below := below + count;
    }
    assert false;
  }

  /** Every dimension's bucket of its rank. */
  method FindAll(vectors: seq<seq<Bits>>, dim: nat, pass: Pass, counts: array<nat>, ranks: seq<nat>)
    returns (buckets: seq<nat>, inside: seq<nat>)
    requires Wide(vectors, dim) && (pass.Lower? ==> |pass.high| == dim) && |ranks| == dim
    requires Counted(vectors, dim, pass, |vectors|, 0, counts[..])
    requires forall d :: 0 <= d < dim ==>
      ranks[d] < CountIn(vectors, |vectors|, d, pass.Start(d, 0), pass.Start(d, BUCKETS))
    ensures |buckets| == |inside| == dim
    ensures forall d :: 0 <= d < dim ==> InBucket(vectors, dim, pass, d, ranks[d], buckets[d], inside[d])
  {
    buckets, inside := [], [];
    for d := 0 to dim
      invariant |buckets| == |inside| == d
      invariant forall e :: 0 <= e < d ==> InBucket(vectors, dim, pass, e, ranks[e], buckets[e], inside[e])
    {
      var bucket, rank := Find(vectors, dim, pass, counts, d, ranks[d]);
      buckets, inside := buckets + [bucket], inside + [rank];
    }
  }

  ghost predicate InBucket(vectors: seq<seq<Bits>>, dim: nat, pass: Pass, d: nat, rank: nat, bucket: nat, inside: nat)
    requires Wide(vectors, dim) && (pass.Lower? ==> |pass.high| == dim) && d < dim
  {
    && bucket < BUCKETS
    && rank - inside == CountIn(vectors, |vectors|, d, pass.Start(d, 0), pass.Start(d, bucket))
    && inside < CountIn(vectors, |vectors|, d, pass.Start(d, bucket), pass.Start(d, bucket + 1))
  }

  /** The two passes together: upper half, then lower half, is the value at the rank. */
  lemma TwoPasses(vectors: seq<seq<Bits>>, dim: nat, d: nat, rank: nat, high: seq<nat>, inside: nat, low: nat,
      rest: nat)
    requires Wide(vectors, dim) && |high| == dim && d < dim
    requires InBucket(vectors, dim, Upper, d, rank, high[d], inside)
    requires InBucket(vectors, dim, Lower(high), d, inside, low, rest)
    ensures rank < |vectors| && AtRank(vectors, dim, d, rank) == high[d] * BUCKETS + low
  {
    var start, v := high[d] * BUCKETS, high[d] * BUCKETS + low;
    CountSplits(vectors, |vectors|, d, 0, start, v);
    CountSplits(vectors, |vectors|, d, 0, start, v + 1);
    CountSplits(vectors, |vectors|, d, start, v, v + 1);
    CountAtMost(vectors, |vectors|, d, 0, v + 1);
    assert rank < |vectors| && IsRank(vectors, dim, d, rank, v);
    AtIsRank(vectors, dim, d, rank, v);
  }

  lemma AtIsRank(vectors: seq<seq<Bits>>, dim: nat, d: nat, rank: nat, v: nat)
    requires Wide(vectors, dim) && d < dim && rank < |vectors| && IsRank(vectors, dim, d, rank, v) == true
    ensures AtRank(vectors, dim, d, rank) == v
  {
    RankIsSorted(vectors, dim, d, rank, v);
  }

  lemma {:induction false} CountAtMost(vectors: seq<seq<Bits>>, n: nat, d: nat, lo: nat, hi: nat)
    requires n <= |vectors| && forall i :: 0 <= i < n ==> d < |vectors[i]|
    ensures CountIn(vectors, n, d, lo, hi) <= n
  {
    if n > 0 { CountAtMost(vectors, n - 1, d, lo, hi); }
  }

  /** A value that is zero, or not finite, is no scale: one takes its place. */
  function ScaleOf(v: nat): nat {
    if 0 < v < INFINITY then v else ONE
  }

  function RankOf(clip: real, n: nat): nat
    requires n > 0 && 0.0 < clip <= 1.0
  {
    var floor := (clip * (n - 1) as real).Floor;
    if floor < n - 1 then floor else n - 1
  }

  /** The clip quantile of `n` places, rounded down. */
  ghost predicate IsQuantile(clip: real, n: nat, rank: nat) {
    rank < n && rank as real <= clip * (n - 1) as real < rank as real + 1.0
  }

  lemma RankMeans(clip: real, n: nat)
    requires n > 0 && 0.0 < clip <= 1.0
    ensures IsQuantile(clip, n, RankOf(clip, n))
  {
    assert clip * (n - 1) as real <= 1.0 * (n - 1) as real;
  }

  /** A dimension's scale: the value at the quantile, or 1.0 where that is zero, or not finite. */
  ghost predicate IsScale(vectors: seq<seq<Bits>>, dim: nat, d: nat, clip: real, scale: nat)
    requires Wide(vectors, dim) && d < dim
  {
    exists rank: nat :: IsQuantile(clip, |vectors|, rank) && scale == Clamped(vectors, dim, d, rank)
  }

  ghost function Clamped(vectors: seq<seq<Bits>>, dim: nat, d: nat, rank: nat): nat
    requires Wide(vectors, dim) && d < dim && rank < |vectors|
  {
    var v := AtRank(vectors, dim, d, rank);
    if 0 < v < 0x7F80_0000 then v else 0x3F80_0000
  }

  ghost predicate AreScales(vectors: seq<seq<Bits>>, dim: nat, clip: real, scales: seq<nat>)
    requires Wide(vectors, dim)
  {
    |scales| == dim && forall d :: 0 <= d < dim ==> IsScale(vectors, dim, d, clip, scales[d])
  }

  lemma ScaleIs(vectors: seq<seq<Bits>>, dim: nat, d: nat, clip: real, rank: nat, scale: nat)
    requires Wide(vectors, dim) && d < dim && rank < |vectors| && IsQuantile(clip, |vectors|, rank) == true
    requires scale == ScaleOf(AtRank(vectors, dim, d, rank))
    ensures IsScale(vectors, dim, d, clip, scale)
  {
  }

  lemma ScalesAre(vectors: seq<seq<Bits>>, dim: nat, clip: real, scales: seq<nat>)
    requires Wide(vectors, dim) && vectors != [] && 0.0 < clip <= 1.0 && |scales| == dim
    requires forall d :: 0 <= d < dim ==> scales[d] == ScaleOf(AtRank(vectors, dim, d, RankOf(clip, |vectors|)))
    ensures AreScales(vectors, dim, clip, scales) == true
  {
    RankMeans(clip, |vectors|);
    forall d | 0 <= d < dim ensures IsScale(vectors, dim, d, clip, scales[d]) {
      ScaleIs(vectors, dim, d, clip, RankOf(clip, |vectors|), scales[d]);
    }
  }

  /** The scales: each dimension's value at the clip quantile, exactly. */
  method Calibrate(vectors: seq<seq<Bits>>, dim: nat, clip: real) returns (result: Result<seq<nat>, CalibrationError>)
    requires Wide(vectors, dim)
    ensures result.Success? <==> vectors != [] && 0.0 < clip <= 1.0
    ensures result.Failure? ==> result.error == if vectors == [] then NoVectors else ClipOutOfRange
    ensures result.Success? ==> |result.value| == dim && forall d :: 0 <= d < dim ==>
      result.value[d] == ScaleOf(AtRank(vectors, dim, d, RankOf(clip, |vectors|)))
    ensures result.Success? ==> AreScales(vectors, dim, clip, result.value) == true
  {
    if vectors == [] {
      return Failure(NoVectors);
    }
    if !(0.0 < clip <= 1.0) {
      return Failure(ClipOutOfRange);
    }
    var rank, counts := RankOf(clip, |vectors|), new nat[dim * BUCKETS];
    Count(vectors, dim, Upper, counts);
    forall d | 0 <= d < dim ensures rank < CountIn(vectors, |vectors|, d, Upper.Start(d, 0), Upper.Start(d, BUCKETS)) {
      CountSplits(vectors, |vectors|, d, 0, 0, Upper.Start(d, BUCKETS));
    }
    var high, inside := FindAll(vectors, dim, Upper, counts, seq(dim, _ => rank));
    Count(vectors, dim, Lower(high), counts);
    var low, rest := FindAll(vectors, dim, Lower(high), counts, inside);
    var scales := seq(dim, d requires 0 <= d < dim => ScaleOf(high[d] * BUCKETS + low[d]));
    forall d | 0 <= d < dim ensures scales[d] == ScaleOf(AtRank(vectors, dim, d, rank)) {
      TwoPasses(vectors, dim, d, rank, high, inside[d], low[d], rest[d]);
    }
    ScalesAre(vectors, dim, clip, scales);
    return Success(scales);
  }

  /** The value a full sort of dimension `d` puts at `rank`. */
  ghost function AtRank(vectors: seq<seq<Bits>>, dim: nat, d: nat, rank: nat): nat
    requires Wide(vectors, dim) && d < dim && rank < |vectors|
  {
    RankIsSorted(vectors, dim, d, rank, 0);
    Sort(Column(vectors, |vectors|, d))[rank]
  }

  /** One dimension of the first `n` vectors. */
  ghost function Column(vectors: seq<seq<Bits>>, n: nat, d: nat): seq<nat>
    requires n <= |vectors| && forall i :: 0 <= i < n ==> d < |vectors[i]|
  {
    if n == 0 then [] else Column(vectors, n - 1, d) + [vectors[n - 1][d]]
  }

  ghost function Sort(s: seq<nat>): seq<nat> {
    if s == [] then [] else Insert(Sort(s[..|s| - 1]), s[|s| - 1])
  }

  ghost function Insert(s: seq<nat>, x: nat): seq<nat> {
    if s == [] || s[|s| - 1] <= x then s + [x] else Insert(s[..|s| - 1], x) + [s[|s| - 1]]
  }

  ghost predicate NonDecreasing(s: seq<nat>) {
    forall i, j :: 0 <= i < j < |s| ==> s[i] <= s[j]
  }

  ghost function Below(s: seq<nat>, v: nat): nat {
    if s == [] then 0 else Below(s[..|s| - 1], v) + if s[|s| - 1] < v then 1 else 0
  }

  lemma BelowAppend(s: seq<nat>, x: nat, v: nat)
    ensures Below(s + [x], v) == Below(s, v) + if x < v then 1 else 0
  {
    assert (s + [x])[..|s|] == s;
  }

  lemma {:induction false} InsertSorts(s: seq<nat>, x: nat)
    requires NonDecreasing(s)
    ensures NonDecreasing(Insert(s, x)) && |Insert(s, x)| == |s| + 1
    ensures forall i :: 0 <= i < |Insert(s, x)| ==> Insert(s, x)[i] <= x || (s != [] && Insert(s, x)[i] <= s[|s| - 1])
  {
    if s != [] && s[|s| - 1] > x {
      InsertSorts(s[..|s| - 1], x);
    }
  }

  lemma {:induction false} InsertPermutes(s: seq<nat>, x: nat)
    ensures multiset(Insert(s, x)) == multiset(s) + multiset{x}
  {
    if s != [] && s[|s| - 1] > x {
      var before, last := s[..|s| - 1], s[|s| - 1];
      assert s == before + [last];
      InsertPermutes(before, x);
    }
  }

  lemma {:induction false} InsertBelow(s: seq<nat>, x: nat, v: nat)
    ensures Below(Insert(s, x), v) == Below(s, v) + if x < v then 1 else 0
  {
    if s == [] || s[|s| - 1] <= x {
      BelowAppend(s, x, v);
    } else {
      InsertBelow(s[..|s| - 1], x, v);
      BelowAppend(Insert(s[..|s| - 1], x), s[|s| - 1], v);
    }
  }

  /** `Sort` is a full sort: in order, and the same values. */
  lemma {:induction false} SortSorts(s: seq<nat>)
    ensures NonDecreasing(Sort(s)) && |Sort(s)| == |s|
    ensures multiset(Sort(s)) == multiset(s)
  {
    if s != [] {
      var before, last := s[..|s| - 1], s[|s| - 1];
      assert s == before + [last];
      SortSorts(before);
      InsertSorts(Sort(before), last);
      InsertPermutes(Sort(before), last);
    }
  }

  lemma {:induction false} SortBelow(s: seq<nat>, v: nat)
    ensures Below(Sort(s), v) == Below(s, v)
  {
    if s != [] {
      SortBelow(s[..|s| - 1], v);
      InsertBelow(Sort(s[..|s| - 1]), s[|s| - 1], v);
    }
  }

  lemma {:induction false} ColumnBelow(vectors: seq<seq<Bits>>, n: nat, d: nat, v: nat)
    requires n <= |vectors| && forall i :: 0 <= i < n ==> d < |vectors[i]|
    ensures |Column(vectors, n, d)| == n
    ensures Below(Column(vectors, n, d), v) == CountIn(vectors, n, d, 0, v)
  {
    if n > 0 {
      ColumnBelow(vectors, n - 1, d, v);
      BelowAppend(Column(vectors, n - 1, d), vectors[n - 1][d], v);
    }
  }

  /** In a sorted list, how many are below a value says where the value begins. */
  lemma {:induction false} BelowPlaces(s: seq<nat>, k: nat, v: nat)
    requires NonDecreasing(s) && k < |s|
    ensures s[k] < v <==> Below(s, v) > k
    ensures Below(s, v) <= |s|
  {
    var last := |s| - 1;
    BelowAtMost(s[..last], v);
    if k < last {
      BelowPlaces(s[..last], k, v);
    } else if s[last] < v {
      AllBelow(s[..last], v);
    }
  }

  lemma {:induction false} BelowAtMost(s: seq<nat>, v: nat)
    ensures Below(s, v) <= |s|
  {
    if s != [] { BelowAtMost(s[..|s| - 1], v); }
  }

  lemma {:induction false} AllBelow(s: seq<nat>, v: nat)
    requires forall i :: 0 <= i < |s| ==> s[i] < v
    ensures Below(s, v) == |s|
  {
    if s != [] { AllBelow(s[..|s| - 1], v); }
  }

  /** The streamed value is the one a full sort puts at the rank. */
  lemma {:induction false} RankIsSorted(vectors: seq<seq<Bits>>, dim: nat, d: nat, rank: nat, v: nat)
    requires Wide(vectors, dim) && d < dim && rank < |vectors|
    ensures |Sort(Column(vectors, |vectors|, d))| == |vectors|
    ensures IsRank(vectors, dim, d, rank, v) <==> Sort(Column(vectors, |vectors|, d))[rank] == v
  {
    var column := Column(vectors, |vectors|, d);
    SortSorts(column);
    ColumnBelow(vectors, |vectors|, d, v);
    ColumnBelow(vectors, |vectors|, d, v + 1);
    SortBelow(column, v);
    SortBelow(column, v + 1);
    BelowPlaces(Sort(column), rank, v);
    BelowPlaces(Sort(column), rank, v + 1);
  }
}
