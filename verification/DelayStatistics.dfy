/** Delay statistics (telemetry/src/stats.rs): Welford's running mean and
    variance, and exact percentiles over a circular window.

    Floating point is modelled over `real`; p is a rational `num / den`. */
module DelayStatistics {
  import opened Base
  import opened Sorting

  // ----- What the numbers mean, as statements about the whole history -----

  function Sum(h: seq<int>): int {
    if h == [] then 0 else Sum(h[..|h| - 1]) + h[|h| - 1]
  }

  ghost predicate IsMean(h: seq<int>, m: real) {
    if h == [] then m == 0.0 else m * |h| as real == Sum(h) as real
  }

  /** The second pass of the textbook variance: squared distances from `c`. */
  function SquaredDeviations(h: seq<int>, c: real): real {
    if h == [] then 0.0
    else SquaredDeviations(h[..|h| - 1], c) + (h[|h| - 1] as real - c) * (h[|h| - 1] as real - c)
  }

  function LastN(h: seq<int>, n: nat): seq<int> {
    if |h| <= n then h else h[|h| - n..]
  }

  ghost predicate IsMinimum(h: seq<int>, m: int) {
    if h == [] then m == I64_MAX else m in h && forall i :: 0 <= i < |h| ==> m <= h[i]
  }

  ghost predicate IsMaximum(h: seq<int>, m: int) {
    if h == [] then m == I64_MIN else m in h && forall i :: 0 <= i < |h| ==> h[i] <= m
  }

  /** ceil(p * n), at least 1. */
  function NearestRank(n: nat, num: nat, den: nat): (rank: nat)
    requires 0 < n && 0 < den && num <= den
  {
    Min(Max((num * n + den - 1) / den, 1), n)
  }

  function NotAbove(v: int): int -> bool { x => x <= v }

  function NotBelow(v: int): int -> bool { x => v <= x }

  function CountAtMost(w: seq<int>, v: int): nat { CountIf(NotAbove(v), w) }

  function CountAtLeast(w: seq<int>, v: int): nat { CountIf(NotBelow(v), w) }

  /** `v` is an element of `w`, with at least `rank` values not above it and at
      least `n - rank + 1` not below it. */
  ghost predicate IsNearestRank(w: seq<int>, rank: nat, v: int) {
    && v in w
    && rank <= CountAtMost(w, v)
    && |w| - rank + 1 <= CountAtLeast(w, v)
  }

  /** The least element that at least `percent` per cent of `w` do not exceed:
      fewer than that are below it. */
  ghost predicate IsPercentile(w: seq<int>, percent: nat, v: int) {
    && v in w
    && 100 * CountAtMost(w, v) >= percent * |w|
    && 100 * (|w| - CountAtLeast(w, v)) < percent * |w|
  }

  datatype StatsSnapshot = StatsSnapshot(
    count: nat, lastNs: int, minNs: int, maxNs: int, meanNs: real, varianceNs2: real,
    p50Ns: int, p90Ns: int, p99Ns: int)

  /** The snapshot a history must give, for a percentile window of `window`. */
  ghost predicate Summarises(s: StatsSnapshot, h: seq<int>, window: nat)
    requires h != [] && 0 < window
  {
    var w := LastN(h, window);
    && s.count == |h|
    && s.lastNs == h[|h| - 1]
    && IsMinimum(h, s.minNs) && IsMaximum(h, s.maxNs)
    && IsMean(h, s.meanNs)
    && s.varianceNs2 == (if |h| == 1 then 0.0 else SquaredDeviations(h, s.meanNs) / (|h| - 1) as real)
    && IsPercentile(w, 50, s.p50Ns)
    && IsPercentile(w, 90, s.p90Ns)
    && IsPercentile(w, 99, s.p99Ns)
  }

  // ----- Welford's recurrence is the two-pass form -----

  /** What moving the reference point from `c` to `d` adds to the squared
      deviations of `n` values that sum to `s`. */
  function ShiftTerm(s: real, n: real, c: real, d: real): real {
    (c - d) * (2.0 * s - n * (c + d))
  }

  lemma ShiftStep(s: real, n: real, v: real, c: real, d: real)
    ensures ShiftTerm(s, n, c, d) + (v - d) * (v - d) == ShiftTerm(s + v, n + 1.0, c, d) + (v - c) * (v - c)
  {
    var k := 2.0 * s - n * (c + d);
    assert 2.0 * (s + v) - (n + 1.0) * (c + d) == k + 2.0 * v - (c + d);
    assert (c - d) * k + (v - d) * (v - d) == (c - d) * (k + 2.0 * v - (c + d)) + (v - c) * (v - c);
  }

  lemma {:induction false} DeviationShift(h: seq<int>, c: real, d: real, delta: real)
    requires delta == ShiftTerm(Sum(h) as real, |h| as real, c, d)
    ensures SquaredDeviations(h, d) == SquaredDeviations(h, c) + delta
  {
    if h == [] {
      assert delta == 0.0;
    } else {
      var init, v := h[..|h| - 1], h[|h| - 1];
      var delta' := ShiftTerm(Sum(init) as real, |init| as real, c, d);
      DeviationShift(init, c, d, delta');
      AppendDeviations(SquaredDeviations(init, c), SquaredDeviations(init, d), delta', delta,
        Sum(init) as real, |init| as real, v as real, c, d);
      assert (Sum(init) + v) as real == Sum(init) as real + v as real;
      assert (|init| + 1) as real == |init| as real + 1.0;
    }
  }

  lemma AppendDeviations(qc: real, qd: real, delta': real, delta: real, s: real, n: real, v: real, c: real, d: real)
    requires qd == qc + delta' && delta' == ShiftTerm(s, n, c, d) && delta == ShiftTerm(s + v, n + 1.0, c, d)
    ensures qd + (v - d) * (v - d) == qc + (v - c) * (v - c) + delta
  {
    ShiftStep(s, n, v, c, d);
  }

  /** The updated mean, on bare numbers: `m` is the mean of `n` values summing
      to `s`, `m'` the updated mean once `x` is in. */
  lemma MeanAlgebra(s: real, n: real, x: real, m: real, m': real)
    requires 0.0 <= n && m * n == s && m' == m + (x - m) / (n + 1.0)
    ensures m' * (n + 1.0) == s + x
  {
    var q := (x - m) / (n + 1.0);
    assert q * (n + 1.0) == x - m;
    assert m' * (n + 1.0) == m * (n + 1.0) + q * (n + 1.0);
  }

  lemma DeviationAlgebra(s: real, n: real, x: real, m: real, m': real, shift: real, square: real, gain: real)
    requires m * n == s && m' * (n + 1.0) == s + x
    requires shift == ShiftTerm(s, n, m, m') && square == (x - m') * (x - m') && gain == (x - m) * (x - m')
    ensures shift + square == gain
  {
    assert 2.0 * s - n * (m + m') == n * (m - m');
    assert n * (m - m') == m' - x;
    assert (m - m') * (m' - x) + (x - m') * (x - m') == (x - m) * (x - m');
  }

  lemma AppendDeviation(h: seq<int>, v: int, c: real, square: real)
    requires square == (v as real - c) * (v as real - c)
    ensures SquaredDeviations(h + [v], c) == SquaredDeviations(h, c) + square
  {
    assert (h + [v])[..|h|] == h;
  }

  lemma MeanStep(h: seq<int>, v: int, m: real, m': real)
    requires IsMean(h, m) && m' == m + (v as real - m) / (|h| as real + 1.0)
    ensures IsMean(h + [v], m')
  {
    var s, n, x := Sum(h) as real, |h| as real, v as real;
    MeanAlgebra(s, n, x, m, m');
    assert (h + [v])[..|h|] == h;
    assert Sum(h + [v]) as real == s + x;
    assert |h + [v]| as real == n + 1.0;
  }

  lemma DeviationStep(h: seq<int>, v: int, m: real, m': real, shift: real, square: real)
    requires shift == ShiftTerm(Sum(h) as real, |h| as real, m, m')
    requires square == (v as real - m') * (v as real - m')
    ensures SquaredDeviations(h + [v], m') == SquaredDeviations(h, m) + (shift + square)
  {
    DeviationShift(h, m, m', shift);
    AppendDeviation(h, v, m', square);
  }

  /** A proof that wants the moments or extremes of `h` in the open says so.
      Elsewhere they stay folded, which keeps real products out of the way of
      proofs that are not about them. */
  ghost predicate Open(h: seq<int>) { true }

  /** The accumulators hold the exact mean and the two-pass sum of squares. */
  ghost predicate Moments(h: seq<int>, mean: real, m2: real) {
    forall g {:trigger Open(g)} :: g == h && Open(g) ==> IsMean(g, mean) && m2 == SquaredDeviations(g, mean)
  }

  ghost predicate Extremes(h: seq<int>, lo: int, hi: int) {
    forall g {:trigger Open(g)} :: g == h && Open(g) ==> IsMinimum(g, lo) && IsMaximum(g, hi)
  }

  /** One step of Welford's update carries the moments from `h` to `h + [v]`;
      `n` is the new count. */
  lemma WelfordStep(h: seq<int>, v: int, n: nat, x: real, m: real, m2: real, m': real, gain: real)
    requires Moments(h, m, m2)
    requires n == |h| + 1 && x == v as real
    requires m' == m + (x - m) / n as real
    requires gain == (x - m) * (x - m')
    ensures Moments(h + [v], m', m2 + gain)
  {
    assert Open(h);
    var s, k := Sum(h) as real, |h| as real;
    assert n as real == k + 1.0;
    var shift, square := ShiftTerm(s, k, m, m'), (x - m') * (x - m');
    MeanStep(h, v, m, m');
    MeanAlgebra(s, k, x, m, m');
    DeviationAlgebra(s, k, x, m, m', shift, square, gain);
    DeviationStep(h, v, m, m', shift, square);
  }

  lemma {:induction false} DeviationsNonNegative(h: seq<int>, c: real)
    ensures 0.0 <= SquaredDeviations(h, c)
  {
    if h != [] {
      DeviationsNonNegative(h[..|h| - 1], c);
      assert 0.0 <= (h[|h| - 1] as real - c) * (h[|h| - 1] as real - c);
    }
  }

  lemma MeanUnique(h: seq<int>, m: real, m': real)
    requires IsMean(h, m) && IsMean(h, m')
    ensures m == m'
  {
    if h != [] {
      CancelFactor(m, m', |h| as real);
    }
  }

  lemma CancelFactor(a: real, b: real, n: real)
    requires n != 0.0 && a * n == b * n
    ensures a == b
  {
    assert (a - b) * n == 0.0;
  }

  // ----- Percentiles -----

  predicate AtMost(a: int, b: int) { a <= b }

  /** Nearest-rank percentile of a sorted, non-empty list (`percentile_sorted`). */
  function PercentileSorted(sorted: seq<int>, num: nat, den: nat): int
    requires sorted != [] && 0 < den && num <= den
  {
    sorted[NearestRank(|sorted|, num, den) - 1]
  }

  lemma RankOfSorted(s: seq<int>, rank: nat)
    requires Sorted(AtMost, s) && 1 <= rank <= |s|
    ensures IsNearestRank(s, rank, s[rank - 1])
  {
    var v := s[rank - 1];
    assert s == s[..rank] + s[rank..] && s == s[..rank - 1] + s[rank - 1..];
    assert forall i :: 0 <= i < rank ==> AtMost(s[i], v);
    CountAll(NotAbove(v), s[..rank]);
    CountSplit(NotAbove(v), s[..rank], s[rank..]);
    assert forall i :: rank - 1 <= i < |s| ==> AtMost(v, s[i]);
    CountAll(NotBelow(v), s[rank - 1..]);
    CountSplit(NotBelow(v), s[..rank - 1], s[rank - 1..]);
  }

  lemma RankOfPermutation(s: seq<int>, w: seq<int>, rank: nat, v: int)
    requires multiset(s) == multiset(w) && IsNearestRank(s, rank, v)
    ensures IsNearestRank(w, rank, v)
  {
    CountOfPermutation(NotAbove(v), s, w);
    CountOfPermutation(NotBelow(v), s, w);
    assert v in multiset(w);
    assert |s| == |multiset(s)| == |multiset(w)| == |w|;
  }

  /** Sorting any arrangement of the window and picking by rank gives the
      nearest-rank element of the window. */
  lemma PercentileIsNearestRank(w: seq<int>, arrangement: seq<int>, num: nat, den: nat)
    requires w != [] && 0 < den && num <= den
    requires multiset(arrangement) == multiset(w)
    ensures |Sort(AtMost, arrangement)| == |w|
    ensures IsNearestRank(w, NearestRank(|w|, num, den), PercentileSorted(Sort(AtMost, arrangement), num, den))
  {
    var s := Sort(AtMost, arrangement);
    SortSorts(AtMost, arrangement);
    assert |s| == |multiset(s)| == |multiset(w)| == |w|;
    RankOfSorted(s, NearestRank(|w|, num, den));
    RankOfPermutation(s, w, NearestRank(|w|, num, den), PercentileSorted(s, num, den));
  }

  lemma {:induction false} CountsOverlap(w: seq<int>, u: int, v: int)
    requires u < v
    ensures CountAtMost(w, u) + CountAtLeast(w, v) <= |w|
  {
    if w != [] {
      CountsOverlap(w[..|w| - 1], u, v);
    }
  }

  /** A higher rank never gives a smaller value; so a rank decides its value. */
  lemma NearestRankMonotone(w: seq<int>, r1: nat, v1: int, r2: nat, v2: int)
    requires r1 <= r2 && IsNearestRank(w, r1, v1) && IsNearestRank(w, r2, v2)
    ensures v1 <= v2
    ensures r1 == r2 ==> v1 == v2
  {
    if v2 < v1 {
      CountsOverlap(w, v2, v1);
    }
    if r1 == r2 && v1 < v2 {
      CountsOverlap(w, v1, v2);
    }
  }

  /** The rank is the share rounded up. */
  lemma RankIsCeiling(n: nat, percent: nat)
    requires 0 < n && (percent == 50 || percent == 90 || percent == 99)
    ensures var k := NearestRank(n, percent, 100);
      percent * n <= 100 * k < percent * n + 100 && 1 <= k <= n
  {
  }

  /** So picking by rank picks the percentile. */
  lemma RankIsPercentile(w: seq<int>, percent: nat, v: int)
    requires w != [] && (percent == 50 || percent == 90 || percent == 99)
    ensures IsNearestRank(w, NearestRank(|w|, percent, 100), v) <==> IsPercentile(w, percent, v)
  {
    RankIsCeiling(|w|, percent);
  }

  /** The fields of a snapshot in their order, and a variance that is one. */
  predicate Ordered(s: StatsSnapshot) {
    s.minNs <= s.p50Ns <= s.p90Ns <= s.p99Ns <= s.maxNs && 0.0 <= s.varianceNs2
  }

  /** Every snapshot of a history is ordered, whatever the window, and a
      history has one snapshot only. */
  lemma SnapshotOrdered(s: StatsSnapshot, h: seq<int>, window: nat)
    requires h != [] && 0 < window && Summarises(s, h, window)
    ensures Ordered(s)
  {
    var w := LastN(h, window);
    RanksGrow(|w|);
    PercentilesAreRanks(w, s);
    NearestRankMonotone(w, NearestRank(|w|, 50, 100), s.p50Ns, NearestRank(|w|, 90, 100), s.p90Ns);
    NearestRankMonotone(w, NearestRank(|w|, 90, 100), s.p90Ns, NearestRank(|w|, 99, 100), s.p99Ns);
    WithinExtremes(h, w, s.p50Ns, s.minNs, s.maxNs);
    WithinExtremes(h, w, s.p99Ns, s.minNs, s.maxNs);
    VarianceNonNegative(h, s.meanNs, s.varianceNs2);
  }

  lemma PercentilesAreRanks(w: seq<int>, s: StatsSnapshot)
    requires w != [] && IsPercentile(w, 50, s.p50Ns) && IsPercentile(w, 90, s.p90Ns) && IsPercentile(w, 99, s.p99Ns)
    ensures IsNearestRank(w, NearestRank(|w|, 50, 100), s.p50Ns)
    ensures IsNearestRank(w, NearestRank(|w|, 90, 100), s.p90Ns)
    ensures IsNearestRank(w, NearestRank(|w|, 99, 100), s.p99Ns)
  {
    RankIsPercentile(w, 50, s.p50Ns);
    RankIsPercentile(w, 90, s.p90Ns);
    RankIsPercentile(w, 99, s.p99Ns);
  }

  lemma RanksGrow(n: nat)
    requires 0 < n
    ensures NearestRank(n, 50, 100) <= NearestRank(n, 90, 100) <= NearestRank(n, 99, 100)
  {
  }

  lemma VarianceNonNegative(h: seq<int>, mean: real, variance: real)
    requires h != [] && variance == (if |h| == 1 then 0.0 else SquaredDeviations(h, mean) / (|h| - 1) as real)
    ensures 0.0 <= variance
  {
    DeviationsNonNegative(h, mean);
  }

  lemma WithinExtremes(h: seq<int>, w: seq<int>, v: int, lo: int, hi: int)
    requires h != [] && IsMinimum(h, lo) && IsMaximum(h, hi)
    requires v in w && |w| <= |h| && w == h[|h| - |w|..]
    ensures lo <= v <= hi
  {
  }

  lemma SnapshotUnique(s: StatsSnapshot, t: StatsSnapshot, h: seq<int>, window: nat)
    requires h != [] && 0 < window && Summarises(s, h, window) && Summarises(t, h, window)
    ensures s == t
  {
    var w := LastN(h, window);
    PercentilesAreRanks(w, s);
    PercentilesAreRanks(w, t);
    NearestRankMonotone(w, NearestRank(|w|, 50, 100), s.p50Ns, NearestRank(|w|, 50, 100), t.p50Ns);
    NearestRankMonotone(w, NearestRank(|w|, 90, 100), s.p90Ns, NearestRank(|w|, 90, 100), t.p90Ns);
    NearestRankMonotone(w, NearestRank(|w|, 99, 100), s.p99Ns, NearestRank(|w|, 99, 100), t.p99Ns);
    MeanUnique(h, s.meanNs, t.meanNs);
  }

  /** `s` is absent exactly when nothing was recorded; otherwise it is the one
      summary of the history. */
  ghost predicate Describes(s: Option<StatsSnapshot>, h: seq<int>, window: nat) {
    forall g {:trigger Open(g)} :: g == h && Open(g) ==>
      (s.None? <==> g == []) && (s.Some? ==> 0 < window && Summarises(s.value, g, window))
  }

  lemma DescriptionMeans(s: Option<StatsSnapshot>, h: seq<int>, window: nat)
    requires Describes(s, h, window)
    ensures s.None? <==> h == []
    ensures s.Some? ==> 0 < window && Summarises(s.value, h, window)
  {
    assert Open(h);
  }

  lemma DescriptionOrdered(s: Option<StatsSnapshot>, h: seq<int>, window: nat)
    requires Describes(s, h, window)
    ensures s.Some? ==> Ordered(s.value)
  {
    DescriptionMeans(s, h, window);
    if s.Some? {
      SnapshotOrdered(s.value, h, window);
    }
  }

  /** Two descriptions of one history are the same. */
  lemma DescriptionUnique(s: Option<StatsSnapshot>, t: Option<StatsSnapshot>, h: seq<int>, window: nat)
    requires Describes(s, h, window) && Describes(t, h, window)
    ensures s == t
  {
    DescriptionMeans(s, h, window);
    DescriptionMeans(t, h, window);
    if h != [] {
      SnapshotUnique(s.value, t.value, h, window);
    }
  }

  function Variance(count: nat, m2: real): real {
    if count > 1 then m2 / (count - 1) as real else 0.0
  }

  /** The three percentiles of the window. */
  ghost predicate AreWindowRanks(h: seq<int>, window: nat, p50: int, p90: int, p99: int)
    requires h != [] && 0 < window
  {
    var w := LastN(h, window);
    && IsPercentile(w, 50, p50)
    && IsPercentile(w, 90, p90)
    && IsPercentile(w, 99, p99)
  }

  lemma Summary(s: StatsSnapshot, m2: real, h: seq<int>, window: nat)
    requires h != [] && 0 < window
    requires Moments(h, s.meanNs, m2) && Extremes(h, s.minNs, s.maxNs)
    requires s.count == |h| && s.lastNs == h[|h| - 1]
    requires s.varianceNs2 == Variance(|h|, m2) && AreWindowRanks(h, window, s.p50Ns, s.p90Ns, s.p99Ns)
    ensures Describes(Some(s), h, window) && Ordered(s)
  {
    assert Open(h);
    SnapshotOrdered(s, h, window);
  }

  // ----- The circular buffer -----

  /** Where the buffer keeps the `k`-th oldest of its values. */
  function Slot(k: nat, pos: nat, filled: nat, length: nat): int {
    if filled < length then k else if pos + k < length then pos + k else pos + k - length
  }

  /** Read oldest first, the buffer is the last `|ring|` values of `h`. */
  ghost predicate OldestFirst(ring: seq<int>, pos: nat, filled: nat, h: seq<int>) {
    && pos < |ring|
    && filled == Min(|h|, |ring|)
    && (filled < |ring| ==> pos == filled)
    && forall i :: |h| - filled <= i < |h| ==> ring[Slot(i - (|h| - filled), pos, filled, |ring|)] == h[i]
  }

  ghost predicate RingHolds(ring: seq<int>, pos: nat, filled: nat, h: seq<int>) {
    forall g {:trigger Open(g)} :: g == h && Open(g) ==> OldestFirst(ring, pos, filled, g)
  }

  lemma NextSlot(pos: nat, length: nat)
    requires pos < length
    ensures (pos + 1) % length == if pos + 1 == length then 0 else pos + 1
  {
  }

  /** Overwriting the oldest slot drops the oldest value and appends the new. */
  lemma RingStep(ring: seq<int>, pos: nat, filled: nat, h: seq<int>, v: int, next: nat)
    requires OldestFirst(ring, pos, filled, h)
    requires next == if pos + 1 == |ring| then 0 else pos + 1
    ensures OldestFirst(ring[pos := v], next, Min(filled + 1, |ring|), h + [v])
  {
    var n, filled' := |h|, Min(filled + 1, |ring|);
    forall i | n + 1 - filled' <= i < n + 1
      ensures ring[pos := v][Slot(i - (n + 1 - filled'), next, filled', |ring|)] == (h + [v])[i]
    {
      if i < n {
        assert ring[Slot(i - (n - filled), pos, filled, |ring|)] == h[i];
      }
    }
  }

  /** The filled part of the buffer holds the window's values, in some order. */
  lemma RingContents(ring: seq<int>, pos: nat, filled: nat, h: seq<int>)
    requires OldestFirst(ring, pos, filled, h)
    ensures filled <= |ring|
    ensures multiset(ring[..filled]) == multiset(LastN(h, |ring|))
  {
    if filled < |ring| {
      assert ring[..filled] == h;
    } else {
      FullRing(ring, pos, filled, h);
      assert multiset(ring[pos..] + ring[..pos]) == multiset(ring[..pos] + ring[pos..]);
    }
  }

  lemma FullRing(ring: seq<int>, pos: nat, filled: nat, h: seq<int>)
    requires OldestFirst(ring, pos, filled, h) && filled == |ring|
    ensures LastN(h, |ring|) == ring[pos..] + ring[..pos]
    ensures ring[..filled] == ring[..pos] + ring[pos..]
  {
    var w := LastN(h, |ring|);
    forall k | 0 <= k < |w| ensures w[k] == (ring[pos..] + ring[..pos])[k] {
      assert h[k + (|h| - filled)] == ring[Slot(k, pos, filled, |ring|)];
    }
  }

  lemma ExtremesStep(h: seq<int>, v: int, lo: int, hi: int)
    requires Extremes(h, lo, hi) && I64_MIN <= v <= I64_MAX
    ensures Extremes(h + [v], Min(lo, v), Max(hi, v))
  {
    assert Open(h);
    assert v == (h + [v])[|h|];
    assert forall x :: x in h ==> x in h + [v];
  }

  lemma PickIsPercentile(w: seq<int>, arrangement: seq<int>, percent: nat)
    requires w != [] && (percent == 50 || percent == 90 || percent == 99)
    requires multiset(arrangement) == multiset(w)
    ensures |Sort(AtMost, arrangement)| == |w|
    ensures IsPercentile(w, percent, PercentileSorted(Sort(AtMost, arrangement), percent, 100))
  {
    PercentileIsNearestRank(w, arrangement, percent, 100);
    RankIsPercentile(w, percent, PercentileSorted(Sort(AtMost, arrangement), percent, 100));
  }

  /** The three percentiles of a snapshot, read off the filled part of the
      buffer. */
  lemma WindowRanks(ring: seq<int>, pos: nat, filled: nat, h: seq<int>)
    requires RingHolds(ring, pos, filled, h) && h != []
    ensures 0 < filled <= |ring|
    ensures var s := Sort(AtMost, ring[..filled]);
      && s != []
      && AreWindowRanks(h, |ring|,
           PercentileSorted(s, 50, 100), PercentileSorted(s, 90, 100), PercentileSorted(s, 99, 100))
  {
    assert Open(h);
    RingContents(ring, pos, filled, h);
    var w := LastN(h, |ring|);
    PickIsPercentile(w, ring[..filled], 50);
    PickIsPercentile(w, ring[..filled], 90);
    PickIsPercentile(w, ring[..filled], 99);
  }

  // ----- The running object -----

  class DelayStats {
    var count: nat
    var lastNs: int
    var minNs: int
    var maxNs: int
    var mean: real
    var m2: real
    const ring: array<int>
    var ringPos: nat
    var ringFilled: nat
    /** Every value recorded since creation or the last reset. */
    ghost var history: seq<int>
    /** The ring's contents as a value. */
    ghost var slots: seq<int>

    ghost predicate Valid()
      reads this, ring
    {
      && slots == ring[..]
      && ringPos < |slots|
      && RingHolds(slots, ringPos, ringFilled, history)
      && count == |history|
      && lastNs == (if history == [] then 0 else history[|history| - 1])
      && Extremes(history, minNs, maxNs)
      && Moments(history, mean, m2)
    }

    constructor WithWindow(window: nat)
      ensures Valid() && fresh(ring)
      ensures history == [] && ring.Length == Max(window, 1)
    {
      count, lastNs, minNs, maxNs := 0, 0, I64_MAX, I64_MIN;
      mean, m2 := 0.0, 0.0;
      ring := new int[Max(window, 1)](_ => 0);
      ringPos, ringFilled := 0, 0;
      history := [];
      new;
      slots := ring[..];
    }

    /** Welford's online mean and variance; `count` already counts the value. */
    method Accumulate(valueNs: int)
      requires Moments(history, mean, m2) && count == |history| + 1
      modifies this`mean, this`m2
      ensures Moments(history + [valueNs], mean, m2)
    {
      var v := valueNs as real;
      ghost var m := mean;
      var delta := v - mean;
      mean := mean + delta / count as real;
      var gain := delta * (v - mean);
      WelfordStep(history, valueNs, count, v, m, m2, mean, gain);
      m2 := m2 + gain;
    }

    /** Overwrites the oldest slot of the ring. */
    method Store(valueNs: int)
      requires slots == ring[..] && RingHolds(slots, ringPos, ringFilled, history)
      modifies this`ringPos, this`ringFilled, this`slots, ring
      ensures slots == ring[..] && ringPos < |slots| && RingHolds(slots, ringPos, ringFilled, history + [valueNs])
    {
      assert Open(history);
      ghost var r, pos, filled := slots, ringPos, ringFilled;
      ring[ringPos] := valueNs;
      ringPos := (ringPos + 1) % ring.Length;
      ringFilled := Min(ringFilled + 1, ring.Length);
      slots := r[pos := valueNs];
      assert ring[..] == slots;
      NextSlot(pos, ring.Length);
      RingStep(r, pos, filled, history, valueNs, ringPos);
    }

    method Record(valueNs: i64)
      requires Valid()
      modifies this, ring
      ensures Valid()
      ensures history == old(history) + [valueNs]
    {
      count := count + 1;
      lastNs := valueNs;
      ExtremesStep(history, valueNs, minNs, maxNs);
      minNs := Min(minNs, valueNs);
      maxNs := Max(maxNs, valueNs);
      Accumulate(valueNs);
      Store(valueNs);
      history := history + [valueNs];
    }

    method Reset()
      requires Valid()
      modifies this, ring
      ensures Valid()
      ensures history == []
    {
      count, lastNs, minNs, maxNs := 0, 0, I64_MAX, I64_MIN;
      mean, m2 := 0.0, 0.0;
      forall i | 0 <= i < ring.Length {
        ring[i] := 0;
      }
      ringPos, ringFilled := 0, 0;
      history, slots := [], ring[..];
    }

    method Snapshot() returns (s: Option<StatsSnapshot>)
      requires Valid()
      ensures Describes(s, history, ring.Length)
      ensures s.Some? ==> Ordered(s.value)
    {
      if count == 0 {
        return None;
      }
      WindowRanks(slots, ringPos, ringFilled, history);
      var sorted := Sort(AtMost, ring[..ringFilled]);
      assert ring[..ringFilled] == slots[..ringFilled];
      var variance := Variance(count, m2);
      var p50, p90 := PercentileSorted(sorted, 50, 100), PercentileSorted(sorted, 90, 100);
      var p99 := PercentileSorted(sorted, 99, 100);
      s := Some(StatsSnapshot(count, lastNs, minNs, maxNs, mean, variance, p50, p90, p99));
      Summary(s.value, m2, history, ring.Length);
    }
  }
}
