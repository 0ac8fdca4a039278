/** The latency summaries of scripts/load-test-ai-concurrency.ts and scripts/load-test-streaming.ts, over exact numbers. */
module Percentiles {
  import opened Common

  ghost predicate Sorted(s: seq<real>) {
    forall i, j :: 0 <= i <= j < |s| ==> s[i] <= s[j]
  }

  function Insert(s: seq<real>, x: real): (r: seq<real>)
    requires Sorted(s)
    ensures Sorted(r) && multiset(r) == multiset(s) + multiset{x}
    ensures |r| == |s| + 1 && r[|s|] == if s == [] || s[|s| - 1] <= x then x else s[|s| - 1]
  {
    if s == [] || s[|s| - 1] <= x then
      s + [x]
    else
      assert s == s[..|s| - 1] + [s[|s| - 1]];
      Insert(s[..|s| - 1], x) + [s[|s| - 1]]
  }

  /** `[...s].sort((a, b) => a - b)`. */
  function SortedCopy(s: seq<real>): (r: seq<real>)
    ensures Sorted(r) && multiset(r) == multiset(s) && |r| == |s|
  {
    if s == [] then [] else
      assert s == s[..|s| - 1] + [s[|s| - 1]];
      Insert(SortedCopy(s[..|s| - 1]), s[|s| - 1])
  }

  function Ceil(x: real): (c: int)
    ensures c as real - 1.0 < x <= c as real
  {
    -((-x).Floor)
  }

  function Min(a: int, b: int): int { if a < b then a else b }
  function Max(a: int, b: int): int { if a < b then b else a }

  /** `(p / 100) * n`. */
  function Share(p: real, n: nat): real {
    p / 100.0 * n as real
  }

  /** The index `percentile` reads. */
  function RankIndex(p: real, n: nat): (i: nat)
    requires n > 0
    ensures i < n
  {
    Max(0, Min(n - 1, Ceil(Share(p, n)) - 1))
  }

  function Percentile(sorted: seq<real>, p: real): real {
    if |sorted| == 0 then 0.0 else sorted[RankIndex(p, |sorted|)]
  }

  /** The index `calculatePercentiles` reads. */
  function FloorIndex(p: real, n: nat): (i: nat)
    requires n > 0 && p >= 0.0
    ensures i < n
  {
    assert p / 100.0 >= 0.0;
    assert Share(p, n) >= 0.0;
    Min(Share(p, n).Floor, n - 1)
  }

  // ---- Nearest rank ----

  ghost function CountAtMost(s: seq<real>, v: real): nat {
    if s == [] then 0 else CountAtMost(s[..|s| - 1], v) + if s[|s| - 1] <= v then 1 else 0
  }

  /** `v` is the least sample value that at least `p` percent of the sample do not exceed. */
  ghost predicate IsNearestRank(sample: seq<real>, p: real, v: real) {
    && v in sample
    && CountAtMost(sample, v) as real >= Share(p, |sample|)
    && forall u :: u in sample && u < v ==> (CountAtMost(sample, u) as real) < Share(p, |sample|)
  }

  lemma {:induction false} CountWithout(s: seq<real>, k: nat, v: real)
    requires k < |s|
    ensures CountAtMost(s, v) == CountAtMost(s[..k] + s[k + 1..], v) + if s[k] <= v then 1 else 0
  {
    var last := |s| - 1;
    var rest := s[..k] + s[k + 1..];
    if k == last {
      assert rest == s[..last];
    } else {
      CountWithout(s[..last], k, v);
      assert rest[..|rest| - 1] == s[..last][..k] + s[..last][k + 1..];
    }
  }

  lemma TakeOut(s: seq<real>, k: nat)
    requires k < |s|
    ensures multiset(s[..k] + s[k + 1..]) == multiset(s) - multiset{s[k]}
  {
    assert s == s[..k] + [s[k]] + s[k + 1..];
  }

  /** The count depends on the sample as a multiset only. */
  lemma {:induction false} CountIsOrderFree(a: seq<real>, b: seq<real>, v: real)
    requires multiset(a) == multiset(b)
    ensures CountAtMost(a, v) == CountAtMost(b, v)
    decreases |a|
  {
    if a == [] {
      assert |multiset(b)| == 0;
    } else {
      var n := |a| - 1;
      assert a[n] in multiset(b);
      var k :| 0 <= k < |b| && b[k] == a[n];
      TakeOut(a, n);
      TakeOut(b, k);
      assert a[..n] + a[n + 1..] == a[..n];
      CountIsOrderFree(a[..n], b[..k] + b[k + 1..], v);
      CountWithout(b, k, v);
    }
  }

  lemma {:induction false} CountAtIndex(s: seq<real>, k: nat, n: nat, v: real)
    requires Sorted(s) && k < |s| && n <= |s|
    ensures v < s[k] ==> CountAtMost(s[..n], v) <= k
    ensures v >= s[k] ==> CountAtMost(s[..n], v) >= Min(n, k + 1)
  {
    if n > 0 {
      assert s[..n][..n - 1] == s[..n - 1];
      CountAtIndex(s, k, n - 1, v);
      if v < s[k] {
        CountAtMostLength(s[..n - 1], v);
      }
    }
  }

  lemma {:induction false} CountAtMostLength(s: seq<real>, v: real)
    ensures CountAtMost(s, v) <= |s|
  {
    if s != [] {
      CountAtMostLength(s[..|s| - 1], v);
    }
  }

  lemma ShareInside(p: real, n: nat)
    requires 0.0 < p <= 100.0 && n > 0
    ensures 0.0 < Share(p, n) <= n as real
  {
    assert p / 100.0 <= 1.0;
  }

  /** `percentile` over the sorted sample is the nearest rank of the sample, for every 0 < p <= 100. */
  lemma PercentileIsNearestRank(sample: seq<real>, p: real)
    requires sample != [] && 0.0 < p <= 100.0
    ensures IsNearestRank(sample, p, Percentile(SortedCopy(sample), p))
  {
    hide SortedCopy, CountAtMost;
    var s := SortedCopy(sample);
    var n := |s|;
    ShareInside(p, n);
    var k := RankIndex(p, n);
    var v := s[k];
    assert s[..n] == s;
    assert v in multiset(sample) by { assert v in multiset(s); }
    CountIsOrderFree(s, sample, v);
    CountAtIndex(s, k, n, v);
    forall u | u in sample && u < v ensures (CountAtMost(sample, u) as real) < Share(p, n) {
      CountIsOrderFree(s, sample, u);
      CountAtIndex(s, k, n, u);
    }
  }

  /** There is only one nearest rank. */
  lemma NearestRankIsUnique(sample: seq<real>, p: real, v: real, w: real)
    requires IsNearestRank(sample, p, v) && IsNearestRank(sample, p, w)
    ensures v == w
  {
  }

  lemma ShareIsMonotone(a: real, b: real, n: real)
    requires a <= b && n >= 0.0
    ensures a * n <= b * n
  {
    assert (b - a) * n >= 0.0;
  }

  lemma PercentileIsMonotone(sorted: seq<real>, p: real, q: real)
    requires Sorted(sorted) && p <= q
    ensures Percentile(sorted, p) <= Percentile(sorted, q)
  {
    if sorted != [] {
      ShareIsMonotone(p / 100.0, q / 100.0, |sorted| as real);
      assert RankIndex(p, |sorted|) <= RankIndex(q, |sorted|);
    }
  }

  /**
   * The floor variant reads the same index, except that where p percent of the sample is a whole
   * number below the sample size it reads the next one.
   */
  lemma FloorIndexVersusRank(p: real, n: nat)
    requires n > 0 && 0.0 < p <= 100.0
    ensures FloorIndex(p, n) == RankIndex(p, n) + if Share(p, n) == Share(p, n).Floor as real && Share(p, n) < n as real then 1 else 0
  {
    ShareInside(p, n);
  }

  // ---- The summaries ----

  /** `throughput` is calls per second, and not a finite number when no time has passed. */
  datatype Row = Row(concurrency: int, calls: nat, p50: real, p95: real, p99: real, max: real, throughput: Option<real>, maxInFlight: int, maxQueueWait: real)

  function Throughput(calls: nat, wallMs: real): (r: Option<real>)
    ensures wallMs == 0.0 <==> r.None?
    ensures wallMs != 0.0 ==> r.value * wallMs == 1000.0 * calls as real
  {
    if wallMs == 0.0 then None else
      assert wallMs / 1000.0 != 0.0;
      Some(calls as real / (wallMs / 1000.0))
  }

  method Summarize(concurrency: int, durations: seq<real>, wallMs: real, maxInFlight: int, queueWaits: seq<real>) returns (row: Row)
    ensures row.concurrency == concurrency && row.calls == |durations| && row.maxInFlight == maxInFlight
    ensures wallMs == 0.0 <==> row.throughput.None?
    ensures wallMs != 0.0 ==> row.throughput.value * wallMs == 1000.0 * |durations| as real
    ensures durations == [] ==> row.p50 == row.p95 == row.p99 == row.max == 0.0
    ensures durations != [] ==>
      && IsNearestRank(durations, 50.0, row.p50)
      && IsNearestRank(durations, 95.0, row.p95)
      && IsNearestRank(durations, 99.0, row.p99)
      && IsNearestRank(durations, 100.0, row.max)
    ensures row.p50 <= row.p95 <= row.p99 <= row.max
    ensures forall d :: d in durations ==> d <= row.max
    ensures queueWaits == [] ==> row.maxQueueWait == 0.0
    ensures queueWaits != [] ==> row.maxQueueWait in queueWaits && forall w :: w in queueWaits ==> w <= row.maxQueueWait
  {
    hide IsNearestRank, SortedCopy, Percentile;
    var sorted := SortedCopy(durations);
    var p50, p95, p99 := Percentile(sorted, 50.0), Percentile(sorted, 95.0), Percentile(sorted, 99.0);
    var max := if sorted == [] then 0.0 else sorted[|sorted| - 1];
    LastIsTop(durations);
    PercentileIsMonotone(sorted, 50.0, 95.0);
    PercentileIsMonotone(sorted, 95.0, 99.0);
    PercentileIsMonotone(sorted, 99.0, 100.0);
    if durations != [] {
      PercentileIsNearestRank(durations, 50.0);
      PercentileIsNearestRank(durations, 95.0);
      PercentileIsNearestRank(durations, 99.0);
      PercentileIsNearestRank(durations, 100.0);
    }
    var maxQueueWait := LargestWait(queueWaits);
    var throughput := Throughput(|durations|, wallMs);
    row := Row(concurrency, |durations|, p50, p95, p99, max, throughput, maxInFlight, maxQueueWait);
  }

  /** The last element of the sorted copy is the 100th percentile and the maximum. */
  lemma LastIsTop(sample: seq<real>)
    ensures
      var s := SortedCopy(sample);
      var top := if s == [] then 0.0 else s[|s| - 1];
      Percentile(s, 100.0) == top && forall d :: d in sample ==> d <= top
    ensures sample == [] ==> forall p :: Percentile(SortedCopy(sample), p) == 0.0
  {
    hide SortedCopy;
    var s := SortedCopy(sample);
    if s != [] {
      assert Share(100.0, |s|) == |s| as real;
      forall d | d in sample ensures d <= s[|s| - 1] {
        assert d in multiset(sample) && d in multiset(s);
        var i :| 0 <= i < |s| && s[i] == d;
      }
    }
  }

  method LargestWait(queueWaits: seq<real>) returns (max: real)
    ensures queueWaits == [] ==> max == 0.0
    ensures queueWaits != [] ==> max in queueWaits && forall w :: w in queueWaits ==> w <= max
  {
    if queueWaits == [] {
      return 0.0;
    }
    max := queueWaits[0];
    for i := 1 to |queueWaits|
      invariant max in queueWaits && forall j :: 0 <= j < i ==> queueWaits[j] <= max
    {
      if queueWaits[i] > max {
        max := queueWaits[i];
      }
    }
  }
}
