/**
 * The numbers `LogResults` (log/log.go) derives from the results channel: the
 * counting loop, the lowest/highest/sum loop over the latencies, the in-place
 * sort and the nearest-rank 90th percentile. Rates, the average and all
 * printing are not part of this model.
 */
module Report {
  import opened Ints
  import Relay

  // ---------------------------------------------------------------------------
  // Histograms: Go's `map[string]int`, read with the zero default
  // ---------------------------------------------------------------------------

  type Histogram = map<string, nat>

  /** `h[k]`: the count under `k`, 0 when absent. */
  function Get(h: Histogram, k: string): nat {
    if k in h then h[k] else 0
  }

  /** `h[k]++`: one more under `k`, every other count unchanged. */
  function Inc(h: Histogram, k: string): (h': Histogram)
    ensures Get(h', k) == Get(h, k) + 1
    ensures forall j :: j != k ==> Get(h', j) == Get(h, j)
    ensures h'.Keys == h.Keys + {k}
  {
    h[k := Get(h, k) + 1]
  }

  /** The sum of all counts of a histogram. */
  ghost function MapSum(h: Histogram): nat
    decreases |h|
  {
    if h == map[] then 0
    else
      var k :| k in h;
      h[k] + MapSum(h - {k})
  }

  /** The sum does not depend on which key is taken out first. */
  lemma {:induction false} MapSumRemove(h: Histogram, k: string)
    requires k in h
    ensures MapSum(h) == h[k] + MapSum(h - {k})
    decreases |h|
  {
    var j :| j in h && MapSum(h) == h[j] + MapSum(h - {j});
    if j != k {
      assert (h - {j}).Keys == h.Keys - {j};
      assert (h - {k}).Keys == h.Keys - {k};
      MapSumRemove(h - {j}, k);
      MapSumRemove(h - {k}, j);
      assert h - {j} - {k} == h - {k} - {j};
    }
  }

  /** One increment adds one to the sum. */
  lemma MapSumInc(h: Histogram, k: string)
    ensures MapSum(Inc(h, k)) == MapSum(h) + 1
  {
    var h' := Inc(h, k);
    MapSumRemove(h', k);
    assert h' - {k} == h - {k};
    if k in h {
      MapSumRemove(h, k);
    } else {
      assert h - {k} == h;
    }
  }

  // ---------------------------------------------------------------------------
  // The counting loop (log/log.go:77-90)
  // ---------------------------------------------------------------------------

  /** The loop's variables: counters, the two histograms, the collected latencies. */
  datatype Tally = Tally(
    total: nat,
    successful: nat,
    failed: nat,
    successBodies: Histogram,
    errorReasons: Histogram,
    latencies: seq<Int32>)

  const NoResults: Tally := Tally(0, 0, 0, map[], map[], [])

  /** One iteration: a failure is counted under its reason; a success under its body, its latency kept unless 0. */
  function Step(t: Tally, r: Relay.RelayResult): Tally {
    if r.Err then
      t.(total := t.total + 1, failed := t.failed + 1, errorReasons := Inc(t.errorReasons, r.ErrReason))
    else
      t.(total := t.total + 1, successful := t.successful + 1,
         successBodies := Inc(t.successBodies, r.SuccessBody),
         latencies := if r.Latency != 0 then t.latencies + [r.Latency] else t.latencies)
  }

  /** The loop's variables after consuming `rs` in order. */
  function Collect(rs: seq<Relay.RelayResult>): Tally {
    if rs == [] then NoResults else Step(Collect(rs[..|rs| - 1]), rs[|rs| - 1])
  }

  /** The counting loop itself. */
  method CollectResults(results: seq<Relay.RelayResult>) returns (t: Tally)
    ensures t == Collect(results)
  {
    var totalRelays, successfulRelays, failedRelays := 0, 0, 0;
    var successBodies: Histogram := map[];
    var errorReasons: Histogram := map[];
    var latencies: seq<Int32> := [];
    for k := 0 to |results|
      invariant Tally(totalRelays, successfulRelays, failedRelays, successBodies, errorReasons, latencies)
                == Collect(results[..k])
    {
      assert results[..k + 1][..k] == results[..k];
      var result := results[k];
      totalRelays := totalRelays + 1;
      if result.Err {
        failedRelays := failedRelays + 1;
        errorReasons := Inc(errorReasons, result.ErrReason);
      } else {
        successfulRelays := successfulRelays + 1;
        successBodies := Inc(successBodies, result.SuccessBody);
        if result.Latency != 0 {
          latencies := latencies + [result.Latency];
        }
      }
    }
    assert results[..|results|] == results;
    t := Tally(totalRelays, successfulRelays, failedRelays, successBodies, errorReasons, latencies);
  }

  /** How many results failed. */
  function FailedCount(rs: seq<Relay.RelayResult>): nat {
    if rs == [] then 0 else FailedCount(rs[..|rs| - 1]) + (if rs[|rs| - 1].Err then 1 else 0)
  }

  /** How many failures carry the reason `reason`. */
  function ReasonCount(rs: seq<Relay.RelayResult>, reason: string): nat {
    if rs == [] then 0
    else ReasonCount(rs[..|rs| - 1], reason) + (if rs[|rs| - 1].Err && rs[|rs| - 1].ErrReason == reason then 1 else 0)
  }

  /** How many successes carry the body `body`. */
  function BodyCount(rs: seq<Relay.RelayResult>, body: string): nat {
    if rs == [] then 0
    else BodyCount(rs[..|rs| - 1], body) + (if !rs[|rs| - 1].Err && rs[|rs| - 1].SuccessBody == body then 1 else 0)
  }

  /** The non-zero latencies of the successful results, in arrival order. */
  function SuccessLatencies(rs: seq<Relay.RelayResult>): (ls: seq<Int32>)
    ensures forall i :: 0 <= i < |ls| ==> ls[i] != 0
  {
    if rs == [] then []
    else (if !rs[0].Err && rs[0].Latency != 0 then [rs[0].Latency] else []) + SuccessLatencies(rs[1..])
  }

  /** Every result is counted once, as exactly one of successful and failed. */
  lemma {:induction false} CollectPartition(rs: seq<Relay.RelayResult>)
    ensures Collect(rs).total == |rs|
    ensures Collect(rs).successful + Collect(rs).failed == Collect(rs).total
    ensures Collect(rs).failed == FailedCount(rs)
  {
    if rs != [] {
      CollectPartition(rs[..|rs| - 1]);
    }
  }

  /** Grouping is by exact text: each histogram entry is the number of results with that reason or body. */
  lemma {:induction false} CollectHistograms(rs: seq<Relay.RelayResult>)
    ensures forall k :: Get(Collect(rs).errorReasons, k) == ReasonCount(rs, k)
    ensures forall k :: Get(Collect(rs).successBodies, k) == BodyCount(rs, k)
    ensures forall k :: k in Collect(rs).errorReasons <==> ReasonCount(rs, k) > 0
    ensures forall k :: k in Collect(rs).successBodies <==> BodyCount(rs, k) > 0
  {
    if rs != [] {
      CollectHistograms(rs[..|rs| - 1]);
    }
  }

  /** The reason counts add up to the failures and the body counts to the successes. */
  lemma {:induction false} HistogramSums(rs: seq<Relay.RelayResult>)
    ensures MapSum(Collect(rs).errorReasons) == Collect(rs).failed
    ensures MapSum(Collect(rs).successBodies) == Collect(rs).successful
  {
    if rs == [] {
    } else {
      var t := Collect(rs[..|rs| - 1]);
      var r := rs[|rs| - 1];
      HistogramSums(rs[..|rs| - 1]);
      if r.Err {
        MapSumInc(t.errorReasons, r.ErrReason);
      } else {
        MapSumInc(t.successBodies, r.SuccessBody);
      }
    }
  }

  lemma {:induction false} SuccessLatenciesAppend(rs: seq<Relay.RelayResult>, r: Relay.RelayResult)
    ensures SuccessLatencies(rs + [r])
            == SuccessLatencies(rs) + (if !r.Err && r.Latency != 0 then [r.Latency] else [])
  {
    if rs != [] {
      assert (rs + [r])[1..] == rs[1..] + [r];
      SuccessLatenciesAppend(rs[1..], r);
    }
  }

  /** The latency list holds exactly the non-zero latencies of successful results, so it is no longer than their count. */
  lemma {:induction false} CollectLatencies(rs: seq<Relay.RelayResult>)
    ensures Collect(rs).latencies == SuccessLatencies(rs)
    ensures |Collect(rs).latencies| <= Collect(rs).successful
  {
    if rs != [] {
      var front := rs[..|rs| - 1];
      CollectLatencies(front);
      assert front + [rs[|rs| - 1]] == rs;
      SuccessLatenciesAppend(front, rs[|rs| - 1]);
    }
  }

  /** A completed run of `n` jobs reports `n` relays in total. */
  lemma DispatchedTotal(n: nat, reply: nat -> Relay.Observed)
    ensures Collect(Relay.Dispatched(n, reply)).total == n
  {
    Relay.DispatchedNumbering(n, reply);
    CollectPartition(Relay.Dispatched(n, reply));
  }

  // ---------------------------------------------------------------------------
  // Lowest, highest and sum (log/log.go:132-143)
  // ---------------------------------------------------------------------------

  function Sum(s: seq<int>): int {
    if s == [] then 0 else Sum(s[..|s| - 1]) + s[|s| - 1]
  }

  /** Up to 2^32 int32 values cannot overflow the int64 sum, so its wrapping never shows. */
  lemma {:induction false} SumFits(s: seq<Int32>)
    requires |s| <= 0x1_0000_0000
    ensures MinInt64 <= Sum(s) <= MaxInt64
    ensures Wrap64(Sum(s)) == Sum(s)
  {
    SumBounds(s);
  }

  lemma {:induction false} SumBounds(s: seq<Int32>)
    ensures MinInt32 * |s| <= Sum(s) <= MaxInt32 * |s|
  {
    if s != [] {
      SumBounds(s[..|s| - 1]);
    }
  }

  /**
   * The statistics loop: from the sentinels `MinInt32` (highest) and
   * `MaxInt32` (lowest), every latency is within the bounds found, both bounds
   * are latencies when there is one, and the int64 sum wraps as Go's does.
   */
  method LatencyStats(latencies: seq<Int32>) returns (totalLatency: Int64, highest: Int32, lowest: Int32)
    ensures totalLatency == Wrap64(Sum(latencies))
    ensures forall i :: 0 <= i < |latencies| ==> lowest <= latencies[i] <= highest
    ensures latencies != [] ==> highest in latencies && lowest in latencies
    ensures latencies == [] ==> highest == MinInt32 && lowest == MaxInt32
  {
    totalLatency := 0;
    highest := MinInt32;
    lowest := MaxInt32;
    for k := 0 to |latencies|
      invariant totalLatency == Wrap64(Sum(latencies[..k]))
      invariant forall i :: 0 <= i < k ==> lowest <= latencies[i] <= highest
      invariant k > 0 ==> highest in latencies[..k] && lowest in latencies[..k]
      invariant k == 0 ==> highest == MinInt32 && lowest == MaxInt32
    {
      var latency := latencies[k];
      assert latencies[..k + 1][..k] == latencies[..k];
      Wrap64Add(Sum(latencies[..k]), latency);
      totalLatency := Wrap64(totalLatency + latency);
      if latency > highest {
        highest := latency;
      }
      if latency < lowest {
        lowest := latency;
      }
    }
    assert latencies[..|latencies|] == latencies;
  }

  // ---------------------------------------------------------------------------
  // Sorting and the 90th percentile (log/log.go:146-156)
  // ---------------------------------------------------------------------------

  predicate Sorted(s: seq<int>) {
    forall i, j :: 0 <= i < j < |s| ==> s[i] <= s[j]
  }

  function Insert(x: Int32, s: seq<Int32>): (r: seq<Int32>)
    requires Sorted(s)
    ensures Sorted(r)
    ensures multiset(r) == multiset(s) + multiset{x}
    ensures r[0] == if s == [] || x <= s[0] then x else s[0]
  {
    if s == [] || x <= s[0] then [x] + s
    else
      assert s == [s[0]] + s[1..];
      [s[0]] + Insert(x, s[1..])
  }

  /** The ascending order of a list of latencies. */
  function Sort(s: seq<Int32>): (r: seq<Int32>)
    ensures Sorted(r)
    ensures multiset(r) == multiset(s)
  {
    if s == [] then []
    else
      assert s == [s[0]] + s[1..];
      Insert(s[0], Sort(s[1..]))
  }

  /** There is only one ascending arrangement of a multiset of values. */
  lemma {:induction false} SortedUnique(a: seq<int>, b: seq<int>)
    requires Sorted(a) && Sorted(b)
    requires multiset(a) == multiset(b)
    ensures a == b
  {
    if a != [] {
      assert |b| == |a| by { assert |multiset(a)| == |a| && |multiset(b)| == |b|; }
      assert a[0] in multiset(b);
      assert b[0] in multiset(a);
      assert a[0] == b[0];
      assert a == [a[0]] + a[1..];
      assert b == [b[0]] + b[1..];
      assert multiset(a) == multiset{a[0]} + multiset(a[1..]);
      assert multiset(b) == multiset{b[0]} + multiset(b[1..]);
      assert multiset(a[1..]) == multiset(a) - multiset{a[0]};
      assert multiset(b[1..]) == multiset(b) - multiset{b[0]};
      SortedUnique(a[1..], b[1..]);
    } else {
      assert |multiset(b)| == 0;
    }
  }

  /** `sort.Slice(latencies, less)` in ascending order, in place. */
  method SortLatencies(a: array<Int32>)
    modifies a
    ensures a[..] == Sort(old(a[..]))
  {
    for i := 0 to a.Length
      invariant Sorted(a[..i])
      invariant multiset(a[..]) == multiset(old(a[..]))
    {
      SinkLast(a, i);
    }
    assert a[..a.Length] == a[..];
    SortedUnique(a[..], Sort(old(a[..])));
  }

  /** One pass of insertion: `a[i]` moves left past every larger element before it. */
  method SinkLast(a: array<Int32>, i: nat)
    requires i < a.Length && Sorted(a[..i])
    modifies a
    ensures Sorted(a[..i + 1])
    ensures multiset(a[..]) == multiset(old(a[..]))
    ensures a[..i + 1] == Insert(old(a[i]), old(a[..i]))
    ensures a[i + 1..] == old(a[i + 1..])
  {
    ghost var before := a[..];
    var j := i;
    while j > 0 && a[j - 1] > a[j]
      invariant 0 <= j <= i
      invariant forall k :: 0 <= k < j ==> a[k] == before[k]
      invariant a[j] == before[i]
      invariant forall k :: j < k <= i ==> a[k] == before[k - 1] && before[i] < a[k]
      invariant forall k :: i < k < a.Length ==> a[k] == before[k]
    {
      a[j - 1], a[j] := a[j], a[j - 1];
      j := j - 1;
    }
    SunkIsInsert(before, a[..], i, j);
  }

  /**
   * Where the insertion pass leaves the array: `before[i]` at `j`, the larger
   * elements shifted one place right, everything else in place. That is
   * `Insert(before[i], before[..i])` followed by the untouched rest.
   */
  lemma SunkIsInsert(before: seq<Int32>, after: seq<Int32>, i: nat, j: nat)
    requires j <= i < |before| == |after| && Sorted(before[..i])
    requires forall k :: 0 <= k < j ==> after[k] == before[k]
    requires after[j] == before[i]
    requires forall k :: j < k <= i ==> after[k] == before[k - 1] && before[i] < after[k]
    requires forall k :: i < k < |after| ==> after[k] == before[k]
    requires j == 0 || after[j - 1] <= after[j]
    ensures after[..i + 1] == Insert(before[i], before[..i])
    ensures after[i + 1..] == before[i + 1..]
    ensures Sorted(after[..i + 1])
    ensures multiset(after) == multiset(before)
  {
    var s := before[..i];
    assert after[..i + 1] == s[..j] + [before[i]] + s[j..];
    assert after[i + 1..] == before[i + 1..];
    assert j == 0 || s[j - 1] <= before[i];
    forall k | j <= k < |s| ensures before[i] < s[k] {
      assert after[k + 1] == before[k];
    }
    InsertAt(s, before[i], j);
    InsertKeepsRest(before, after, i);
  }

  /**
   * Placing `x` after the elements of a sorted `s` that are at most `x`, and
   * before those that exceed it, is `Insert(x, s)`.
   */
  lemma InsertAt(s: seq<Int32>, x: Int32, j: nat)
    requires Sorted(s) && j <= |s|
    requires j == 0 || s[j - 1] <= x
    requires forall k :: j <= k < |s| ==> x < s[k]
    ensures s[..j] + [x] + s[j..] == Insert(x, s)
  {
    var t := s[..j] + [x] + s[j..];
    var r := Insert(x, s);
    InsertAtMultiset(s, x, j);
    InsertAtSorted(s, x, j);
    SortedUnique(t, r);
  }

  /** Placing `x` anywhere in `s` adds one copy of it. */
  lemma InsertAtMultiset(s: seq<Int32>, x: Int32, j: nat)
    requires j <= |s|
    ensures multiset(s[..j] + [x] + s[j..]) == multiset(s) + multiset{x}
  {
    assert s == s[..j] + s[j..];
  }

  /** Placing `x` between the elements at most `x` and those above it keeps a sorted list sorted. */
  lemma InsertAtSorted(s: seq<Int32>, x: Int32, j: nat)
    requires Sorted(s) && j <= |s|
    requires j == 0 || s[j - 1] <= x
    requires forall k :: j <= k < |s| ==> x < s[k]
    ensures Sorted(s[..j] + [x] + s[j..])
  {
    var t := s[..j] + [x] + s[j..];
    assert forall p :: 0 <= p < j ==> t[p] == s[p] && s[p] <= x;
    assert forall q :: j < q < |t| ==> t[q] == s[q - 1] && x < t[q];
    assert t[j] == x;
  }

  /** Rearranging the first `i + 1` values by `Insert` and keeping the rest permutes the whole. */
  lemma InsertKeepsRest(before: seq<Int32>, after: seq<Int32>, i: nat)
    requires i < |before| == |after| && Sorted(before[..i])
    requires after[..i + 1] == Insert(before[i], before[..i])
    requires after[i + 1..] == before[i + 1..]
    ensures Sorted(after[..i + 1])
    ensures multiset(after) == multiset(before)
  {
    assert before == before[..i] + [before[i]] + before[i + 1..];
    assert after == after[..i + 1] + after[i + 1..];
  }

  /** The 0-based index the report reads: `int(float64(n) * 0.9)`, less one, but never below 0. */
  function P90Index(n: nat): (k: nat)
    requires n > 0
    ensures k < n
    ensures k + 1 == if (9 * n) / 10 == 0 then 1 else (9 * n) / 10
  {
    var p := (9 * n) / 10;
    if p == 0 then 0 else p - 1
  }

  /** The reported 90th percentile of ascending latencies; 0 when there are none. */
  function P90(sorted: seq<Int32>): Int32 {
    if sorted == [] then 0 else sorted[P90Index(|sorted|)]
  }

  /**
   * The nearest-rank rule: at least `max(floor(0.9 n), 1)` of the sorted
   * latencies are at most the percentile, and the rest are at least it.
   */
  lemma P90Rank(sorted: seq<Int32>)
    requires Sorted(sorted) && sorted != []
    ensures forall i :: 0 <= i <= P90Index(|sorted|) ==> sorted[i] <= P90(sorted)
    ensures forall i :: P90Index(|sorted|) <= i < |sorted| ==> P90(sorted) <= sorted[i]
  {
  }

  lemma P90Examples()
    ensures P90([42]) == 42
    ensures P90([10, 20, 30, 40, 50, 60, 70, 80, 90, 100]) == 90
  {
  }

  /** The percentile is one of the latencies and lies between any bounds of them. */
  lemma P90Between(ls: seq<Int32>, lowest: int, highest: int)
    requires ls != []
    requires forall i :: 0 <= i < |ls| ==> lowest <= ls[i] <= highest
    ensures P90(Sort(ls)) in ls
    ensures lowest <= P90(Sort(ls)) <= highest
  {
    var s := Sort(ls);
    assert |s| == |ls| by { assert |multiset(s)| == |s| && |multiset(ls)| == |ls|; }
    assert s[P90Index(|s|)] in multiset(s);
  }

  /** The percentile depends only on which latencies arrived, not on the order the workers delivered them in. */
  lemma P90OrderIndependent(a: seq<Int32>, b: seq<Int32>)
    requires multiset(a) == multiset(b)
    ensures Sort(a) == Sort(b)
    ensures P90(Sort(a)) == P90(Sort(b))
  {
    SortedUnique(Sort(a), Sort(b));
  }

  // ---------------------------------------------------------------------------
  // The whole computation
  // ---------------------------------------------------------------------------

  /** What the report prints, apart from rates, average and time. */
  datatype Summary = Summary(tally: Tally, totalLatency: Int64, lowest: Int32, highest: Int32, p90: Int32)

  /** Sort a copy of the latencies in place and read the percentile from it. */
  method SortedP90(latencies: seq<Int32>) returns (p90: Int32)
    ensures p90 == P90(Sort(latencies))
  {
    var a := new Int32[|latencies|](i requires 0 <= i < |latencies| => latencies[i]);
    assert a[..] == latencies;
    SortLatencies(a);
    p90 := 0;
    if a.Length > 0 {
      var p90Index := (9 * a.Length) / 10;
      if p90Index == 0 {
        p90 := a[0];
      } else {
        p90 := a[p90Index - 1];
      }
    }
  }

  /** `LogResults`' computations over the results channel, in order. */
  method LogResults(results: seq<Relay.RelayResult>) returns (rep: Summary)
    ensures rep.tally == Collect(results)
    ensures rep.tally.total == |results| && rep.tally.successful + rep.tally.failed == |results|
    ensures rep.tally.latencies == SuccessLatencies(results)
    ensures rep.totalLatency == Wrap64(Sum(rep.tally.latencies))
    ensures rep.p90 == P90(Sort(rep.tally.latencies))
    ensures forall i :: 0 <= i < |rep.tally.latencies| ==> rep.lowest <= rep.tally.latencies[i] <= rep.highest
    ensures rep.tally.latencies != [] ==> rep.lowest <= rep.p90 <= rep.highest
    ensures rep.tally.latencies == [] ==> rep.p90 == 0 && rep.lowest == MaxInt32 && rep.highest == MinInt32
  {
    var tally := CollectResults(results);
    CollectPartition(results);
    CollectLatencies(results);
    var latencies := tally.latencies;
    var totalLatency, highest, lowest := LatencyStats(latencies);
    var p90 := SortedP90(latencies);
    if latencies != [] {
      P90Between(latencies, lowest, highest);
    }
    rep := Summary(tally, totalLatency, lowest, highest, p90);
  }
}
