/** Queue rows and the device aggregate from the last complete tick
    (src/telemetryd/backend/ebpf_perf.py). */
module PerfReader {
  import opened Common
  import opened Tables
  import opened LogLines
  import opened Percentile
  import opened Merge
  import opened PerfParser

  datatype QueuePerf = QueuePerf(
    qid: int, iops: real, readIops: real, writeIops: real, bandwidth: real, avgLatencyUs: real,
    p50: real, p95: real, p99: real, p999: real)

  /** A percentile in microseconds; zero when there are no samples. */
  ghost predicate IsPercentileUs(buckets: seq<Bucket>, p: real, us: real) {
    if Samples(buckets) == 0 then us == 0.0
    else exists v :: IsPercentile(buckets, p, v) && us == v as real / 1000.0
  }

  function CounterOf(counters: map<MapName, nat>, n: MapName): real { Get(counters, n) as real }

  /** The row that counters and a histogram stand for; the tick is one second. */
  ghost predicate IsRow(r: QueuePerf, qid: int, count: MapName -> nat, buckets: seq<Bucket>) {
    && r.qid == qid
    && r.iops == count(OpCount) as real && r.readIops == count(ReadCount) as real
    && r.writeIops == count(WriteCount) as real && r.bandwidth == count(BytesSum) as real
    && r.avgLatencyUs == (if count(LatCount) == 0 then 0.0
                          else count(LatSum) as real / count(LatCount) as real / 1000.0)
    && IsPercentileUs(buckets, 0.50, r.p50) && IsPercentileUs(buckets, 0.95, r.p95)
    && IsPercentileUs(buckets, 0.99, r.p99) && IsPercentileUs(buckets, 0.999, r.p999)
  }

  method PercentileUs(buckets: seq<Bucket>, p: real) returns (us: real)
    requires p <= 1.0
    ensures IsPercentileUs(buckets, p, us)
  {
    var v := PercentileNs(buckets, p);
    us := v as real / 1000.0;
  }

  /** `_build_queue_perf`. */
  method BuildQueuePerf(qid: int, counters: map<MapName, nat>, buckets: seq<Bucket>) returns (r: QueuePerf)
    ensures IsRow(r, qid, n => Get(counters, n), buckets)
  {
    var latCount := Get(counters, LatCount);
    var avg := if latCount == 0 then 0.0 else Get(counters, LatSum) as real / latCount as real / 1000.0;
    var p50 := PercentileUs(buckets, 0.50);
    var p95 := PercentileUs(buckets, 0.95);
    var p99 := PercentileUs(buckets, 0.99);
    var p999 := PercentileUs(buckets, 0.999);
    r := QueuePerf(qid, CounterOf(counters, OpCount), CounterOf(counters, ReadCount), CounterOf(counters, WriteCount),
      CounterOf(counters, BytesSum), avg, p50, p95, p99, p999);
  }

  // ---- the whole device ----

  function ScalarOr0(tick: seq<Line>, k: (int, int), n: MapName): nat {
    var v := Scalar(tick, k, n);
    if v.Some? then v.value else 0
  }

  function SumScalar(tick: seq<Line>, keys: seq<(int, int)>, n: MapName): nat {
    if keys == [] then 0 else SumScalar(tick, keys[..|keys| - 1], n) + ScalarOr0(tick, keys[|keys| - 1], n)
  }

  function HistsOf(tick: seq<Line>, keys: seq<(int, int)>): seq<seq<Bucket>> {
    if keys == [] then [] else HistsOf(tick, keys[..|keys| - 1]) + [Hist(tick, keys[|keys| - 1])]
  }

  /** The aggregate row: summed counters, merged histograms. */
  ghost predicate IsAggregate(r: QueuePerf, tick: seq<Line>, keys: seq<(int, int)>) {
    exists merged :: Lists(merged, MergeAll(HistsOf(tick, keys))) && IsRow(r, -1, n => SumScalar(tick, keys, n), merged)
  }

  ghost predicate HasScalar(tick: seq<Line>, k: (int, int)) {
    exists n :: Scalar(tick, k, n).Some?
  }

  /** The keys of a device's rows: every `(ctrl, second key)` some scalar line carries. */
  ghost predicate RowKeys(keys: seq<(int, int)>, tick: seq<Line>, ctrl: int) {
    NoDuplicates(keys) && forall k :: k in keys <==> k.0 == ctrl && HasScalar(tick, k)
  }

  /** The row of one queue in a tick. */
  ghost predicate IsQueueRow(r: QueuePerf, tick: seq<Line>, k: (int, int)) {
    IsRow(r, k.1, n => ScalarOr0(tick, k, n), Hist(tick, k))
  }

  /** Rows come in the order of their queue ids. */
  ghost predicate InOrder(keys: seq<(int, int)>) { forall i, j :: 0 <= i < j < |keys| ==> keys[i].1 < keys[j].1 }

  /** `read_latest_performance`, with the keys of the rows it returns. */
  method ReadLatest(lines: seq<Line>, ctrl: int)
    returns (keys: seq<(int, int)>, queues: seq<QueuePerf>, aggregate: Option<QueuePerf>)
    ensures RowKeys(keys, TickText(lines), ctrl) && InOrder(keys) && |queues| == |keys|
    ensures forall i :: 0 <= i < |keys| ==> IsQueueRow(queues[i], TickText(lines), keys[i])
    ensures aggregate.None? <==> keys == []
    ensures aggregate.Some? ==> IsAggregate(aggregate.value, TickText(lines), keys)
  {
    var tick := TickText(lines);
    var scalars, hists := ParseSegment(tick);
    keys := DeviceKeys(scalars, tick, ctrl);
    queues := QueueRows(scalars, hists, tick, keys);
    if queues == [] {
      return keys, [], None;
    }
    var total := Aggregate(scalars, hists, tick, keys);
    aggregate := Some(total);
  }

  method QueueRows(scalars: Scalars, hists: Hists, ghost tick: seq<Line>, keys: seq<(int, int)>)
    returns (queues: seq<QueuePerf>)
    requires HoldsScalars(scalars, tick) && forall k :: HistAt(hists, k) == Hist(tick, k)
    requires forall k :: k in keys ==> k in scalars
    ensures |queues| == |keys| && forall i :: 0 <= i < |keys| ==> IsQueueRow(queues[i], tick, keys[i])
  {
    queues := [];
    for i := 0 to |keys|
      invariant |queues| == i && forall j :: 0 <= j < i ==> IsQueueRow(queues[j], tick, keys[j])
    {
      var k := keys[i];
      assert k in keys;
      var row := BuildQueuePerf(k.1, scalars[k], HistAt(hists, k));
      SameRow(row, scalars, hists, tick, k);
      queues := queues + [row];
    }
  }

  /** The sums over a device's rows. */
  method Aggregate(scalars: Scalars, hists: Hists, ghost tick: seq<Line>, keys: seq<(int, int)>) returns (r: QueuePerf)
    requires HoldsScalars(scalars, tick) && forall k :: HistAt(hists, k) == Hist(tick, k)
    requires forall k :: k in keys ==> k in scalars
    ensures IsAggregate(r, tick, keys)
  {
    var lists: seq<seq<Bucket>> := [];
    var counters: map<MapName, nat> := map[];
    for i := 0 to |keys|
      invariant lists == HistsOf(tick, keys[..i])
      invariant forall n :: Get(counters, n) == SumScalar(tick, keys[..i], n)
    {
      var k := keys[i];
      assert k in keys && keys[..i + 1][..i] == keys[..i];
      CountersAdded(scalars, tick, k);
      lists := lists + [HistAt(hists, k)];
      counters := AddCounters(counters, scalars[k]);
    }
    assert keys[..|keys|] == keys;
    var merged := MergeBuckets(lists);
    r := BuildQueuePerf(-1, counters, merged);
    assert IsRow(r, -1, n => SumScalar(tick, keys, n), merged);
  }

  function AddCounters(a: map<MapName, nat>, b: map<MapName, nat>): (r: map<MapName, nat>)
    ensures forall n :: Get(r, n) == Get(a, n) + Get(b, n)
  {
    map n | n in a.Keys + b.Keys :: Get(a, n) + Get(b, n)
  }

  lemma CountersAdded(scalars: Scalars, tick: seq<Line>, k: (int, int))
    requires HoldsScalars(scalars, tick) && k in scalars
    ensures forall n :: Get(scalars[k], n) == ScalarOr0(tick, k, n)
  {
    forall n
      ensures Get(scalars[k], n) == ScalarOr0(tick, k, n)
    {
      assert Lookup(scalars, k, n) == Scalar(tick, k, n);
    }
  }

  lemma SameRow(r: QueuePerf, scalars: Scalars, hists: Hists, tick: seq<Line>, k: (int, int))
    requires HoldsScalars(scalars, tick) && k in scalars && HistAt(hists, k) == Hist(tick, k)
    requires IsRow(r, k.1, n => Get(scalars[k], n), HistAt(hists, k))
    ensures IsQueueRow(r, tick, k)
  {
    CountersAdded(scalars, tick, k);
  }

  method DeviceKeys(scalars: Scalars, ghost tick: seq<Line>, ctrl: int) returns (keys: seq<(int, int)>)
    requires HoldsScalars(scalars, tick)
    ensures RowKeys(keys, tick, ctrl) && InOrder(keys) && forall k :: k in keys ==> k in scalars
  {
    var own := set k | k in scalars && k.0 == ctrl;
    var ids := set k | k in own :: k.1;
    var qids := Sorted(ids);
    assert forall q :: q in ids ==> q in qids;
    keys := seq(|qids|, i requires 0 <= i < |qids| => (ctrl, qids[i]));
    forall k
      ensures k in keys <==> k in own
    {
      if k in own {
        assert k.1 in ids;
        assert k.1 in qids;
        var i :| 0 <= i < |qids| && qids[i] == k.1;
        assert keys[i] == k;
      }
      if k in keys {
        var i :| 0 <= i < |keys| && keys[i] == k;
        assert qids[i] in qids;
        assert k.1 in ids;
      }
    }
    forall k
      ensures k in keys <==> k.0 == ctrl && HasScalar(tick, k)
    {
      if k in scalars {
        var n :| n in scalars[k];
        assert Lookup(scalars, k, n) == Scalar(tick, k, n);
      }
      if HasScalar(tick, k) {
        var n :| Scalar(tick, k, n).Some?;
        assert Lookup(scalars, k, n) == Scalar(tick, k, n);
      }
    }
  }
}
