/** The performance view of a device, from the log of any run: counters, percentiles and
    aggregate are those of the collector's last tick. */
module DeviceRecovery {
  import opened Common
  import opened Tables
  import opened LogLines
  import opened History
  import opened Ledger
  import opened Conservation
  import opened Counters
  import opened Percentile
  import opened Merge
  import opened PerfParser
  import opened PerfReader
  import opened Recovery
  import opened HistRecovery

  // ---- which rows there are ----

  /** Whenever an event adds to one map it adds to the other, so one has keys only if the
      other has. */
  lemma {:induction false} Accompanied<A(!new), B(!new)>(
    h: Run, f: Contribution<A>, kf: A -> bool, g: Contribution<B>, kg: B -> bool)
    requires forall p, e :: f(p, e).Some? && kf(f(p, e).value.0) ==> g(p, e).Some? && kg(g(p, e).value.0)
    ensures HasKey(InTick(h, f), kf) ==> HasKey(InTick(h, g), kg)
  {
    if h.Next? && !h.event.Tick? && HasKey(InTick(h, f), kf) {
      var p, e := h.before, h.event;
      Accompanied(p, f, kf, g, kg);
      if HasKey(InTick(p, f), kf) {
        var k :| k in InTick(p, g) && kg(k);
        assert k in InTick(h, g);
      } else {
        assert f(p, e).Some? && kf(f(p, e).value.0);
        assert g(p, e).value.0 in InTick(h, g);
      }
    }
  }

  /** The performance counters of a queue, as against those of a process. */
  predicate IsPerf(n: MapName) { n in {OpCount, ReadCount, WriteCount, BytesSum, LatSum, LatCount} }

  ghost predicate HasPerfCounter(h: Run, ctrl: int) {
    exists n :: IsPerf(n) && HasKey(Map2(h, n), Ctrl2(ctrl))
  }

  /** Process lines never make up a device: where a process has a counter, a queue of the
      same controller has one too. */
  lemma ProcessHasQueue(h: Run, ctrl: int, n: MapName)
    requires HasKey(Map2(h, n), Ctrl2(ctrl))
    ensures HasPerfCounter(h, ctrl)
  {
    if !IsPerf(n) {
      var at := Ctrl2(ctrl);
      match n {
        case ProcBytes => Accompanied(h, ProcBytesOf, at, BytesSumOf, at);
        case ProcRd => Accompanied(h, ProcRdOf, at, BytesSumOf, at);
        case ProcWr => Accompanied(h, ProcWrOf, at, BytesSumOf, at);
        case ProcSeq => Accompanied(h, ProcSeqOf, at, BytesSumOf, at);
        case ProcRand => Accompanied(h, ProcRandOf, at, BytesSumOf, at);
        case ProcLatCnt => Accompanied(h, ProcLatCntOf, at, LatCountOf, at);
        case ProcLatSum => Accompanied(h, ProcLatSumOf, at, LatCountOf, at);
        case _ =>
      }
      assert HasKey(Map2(h, BytesSum), at) || HasKey(Map2(h, LatCount), at);
    }
  }

  // ---- when a queue of the device counted something ----

  lemma SubmitKeys(h: Run, ctrl: int)
    ensures HasKey(Map2(h, ReadCount), Ctrl2(ctrl)) <==> SinceTick(h, Reads(OnCtrl(ctrl))) > 0
    ensures HasKey(Map2(h, WriteCount), Ctrl2(ctrl)) <==> SinceTick(h, Writes(OnCtrl(ctrl))) > 0
  {
    KeyMeans(h, ReadCountOf, Ctrl2(ctrl), Reads(OnCtrl(ctrl)));
    WriteKeys(h, ctrl);
  }

  lemma WriteKeys(h: Run, ctrl: int)
    ensures HasKey(Map2(h, WriteCount), Ctrl2(ctrl)) <==> SinceTick(h, Writes(OnCtrl(ctrl))) > 0
  {
    KeyMeans(h, WriteCountOf, Ctrl2(ctrl), Writes(OnCtrl(ctrl)));
  }

  lemma BytesKey(h: Run, ctrl: int)
    ensures HasKey(Map2(h, BytesSum), Ctrl2(ctrl)) <==> SinceTick(h, Moved(OnCtrl(ctrl))) > 0
  {
    SizesAre();
    KeyMeans(h, BytesSumOf, Ctrl2(ctrl), Moved(OnCtrl(ctrl)));
  }

  lemma AnswerKeys(h: Run, ctrl: int)
    ensures HasKey(Map2(h, LatCount), Ctrl2(ctrl)) <==> SinceTick(h, Answered(OnCtrl(ctrl))) > 0
    ensures HasKey(Map2(h, LatSum), Ctrl2(ctrl)) <==> SinceTick(h, Answered(OnCtrl(ctrl))) > 0
    ensures SinceTick(h, Answered(OnCtrl(ctrl))) >= 0
  {
    var w := Answered(OnCtrl(ctrl));
    forall p, e
      ensures Part(LatCountOf(p, e), Ctrl2(ctrl)) == w(p, e)
      ensures LatSumOf(p, e).Some? <==> LatCountOf(p, e).Some?
      ensures LatSumOf(p, e).Some? ==> LatSumOf(p, e).value.0 == LatCountOf(p, e).value.0
    {
      CtrlAnswer(p, e, ctrl);
    }
    KeyMeans(h, LatCountOf, Ctrl2(ctrl), w);
    KeyMeans(h, LatSumOf, Ctrl2(ctrl), w);
  }

  /** Something was read, written or completed on a queue of the device in the tick. */
  ghost predicate Active(h: Run, ctrl: int) {
    SinceTick(h, Reads(OnCtrl(ctrl))) + SinceTick(h, Writes(OnCtrl(ctrl))) + SinceTick(h, Answered(OnCtrl(ctrl))) > 0
  }

  lemma CounterMeans(h: Run, ctrl: int)
    ensures HasPerfCounter(h, ctrl) <==> Active(h, ctrl)
  {
    SubmitKeys(h, ctrl);
    BytesKey(h, ctrl);
    MovedMeans(h, OnCtrl(ctrl));
    AnswerKeys(h, ctrl);
    assert Map2(h, OpCount) == Map2(h, LatCount);
    forall n | IsPerf(n) && HasKey(Map2(h, n), Ctrl2(ctrl))
      ensures Active(h, ctrl)
    {
    }
    if Active(h, ctrl) {
      assert IsPerf(ReadCount) && IsPerf(WriteCount) && IsPerf(LatCount);
    }
  }

  lemma RowHasScalar(h: Run, d: Dump, k: (int, int))
    requires IsDump(d, h)
    ensures HasScalar(Open(h) + Render(d), k) <==> exists n :: k in Map2(h, n)
  {
    forall n
      ensures Scalar(Open(h) + Render(d), k, n) == AsOption(Map2(h, n), k)
    {
      ScalarsRecovered(h, d, n, k);
    }
  }

  /** The device is reported as available exactly when something was read, written or completed on
      it in the tick. */
  lemma AvailableExact(h: Run, d: Dump, ctrl: int, keys: seq<(int, int)>)
    requires IsDump(d, h) && RowKeys(keys, Open(h) + Render(d), ctrl)
    ensures keys != [] <==> Active(h, ctrl)
  {
    CounterMeans(h, ctrl);
    if keys != [] {
      var k := keys[0];
      assert k in keys;
      RowHasScalar(h, d, k);
      var n :| k in Map2(h, n);
      assert Ctrl2(ctrl)(k);
      ProcessHasQueue(h, ctrl, n);
    }
    if HasPerfCounter(h, ctrl) {
      var n :| IsPerf(n) && HasKey(Map2(h, n), Ctrl2(ctrl));
      var k :| k in Map2(h, n) && Ctrl2(ctrl)(k);
      RowHasScalar(h, d, k);
      assert k in keys;
    }
  }

  lemma {:induction false} CountIsLatencies(h: Run, k: (int, int))
    ensures Get(InTick(h, LatCountOf), k) == |LatenciesOf(h, k)|
  {
    if h.Next? {
      CountIsLatencies(h.before, k);
      if h.event.Complete? {
        FinishedIs(h.before, h.event);
      }
    }
  }

  // ---- counters ----

  /** A queue's row shows what completed on the queue in the tick and was read and written there,
      and the bytes that moved. */
  lemma QueueRowExact(h: Run, d: Dump, k: (int, int), row: QueuePerf)
    requires IsDump(d, h) && IsQueueRow(row, Open(h) + Render(d), k)
    ensures row.qid == k.1 && row.iops == SinceTick(h, Answered(OnQueue(k.0, k.1))) as real
    ensures row.readIops == SinceTick(h, Reads(OnQueue(k.0, k.1))) as real
    ensures row.writeIops == SinceTick(h, Writes(OnQueue(k.0, k.1))) as real
    ensures row.bandwidth == SinceTick(h, Moved(OnQueue(k.0, k.1))) as real
  {
    QueueScalars(h, d, k);
    RowCounters(row, Open(h) + Render(d), k);
  }

  lemma RowCounters(row: QueuePerf, tick: seq<Line>, k: (int, int))
    requires IsQueueRow(row, tick, k)
    ensures row.qid == k.1 && row.iops == ScalarOr0(tick, k, OpCount) as real
    ensures row.readIops == ScalarOr0(tick, k, ReadCount) as real && row.writeIops == ScalarOr0(tick, k, WriteCount) as real
    ensures row.bandwidth == ScalarOr0(tick, k, BytesSum) as real
  {
  }

  lemma QueueScalars(h: Run, d: Dump, k: (int, int))
    requires IsDump(d, h)
    ensures var tick := Open(h) + Render(d);
            && ScalarOr0(tick, k, OpCount) == SinceTick(h, Answered(OnQueue(k.0, k.1)))
            && ScalarOr0(tick, k, ReadCount) == SinceTick(h, Reads(OnQueue(k.0, k.1)))
            && ScalarOr0(tick, k, WriteCount) == SinceTick(h, Writes(OnQueue(k.0, k.1)))
            && ScalarOr0(tick, k, BytesSum) == SinceTick(h, Moved(OnQueue(k.0, k.1)))
  {
    ScalarIs(h, d, OpCount, k);
    ScalarIs(h, d, ReadCount, k);
    ScalarIs(h, d, WriteCount, k);
    ScalarIs(h, d, BytesSum, k);
    QueueLatencies(h, k.0, k.1);
    QueueReads(h, k.0, k.1);
    QueueWrites(h, k.0, k.1);
    QueueBytes(h, k.0, k.1);
  }

  function Sum(xs: seq<nat>): nat { if xs == [] then 0 else Sum(xs[..|xs| - 1]) + xs[|xs| - 1] }

  lemma {:induction false} SumIsLatencies(h: Run, k: (int, int))
    ensures Get(InTick(h, LatSumOf), k) == Sum(LatenciesOf(h, k))
  {
    if h.Next? {
      SumIsLatencies(h.before, k);
      if h.event.Complete? {
        FinishedIs(h.before, h.event);
        var xs, c := LatenciesOf(h.before, k), Finished(h.before, h.event);
        if c.Some? {
          assert (xs + [Latency(c.value, h.event)])[..|xs|] == xs;
        }
      }
    }
  }

  /** The mean a queue's row shows is the mean of the latencies measured in the tick. */
  lemma MeanExact(h: Run, d: Dump, k: (int, int), row: QueuePerf)
    requires IsDump(d, h) && IsQueueRow(row, Open(h) + Render(d), k)
    ensures var xs := LatenciesOf(h, k);
            row.avgLatencyUs == if xs == [] then 0.0 else Sum(xs) as real / |xs| as real / 1000.0
  {
    LatencyScalars(h, d, k);
    RowMean(row, Open(h) + Render(d), k);
  }

  lemma LatencyScalars(h: Run, d: Dump, k: (int, int))
    requires IsDump(d, h)
    ensures ScalarOr0(Open(h) + Render(d), k, LatSum) == Sum(LatenciesOf(h, k))
    ensures ScalarOr0(Open(h) + Render(d), k, LatCount) == |LatenciesOf(h, k)|
  {
    ScalarIs(h, d, LatSum, k);
    ScalarIs(h, d, LatCount, k);
    LatencyMaps(h, k);
  }

  lemma ScalarIs(h: Run, d: Dump, n: MapName, k: (int, int))
    requires IsDump(d, h)
    ensures ScalarOr0(Open(h) + Render(d), k, n) == Get(Map2(h, n), k)
  {
    ScalarsRecovered(h, d, n, k);
  }

  lemma LatencyMaps(h: Run, k: (int, int))
    ensures Get(Map2(h, LatSum), k) == Sum(LatenciesOf(h, k)) && Get(Map2(h, LatCount), k) == |LatenciesOf(h, k)|
  {
    SumIsLatencies(h, k);
    CountIsLatencies(h, k);
  }

  lemma RowMean(row: QueuePerf, tick: seq<Line>, k: (int, int))
    requires IsQueueRow(row, tick, k)
    ensures var sum, count := ScalarOr0(tick, k, LatSum), ScalarOr0(tick, k, LatCount);
            row.avgLatencyUs == if count == 0 then 0.0 else sum as real / count as real / 1000.0
  {
  }

  function SumKeys<K>(keys: seq<K>, m: map<K, nat>): nat {
    if keys == [] then 0 else SumKeys(keys[..|keys| - 1], m) + Get(m, keys[|keys| - 1])
  }

  /** Adding a table up over the keys that are kept, each once, gives its total. */
  lemma {:induction false} SumKeysIsTotal<K(!new)>(keys: seq<K>, m: map<K, nat>, keep: K -> bool)
    requires NoDuplicates(keys)
    requires forall k :: k in keys ==> keep(k)
    requires forall k :: k in m && keep(k) ==> k in keys
    ensures SumKeys(keys, m) == Total(m, keep)
  {
    if keys == [] {
      TotalNothing(m, keep);
    } else {
      var front, last := keys[..|keys| - 1], keys[|keys| - 1];
      assert keys == front + [last];
      SumKeysIsTotal(front, m - {last}, keep);
      SumKeysWithout(front, m, last);
      if last in m {
        TotalTake(m, keep, last);
      } else {
        assert m - {last} == m;
      }
    }
  }

  lemma {:induction false} SumKeysWithout<K>(keys: seq<K>, m: map<K, nat>, k: K)
    requires k !in keys
    ensures SumKeys(keys, m - {k}) == SumKeys(keys, m)
  {
    if keys != [] {
      SumKeysWithout(keys[..|keys| - 1], m, k);
    }
  }

  lemma {:induction false} SumScalarIsSumKeys(h: Run, d: Dump, keys: seq<(int, int)>, n: MapName)
    requires IsDump(d, h)
    ensures SumScalar(Open(h) + Render(d), keys, n) == SumKeys(keys, Map2(h, n))
  {
    if keys != [] {
      SumScalarIsSumKeys(h, d, keys[..|keys| - 1], n);
      ScalarsRecovered(h, d, n, keys[|keys| - 1]);
    }
  }

  /** Summed over a device's rows, every counter is the controller's total; the rows of
      process ids add nothing to it. */
  lemma DeviceTotal(h: Run, d: Dump, ctrl: int, keys: seq<(int, int)>, n: MapName)
    requires IsDump(d, h) && RowKeys(keys, Open(h) + Render(d), ctrl)
    ensures SumScalar(Open(h) + Render(d), keys, n) == Total(Map2(h, n), Ctrl2(ctrl))
  {
    SumScalarIsSumKeys(h, d, keys, n);
    forall k | k in Map2(h, n) && Ctrl2(ctrl)(k)
      ensures k in keys
    {
      RowHasScalar(h, d, k);
    }
    SumKeysIsTotal(keys, Map2(h, n), Ctrl2(ctrl));
  }

  lemma AggregateSums(a: QueuePerf, tick: seq<Line>, keys: seq<(int, int)>)
    requires IsAggregate(a, tick, keys)
    ensures a.qid == -1 && a.iops == SumScalar(tick, keys, OpCount) as real && a.bandwidth == SumScalar(tick, keys, BytesSum) as real
    ensures a.readIops == SumScalar(tick, keys, ReadCount) as real
    ensures a.writeIops == SumScalar(tick, keys, WriteCount) as real
    ensures var sum, count := SumScalar(tick, keys, LatSum), SumScalar(tick, keys, LatCount);
            a.avgLatencyUs == if count == 0 then 0.0 else sum as real / count as real / 1000.0
  {
  }

  /** The latencies of all the queues of a device. */
  function LatencyLists(h: Run, keys: seq<(int, int)>): (r: seq<seq<nat>>)
    ensures |r| == |keys| && forall i :: 0 <= i < |keys| ==> r[i] == LatenciesOf(h, keys[i])
  {
    if keys == [] then [] else LatencyLists(h, keys[..|keys| - 1]) + [LatenciesOf(h, keys[|keys| - 1])]
  }

  lemma {:induction false} SumConcat(a: seq<nat>, b: seq<nat>)
    ensures Sum(a + b) == Sum(a) + Sum(b)
  {
    if b == [] {
      assert a + b == a;
    } else {
      assert (a + b)[..|a + b| - 1] == a + b[..|b| - 1];
      SumConcat(a, b[..|b| - 1]);
    }
  }

  lemma {:induction false} LatencySums(h: Run, d: Dump, keys: seq<(int, int)>)
    requires IsDump(d, h)
    ensures SumScalar(Open(h) + Render(d), keys, LatSum) == Sum(Concat(LatencyLists(h, keys)))
    ensures SumScalar(Open(h) + Render(d), keys, LatCount) == |Concat(LatencyLists(h, keys))|
  {
    if keys != [] {
      var front, k := keys[..|keys| - 1], keys[|keys| - 1];
      LatencySums(h, d, front);
      LatencyScalars(h, d, k);
      SumConcat(Concat(LatencyLists(h, front)), LatenciesOf(h, k));
      assert LatencyLists(h, keys)[..|front|] == LatencyLists(h, front);
    }
  }

  /** The aggregate's mean is the mean of all latencies of the device. */
  lemma AggregateMeanExact(h: Run, d: Dump, keys: seq<(int, int)>, a: QueuePerf)
    requires IsDump(d, h) && IsAggregate(a, Open(h) + Render(d), keys)
    ensures var xs := Concat(LatencyLists(h, keys));
            a.avgLatencyUs == if xs == [] then 0.0 else Sum(xs) as real / |xs| as real / 1000.0
  {
    AggregateSums(a, Open(h) + Render(d), keys);
    LatencySums(h, d, keys);
  }

  lemma CtrlTotals(h: Run, ctrl: int)
    ensures Total(Map2(h, OpCount), Ctrl2(ctrl)) == SinceTick(h, Answered(OnCtrl(ctrl)))
    ensures Total(Map2(h, BytesSum), Ctrl2(ctrl)) == SinceTick(h, Moved(OnCtrl(ctrl)))
    ensures Total(Map2(h, ReadCount), Ctrl2(ctrl)) == SinceTick(h, Reads(OnCtrl(ctrl)))
    ensures Total(Map2(h, WriteCount), Ctrl2(ctrl)) == SinceTick(h, Writes(OnCtrl(ctrl)))
  {
    CtrlAnswers(h, ctrl);
    CtrlBytes(h, ctrl);
    CtrlReads(h, ctrl);
    CtrlWrites(h, ctrl);
  }

  lemma DeviceTotals(h: Run, d: Dump, ctrl: int, keys: seq<(int, int)>)
    requires IsDump(d, h) && RowKeys(keys, Open(h) + Render(d), ctrl)
    ensures var tick := Open(h) + Render(d);
            && SumScalar(tick, keys, OpCount) == SinceTick(h, Answered(OnCtrl(ctrl)))
            && SumScalar(tick, keys, BytesSum) == SinceTick(h, Moved(OnCtrl(ctrl)))
            && SumScalar(tick, keys, ReadCount) == SinceTick(h, Reads(OnCtrl(ctrl)))
            && SumScalar(tick, keys, WriteCount) == SinceTick(h, Writes(OnCtrl(ctrl)))
  {
    DeviceTotal(h, d, ctrl, keys, OpCount);
    DeviceTotal(h, d, ctrl, keys, BytesSum);
    DeviceTotal(h, d, ctrl, keys, ReadCount);
    DeviceTotal(h, d, ctrl, keys, WriteCount);
    CtrlTotals(h, ctrl);
  }

  /** The aggregate row is that of the controller: its completions, reads, writes and bytes in the
      tick, and the mean of all latencies. */
  lemma AggregateExact(h: Run, d: Dump, ctrl: int, keys: seq<(int, int)>, a: QueuePerf)
    requires IsDump(d, h) && RowKeys(keys, Open(h) + Render(d), ctrl)
    requires IsAggregate(a, Open(h) + Render(d), keys)
    ensures a.qid == -1 && a.iops == SinceTick(h, Answered(OnCtrl(ctrl))) as real
    ensures a.readIops == SinceTick(h, Reads(OnCtrl(ctrl))) as real
    ensures a.writeIops == SinceTick(h, Writes(OnCtrl(ctrl))) as real
    ensures a.bandwidth == SinceTick(h, Moved(OnCtrl(ctrl))) as real
    ensures var xs := Concat(LatencyLists(h, keys));
            a.avgLatencyUs == if xs == [] then 0.0 else Sum(xs) as real / |xs| as real / 1000.0
  {
    AggregateSums(a, Open(h) + Render(d), keys);
    DeviceTotals(h, d, ctrl, keys);
    AggregateMeanExact(h, d, keys, a);
  }

  // ---- percentiles ----

  /** The latencies of a queue that reach the reader as a histogram: those below two to the
      thirty-ninth, or none when one was below 2 ns. */
  function Charted(h: Run, k: (int, int)): seq<nat> {
    if exists x :: x in LatenciesOf(h, k) && x < 2 then [] else Short(LatenciesOf(h, k))
  }

  /** Nothing is missing just when all latencies are in that range. */
  lemma ChartedAll(h: Run, k: (int, int))
    ensures Charted(h, k) == LatenciesOf(h, k) <==> forall x :: x in LatenciesOf(h, k) ==> 2 <= x < 0x80_0000_0000
  {
    ShortAll(LatenciesOf(h, k));
  }

  lemma {:induction false} ShortAll(xs: seq<nat>)
    ensures |Short(xs)| <= |xs|
    ensures Short(xs) == xs <==> forall x :: x in xs ==> x < 0x80_0000_0000
  {
    if xs != [] {
      ShortAll(xs[1..]);
      assert forall x :: x in xs <==> x == xs[0] || x in xs[1..];
      if xs[0] < 0x80_0000_0000 {
        assert Short(xs) == [xs[0]] + Short(xs[1..]);
        assert Short(xs) == xs <==> Short(xs[1..]) == xs[1..];
      } else {
        assert xs[0] in xs;
      }
    }
  }

  lemma ChartedExact(h: Run, d: Dump, k: (int, int))
    requires IsDump(d, h)
    ensures Represents(Hist(Open(h) + Render(d), k), Charted(h, k))
  {
    HistRecovered(h, d, k);
  }

  /** A percentile in microseconds against the samples: zero without any, else above the true
      quantile and at most twice as large. */
  ghost predicate Brackets(xs: seq<nat>, p: real, us: real) {
    if xs == [] then us == 0.0
    else
      && (exists q :: IsQuantile(xs, p, q))
      && forall q :: IsQuantile(xs, p, q) ==> q as real / 1000.0 < us <= 2.0 * (q as real / 1000.0)
  }

  lemma PercentileBrackets(bs: seq<Bucket>, xs: seq<nat>, p: real, us: real)
    requires Represents(bs, xs) && 0.0 < p <= 1.0 && IsPercentileUs(bs, p, us)
    ensures Brackets(xs, p, us)
  {
    SamplesAreAll(bs, xs);
    if xs != [] {
      var v :| IsPercentile(bs, p, v) && us == v as real / 1000.0;
      var least := QuantileExists(xs, p);
      forall q | IsQuantile(xs, p, q)
        ensures q as real / 1000.0 < us <= 2.0 * (q as real / 1000.0)
      {
        WithinFactorTwo(bs, xs, p, v, q);
      }
    }
  }

  /** The reported percentile of a queue brackets the quantile of its latencies, unless one of
      them was below 2 ns, and then it is zero. */
  lemma QueuePercentileExact(h: Run, d: Dump, k: (int, int), p: real, us: real)
    requires IsDump(d, h) && 0.0 < p <= 1.0 && IsPercentileUs(Hist(Open(h) + Render(d), k), p, us)
    ensures Brackets(Charted(h, k), p, us)
  {
    ChartedExact(h, d, k);
    PercentileBrackets(Hist(Open(h) + Render(d), k), Charted(h, k), p, us);
  }

  function ChartedLists(h: Run, keys: seq<(int, int)>): (r: seq<seq<nat>>)
    ensures |r| == |keys| && forall i :: 0 <= i < |keys| ==> r[i] == Charted(h, keys[i])
  {
    if keys == [] then [] else ChartedLists(h, keys[..|keys| - 1]) + [Charted(h, keys[|keys| - 1])]
  }

  lemma {:induction false} HistsAt(tick: seq<Line>, keys: seq<(int, int)>)
    ensures |HistsOf(tick, keys)| == |keys| && forall i :: 0 <= i < |keys| ==> HistsOf(tick, keys)[i] == Hist(tick, keys[i])
  {
    if keys != [] {
      HistsAt(tick, keys[..|keys| - 1]);
    }
  }

  /** The loop over the scalar lines misses no histogram: a queue with latencies has a row. */
  lemma NoHistDropped(h: Run, d: Dump, ctrl: int, keys: seq<(int, int)>, k: (int, int))
    requires IsDump(d, h) && RowKeys(keys, Open(h) + Render(d), ctrl) && k.0 == ctrl && LatenciesOf(h, k) != []
    ensures k in keys
  {
    HasCount(h, k);
    RowListed(h, d, ctrl, keys, k, LatCount);
  }

  lemma HasCount(h: Run, k: (int, int))
    requires LatenciesOf(h, k) != []
    ensures k in Map2(h, LatCount)
  {
    CountIsLatencies(h, k);
  }

  lemma RowListed(h: Run, d: Dump, ctrl: int, keys: seq<(int, int)>, k: (int, int), n: MapName)
    requires IsDump(d, h) && RowKeys(keys, Open(h) + Render(d), ctrl) && k.0 == ctrl && k in Map2(h, n)
    ensures k in keys
  {
    RowHasScalar(h, d, k);
  }

  /** The merged histogram of a device is the exact histogram of all its latencies, less those
      of queues with one below 2 ns. */
  lemma MergedExact(h: Run, d: Dump, keys: seq<(int, int)>, merged: seq<Bucket>)
    requires IsDump(d, h) && Lists(merged, MergeAll(HistsOf(Open(h) + Render(d), keys)))
    ensures Represents(merged, Concat(ChartedLists(h, keys)))
  {
    var tick := Open(h) + Render(d);
    HistsAt(tick, keys);
    forall i | 0 <= i < |keys|
      ensures Represents(Hist(tick, keys[i]), Charted(h, keys[i]))
    {
      ChartedExact(h, d, keys[i]);
    }
    MergedRepresents(HistsOf(tick, keys), ChartedLists(h, keys), merged);
  }

  /** So the aggregate percentiles bracket the true quantiles of those latencies. */
  lemma AggregatePercentileExact(h: Run, d: Dump, keys: seq<(int, int)>, merged: seq<Bucket>, p: real, us: real)
    requires IsDump(d, h) && Lists(merged, MergeAll(HistsOf(Open(h) + Render(d), keys)))
    requires 0.0 < p <= 1.0 && IsPercentileUs(merged, p, us)
    ensures Brackets(Concat(ChartedLists(h, keys)), p, us)
  {
    MergedExact(h, d, keys, merged);
    PercentileBrackets(merged, Concat(ChartedLists(h, keys)), p, us);
  }

  // ---- the percentiles of the rows ----

  /** The four percentiles of a row against its samples. */
  ghost predicate BracketsAll(xs: seq<nat>, row: QueuePerf) {
    Brackets(xs, 0.50, row.p50) && Brackets(xs, 0.95, row.p95) && Brackets(xs, 0.99, row.p99) && Brackets(xs, 0.999, row.p999)
  }

  lemma RowBrackets(bs: seq<Bucket>, xs: seq<nat>, row: QueuePerf, qid: int, count: MapName -> nat)
    requires Represents(bs, xs) && IsRow(row, qid, count, bs)
    ensures BracketsAll(xs, row)
  {
    PercentileBrackets(bs, xs, 0.50, row.p50);
    PercentileBrackets(bs, xs, 0.95, row.p95);
    PercentileBrackets(bs, xs, 0.99, row.p99);
    PercentileBrackets(bs, xs, 0.999, row.p999);
  }

  /** A queue's row shows the median, the 95th, the 99th and the 99.9th percentile of its charted
      latencies, each under its name. */
  lemma RowPercentilesExact(h: Run, d: Dump, k: (int, int), row: QueuePerf)
    requires IsDump(d, h) && IsQueueRow(row, Open(h) + Render(d), k)
    ensures BracketsAll(Charted(h, k), row)
  {
    ChartedExact(h, d, k);
    RowBrackets(Hist(Open(h) + Render(d), k), Charted(h, k), row, k.1, n => ScalarOr0(Open(h) + Render(d), k, n));
  }

  /** So does the aggregate, for the charted latencies of all queues. */
  lemma AggregateRowPercentilesExact(h: Run, d: Dump, keys: seq<(int, int)>, a: QueuePerf)
    requires IsDump(d, h) && IsAggregate(a, Open(h) + Render(d), keys)
    ensures BracketsAll(Concat(ChartedLists(h, keys)), a)
  {
    var tick := Open(h) + Render(d);
    var merged: seq<Bucket> :| Lists(merged, MergeAll(HistsOf(tick, keys))) && IsRow(a, -1, n => SumScalar(tick, keys, n), merged);
    MergedExact(h, d, keys, merged);
    RowBrackets(merged, Concat(ChartedLists(h, keys)), a, -1, n => SumScalar(tick, keys, n));
  }

  lemma CountsZero(h: Run, d: Dump, k: (int, int), row: QueuePerf)
    requires IsDump(d, h) && IsQueueRow(row, Open(h) + Render(d), k)
    requires SinceTick(h, Sent(OnQueue(k.0, k.1))) == 0 && SinceTick(h, Answered(OnQueue(k.0, k.1))) == 0
    ensures row.qid == k.1 && row.iops == 0.0 && row.readIops == 0.0 && row.writeIops == 0.0 && row.bandwidth == 0.0
  {
    QueueRowExact(h, d, k, row);
    MovedMeans(h, OnQueue(k.0, k.1));
  }

  lemma NoLatencies(h: Run, k: (int, int))
    requires SinceTick(h, Answered(OnQueue(k.0, k.1))) == 0
    ensures LatenciesOf(h, k) == [] && Charted(h, k) == []
  {
    QueueLatencies(h, k.0, k.1);
    CountIsLatencies(h, k);
    assert Short([]) == [];
  }

  lemma TimesZero(h: Run, d: Dump, k: (int, int), row: QueuePerf)
    requires IsDump(d, h) && IsQueueRow(row, Open(h) + Render(d), k) && LatenciesOf(h, k) == [] && Charted(h, k) == []
    ensures row.avgLatencyUs == 0.0 && row.p50 == 0.0 && row.p95 == 0.0 && row.p99 == 0.0 && row.p999 == 0.0
  {
    MeanExact(h, d, k, row);
    RowPercentilesExact(h, d, k, row);
  }

  /** The rows that stand for a process id and not for a queue: where nothing was submitted to a queue
      of that number and nothing completed on it, the row is all zeros. */
  lemma ProcessRowsAreZero(h: Run, d: Dump, k: (int, int), row: QueuePerf)
    requires IsDump(d, h) && IsQueueRow(row, Open(h) + Render(d), k)
    requires SinceTick(h, Sent(OnQueue(k.0, k.1))) == 0 && SinceTick(h, Answered(OnQueue(k.0, k.1))) == 0
    ensures row == QueuePerf(k.1, 0.0, 0.0, 0.0, 0.0, 0.0, 0.0, 0.0, 0.0, 0.0)
  {
    CountsZero(h, d, k, row);
    NoLatencies(h, k);
    TimesZero(h, d, k, row);
  }
}
