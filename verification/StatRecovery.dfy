/** The statistics of a process, from the log of any run: which processes have one, and what every
    figure of it counts (src/telemetryd/backend/proc_stats.py). */
module StatRecovery {
  import opened Common
  import opened Tables
  import opened LogLines
  import opened IoStats
  import opened History
  import opened Ledger
  import opened Conservation
  import opened Counters
  import opened Recovery
  import opened ProcParser
  import opened ProcRecovery

  // ---- the figures ----

  /** The figures of a statistic, from its slot. */
  lemma StatFigures(st: IoStat, k: (int, int), r: Raw)
    requires IsStat(st, k, r)
    ensures st.device == k.0 && st.pid == k.1 && st.iops == r.ops as real
    ensures st.readIops == Get(r.counts, ProcRd) as real && st.writeIops == Get(r.counts, ProcWr) as real
    ensures st.bandwidth == Get(r.counts, ProcBytes) as real && st.depth == st.iops * (st.avgLatencyUs / 1000000.0)
    ensures IsMean(st.avgLatencyUs, Get(r.counts, ProcLatSum), Get(r.counts, ProcLatCnt))
    ensures IsShare(st.seqRatio, Get(r.counts, ProcSeq), Get(r.counts, ProcRand))
  {
  }

  /** Microseconds from nanoseconds; zero without a sample. */
  ghost predicate IsMean(us: real, sum: int, count: int) {
    if count == 0 then us == 0.0 else us == sum as real / count as real / 1000.0
  }

  ghost predicate IsShare(share: Option<real>, near: int, far: int) {
    if near + far == 0 then share.None? else share == Some(near as real / (near + far) as real)
  }

  /** Completions are charged to the process that submitted the command, unless that was pid 0. */
  function Charged(h: Run, k: (int, int)): int { if k.1 == 0 then 0 else SinceTick(h, Answered(ByProcess(k.0, k.1))) }

  function ChargedTime(h: Run, k: (int, int)): int { if k.1 == 0 then 0 else SinceTick(h, Waited(ByProcess(k.0, k.1))) }

  lemma ChargedIs(h: Run, k: (int, int))
    ensures Get(Map2(h, ProcLatCnt), k) == Charged(h, k) && Get(Map2(h, ProcLatSum), k) == ChargedTime(h, k)
  {
    if k.1 == 0 {
      IdleUncharged(h, k.0);
    } else {
      ProcessLatencies(h, k.0, k.1);
    }
  }

  lemma SentIs(h: Run, d: Dump, k: (int, int))
    requires IsDump(d, h)
    ensures SlotAt(ParseLines(Open(h) + Render(d)), k).ops == SinceTick(h, Sent(ByProcess(k.0, k.1)))
  {
    OpsRecovered(h, d, k);
    TotalCounts(h, ProcOpsOf, ProcOps3(k.0, k.1), Sent(ByProcess(k.0, k.1)));
  }

  lemma MapsAre(h: Run, k: (int, int))
    ensures Get(Map2(h, ProcRd), k) == SinceTick(h, Reads(ByProcess(k.0, k.1)))
    ensures Get(Map2(h, ProcWr), k) == SinceTick(h, Writes(ByProcess(k.0, k.1)))
    ensures Get(Map2(h, ProcBytes), k) == SinceTick(h, Moved(ByProcess(k.0, k.1)))
    ensures Get(Map2(h, ProcSeq), k) == SinceTick(h, InSequence(ByProcess(k.0, k.1)))
    ensures Get(Map2(h, ProcRand), k) == SinceTick(h, OutOfSequence(ByProcess(k.0, k.1)))
  {
    ProcessReads(h, k.0, k.1);
    ProcessWrites(h, k.0, k.1);
    ProcessBytes(h, k.0, k.1);
    ProcessPattern(h, k.0, k.1);
  }

  lemma FieldsAre(h: Run, d: Dump, k: (int, int), r: Raw)
    requires IsDump(d, h) && r == SlotAt(ParseLines(Open(h) + Render(d)), k)
    ensures Get(r.counts, ProcRd) == Get(Map2(h, ProcRd), k) && Get(r.counts, ProcWr) == Get(Map2(h, ProcWr), k)
    ensures Get(r.counts, ProcBytes) == Get(Map2(h, ProcBytes), k)
    ensures Get(r.counts, ProcLatCnt) == Get(Map2(h, ProcLatCnt), k) && Get(r.counts, ProcLatSum) == Get(Map2(h, ProcLatSum), k)
    ensures Get(r.counts, ProcSeq) == Get(Map2(h, ProcSeq), k) && Get(r.counts, ProcRand) == Get(Map2(h, ProcRand), k)
  {
    FieldRecovered(h, d, k, ProcRd);
    FieldRecovered(h, d, k, ProcWr);
    FieldRecovered(h, d, k, ProcBytes);
    FieldRecovered(h, d, k, ProcLatCnt);
    FieldRecovered(h, d, k, ProcLatSum);
    FieldRecovered(h, d, k, ProcSeq);
    FieldRecovered(h, d, k, ProcRand);
  }

  /** Every figure of a statistic is a count of the tick: the commands the process submitted to the
      controller, the reads and writes among them, their bytes, the mean time of the completions
      charged to it, the depth that follows by Little's law, and the share of reads and writes that
      started where the one before ended. */
  lemma StatExact(h: Run, d: Dump, k: (int, int), st: IoStat)
    requires IsDump(d, h) && IsStat(st, k, SlotAt(ParseLines(Open(h) + Render(d)), k))
    ensures st.device == k.0 && st.pid == k.1 && st.iops == SinceTick(h, Sent(ByProcess(k.0, k.1))) as real
    ensures st.readIops == SinceTick(h, Reads(ByProcess(k.0, k.1))) as real
    ensures st.writeIops == SinceTick(h, Writes(ByProcess(k.0, k.1))) as real
    ensures st.bandwidth == SinceTick(h, Moved(ByProcess(k.0, k.1))) as real
    ensures IsMean(st.avgLatencyUs, ChargedTime(h, k), Charged(h, k))
    ensures st.depth == st.iops * (st.avgLatencyUs / 1000000.0)
    ensures IsShare(st.seqRatio, SinceTick(h, InSequence(ByProcess(k.0, k.1))), SinceTick(h, OutOfSequence(ByProcess(k.0, k.1))))
  {
    var r := SlotAt(ParseLines(Open(h) + Render(d)), k);
    StatFigures(st, k, r);
    SentIs(h, d, k);
    FieldsAre(h, d, k, r);
    MapsAre(h, k);
    ChargedIs(h, k);
  }

  // ---- which processes have one ----

  /** The process submitted a command to the controller in the tick, or one of its commands
      completed there. */
  ghost predicate Involved(h: Run, k: (int, int)) {
    SinceTick(h, Sent(ByProcess(k.0, k.1))) > 0 || Charged(h, k) > 0
  }

  lemma {:induction false} SlotFromLine(lines: seq<Line>, k: (int, int)) returns (l: Line)
    requires k in ParseLines(lines)
    ensures l in lines && Target(l) == Some(k)
  {
    l := lines[|lines| - 1];
    if Target(l) != Some(k) {
      l := SlotFromLine(lines[..|lines| - 1], k);
    }
  }

  lemma {:induction false} BlockOfLine(d: Dump, names: seq<MapName>, l: Line) returns (n: MapName)
    requires l in Blocks(d, names)
    ensures l in Block(d, n)
  {
    if l in Block(d, names[0]) {
      n := names[0];
    } else {
      n := BlockOfLine(d, names[1..], l);
    }
  }

  lemma {:induction false} EntryOfLine<K>(s: seq<(K, nat)>, row: (K, nat) -> Line, l: Line) returns (e: (K, nat))
    requires l in Lines(s, row) && l != Other
    ensures e in s && l == row(e.0, e.1)
  {
    if l == row(s[0].0, s[0].1) {
      e := s[0];
    } else {
      e := EntryOfLine(s[1..], row, l);
    }
  }

  /** A line of a process comes from an entry with its key. */
  lemma TargetHasKey(h: Run, d: Dump, n: MapName, l: Line, k: (int, int))
    requires IsDump(d, h) && l in Block(d, n) && Target(l) == Some(k)
    ensures HasProcessKey(h, k)
  {
    BlockBelongs(d, n);
    match l
    case ProcOps(_, _, _, _) =>
      var e := EntryOfLine(d.procOps, RowOps, l);
      assert e.0 in InTick(h, ProcOpsOf) && ProcOps3(k.0, k.1)(e.0);
    case ThrOps(_, _, _, _, _) =>
      var e := EntryOfLine(d.thrOps, RowThr, l);
      assert e.0 in InTick(h, ThrOpsOf) && ProcThr(k.0, k.1)(e.0);
    case Scalar2(_, _, _, _) => FieldHasKey(h, d, n, l, k);
    case Scalar3(_, _, _, _, _) => KeyedHasKey(h, d, n, l, k);
    case _ =>
  }

  lemma FieldHasKey(h: Run, d: Dump, n: MapName, l: Line, k: (int, int))
    requires IsDump(d, h) && l.Scalar2? && l in Block(d, n) && BelongsTo(n, l) && Target(l) == Some(k)
    ensures IsField(n) && k in Map2(h, n)
  {
    var e := EntryOfLine(Entries2(d, n), Row2(n), l);
  }

  lemma KeyedHasKey(h: Run, d: Dump, n: MapName, l: Line, k: (int, int))
    requires IsDump(d, h) && l.Scalar3? && l in Block(d, n) && BelongsTo(n, l) && Target(l) == Some(k)
    ensures (n == ProcBs || n == ProcQ) && HasKey(Map3(h, n), Proc3(k.0, k.1))
  {
    var e := EntryOfLine(Entries3(d, n), Row3(n), l);
    assert e.0 in Map3(h, n) && Proc3(k.0, k.1)(e.0);
  }

  ghost predicate HasProcessKey(h: Run, k: (int, int)) {
    || HasKey(InTick(h, ProcOpsOf), ProcOps3(k.0, k.1)) || HasKey(InTick(h, ThrOpsOf), ProcThr(k.0, k.1))
    || (exists n :: IsField(n) && k in Map2(h, n))
    || HasKey(Map3(h, ProcBs), Proc3(k.0, k.1)) || HasKey(Map3(h, ProcQ), Proc3(k.0, k.1))
  }

  lemma SubmissionKeys(h: Run, k: (int, int))
    ensures HasKey(InTick(h, ProcOpsOf), ProcOps3(k.0, k.1)) ==> Involved(h, k)
    ensures HasKey(InTick(h, ThrOpsOf), ProcThr(k.0, k.1)) ==> Involved(h, k)
    ensures HasKey(Map3(h, ProcBs), Proc3(k.0, k.1)) ==> Involved(h, k)
    ensures HasKey(Map3(h, ProcQ), Proc3(k.0, k.1)) ==> Involved(h, k)
  {
    var w := Sent(ByProcess(k.0, k.1));
    KeyNeeds(h, ProcOpsOf, ProcOps3(k.0, k.1), w);
    KeyNeeds(h, ThrOpsOf, ProcThr(k.0, k.1), w);
    KeyNeeds(h, ProcBsOf, Proc3(k.0, k.1), w);
    KeyNeeds(h, ProcQOf, Proc3(k.0, k.1), w);
  }

  lemma FieldKey(h: Run, k: (int, int), n: MapName)
    requires IsField(n) && k in Map2(h, n)
    ensures Involved(h, k)
  {
    var w, at := Sent(ByProcess(k.0, k.1)), At2(k.0, k.1);
    assert at(k);
    match n
    case ProcBytes => KeyNeeds(h, ProcBytesOf, at, w);
    case ProcRd => KeyNeeds(h, ProcRdOf, at, w);
    case ProcWr => KeyNeeds(h, ProcWrOf, at, w);
    case ProcSeq => KeyNeeds(h, ProcSeqOf, at, w);
    case ProcRand => KeyNeeds(h, ProcRandOf, at, w);
    case ProcLatCnt => ChargedKey(h, k);
    case ProcLatSum => ChargedKey(h, k);
  }

  lemma ChargedKey(h: Run, k: (int, int))
    requires k in Map2(h, ProcLatCnt) || k in Map2(h, ProcLatSum)
    ensures Charged(h, k) > 0
  {
    if k.1 == 0 {
      IdleUncharged(h, k.0);
    } else {
      var w, at := Answered(ByProcess(k.0, k.1)), At2(k.0, k.1);
      forall p, e
        ensures Part(ProcLatCntOf(p, e), at) == w(p, e)
        ensures ProcLatSumOf(p, e).Some? <==> ProcLatCntOf(p, e).Some?
        ensures ProcLatSumOf(p, e).Some? ==> ProcLatSumOf(p, e).value.0 == ProcLatCntOf(p, e).value.0
      {
        ProcessAnswer(p, e, k.0, k.1);
      }
      assert at(k);
      KeyNeeds(h, ProcLatCntOf, at, w);
      KeyNeeds(h, ProcLatSumOf, at, w);
    }
  }

  /** A process has a statistic for a controller exactly when it submitted a command to it in the tick
      or one of its commands completed there. */
  lemma SlotExact(h: Run, d: Dump, k: (int, int))
    requires IsDump(d, h)
    ensures k in ParseLines(Open(h) + Render(d)) <==> Involved(h, k)
  {
    var lines := Open(h) + Render(d);
    if k in ParseLines(lines) {
      var l := SlotFromLine(lines, k);
      OpenHasEventsOnly(h);
      var n := BlockOfLine(d, PRINT_ORDER, l);
      TargetHasKey(h, d, n, l, k);
      SubmissionKeys(h, k);
      if n' :| IsField(n') && k in Map2(h, n') {
        FieldKey(h, k, n');
      }
    }
    SentIs(h, d, k);
    FieldRecovered(h, d, k, ProcLatCnt);
    ChargedIs(h, k);
  }

  /** So the statistics returned are those of the processes involved, on the controllers asked for,
      each once and each with its figures. */
  lemma StatsListed(h: Run, d: Dump, keys: seq<(int, int)>, stats: seq<IoStat>, asked: Option<int>, k: (int, int))
    requires IsDump(d, h) && StatsOf(stats, keys, ParseLines(Open(h) + Render(d)), asked)
    ensures k in keys <==> Involved(h, k) && (asked.Some? ==> asked.value == k.0)
    ensures (exists st :: st in stats && st.device == k.0 && st.pid == k.1) <==> k in keys
    ensures forall i, j :: 0 <= i < j < |stats| ==> (stats[i].device, stats[i].pid) != (stats[j].device, stats[j].pid)
  {
    SlotExact(h, d, k);
    forall i | 0 <= i < |stats|
      ensures (stats[i].device, stats[i].pid) == keys[i]
    {
      StatIs(stats[i], keys[i], ParseLines(Open(h) + Render(d)));
    }
    if k in keys {
      var i :| 0 <= i < |keys| && keys[i] == k;
      assert stats[i] in stats;
    }
  }
}
