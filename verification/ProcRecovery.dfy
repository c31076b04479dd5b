/** The process view from the log of any run: every counter of every process is that of the
    collector's last tick, thread rates add up to process rates, and process rates to the
    submissions of the controller. */
module ProcRecovery {
  import opened Common
  import opened Tables
  import opened LogLines
  import opened IoStats
  import opened History
  import opened Conservation
  import opened Recovery
  import opened HistRecovery
  import opened ProcParser

  // ---- sums over a printed tick ----

  lemma {:induction false} SumAppend(a: seq<Line>, b: seq<Line>, w: Line -> nat)
    ensures SumLines(a + b, w) == SumLines(a, w) + SumLines(b, w)
  {
    if b == [] {
      assert a + b == a;
    } else {
      assert (a + b)[..|a + b| - 1] == a + b[..|b| - 1];
      SumAppend(a, b[..|b| - 1], w);
    }
  }

  lemma {:induction false} SumZero(lines: seq<Line>, w: Line -> nat)
    requires forall l :: l in lines ==> w(l) == 0
    ensures SumLines(lines, w) == 0
  {
    if lines != [] {
      SumZero(lines[..|lines| - 1], w);
    }
  }

  /** The lines a printed map consists of. */
  predicate BelongsTo(n: MapName, l: Line) {
    l == Other ||
    match n
    case LatHist => l.HistKey? || l.BucketRow? || l.PointRow? || l.WideRow?
    case OpsByProcess => l.ProcOps?
    case OpsByThread => l.ThrOps?
    case ProcBs => l.Scalar3? && l.name == n
    case ProcQ => l.Scalar3? && l.name == n
    case ErrCount => l.Scalar3? && l.name == n
    case _ => l.Scalar2? && l.name == n
  }

  lemma BlockBelongs(d: Dump, n: MapName)
    ensures forall l :: l in Block(d, n) ==> BelongsTo(n, l)
  {
    var want := (l: Line) => BelongsTo(n, l);
    match n
    case LatHist => HistLinesKind(d.latHist);
    case OpsByProcess => LinesKind(d.procOps, RowOps, want);
    case OpsByThread => LinesKind(d.thrOps, RowThr, want);
    case ProcBs => LinesKind(Entries3(d, n), Row3(n), want);
    case ProcQ => LinesKind(Entries3(d, n), Row3(n), want);
    case ErrCount => LinesKind(Entries3(d, n), Row3(n), want);
    case _ => LinesKind(Entries2(d, n), Row2(n), want);
  }

  /** A weight that only looks at the lines of one map sums that map. */
  lemma {:induction false} OneBlock(d: Dump, names: seq<MapName>, n: MapName, w: Line -> nat)
    requires NoDuplicates(names) && forall m, l :: m != n && BelongsTo(m, l) ==> w(l) == 0
    ensures SumLines(Blocks(d, names), w) == if n in names then SumLines(Block(d, n), w) else 0
  {
    if names != [] {
      var m, rest := names[0], names[1..];
      assert forall x :: x in names <==> x == m || x in rest;
      OneBlock(d, rest, n, w);
      SumAppend(Block(d, m), Blocks(d, rest), w);
      if m != n {
        BlockBelongs(d, m);
        SumZero(Block(d, m), w);
      }
    }
  }

  lemma TickSum(h: Run, d: Dump, n: MapName, w: Line -> nat)
    requires forall m, l :: m != n && BelongsTo(m, l) ==> w(l) == 0
    requires forall l: Line :: l.Other? || l.ErrorEvent? || l.TimeoutEvent? ==> w(l) == 0
    ensures SumLines(Open(h) + Render(d), w) == SumLines(Block(d, n), w)
  {
    OpenHasEventsOnly(h);
    SumZero(Open(h), w);
    SumAppend(Open(h), Render(d), w);
    PrintedOnce();
    EveryMapPrinted(n);
    OneBlock(d, PRINT_ORDER, n, w);
  }

  lemma {:induction false} LinesSum<K>(s: seq<(K, nat)>, row: (K, nat) -> Line, w: Line -> nat, keep: K -> bool)
    requires w(Other) == 0 && forall k, v: nat :: w(row(k, v)) == if keep(k) then v else 0
    ensures SumLines(Lines(s, row), w) == SumEntries(s, keep)
  {
    if s == [] {
      assert SumLines([Other], w) == SumLines([], w) + w(Other);
    } else {
      LinesSum(s[1..], row, w, keep);
      SumAppend([row(s[0].0, s[0].1)], Lines(s[1..], row), w);
      assert SumLines([row(s[0].0, s[0].1)], w) == SumLines([], w) + w(row(s[0].0, s[0].1));
    }
  }

  // ---- every counter of a process ----

  lemma OpsRecovered(h: Run, d: Dump, k: (int, int))
    requires IsDump(d, h)
    ensures SlotAt(ParseLines(Open(h) + Render(d)), k).ops == Total(InTick(h, ProcOpsOf), ProcOps3(k.0, k.1))
  {
    SlotSums(Open(h) + Render(d), k, ProcRd);
    TickSum(h, d, OpsByProcess, OpsW(k));
    LinesSum(d.procOps, RowOps, OpsW(k), ProcOps3(k.0, k.1));
    ListedSum(d.procOps, InTick(h, ProcOpsOf), ProcOps3(k.0, k.1));
  }

  /** Bytes, reads, writes, latency sums and counts, sequential and random operations. */
  lemma FieldRecovered(h: Run, d: Dump, k: (int, int), n: MapName)
    requires IsDump(d, h) && IsField(n)
    ensures Get(SlotAt(ParseLines(Open(h) + Render(d)), k).counts, n) == Get(Map2(h, n), k)
  {
    SlotSums(Open(h) + Render(d), k, n);
    TickSum(h, d, n, FieldW(k, n));
    LinesSum(Entries2(d, n), Row2(n), FieldW(k, n), At2(k.0, k.1));
    ListedSum(Entries2(d, n), Map2(h, n), At2(k.0, k.1));
    TotalOne(Map2(h, n), At2(k.0, k.1), k);
  }

  function At3(c: int, p: int, x: int): ((int, int, int)) -> bool { (k: (int, int, int)) => k == (c, p, x) }

  /** The size distribution and the queue usage. */
  lemma KeyedRecovered(h: Run, d: Dump, k: (int, int), x: int)
    requires IsDump(d, h)
    ensures Get(SlotAt(ParseLines(Open(h) + Render(d)), k).sizes, x) == Get(InTick(h, ProcBsOf), (k.0, k.1, x))
    ensures Get(SlotAt(ParseLines(Open(h) + Render(d)), k).queues, x) == Get(InTick(h, ProcQOf), (k.0, k.1, x))
  {
    SlotKeyedSums(Open(h) + Render(d), k, x);
    KeyedSum(h, d, ProcBs, k, x);
    KeyedSum(h, d, ProcQ, k, x);
  }

  lemma KeyedSum(h: Run, d: Dump, n: MapName, k: (int, int), x: int)
    requires IsDump(d, h) && (n == ProcBs || n == ProcQ)
    ensures SumLines(Open(h) + Render(d), KeyedW(k, n, x)) == Get(Map3(h, n), (k.0, k.1, x))
  {
    var w, at := KeyedW(k, n, x), At3(k.0, k.1, x);
    TickSum(h, d, n, w);
    LinesSum(Entries3(d, n), Row3(n), w, at);
    ListedSum(Entries3(d, n), Map3(h, n), at);
    TotalOne(Map3(h, n), at, (k.0, k.1, x));
  }

  // ---- threads add up to their process ----

  /** Operations of the chosen threads of a process. */
  function ThreadsW(k: (int, int), want: int -> bool): Line -> nat {
    (l: Line) => if l.ThrOps? && (l.ctrl, l.pid) == k && want(l.tid) then l.value else 0
  }

  lemma {:induction false} ThreadTableSum(lines: seq<Line>, k: (int, int), want: int -> bool)
    ensures Total(ThreadTable(SlotAt(ParseLines(lines), k)), want) == SumLines(lines, ThreadsW(k, want))
  {
    if lines == [] {
      assert ThreadTable(EmptyRaw) == map[];
    } else {
      var front, l := lines[..|lines| - 1], lines[|lines| - 1];
      ThreadTableSum(front, k, want);
      StepSlot(ParseLines(front), l, k);
      ThreadTableStep(SlotAt(ParseLines(front), k), l, want);
    }
  }

  lemma ThreadTableStep(r: Raw, l: Line, want: int -> bool)
    ensures Total(ThreadTable(Touch(r, l)), want) ==
            Total(ThreadTable(r), want) + if l.ThrOps? && want(l.tid) then l.value else 0
  {
    if l.ThrOps? {
      assert ThreadTable(Touch(r, l)) == Bump(ThreadTable(r), l.tid, l.value);
      TotalBump(ThreadTable(r), want, l.tid, l.value);
    } else {
      assert ThreadTable(Touch(r, l)) == ThreadTable(r);
    }
  }

  // ---- submissions of threads ----

  /** Submissions since the last tick with a kept (controller, process, thread). */
  function SubmissionsBy(h: Run, keep: ((int, int, int)) -> bool): nat {
    match h
    case Attached => 0
    case Next(p, e) =>
      if e.Tick? then 0
      else SubmissionsBy(p, keep) + if e.Submit? && keep((e.cmd.ctrl, e.cmd.pid, e.cmd.tid)) then 1 else 0
  }

  function ThreadsOf(k: (int, int), want: int -> bool): ((int, int, int)) -> bool {
    (t: (int, int, int)) => (t.0, t.1) == k && want(t.2)
  }

  function KeptThr(keep: ((int, int, int)) -> bool): ((int, int, int, string)) -> bool {
    (k: (int, int, int, string)) => keep((k.0, k.1, k.2))
  }

  lemma {:induction false} SubmissionsAreThreads(h: Run, keep: ((int, int, int)) -> bool)
    ensures SubmissionsBy(h, keep) == Weigh(h, false, ThrOpsOf, KeptThr(keep))
  {
    if h.Next? && !h.event.Tick? {
      SubmissionsAreThreads(h.before, keep);
    }
  }

  /** The threads of a slot have the operations they submitted, whichever are chosen. */
  lemma ThreadsExact(h: Run, d: Dump, k: (int, int), want: int -> bool)
    requires IsDump(d, h)
    ensures Total(ThreadTable(SlotAt(ParseLines(Open(h) + Render(d)), k)), want) == SubmissionsBy(h, ThreadsOf(k, want))
  {
    var keep := ThreadsOf(k, want);
    ThreadTableSum(Open(h) + Render(d), k, want);
    TickSum(h, d, OpsByThread, ThreadsW(k, want));
    LinesSum(d.thrOps, RowThr, ThreadsW(k, want), KeptThr(keep));
    ListedSum(d.thrOps, InTick(h, ThrOpsOf), KeptThr(keep));
    TotalIsWeight(h, false, ThrOpsOf, KeptThr(keep));
    SubmissionsAreThreads(h, keep);
  }

  function Only(tid: int): int -> bool { (t: int) => t == tid }

  /** A thread's operations are the commands it submitted in the tick. */
  lemma ThreadExact(h: Run, d: Dump, k: (int, int), tid: int)
    requires IsDump(d, h)
    ensures ThreadAt(SlotAt(ParseLines(Open(h) + Render(d)), k), tid) == SubmissionsBy(h, ThreadsOf(k, Only(tid)))
  {
    var r := SlotAt(ParseLines(Open(h) + Render(d)), k);
    ThreadsExact(h, d, k, Only(tid));
    TotalOne(ThreadTable(r), Only(tid), tid);
  }

  function AnyThread(): int -> bool { (t: int) => true }

  lemma {:induction false} SubmissionsOfSlot(h: Run, k: (int, int))
    ensures SubmissionsBy(h, ThreadsOf(k, AnyThread())) == Weigh(h, false, ProcOpsOf, ProcOps3(k.0, k.1))
  {
    if h.Next? && !h.event.Tick? {
      SubmissionsOfSlot(h.before, k);
    }
  }

  lemma ThreadsRecovered(h: Run, d: Dump, k: (int, int))
    requires IsDump(d, h)
    ensures Total(ThreadTable(SlotAt(ParseLines(Open(h) + Render(d)), k)), AnyThread())
         == SlotAt(ParseLines(Open(h) + Render(d)), k).ops
  {
    ThreadsExact(h, d, k, AnyThread());
    SubmissionsOfSlot(h, k);
    TotalIsWeight(h, false, ProcOpsOf, ProcOps3(k.0, k.1));
    OpsRecovered(h, d, k);
  }

  /** In the statistics read from a log, the thread rates add up to the process rate. */
  lemma StatsAddUp(h: Run, d: Dump, keys: seq<(int, int)>, stats: seq<IoStat>, want: Option<int>)
    requires IsDump(d, h) && StatsOf(stats, keys, ParseLines(Open(h) + Render(d)), want)
    ensures ThreadsAddUp(stats)
  {
    forall st | st in stats
      ensures SumThreads(st.threads, _ => true) == st.iops
    {
      var i :| 0 <= i < |stats| && stats[i] == st;
      ThreadsRecovered(h, d, keys[i]);
      ThreadsOfSlot(st.threads, SlotAt(ParseLines(Open(h) + Render(d)), keys[i]), AnyThread());
      ThreadsAgree(st.threads, AnyThread(), _ => true);
    }
  }

  // ---- processes add up to their controller ----

  /** Operations of all slots as a table. */
  function OpsTable(procs: Procs): map<(int, int), nat> { map k | k in procs :: procs[k].ops }

  /** Process operations at the kept (controller, process) pairs. */
  function KeptW(keep: ((int, int)) -> bool): Line -> nat {
    (l: Line) => if l.ProcOps? && keep((l.ctrl, l.pid)) then l.value else 0
  }

  function KeptOps(keep: ((int, int)) -> bool): ((int, int, string)) -> bool { (k: (int, int, string)) => keep((k.0, k.1)) }

  lemma {:induction false} OpsTableSum(lines: seq<Line>, keep: ((int, int)) -> bool)
    ensures Total(OpsTable(ParseLines(lines)), keep) == SumLines(lines, KeptW(keep))
  {
    if lines == [] {
      assert OpsTable(ParseLines(lines)) == map[];
    } else {
      var front, l := lines[..|lines| - 1], lines[|lines| - 1];
      OpsTableSum(front, keep);
      OpsTableStep(ParseLines(front), l, keep);
    }
  }

  function OpsOf(l: Line): nat { if l.ProcOps? then l.value else 0 }

  lemma TouchOps(r: Raw, l: Line)
    ensures Touch(r, l).ops == r.ops + OpsOf(l)
  {
  }

  lemma OpsTablePut(procs: Procs, k: (int, int), r: Raw)
    ensures OpsTable(procs[k := r]) == OpsTable(procs)[k := r.ops]
  {
  }

  lemma OpsTableTouch(procs: Procs, k: (int, int), l: Line, keep: ((int, int)) -> bool)
    ensures Total(OpsTable(procs[k := Touch(SlotAt(procs, k), l)]), keep) ==
            Total(OpsTable(procs), keep) + if keep(k) then OpsOf(l) else 0
  {
    OpsTableBump(procs, k, l);
    TotalBump(OpsTable(procs), keep, k, OpsOf(l));
  }

  lemma OpsTableBump(procs: Procs, k: (int, int), l: Line)
    ensures OpsTable(procs[k := Touch(SlotAt(procs, k), l)]) == Bump(OpsTable(procs), k, OpsOf(l))
  {
    TouchOps(SlotAt(procs, k), l);
    OpsTablePut(procs, k, Touch(SlotAt(procs, k), l));
  }

  lemma OpsTableStep(procs: Procs, l: Line, keep: ((int, int)) -> bool)
    ensures Total(OpsTable(Step(procs, l)), keep) == Total(OpsTable(procs), keep) + KeptW(keep)(l)
  {
    if Target(l).Some? {
      OpsTableTouch(procs, Target(l).value, l, keep);
    }
  }

  /** Rates summed over statistics that list a table are the table's total. */
  lemma {:induction false} StatsTotal(stats: seq<IoStat>, want: IoStat -> bool, keys: seq<(int, int)>, m: map<(int, int), nat>,
                                      keep: ((int, int)) -> bool)
    requires |stats| == |keys| && NoDuplicates(keys) && forall k :: k in m && keep(k) ==> k in keys
    requires forall i :: 0 <= i < |keys| ==> stats[i].iops == Get(m, keys[i]) as real && (want(stats[i]) <==> keep(keys[i]))
    ensures SumIops(stats, want) == Total(m, keep) as real
  {
    if keys == [] {
      TotalNothing(m, keep);
    } else {
      var front, last := keys[..|keys| - 1], keys[|keys| - 1];
      assert keys == front + [last];
      StatsTotal(stats[..|stats| - 1], want, front, m - {last}, keep);
      if last in m {
        TotalTake(m, keep, last);
      } else {
        assert m - {last} == m;
      }
    }
  }

  /** Submissions since the last tick at the kept (controller, process) pairs. */
  function Submissions(h: Run, keep: ((int, int)) -> bool): nat {
    match h
    case Attached => 0
    case Next(p, e) =>
      if e.Tick? then 0 else Submissions(p, keep) + if e.Submit? && keep((e.cmd.ctrl, e.cmd.pid)) then 1 else 0
  }

  lemma {:induction false} SubmissionsAreOps(h: Run, keep: ((int, int)) -> bool)
    ensures Submissions(h, keep) == Weigh(h, false, ProcOpsOf, KeptOps(keep))
  {
    if h.Next? && !h.event.Tick? {
      SubmissionsAreOps(h.before, keep);
    }
  }

  /** The rates read from the log, summed over any choice of controllers and processes, are
      the submissions of the tick with that controller and process: whatever was sent is in
      the process view, once, and under the process that sent it. */
  lemma StatsExact(h: Run, d: Dump, keys: seq<(int, int)>, stats: seq<IoStat>, asked: Option<int>, want: IoStat -> bool,
                   keep: ((int, int)) -> bool)
    requires IsDump(d, h) && StatsOf(stats, keys, ParseLines(Open(h) + Render(d)), asked)
    requires forall k :: keep(k) ==> Wanted(asked, k)
    requires forall st :: st in stats ==> (want(st) <==> keep((st.device, st.pid)))
    ensures SumIops(stats, want) == Submissions(h, keep) as real
  {
    StatsAreTable(ParseLines(Open(h) + Render(d)), keys, stats, asked, want, keep);
    OpsExact(h, d, keep);
  }

  lemma StatsAreTable(procs: Procs, keys: seq<(int, int)>, stats: seq<IoStat>, asked: Option<int>, want: IoStat -> bool,
                      keep: ((int, int)) -> bool)
    requires StatsOf(stats, keys, procs, asked) && forall k :: keep(k) ==> Wanted(asked, k)
    requires forall st :: st in stats ==> (want(st) <==> keep((st.device, st.pid)))
    ensures SumIops(stats, want) == Total(OpsTable(procs), keep) as real
  {
    forall i | 0 <= i < |keys|
      ensures stats[i].iops == Get(OpsTable(procs), keys[i]) as real && (want(stats[i]) <==> keep(keys[i]))
    {
      StatIs(stats[i], keys[i], procs);
      assert stats[i] in stats;
    }
    StatsTotal(stats, want, keys, OpsTable(procs), keep);
  }

  lemma StatIs(st: IoStat, k: (int, int), procs: Procs)
    requires IsStat(st, k, SlotAt(procs, k))
    ensures (st.device, st.pid) == k && st.iops == Get(OpsTable(procs), k) as real
  {
  }

  lemma OpsExact(h: Run, d: Dump, keep: ((int, int)) -> bool)
    requires IsDump(d, h)
    ensures Total(OpsTable(ParseLines(Open(h) + Render(d))), keep) == Submissions(h, keep)
  {
    OpsTableSum(Open(h) + Render(d), keep);
    TickSum(h, d, OpsByProcess, KeptW(keep));
    LinesSum(d.procOps, RowOps, KeptW(keep), KeptOps(keep));
    ListedSum(d.procOps, InTick(h, ProcOpsOf), KeptOps(keep));
    TotalIsWeight(h, false, ProcOpsOf, KeptOps(keep));
    SubmissionsAreOps(h, keep);
  }

  /** All process rates of a controller together are its submissions in the tick. */
  lemma DeviceStatsExact(h: Run, d: Dump, c: int, keys: seq<(int, int)>, stats: seq<IoStat>)
    requires IsDump(d, h) && StatsOf(stats, keys, ParseLines(Open(h) + Render(d)), Some(c))
    ensures TotalIops(stats) == SubmitsInTick(h, c) as real
  {
    StatsExact(h, d, keys, stats, Some(c), _ => true, Ctrl2(c));
    SubmitsOfCtrl(h, c);
  }

  lemma {:induction false} SubmitsOfCtrl(h: Run, c: int)
    ensures Submissions(h, Ctrl2(c)) == SubmitsInTick(h, c)
  {
    if h.Next? {
      SubmitsOfCtrl(h.before, c);
    }
  }
}
