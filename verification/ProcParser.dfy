/** Per-process counters from a tick (src/telemetryd/backend/proc_stats.py). */
module ProcParser {
  import opened Common
  import opened Tables
  import opened LogLines
  import opened IoStats
  import opened PerfParser

  datatype ThreadRaw = ThreadRaw(comm: string, ops: nat)

  /** The counters of one (controller, process) pair; `counts` are those printed with two
      keys, under the name of their map. */
  datatype Raw = Raw(
    comm: string, ops: nat, counts: map<MapName, nat>,
    sizes: map<int, nat>, queues: map<int, nat>, threads: map<int, ThreadRaw>)

  const EmptyRaw := Raw("", 0, map[], map[], map[], map[])

  type Procs = map<(int, int), Raw>

  /** `slot(ctrl, tgid)`, before it is stored. */
  function SlotAt(procs: Procs, k: (int, int)): Raw { if k in procs then procs[k] else EmptyRaw }

  function ThreadAt(r: Raw, tid: int): nat { if tid in r.threads then r.threads[tid].ops else 0 }

  predicate IsField(n: MapName) { n in {ProcBytes, ProcRd, ProcWr, ProcLatSum, ProcLatCnt, ProcSeq, ProcRand} }

  /** The slot a line belongs to; other lines are skipped. */
  function Target(l: Line): Option<(int, int)> {
    match l
    case ProcOps(c, p, _, _) => Some((c, p))
    case ThrOps(c, p, _, _, _) => Some((c, p))
    case Scalar2(n, c, p, _) => if IsField(n) then Some((c, p)) else None
    case Scalar3(n, c, p, _, _) => if n == ProcBs || n == ProcQ then Some((c, p)) else None
    case _ => None
  }

  /** What the line adds to its slot. */
  function Touch(r: Raw, l: Line): Raw {
    match l
    case ProcOps(_, _, comm, v) => r.(comm := comm, ops := r.ops + v)
    case ThrOps(_, _, tid, comm, v) => r.(threads := r.threads[tid := ThreadRaw(comm, ThreadAt(r, tid) + v)])
    case Scalar2(n, _, _, v) => r.(counts := Bump(r.counts, n, v))
    case Scalar3(n, _, _, x, v) =>
      if n == ProcBs then r.(sizes := Bump(r.sizes, x, v)) else r.(queues := Bump(r.queues, x, v))
    case _ => r
  }

  function Step(procs: Procs, l: Line): Procs {
    match Target(l)
    case None => procs
    case Some(k) => procs[k := Touch(SlotAt(procs, k), l)]
  }

  function ParseLines(lines: seq<Line>): Procs {
    if lines == [] then map[] else Step(ParseLines(lines[..|lines| - 1]), lines[|lines| - 1])
  }

  /** `parse_tick`. */
  method ParseTick(lines: seq<Line>) returns (procs: Procs)
    ensures procs == ParseLines(lines)
  {
    procs := map[];
    for i := 0 to |lines|
      invariant procs == ParseLines(lines[..i])
    {
      assert lines[..i + 1][..i] == lines[..i];
      procs := Step(procs, lines[i]);
    }
    assert lines[..|lines|] == lines;
  }

  // ---- what the counters are: sums over lines ----

  function SumLines(lines: seq<Line>, w: Line -> nat): nat {
    if lines == [] then 0 else SumLines(lines[..|lines| - 1], w) + w(lines[|lines| - 1])
  }

  function OpsW(k: (int, int)): Line -> nat {
    (l: Line) => if l.ProcOps? && (l.ctrl, l.pid) == k then l.value else 0
  }

  function FieldW(k: (int, int), n: MapName): Line -> nat {
    (l: Line) => if l.Scalar2? && l.name == n && (l.k1, l.k2) == k then l.value else 0
  }

  function KeyedW(k: (int, int), n: MapName, x: int): Line -> nat {
    (l: Line) => if l.Scalar3? && l.name == n && (l.k1, l.k2) == k && l.k3 == x then l.value else 0
  }

  function ThreadW(k: (int, int), tid: int): Line -> nat {
    (l: Line) => if l.ThrOps? && (l.ctrl, l.pid) == k && l.tid == tid then l.value else 0
  }

  lemma StepSlot(procs: Procs, l: Line, k: (int, int))
    ensures SlotAt(Step(procs, l), k) == if Target(l) == Some(k) then Touch(SlotAt(procs, k), l) else SlotAt(procs, k)
  {
  }

  /** Operations and two-key counters are the sums of their lines. */
  lemma {:induction false} SlotSums(lines: seq<Line>, k: (int, int), n: MapName)
    requires IsField(n)
    ensures var r := SlotAt(ParseLines(lines), k);
            r.ops == SumLines(lines, OpsW(k)) && Get(r.counts, n) == SumLines(lines, FieldW(k, n))
  {
    if lines != [] {
      var front, l := lines[..|lines| - 1], lines[|lines| - 1];
      SlotSums(front, k, n);
      StepSlot(ParseLines(front), l, k);
    }
  }

  /** So are sizes and queue usage. */
  lemma {:induction false} SlotKeyedSums(lines: seq<Line>, k: (int, int), x: int)
    ensures var r := SlotAt(ParseLines(lines), k);
            && Get(r.sizes, x) == SumLines(lines, KeyedW(k, ProcBs, x))
            && Get(r.queues, x) == SumLines(lines, KeyedW(k, ProcQ, x))
  {
    if lines != [] {
      var front, l := lines[..|lines| - 1], lines[|lines| - 1];
      SlotKeyedSums(front, k, x);
      StepSlot(ParseLines(front), l, k);
    }
  }

  /** So are thread operations. */
  lemma {:induction false} SlotThreadSums(lines: seq<Line>, k: (int, int), x: int)
    ensures ThreadAt(SlotAt(ParseLines(lines), k), x) == SumLines(lines, ThreadW(k, x))
  {
    if lines != [] {
      var front, l := lines[..|lines| - 1], lines[|lines| - 1];
      SlotThreadSums(front, k, x);
      StepSlot(ParseLines(front), l, k);
    }
  }

  /** The name of a process is the one its last operations line gives, and that of a thread likewise. */
  ghost predicate LastNaming(lines: seq<Line>, i: nat, naming: Line -> bool) {
    i < |lines| && naming(lines[i]) && forall j :: i < j < |lines| ==> !naming(lines[j])
  }

  function NamesProcess(k: (int, int)): Line -> bool { (l: Line) => l.ProcOps? && (l.ctrl, l.pid) == k }

  function NamesThread(k: (int, int), tid: int): Line -> bool {
    (l: Line) => l.ThrOps? && (l.ctrl, l.pid) == k && l.tid == tid
  }

  lemma {:induction false} SlotName(lines: seq<Line>, k: (int, int), i: nat)
    requires LastNaming(lines, i, NamesProcess(k))
    ensures SlotAt(ParseLines(lines), k).comm == lines[i].comm
  {
    var n := |lines| - 1;
    StepSlot(ParseLines(lines[..n]), lines[n], k);
    if i < n {
      assert !NamesProcess(k)(lines[n]);
      SlotName(lines[..n], k, i);
    }
  }

  lemma {:induction false} SlotThreadName(lines: seq<Line>, k: (int, int), tid: int, i: nat)
    requires LastNaming(lines, i, NamesThread(k, tid))
    ensures tid in SlotAt(ParseLines(lines), k).threads && SlotAt(ParseLines(lines), k).threads[tid].comm == lines[i].comm
  {
    var n := |lines| - 1;
    StepSlot(ParseLines(lines[..n]), lines[n], k);
    if i < n {
      assert !NamesThread(k, tid)(lines[n]);
      SlotThreadName(lines[..n], k, tid, i);
    }
  }

  // ---- statistics ----

  /** Thread operations of a slot as a table. */
  function ThreadTable(r: Raw): map<int, nat> { map t | t in r.threads :: r.threads[t].ops }

  /** Mean latency in microseconds, and the sequential share. */
  function MeanUs(r: Raw): real {
    if Get(r.counts, ProcLatCnt) == 0 then 0.0
    else Get(r.counts, ProcLatSum) as real / Get(r.counts, ProcLatCnt) as real / 1000.0
  }

  function SeqRatio(r: Raw): Option<real> {
    var total := Get(r.counts, ProcSeq) + Get(r.counts, ProcRand);
    if total == 0 then None else Some(Get(r.counts, ProcSeq) as real / total as real)
  }

  /** The statistic a slot stands for; a tick is one second. The threads are the slot's, each
      listed once. */
  ghost predicate IsStat(st: IoStat, k: (int, int), r: Raw) {
    && st.device == k.0 && st.pid == k.1 && st.iops == r.ops as real
    && st.readIops == Get(r.counts, ProcRd) as real && st.writeIops == Get(r.counts, ProcWr) as real
    && st.bandwidth == Get(r.counts, ProcBytes) as real && st.avgLatencyUs == MeanUs(r)
    && st.depth == st.iops * (st.avgLatencyUs / 1000000.0) && st.seqRatio == SeqRatio(r)
    && ListsThreads(st.threads, r)
  }

  ghost predicate ListsThreads(threads: seq<ThreadStat>, r: Raw) {
    exists entries :: Lists(entries, ThreadTable(r)) && threads == ThreadStats(entries)
  }

  /** `_to_stat`. */
  method ToStat(k: (int, int), r: Raw) returns (st: IoStat)
    ensures IsStat(st, k, r)
  {
    var entries := Print(ThreadTable(r));
    var iops, mean := r.ops as real, MeanUs(r);
    st := IoStat(k.0, k.1, iops, Get(r.counts, ProcRd) as real, Get(r.counts, ProcWr) as real,
      Get(r.counts, ProcBytes) as real, mean, if mean == 0.0 then 0.0 else iops * (mean / 1000000.0), SeqRatio(r),
      ThreadStats(entries));
  }

  function ThreadStats(entries: seq<(int, nat)>): seq<ThreadStat> {
    if entries == [] then [] else [ThreadStat(entries[0].0, entries[0].1 as real)] + ThreadStats(entries[1..])
  }

  lemma {:induction false} ThreadSum(entries: seq<(int, nat)>, want: int -> bool)
    ensures SumThreads(ThreadStats(entries), want) == SumEntries(entries, want) as real
  {
    if entries != [] {
      ThreadSum(entries[1..], want);
    }
  }

  /** The rates of any choice of threads add up to their operations. */
  lemma ThreadsOfSlot(threads: seq<ThreadStat>, r: Raw, want: int -> bool)
    requires ListsThreads(threads, r)
    ensures SumThreads(threads, want) == Total(ThreadTable(r), want) as real
  {
    var entries: seq<(int, nat)> :| Lists(entries, ThreadTable(r)) && threads == ThreadStats(entries);
    ThreadSum(entries, want);
    ListedSum(entries, ThreadTable(r), want);
  }

  lemma {:induction false} ThreadStatsAt(entries: seq<(int, nat)>)
    ensures |ThreadStats(entries)| == |entries|
    ensures forall i :: 0 <= i < |entries| ==> ThreadStats(entries)[i] == ThreadStat(entries[i].0, entries[i].1 as real)
  {
    if entries != [] {
      ThreadStatsAt(entries[1..]);
    }
  }

  /** Every thread of the slot is listed once, with its own rate, and no other. */
  lemma ThreadsListed(threads: seq<ThreadStat>, r: Raw)
    requires ListsThreads(threads, r)
    ensures forall i, j :: 0 <= i < j < |threads| ==> threads[i].tid != threads[j].tid
    ensures forall t :: t in threads <==> t.tid in r.threads && t.iops == r.threads[t.tid].ops as real
  {
    var m := ThreadTable(r);
    var entries: seq<(int, nat)> :| Lists(entries, m) && threads == ThreadStats(entries);
    ThreadStatsAt(entries);
    forall t
      ensures t in threads <==> t.tid in r.threads && t.iops == r.threads[t.tid].ops as real
    {
      if t in threads {
        var i :| 0 <= i < |threads| && threads[i] == t;
        assert entries[i].0 in m;
      }
      if t.tid in r.threads && t.iops == r.threads[t.tid].ops as real {
        assert (t.tid, m[t.tid]) in entries;
        var i :| 0 <= i < |entries| && entries[i] == (t.tid, m[t.tid]);
        assert threads[i] == t;
      }
    }
  }

  /** The keys a reader asks for: all, or those of one device. */
  predicate Wanted(want: Option<int>, k: (int, int)) { want.None? || k.0 == want.value }

  ghost predicate StatsOf(stats: seq<IoStat>, keys: seq<(int, int)>, procs: Procs, want: Option<int>) {
    && NoDuplicates(keys) && |stats| == |keys|
    && (forall k :: k in keys <==> k in procs && Wanted(want, k))
    && (forall i :: 0 <= i < |keys| ==> IsStat(stats[i], keys[i], SlotAt(procs, keys[i])))
  }

  /** `read_process_stats` on the text it reads. */
  method ReadProcessStats(lines: seq<Line>, want: Option<int>) returns (keys: seq<(int, int)>, stats: seq<IoStat>)
    ensures StatsOf(stats, keys, ParseLines(TickText(lines)), want)
    ensures forall i, j :: 0 <= i < j < |stats| ==> stats[i].iops >= stats[j].iops
  {
    var procs := ParseTick(TickText(lines));
    var all := Elements(set k | k in procs && Wanted(want, k));
    var rows: seq<StatRow> := [];
    for i := 0 to |all|
      invariant Falling(rows) && DistinctKeys(rows)
      invariant forall row :: row in rows ==> row.0 in all[..i] && IsStat(row.1, row.0, SlotAt(procs, row.0))
      invariant forall k :: k in all[..i] ==> HasRow(rows, k)
    {
      assert all[..i + 1] == all[..i] + [all[i]];
      var st := ToStat(all[i], SlotAt(procs, all[i]));
      PlaceSorts(rows, (all[i], st));
      PlaceHas(rows, (all[i], st));
      rows := Place(rows, (all[i], st));
    }
    assert all[..|all|] == all;
    keys := seq(|rows|, i requires 0 <= i < |rows| => rows[i].0);
    stats := seq(|rows|, i requires 0 <= i < |rows| => rows[i].1);
    RowsAre(rows, keys, all);
    assert forall i :: 0 <= i < |rows| ==> rows[i] in rows;
  }

  lemma RowsAre(rows: seq<StatRow>, keys: seq<(int, int)>, all: seq<(int, int)>)
    requires |keys| == |rows| && forall i :: 0 <= i < |rows| ==> keys[i] == rows[i].0
    requires forall row :: row in rows ==> row.0 in all
    requires forall k :: k in all ==> HasRow(rows, k)
    ensures forall k :: k in keys <==> k in all
  {
    forall k
      ensures k in keys <==> k in all
    {
      if k in all {
        var i :| 0 <= i < |rows| && rows[i].0 == k;
        assert keys[i] == k;
      }
      if k in keys {
        var i :| 0 <= i < |keys| && keys[i] == k;
        assert rows[i] in rows;
      }
    }
  }

  // ---- largest rate first ----

  type StatRow = ((int, int), IoStat)

  /** A statistic put behind those with at least its rate, as a stable sort does. */
  function Place(rows: seq<StatRow>, row: StatRow): seq<StatRow> {
    if rows == [] || rows[0].1.iops < row.1.iops then [row] + rows else [rows[0]] + Place(rows[1..], row)
  }

  ghost predicate Falling(rows: seq<StatRow>) {
    forall i, j :: 0 <= i < j < |rows| ==> rows[i].1.iops >= rows[j].1.iops
  }

  ghost predicate DistinctKeys(rows: seq<StatRow>) {
    forall i, j :: 0 <= i < j < |rows| ==> rows[i].0 != rows[j].0
  }

  ghost predicate HasRow(rows: seq<StatRow>, k: (int, int)) {
    exists i :: 0 <= i < |rows| && rows[i].0 == k
  }

  lemma Before(first: StatRow, rows: seq<StatRow>)
    requires Falling(rows) && forall row :: row in rows ==> first.1.iops >= row.1.iops
    requires DistinctKeys(rows) && forall row :: row in rows ==> first.0 != row.0
    ensures Falling([first] + rows) && DistinctKeys([first] + rows)
  {
    var all := [first] + rows;
    forall i, j | 0 <= i < j < |all|
      ensures all[i].1.iops >= all[j].1.iops && all[i].0 != all[j].0
    {
      assert rows[j - 1] in rows;
    }
  }

  lemma {:induction false} PlaceSorts(rows: seq<StatRow>, row: StatRow)
    requires Falling(rows) && DistinctKeys(rows) && forall r :: r in rows ==> r.0 != row.0
    ensures Falling(Place(rows, row)) && DistinctKeys(Place(rows, row))
    ensures forall r :: r in Place(rows, row) <==> r == row || r in rows
  {
    if rows == [] {
      assert Place(rows, row) == [row];
    } else if rows[0].1.iops < row.1.iops {
      Before(row, rows);
    } else {
      assert rows == [rows[0]] + rows[1..];
      PlaceSorts(rows[1..], row);
      Before(rows[0], Place(rows[1..], row));
    }
  }

  lemma PlaceHas(rows: seq<StatRow>, row: StatRow)
    requires forall r :: r in Place(rows, row) <==> r == row || r in rows
    ensures forall k :: HasRow(rows, k) || k == row.0 ==> HasRow(Place(rows, row), k)
  {
    var all := Place(rows, row);
    forall k | HasRow(rows, k) || k == row.0
      ensures HasRow(all, k)
    {
      if k == row.0 {
        assert row in all;
      } else {
        var i :| 0 <= i < |rows| && rows[i].0 == k;
        assert rows[i] in all;
      }
    }
  }

  lemma {:induction false} TickInTail(pre: seq<Line>, tail: seq<Line>)
    requires |Split(tail)| >= 3
    ensures LastCompleteTick(pre + tail) == LastCompleteTick(tail)
  {
    if pre == [] {
      assert pre + tail == tail;
    } else {
      assert (pre + tail)[0] == pre[0] && (pre + tail)[1..] == pre[1..] + tail;
      TickInTail(pre[1..], tail);
      SplitGrows(pre[1..], tail);
    }
  }

  /** The end of the log is enough when it holds two tick marks. A read that starts in the
      middle of a line sees some `fragment` of it, whatever that reads like. */
  lemma TailHasSameTick(pre: seq<Line>, fragment: seq<Line>, tail: seq<Line>)
    requires |Split(tail)| >= 3
    ensures LastCompleteTick(fragment + tail) == LastCompleteTick(pre + tail)
  {
    TickInTail(pre, tail);
    TickInTail(fragment, tail);
  }

  lemma {:induction false} SplitGrows(pre: seq<Line>, tail: seq<Line>)
    ensures |Split(pre + tail)| >= |Split(tail)|
  {
    if pre == [] {
      assert pre + tail == tail;
    } else {
      assert (pre + tail)[0] == pre[0] && (pre + tail)[1..] == pre[1..] + tail;
      SplitGrows(pre[1..], tail);
    }
  }
}
