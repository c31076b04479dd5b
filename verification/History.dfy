/** What a run of the collector (ebpf/nvme_perf.bt) has seen, and what that history says
    each of its maps must hold. A run is a sequence of probe firings. */
module History {
  import opened Common
  import opened Tables
  import opened LogLines

  // ---- commands and events ----

  /** The 24 bytes of CDW10 to CDW15. */
  type Cdw = s: seq<Byte> | |s| == 24 witness seq(24, _ => 0)

  /** CDW10 + i. */
  function Word(c: Cdw, i: nat): nat
    requires i < 6
  {
    LittleEndian(c[4 * i..4 * i + 4])
  }

  /** Zero-based number of blocks: bytes 8 and 9. */
  function Nlb(c: Cdw): nat { LittleEndian(c[8..10]) }

  /** Starting LBA: bytes 0 to 7. */
  function Slba(c: Cdw): nat { LittleEndian(c[0..8]) }

  /** The LBA put together from two cached words is the one in the command. */
  lemma SlbaOfWords(c: Cdw)
    ensures Slba(c) == 0x1_0000_0000 * Word(c, 1) + Word(c, 0)
  {
    assert c[0..8] == c[0..4] + c[4..8];
    LittleEndianAppend(c[0..4], c[4..8]);
  }

  /** The low half of the third word is the block count. */
  lemma NlbOfWord(c: Cdw)
    ensures Word(c, 2) % 0x1_0000 == Nlb(c)
  {
    assert c[8..12] == c[8..10] + c[10..12];
    LittleEndianAppend(c[8..10], c[10..12]);
  }

  /** The shifts of the script: two bytes, then eight. */
  lemma NlbOfBytes(c: Cdw)
    ensures Nlb(c) == 0x100 * c[9] as int + c[8] as int
  {
    assert c[8..10] == [c[8]] + [c[9]];
    LittleEndianAppend([c[8]], [c[9]]);
    assert LittleEndian([c[8]]) == c[8] as int && LittleEndian([c[9]]) == c[9] as int;
  }

  /** A command as `nvme_setup_cmd` shows it, with the submitting context. */
  datatype Command = Command(
    ctrl: int, qid: int, cid: nat, opcode: nat, nsid: nat, flags: nat, cdw: Cdw,
    pid: nat, tid: nat, comm: string, time: nat)

  datatype Completion = Completion(ctrl: int, qid: int, cid: nat, status: nat, retries: nat, now: nat)

  datatype Event =
    | Submit(cmd: Command)
    | Complete(done: Completion)
    | Timeout(ctrl: int, qid: int, tag: nat, now: nat)
    | Tick(dump: Dump)

  /** The events of a run, the latest outermost. */
  datatype Run = Attached | Next(before: Run, event: Event)

  /** `(ctrl, qid, cid)`, the key of `@start` and `@cmd_tgid`. */
  type CmdKey = (int, int, nat)

  /** `(ctrl, qid, tag)`, the key of the `@to_*` maps; the tag is the low 12 bits of cid. */
  type Slot = (int, int, nat)

  function KeyOf(c: Command): CmdKey { (c.ctrl, c.qid, c.cid) }

  function DoneKey(d: Completion): CmdKey { (d.ctrl, d.qid, d.cid) }

  function SlotOf(k: CmdKey): Slot { (k.0, k.1, k.2 % 0x1000) }

  predicate IsReadWrite(c: Command) { c.opcode == 1 || c.opcode == 2 }

  function BytesOf(c: Command): nat { (Nlb(c.cdw) + 1) * 512 }

  // ---- commands in flight ----

  /** Commands seen at submission and not completed since. */
  function Pending(h: Run): map<CmdKey, Command> {
    match h
    case Attached => map[]
    case Next(p, Submit(c)) => Pending(p)[KeyOf(c) := c]
    case Next(p, Complete(d)) => Pending(p) - {DoneKey(d)}
    case Next(p, _) => Pending(p)
  }

  /** The submission cache, keyed without the generation bits of the command id. */
  function Cache(h: Run): map<Slot, Command> {
    match h
    case Attached => map[]
    case Next(p, Submit(c)) => Cache(p)[SlotOf(KeyOf(c)) := c]
    case Next(p, Complete(d)) => Cache(p) - {SlotOf(DoneKey(d))}
    case Next(p, _) => Cache(p)
  }

  /** The command in flight under an id: the one its last submission sent, unless a completion came
      after that. */
  function Outstanding(h: Run, ctrl: int, qid: int, cid: nat): Option<Command> {
    match h
    case Attached => None
    case Next(p, Submit(c)) =>
      if c.ctrl == ctrl && c.qid == qid && c.cid == cid then Some(c) else Outstanding(p, ctrl, qid, cid)
    case Next(p, Complete(d)) =>
      if d.ctrl == ctrl && d.qid == qid && d.cid == cid then None else Outstanding(p, ctrl, qid, cid)
    case Next(p, _) => Outstanding(p, ctrl, qid, cid)
  }

  /** The pending commands are the outstanding ones. */
  lemma {:induction false} PendingIsOutstanding(h: Run, ctrl: int, qid: int, cid: nat)
    ensures var k := (ctrl, qid, cid);
            Outstanding(h, ctrl, qid, cid) == if k in Pending(h) then Some(Pending(h)[k]) else None
  {
    if h.Next? {
      PendingIsOutstanding(h.before, ctrl, qid, cid);
    }
  }

  // ---- a read or write as the NVMe command set lays it out ----

  /** CDW11 and CDW10: the first logical block. */
  function StartLba(c: Command): nat {
    c.cdw[0] as int + 0x100 * c.cdw[1] as int + 0x1_0000 * c.cdw[2] as int + 0x100_0000 * c.cdw[3] as int
    + 0x1_0000_0000 * c.cdw[4] as int + 0x100_0000_0000 * c.cdw[5] as int
    + 0x1_0000_0000_0000 * c.cdw[6] as int + 0x100_0000_0000_0000 * c.cdw[7] as int
  }

  /** The low half of CDW12 is the number of blocks less one. */
  function BlockCount(c: Command): nat { c.cdw[8] as int + 0x100 * c.cdw[9] as int + 1 }

  /** CDW10 + i. */
  function Dword(c: Command, i: nat): nat
    requires i < 6
  {
    c.cdw[4 * i] as int + 0x100 * c.cdw[4 * i + 1] as int + 0x1_0000 * c.cdw[4 * i + 2] as int + 0x100_0000 * c.cdw[4 * i + 3] as int
  }

  lemma FieldsOf(c: Command)
    ensures Slba(c.cdw) == StartLba(c) && Nlb(c.cdw) + 1 == BlockCount(c)
  {
    EightBytes(c.cdw[0..8]);
    TwoBytes(c.cdw[8..10]);
  }

  lemma WordsOf(c: Command, i: nat)
    requires i < 6
    ensures Word(c.cdw, i) == Dword(c, i)
  {
    FourBytes(c.cdw[4 * i..4 * i + 4]);
  }

  /** Where each process's last read or write ended; survives ticks. */
  function LastEnd(h: Run): map<(int, int), nat> {
    match h
    case Attached => map[]
    case Next(p, Submit(c)) =>
      if IsReadWrite(c) then LastEnd(p)[(c.ctrl, c.pid) := Slba(c.cdw) + Nlb(c.cdw) + 1] else LastEnd(p)
    case Next(p, _) => LastEnd(p)
  }

  /** The latest time stamp seen. */
  function Clock(h: Run): nat {
    match h
    case Attached => 0
    case Next(_, Submit(c)) => c.time
    case Next(_, Complete(d)) => d.now
    case Next(_, Timeout(_, _, _, now)) => now
    case Next(p, Tick(_)) => Clock(p)
  }

  // ---- counters as sums over the events of a tick ----

  /** What one event adds to a counter map, given the events before it. */
  type Contribution<K> = (Run, Event) -> Option<(K, nat)>

  function Apply<K>(m: map<K, nat>, c: Option<(K, nat)>): map<K, nat> {
    if c.None? then m else Bump(m, c.value.0, c.value.1)
  }

  /** The counter map after a run; a tick clears it unless it is kept for `ever`. */
  function Tally<K>(h: Run, ever: bool, f: Contribution<K>): map<K, nat> {
    match h
    case Attached => map[]
    case Next(p, e) => if e.Tick? && !ever then map[] else Apply(Tally(p, ever, f), f(p, e))
  }

  function InTick<K>(h: Run, f: Contribution<K>): map<K, nat> { Tally(h, false, f) }

  function Ever<K>(h: Run, f: Contribution<K>): map<K, nat> { Tally(h, true, f) }

  // Queue counters.

  function ReadCountOf(p: Run, e: Event): Option<((int, int), nat)> {
    if e.Submit? && e.cmd.opcode == 2 then Some(((e.cmd.ctrl, e.cmd.qid), 1)) else None
  }

  function WriteCountOf(p: Run, e: Event): Option<((int, int), nat)> {
    if e.Submit? && e.cmd.opcode == 1 then Some(((e.cmd.ctrl, e.cmd.qid), 1)) else None
  }

  function BytesSumOf(p: Run, e: Event): Option<((int, int), nat)> {
    if e.Submit? && IsReadWrite(e.cmd) then Some(((e.cmd.ctrl, e.cmd.qid), BytesOf(e.cmd))) else None
  }

  /** The seen command an event completes. */
  function Finished(p: Run, e: Event): Option<Command> {
    if e.Complete? && DoneKey(e.done) in Pending(p) then Some(Pending(p)[DoneKey(e.done)]) else None
  }

  function Latency(c: Command, e: Event): nat
    requires e.Complete?
  {
    if c.time <= e.done.now then e.done.now - c.time else 0
  }

  function LatCountOf(p: Run, e: Event): Option<((int, int), nat)> {
    if Finished(p, e).Some? then Some(((e.done.ctrl, e.done.qid), 1)) else None
  }

  function LatSumOf(p: Run, e: Event): Option<((int, int), nat)> {
    var c := Finished(p, e);
    if c.Some? then Some(((e.done.ctrl, e.done.qid), Latency(c.value, e))) else None
  }

  /** The row of bpftrace's `hist()` a value falls in: the number of its binary digits. */
  function HistRow(x: nat): nat { if x == 0 then 0 else 1 + HistRow(x / 2) }

  function LatHistOf(p: Run, e: Event): Option<((int, int, nat), nat)> {
    var c := Finished(p, e);
    if c.Some? then Some(((e.done.ctrl, e.done.qid, HistRow(Latency(c.value, e))), 1)) else None
  }

  // Process counters.

  function ProcOpsOf(p: Run, e: Event): Option<((int, int, string), nat)> {
    if e.Submit? then Some(((e.cmd.ctrl, e.cmd.pid, e.cmd.comm), 1)) else None
  }

  function ThrOpsOf(p: Run, e: Event): Option<((int, int, int, string), nat)> {
    if e.Submit? then Some(((e.cmd.ctrl, e.cmd.pid, e.cmd.tid, e.cmd.comm), 1)) else None
  }

  function ProcQOf(p: Run, e: Event): Option<((int, int, int), nat)> {
    if e.Submit? then Some(((e.cmd.ctrl, e.cmd.pid, e.cmd.qid), 1)) else None
  }

  function ProcBytesOf(p: Run, e: Event): Option<((int, int), nat)> {
    if e.Submit? && IsReadWrite(e.cmd) then Some(((e.cmd.ctrl, e.cmd.pid), BytesOf(e.cmd))) else None
  }

  function ProcBsOf(p: Run, e: Event): Option<((int, int, int), nat)> {
    if e.Submit? && IsReadWrite(e.cmd) then Some(((e.cmd.ctrl, e.cmd.pid, BytesOf(e.cmd)), 1)) else None
  }

  function ProcWrOf(p: Run, e: Event): Option<((int, int), nat)> {
    if e.Submit? && e.cmd.opcode == 1 then Some(((e.cmd.ctrl, e.cmd.pid), 1)) else None
  }

  function ProcRdOf(p: Run, e: Event): Option<((int, int), nat)> {
    if e.Submit? && e.cmd.opcode == 2 then Some(((e.cmd.ctrl, e.cmd.pid), 1)) else None
  }

  /** The command starts where the process's previous read or write ended. */
  predicate Continues(p: Run, c: Command) {
    var end := Get(LastEnd(p), (c.ctrl, c.pid));
    end != 0 && Slba(c.cdw) == end
  }

  function ProcSeqOf(p: Run, e: Event): Option<((int, int), nat)> {
    if e.Submit? && IsReadWrite(e.cmd) && Continues(p, e.cmd) then Some(((e.cmd.ctrl, e.cmd.pid), 1)) else None
  }

  function ProcRandOf(p: Run, e: Event): Option<((int, int), nat)> {
    if e.Submit? && IsReadWrite(e.cmd) && !Continues(p, e.cmd) then Some(((e.cmd.ctrl, e.cmd.pid), 1)) else None
  }

  /** Completions are charged to the submitting process, unless that was pid 0. */
  function ProcLatCntOf(p: Run, e: Event): Option<((int, int), nat)> {
    var c := Finished(p, e);
    if c.Some? && c.value.pid != 0 then Some(((e.done.ctrl, c.value.pid), 1)) else None
  }

  function ProcLatSumOf(p: Run, e: Event): Option<((int, int), nat)> {
    var c := Finished(p, e);
    if c.Some? && c.value.pid != 0 then Some(((e.done.ctrl, c.value.pid), Latency(c.value, e))) else None
  }

  // Errors.

  function Sct(status: nat): nat { status / 0x100 % 8 }

  function Sc(status: nat): nat { status % 0x100 }

  predicate IsError(e: Event) { e.Complete? && e.done.status != 0 }

  function ErrCountOf(p: Run, e: Event): Option<((int, int, int), nat)> {
    if IsError(e) then Some(((e.done.ctrl, Sct(e.done.status), Sc(e.done.status)), 1)) else None
  }

  /** Error completions of a controller since the last tick. */
  function ErrorsInTick(h: Run, ctrl: int): nat {
    match h
    case Attached => 0
    case Next(p, e) =>
      if e.Tick? then 0 else ErrorsInTick(p, ctrl) + if IsError(e) && e.done.ctrl == ctrl then 1 else 0
  }

  // ---- the log ----

  /** One histogram as printed: rows from the smallest to the largest in use. */
  datatype HistBlock = HistBlock(ctrl: int, qid: int, rows: seq<(nat, nat)>)

  /** What one tick prints: every map entry once, in whatever order. */
  datatype Dump = Dump(
    two: map<MapName, seq<((int, int), nat)>>, three: map<MapName, seq<((int, int, int), nat)>>,
    latHist: seq<HistBlock>, procOps: seq<((int, int, string), nat)>, thrOps: seq<((int, int, int, string), nat)>)

  /** The rows of a block are those of its queue's histogram, without gaps. */
  ghost predicate BlockOf(b: HistBlock, hist: map<(int, int, nat), nat>) {
    && |b.rows| > 0
    && (forall i :: 0 <= i < |b.rows| ==>
          b.rows[i] == (b.rows[0].0 + i, Get(hist, (b.ctrl, b.qid, b.rows[0].0 + i))))
    && (forall r :: (b.ctrl, b.qid, r) in hist ==> b.rows[0].0 <= r < b.rows[0].0 + |b.rows|)
    && b.rows[0].1 > 0 && b.rows[|b.rows| - 1].1 > 0
  }

  /** One block for every queue that has a histogram. */
  ghost predicate ListsHist(blocks: seq<HistBlock>, hist: map<(int, int, nat), nat>) {
    && (forall i, j :: 0 <= i < j < |blocks| ==> (blocks[i].ctrl, blocks[i].qid) != (blocks[j].ctrl, blocks[j].qid))
    && (forall b :: b in blocks ==> BlockOf(b, hist))
    && (forall k :: k in hist ==> exists b :: b in blocks && b.ctrl == k.0 && b.qid == k.1)
  }

  /** The printed entries of a map with two integer keys, and with three. */
  function Entries2(d: Dump, n: MapName): seq<((int, int), nat)> { if n in d.two then d.two[n] else [] }

  function Entries3(d: Dump, n: MapName): seq<((int, int, int), nat)> { if n in d.three then d.three[n] else [] }

  /** The map itself, after a run. */
  function Map2(h: Run, n: MapName): map<(int, int), nat> {
    match n
    case OpCount => InTick(h, LatCountOf)
    case ReadCount => InTick(h, ReadCountOf)
    case WriteCount => InTick(h, WriteCountOf)
    case BytesSum => InTick(h, BytesSumOf)
    case LatSum => InTick(h, LatSumOf)
    case LatCount => InTick(h, LatCountOf)
    case ProcBytes => InTick(h, ProcBytesOf)
    case ProcRd => InTick(h, ProcRdOf)
    case ProcWr => InTick(h, ProcWrOf)
    case ProcLatSum => InTick(h, ProcLatSumOf)
    case ProcLatCnt => InTick(h, ProcLatCntOf)
    case ProcSeq => InTick(h, ProcSeqOf)
    case ProcRand => InTick(h, ProcRandOf)
    case _ => map[]
  }

  /** The error counts are never cleared. */
  function Map3(h: Run, n: MapName): map<(int, int, int), nat> {
    match n
    case ProcBs => InTick(h, ProcBsOf)
    case ProcQ => InTick(h, ProcQOf)
    case ErrCount => Ever(h, ErrCountOf)
    case _ => map[]
  }

  /** The dump prints the maps as they stand after `h`. */
  ghost predicate IsDump(d: Dump, h: Run) {
    && (forall n :: Lists(Entries2(d, n), Map2(h, n)))
    && (forall n :: Lists(Entries3(d, n), Map3(h, n)))
    && ListsHist(d.latHist, InTick(h, LatHistOf))
    && Lists(d.procOps, InTick(h, ProcOpsOf))
    && Lists(d.thrOps, InTick(h, ThrOpsOf))
  }

  /** The ERROR_EVENT line for a completion after `p`; zeros where nothing is cached. */
  function ErrorLine(p: Run, d: Completion): Line {
    var slot := SlotOf(DoneKey(d));
    var s := d.status;
    var seen := slot in Cache(p);
    ErrorEvent(ErrorReport(
      d.now, d.ctrl, d.qid, d.cid, slot.2,
      if seen then Cache(p)[slot].opcode else 0,
      if seen then Cache(p)[slot].nsid else 0,
      s, Sct(s), Sc(s), s / 0x4000 % 2, s / 0x2000 % 2, s / 0x800 % 4,
      if seen then Slba(Cache(p)[slot].cdw) else 0,
      if seen then Nlb(Cache(p)[slot].cdw) + 1 else 1,
      d.retries,
      if seen then 1 else 0,
      if seen && Cache(p)[slot].time <= d.now then d.now - Cache(p)[slot].time else 0))
  }

  /** The TIMEOUT_EVENT line. */
  function TimeoutLine(p: Run, ctrl: int, qid: int, tag: nat, now: nat): Line {
    var slot := (ctrl, qid, tag);
    if slot in Cache(p) then
      var c := Cache(p)[slot];
      TimeoutEvent(TimeoutReport(now, ctrl, qid, tag, c.opcode, c.nsid, c.flags,
        [Word(c.cdw, 0), Word(c.cdw, 1), Word(c.cdw, 2), Word(c.cdw, 3), Word(c.cdw, 4), Word(c.cdw, 5)],
        if c.time <= now then now - c.time else 0))
    else
      TimeoutEvent(TimeoutReport(now, ctrl, qid, tag, 0, 0, 0, [0, 0, 0, 0, 0, 0], 0))
  }

  const ERROR_BUDGET := 50

  // ---- rendering ----

  /** The lines of one printed map, and the blank line bpftrace puts after it. */
  function Lines<K>(s: seq<(K, nat)>, line: (K, nat) -> Line): seq<Line> {
    if s == [] then [Other] else [line(s[0].0, s[0].1)] + Lines(s[1..], line)
  }

  function Row2(name: MapName): ((int, int), nat) -> Line {
    (k: (int, int), v: nat) => Scalar2(name, k.0, k.1, v)
  }

  function Row3(name: MapName): ((int, int, int), nat) -> Line {
    (k: (int, int, int), v: nat) => Scalar3(name, k.0, k.1, k.2, v)
  }

  function RowOps(k: (int, int, string), v: nat): Line { ProcOps(k.0, k.1, k.2, v) }

  function RowThr(k: (int, int, int, string), v: nat): Line { ThrOps(k.0, k.1, k.2, k.3, v) }

  function Power(n: nat): nat { if n == 0 then 1 else 2 * Power(n - 1) }

  /** The first row whose upper bound, two to the fortieth, is printed with a suffix above G. */
  const WIDE_ROW := 40

  /** Rows 0 and 1 hold a single value and are printed `[0]` and `[1]`; the bounds of wide rows
      have a suffix the host's pattern does not know. */
  function HistLine(row: (nat, nat)): Line {
    if row.0 < 2 then PointRow(row.0, row.1)
    else if row.0 < WIDE_ROW then BucketRow(Power(row.0 - 1), Power(row.0), row.1)
    else WideRow(Power(row.0 - 1), Power(row.0), row.1)
  }

  function RowLines(rows: seq<(nat, nat)>): seq<Line> {
    if rows == [] then [] else [HistLine(rows[0])] + RowLines(rows[1..])
  }

  function BlockLines(b: HistBlock): seq<Line> { [HistKey(b.ctrl, b.qid)] + RowLines(b.rows) + [Other] }

  function HistLines(blocks: seq<HistBlock>): seq<Line> {
    if blocks == [] then [] else BlockLines(blocks[0]) + HistLines(blocks[1..])
  }

  /** One printed map. */
  function Block(d: Dump, n: MapName): seq<Line> {
    match n
    case LatHist => HistLines(d.latHist)
    case OpsByProcess => Lines(d.procOps, RowOps)
    case OpsByThread => Lines(d.thrOps, RowThr)
    case ProcBs => Lines(Entries3(d, n), Row3(n))
    case ProcQ => Lines(Entries3(d, n), Row3(n))
    case ErrCount => Lines(Entries3(d, n), Row3(n))
    case _ => Lines(Entries2(d, n), Row2(n))
  }

  function Blocks(d: Dump, names: seq<MapName>): seq<Line> {
    if names == [] then [] else Block(d, names[0]) + Blocks(d, names[1..])
  }

  const PRINT_ORDER: seq<MapName> :=
    [OpCount, ReadCount, WriteCount, BytesSum, LatSum, LatCount, LatHist, ErrCount, OpsByProcess, ProcBytes, ProcRd,
     ProcWr, ProcBs, ProcQ, ProcLatSum, ProcLatCnt, ProcSeq, ProcRand, OpsByThread]

  function Render(d: Dump): seq<Line> { Blocks(d, PRINT_ORDER) }

  lemma EveryMapPrinted(n: MapName)
    ensures n in PRINT_ORDER
  {
    var o := PRINT_ORDER;
    match n
    case OpCount => assert o[0] == n;
    case ReadCount => assert o[1] == n;
    case WriteCount => assert o[2] == n;
    case BytesSum => assert o[3] == n;
    case LatSum => assert o[4] == n;
    case LatCount => assert o[5] == n;
    case LatHist => assert o[6] == n;
    case ErrCount => assert o[7] == n;
    case OpsByProcess => assert o[8] == n;
    case ProcBytes => assert o[9] == n;
    case ProcRd => assert o[10] == n;
    case ProcWr => assert o[11] == n;
    case ProcBs => assert o[12] == n;
    case ProcQ => assert o[13] == n;
    case ProcLatSum => assert o[14] == n;
    case ProcLatCnt => assert o[15] == n;
    case ProcSeq => assert o[16] == n;
    case ProcRand => assert o[17] == n;
    case OpsByThread => assert o[18] == n;
  }

  /** Error details stop at the budget. */
  function ErrorLines(p: Run, d: Completion): seq<Line> {
    if d.status != 0 && ErrorsInTick(p, d.ctrl) < ERROR_BUDGET then [ErrorLine(p, d)] else []
  }

  /** What the collector writes for one event. */
  function Emit(p: Run, e: Event): seq<Line> {
    match e
    case Submit(_) => []
    case Complete(d) => ErrorLines(p, d)
    case Timeout(ctrl, qid, tag, now) => [TimeoutLine(p, ctrl, qid, tag, now)]
    case Tick(d) => Render(d) + [TickMark]
  }

  /** The whole log, beginning with the attach message. */
  function Output(h: Run): seq<Line> {
    match h
    case Attached => [Other]
    case Next(p, e) => Output(p) + Emit(p, e)
  }

  // ---- legal runs ----

  /** Commands of the `unseen` ones, in flight before the collector attached, still there. */
  function Unseen(h: Run, unseen: set<CmdKey>): set<CmdKey> {
    match h
    case Attached => unseen
    case Next(p, Complete(d)) => Unseen(p, unseen) - {DoneKey(d)}
    case Next(p, _) => Unseen(p, unseen)
  }

  function InFlight(h: Run, unseen: set<CmdKey>): set<CmdKey> { Pending(h).Keys + Unseen(h, unseen) }

  /** blk-mq's tag is the low 12 bits of the command id. */
  predicate SameTag(k: CmdKey, l: CmdKey) { k.0 == l.0 && k.1 == l.1 && k.2 % 0x1000 == l.2 % 0x1000 }

  ghost predicate DistinctSlots(keys: set<CmdKey>) {
    forall k, l :: k in keys && l in keys && SameTag(k, l) ==> k == l
  }

  predicate InTime(h: Run, now: nat) { now > 0 && now >= Clock(h) }

  /** Time stamps are positive and do not go back. */
  predicate Timed(h: Run) {
    match h
    case Attached => true
    case Next(p, Submit(c)) => Timed(p) && InTime(p, c.time)
    case Next(p, Complete(d)) => Timed(p) && InTime(p, d.now)
    case Next(p, Timeout(_, _, _, now)) => Timed(p) && InTime(p, now)
    case Next(p, Tick(_)) => Timed(p)
  }

  /** The event can happen next: blk-mq does not reuse a tag before its completion, and only
      commands in flight complete. */
  ghost predicate CanHappen(h: Run, unseen: set<CmdKey>, e: Event) {
    match e
    case Submit(c) => forall k :: k in InFlight(h, unseen) ==> !SameTag(k, (c.ctrl, c.qid, c.cid))
    case Complete(d) => (d.ctrl, d.qid, d.cid) in InFlight(h, unseen)
    case _ => true
  }

  ghost predicate Tagged(h: Run, unseen: set<CmdKey>) {
    match h
    case Attached => DistinctSlots(unseen)
    case Next(p, e) => Tagged(p, unseen) && CanHappen(p, unseen, e)
  }

  /** What the kernel guarantees of a run, given what was in flight at the attach. */
  ghost predicate Legal(h: Run, unseen: set<CmdKey>) { Timed(h) && Tagged(h, unseen) }

  lemma {:induction false} StampedInPast(h: Run)
    requires Timed(h)
    ensures forall k :: k in Pending(h) ==> 0 < Pending(h)[k].time <= Clock(h)
    ensures forall s :: s in Cache(h) ==> 0 < Cache(h)[s].time <= Clock(h)
  {
    if h.Next? {
      StampedInPast(h.before);
    }
  }

  /** Every tick printed the maps of its moment. */
  ghost predicate Printed(h: Run) {
    match h
    case Attached => true
    case Next(p, e) => Printed(p) && (e.Tick? ==> IsDump(e.dump, p))
  }

  // ---- the caches follow the commands in flight ----

  /** Seen and unseen commands never share a queue slot. */
  lemma {:induction false} SlotsStayDistinct(h: Run, unseen: set<CmdKey>)
    requires Tagged(h, unseen)
    ensures DistinctSlots(InFlight(h, unseen))
    ensures Pending(h).Keys !! Unseen(h, unseen)
  {
    if h.Next? {
      SlotsStayDistinct(h.before, unseen);
    }
  }

  lemma {:induction false} PendingKeyed(h: Run)
    ensures forall k :: k in Pending(h) ==> KeyOf(Pending(h)[k]) == k
  {
    if h.Next? {
      PendingKeyed(h.before);
    }
  }

  /** The slot cache holds exactly the pending commands. */
  lemma {:induction false} CacheIsPending(h: Run, unseen: set<CmdKey>)
    requires Tagged(h, unseen)
    ensures forall k :: k in Pending(h) ==> SlotOf(k) in Cache(h) && Cache(h)[SlotOf(k)] == Pending(h)[k]
    ensures forall s :: s in Cache(h) ==> SlotOf(KeyOf(Cache(h)[s])) == s && KeyOf(Cache(h)[s]) in Pending(h)
  {
    if h.Next? {
      CacheIsPending(h.before, unseen);
      SlotsStayDistinct(h.before, unseen);
      PendingKeyed(h.before);
    }
  }

  /** Between `from` and `h`, nothing completed the command or reused its id. */
  ghost predicate Untouched(h: Run, from: Run, k: CmdKey) {
    h == from ||
    (h.Next? && Untouched(h.before, from, k) &&
     match h.event
     case Submit(c) => KeyOf(c) != k
     case Complete(d) => DoneKey(d) != k
     case _ => true)
  }

  /** A pending command is the one submitted at some point of the run and not completed,
      nor its id submitted again, after that. */
  lemma {:induction false} PendingWasSubmitted(h: Run, k: CmdKey) returns (p: Run)
    requires k in Pending(h)
    ensures Untouched(h, Next(p, Submit(Pending(h)[k])), k) && KeyOf(Pending(h)[k]) == k
  {
    if h.event.Submit? && KeyOf(h.event.cmd) == k {
      p := h.before;
    } else {
      p := PendingWasSubmitted(h.before, k);
    }
  }

  /** And a submission nothing has touched since is pending, as that command. */
  lemma {:induction false} UntouchedIsPending(h: Run, p: Run, c: Command)
    requires Untouched(h, Next(p, Submit(c)), KeyOf(c))
    ensures KeyOf(c) in Pending(h) && Pending(h)[KeyOf(c)] == c
  {
    if h != Next(p, Submit(c)) {
      UntouchedIsPending(h.before, p, c);
    }
  }

  /** The status of a completion, split into its fields. */
  lemma StatusFields(h: Run, d: Completion)
    ensures var r := ErrorLine(h, d).error;
            && d.status % 0x8000 == r.sc + 0x100 * r.sct + 0x800 * r.crd + 0x2000 * r.more + 0x4000 * r.dnr
            && r.sc < 0x100 && r.sct < 8 && r.crd < 4 && r.more < 2 && r.dnr < 2
  {
    Digits(d.status);
  }

  lemma Digits(s: nat)
    ensures s % 0x8000 ==
            s % 0x100 + 0x100 * (s / 0x100 % 8) + 0x800 * (s / 0x800 % 4) + 0x2000 * (s / 0x2000 % 2) + 0x4000 * (s / 0x4000 % 2)
  {
    assert s / 0x100 / 8 == s / 0x800;
    assert s / 0x800 / 4 == s / 0x2000;
    assert s / 0x2000 / 2 == s / 0x4000;
    assert s / 0x4000 / 2 == s / 0x8000;
  }

  /** An error report says it is cached exactly when its command was seen at submission, and then its
      fields are those of that same command; otherwise they are zero and the block count one. The
      other fields are those of the completion. */
  lemma ErrorReportExact(h: Run, unseen: set<CmdKey>, d: Completion)
    requires Legal(Next(h, Complete(d)), unseen)
    ensures var r := ErrorLine(h, d).error;
            && r.ts == d.now && r.ctrl == d.ctrl && r.qid == d.qid && r.cid == d.cid && r.tag == d.cid % 0x1000
            && r.status == d.status && r.retries == d.retries
            && match Outstanding(h, d.ctrl, d.qid, d.cid)
               case Some(c) => ReportsSeen(r, c)
               case None => ReportsUnseen(r) && (d.ctrl, d.qid, d.cid) in Unseen(h, unseen)
  {
    CacheIsPending(h, unseen);
    SlotsStayDistinct(h, unseen);
    PendingKeyed(h);
    StampedInPast(h);
    PendingIsOutstanding(h, d.ctrl, d.qid, d.cid);
    var slot := SlotOf(DoneKey(d));
    if slot in Cache(h) {
      FieldsOf(Cache(h)[slot]);
      assert SlotOf(KeyOf(Cache(h)[slot])) == slot;
      assert KeyOf(Cache(h)[slot]) in InFlight(h, unseen);
    }
  }

  /** The fields of the command that failed. */
  ghost predicate ReportsSeen(r: ErrorReport, c: Command) {
    && r.cached == 1 && r.opcode == c.opcode && r.nsid == c.nsid && r.slba == StartLba(c) && r.nlb == BlockCount(c)
    && r.ts == c.time + r.elapsed
  }

  ghost predicate ReportsUnseen(r: ErrorReport) {
    r.cached == 0 && r.opcode == 0 && r.nsid == 0 && r.slba == 0 && r.nlb == 1 && r.elapsed == 0
  }

  /** All fields of the report are those of the command. */
  ghost predicate ReportsCommand(r: TimeoutReport, c: Command) {
    && r.opcode == c.opcode && r.nsid == c.nsid && r.flags == c.flags && r.ts == c.time + r.elapsed
    && r.cdw == [Dword(c, 0), Dword(c, 1), Dword(c, 2), Dword(c, 3), Dword(c, 4), Dword(c, 5)]
  }

  ghost predicate ReportsNothing(r: TimeoutReport) {
    r.opcode == 0 && r.nsid == 0 && r.flags == 0 && r.elapsed == 0 && r.cdw == [0, 0, 0, 0, 0, 0]
  }

  /** Command `c` is in flight with this tag. */
  ghost predicate HasTag(h: Run, c: Command, ctrl: int, qid: int, tag: nat) {
    c.ctrl == ctrl && c.qid == qid && c.cid % 0x1000 == tag && Outstanding(h, ctrl, qid, c.cid) == Some(c)
  }

  /** A timeout report carries the fields of the one command in flight with that tag, if its
      submission was seen, and zeros otherwise. */
  lemma TimeoutReportExact(h: Run, unseen: set<CmdKey>, ctrl: int, qid: int, tag: nat, now: nat)
    requires Legal(Next(h, Timeout(ctrl, qid, tag, now)), unseen)
    ensures var r := TimeoutLine(h, ctrl, qid, tag, now).timeout;
            && r.ts == now && r.ctrl == ctrl && r.qid == qid && r.tag == tag
            && (forall c :: HasTag(h, c, ctrl, qid, tag) ==> ReportsCommand(r, c))
            && ((forall c :: !HasTag(h, c, ctrl, qid, tag)) ==> ReportsNothing(r))
    ensures forall b, c :: HasTag(h, b, ctrl, qid, tag) && HasTag(h, c, ctrl, qid, tag) ==> b == c
  {
    CacheIsPending(h, unseen);
    StampedInPast(h);
    var slot := (ctrl, qid, tag);
    forall c | HasTag(h, c, ctrl, qid, tag)
      ensures slot in Cache(h) && Cache(h)[slot] == c
    {
      PendingIsOutstanding(h, ctrl, qid, c.cid);
      assert SlotOf((ctrl, qid, c.cid)) == slot;
    }
    if slot in Cache(h) {
      var c := Cache(h)[slot];
      PendingKeyed(h);
      PendingIsOutstanding(h, c.ctrl, c.qid, c.cid);
      assert SlotOf(KeyOf(c)) == slot && HasTag(h, c, ctrl, qid, tag);
      AllWords(c);
    }
  }

  lemma AllWords(c: Command)
    ensures [Word(c.cdw, 0), Word(c.cdw, 1), Word(c.cdw, 2), Word(c.cdw, 3), Word(c.cdw, 4), Word(c.cdw, 5)]
         == [Dword(c, 0), Dword(c, 1), Dword(c, 2), Dword(c, 3), Dword(c, 4), Dword(c, 5)]
  {
    WordsOf(c, 0);
    WordsOf(c, 1);
    WordsOf(c, 2);
    WordsOf(c, 3);
    WordsOf(c, 4);
    WordsOf(c, 5);
  }
}
