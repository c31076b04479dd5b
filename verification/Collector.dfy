/** The bpftrace collector (ebpf/nvme_perf.bt): one object that holds the `@` maps, one
    method per probe. Every map is tied to what the run so far says it must hold. */
module Collector {
  import opened Common
  import opened Tables
  import opened LogLines
  import opened History

  // ---- the maps, grouped by what they are for ----

  /** `@start`, `@cmd_tgid` by command id and the `@to_*` maps by queue slot. */
  datatype Flight = Flight(
    start: map<CmdKey, nat>, cmdTgid: map<CmdKey, nat>,
    toTs: map<Slot, nat>, toOpcode: map<Slot, nat>, toNsid: map<Slot, nat>, toFlags: map<Slot, nat>,
    toCdw10: map<Slot, nat>, toCdw11: map<Slot, nat>, toCdw12: map<Slot, nat>,
    toCdw13: map<Slot, nat>, toCdw14: map<Slot, nat>, toCdw15: map<Slot, nat>)

  datatype Queues = Queues(
    readCount: map<(int, int), nat>, writeCount: map<(int, int), nat>, bytesSum: map<(int, int), nat>)

  datatype Latencies = Latencies(
    opCount: map<(int, int), nat>, latSum: map<(int, int), nat>, latCount: map<(int, int), nat>,
    latHist: map<(int, int, nat), nat>, procLatSum: map<(int, int), nat>, procLatCnt: map<(int, int), nat>)

  datatype Processes = Processes(
    procOps: map<(int, int, string), nat>, thrOps: map<(int, int, int, string), nat>, procQ: map<(int, int, int), nat>,
    procBytes: map<(int, int), nat>, procBs: map<(int, int, int), nat>,
    procRd: map<(int, int), nat>, procWr: map<(int, int), nat>)

  datatype Patterns = Patterns(
    procSeq: map<(int, int), nat>, procRand: map<(int, int), nat>, lastLbaEnd: map<(int, int), nat>)

  // ---- what they hold after a run ----

  const NoFlight := Flight(map[], map[], map[], map[], map[], map[], map[], map[], map[], map[], map[], map[])

  /** A completion forgets the command, a submission remembers it. */
  function FlightAfter(h: Run): Flight {
    match h
    case Attached => NoFlight
    case Next(p, Submit(c)) => Remember(FlightAfter(p), c)
    case Next(p, Complete(d)) => Forget(FlightAfter(p), DoneKey(d))
    case Next(p, _) => FlightAfter(p)
  }

  function Remember(m: Flight, c: Command): Flight {
    var k, s := KeyOf(c), SlotOf(KeyOf(c));
    Flight(m.start[k := c.time], m.cmdTgid[k := c.pid],
      m.toTs[s := c.time], m.toOpcode[s := c.opcode], m.toNsid[s := c.nsid], m.toFlags[s := c.flags],
      m.toCdw10[s := Word(c.cdw, 0)], m.toCdw11[s := Word(c.cdw, 1)], m.toCdw12[s := Word(c.cdw, 2)],
      m.toCdw13[s := Word(c.cdw, 3)], m.toCdw14[s := Word(c.cdw, 4)], m.toCdw15[s := Word(c.cdw, 5)])
  }

  function Forget(m: Flight, k: CmdKey): Flight {
    var s := SlotOf(k);
    Flight(m.start - {k}, m.cmdTgid - {k},
      m.toTs - {s}, m.toOpcode - {s}, m.toNsid - {s}, m.toFlags - {s},
      m.toCdw10 - {s}, m.toCdw11 - {s}, m.toCdw12 - {s}, m.toCdw13 - {s}, m.toCdw14 - {s}, m.toCdw15 - {s})
  }

  function QueuesAfter(h: Run): Queues {
    Queues(InTick(h, ReadCountOf), InTick(h, WriteCountOf), InTick(h, BytesSumOf))
  }

  function LatenciesAfter(h: Run): Latencies {
    Latencies(InTick(h, LatCountOf), InTick(h, LatSumOf), InTick(h, LatCountOf), InTick(h, LatHistOf),
      InTick(h, ProcLatSumOf), InTick(h, ProcLatCntOf))
  }

  function ProcessesAfter(h: Run): Processes {
    Processes(InTick(h, ProcOpsOf), InTick(h, ThrOpsOf), InTick(h, ProcQOf), InTick(h, ProcBytesOf), InTick(h, ProcBsOf),
      InTick(h, ProcRdOf), InTick(h, ProcWrOf))
  }

  function PatternsAfter(h: Run): Patterns {
    Patterns(InTick(h, ProcSeqOf), InTick(h, ProcRandOf), LastEnd(h))
  }

  /** The command maps hold exactly the pending commands. */
  lemma {:induction false} FlightIsPending(h: Run, k: CmdKey)
    ensures var m := FlightAfter(h);
            && (k in m.start <==> k in Pending(h)) && (k in m.cmdTgid <==> k in Pending(h))
            && (k in Pending(h) ==> m.start[k] == Pending(h)[k].time && m.cmdTgid[k] == Pending(h)[k].pid)
  {
    if h.Next? {
      FlightIsPending(h.before, k);
    }
  }

  /** One slot of the ten `@to_*` maps. */
  ghost predicate Holds(m: Flight, s: Slot, c: Command) {
    && s in m.toTs && m.toTs[s] == c.time && s in m.toOpcode && m.toOpcode[s] == c.opcode
    && s in m.toNsid && m.toNsid[s] == c.nsid && s in m.toFlags && m.toFlags[s] == c.flags
    && s in m.toCdw10 && m.toCdw10[s] == Word(c.cdw, 0) && s in m.toCdw11 && m.toCdw11[s] == Word(c.cdw, 1)
    && s in m.toCdw12 && m.toCdw12[s] == Word(c.cdw, 2) && s in m.toCdw13 && m.toCdw13[s] == Word(c.cdw, 3)
    && s in m.toCdw14 && m.toCdw14[s] == Word(c.cdw, 4) && s in m.toCdw15 && m.toCdw15[s] == Word(c.cdw, 5)
  }

  ghost predicate Vacant(m: Flight, s: Slot) {
    && s !in m.toTs && s !in m.toOpcode && s !in m.toNsid && s !in m.toFlags
    && s !in m.toCdw10 && s !in m.toCdw11 && s !in m.toCdw12 && s !in m.toCdw13 && s !in m.toCdw14 && s !in m.toCdw15
  }

  ghost predicate SlotIs(m: Flight, s: Slot, c: Option<Command>) { if c.Some? then Holds(m, s, c.value) else Vacant(m, s) }

  function Cached(h: Run, s: Slot): Option<Command> { if s in Cache(h) then Some(Cache(h)[s]) else None }

  lemma RememberSlot(m: Flight, c: Command, s: Slot, was: Option<Command>)
    requires SlotIs(m, s, was)
    ensures SlotIs(Remember(m, c), s, if s == SlotOf(KeyOf(c)) then Some(c) else was)
  {
  }

  lemma ForgetSlot(m: Flight, k: CmdKey, s: Slot, was: Option<Command>)
    requires SlotIs(m, s, was)
    ensures SlotIs(Forget(m, k), s, if s == SlotOf(k) then None else was)
  {
  }

  /** The slot maps hold exactly the cached commands, all ten in step. */
  lemma {:induction false} FlightIsCache(h: Run, s: Slot)
    ensures if s in Cache(h) then Holds(FlightAfter(h), s, Cache(h)[s]) else Vacant(FlightAfter(h), s)
  {
    if h.Next? {
      FlightIsCache(h.before, s);
      var was := Cached(h.before, s);
      match h.event
      case Submit(c) => RememberSlot(FlightAfter(h.before), c, s, was);
      case Complete(d) => ForgetSlot(FlightAfter(h.before), DoneKey(d), s, was);
      case _ =>
    }
  }

  // ---- what each probe does to them ----

  /** `tracepoint:nvme:nvme_setup_cmd`, queue counters. */
  function CountQueue(m: Queues, c: Command): Queues {
    var nlb := 0x100 * c.cdw[9] as int + c.cdw[8] as int;
    var q := (c.ctrl, c.qid);
    Queues(
      if c.opcode == 2 then Bump(m.readCount, q, 1) else m.readCount,
      if c.opcode == 1 then Bump(m.writeCount, q, 1) else m.writeCount,
      if c.opcode == 1 || c.opcode == 2 then Bump(m.bytesSum, q, (nlb + 1) * 512) else m.bytesSum)
  }

  /** The same, process and thread counters. */
  function CountProcess(m: Processes, c: Command): Processes {
    var who := (c.ctrl, c.pid);
    var rw := c.opcode == 1 || c.opcode == 2;
    var bytes := (Nlb(c.cdw) + 1) * 512;
    Processes(
      Bump(m.procOps, (c.ctrl, c.pid, c.comm), 1),
      Bump(m.thrOps, (c.ctrl, c.pid, c.tid, c.comm), 1),
      Bump(m.procQ, (c.ctrl, c.pid, c.qid), 1),
      if rw then Bump(m.procBytes, who, bytes) else m.procBytes,
      if rw then Bump(m.procBs, (c.ctrl, c.pid, bytes), 1) else m.procBs,
      if c.opcode == 2 then Bump(m.procRd, who, 1) else m.procRd,
      if c.opcode == 1 then Bump(m.procWr, who, 1) else m.procWr)
  }

  /** The same, sequential against random. */
  function CountPattern(m: Patterns, c: Command): Patterns {
    var who := (c.ctrl, c.pid);
    if !(c.opcode == 1 || c.opcode == 2) then m
    else
      var slba := Slba(c.cdw);
      var prevEnd := Get(m.lastLbaEnd, who);
      var continues := prevEnd != 0 && slba == prevEnd;
      Patterns(
        if continues then Bump(m.procSeq, who, 1) else m.procSeq,
        if continues then m.procRand else Bump(m.procRand, who, 1),
        m.lastLbaEnd[who := slba + Nlb(c.cdw) + 1])
  }

  /** `tracepoint:nvme:nvme_complete_rq`, latencies of a command seen at submission. */
  function CountLatency(m: Latencies, flight: Flight, d: Completion): Latencies {
    var key := DoneKey(d);
    var t0 := Get(flight.start, key);
    if t0 == 0 then m
    else
      var lat, q := if d.now >= t0 then d.now - t0 else 0, (d.ctrl, d.qid);
      var otgid := Get(flight.cmdTgid, key);
      Latencies(
        Bump(m.opCount, q, 1), Bump(m.latSum, q, lat), Bump(m.latCount, q, 1),
        Bump(m.latHist, (d.ctrl, d.qid, HistRow(lat)), 1),
        if otgid != 0 then Bump(m.procLatSum, (d.ctrl, otgid), lat) else m.procLatSum,
        if otgid != 0 then Bump(m.procLatCnt, (d.ctrl, otgid), 1) else m.procLatCnt)
  }

  lemma QueuesNext(h: Run, c: Command)
    ensures QueuesAfter(Next(h, Submit(c))) == CountQueue(QueuesAfter(h), c)
  {
    NlbOfBytes(c.cdw);
  }

  lemma ProcessesNext(h: Run, c: Command)
    ensures ProcessesAfter(Next(h, Submit(c))) == CountProcess(ProcessesAfter(h), c)
  {
  }

  lemma PatternsNext(h: Run, c: Command)
    ensures PatternsAfter(Next(h, Submit(c))) == CountPattern(PatternsAfter(h), c)
  {
  }

  lemma LatenciesNext(h: Run, d: Completion)
    requires Timed(Next(h, Complete(d)))
    ensures LatenciesAfter(Next(h, Complete(d))) == CountLatency(LatenciesAfter(h), FlightAfter(h), d)
  {
    FlightIsPending(h, DoneKey(d));
    StampedInPast(h);
    if DoneKey(d) in Pending(h) {
      LatenciesSeen(h, d, Pending(h)[DoneKey(d)]);
    } else {
      LatenciesUnseen(h, d);
    }
  }

  lemma LatenciesUnseen(h: Run, d: Completion)
    requires DoneKey(d) !in Pending(h)
    ensures LatenciesAfter(Next(h, Complete(d))) == LatenciesAfter(h)
  {
  }

  lemma LatenciesSeen(h: Run, d: Completion, c: Command)
    requires DoneKey(d) in Pending(h) && c == Pending(h)[DoneKey(d)]
    ensures var lat, q, m := Latency(c, Complete(d)), (d.ctrl, d.qid), LatenciesAfter(h);
            LatenciesAfter(Next(h, Complete(d))) == Latencies(
              Bump(m.opCount, q, 1), Bump(m.latSum, q, lat), Bump(m.latCount, q, 1),
              Bump(m.latHist, (d.ctrl, d.qid, HistRow(lat)), 1),
              if c.pid != 0 then Bump(m.procLatSum, (d.ctrl, c.pid), lat) else m.procLatSum,
              if c.pid != 0 then Bump(m.procLatCnt, (d.ctrl, c.pid), 1) else m.procLatCnt)
  {
  }

  /** Completions and timeouts leave the submission counters alone. */
  lemma SubmitMapsKept(h: Run, e: Event)
    requires e.Complete? || e.Timeout?
    ensures QueuesAfter(Next(h, e)) == QueuesAfter(h) && ProcessesAfter(Next(h, e)) == ProcessesAfter(h)
    ensures PatternsAfter(Next(h, e)) == PatternsAfter(h)
  {
  }

  /** Submissions and timeouts leave the completion counters alone. */
  lemma LatenciesKept(h: Run, e: Event)
    requires e.Submit? || e.Timeout?
    ensures LatenciesAfter(Next(h, e)) == LatenciesAfter(h)
  {
  }

  // ---- the collector ----

  datatype Maps = Maps(flight: Flight, queues: Queues, latencies: Latencies, procs: Processes, patterns: Patterns)

  function MapsAfter(h: Run): Maps {
    Maps(FlightAfter(h), QueuesAfter(h), LatenciesAfter(h), ProcessesAfter(h), PatternsAfter(h))
  }

  lemma MapsAfterSubmit(h: Run, c: Command)
    ensures var m := MapsAfter(h);
            MapsAfter(Next(h, Submit(c))) ==
            Maps(Remember(m.flight, c), CountQueue(m.queues, c), m.latencies,
                 CountProcess(m.procs, c), CountPattern(m.patterns, c))
  {
    QueuesNext(h, c);
    ProcessesNext(h, c);
    PatternsNext(h, c);
    LatenciesKept(h, Submit(c));
  }

  lemma MapsAfterComplete(h: Run, d: Completion)
    requires Timed(Next(h, Complete(d)))
    ensures var m := MapsAfter(h);
            MapsAfter(Next(h, Complete(d))) ==
            Maps(Forget(m.flight, DoneKey(d)), m.queues, CountLatency(m.latencies, m.flight, d), m.procs, m.patterns)
  {
    SubmitMapsKept(h, Complete(d));
    LatenciesNext(h, d);
  }

  lemma MapsAfterTimeout(h: Run, e: Event)
    requires e.Timeout?
    ensures MapsAfter(Next(h, e)) == MapsAfter(h)
  {
    SubmitMapsKept(h, e);
    LatenciesKept(h, e);
  }

  /** A tick clears the counters; commands in flight and last positions stay. */
  lemma MapsAfterTick(h: Run, d: Dump)
    ensures MapsAfter(Next(h, Tick(d))) ==
            Maps(FlightAfter(h), Queues(map[], map[], map[]), Latencies(map[], map[], map[], map[], map[], map[]),
                 Processes(map[], map[], map[], map[], map[], map[], map[]), Patterns(map[], map[], LastEnd(h)))
  {
  }

  function Capped(n: nat): nat { if n <= ERROR_BUDGET then n else ERROR_BUDGET }

  class Collector {
    var maps: Maps
    var errCount: map<(int, int, int), nat>
    var errBudget: map<int, nat>
    /** Standard output. */
    var out: seq<Line>
    /** The probes fired so far. */
    ghost var run: Run

    ghost predicate Valid()
      reads this
    {
      && Timed(run)
      && maps == MapsAfter(run)
      && errCount == Ever(run, ErrCountOf)
      && forall c :: Get(errBudget, c) == Capped(ErrorsInTick(run, c))
    }

    constructor ()
      ensures Valid() && run == Attached && out == Output(run)
    {
      maps := MapsAfter(Attached);
      errCount, errBudget := map[], map[];
      out := [Other];
      run := Attached;
    }

    /** `tracepoint:nvme:nvme_setup_cmd`. */
    method SetupCmd(c: Command)
      requires Valid() && InTime(run, c.time)
      modifies this
      ensures Valid() && run == Next(old(run), Submit(c))
      ensures out == old(out)
    {
      MapsAfterSubmit(run, c);
      maps := maps.(
        flight := Remember(maps.flight, c),
        queues := CountQueue(maps.queues, c),
        procs := CountProcess(maps.procs, c),
        patterns := CountPattern(maps.patterns, c));
      run := Next(run, Submit(c));
    }

    /** `tracepoint:nvme:nvme_complete_rq`: latencies, error capture, then the caches. */
    method CompleteRq(d: Completion)
      requires Valid() && InTime(run, d.now)
      modifies this
      ensures Valid() && run == Next(old(run), Complete(d))
      ensures out == old(out) + ErrorLines(old(run), d)
    {
      MapsAfterComplete(run, d);
      maps := maps.(latencies := CountLatency(maps.latencies, maps.flight, d));
      if d.status != 0 {
        CaptureError(d);
      }
      maps := maps.(flight := Forget(maps.flight, DoneKey(d)));
      run := Next(run, Complete(d));
    }

    /** The error branch: details within the budget, the count in any case. */
    method CaptureError(d: Completion)
      requires maps.flight == FlightAfter(run) && Timed(run) && InTime(run, d.now) && d.status != 0
      requires errCount == Ever(run, ErrCountOf) && forall c :: Get(errBudget, c) == Capped(ErrorsInTick(run, c))
      modifies `errCount, `errBudget, `out
      ensures errCount == Ever(Next(run, Complete(d)), ErrCountOf)
      ensures forall c :: Get(errBudget, c) == Capped(ErrorsInTick(Next(run, Complete(d)), c))
      ensures out == old(out) + ErrorLines(run, d)
    {
      var sc := d.status % 0x100;
      var sct := d.status / 0x100 % 8;
      var budget := Get(errBudget, d.ctrl);
      if budget < ERROR_BUDGET {
        errBudget := errBudget[d.ctrl := budget + 1];
        var report := Report(d);
        out := out + [ErrorEvent(report)];
      }
      errCount := Bump(errCount, (d.ctrl, sct, sc), 1);
    }

    /** The ERROR_EVENT line, its fields read back from the `@to_*` maps. */
    method Report(d: Completion) returns (r: ErrorReport)
      requires maps.flight == FlightAfter(run) && Timed(run) && InTime(run, d.now)
      ensures ErrorEvent(r) == ErrorLine(run, d)
    {
      var tag := d.cid % 0x1000;
      var slot := (d.ctrl, d.qid, tag);
      FlightIsCache(run, slot);
      StampedInPast(run);
      if slot in Cache(run) {
        NlbOfWord(Cache(run)[slot].cdw);
        SlbaOfWords(Cache(run)[slot].cdw);
      }
      var s, m := d.status, maps.flight;
      var ets := Get(m.toTs, slot);
      var slba := 0x1_0000_0000 * Get(m.toCdw11, slot) + Get(m.toCdw10, slot);
      var nlb := Get(m.toCdw12, slot) % 0x1_0000 + 1;
      r := ErrorReport(
        d.now, d.ctrl, d.qid, d.cid, tag, Get(m.toOpcode, slot), Get(m.toNsid, slot),
        s, s / 0x100 % 8, s % 0x100, s / 0x4000 % 2, s / 0x2000 % 2, s / 0x800 % 4,
        slba, nlb, d.retries, if ets != 0 then 1 else 0, if ets != 0 then d.now - ets else 0);
    }

    /** `kprobe:nvme_timeout`. */
    method NvmeTimeout(ctrl: int, qid: int, tag: nat, now: nat)
      requires Valid() && InTime(run, now)
      modifies this
      ensures Valid() && run == Next(old(run), Timeout(ctrl, qid, tag, now))
      ensures out == old(out) + [TimeoutLine(old(run), ctrl, qid, tag, now)]
    {
      var report := TimeoutFields(ctrl, qid, tag, now);
      out := out + [TimeoutEvent(report)];
      MapsAfterTimeout(run, Timeout(ctrl, qid, tag, now));
      run := Next(run, Timeout(ctrl, qid, tag, now));
    }

    method TimeoutFields(ctrl: int, qid: int, tag: nat, now: nat) returns (r: TimeoutReport)
      requires maps.flight == FlightAfter(run) && Timed(run) && InTime(run, now)
      ensures TimeoutEvent(r) == TimeoutLine(run, ctrl, qid, tag, now)
    {
      var slot, m := (ctrl, qid, tag), maps.flight;
      FlightIsCache(run, slot);
      StampedInPast(run);
      var t0 := Get(m.toTs, slot);
      r := TimeoutReport(
        now, ctrl, qid, tag, Get(m.toOpcode, slot), Get(m.toNsid, slot), Get(m.toFlags, slot),
        [Get(m.toCdw10, slot), Get(m.toCdw11, slot), Get(m.toCdw12, slot),
         Get(m.toCdw13, slot), Get(m.toCdw14, slot), Get(m.toCdw15, slot)],
        if t0 != 0 then now - t0 else 0);
    }

    /** `interval:s:1`: print the maps, mark the tick, clear the counters. */
    method IntervalTick() returns (d: Dump)
      requires Valid()
      modifies this
      ensures Valid() && run == Next(old(run), Tick(d)) && IsDump(d, old(run))
      ensures out == old(out) + Render(d) + [TickMark]
    {
      d := PrintMaps();
      out := out + Render(d) + [TickMark];
      MapsAfterTick(run, d);
      maps := Maps(maps.flight, Queues(map[], map[], map[]), Latencies(map[], map[], map[], map[], map[], map[]),
        Processes(map[], map[], map[], map[], map[], map[], map[]), Patterns(map[], map[], maps.patterns.lastLbaEnd));
      errBudget := map[];
      run := Next(run, Tick(d));
    }

    /** `print` of a map with two integer keys. */
    method PrintTwo(n: MapName) returns (s: seq<((int, int), nat)>)
      requires maps == MapsAfter(run)
      ensures Lists(s, Map2(run, n))
    {
      match n
      case OpCount => s := Print(maps.latencies.opCount);
      case ReadCount => s := Print(maps.queues.readCount);
      case WriteCount => s := Print(maps.queues.writeCount);
      case BytesSum => s := Print(maps.queues.bytesSum);
      case LatSum => s := Print(maps.latencies.latSum);
      case LatCount => s := Print(maps.latencies.latCount);
      case ProcBytes => s := Print(maps.procs.procBytes);
      case ProcRd => s := Print(maps.procs.procRd);
      case ProcWr => s := Print(maps.procs.procWr);
      case ProcLatSum => s := Print(maps.latencies.procLatSum);
      case ProcLatCnt => s := Print(maps.latencies.procLatCnt);
      case ProcSeq => s := Print(maps.patterns.procSeq);
      case ProcRand => s := Print(maps.patterns.procRand);
      case _ => s := [];
    }

    method PrintThree(n: MapName) returns (s: seq<((int, int, int), nat)>)
      requires maps == MapsAfter(run) && errCount == Ever(run, ErrCountOf)
      ensures Lists(s, Map3(run, n))
    {
      match n
      case ProcBs => s := Print(maps.procs.procBs);
      case ProcQ => s := Print(maps.procs.procQ);
      case ErrCount => s := Print(errCount);
      case _ => s := [];
    }

    method PrintMaps() returns (d: Dump)
      requires Valid()
      ensures IsDump(d, run)
    {
      var two: map<MapName, seq<((int, int), nat)>> := map[];
      var three: map<MapName, seq<((int, int, int), nat)>> := map[];
      for i := 0 to |PRINT_ORDER|
        invariant forall n :: n in two ==> Lists(two[n], Map2(run, n))
        invariant forall n :: n in three ==> Lists(three[n], Map3(run, n))
        invariant forall j :: 0 <= j < i ==> PRINT_ORDER[j] in two && PRINT_ORDER[j] in three
      {
        var n := PRINT_ORDER[i];
        var s2 := PrintTwo(n);
        var s3 := PrintThree(n);
        two, three := two[n := s2], three[n := s3];
      }
      RowsPositive(run);
      var latHist := PrintHist(maps.latencies.latHist);
      var procOps := Print(maps.procs.procOps);
      var thrOps := Print(maps.procs.thrOps);
      d := Dump(two, three, latHist, procOps, thrOps);
      forall n: MapName
        ensures n in two && n in three
      {
        EveryMapPrinted(n);
      }
    }
  }

  lemma {:induction false} RowsPositive(h: Run)
    ensures forall k :: k in InTick(h, LatHistOf) ==> InTick(h, LatHistOf)[k] > 0
  {
    if h.Next? && !h.event.Tick? {
      RowsPositive(h.before);
      var c := LatHistOf(h.before, h.event);
      assert InTick(h, LatHistOf) == Apply(InTick(h.before, LatHistOf), c);
    }
  }

  /** `print` of a histogram map: per queue, the rows from the first to the last in use. */
  method PrintHist(hist: map<(int, int, nat), nat>) returns (blocks: seq<HistBlock>)
    requires forall k :: k in hist ==> hist[k] > 0
    ensures ListsHist(blocks, hist)
  {
    var all := set k | k in hist :: (k.0, k.1);
    var queues := Elements(all);
    blocks := [];
    for i := 0 to |queues|
      invariant |blocks| == i
      invariant forall j :: 0 <= j < i ==> (blocks[j].ctrl, blocks[j].qid) == queues[j] && BlockOf(blocks[j], hist)
    {
      var (c, q) := queues[i];
      assert queues[i] in all;
      var b := PrintBlock(hist, c, q);
      blocks := blocks + [b];
    }
    forall k | k in hist
      ensures exists b :: b in blocks && b.ctrl == k.0 && b.qid == k.1
    {
      assert (k.0, k.1) in all && (k.0, k.1) in queues;
      var i :| 0 <= i < |queues| && queues[i] == (k.0, k.1);
      assert blocks[i] in blocks;
    }
  }

  method PrintBlock(hist: map<(int, int, nat), nat>, c: int, q: int) returns (b: HistBlock)
    requires forall k :: k in hist ==> hist[k] > 0
    requires exists r :: (c, q, r) in hist
    ensures b.ctrl == c && b.qid == q && BlockOf(b, hist)
  {
    var rows := Elements(set k | k in hist && k.0 == c && k.1 == q :: k.2);
    ghost var some :| (c, q, some) in hist;
    assert some in rows;
    var lo, hi := Bounds(rows);
    b := HistBlock(c, q, RowsOf(hist, c, q, lo, hi - lo + 1));
    assert (c, q, lo) in hist && (c, q, hi) in hist;
    assert b.rows[|b.rows| - 1] == (hi, Get(hist, (c, q, hi)));
    forall r | (c, q, r) in hist
      ensures lo <= r < lo + |b.rows|
    {
      assert r in rows;
    }
  }

  function RowsOf(hist: map<(int, int, nat), nat>, c: int, q: int, lo: nat, n: nat): (rows: seq<(nat, nat)>)
    ensures |rows| == n && forall i :: 0 <= i < n ==> rows[i] == (lo + i, Get(hist, (c, q, lo + i)))
  {
    if n == 0 then [] else RowsOf(hist, c, q, lo, n - 1) + [(lo + n - 1, Get(hist, (c, q, lo + n - 1)))]
  }

  method Bounds(rows: seq<nat>) returns (lo: nat, hi: nat)
    requires rows != []
    ensures lo in rows && hi in rows && forall r :: r in rows ==> lo <= r <= hi
  {
    lo, hi := rows[0], rows[0];
    for i := 0 to |rows|
      invariant lo in rows && hi in rows && lo <= hi
      invariant forall j :: 0 <= j < i ==> lo <= rows[j] <= hi
    {
      if rows[i] < lo {
        lo := rows[i];
      }
      if rows[i] > hi {
        hi := rows[i];
      }
    }
  }
}
