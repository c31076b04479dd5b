/** From the block layer to the profile: what the collector, the log, the parser, the session
    registry and the attribution give together. In the log of any run, the numbers shown for
    a device, a session and a thread group are counts of the commands submitted in the last
    tick. */
module Pipeline {
  import opened Common
  import opened IoStats
  import opened LogLines
  import opened History
  import L = Ledger
  import opened Tables
  import opened Conservation
  import opened Counters
  import opened Recovery
  import opened PerfParser
  import opened ProcParser
  import opened ProcRecovery
  import S = StatRecovery
  import opened Adapters
  import opened Sessions
  import opened Refresh
  import opened Attribution

  /** The statistics `read_process_stats` returns for all devices after the run `h` printed `d`. */
  ghost predicate Measured(h: Run, d: Dump, keys: seq<(int, int)>, stats: seq<IoStat>) {
    IsDump(d, h) && StatsOf(stats, keys, ParseLines(Open(h) + Render(d)), None)
  }

  /** Reading the log of a run at any moment after a tick and before the next mark, with
      whatever event lines follow, gives the statistics of that tick. */
  lemma LogMeasures(h: Run, d: Dump, rest: seq<Line>, keys: seq<(int, int)>, stats: seq<IoStat>)
    requires IsDump(d, h) && TickMark !in rest
    requires StatsOf(stats, keys, ParseLines(TickText(Output(Next(h, Tick(d))) + rest)), None)
    ensures Measured(h, d, keys, stats)
  {
    TickFound(h, d, rest);
  }

  /** So does reading only the end of the log, when it holds two tick marks; a read that starts
      in the middle of a line sees some `fragment` of it. */
  lemma TailMeasures(h: Run, d: Dump, rest: seq<Line>, pre: seq<Line>, fragment: seq<Line>, tail: seq<Line>,
                     keys: seq<(int, int)>, stats: seq<IoStat>)
    requires IsDump(d, h) && TickMark !in rest
    requires Output(Next(h, Tick(d))) + rest == pre + tail && |Split(tail)| >= 3
    requires StatsOf(stats, keys, ParseLines(TickText(fragment + tail)), None)
    ensures Measured(h, d, keys, stats)
  {
    TickFound(h, d, rest);
    TailHasSameTick(pre, fragment, tail);
  }

  function ByObserved(c: int, pids: set<int>): ((int, int)) -> bool { (k: (int, int)) => k.0 == c && k.1 in pids }

  function ByOthers(c: int, pids: set<int>): ((int, int)) -> bool { (k: (int, int)) => k.0 == c && k.1 !in pids }

  function ByProcess(p: int): ((int, int)) -> bool { (k: (int, int)) => k.1 == p }

  function Elsewhere(pids: set<int>): ((int, int)) -> bool { (k: (int, int)) => k.1 !in pids }

  /** A device without an entry had no submissions, so the missing entry reads as zeros. */
  lemma EntryAttributes(s: State, stats: seq<IoStat>, pids: set<int>, devices: map<int, DeviceAttribution>, c: int)
    requires IsAttribution(s, stats, pids, devices)
    ensures Attributes(Entry(devices, c), s, pids, stats, c)
  {
    if c !in devices {
      forall i | 0 <= i < |stats|
        ensures stats[i].device != c
      {
        assert stats[i].device == c ==> Seen(stats, c);
      }
      NoEntry(s, pids, stats, c);
    }
  }

  /** What a device is told is exact: its total is the submissions of the tick to its
      controller, the attributed part those of the observed processes, and the rest the rest. */
  lemma DeviceExact(h: Run, d: Dump, keys: seq<(int, int)>, stats: seq<IoStat>, s: State, pids: set<int>,
                    devices: map<int, DeviceAttribution>, c: int)
    requires Measured(h, d, keys, stats) && IsAttribution(s, stats, pids, devices)
    ensures var a := Entry(devices, c);
            && a.total == SubmitsInTick(h, c) as real
            && a.attributed == Submissions(h, ByObserved(c, pids)) as real
            && a.unattributed == Submissions(h, ByOthers(c, pids)) as real
  {
    EntryAttributes(s, stats, pids, devices, c);
    StatsExact(h, d, keys, stats, None, On(c), Ctrl2(c));
    SubmitsOfCtrl(h, c);
    StatsExact(h, d, keys, stats, None, Observed(c, pids), ByObserved(c, pids));
    StatsExact(h, d, keys, stats, None, NotObserved(c, pids), ByOthers(c, pids));
  }

  /** The rate shown for an active session is the number of commands its process submitted,
      to whatever device. */
  lemma SessionExact(h: Run, d: Dump, keys: seq<(int, int)>, before: State, w: Round, matches: (Rule, Process) -> bool,
                     id: SessionId)
    requires Measured(h, d, keys, w.stats) && WellFormed(before)
    requires var t := Refreshed(before, w, matches); id in t.sessions && t.sessions[id].status.Active?
    ensures var x := Refreshed(before, w, matches).sessions[id]; x.iops == Submissions(h, ByProcess(x.pid)) as real
  {
    ActiveAreTargets(before, w, matches);
    var t := Refreshed(before, w, matches);
    var p := t.sessions[id].pid;
    assert Observes(t, w, id, ByPid(w.procs)[p]);
    ByPidOwn(w.procs);
    PidExact(h, d, keys, w.stats, p);
  }

  lemma PidExact(h: Run, d: Dump, keys: seq<(int, int)>, stats: seq<IoStat>, p: int)
    requires Measured(h, d, keys, stats)
    ensures TotalIops(OfPid(stats, p)) == Submissions(h, ByProcess(p)) as real
  {
    OfPidSum(stats, p);
    StatsExact(h, d, keys, stats, None, Of(p), ByProcess(p));
  }

  /** Nothing is lost between observed and unobserved: the unmonitored rates are the commands
      of the processes without an active session. */
  lemma UnmonitoredExact(h: Run, d: Dump, keys: seq<(int, int)>, stats: seq<IoStat>, pids: set<int>)
    requires Measured(h, d, keys, stats)
    ensures SumOver(UnmonitoredOf(stats, pids), Rate) == Submissions(h, Elsewhere(pids)) as real
  {
    forall st | st in stats
      ensures st.iops >= 0.0
    {
      var i :| 0 <= i < |stats| && stats[i] == st;
      assert IsStat(stats[i], keys[i], SlotAt(ParseLines(Open(h) + Render(d)), keys[i]));
    }
    UnmonitoredAddsUp(stats, pids);
    StatsExact(h, d, keys, stats, None, Unowned(pids), Elsewhere(pids));
  }

  lemma {:induction false} OfPidMember(stats: seq<IoStat>, p: int)
    ensures forall st :: st in OfPid(stats, p) ==> st in stats
  {
    if stats != [] {
      OfPidMember(stats[..|stats| - 1], p);
    }
  }

  /** The thread groups of a process share out exactly the commands it submitted, when its
      thread list has every thread that issued one. */
  lemma GroupsExact(h: Run, d: Dump, keys: seq<(int, int)>, stats: seq<IoStat>, p: int, threads: seq<Thread>,
                    key: string -> string, groups: seq<Group>)
    requires Measured(h, d, keys, stats) && DistinctTids(threads) && threads != []
    requires |groups| == |Names(threads, key)|
    requires forall i :: 0 <= i < |groups| ==> IsGroup(groups[i], threads, key, Names(threads, key)[i], OfPid(stats, p))
    requires IssuersListed(threads, OfPid(stats, p))
    ensures SumGroups(groups) == Submissions(h, ByProcess(p)) as real
  {
    StatsAddUp(h, d, keys, stats, None);
    OfPidMember(stats, p);
    GenericGroupsAddUp(threads, OfPid(stats, p), key, groups);
    PidExact(h, d, keys, stats, p);
  }

  // ---- single threads and groups ----

  /** Submissions by the chosen threads of a process, to any controller. */
  function ByThreads(p: int, want: int -> bool): ((int, int, int)) -> bool {
    (t: (int, int, int)) => t.1 == p && want(t.2)
  }

  function Among(keys: seq<(int, int)>, p: int, want: int -> bool): ((int, int, int)) -> bool {
    (t: (int, int, int)) => t.1 == p && want(t.2) && (t.0, t.1) in keys
  }

  lemma {:induction false} SubmissionsSplit(h: Run, a: ((int, int, int)) -> bool, b: ((int, int, int)) -> bool,
                                            both: ((int, int, int)) -> bool)
    requires forall t :: !(a(t) && b(t)) && (both(t) <==> a(t) || b(t))
    ensures SubmissionsBy(h, both) == SubmissionsBy(h, a) + SubmissionsBy(h, b)
  {
    if h.Next? {
      SubmissionsSplit(h.before, a, b, both);
    }
  }

  lemma {:induction false} NoSubmissions(h: Run, keep: ((int, int, int)) -> bool)
    requires forall t :: !keep(t)
    ensures SubmissionsBy(h, keep) == 0
  {
    if h.Next? {
      NoSubmissions(h.before, keep);
    }
  }

  lemma {:induction false} SubmissionsWithin(h: Run, a: ((int, int, int)) -> bool, b: ((int, int, int)) -> bool)
    requires forall t :: a(t) ==> b(t)
    ensures SubmissionsBy(h, a) <= SubmissionsBy(h, b)
  {
    if h.Next? {
      SubmissionsWithin(h.before, a, b);
    }
  }

  /** Choices that agree wherever something was submitted count the same. */
  lemma {:induction false} SubmissionsAgree(h: Run, a: ((int, int, int)) -> bool, b: ((int, int, int)) -> bool)
    requires forall k: (int, int), t: int :: SubmissionsBy(h, ThreadsOf(k, AnyThread())) > 0 ==> a((k.0, k.1, t)) == b((k.0, k.1, t))
    ensures SubmissionsBy(h, a) == SubmissionsBy(h, b)
  {
    if h.Next? && !h.event.Tick? {
      if h.event.Submit? {
        var k := (h.event.cmd.ctrl, h.event.cmd.pid);
        assert SubmissionsBy(h, ThreadsOf(k, AnyThread())) > 0;
      }
      SubmissionsAgree(h.before, a, b);
    }
  }

  lemma ThreadIopsAppend(stats: seq<IoStat>, st: IoStat, want: int -> bool)
    ensures ThreadIops(stats + [st], want) == ThreadIops(stats, want) + SumThreads(st.threads, want)
  {
    if stats == [] {
      assert stats + [st] == [st];
      assert ThreadIops([st][1..], want) == 0.0;
    } else {
      assert (stats + [st])[0] == stats[0] && (stats + [st])[1..] == stats[1..] + [st];
      ThreadIopsAppend(stats[1..], st, want);
    }
  }

  lemma SlotThreads(h: Run, d: Dump, k: (int, int), st: IoStat, want: int -> bool)
    requires IsDump(d, h) && IsStat(st, k, SlotAt(ParseLines(Open(h) + Render(d)), k))
    ensures ThreadsAre(h, st, k, want)
  {
    ThreadsOfSlot(st.threads, SlotAt(ParseLines(Open(h) + Render(d)), k), want);
    ThreadsExact(h, d, k, want);
  }

  /** A statistic has its process, and the rate of its chosen threads is what they submitted. */
  ghost predicate ThreadsAre(h: Run, st: IoStat, k: (int, int), want: int -> bool) {
    st.pid == k.1 && SumThreads(st.threads, want) == SubmissionsBy(h, ThreadsOf(k, want)) as real
  }

  lemma {:induction false} ThreadsAmong(h: Run, keys: seq<(int, int)>, stats: seq<IoStat>, p: int, want: int -> bool)
    requires NoDuplicates(keys) && |stats| == |keys|
    requires forall i :: 0 <= i < |keys| ==> ThreadsAre(h, stats[i], keys[i], want)
    ensures ThreadIops(OfPid(stats, p), want) == SubmissionsBy(h, Among(keys, p, want)) as real
  {
    if keys == [] {
      NoSubmissions(h, Among(keys, p, want));
    } else {
      var ks, ss, st := keys[..|keys| - 1], stats[..|stats| - 1], stats[|stats| - 1];
      ThreadsAmong(h, ks, ss, p, want);
      AmongNext(h, keys, p, want);
      assert ThreadsAre(h, st, keys[|keys| - 1], want);
      if st.pid == p {
        ThreadIopsAppend(OfPid(ss, p), st, want);
      } else {
        assert OfPid(stats, p) == OfPid(ss, p);
      }
    }
  }

  lemma AmongNext(h: Run, keys: seq<(int, int)>, p: int, want: int -> bool)
    requires keys != [] && NoDuplicates(keys)
    ensures var ks, k := keys[..|keys| - 1], keys[|keys| - 1];
            SubmissionsBy(h, Among(keys, p, want)) ==
            SubmissionsBy(h, Among(ks, p, want)) + if k.1 == p then SubmissionsBy(h, ThreadsOf(k, want)) else 0
  {
    var ks, k := keys[..|keys| - 1], keys[|keys| - 1];
    assert keys == ks + [k];
    var none := (t: (int, int, int)) => false;
    NoSubmissions(h, none);
    SubmissionsSplit(h, Among(ks, p, want), if k.1 == p then ThreadsOf(k, want) else none, Among(keys, p, want));
  }

  /** The rates of the chosen threads of a process, over all devices, are the commands those
      threads submitted in the tick. */
  lemma ThreadsOfPidExact(h: Run, d: Dump, keys: seq<(int, int)>, stats: seq<IoStat>, p: int, want: int -> bool)
    requires Measured(h, d, keys, stats)
    ensures ThreadIops(OfPid(stats, p), want) == SubmissionsBy(h, ByThreads(p, want)) as real
  {
    forall i | 0 <= i < |keys|
      ensures ThreadsAre(h, stats[i], keys[i], want)
    {
      SlotThreads(h, d, keys[i], stats[i], want);
    }
    ThreadsAmong(h, keys, stats, p, want);
    forall k: (int, int), t: int | SubmissionsBy(h, ThreadsOf(k, AnyThread())) > 0
      ensures Among(keys, p, want)((k.0, k.1, t)) == ByThreads(p, want)((k.0, k.1, t))
    {
      SubmitterListed(h, d, keys, stats, k);
    }
    SubmissionsAgree(h, Among(keys, p, want), ByThreads(p, want));
  }

  lemma SubmitterListed(h: Run, d: Dump, keys: seq<(int, int)>, stats: seq<IoStat>, k: (int, int))
    requires Measured(h, d, keys, stats) && SubmissionsBy(h, ThreadsOf(k, AnyThread())) > 0
    ensures k in keys
  {
    ThreadsRecovered(h, d, k);
    ThreadsExact(h, d, k, AnyThread());
  }

  lemma {:induction false} SubmissionsOfProcess(h: Run, p: int)
    ensures SubmissionsBy(h, ByThreads(p, AnyThread())) == Submissions(h, ByProcess(p))
  {
    if h.Next? {
      SubmissionsOfProcess(h.before, p);
    }
  }

  function In(tids: seq<int>): int -> bool { (t: int) => t in tids }

  /** The rate shown for one thread group is the number of commands its own threads submitted;
      a group that stands alone has all of its process. */
  lemma GroupExact(h: Run, d: Dump, keys: seq<(int, int)>, stats: seq<IoStat>, p: int, threads: seq<Thread>,
                   key: string -> string, name: string, g: Group)
    requires Measured(h, d, keys, stats) && IsGroup(g, threads, key, name, OfPid(stats, p))
    ensures g.measured.iops == (if |Names(threads, key)| > 1 then SubmissionsBy(h, ByThreads(p, In(g.tids)))
                                else Submissions(h, ByProcess(p))) as real
  {
    var own := OfPid(stats, p);
    PidExact(h, d, keys, stats, p);
    ShareIsThreadRate(own, g.tids);
    if |Names(threads, key)| > 1 {
      ThreadsOfPidExact(h, d, keys, stats, p, In(g.tids));
      ThreadIopsSame(own, t => t in g.tids, In(g.tids));
      SubmissionsWithin(h, ByThreads(p, In(g.tids)), ByThreads(p, AnyThread()));
      SubmissionsOfProcess(h, p);
    }
  }

  lemma {:induction false} ThreadIopsSame(stats: seq<IoStat>, a: int -> bool, b: int -> bool)
    requires forall t :: a(t) == b(t)
    ensures ThreadIops(stats, a) == ThreadIops(stats, b)
  {
    if stats != [] {
      ThreadsAgree(stats[0].threads, a, b);
      ThreadIopsSame(stats[1..], a, b);
    }
  }

  // ---- the other figures of a process ----

  function OfProcess(p: int): Command -> bool { (c: Command) => c.pid == p }

  function ProcessKey(p: int): ((int, int)) -> bool { (k: (int, int)) => k.1 == p }

  /** A figure that every statistic takes from a table adds up, over a process's statistics, to the
      table's total at the process. */
  lemma {:induction false} FigureTotal(stats: seq<IoStat>, keys: seq<(int, int)>, m: map<(int, int), nat>, figure: IoStat -> real, p: int)
    requires |stats| == |keys| && NoDuplicates(keys) && forall k :: k in m && k.1 == p ==> k in keys
    requires forall i :: 0 <= i < |keys| ==> stats[i].pid == keys[i].1 && figure(stats[i]) == Get(m, keys[i]) as real
    ensures SumOf(OfPid(stats, p), figure) == Total(m, ProcessKey(p)) as real
  {
    if keys == [] {
      TotalNothing(m, ProcessKey(p));
    } else {
      var n := |keys| - 1;
      var last, own := keys[n], OfPid(stats[..n], p);
      assert keys == keys[..n] + [last];
      FigureTotal(stats[..n], keys[..n], m - {last}, figure, p);
      if last in m {
        TotalTake(m, ProcessKey(p), last);
      } else {
        assert m - {last} == m;
      }
      if stats[n].pid == p {
        assert OfPid(stats, p) == own + [stats[n]];
        assert (own + [stats[n]])[..|own|] == own;
      } else {
        assert OfPid(stats, p) == own;
      }
    }
  }

  lemma FieldListed(h: Run, d: Dump, keys: seq<(int, int)>, stats: seq<IoStat>, n: MapName, k: (int, int))
    requires Measured(h, d, keys, stats) && IsField(n) && k in Map2(h, n)
    ensures k in keys
  {
    S.FieldKey(h, k, n);
    S.SlotExact(h, d, k);
  }

  lemma FieldTotal(h: Run, d: Dump, keys: seq<(int, int)>, stats: seq<IoStat>, n: MapName, figure: IoStat -> real, p: int)
    requires Measured(h, d, keys, stats) && IsField(n)
    requires forall st, k, r :: IsStat(st, k, r) ==> st.pid == k.1 && figure(st) == Get(r.counts, n) as real
    ensures SumOf(OfPid(stats, p), figure) == Total(Map2(h, n), ProcessKey(p)) as real
  {
    forall k | k in Map2(h, n) && k.1 == p
      ensures k in keys
    {
      FieldListed(h, d, keys, stats, n, k);
    }
    forall i | 0 <= i < |keys|
      ensures stats[i].pid == keys[i].1 && figure(stats[i]) == Get(Map2(h, n), keys[i]) as real
    {
      FieldRecovered(h, d, keys[i], n);
      assert IsStat(stats[i], keys[i], SlotAt(ParseLines(Open(h) + Render(d)), keys[i]));
    }
    FigureTotal(stats, keys, Map2(h, n), figure, p);
  }

  lemma ProcessTotals(h: Run, p: int)
    ensures Total(Map2(h, ProcRd), ProcessKey(p)) == L.SinceTick(h, L.Reads(OfProcess(p)))
    ensures Total(Map2(h, ProcWr), ProcessKey(p)) == L.SinceTick(h, L.Writes(OfProcess(p)))
  {
    TotalCounts(h, ProcRdOf, ProcessKey(p), L.Reads(OfProcess(p)));
    TotalCounts(h, ProcWrOf, ProcessKey(p), L.Writes(OfProcess(p)));
  }

  lemma ProcessBytesTotal(h: Run, p: int)
    ensures Total(Map2(h, ProcBytes), ProcessKey(p)) == L.SinceTick(h, L.Moved(OfProcess(p)))
  {
    SizesAre();
    TotalCounts(h, ProcBytesOf, ProcessKey(p), L.Moved(OfProcess(p)));
  }

  /** The totals a thread group shares in are those of its process in the tick: the bytes it moved and
      its reads and writes, on whatever device. */
  lemma TotalsExact(h: Run, d: Dump, keys: seq<(int, int)>, stats: seq<IoStat>, p: int)
    requires Measured(h, d, keys, stats)
    ensures SumOf(OfPid(stats, p), Bandwidth()) == L.SinceTick(h, L.Moved(OfProcess(p))) as real
    ensures SumOf(OfPid(stats, p), Reads()) == L.SinceTick(h, L.Reads(OfProcess(p))) as real
    ensures SumOf(OfPid(stats, p), Writes()) == L.SinceTick(h, L.Writes(OfProcess(p))) as real
  {
    FieldTotal(h, d, keys, stats, ProcBytes, Bandwidth(), p);
    FieldTotal(h, d, keys, stats, ProcRd, Reads(), p);
    FieldTotal(h, d, keys, stats, ProcWr, Writes(), p);
    ProcessTotals(h, p);
    ProcessBytesTotal(h, p);
  }

  /** What is measured for a whole process: its bytes, and the reads and writes among both. */
  lemma WorkloadExact(h: Run, d: Dump, keys: seq<(int, int)>, stats: seq<IoStat>, p: int, w: Workload)
    requires Measured(h, d, keys, stats) && w == Adapters.Measured(OfPid(stats, p), None)
    ensures w.iops == Submissions(h, ByProcess(p)) as real && w.bandwidth == L.SinceTick(h, L.Moved(OfProcess(p))) as real
    ensures var read, written := L.SinceTick(h, L.Reads(OfProcess(p))), L.SinceTick(h, L.Writes(OfProcess(p)));
            read + written > 0 ==> IsPart(w.readRatio, read as real, written as real) && IsPart(w.writeRatio, written as real, read as real)
  {
    var own := OfPid(stats, p);
    PidExact(h, d, keys, stats, p);
    TotalsExact(h, d, keys, stats, p);
    WholeShare(own);
    if L.SinceTick(h, L.Reads(OfProcess(p))) + L.SinceTick(h, L.Writes(OfProcess(p))) > 0 {
      RatiosExact(own, None);
    }
  }

  lemma WholeShare(own: seq<IoStat>)
    ensures Adapters.Measured(own, None).iops == TotalIops(own)
    ensures Adapters.Measured(own, None).bandwidth == SumOf(own, Bandwidth())
  {
  }
}
