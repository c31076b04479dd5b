/** What the collector's maps conserve in every tick of every run. */
module Conservation {
  import opened Common
  import opened Tables
  import opened LogLines
  import opened History
  import opened Ledger

  // ---- totals of a map are sums over events ----

  function Part<K>(c: Option<(K, nat)>, keep: K -> bool): nat {
    if c.Some? && keep(c.value.0) then c.value.1 else 0
  }

  /** What the events, since the last tick or ever, add to the kept keys. */
  function Weigh<K>(h: Run, ever: bool, f: Contribution<K>, keep: K -> bool): nat {
    match h
    case Attached => 0
    case Next(p, e) => if e.Tick? && !ever then 0 else Weigh(p, ever, f, keep) + Part(f(p, e), keep)
  }

  lemma {:induction false} TotalIsWeight<K(!new)>(h: Run, ever: bool, f: Contribution<K>, keep: K -> bool)
    ensures Total(Tally(h, ever, f), keep) == Weigh(h, ever, f, keep)
  {
    if h.Next? {
      TotalIsWeight(h.before, ever, f, keep);
      var c := f(h.before, h.event);
      if c.Some? {
        TotalBump(Tally(h.before, ever, f), keep, c.value.0, c.value.1);
      }
    }
  }

  /** Contributions that agree event by event add up to the same. */
  lemma {:induction false} Balance<A, B, C, D>(
    h: Run, ever: bool,
    f: Contribution<A>, kf: A -> bool, g: Contribution<B>, kg: B -> bool,
    u: Contribution<C>, ku: C -> bool, v: Contribution<D>, kv: D -> bool)
    requires forall p, e :: Part(f(p, e), kf) + Part(g(p, e), kg) == Part(u(p, e), ku) + Part(v(p, e), kv)
    ensures Weigh(h, ever, f, kf) + Weigh(h, ever, g, kg) == Weigh(h, ever, u, ku) + Weigh(h, ever, v, kv)
  {
    if h.Next? {
      Balance(h.before, ever, f, kf, g, kg, u, ku, v, kv);
      assert Part(f(h.before, h.event), kf) + Part(g(h.before, h.event), kg)
          == Part(u(h.before, h.event), ku) + Part(v(h.before, h.event), kv);
    }
  }

  function Nothing(p: Run, e: Event): Option<(int, nat)> { None }

  lemma {:induction false} NothingWeighsNothing(h: Run, ever: bool, keep: int -> bool)
    ensures Weigh(h, ever, Nothing, keep) == 0
  {
    if h.Next? {
      NothingWeighsNothing(h.before, ever, keep);
    }
  }

  /** Two maps whose contributions agree event by event have the same total. */
  lemma SameTotal<A(!new), B(!new)>(
    h: Run, ever: bool, f: Contribution<A>, kf: A -> bool, g: Contribution<B>, kg: B -> bool)
    requires forall p, e :: Part(f(p, e), kf) == Part(g(p, e), kg)
    ensures Total(Tally(h, ever, f), kf) == Total(Tally(h, ever, g), kg)
  {
    TotalIsWeight(h, ever, f, kf);
    TotalIsWeight(h, ever, g, kg);
    Balance(h, ever, f, kf, Nothing, (k: int) => true, g, kg, Nothing, (k: int) => true);
  }

  /** The same for two maps against two others. */
  lemma SameTotals<A(!new), B(!new), C(!new), D(!new)>(
    h: Run, ever: bool,
    f: Contribution<A>, kf: A -> bool, g: Contribution<B>, kg: B -> bool,
    u: Contribution<C>, ku: C -> bool, v: Contribution<D>, kv: D -> bool)
    requires forall p, e :: Part(f(p, e), kf) + Part(g(p, e), kg) == Part(u(p, e), ku) + Part(v(p, e), kv)
    ensures Total(Tally(h, ever, f), kf) + Total(Tally(h, ever, g), kg)
         == Total(Tally(h, ever, u), ku) + Total(Tally(h, ever, v), kv)
  {
    TotalIsWeight(h, ever, f, kf);
    TotalIsWeight(h, ever, g, kg);
    TotalIsWeight(h, ever, u, ku);
    TotalIsWeight(h, ever, v, kv);
    Balance(h, ever, f, kf, g, kg, u, ku, v, kv);
  }

  // ---- the keys of a controller, a process, a queue ----

  function Ctrl2(c: int): ((int, int)) -> bool { (k: (int, int)) => k.0 == c }

  function Ctrl3(c: int): ((int, int, int)) -> bool { (k: (int, int, int)) => k.0 == c }

  function CtrlOps(c: int): ((int, int, string)) -> bool { (k: (int, int, string)) => k.0 == c }

  function CtrlThr(c: int): ((int, int, int, string)) -> bool { (k: (int, int, int, string)) => k.0 == c }

  function At2(c: int, p: int): ((int, int)) -> bool { (k: (int, int)) => k == (c, p) }

  function Proc3(c: int, p: int): ((int, int, int)) -> bool { (k: (int, int, int)) => k.0 == c && k.1 == p }

  function ProcOps3(c: int, p: int): ((int, int, string)) -> bool { (k: (int, int, string)) => k.0 == c && k.1 == p }

  function ProcThr(c: int, p: int): ((int, int, int, string)) -> bool {
    (k: (int, int, int, string)) => k.0 == c && k.1 == p
  }

  function QueueHist(c: int, q: int): ((int, int, nat)) -> bool { (k: (int, int, nat)) => k.0 == c && k.1 == q }

  // ---- what is conserved ----

  /** Submissions to a controller since the last tick. */
  function SubmitsInTick(h: Run, ctrl: int): nat {
    match h
    case Attached => 0
    case Next(p, e) =>
      if e.Tick? then 0 else SubmitsInTick(p, ctrl) + if e.Submit? && e.cmd.ctrl == ctrl then 1 else 0
  }

  lemma {:induction false} SubmitsAreOps(h: Run, c: int)
    ensures SubmitsInTick(h, c) == Weigh(h, false, ProcOpsOf, CtrlOps(c))
  {
    if h.Next? && !h.event.Tick? {
      SubmitsAreOps(h.before, c);
    }
  }

  /** Process, thread and queue-usage counters all count every submission once. */
  lemma SubmissionsConserved(h: Run, c: int)
    ensures Total(InTick(h, ProcOpsOf), CtrlOps(c)) == SubmitsInTick(h, c)
    ensures Total(InTick(h, ThrOpsOf), CtrlThr(c)) == SubmitsInTick(h, c)
    ensures Total(InTick(h, ProcQOf), Ctrl3(c)) == SubmitsInTick(h, c)
  {
    SubmitsAreOps(h, c);
    TotalIsWeight(h, false, ProcOpsOf, CtrlOps(c));
    SameTotal(h, false, ProcOpsOf, CtrlOps(c), ThrOpsOf, CtrlThr(c));
    SameTotal(h, false, ProcOpsOf, CtrlOps(c), ProcQOf, Ctrl3(c));
  }

  /** The threads of a process issue exactly what the process issues. */
  lemma ThreadsConserved(h: Run, c: int, p: int)
    ensures Total(InTick(h, ThrOpsOf), ProcThr(c, p)) == Total(InTick(h, ProcOpsOf), ProcOps3(c, p))
    ensures Total(InTick(h, ProcQOf), Proc3(c, p)) == Total(InTick(h, ProcOpsOf), ProcOps3(c, p))
  {
    SameTotal(h, false, ThrOpsOf, ProcThr(c, p), ProcOpsOf, ProcOps3(c, p));
    SameTotal(h, false, ProcQOf, Proc3(c, p), ProcOpsOf, ProcOps3(c, p));
  }

  /** Per process, reads and writes are the sequential and random ones, and the sizes. */
  lemma ReadsWritesConserved(h: Run, c: int, p: int)
    ensures Get(InTick(h, ProcRdOf), (c, p)) + Get(InTick(h, ProcWrOf), (c, p))
         == Get(InTick(h, ProcSeqOf), (c, p)) + Get(InTick(h, ProcRandOf), (c, p))
    ensures Get(InTick(h, ProcRdOf), (c, p)) + Get(InTick(h, ProcWrOf), (c, p))
         == Total(InTick(h, ProcBsOf), Proc3(c, p))
  {
    var at := At2(c, p);
    TotalOne(InTick(h, ProcRdOf), at, (c, p));
    TotalOne(InTick(h, ProcWrOf), at, (c, p));
    TotalOne(InTick(h, ProcSeqOf), at, (c, p));
    TotalOne(InTick(h, ProcRandOf), at, (c, p));
    SameTotals(h, false, ProcRdOf, at, ProcWrOf, at, ProcSeqOf, at, ProcRandOf, at);
    SameTotals(h, false, ProcRdOf, at, ProcWrOf, at, ProcBsOf, Proc3(c, p), Nothing, (k: int) => true);
    TotalIsWeight(h, false, Nothing, (k: int) => true);
    NothingWeighsNothing(h, false, (k: int) => true);
  }

  /** Per controller, the queues and the processes move the same reads, writes and bytes. */
  lemma BytesConserved(h: Run, c: int)
    ensures Total(InTick(h, BytesSumOf), Ctrl2(c)) == Total(InTick(h, ProcBytesOf), Ctrl2(c))
    ensures Total(InTick(h, ReadCountOf), Ctrl2(c)) == Total(InTick(h, ProcRdOf), Ctrl2(c))
    ensures Total(InTick(h, WriteCountOf), Ctrl2(c)) == Total(InTick(h, ProcWrOf), Ctrl2(c))
  {
    SameTotal(h, false, BytesSumOf, Ctrl2(c), ProcBytesOf, Ctrl2(c));
    SameTotal(h, false, ReadCountOf, Ctrl2(c), ProcRdOf, Ctrl2(c));
    SameTotal(h, false, WriteCountOf, Ctrl2(c), ProcWrOf, Ctrl2(c));
  }

  /** Per queue, every counted completion is in the histogram. */
  lemma CompletionsConserved(h: Run, c: int, q: int)
    ensures Get(InTick(h, LatCountOf), (c, q)) == Total(InTick(h, LatHistOf), QueueHist(c, q))
  {
    TotalOne(InTick(h, LatCountOf), At2(c, q), (c, q));
    SameTotal(h, false, LatCountOf, At2(c, q), LatHistOf, QueueHist(c, q));
  }

  /** Completions of commands that pid 0 submitted; no process is charged for them. */
  function IdleCntOf(p: Run, e: Event): Option<((int, int), nat)> {
    var c := Finished(p, e);
    if c.Some? && c.value.pid == 0 then Some(((e.done.ctrl, 0), 1)) else None
  }

  function IdleSumOf(p: Run, e: Event): Option<((int, int), nat)> {
    var c := Finished(p, e);
    if c.Some? && c.value.pid == 0 then Some(((e.done.ctrl, 0), Latency(c.value, e))) else None
  }

  /** Process latencies account for all queue latencies except those of pid 0. */
  lemma LatencyConserved(h: Run, c: int)
    ensures Total(InTick(h, LatCountOf), Ctrl2(c))
         == Total(InTick(h, ProcLatCntOf), Ctrl2(c)) + Total(InTick(h, IdleCntOf), Ctrl2(c))
    ensures Total(InTick(h, LatSumOf), Ctrl2(c))
         == Total(InTick(h, ProcLatSumOf), Ctrl2(c)) + Total(InTick(h, IdleSumOf), Ctrl2(c))
  {
    SameTotals(h, false, LatCountOf, Ctrl2(c), Nothing, (k: int) => true, ProcLatCntOf, Ctrl2(c), IdleCntOf, Ctrl2(c));
    SameTotals(h, false, LatSumOf, Ctrl2(c), Nothing, (k: int) => true, ProcLatSumOf, Ctrl2(c), IdleSumOf, Ctrl2(c));
    TotalIsWeight(h, false, Nothing, (k: int) => true);
    NothingWeighsNothing(h, false, (k: int) => true);
  }

  // ---- errors ----

  /** The cumulative error map counts every error since the collector started, ticks and
      print budget notwithstanding. */
  lemma {:induction false} ErrorsConserved(h: Run, c: int)
    ensures Total(Ever(h, ErrCountOf), Ctrl3(c)) == SinceStart(h, Failed(FailedOn(c)))
  {
    TotalIsWeight(h, true, ErrCountOf, Ctrl3(c));
    if h.Next? {
      ErrorsConserved(h.before, c);
      TotalIsWeight(h.before, true, ErrCountOf, Ctrl3(c));
    }
  }

  /** What has been printed since the last tick mark. */
  function OutputInTick(h: Run): seq<Line> {
    match h
    case Attached => []
    case Next(p, e) => if e.Tick? then [] else OutputInTick(p) + Emit(p, e)
  }

  function CountErrorLines(lines: seq<Line>, ctrl: int): nat {
    if lines == [] then 0
    else
      var last := lines[|lines| - 1];
      CountErrorLines(lines[..|lines| - 1], ctrl) + if last.ErrorEvent? && last.error.ctrl == ctrl then 1 else 0
  }

  lemma {:induction false} ErrorsAreFailures(h: Run, c: int)
    ensures ErrorsInTick(h, c) == SinceTick(h, Failed(FailedOn(c)))
  {
    if h.Next? {
      ErrorsAreFailures(h.before, c);
    }
  }

  /** The details of a failed completion are printed while fewer than fifty of its controller failed
      in this tick; nothing else makes the collector print one. */
  lemma DetailExact(p: Run, e: Event, l: Line)
    requires l in Emit(p, e) && !e.Tick?
    ensures l.ErrorEvent? <==> e.Complete?
    ensures e.Complete? ==>
              e.done.status != 0 && SinceTick(p, Failed(FailedOn(e.done.ctrl))) < 50 && l == ErrorLine(p, e.done)
  {
    if e.Complete? {
      ErrorsAreFailures(p, e.done.ctrl);
    }
  }

  /** So each tick prints the details of the first fifty errors of a controller, and only those. */
  lemma {:induction false} BudgetExact(h: Run, c: int)
    ensures CountErrorLines(OutputInTick(h), c) ==
            var failed := SinceTick(h, Failed(FailedOn(c))); if failed <= 50 then failed else 50
  {
    ErrorsAreFailures(h, c);
    if h.Next? && !h.event.Tick? {
      ErrorsAreFailures(h.before, c);
      BudgetExact(h.before, c);
      var before, more := OutputInTick(h.before), Emit(h.before, h.event);
      if more == [] {
        assert before + more == before;
      } else {
        assert (before + more)[..|before|] == before;
      }
    }
  }
}
