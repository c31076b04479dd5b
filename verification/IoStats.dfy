/** Per-process I/O statistics as the host side passes them on (src/telemetryd/models.py),
    with the sums the consumers take over them. Rates are reals. */
module IoStats {
  import opened Common

  datatype ThreadStat = ThreadStat(tid: int, iops: real)

  /** One (device, process) pair of the last tick; `device` is the N of "nvmeN". `depth` is the
      queue depth estimated from rate and latency, `seqRatio` the sequential share if there
      were reads or writes. */
  datatype IoStat = IoStat(
    device: int, pid: int, iops: real, readIops: real, writeIops: real, bandwidth: real,
    avgLatencyUs: real, depth: real, seqRatio: Option<real>, threads: seq<ThreadStat>)

  /** IOPS of the statistics that satisfy a condition. */
  function SumIops(stats: seq<IoStat>, want: IoStat -> bool): real {
    if stats == [] then 0.0 else SumIops(stats[..|stats| - 1], want) + Share(stats[|stats| - 1], want)
  }

  function Share(st: IoStat, want: IoStat -> bool): real { if want(st) then st.iops else 0.0 }

  function TotalIops(stats: seq<IoStat>): real { SumIops(stats, _ => true) }

  function SumThreads(threads: seq<ThreadStat>, want: int -> bool): real {
    if threads == [] then 0.0
    else SumThreads(threads[1..], want) + if want(threads[0].tid) then threads[0].iops else 0.0
  }

  /** IOPS of the chosen threads over all statistics. */
  function ThreadIops(stats: seq<IoStat>, want: int -> bool): real {
    if stats == [] then 0.0 else SumThreads(stats[0].threads, want) + ThreadIops(stats[1..], want)
  }

  lemma {:induction false} SumSplits(stats: seq<IoStat>, p: IoStat -> bool, q: IoStat -> bool, r: IoStat -> bool)
    requires forall st :: st in stats ==> !(p(st) && q(st)) && (r(st) <==> p(st) || q(st))
    ensures SumIops(stats, r) == SumIops(stats, p) + SumIops(stats, q)
  {
    if stats != [] {
      SumSplits(stats[..|stats| - 1], p, q, r);
    }
  }

  lemma {:induction false} SumAgree(stats: seq<IoStat>, p: IoStat -> bool, q: IoStat -> bool)
    requires forall st :: st in stats ==> p(st) == q(st)
    ensures SumIops(stats, p) == SumIops(stats, q)
  {
    if stats != [] {
      SumAgree(stats[..|stats| - 1], p, q);
    }
  }

  lemma {:induction false} SumNothing(stats: seq<IoStat>, p: IoStat -> bool)
    requires forall st :: st in stats ==> !p(st)
    ensures SumIops(stats, p) == 0.0
  {
    if stats != [] {
      SumNothing(stats[..|stats| - 1], p);
    }
  }

  lemma {:induction false} ThreadsSplit(threads: seq<ThreadStat>, p: int -> bool, q: int -> bool, r: int -> bool)
    requires forall t :: !(p(t) && q(t)) && (r(t) <==> p(t) || q(t))
    ensures SumThreads(threads, r) == SumThreads(threads, p) + SumThreads(threads, q)
  {
    if threads != [] {
      ThreadsSplit(threads[1..], p, q, r);
    }
  }

  lemma {:induction false} ThreadIopsSplit(stats: seq<IoStat>, p: int -> bool, q: int -> bool, r: int -> bool)
    requires forall t :: !(p(t) && q(t)) && (r(t) <==> p(t) || q(t))
    ensures ThreadIops(stats, r) == ThreadIops(stats, p) + ThreadIops(stats, q)
  {
    if stats != [] {
      ThreadsSplit(stats[0].threads, p, q, r);
      ThreadIopsSplit(stats[1..], p, q, r);
    }
  }

  lemma {:induction false} ThreadsAgree(threads: seq<ThreadStat>, p: int -> bool, q: int -> bool)
    requires forall t :: t in threads ==> p(t.tid) == q(t.tid)
    ensures SumThreads(threads, p) == SumThreads(threads, q)
  {
    if threads != [] {
      ThreadsAgree(threads[1..], p, q);
    }
  }

  lemma {:induction false} ThreadsNone(threads: seq<ThreadStat>, p: int -> bool)
    requires forall t :: t in threads ==> !p(t.tid)
    ensures SumThreads(threads, p) == 0.0
  {
    if threads != [] {
      ThreadsNone(threads[1..], p);
    }
  }

  lemma {:induction false} ThreadIopsNone(stats: seq<IoStat>, p: int -> bool)
    requires forall t :: !p(t)
    ensures ThreadIops(stats, p) == 0.0
  {
    if stats != [] {
      ThreadsNone(stats[0].threads, p);
      ThreadIopsNone(stats[1..], p);
    }
  }

  /** The thread rates of every statistic add up to its own rate. */
  ghost predicate ThreadsAddUp(stats: seq<IoStat>) {
    forall st :: st in stats ==> SumThreads(st.threads, _ => true) == st.iops
  }

  /** When the chosen threads are all that issued I/O, their rates are the total. */
  lemma {:induction false} AllThreads(stats: seq<IoStat>, want: int -> bool)
    requires ThreadsAddUp(stats)
    requires forall st, t :: st in stats && t in st.threads ==> want(t.tid)
    ensures ThreadIops(stats, want) == TotalIops(stats)
  {
    if stats != [] {
      assert stats[0] in stats;
      AllThreads(stats[1..], want);
      ThreadsAgree(stats[0].threads, want, _ => true);
      TotalFront(stats);
    }
  }

  lemma {:induction false} TotalFront(stats: seq<IoStat>)
    requires stats != []
    ensures TotalIops(stats) == stats[0].iops + TotalIops(stats[1..])
  {
    if |stats| > 1 {
      TotalFront(stats[..|stats| - 1]);
      assert stats[1..][..|stats| - 2] == stats[..|stats| - 1][1..];
    }
  }
}
