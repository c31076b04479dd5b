/** Thread groups and their share of a process's I/O
    (src/telemetryd/backend/adapters/base.py, generic.py, fio.py). */
module Adapters {
  import opened Common
  import opened IoStats

  /** A listed thread: id and name. */
  datatype Thread = Thread(tid: int, comm: string)

  /** What was measured, without the dominant I/O size. */
  datatype Workload = Workload(iops: real, bandwidth: real, depth: real, readRatio: real, writeRatio: real)

  datatype Group = Group(name: string, tids: seq<int>, measured: Workload)

  /** The part of the process's I/O that the given threads issued; all of it by default. */
  function ShareOf(stats: seq<IoStat>, tids: Option<seq<int>>): real {
    var total := TotalIops(stats);
    if tids.None? then 1.0
    else if total == 0.0 then 0.0
    else ThreadIops(stats, t => t in tids.value) / total
  }

  function SumOf(stats: seq<IoStat>, f: IoStat -> real): real {
    if stats == [] then 0.0 else SumOf(stats[..|stats| - 1], f) + f(stats[|stats| - 1])
  }

  function Bandwidth(): IoStat -> real { (st: IoStat) => st.bandwidth }

  function Depth(): IoStat -> real { (st: IoStat) => st.depth }

  function Reads(): IoStat -> real { (st: IoStat) => st.readIops }

  function Writes(): IoStat -> real { (st: IoStat) => st.writeIops }

  function Ratio(part: real, whole: real): real { if whole == 0.0 then 0.0 else part / whole }

  /** The ratio of one part to both, after scaling. */
  function PartOf(part: real, other: real, share: real): real { Ratio(part * share, part * share + other * share) }

  function MeasuredIops(stats: seq<IoStat>, tids: Option<seq<int>>): real {
    if stats == [] then 0.0 else TotalIops(stats) * ShareOf(stats, tids)
  }

  /** `measured_from_stats`: the process's figures, or the threads' share of them. */
  function Measured(stats: seq<IoStat>, tids: Option<seq<int>>): Workload {
    if stats == [] then Workload(0.0, 0.0, 0.0, 0.0, 0.0)
    else
      var share := ShareOf(stats, tids);
      Workload(MeasuredIops(stats, tids), SumOf(stats, Bandwidth()) * share, SumOf(stats, Depth()) * share,
        PartOf(SumOf(stats, Reads()), SumOf(stats, Writes()), share), PartOf(SumOf(stats, Writes()), SumOf(stats, Reads()), share))
  }

  /** Scaling the total by the threads' share gives back the threads' own rate. */
  lemma ShareIsThreadRate(stats: seq<IoStat>, tids: seq<int>)
    ensures TotalIops(stats) != 0.0 ==> MeasuredIops(stats, Some(tids)) == ThreadIops(stats, t => t in tids)
    ensures TotalIops(stats) == 0.0 ==> MeasuredIops(stats, Some(tids)) == 0.0
    ensures MeasuredIops(stats, None) == TotalIops(stats)
  {
  }

  /** The share itself: of the threads' rate in the whole, nothing of nothing, and all when no threads
      are chosen. */
  lemma ShareExact(stats: seq<IoStat>, tids: seq<int>)
    ensures ShareOf(stats, None) == 1.0
    ensures if TotalIops(stats) == 0.0 then ShareOf(stats, Some(tids)) == 0.0
            else ShareOf(stats, Some(tids)) * TotalIops(stats) == ThreadIops(stats, t => t in tids)
  {
    if TotalIops(stats) != 0.0 {
      Divided(ThreadIops(stats, t => t in tids), TotalIops(stats));
    }
  }

  // ---- generic adapter ----

  /** The listed threads whose name belongs to a group, in list order. */
  function Members(threads: seq<Thread>, key: string -> string, name: string): seq<int> {
    if threads == [] then []
    else
      var front := Members(threads[..|threads| - 1], key, name);
      var last := threads[|threads| - 1];
      if key(last.comm) == name then front + [last.tid] else front
  }

  lemma {:induction false} MembersExact(threads: seq<Thread>, key: string -> string, name: string, tid: int)
    ensures tid in Members(threads, key, name) <==>
            exists i :: 0 <= i < |threads| && threads[i].tid == tid && key(threads[i].comm) == name
  {
    if threads != [] {
      var front := threads[..|threads| - 1];
      assert threads == front + [threads[|threads| - 1]];
      MembersExact(front, key, name, tid);
    }
  }

  /** The group names: every key that occurs, in order of first occurrence. */
  function Names(threads: seq<Thread>, key: string -> string): (r: seq<string>)
    ensures threads != [] <==> r != []
  {
    if threads == [] then []
    else
      var front := Names(threads[..|threads| - 1], key);
      var k := key(threads[|threads| - 1].comm);
      if k in front then front else front + [k]
  }

  lemma {:induction false} NamesExact(threads: seq<Thread>, key: string -> string)
    ensures NoDuplicates(Names(threads, key))
    ensures forall n :: n in Names(threads, key) <==> exists i :: 0 <= i < |threads| && key(threads[i].comm) == n
  {
    if threads != [] {
      var front := threads[..|threads| - 1];
      assert threads == front + [threads[|threads| - 1]];
      NamesExact(front, key);
    }
  }

  /** Threads are listed in order, in the groups too. */
  lemma {:induction false} MembersAppend(a: seq<Thread>, b: seq<Thread>, key: string -> string, name: string)
    ensures Members(a + b, key, name) == Members(a, key, name) + Members(b, key, name)
  {
    if b == [] {
      assert a + b == a;
    } else {
      assert (a + b)[..|a + b| - 1] == a + b[..|b| - 1];
      MembersAppend(a, b[..|b| - 1], key, name);
    }
  }

  /** Later threads add names behind those that are there. */
  lemma {:induction false} NamesInOrder(a: seq<Thread>, b: seq<Thread>, key: string -> string)
    ensures Names(a, key) <= Names(a + b, key)
  {
    if b == [] {
      assert a + b == a;
    } else {
      assert (a + b)[..|a + b| - 1] == a + b[..|b| - 1];
      NamesInOrder(a, b[..|b| - 1], key);
    }
  }

  lemma {:induction false} NoMembers(threads: seq<Thread>, key: string -> string, name: string)
    requires name !in Names(threads, key)
    ensures Members(threads, key, name) == []
  {
    if threads != [] {
      NoMembers(threads[..|threads| - 1], key, name);
    }
  }

  /** The grouping loop: a dictionary from key to thread ids, in insertion order. */
  method Buckets(threads: seq<Thread>, key: string -> string) returns (names: seq<string>, buckets: map<string, seq<int>>)
    ensures names == Names(threads, key)
    ensures forall n :: n in buckets <==> n in names
    ensures forall n :: n in names ==> buckets[n] == Members(threads, key, n)
  {
    names, buckets := [], map[];
    for i := 0 to |threads|
      invariant names == Names(threads[..i], key)
      invariant forall n :: n in buckets <==> n in names
      invariant forall n :: n in names ==> buckets[n] == Members(threads[..i], key, n)
    {
      var k := key(threads[i].comm);
      assert threads[..i + 1][..i] == threads[..i];
      if k !in buckets {
        NoMembers(threads[..i], key, k);
        names := names + [k];
        buckets := buckets[k := []];
      }
      buckets := buckets[k := buckets[k] + [threads[i].tid]];
    }
    assert threads[..|threads|] == threads;
  }

  ghost predicate DistinctTids(threads: seq<Thread>) {
    forall i, j :: 0 <= i < j < |threads| ==> threads[i].tid != threads[j].tid
  }

  /** No thread is in two groups. */
  lemma OneGroup(threads: seq<Thread>, key: string -> string, tid: int, m: string, n: string)
    requires DistinctTids(threads) && tid in Members(threads, key, m) && tid in Members(threads, key, n)
    ensures m == n
  {
    MembersExact(threads, key, m, tid);
    MembersExact(threads, key, n, tid);
    var i :| 0 <= i < |threads| && threads[i].tid == tid && key(threads[i].comm) == m;
    var j :| 0 <= j < |threads| && threads[j].tid == tid && key(threads[j].comm) == n;
    assert i == j;
  }

  /** With distinct thread ids the groups partition the listed threads. */
  lemma GroupsPartition(threads: seq<Thread>, key: string -> string, tid: int)
    requires DistinctTids(threads)
    ensures (exists i :: 0 <= i < |threads| && threads[i].tid == tid) <==>
            exists n :: n in Names(threads, key) && tid in Members(threads, key, n)
    ensures forall m, n :: tid in Members(threads, key, m) && tid in Members(threads, key, n) ==> m == n
  {
    if i :| 0 <= i < |threads| && threads[i].tid == tid {
      var n := key(threads[i].comm);
      NamesExact(threads, key);
      MembersExact(threads, key, n, tid);
      assert n in Names(threads, key) && tid in Members(threads, key, n);
    }
    if n :| n in Names(threads, key) && tid in Members(threads, key, n) {
      MembersExact(threads, key, n, tid);
    }
    forall m, n | tid in Members(threads, key, m) && tid in Members(threads, key, n)
      ensures m == n
    {
      OneGroup(threads, key, tid, m, n);
    }
  }

  /** `GenericAdapter.get_logical_groups`; `fallback` names the group of a process whose
      threads are not listed. */
  method GenericGroups(threads: seq<Thread>, pid: int, fallback: string, stats: seq<IoStat>, key: string -> string)
    returns (groups: seq<Group>)
    ensures threads == [] ==> groups == [Group(fallback, [pid], Measured(stats, None))]
    ensures threads != [] ==>
              && |groups| == |Names(threads, key)| > 0
              && forall i :: 0 <= i < |groups| ==> IsGroup(groups[i], threads, key, Names(threads, key)[i], stats)
  {
    var names, buckets := Buckets(threads, key);
    if names == [] {
      names, buckets := [fallback], map[fallback := [pid]];
    }
    groups := [];
    for i := 0 to |names|
      invariant |groups| == i
      invariant forall j :: 0 <= j < i ==>
                  groups[j] == Group(names[j], buckets[names[j]],
                    Measured(stats, if |names| > 1 then Some(buckets[names[j]]) else None))
    {
      var tids := buckets[names[i]];
      groups := groups + [Group(names[i], tids, Measured(stats, if |names| > 1 then Some(tids) else None))];
    }
  }

  ghost predicate IsGroup(g: Group, threads: seq<Thread>, key: string -> string, name: string, stats: seq<IoStat>) {
    && g.name == name
    && g.tids == Members(threads, key, name)
    && g.measured == Measured(stats, if |Names(threads, key)| > 1 then Some(g.tids) else None)
  }

  function SumGroups(groups: seq<Group>): real {
    if groups == [] then 0.0 else SumGroups(groups[..|groups| - 1]) + groups[|groups| - 1].measured.iops
  }

  ghost predicate InSome(groups: seq<Group>, tid: int) {
    exists i :: 0 <= i < |groups| && tid in groups[i].tids
  }

  /** Disjoint groups, each with its threads' rate, have together their threads' rate. */
  lemma {:induction false} SumOfShares(groups: seq<Group>, stats: seq<IoStat>)
    requires TotalIops(stats) != 0.0
    requires forall i :: 0 <= i < |groups| ==> groups[i].measured == Measured(stats, Some(groups[i].tids))
    requires forall i, j, t :: 0 <= i < j < |groups| && t in groups[i].tids ==> t !in groups[j].tids
    ensures SumGroups(groups) == ThreadIops(stats, t => InSome(groups, t))
  {
    if groups == [] {
      ThreadIopsNone(stats, t => InSome(groups, t));
    } else {
      var front, last := groups[..|groups| - 1], groups[|groups| - 1];
      assert groups == front + [last];
      SumOfShares(front, stats);
      ShareIsThreadRate(stats, last.tids);
      forall t
        ensures !(InSome(front, t) && t in last.tids) && (InSome(groups, t) <==> InSome(front, t) || t in last.tids)
      {
      }
      ThreadIopsSplit(stats, t => InSome(front, t), t => t in last.tids, t => InSome(groups, t));
    }
  }

  /** Every thread that issued I/O is listed. */
  ghost predicate IssuersListed(threads: seq<Thread>, stats: seq<IoStat>) {
    forall st, t :: st in stats && t in st.threads ==> exists i :: 0 <= i < |threads| && threads[i].tid == t.tid
  }

  /** The generic groups share out the whole process: their rates add up to its rate. */
  lemma GenericGroupsAddUp(threads: seq<Thread>, stats: seq<IoStat>, key: string -> string, groups: seq<Group>)
    requires DistinctTids(threads) && threads != []
    requires |groups| == |Names(threads, key)|
    requires forall i :: 0 <= i < |groups| ==> IsGroup(groups[i], threads, key, Names(threads, key)[i], stats)
    requires ThreadsAddUp(stats) && IssuersListed(threads, stats)
    ensures SumGroups(groups) == TotalIops(stats)
  {
    var names := Names(threads, key);
    NamesExact(threads, key);
    assert key(threads[0].comm) in names;
    if |names| == 1 {
      ShareIsThreadRate(stats, groups[0].tids);
      assert SumGroups(groups[..0]) == 0.0;
    } else if TotalIops(stats) == 0.0 {
      ZeroGroups(groups, stats);
    } else {
      forall i, j, t | 0 <= i < j < |groups| && t in groups[i].tids
        ensures t !in groups[j].tids
      {
        GroupsPartition(threads, key, t);
      }
      SumOfShares(groups, stats);
      forall st, t | st in stats && t in st.threads
        ensures InSome(groups, t.tid)
      {
        GroupsPartition(threads, key, t.tid);
        var n :| n in names && t.tid in Members(threads, key, n);
        var i :| 0 <= i < |names| && names[i] == n;
        assert t.tid in groups[i].tids;
      }
      AllThreads(stats, t => InSome(groups, t));
    }
  }

  lemma {:induction false} ZeroGroups(groups: seq<Group>, stats: seq<IoStat>)
    requires TotalIops(stats) == 0.0
    requires forall i :: 0 <= i < |groups| ==> groups[i].measured == Measured(stats, Some(groups[i].tids))
    ensures SumGroups(groups) == 0.0
  {
    if groups != [] {
      ZeroGroups(groups[..|groups| - 1], stats);
    }
  }

  // ---- the other figures ----

  function SumFigure(groups: seq<Group>, figure: Workload -> real): real {
    if groups == [] then 0.0 else SumFigure(groups[..|groups| - 1], figure) + figure(groups[|groups| - 1].measured)
  }

  lemma ScaleAdds(t: real, x: real, a: real, b: real, c: real, d: real)
    requires t * a == x * b && t * c == x * d
    ensures t * (a + c) == x * (b + d)
  {
    assert t * (a + c) == t * a + t * c;
    assert x * (b + d) == x * b + x * d;
  }

  /** A figure that every group has in proportion to its rate is shared out like the rates. */
  lemma {:induction false} FigureScales(groups: seq<Group>, figure: Workload -> real, t: real, x: real)
    requires forall i :: 0 <= i < |groups| ==> t * figure(groups[i].measured) == x * groups[i].measured.iops
    ensures t * SumFigure(groups, figure) == x * SumGroups(groups)
  {
    if groups != [] {
      var front, last := groups[..|groups| - 1], groups[|groups| - 1];
      FigureScales(front, figure, t, x);
      ScaleAdds(t, x, SumFigure(front, figure), SumGroups(front), figure(last.measured), last.measured.iops);
    }
  }

  lemma Cancel(t: real, x: real, y: real, sum: real)
    requires t != 0.0 && sum == t && t * y == x * sum
    ensures y == x
  {
    assert t * (y - x) == t * y - t * x == 0.0;
  }

  lemma Proportional(t: real, x: real, share: real)
    ensures t * (x * share) == x * (t * share)
  {
  }

  lemma FigureShared(groups: seq<Group>, figure: Workload -> real, t: real, x: real)
    requires t != 0.0 && SumGroups(groups) == t
    requires InProportion(groups, figure, t, x)
    ensures SumFigure(groups, figure) == x
  {
    FigureScales(groups, figure, t, x);
    Cancel(t, x, SumFigure(groups, figure), SumGroups(groups));
  }

  function BandwidthOf(): Workload -> real { (w: Workload) => w.bandwidth }

  function DepthOf(): Workload -> real { (w: Workload) => w.depth }

  /** The figures are one share of the process's figures. */
  ghost predicate IsShare(w: Workload, share: real, iops: real, bandwidth: real, depth: real) {
    w.iops == iops * share && w.bandwidth == bandwidth * share && w.depth == depth * share
  }

  ghost predicate Shares(stats: seq<IoStat>, g: Group) {
    exists share :: IsShare(g.measured, share, TotalIops(stats), SumOf(stats, Bandwidth()), SumOf(stats, Depth()))
  }

  /** Whatever is measured, for all threads or for some, is one. */
  lemma MeasuredIsShare(stats: seq<IoStat>, tids: Option<seq<int>>, g: Group)
    requires g.measured == Measured(stats, tids)
    ensures Shares(stats, g)
  {
    assert IsShare(g.measured, ShareOf(stats, tids), TotalIops(stats), SumOf(stats, Bandwidth()), SumOf(stats, Depth()));
  }

  lemma ShareScales(w: Workload, share: real, iops: real, bandwidth: real, depth: real)
    requires IsShare(w, share, iops, bandwidth, depth)
    ensures iops * w.bandwidth == bandwidth * w.iops && iops * w.depth == depth * w.iops
  {
    Proportional(iops, bandwidth, share);
    Proportional(iops, depth, share);
  }

  lemma GroupScales(stats: seq<IoStat>, g: Group)
    requires Shares(stats, g)
    ensures TotalIops(stats) * g.measured.bandwidth == SumOf(stats, Bandwidth()) * g.measured.iops
    ensures TotalIops(stats) * g.measured.depth == SumOf(stats, Depth()) * g.measured.iops
  {
    var iops, bandwidth, depth := TotalIops(stats), SumOf(stats, Bandwidth()), SumOf(stats, Depth());
    var share :| IsShare(g.measured, share, iops, bandwidth, depth);
    ShareScales(g.measured, share, iops, bandwidth, depth);
  }

  ghost predicate InProportion(groups: seq<Group>, figure: Workload -> real, t: real, x: real) {
    forall i :: 0 <= i < |groups| ==> t * figure(groups[i].measured) == x * groups[i].measured.iops
  }

  lemma BandwidthInProportion(stats: seq<IoStat>, groups: seq<Group>)
    requires forall i :: 0 <= i < |groups| ==> Shares(stats, groups[i])
    ensures InProportion(groups, BandwidthOf(), TotalIops(stats), SumOf(stats, Bandwidth()))
  {
    forall i | 0 <= i < |groups|
      ensures TotalIops(stats) * groups[i].measured.bandwidth == SumOf(stats, Bandwidth()) * groups[i].measured.iops
    {
      GroupScales(stats, groups[i]);
    }
  }

  lemma DepthInProportion(stats: seq<IoStat>, groups: seq<Group>)
    requires forall i :: 0 <= i < |groups| ==> Shares(stats, groups[i])
    ensures InProportion(groups, DepthOf(), TotalIops(stats), SumOf(stats, Depth()))
  {
    forall i | 0 <= i < |groups|
      ensures TotalIops(stats) * groups[i].measured.depth == SumOf(stats, Depth()) * groups[i].measured.iops
    {
      GroupScales(stats, groups[i]);
    }
  }

  /** Groups whose rates add up to the process's share out its bandwidth, too. */
  lemma BandwidthAddsUp(stats: seq<IoStat>, groups: seq<Group>)
    requires TotalIops(stats) != 0.0 && SumGroups(groups) == TotalIops(stats)
    requires forall i :: 0 <= i < |groups| ==> Shares(stats, groups[i])
    ensures SumFigure(groups, BandwidthOf()) == SumOf(stats, Bandwidth())
  {
    BandwidthInProportion(stats, groups);
    FigureShared(groups, BandwidthOf(), TotalIops(stats), SumOf(stats, Bandwidth()));
  }

  /** And its queue depth. */
  lemma DepthAddsUp(stats: seq<IoStat>, groups: seq<Group>)
    requires TotalIops(stats) != 0.0 && SumGroups(groups) == TotalIops(stats)
    requires forall i :: 0 <= i < |groups| ==> Shares(stats, groups[i])
    ensures SumFigure(groups, DepthOf()) == SumOf(stats, Depth())
  {
    DepthInProportion(stats, groups);
    FigureShared(groups, DepthOf(), TotalIops(stats), SumOf(stats, Depth()));
  }

  /** So the generic groups share out the bandwidth and the queue depth of their process. */
  lemma GenericFiguresAddUp(threads: seq<Thread>, stats: seq<IoStat>, key: string -> string, groups: seq<Group>)
    requires DistinctTids(threads) && threads != [] && TotalIops(stats) != 0.0
    requires |groups| == |Names(threads, key)|
    requires forall i :: 0 <= i < |groups| ==> IsGroup(groups[i], threads, key, Names(threads, key)[i], stats)
    requires ThreadsAddUp(stats) && IssuersListed(threads, stats)
    ensures SumFigure(groups, BandwidthOf()) == SumOf(stats, Bandwidth())
    ensures SumFigure(groups, DepthOf()) == SumOf(stats, Depth())
  {
    GenericGroupsAddUp(threads, stats, key, groups);
    forall i | 0 <= i < |groups|
      ensures Shares(stats, groups[i])
    {
      MeasuredIsShare(stats, if |Names(threads, key)| > 1 then Some(groups[i].tids) else None, groups[i]);
    }
    BandwidthAddsUp(stats, groups);
    DepthAddsUp(stats, groups);
  }

  lemma NonZeroProduct(x: real, y: real)
    requires x != 0.0 && y != 0.0
    ensures x * y != 0.0
  {
  }

  lemma RatioScales(part: real, whole: real, share: real)
    requires share != 0.0 && whole != 0.0
    ensures whole * share != 0.0 && (part * share) / (whole * share) == part / whole
  {
    NonZeroProduct(whole, share);
    var r := part / whole;
    assert part == r * whole;
    assert part * share == r * (whole * share);
  }

  /** Sharing out does not change the mix: threads with I/O show the read and write ratios of
      their process. */
  lemma RatiosKept(stats: seq<IoStat>, tids: seq<int>)
    requires ShareOf(stats, Some(tids)) != 0.0
    ensures Measured(stats, Some(tids)).readRatio == Measured(stats, None).readRatio
    ensures Measured(stats, Some(tids)).writeRatio == Measured(stats, None).writeRatio
  {
    PartScales(SumOf(stats, Reads()), SumOf(stats, Writes()), ShareOf(stats, Some(tids)));
    PartScales(SumOf(stats, Writes()), SumOf(stats, Reads()), ShareOf(stats, Some(tids)));
  }

  lemma PartScales(x: real, y: real, share: real)
    requires share != 0.0
    ensures PartOf(x, y, share) == PartOf(x, y, 1.0)
  {
    assert x * share + y * share == (x + y) * share;
    if x + y != 0.0 {
      RatioScales(x, x + y, share);
    }
  }

  /** The ratios are the reads and the writes among both. */
  lemma RatiosExact(stats: seq<IoStat>, tids: Option<seq<int>>)
    requires stats != [] && ShareOf(stats, tids) != 0.0 && SumOf(stats, Reads()) + SumOf(stats, Writes()) != 0.0
    ensures IsPart(Measured(stats, tids).readRatio, SumOf(stats, Reads()), SumOf(stats, Writes()))
    ensures IsPart(Measured(stats, tids).writeRatio, SumOf(stats, Writes()), SumOf(stats, Reads()))
  {
    PartExact(SumOf(stats, Reads()), SumOf(stats, Writes()), ShareOf(stats, tids));
    PartExact(SumOf(stats, Writes()), SumOf(stats, Reads()), ShareOf(stats, tids));
  }

  ghost predicate IsPart(ratio: real, part: real, other: real) { ratio * (part + other) == part }

  lemma PartExact(x: real, y: real, share: real)
    requires share != 0.0 && x + y != 0.0
    ensures IsPart(PartOf(x, y, share), x, y)
  {
    assert x * share + y * share == (x + y) * share;
    RatioScales(x, x + y, share);
    Divided(x, x + y);
  }

  lemma Divided(x: real, t: real)
    requires t != 0.0
    ensures x / t * t == x
  {
  }

  /** The totals behind the figures are sums over the statistics, field by field. */
  lemma TotalsStep(stats: seq<IoStat>, st: IoStat)
    ensures SumOf([], Bandwidth()) == SumOf([], Depth()) == SumOf([], Reads()) == SumOf([], Writes()) == 0.0
    ensures SumOf(stats + [st], Bandwidth()) == SumOf(stats, Bandwidth()) + st.bandwidth
    ensures SumOf(stats + [st], Depth()) == SumOf(stats, Depth()) + st.depth
    ensures SumOf(stats + [st], Reads()) == SumOf(stats, Reads()) + st.readIops
    ensures SumOf(stats + [st], Writes()) == SumOf(stats, Writes()) + st.writeIops
  {
    assert (stats + [st])[..|stats|] == stats;
  }

  // ---- fio adapter ----

  /** A thread name fits a job when one is a prefix of the other, the kernel having cut
      thread names to fifteen characters. */
  predicate FitsJob(job: string, comm: string) {
    comm != [] && (comm <= job || job[..if |job| < 15 then |job| else 15] <= comm)
  }

  /** For thread names as the kernel gives them, of at most fifteen characters: the name fits just
      when it is not empty and agrees with the job's as far as both go. */
  lemma FitsExact(job: string, comm: string)
    requires |comm| <= 15
    ensures FitsJob(job, comm) <==> comm != [] && forall i :: 0 <= i < |comm| && i < |job| ==> comm[i] == job[i]
  {
    if comm != [] && forall i :: 0 <= i < |comm| && i < |job| ==> comm[i] == job[i] {
      if |comm| <= |job| {
        assert comm == job[..|comm|];
      } else {
        assert job[..|job|] == job == comm[..|job|];
      }
    }
    if comm <= job {
      assert comm == job[..|comm|];
    } else if FitsJob(job, comm) {
      var n := if |job| < 15 then |job| else 15;
      assert job[..n] == comm[..n];
      assert forall i :: 0 <= i < n ==> job[i] == job[..n][i] == comm[i];
    }
  }

  /** `thread_comm`: the dictionary keeps the last name of a thread id. */
  function CommMap(threads: seq<Thread>): map<int, string> {
    if threads == [] then map[]
    else CommMap(threads[..|threads| - 1])[threads[|threads| - 1].tid := threads[|threads| - 1].comm]
  }

  ghost predicate LastNamed(threads: seq<Thread>, i: nat, tid: int) {
    i < |threads| && threads[i].tid == tid && forall j :: i < j < |threads| ==> threads[j].tid != tid
  }

  lemma {:induction false} CommMapExact(threads: seq<Thread>, tid: int)
    ensures tid in CommMap(threads) <==> exists i :: 0 <= i < |threads| && threads[i].tid == tid
    ensures tid in CommMap(threads) ==> exists i: nat :: LastNamed(threads, i, tid) && CommMap(threads)[tid] == threads[i].comm
  {
    if threads != [] {
      var n := |threads| - 1;
      CommMapExact(threads[..n], tid);
      assert threads == threads[..n] + [threads[n]];
      if threads[n].tid == tid {
        assert LastNamed(threads, n, tid);
      } else if tid in CommMap(threads[..n]) {
        var i: nat :| LastNamed(threads[..n], i, tid) && CommMap(threads[..n])[tid] == threads[..n][i].comm;
        assert LastNamed(threads, i, tid);
      }
    }
  }

  /** The keys of a dictionary that satisfy a condition, as a list. */
  method Select<T(==)>(keys: set<T>, want: T --> bool) returns (tids: seq<T>)
    requires forall t :: t in keys ==> want.requires(t)
    ensures NoDuplicates(tids)
    ensures forall t :: t in tids <==> t in keys && want(t)
  {
    tids := [];
    var todo := keys;
    while todo != {}
      invariant todo <= keys && NoDuplicates(tids)
      invariant forall t :: t in tids <==> t in keys && t !in todo && want(t)
      decreases todo
    {
      var t :| t in todo;
      todo := todo - {t};
      if want(t) {
        tids := tids + [t];
      }
    }
  }

  /** `FioAdapter.get_logical_groups` for known jobs: each thread goes to the first job it
      fits, a single job nobody fits takes all threads, and each job has its threads' share. */
  method FioGroups(jobs: seq<string>, threads: seq<Thread>, stats: seq<IoStat>) returns (groups: seq<Group>)
    ensures |groups| == |jobs|
    ensures forall i, t :: 0 <= i < |jobs| ==> (t in groups[i].tids <==> Assigned(jobs, CommMap(threads), i, t))
    ensures forall i, j, t :: 0 <= i < j < |groups| && t in groups[i].tids ==> t !in groups[j].tids
    ensures forall i :: 0 <= i < |jobs| ==>
              && groups[i].name == jobs[i]
              && groups[i].measured == Measured(stats, if |jobs| > 1 then Some(groups[i].tids) else None)
  {
    var comms := CommMap(threads);
    groups := [];
    var taken: set<int> := {};
    for i := 0 to |jobs|
      invariant |groups| == i
      invariant i < |jobs| ==> forall t :: t in comms ==> (t in taken <==> FitsEarlier(jobs, comms, i, t))
      invariant forall j, t :: 0 <= j < i ==> (t in groups[j].tids <==> Assigned(jobs, comms, j, t))
      invariant forall j :: 0 <= j < i ==>
                  && groups[j].name == jobs[j]
                  && groups[j].measured == Measured(stats, if |jobs| > 1 then Some(groups[j].tids) else None)
    {
      var tids := JobTids(jobs, comms, i, taken);
      taken := taken + set t | t in tids;
      groups := groups + [Group(jobs[i], tids, Measured(stats, if |jobs| > 1 then Some(tids) else None))];
    }
  }

  method JobTids(jobs: seq<string>, comms: map<int, string>, i: nat, taken: set<int>) returns (tids: seq<int>)
    requires i < |jobs|
    requires forall t :: t in comms ==> (t in taken <==> FitsEarlier(jobs, comms, i, t))
    ensures forall t :: t in tids <==> Assigned(jobs, comms, i, t)
  {
    tids := Select(comms.Keys, t requires t in comms => t !in taken && FitsJob(jobs[i], comms[t]));
    if |jobs| == 1 {
      if tids == [] {
        forall u | u in comms
          ensures !FitsJob(jobs[0], comms[u])
        {
          assert u !in tids;
        }
        tids := Select(comms.Keys, t => t !in taken);
        forall t
          ensures t in tids <==> Assigned(jobs, comms, i, t)
        {
          assert t in comms ==> !FitsEarlier(jobs, comms, i, t);
        }
        return;
      } else {
        var u := tids[0];
        assert u in tids && u in comms && FitsJob(jobs[0], comms[u]);
        assert !NobodyFits(jobs[0], comms);
      }
    }
    forall t
      ensures t in tids <==> Assigned(jobs, comms, i, t)
    {
      assert t in tids <==> t in comms && t !in taken && FitsJob(jobs[i], comms[t]);
      assert t in comms ==> (t in taken <==> FitsEarlier(jobs, comms, i, t));
    }
  }

  predicate FitsEarlier(jobs: seq<string>, comms: map<int, string>, i: nat, t: int)
    requires i <= |jobs| && t in comms
  {
    exists j :: 0 <= j < i && FitsJob(jobs[j], comms[t])
  }

  predicate NobodyFits(job: string, comms: map<int, string>) {
    forall u :: u in comms ==> !FitsJob(job, comms[u])
  }

  /** A thread belongs to the first job it fits; a single job nobody fits has them all. */
  predicate Assigned(jobs: seq<string>, comms: map<int, string>, i: nat, t: int)
    requires i < |jobs|
  {
    || (t in comms && FitsJob(jobs[i], comms[t]) && !FitsEarlier(jobs, comms, i, t))
    || (|jobs| == 1 && t in comms && NobodyFits(jobs[0], comms))
  }
}
