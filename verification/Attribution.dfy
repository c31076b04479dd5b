/** Where the observed I/O belongs (src/telemetryd/backend/targets.py:268-289): per device the
    part due to observed processes and the rest, and who causes the rest. */
module Attribution {
  import opened Common
  import opened IoStats
  import opened Sessions
  import opened Refresh

  datatype DeviceAttribution = DeviceAttribution(
    total: real, attributed: real, unattributed: real, contributing: seq<SessionId>)

  datatype Unmonitored = Unmonitored(pid: int, device: int, rate: real)

  const NOTHING := DeviceAttribution(0.0, 0.0, 0.0, [])

  function On(d: int): IoStat -> bool { (st: IoStat) => st.device == d }

  function Observed(d: int, pids: set<int>): IoStat -> bool { (st: IoStat) => st.device == d && st.pid in pids }

  function NotObserved(d: int, pids: set<int>): IoStat -> bool { (st: IoStat) => st.device == d && st.pid !in pids }

  ghost predicate Contributes(s: State, stats: seq<IoStat>, d: int, id: SessionId) {
    && id in s.order && id in s.sessions && s.sessions[id].status.Active?
    && exists i :: 0 <= i < |stats| && stats[i].device == d && stats[i].pid == s.sessions[id].pid
  }

  /** What device `d` is told: its sums, and without repetition the sessions that use it. */
  ghost predicate Attributes(a: DeviceAttribution, s: State, pids: set<int>, stats: seq<IoStat>, d: int) {
    && a.total == SumIops(stats, On(d))
    && a.attributed == SumIops(stats, Observed(d, pids))
    && a.unattributed == SumIops(stats, NotObserved(d, pids))
    && NoDuplicates(a.contributing)
    && forall id :: id in a.contributing <==> Contributes(s, stats, d, id)
  }

  ghost predicate ActivePids(s: State, pids: set<int>) {
    forall p :: p in pids <==> exists id :: id in s.order && id in s.sessions && s.sessions[id].status.Active? && s.sessions[id].pid == p
  }

  function UnmonitoredOf(stats: seq<IoStat>, pids: set<int>): seq<Unmonitored> {
    if stats == [] then []
    else
      var st := stats[|stats| - 1];
      UnmonitoredOf(stats[..|stats| - 1], pids)
      + if st.pid !in pids && st.iops > 0.0 then [Unmonitored(st.pid, st.device, st.iops)] else []
  }

  // ---- the loops ----

  /** Pids of the active sessions. */
  method SessionPids(s: State) returns (pids: set<int>)
    ensures ActivePids(s, pids)
  {
    pids := {};
    var i := 0;
    while i < |s.order|
      invariant 0 <= i <= |s.order|
      invariant forall p :: p in pids <==> exists j :: 0 <= j < i && s.order[j] in s.sessions && s.sessions[s.order[j]].status.Active? && s.sessions[s.order[j]].pid == p
    {
      var id := s.order[i];
      if id in s.sessions && s.sessions[id].status.Active? {
        pids := pids + {s.sessions[id].pid};
      }
      i := i + 1;
    }
  }

  /** The sessions of a pid join the list, each once. */
  method Contributors(s: State, listed: seq<SessionId>, pid: int) returns (r: seq<SessionId>)
    requires NoDuplicates(listed)
    ensures NoDuplicates(r)
    ensures forall id :: id in r <==>
              id in listed || (id in s.order && id in s.sessions && s.sessions[id].status.Active? && s.sessions[id].pid == pid)
  {
    r := listed;
    var i := 0;
    while i < |s.order|
      invariant 0 <= i <= |s.order| && NoDuplicates(r)
      invariant forall id :: id in r <==>
                  id in listed || (id in s.order[..i] && id in s.sessions && s.sessions[id].status.Active? && s.sessions[id].pid == pid)
    {
      var id := s.order[i];
      assert s.order[..i + 1] == s.order[..i] + [id];
      if id in s.sessions && s.sessions[id].pid == pid && s.sessions[id].status.Active? && id !in r {
        r := r + [id];
      }
      i := i + 1;
    }
    assert s.order[..i] == s.order;
  }

  /** One statistic is charged to its device. */
  method Charge(a: DeviceAttribution, s: State, pids: set<int>, st: IoStat, ghost stats: seq<IoStat>) returns (b: DeviceAttribution)
    requires ActivePids(s, pids) && Attributes(a, s, pids, stats, st.device)
    ensures Attributes(b, s, pids, stats + [st], st.device)
  {
    b := a.(total := a.total + st.iops);
    if st.pid in pids {
      var listed := Contributors(s, a.contributing, st.pid);
      b := b.(attributed := a.attributed + st.iops, contributing := listed);
    } else {
      b := b.(unattributed := a.unattributed + st.iops);
    }
    assert (stats + [st])[..|stats|] == stats;
    forall id
      ensures id in b.contributing <==> Contributes(s, stats + [st], st.device, id)
    {
      ContributesNext(s, pids, stats, st, st.device, id);
    }
  }

  lemma ContributesNext(s: State, pids: set<int>, stats: seq<IoStat>, st: IoStat, d: int, id: SessionId)
    requires ActivePids(s, pids)
    ensures Contributes(s, stats + [st], d, id) <==>
            Contributes(s, stats, d, id)
            || (st.device == d && st.pid in pids && id in s.order && id in s.sessions && s.sessions[id].status.Active?
                && s.sessions[id].pid == st.pid)
  {
    var all := stats + [st];
    if id in s.order && id in s.sessions && s.sessions[id].status.Active? {
      var p := s.sessions[id].pid;
      assert p in pids;
      if Contributes(s, stats, d, id) {
        var i :| 0 <= i < |stats| && stats[i].device == d && stats[i].pid == p;
        assert all[i].device == d;
      }
      assert all[|stats|] == st;
    }
  }

  lemma OtherDevice(a: DeviceAttribution, s: State, pids: set<int>, stats: seq<IoStat>, st: IoStat, d: int)
    requires ActivePids(s, pids) && Attributes(a, s, pids, stats, d) && st.device != d
    ensures Attributes(a, s, pids, stats + [st], d)
  {
    assert (stats + [st])[..|stats|] == stats;
    forall id
      ensures id in a.contributing <==> Contributes(s, stats + [st], d, id)
    {
      ContributesNext(s, pids, stats, st, d, id);
    }
  }

  lemma {:induction false} NoEntry(s: State, pids: set<int>, stats: seq<IoStat>, d: int)
    requires forall i :: 0 <= i < |stats| ==> stats[i].device != d
    ensures Attributes(NOTHING, s, pids, stats, d)
  {
    SumNothing(stats, On(d));
    SumNothing(stats, Observed(d, pids));
    SumNothing(stats, NotObserved(d, pids));
  }

  ghost predicate Seen(stats: seq<IoStat>, d: int) { exists i :: 0 <= i < |stats| && stats[i].device == d }

  /** Every device with statistics has its entry, and no other. */
  ghost predicate IsAttribution(s: State, stats: seq<IoStat>, pids: set<int>, devices: map<int, DeviceAttribution>) {
    && ActivePids(s, pids) && (forall d :: d in devices <==> Seen(stats, d))
    && (forall d :: d in devices ==> Attributes(devices[d], s, pids, stats, d))
  }

  method ChargeDevice(devices: map<int, DeviceAttribution>, s: State, pids: set<int>, st: IoStat, ghost stats: seq<IoStat>)
    returns (r: map<int, DeviceAttribution>)
    requires IsAttribution(s, stats, pids, devices)
    ensures IsAttribution(s, stats + [st], pids, r)
  {
    if st.device !in devices {
      assert !Seen(stats, st.device);
      NoEntry(s, pids, stats, st.device);
    }
    var b := Charge(if st.device in devices then devices[st.device] else NOTHING, s, pids, st, stats);
    forall d | d in devices && d != st.device
      ensures Attributes(devices[d], s, pids, stats + [st], d)
    {
      OtherDevice(devices[d], s, pids, stats, st, d);
    }
    SeenNext(stats, st);
    r := devices[st.device := b];
  }

  /** The last part of `refresh`. */
  method Attribute(s: State, stats: seq<IoStat>)
    returns (pids: set<int>, devices: map<int, DeviceAttribution>, unmonitored: seq<Unmonitored>)
    ensures IsAttribution(s, stats, pids, devices)
    ensures unmonitored == UnmonitoredOf(stats, pids)
  {
    pids := SessionPids(s);
    devices, unmonitored := map[], [];
    var i := 0;
    ghost var done: seq<IoStat> := [];
    while i < |stats|
      invariant 0 <= i <= |stats| && done == stats[..i]
      invariant IsAttribution(s, done, pids, devices)
      invariant unmonitored == UnmonitoredOf(done, pids)
    {
      var st := stats[i];
      devices := ChargeDevice(devices, s, pids, st, done);
      UnmonitoredNext(done, st, pids);
      if st.pid !in pids && st.iops > 0.0 {
        unmonitored := unmonitored + [Unmonitored(st.pid, st.device, st.iops)];
      }
      done := done + [st];
      i := i + 1;
    }
    assert stats[..i] == stats;
  }

  lemma UnmonitoredNext(stats: seq<IoStat>, st: IoStat, pids: set<int>)
    ensures UnmonitoredOf(stats + [st], pids) ==
            UnmonitoredOf(stats, pids)
            + if st.pid !in pids && st.iops > 0.0 then [Unmonitored(st.pid, st.device, st.iops)] else []
  {
    assert (stats + [st])[..|stats|] == stats;
  }

  lemma SeenNext(stats: seq<IoStat>, st: IoStat)
    ensures forall d :: Seen(stats + [st], d) <==> Seen(stats, d) || d == st.device
  {
    forall d
      ensures Seen(stats + [st], d) <==> Seen(stats, d) || d == st.device
    {
      if Seen(stats, d) {
        var i :| 0 <= i < |stats| && stats[i].device == d;
        assert (stats + [st])[i].device == d;
      }
      assert (stats + [st])[|stats|] == st;
    }
  }

  // ---- everything adds up ----

  function SumOver<T>(q: seq<T>, f: T -> real): real {
    if q == [] then 0.0 else SumOver(q[..|q| - 1], f) + f(q[|q| - 1])
  }

  lemma SumOverAppend<T>(q: seq<T>, x: T, f: T -> real)
    ensures SumOver(q + [x], f) == SumOver(q, f) + f(x)
  {
    assert (q + [x])[..|q|] == q;
  }

  ghost function Within(keys: seq<int>, key: IoStat -> int, want: IoStat -> bool): IoStat -> bool {
    (st: IoStat) => want(st) && key(st) in keys
  }

  /** Sums taken key by key are the sum over all the keys. */
  lemma {:induction false} SumByKey<T>(stats: seq<IoStat>, q: seq<T>, f: T -> real, keys: seq<int>, key: IoStat -> int,
                                       want: IoStat -> bool, parts: int -> IoStat -> bool)
    requires |keys| == |q| && NoDuplicates(keys)
    requires forall k, st :: parts(k)(st) <==> want(st) && key(st) == k
    requires forall i :: 0 <= i < |q| ==> f(q[i]) == SumIops(stats, parts(keys[i]))
    ensures SumOver(q, f) == SumIops(stats, Within(keys, key, want))
  {
    if q == [] {
      SumNothing(stats, Within(keys, key, want));
    } else {
      var front, last := keys[..|keys| - 1], keys[|keys| - 1];
      assert keys == front + [last];
      SumByKey(stats, q[..|q| - 1], f, front, key, want, parts);
      SumSplits(stats, Within(front, key, want), parts(last), Within(keys, key, want));
    }
  }

  function Of(pid: int): IoStat -> bool { (st: IoStat) => st.pid == pid }

  lemma {:induction false} OfPidSum(stats: seq<IoStat>, pid: int)
    ensures TotalIops(OfPid(stats, pid)) == SumIops(stats, Of(pid))
  {
    if stats != [] {
      var front, st := stats[..|stats| - 1], stats[|stats| - 1];
      OfPidSum(front, pid);
      var all := OfPid(stats, pid);
      if st.pid == pid {
        assert all == OfPid(front, pid) + [st];
        assert all[..|all| - 1] == OfPid(front, pid);
      } else {
        assert all == OfPid(front, pid);
      }
    }
  }

  function Owned(pids: set<int>): IoStat -> bool { (st: IoStat) => st.pid in pids }

  function Unowned(pids: set<int>): IoStat -> bool { (st: IoStat) => st.pid !in pids }

  function Entry(devices: map<int, DeviceAttribution>, d: int): DeviceAttribution {
    if d in devices then devices[d] else NOTHING
  }

  /** On every device the observed and the other I/O make up the whole. */
  lemma DeviceSplits(s: State, stats: seq<IoStat>, pids: set<int>, a: DeviceAttribution, d: int)
    requires Attributes(a, s, pids, stats, d)
    ensures a.total == a.attributed + a.unattributed
  {
    SumSplits(stats, Observed(d, pids), NotObserved(d, pids), On(d));
  }

  lemma AllSeen(stats: seq<IoStat>, devs: seq<int>, want: IoStat -> bool)
    requires forall d :: d in devs <==> Seen(stats, d)
    ensures SumIops(stats, Within(devs, (st: IoStat) => st.device, want)) == SumIops(stats, want)
  {
    forall st | st in stats
      ensures st.device in devs
    {
      var i :| 0 <= i < |stats| && stats[i] == st;
      assert Seen(stats, st.device);
    }
    SumAgree(stats, Within(devs, (st: IoStat) => st.device, want), want);
  }

  /** Over all devices, the totals are all I/O, and the parts all I/O of that kind. `devs`
      lists the devices in any order. */
  lemma DevicesAddUp(s: State, stats: seq<IoStat>, pids: set<int>, devices: map<int, DeviceAttribution>, devs: seq<int>)
    requires IsAttribution(s, stats, pids, devices) && NoDuplicates(devs) && forall d :: d in devs <==> d in devices
    ensures SumOver(devs, d => Entry(devices, d).total) == TotalIops(stats)
    ensures SumOver(devs, d => Entry(devices, d).attributed) == SumIops(stats, Owned(pids))
    ensures SumOver(devs, d => Entry(devices, d).unattributed) == SumIops(stats, Unowned(pids))
  {
    var device := (st: IoStat) => st.device;
    SumByKey(stats, devs, d => Entry(devices, d).total, devs, device, _ => true, On);
    AllSeen(stats, devs, _ => true);
    SumByKey(stats, devs, d => Entry(devices, d).attributed, devs, device, Owned(pids), d => Observed(d, pids));
    AllSeen(stats, devs, Owned(pids));
    SumByKey(stats, devs, d => Entry(devices, d).unattributed, devs, device, Unowned(pids), d => NotObserved(d, pids));
    AllSeen(stats, devs, Unowned(pids));
  }

  function PidOf(s: State, id: SessionId): int { if id in s.sessions then s.sessions[id].pid else 0 }

  function IopsOf(s: State): SessionId -> real { (id: SessionId) => if id in s.sessions then s.sessions[id].iops else 0.0 }

  ghost predicate ListsActive(s: State, ids: seq<SessionId>) {
    NoDuplicates(ids) && forall id :: id in ids <==> id in s.sessions && s.sessions[id].status.Active?
  }

  /** No two active sessions have the same pid. */
  lemma OnePerPid(s: State, w: Round, hits: map<int, Rule>, byPid: map<int, Process>, ids: seq<SessionId>)
    requires Watches(s, w, hits, byPid) && ListsActive(s, ids)
    ensures NoDuplicates(seq(|ids|, i requires 0 <= i < |ids| => PidOf(s, ids[i])))
  {
    var pids := seq(|ids|, i requires 0 <= i < |ids| => PidOf(s, ids[i]));
    forall i, j | 0 <= i < j < |ids|
      ensures pids[i] != pids[j]
    {
      assert ids[i] in ids && ids[j] in ids;
      assert Observes(s, w, ids[i], byPid[PidOf(s, ids[i])]) && Observes(s, w, ids[j], byPid[PidOf(s, ids[j])]);
    }
  }

  /** After a refresh the rates shown for the active sessions are all the attributed I/O. */
  lemma SessionsAddUp(s: State, w: Round, hits: map<int, Rule>, byPid: map<int, Process>, pids: set<int>, ids: seq<SessionId>)
    requires Ordered(s) && Watches(s, w, hits, byPid) && ActivePids(s, pids) && ListsActive(s, ids)
    ensures SumOver(ids, IopsOf(s)) == SumIops(w.stats, Owned(pids))
  {
    OnePerPid(s, w, hits, byPid, ids);
    var listed := seq(|ids|, i requires 0 <= i < |ids| => PidOf(s, ids[i]));
    var pid := (st: IoStat) => st.pid;
    forall i | 0 <= i < |ids|
      ensures IopsOf(s)(ids[i]) == SumIops(w.stats, Of(listed[i]))
    {
      assert ids[i] in ids;
      assert Observes(s, w, ids[i], byPid[s.sessions[ids[i]].pid]);
      OfPidSum(w.stats, listed[i]);
    }
    SumByKey(w.stats, ids, IopsOf(s), listed, pid, _ => true, Of);
    ListedPids(s, pids, ids, listed);
    SumAgree(w.stats, Within(listed, pid, _ => true), Owned(pids));
  }

  lemma ListedPids(s: State, pids: set<int>, ids: seq<SessionId>, listed: seq<int>)
    requires Ordered(s) && ActivePids(s, pids) && ListsActive(s, ids)
    requires |listed| == |ids| && forall i :: 0 <= i < |ids| ==> listed[i] == PidOf(s, ids[i])
    ensures forall p :: p in listed <==> p in pids
  {
    forall p
      ensures p in listed <==> p in pids
    {
      if p in listed {
        var i :| 0 <= i < |listed| && listed[i] == p;
        assert ids[i] in ids;
      }
      if p in pids {
        var id :| id in s.order && id in s.sessions && s.sessions[id].status.Active? && s.sessions[id].pid == p;
        var i :| 0 <= i < |ids| && ids[i] == id;
        assert listed[i] == p;
      }
    }
  }

  /** The list names each statistic of an unobserved process with I/O, and nothing else. */
  lemma {:induction false} UnmonitoredLists(stats: seq<IoStat>, pids: set<int>, u: Unmonitored)
    ensures u in UnmonitoredOf(stats, pids) <==> u.pid !in pids && u.rate > 0.0 && HasStat(stats, u)
  {
    if stats != [] {
      var front, st := stats[..|stats| - 1], stats[|stats| - 1];
      UnmonitoredLists(front, pids, u);
      HasStatNext(front, st, u);
      assert stats == front + [st];
      UnmonitoredNext(front, st, pids);
    }
  }

  ghost predicate HasStat(stats: seq<IoStat>, u: Unmonitored) {
    exists i :: 0 <= i < |stats| && stats[i].pid == u.pid && stats[i].device == u.device && stats[i].iops == u.rate
  }

  lemma HasStatNext(stats: seq<IoStat>, st: IoStat, u: Unmonitored)
    ensures HasStat(stats + [st], u) <==> HasStat(stats, u) || (st.pid == u.pid && st.device == u.device && st.iops == u.rate)
  {
    var all := stats + [st];
    if HasStat(stats, u) {
      var i :| 0 <= i < |stats| && stats[i].pid == u.pid && stats[i].device == u.device && stats[i].iops == u.rate;
      assert all[i].pid == u.pid;
    }
    assert all[|stats|] == st;
  }

  function Rate(u: Unmonitored): real { u.rate }

  /** The unmonitored rates are all the I/O of processes nobody observes. */
  lemma {:induction false} UnmonitoredAddsUp(stats: seq<IoStat>, pids: set<int>)
    requires forall st :: st in stats ==> st.iops >= 0.0
    ensures SumOver(UnmonitoredOf(stats, pids), Rate) == SumIops(stats, Unowned(pids))
  {
    if stats != [] {
      var front, st := stats[..|stats| - 1], stats[|stats| - 1];
      UnmonitoredAddsUp(front, pids);
      if st.pid !in pids && st.iops > 0.0 {
        SumOverAppend(UnmonitoredOf(front, pids), Unmonitored(st.pid, st.device, st.iops), Rate);
      } else {
        assert UnmonitoredOf(stats, pids) == UnmonitoredOf(front, pids);
        assert st in stats && Share(st, Unowned(pids)) == 0.0;
      }
    }
  }

  lemma {:induction false} DevicesExact(stats: seq<IoStat>, pid: int, d: int)
    ensures d in DevicesOf(OfPid(stats, pid)) <==> exists i :: 0 <= i < |stats| && stats[i].device == d && stats[i].pid == pid
  {
    if stats != [] {
      var front, st := stats[..|stats| - 1], stats[|stats| - 1];
      DevicesExact(front, pid, d);
      assert forall i :: 0 <= i < |front| ==> front[i] == stats[i];
      assert stats[|front|] == st;
      assert forall x :: x in OfPid(stats, pid) <==> x in OfPid(front, pid) || (st.pid == pid && x == st);
    }
  }

  /** The sessions that contribute to a device are exactly the active ones that show it. */
  lemma ContributorsShowDevice(s: State, w: Round, hits: map<int, Rule>, byPid: map<int, Process>, pids: set<int>,
                               a: DeviceAttribution, d: int, id: SessionId)
    requires Ordered(s) && Watches(s, w, hits, byPid) && Attributes(a, s, pids, w.stats, d)
    ensures id in a.contributing <==> id in s.sessions && s.sessions[id].status.Active? && d in s.sessions[id].devices
  {
    if id in s.sessions && s.sessions[id].status.Active? {
      assert id in s.order;
      assert Observes(s, w, id, byPid[s.sessions[id].pid]);
      DevicesExact(w.stats, s.sessions[id].pid, d);
    }
  }
}
