/** What every refresh keeps, and what it makes true of the active sessions
    (src/telemetryd/backend/targets.py:197-266). */
module Refresh {
  import opened Common
  import opened IoStats
  import opened Sessions

  // ---- creating a session ----

  lemma {:induction false} CloseFirstAt(sessions: map<SessionId, Session>, order: seq<SessionId>, proc: Process, now: int)
    ensures CloseFirst(sessions, order, proc, now).Keys == sessions.Keys
    ensures forall id :: id in sessions ==>
              CloseFirst(sessions, order, proc, now)[id] ==
              (if id in order then CloseStale(sessions[id], proc, now) else sessions[id])
  {
    if order != [] {
      assert order == order[..|order| - 1] + [order[|order| - 1]];
      CloseFirstAt(sessions, order[..|order| - 1], proc, now);
    }
  }

  /** `t` is `s` with a session `id` added for `proc`. */
  ghost predicate Created(s: State, t: State, id: SessionId, proc: Process, rule: Rule, now: int) {
    && t.max == s.max && t.rules == s.rules && t.order == s.order + [id]
    && t.byIdentity == s.byIdentity[Key(proc) := id]
    && id !in s.sessions && t.sessions.Keys == s.sessions.Keys + {id}
    && t.sessions[id] == NewSession(id, proc, rule, now)
    && forall other :: other in s.sessions ==> t.sessions[other] == CloseStale(s.sessions[other], proc, now)
  }

  lemma CreateAdds(s: State, w: Round, proc: Process, rule: Rule)
    requires Ordered(s)
    ensures Created(s, Create(s, w, proc, rule), Create(s, w, proc, rule).byIdentity[Key(proc)], proc, rule, w.now)
  {
    CloseFirstAt(s.sessions, s.order, proc, w.now);
  }

  lemma CreatedOrder(s: State, t: State, id: SessionId, proc: Process, rule: Rule, now: int)
    requires Ordered(s) && Created(s, t, id, proc, rule, now)
    ensures Ordered(t)
  {
  }

  lemma CreatedSession(s: State, t: State, id: SessionId, proc: Process, rule: Rule, now: int, other: SessionId)
    requires Created(s, t, id, proc, rule, now) && Key(proc) !in s.byIdentity && other in t.sessions
    requires other in s.sessions ==> SessionOk(s, other)
    ensures SessionOk(t, other)
  {
  }

  lemma CreatedIndex(s: State, t: State, id: SessionId, proc: Process, rule: Rule, now: int, i: Identity)
    requires Created(s, t, id, proc, rule, now) && i in t.byIdentity
    requires i in s.byIdentity ==> Indexed(s, i)
    ensures Indexed(t, i)
  {
  }

  lemma CreatedOk(s: State, t: State, id: SessionId, proc: Process, rule: Rule, now: int)
    requires WellFormed(s) && Created(s, t, id, proc, rule, now) && Key(proc) !in s.byIdentity
    ensures WellFormed(t)
  {
    CreatedOrder(s, t, id, proc, rule, now);
    forall other | other in t.sessions
      ensures SessionOk(t, other)
    {
      CreatedSession(s, t, id, proc, rule, now, other);
    }
    forall i | i in t.byIdentity
      ensures Indexed(t, i)
    {
      CreatedIndex(s, t, id, proc, rule, now, i);
    }
  }

  lemma CreatedKeeps(s: State, t: State, id: SessionId, proc: Process, rule: Rule, now: int)
    requires Created(s, t, id, proc, rule, now) && Key(proc) !in s.byIdentity
    ensures Kept(s, t)
    ensures OnePerProcess(s) ==> OnePerProcess(t)
  {
  }

  // ---- bringing a session up to date ----

  /** `t` is `s` with one session changed in what may change. */
  ghost predicate Changed(s: State, t: State, id: SessionId) {
    && id in s.sessions && id in t.sessions && t.sessions == s.sessions[id := t.sessions[id]]
    && CoreOf(t.sessions[id]) == CoreOf(s.sessions[id])
    && t.max == s.max && t.rules == s.rules && t.order == s.order && t.byIdentity == s.byIdentity
  }

  lemma ChangedOk(s: State, t: State, id: SessionId)
    requires WellFormed(s) && Changed(s, t, id)
    requires t.sessions[id].status.Active? ==> t.sessions[id].end.None?
    requires t.sessions[id].status.Active? ==> (s.sessions[id].pid, s.sessions[id].start) in s.byIdentity
    requires t.sessions[id].status.Active? ==> s.byIdentity[(s.sessions[id].pid, s.sessions[id].start)] == id
    ensures WellFormed(t) && Kept(s, t)
    ensures OnePerProcess(s) ==> OnePerProcess(t)
  {
    forall other | other in t.sessions
      ensures SessionOk(t, other)
    {
      assert SessionOk(s, other);
    }
    forall i | i in t.byIdentity
      ensures Indexed(t, i)
    {
      assert Indexed(s, i);
    }
  }

  // ---- the attach loop ----

  /** Session `id` observes `proc`, and shows what this refresh was given. */
  ghost predicate Observes(s: State, w: Round, id: SessionId, proc: Process) {
    && id in s.sessions && s.sessions[id].status.Active? && s.sessions[id].pid == proc.pid && s.sessions[id].start == proc.start
    && s.sessions[id].iops == TotalIops(OfPid(w.stats, proc.pid)) && s.sessions[id].threads == proc.threads
    && s.sessions[id].devices == DevicesOf(OfPid(w.stats, proc.pid))
    && (proc.comm != "" ==> s.sessions[id].comm == proc.comm)
    && (proc.pid, proc.start) in s.byIdentity && s.byIdentity[(proc.pid, proc.start)] == id
  }

  /** The file stays usable, and in step if it can be written. */
  ghost predicate FileKept(s: State, t: State, w: Round) {
    && (w.writable && Synced(s) ==> Synced(t))
    && (OnePerProcess(s) && DiskOk(s.disk) ==> DiskOk(t.disk))
  }

  lemma Saves(s: State, t: State, w: Round)
    requires WellFormed(t) && t == Save(t, true) && (OnePerProcess(s) ==> OnePerProcess(t))
    ensures FileKept(s, t, w)
  {
    SaveSyncs(t);
    if OnePerProcess(t) {
      SaveDiskOk(t);
    }
  }

  lemma CreateKeeps(s: State, w: Round, proc: Process, rule: Rule)
    requires WellFormed(s) && Key(proc) !in s.byIdentity
    ensures var t := Create(s, w, proc, rule);
            && Created(s, t, t.byIdentity[Key(proc)], proc, rule, w.now)
            && WellFormed(t) && Kept(s, t) && (OnePerProcess(s) ==> OnePerProcess(t)) && FileKept(s, t, w)
  {
    var t := Create(s, w, proc, rule);
    var id := t.byIdentity[Key(proc)];
    CreateAdds(s, w, proc, rule);
    CreatedOk(s, t, id, proc, rule, w.now);
    CreatedKeeps(s, t, id, proc, rule, w.now);
    if w.writable {
      Saves(s, t, w);
    }
  }

  lemma TouchKeeps(s: State, w: Round, proc: Process)
    requires WellFormed(s) && Known(s, Key(proc))
    ensures var t := Touch(s, w, proc);
            && Changed(s, t, s.byIdentity[Key(proc)]) && Observes(t, w, s.byIdentity[Key(proc)], proc)
            && WellFormed(t) && Kept(s, t) && (OnePerProcess(s) ==> OnePerProcess(t)) && FileKept(s, t, w)
  {
    var t, id := Touch(s, w, proc), s.byIdentity[Key(proc)];
    assert Indexed(s, Key(proc)) && SessionOk(s, id);
    assert t.sessions == s.sessions[id := t.sessions[id]];
    ChangedOk(s, t, id);
    if Synced(s) {
      StaysSynced(s, t);
    }
  }

  /** One round of the loop: the process is observed, sessions of other pids are untouched,
      and a session is made exactly when there was none. */
  lemma AttachKeeps(s: State, w: Round, proc: Process, rule: Rule)
    requires WellFormed(s)
    ensures var t := Attach(s, w, proc, rule);
            && WellFormed(t) && Kept(s, t) && t.rules == s.rules && (OnePerProcess(s) ==> OnePerProcess(t)) && FileKept(s, t, w)
            && Observes(t, w, t.byIdentity[Key(proc)], proc)
    ensures forall id :: id in s.sessions && s.sessions[id].pid != proc.pid ==>
              id in Attach(s, w, proc, rule).sessions && Attach(s, w, proc, rule).sessions[id] == s.sessions[id]
    ensures Key(proc) in s.byIdentity ==> Attach(s, w, proc, rule).order == s.order
    ensures Key(proc) !in s.byIdentity ==>
              var t := Attach(s, w, proc, rule);
              var id := t.byIdentity[Key(proc)];
              && id !in s.sessions && id.stamp == w.stamp(|s.order|) && id.pid == proc.pid
              && t.order == s.order + [id] && t.sessions[id].cmdline == proc.cmdline
              && t.sessions[id].sessionStart == w.now && t.sessions[id].matchedKind == rule.kind
              && t.sessions[id].matchedValue == rule.value
  {
    if Key(proc) in s.byIdentity {
      assert Indexed(s, Key(proc));
      TouchKeeps(s, w, proc);
    } else {
      AttachNew(s, w, proc, rule);
    }
  }

  lemma AttachNew(s: State, w: Round, proc: Process, rule: Rule)
    requires WellFormed(s) && Key(proc) !in s.byIdentity
    ensures var t := Attach(s, w, proc, rule);
            && WellFormed(t) && Kept(s, t) && t.rules == s.rules && (OnePerProcess(s) ==> OnePerProcess(t)) && FileKept(s, t, w)
            && Observes(t, w, t.byIdentity[Key(proc)], proc)
    ensures forall id :: id in s.sessions && s.sessions[id].pid != proc.pid ==>
              id in Attach(s, w, proc, rule).sessions && Attach(s, w, proc, rule).sessions[id] == s.sessions[id]
    ensures var t := Attach(s, w, proc, rule);
            var id := t.byIdentity[Key(proc)];
            && id !in s.sessions && id.stamp == w.stamp(|s.order|) && id.pid == proc.pid
            && t.order == s.order + [id] && t.sessions[id].cmdline == proc.cmdline
            && t.sessions[id].sessionStart == w.now && t.sessions[id].matchedKind == rule.kind
            && t.sessions[id].matchedValue == rule.value
  {
    var u := Create(s, w, proc, rule);
    CreateKeeps(s, w, proc, rule);
    TouchKeeps(u, w, proc);
    NewIdNamed(s, w, proc, rule);
  }

  lemma NewIdNamed(s: State, w: Round, proc: Process, rule: Rule)
    ensures var id := Create(s, w, proc, rule).byIdentity[Key(proc)]; id.stamp == w.stamp(|s.order|) && id.pid == proc.pid
  {
  }

  /** Before a process without a session gets one, the active sessions of earlier processes with its pid
      are closed, now. */
  lemma StaleClosed(s: State, w: Round, proc: Process, rule: Rule, id: SessionId)
    requires WellFormed(s) && (proc.pid, proc.start) !in s.byIdentity && id in s.sessions
    requires s.sessions[id].pid == proc.pid && s.sessions[id].start != proc.start && s.sessions[id].status.Active?
    ensures var t := Attach(s, w, proc, rule);
            id in t.sessions && t.sessions[id] == s.sessions[id].(status := Finished, end := Some(w.now))
  {
    CloseFirstAt(s.sessions, s.order, proc, w.now);
    CreateAdds(s, w, proc, rule);
  }

  /** A process listed without a name keeps the one its session has. */
  lemma NameKept(s: State, w: Round, proc: Process, rule: Rule)
    requires WellFormed(s) && (proc.pid, proc.start) in s.byIdentity && proc.comm == ""
    ensures var id := s.byIdentity[(proc.pid, proc.start)];
            && id in s.sessions && id in Attach(s, w, proc, rule).sessions
            && Attach(s, w, proc, rule).sessions[id].comm == s.sessions[id].comm
  {
    assert Indexed(s, (proc.pid, proc.start));
  }

  /** After the attach loop over `pids`: each target is observed by an attached session, and
      each attached session observes a target. */
  ghost predicate AllObserved(t: State, w: Round, ids: set<SessionId>, byPid: map<int, Process>, pids: seq<int>)
    requires forall p :: p in pids ==> p in byPid
  {
    && (forall p :: p in pids ==>
          Key(byPid[p]) in t.byIdentity && t.byIdentity[Key(byPid[p])] in ids
          && Observes(t, w, t.byIdentity[Key(byPid[p])], byPid[p]))
    && (forall id :: id in ids ==> id in t.sessions && t.sessions[id].pid in pids && Observes(t, w, id, byPid[t.sessions[id].pid]))
  }

  /** Attaching a further pid disturbs none of the sessions attached before. */
  lemma StillObserved(t: State, u: State, w: Round, ids: set<SessionId>, byPid: map<int, Process>, pids: seq<int>, pid: int)
    requires forall p :: p in pids + [pid] ==> p in byPid && byPid[p].pid == p
    requires AllObserved(t, w, ids, byPid, pids) && pid !in pids && Kept(t, u)
    requires forall id :: id in t.sessions && t.sessions[id].pid != pid ==> id in u.sessions && u.sessions[id] == t.sessions[id]
    requires Key(byPid[pid]) in u.byIdentity && Observes(u, w, u.byIdentity[Key(byPid[pid])], byPid[pid])
    ensures AllObserved(u, w, ids + {u.byIdentity[Key(byPid[pid])]}, byPid, pids + [pid])
  {
    var all := ids + {u.byIdentity[Key(byPid[pid])]};
    forall p | p in pids
      ensures Key(byPid[p]) in u.byIdentity && u.byIdentity[Key(byPid[p])] in all
      ensures Observes(u, w, u.byIdentity[Key(byPid[p])], byPid[p])
    {
      assert Observes(t, w, t.byIdentity[Key(byPid[p])], byPid[p]);
    }
    forall id | id in ids
      ensures id in u.sessions && u.sessions[id].pid in pids + [pid] && Observes(u, w, id, byPid[u.sessions[id].pid])
    {
      assert Observes(t, w, id, byPid[t.sessions[id].pid]);
    }
  }

  lemma {:induction false} AttachFirstKeeps(s: State, w: Round, hits: map<int, Rule>, byPid: map<int, Process>, pids: seq<int>)
    requires WellFormed(s) && NoDuplicates(pids)
    requires forall p :: p in pids ==> p in hits && p in byPid && byPid[p].pid == p
    ensures var a := AttachFirst(s, w, hits, byPid, pids);
            && WellFormed(a.state) && Kept(s, a.state) && a.state.rules == s.rules
            && (OnePerProcess(s) ==> OnePerProcess(a.state)) && FileKept(s, a.state, w)
  {
    if pids != [] {
      var front, pid := pids[..|pids| - 1], pids[|pids| - 1];
      assert pids == front + [pid];
      AttachFirstKeeps(s, w, hits, byPid, front);
      AttachKeeps(AttachFirst(s, w, hits, byPid, front).state, w, byPid[pid], hits[pid]);
    }
  }

  lemma {:induction false} AttachFirstObserves(s: State, w: Round, hits: map<int, Rule>, byPid: map<int, Process>, pids: seq<int>)
    requires WellFormed(s) && NoDuplicates(pids)
    requires forall p :: p in pids ==> p in hits && p in byPid && byPid[p].pid == p
    ensures var a := AttachFirst(s, w, hits, byPid, pids); AllObserved(a.state, w, a.ids, byPid, pids)
  {
    if pids != [] {
      var front, pid := pids[..|pids| - 1], pids[|pids| - 1];
      assert pids == front + [pid];
      AttachFirstKeeps(s, w, hits, byPid, front);
      AttachFirstObserves(s, w, hits, byPid, front);
      var a := AttachFirst(s, w, hits, byPid, front);
      AttachKeeps(a.state, w, byPid[pid], hits[pid]);
      StillObserved(a.state, Attach(a.state, w, byPid[pid], hits[pid]), w, a.ids, byPid, front, pid);
    }
  }

  // ---- closing the rest ----

  lemma FinishOneKeeps(s: State, w: Round, ids: set<SessionId>, id: SessionId)
    requires WellFormed(s) && id in s.sessions
    ensures var t := FinishOne(s, w, ids, id);
            && WellFormed(t) && Kept(s, t) && t.rules == s.rules && t.order == s.order && t.byIdentity == s.byIdentity
            && (OnePerProcess(s) ==> OnePerProcess(t)) && FileKept(s, t, w)
            && t.sessions == s.sessions[id := Closed(s.sessions[id], ids, w.now)]
  {
    var t := FinishOne(s, w, ids, id);
    if t != s {
      ChangedOk(s, t, id);
      if w.writable {
        Saves(s, t, w);
      }
    } else {
      assert s.sessions == s.sessions[id := s.sessions[id]];
    }
  }

  /** What the last loop does to a session. */
  function Closed(x: Session, ids: set<SessionId>, now: int): Session {
    if x.status.Active? && x.id !in ids then Ended(x, now) else x
  }

  lemma {:induction false} FinishFirstKeeps(s: State, w: Round, ids: set<SessionId>, order: seq<SessionId>)
    requires WellFormed(s) && forall id :: id in order ==> id in s.sessions
    ensures var t := FinishFirst(s, w, ids, order);
            && WellFormed(t) && Kept(s, t) && t.rules == s.rules && t.order == s.order && t.byIdentity == s.byIdentity
            && (OnePerProcess(s) ==> OnePerProcess(t)) && FileKept(s, t, w)
  {
    if order != [] {
      var front, id := order[..|order| - 1], order[|order| - 1];
      assert order == front + [id];
      FinishFirstKeeps(s, w, ids, front);
      FinishOneKeeps(FinishFirst(s, w, ids, front), w, ids, id);
    }
  }

  /** What the loop makes of each session: the active ones not attached are over, now. */
  lemma {:induction false} FinishFirstAt(s: State, w: Round, ids: set<SessionId>, order: seq<SessionId>)
    ensures var t := FinishFirst(s, w, ids, order);
            && t.sessions.Keys == s.sessions.Keys
            && forall id :: id in s.sessions ==>
                 t.sessions[id] ==
                 if id in order && s.sessions[id].status.Active? && id !in ids
                 then s.sessions[id].(status := Finished, end := Some(w.now)) else s.sessions[id]
  {
    if order != [] {
      var front, id := order[..|order| - 1], order[|order| - 1];
      assert order == front + [id];
      FinishFirstAt(s, w, ids, front);
    }
  }

  // ---- what a refresh leaves alone ----

  /** A session is as it was, or was active and is now over. */
  ghost predicate Rested(x: Session, y: Session, now: int) {
    y == x || (x.status.Active? && y == x.(status := Finished, end := Some(now)))
  }

  /** A session made in this refresh observes a process that had none. */
  ghost predicate Fresh(s: State, x: Session, hits: map<int, Rule>, byPid: map<int, Process>, now: int) {
    && x.pid in hits && x.pid in byPid && (x.pid, x.start) !in s.byIdentity
    && x.id.pid == x.pid && x.sessionStart == now && x.cmdline == byPid[x.pid].cmdline
    && x.matchedKind == hits[x.pid].kind && x.matchedValue == hits[x.pid].value
  }

  lemma AttachLeaves(s: State, w: Round, proc: Process, rule: Rule)
    requires WellFormed(s)
    ensures var t := Attach(s, w, proc, rule);
            var id := t.byIdentity[Key(proc)];
            && t.sessions.Keys == s.sessions.Keys + {id} && t.byIdentity == s.byIdentity[Key(proc) := id]
            && forall other :: other in s.sessions && other != id ==> Rested(s.sessions[other], t.sessions[other], w.now)
  {
    if Key(proc) in s.byIdentity {
      assert Indexed(s, Key(proc));
    } else {
      CreateAdds(s, w, proc, rule);
    }
  }

  ghost predicate Leaves(s: State, t: State, ids: set<SessionId>, hits: map<int, Rule>, byPid: map<int, Process>, now: int) {
    && (forall id :: id in s.sessions && id !in ids ==> id in t.sessions && Rested(s.sessions[id], t.sessions[id], now))
    && (forall id :: id in t.sessions && id !in s.sessions ==> id in ids && Fresh(s, t.sessions[id], hits, byPid, now))
  }

  lemma LeavesNext(s: State, t: State, u: State, ids: set<SessionId>, hits: map<int, Rule>, byPid: map<int, Process>,
                   now: int, id: SessionId)
    requires Kept(s, t) && Leaves(s, t, ids, hits, byPid, now)
    requires u.sessions.Keys == t.sessions.Keys + {id}
    requires forall other :: other in t.sessions && other != id ==> Rested(t.sessions[other], u.sessions[other], now)
    requires forall other :: other in ids ==> other in t.sessions && u.sessions[other] == t.sessions[other]
    requires id !in t.sessions ==> Fresh(t, u.sessions[id], hits, byPid, now)
    requires id in t.sessions && id !in s.sessions ==> CoreOf(u.sessions[id]) == CoreOf(t.sessions[id])
    ensures Leaves(s, u, ids + {id}, hits, byPid, now)
  {
    forall other | other in s.sessions && other !in ids + {id}
      ensures other in u.sessions && Rested(s.sessions[other], u.sessions[other], now)
    {
      assert Rested(s.sessions[other], t.sessions[other], now) && Rested(t.sessions[other], u.sessions[other], now);
    }
    forall other | other in u.sessions && other !in s.sessions
      ensures other in ids + {id} && Fresh(s, u.sessions[other], hits, byPid, now)
    {
      if other in t.sessions {
        assert Fresh(s, t.sessions[other], hits, byPid, now);
      }
    }
  }

  lemma LeavesStep(s: State, t: State, u: State, ids: set<SessionId>, hits: map<int, Rule>, byPid: map<int, Process>,
                   w: Round, pid: int)
    requires WellFormed(t) && Kept(s, t) && Leaves(s, t, ids, hits, byPid, w.now)
    requires pid in hits && pid in byPid && byPid[pid].pid == pid && u == Attach(t, w, byPid[pid], hits[pid])
    requires forall id :: id in ids ==> id in t.sessions && t.sessions[id].pid != pid
    ensures Leaves(s, u, ids + {u.byIdentity[Key(byPid[pid])]}, hits, byPid, w.now)
  {
    AttachKeeps(t, w, byPid[pid], hits[pid]);
    AttachLeaves(t, w, byPid[pid], hits[pid]);
    LeavesNext(s, t, u, ids, hits, byPid, w.now, u.byIdentity[Key(byPid[pid])]);
  }

  lemma {:induction false} AttachFirstLeaves(s: State, w: Round, hits: map<int, Rule>, byPid: map<int, Process>, pids: seq<int>)
    requires WellFormed(s) && NoDuplicates(pids)
    requires forall p :: p in pids ==> p in hits && p in byPid && byPid[p].pid == p
    ensures var a := AttachFirst(s, w, hits, byPid, pids); Leaves(s, a.state, a.ids, hits, byPid, w.now)
  {
    if pids != [] {
      var front, pid := pids[..|pids| - 1], pids[|pids| - 1];
      assert pids == front + [pid];
      AttachFirstLeaves(s, w, hits, byPid, front);
      AttachFirstKeeps(s, w, hits, byPid, front);
      AttachFirstObserves(s, w, hits, byPid, front);
      var a := AttachFirst(s, w, hits, byPid, front);
      LeavesStep(s, a.state, Attach(a.state, w, byPid[pid], hits[pid]), a.ids, hits, byPid, w, pid);
    }
  }

  // ---- one refresh ----

  lemma {:induction false} ByPidOwn(procs: seq<Process>)
    ensures forall p :: p in ByPid(procs) ==> ByPid(procs)[p].pid == p && ByPid(procs)[p] in procs
  {
    if procs != [] {
      ByPidOwn(procs[..|procs| - 1]);
    }
  }

  /** `AttachTargets` in one place: what the loop keeps, whom it attaches, what it leaves. */
  lemma TargetsAttached(s: State, w: Round, matches: (Rule, Process) -> bool)
    requires WellFormed(s)
    ensures var a := AttachTargets(s, w, matches);
            var pids := Targets(s.rules, w.procs, matches);
            && WellFormed(a.state) && Kept(s, a.state) && a.state.rules == s.rules
            && (OnePerProcess(s) ==> OnePerProcess(a.state)) && FileKept(s, a.state, w)
            && (forall p :: p in pids <==> p in Hits(s.rules, w.procs, matches)) && (forall p :: p in pids ==> p in ByPid(w.procs))
            && AllObserved(a.state, w, a.ids, ByPid(w.procs), pids)
            && Leaves(s, a.state, a.ids, Hits(s.rules, w.procs, matches), ByPid(w.procs), w.now)
  {
    TargetsSorted(s.rules, w.procs, matches);
    ByPidOwn(w.procs);
    var hits, byPid, pids := Hits(s.rules, w.procs, matches), ByPid(w.procs), Targets(s.rules, w.procs, matches);
    AttachFirstKeeps(s, w, hits, byPid, pids);
    AttachFirstObserves(s, w, hits, byPid, pids);
    AttachFirstLeaves(s, w, hits, byPid, pids);
  }

  /** The last loop, over all sessions. */
  ghost predicate AllClosed(u: State, t: State, ids: set<SessionId>, now: int) {
    && t.byIdentity == u.byIdentity && t.sessions.Keys == u.sessions.Keys
    && forall id :: id in u.sessions ==> u.sessions[id].id == id && t.sessions[id] == Closed(u.sessions[id], ids, now)
  }

  /** What every refresh keeps: the registry stays consistent, no session disappears or
      changes its id, process, command line or start, no process gets a second session, and
      the file stays in step. */
  lemma RefreshKeeps(s: State, w: Round, matches: (Rule, Process) -> bool)
    requires WellFormed(s)
    ensures var t := Refreshed(s, w, matches);
            && WellFormed(t) && Kept(s, t) && t.rules == s.rules
            && (OnePerProcess(s) ==> OnePerProcess(t)) && FileKept(s, t, w)
    ensures var a := AttachTargets(s, w, matches); AllClosed(a.state, Refreshed(s, w, matches), a.ids, w.now)
  {
    TargetsAttached(s, w, matches);
    var a := AttachTargets(s, w, matches);
    FinishFirstKeeps(a.state, w, a.ids, a.state.order);
    FinishCloses(a.state, w, a.ids);
  }

  lemma FinishCloses(u: State, w: Round, ids: set<SessionId>)
    requires WellFormed(u)
    ensures AllClosed(u, FinishFirst(u, w, ids, u.order), ids, w.now)
  {
    FinishFirstKeeps(u, w, ids, u.order);
    FinishFirstAt(u, w, ids, u.order);
    forall id | id in u.sessions
      ensures u.sessions[id].id == id
    {
      assert SessionOk(u, id);
    }
  }

  /** Exactly the attached sessions are active in the end. */
  lemma ObserversStay(u: State, t: State, w: Round, ids: set<SessionId>, byPid: map<int, Process>, pids: seq<int>, p: int)
    requires forall q :: q in pids ==> q in byPid
    requires AllObserved(u, w, ids, byPid, pids) && AllClosed(u, t, ids, w.now) && p in pids
    ensures Key(byPid[p]) in t.byIdentity && Observes(t, w, t.byIdentity[Key(byPid[p])], byPid[p])
  {
    assert Observes(u, w, u.byIdentity[Key(byPid[p])], byPid[p]);
  }

  lemma ActiveObserve(u: State, t: State, w: Round, ids: set<SessionId>, byPid: map<int, Process>, pids: seq<int>, id: SessionId)
    requires forall q :: q in pids ==> q in byPid
    requires AllObserved(u, w, ids, byPid, pids) && AllClosed(u, t, ids, w.now)
    requires id in t.sessions && t.sessions[id].status.Active?
    ensures t.sessions[id].pid in pids && Observes(t, w, id, byPid[t.sessions[id].pid])
  {
    assert id in u.sessions;
    assert id in ids;
    assert Observes(u, w, id, byPid[u.sessions[id].pid]);
  }

  /** The active sessions are exactly the observers of the matched processes, one each:
      every matched pid is observed, and a session is active only as the one observer of the
      process now running under a matched pid. */
  ghost predicate Watches(t: State, w: Round, hits: map<int, Rule>, byPid: map<int, Process>) {
    && (forall p :: p in hits ==>
          && p in byPid && (byPid[p].pid, byPid[p].start) in t.byIdentity
          && Observes(t, w, t.byIdentity[(byPid[p].pid, byPid[p].start)], byPid[p]))
    && (forall id :: id in t.sessions && t.sessions[id].status.Active? ==>
          t.sessions[id].pid in hits && t.sessions[id].pid in byPid && Observes(t, w, id, byPid[t.sessions[id].pid]))
  }

  /** So it is after every refresh. */
  lemma ActiveAreTargets(s: State, w: Round, matches: (Rule, Process) -> bool)
    requires WellFormed(s)
    ensures Watches(Refreshed(s, w, matches), w, Hits(s.rules, w.procs, matches), ByPid(w.procs))
  {
    TargetsAttached(s, w, matches);
    RefreshKeeps(s, w, matches);
    var a, t := AttachTargets(s, w, matches), Refreshed(s, w, matches);
    var byPid, pids := ByPid(w.procs), Targets(s.rules, w.procs, matches);
    forall p | p in pids
      ensures Key(byPid[p]) in t.byIdentity && Observes(t, w, t.byIdentity[Key(byPid[p])], byPid[p])
    {
      ObserversStay(a.state, t, w, a.ids, byPid, pids, p);
    }
    forall id | id in t.sessions && t.sessions[id].status.Active?
      ensures t.sessions[id].pid in pids && Observes(t, w, id, byPid[t.sessions[id].pid])
    {
      ActiveObserve(a.state, t, w, a.ids, byPid, pids, id);
    }
  }

  lemma LeavesClosed(s: State, u: State, t: State, w: Round, ids: set<SessionId>, hits: map<int, Rule>,
                     byPid: map<int, Process>, id: SessionId)
    requires Leaves(s, u, ids, hits, byPid, w.now) && AllClosed(u, t, ids, w.now) && id in t.sessions
    requires forall other :: other in ids ==> other in u.sessions && u.sessions[other].status.Active?
    ensures id in s.sessions && t.sessions[id].status.Finished? ==> Rested(s.sessions[id], t.sessions[id], w.now)
    ensures id !in s.sessions ==> t.sessions[id].status.Active? && Fresh(s, t.sessions[id], hits, byPid, w.now)
  {
    if id in s.sessions && id !in ids {
      assert Rested(s.sessions[id], u.sessions[id], w.now);
    } else if id !in s.sessions {
      assert Fresh(s, u.sessions[id], hits, byPid, w.now);
    }
  }

  /** A session that is over keeps all its data from then on, and one that stops being a
      target ends now; a new session is for a process that never had one, under a new id. */
  lemma OthersRest(s: State, w: Round, matches: (Rule, Process) -> bool)
    requires WellFormed(s)
    ensures var t := Refreshed(s, w, matches);
            && (forall id :: id in s.sessions && id in t.sessions && t.sessions[id].status.Finished? ==>
                  Rested(s.sessions[id], t.sessions[id], w.now))
            && (forall id :: id in t.sessions && id !in s.sessions ==>
                  && t.sessions[id].status.Active?
                  && Fresh(s, t.sessions[id], Hits(s.rules, w.procs, matches), ByPid(w.procs), w.now))
  {
    TargetsAttached(s, w, matches);
    RefreshKeeps(s, w, matches);
    var a, t := AttachTargets(s, w, matches), Refreshed(s, w, matches);
    var hits, byPid := Hits(s.rules, w.procs, matches), ByPid(w.procs);
    forall other | other in a.ids
      ensures other in a.state.sessions && a.state.sessions[other].status.Active?
    {
      assert Observes(a.state, w, other, byPid[a.state.sessions[other].pid]);
    }
    forall id | id in t.sessions
      ensures id in s.sessions && t.sessions[id].status.Finished? ==> Rested(s.sessions[id], t.sessions[id], w.now)
      ensures id !in s.sessions ==> t.sessions[id].status.Active? && Fresh(s, t.sessions[id], hits, byPid, w.now)
    {
      LeavesClosed(s, a.state, t, w, a.ids, hits, byPid, id);
    }
  }

  // ---- the matched processes ----

  /** Process `i` is the last listed under its pid. */
  ghost predicate LastOfPid(procs: seq<Process>, p: int, i: nat) {
    i < |procs| && procs[i].pid == p && forall j :: i < j < |procs| ==> procs[j].pid != p
  }

  /** Process `i` is the last under its pid that a rule matches; `rule` is the first such. */
  ghost predicate LastMatch(rules: seq<Rule>, procs: seq<Process>, matches: (Rule, Process) -> bool, p: int, i: nat, rule: Rule) {
    && i < |procs| && procs[i].pid == p && FirstMatch(rules, procs[i], matches) == Some(rule)
    && forall j :: i < j < |procs| && procs[j].pid == p ==> FirstMatch(rules, procs[j], matches).None?
  }

  ghost predicate Matched(rules: seq<Rule>, procs: seq<Process>, matches: (Rule, Process) -> bool, p: int) {
    exists i :: 0 <= i < |procs| && procs[i].pid == p && FirstMatch(rules, procs[i], matches).Some?
  }

  /** The process looked up for a pid is the last one listed under it. */
  lemma {:induction false} ByPidExact(procs: seq<Process>, p: int)
    ensures p in ByPid(procs) <==> exists i :: 0 <= i < |procs| && procs[i].pid == p
    ensures p in ByPid(procs) ==> exists i: nat :: LastOfPid(procs, p, i) && procs[i] == ByPid(procs)[p]
  {
    if procs != [] {
      var front, last := procs[..|procs| - 1], procs[|procs| - 1];
      ByPidExact(front, p);
      assert forall i :: 0 <= i < |front| ==> front[i] == procs[i];
      if last.pid == p {
        assert LastOfPid(procs, p, |front|);
      } else if p in ByPid(front) {
        var i: nat :| LastOfPid(front, p, i) && front[i] == ByPid(front)[p];
        assert LastOfPid(procs, p, i);
      }
    }
  }

  /** `resolve` finds a pid exactly when a rule matches a process listed under it, and then
      takes the first rule that matches the last such process. */
  lemma {:induction false} HitsExact(rules: seq<Rule>, procs: seq<Process>, matches: (Rule, Process) -> bool, p: int)
    ensures p in Hits(rules, procs, matches) <==> Matched(rules, procs, matches, p)
    ensures p in Hits(rules, procs, matches) ==>
              exists i :: LastMatch(rules, procs, matches, p, i, Hits(rules, procs, matches)[p])
  {
    if procs != [] {
      var front, last := procs[..|procs| - 1], procs[|procs| - 1];
      HitsExact(rules, front, matches, p);
      assert forall i :: 0 <= i < |front| ==> front[i] == procs[i];
      assert procs[|front|] == last;
      if last.pid == p && FirstMatch(rules, last, matches).Some? {
        assert LastMatch(rules, procs, matches, p, |front|, FirstMatch(rules, last, matches).value);
      } else if p in Hits(rules, front, matches) {
        var i :| LastMatch(rules, front, matches, p, i, Hits(rules, front, matches)[p]);
        assert LastMatch(rules, procs, matches, p, i, Hits(rules, procs, matches)[p]);
      }
    }
  }

  ghost predicate DistinctPids(procs: seq<Process>) {
    forall i, j :: 0 <= i < j < |procs| ==> procs[i].pid != procs[j].pid
  }

  /** With one process per pid, the process observed is the one that was matched. */
  lemma HitsDistinct(rules: seq<Rule>, procs: seq<Process>, matches: (Rule, Process) -> bool, i: nat)
    requires DistinctPids(procs) && i < |procs|
    ensures procs[i].pid in ByPid(procs) && ByPid(procs)[procs[i].pid] == procs[i]
    ensures var found := FirstMatch(rules, procs[i], matches);
            var hits := Hits(rules, procs, matches);
            (procs[i].pid in hits <==> found.Some?) && (found.Some? ==> hits[procs[i].pid] == found.value)
  {
    ByPidExact(procs, procs[i].pid);
    HitsExact(rules, procs, matches, procs[i].pid);
  }

  /** The rule found is the first of those that match. */
  lemma {:induction false} FirstMatchExact(rules: seq<Rule>, proc: Process, matches: (Rule, Process) -> bool)
    ensures match FirstMatch(rules, proc, matches)
            case None => forall i :: 0 <= i < |rules| ==> !matches(rules[i], proc)
            case Some(rule) => exists i :: 0 <= i < |rules| && rules[i] == rule && matches(rule, proc)
                                 && forall j :: 0 <= j < i ==> !matches(rules[j], proc)
  {
    if rules != [] {
      if matches(rules[0], proc) {
        assert rules[0] == FirstMatch(rules, proc, matches).value;
      } else {
        FirstMatchExact(rules[1..], proc, matches);
        match FirstMatch(rules, proc, matches)
        case None =>
          assert forall i :: 1 <= i < |rules| ==> rules[i] == rules[1..][i - 1];
        case Some(rule) =>
          var i :| 0 <= i < |rules[1..]| && rules[1..][i] == rule && matches(rule, proc)
            && forall j :: 0 <= j < i ==> !matches(rules[1..][j], proc);
          assert rules[i + 1] == rule;
          assert forall j :: 1 <= j < i + 1 ==> rules[j] == rules[1..][j - 1];
      }
    }
  }
}
