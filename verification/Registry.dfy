/** The registry itself (src/telemetryd/backend/targets.py:99-266): fields updated in place,
    each method equal to its specification. */
module Registry {
  import opened Common
  import opened Sessions
  import opened Refresh
  import opened Restart

  class TargetRegistry {
    const max: nat
    var rules: seq<Rule>
    var sessions: map<SessionId, Session>
    var order: seq<SessionId>
    var byIdentity: map<Identity, SessionId>
    var disk: Saved

    function Now(): State
      reads this
    {
      State(max, rules, sessions, order, byIdentity, disk)
    }

    ghost predicate Valid()
      reads this
    {
      Sound(Now())
    }

    constructor (max: nat, file: Saved)
      ensures Now() == Loaded(max, file)
      ensures DiskOk(file) ==> Valid()
    {
      this.max, disk, rules, sessions, order, byIdentity := max, file, ValidRules(file.rules), map[], [], map[];
      new;
      var i := 0;
      while i < |file.sessions|
        invariant 0 <= i <= |file.sessions|
        invariant Now() == LoadAll(Empty(max, file), file.sessions[..i])
      {
        var x := file.sessions[i];
        assert file.sessions[..i + 1][..i] == file.sessions[..i];
        if x.id !in sessions {
          order := order + [x.id];
        }
        sessions := sessions[x.id := Restored(x)];
        byIdentity := byIdentity[IdentityOf(x) := x.id];
        i := i + 1;
      }
      assert file.sessions[..i] == file.sessions;
      if DiskOk(file) {
        LoadedSound(max, file);
      }
    }

    /** `_save`: the rules and the latest sessions as they are; a failing write changes nothing. */
    method Write(writable: bool)
      modifies `disk
      ensures Now() == Save(old(Now()), writable)
      ensures writable && (forall id :: id in order ==> id in sessions) ==> Written(Now())
      ensures !writable ==> disk == old(disk)
    {
      if writable {
        disk := Saved(rules, Values(sessions, Tail(order, max)));
        if forall id :: id in order ==> id in sessions {
          ValuesWritten(Now());
        }
      }
    }

    /** The rules may change, and the file with them if it can be written; nothing else. */
    twostate predicate OnlyRules(writable: bool)
      reads this
    {
      && sessions == old(sessions) && order == old(order) && byIdentity == old(byIdentity)
      && (writable && old(Valid()) ==> Written(Now())) && (!writable ==> disk == old(disk))
    }

    // ---- rules ----

    /** An unknown kind is refused; a repeated rule only changes its adapter. */
    method AddRule(rule: Rule, writable: bool) returns (ok: bool)
      modifies this
      ensures ok <==> KnownKind(rule.kind)
      ensures ok ==> OnlyRules(writable) && rules == WithRule(old(rules), rule)
      ensures !ok ==> Now() == old(Now())
      ensures Now() == RuleAdded(old(Now()), rule, writable)
      ensures old(Valid()) ==> Valid()
    {
      ghost var was := Now();
      ok := rule.kind in VALID_KINDS;
      if ok {
        var i := Position(rules, rule);
        if i < |rules| {
          rules := rules[i := rules[i].(adapter := rule.adapter)];
        } else {
          rules := rules + [rule];
        }
        Write(writable);
      }
      if Sound(was) {
        AddKeeps(was, rule, writable);
      }
    }

    method RemoveRule(kind: string, value: string, writable: bool) returns (changed: bool)
      modifies this
      ensures changed <==> HasRule(old(rules), kind, value)
      ensures changed ==> OnlyRules(writable) && rules == WithoutRule(old(rules), kind, value)
      ensures !changed ==> Now() == old(Now())
      ensures Now() == RuleRemoved(old(Now()), kind, value, writable)
      ensures old(Valid()) ==> Valid()
    {
      ghost var was := Now();
      var before := |rules|;
      rules := WithoutRule(rules, kind, value);
      changed := |rules| != before;
      if changed {
        Write(writable);
      }
      WithoutRuleShorter(was.rules, kind, value);
      WithoutRuleExact(was.rules, kind, value);
      if Sound(was) {
        RemoveKeeps(was, kind, value, writable);
      }
    }

    method ClearRules(writable: bool)
      modifies this
      ensures OnlyRules(writable) && rules == []
      ensures Now() == RulesCleared(old(Now()), writable)
      ensures old(Valid()) ==> Valid()
    {
      ghost var was := Now();
      rules := [];
      Write(writable);
      if Sound(was) {
        RulesSaved(was, [], writable);
      }
    }

    // ---- refresh ----

    method CloseStaleSessions(proc: Process, now: int)
      modifies `sessions
      ensures sessions == CloseFirst(old(sessions), order, proc, now)
      ensures sessions.Keys == old(sessions).Keys
      ensures forall id :: id in order && id in sessions ==>
                sessions[id] ==
                var x := old(sessions)[id];
                if x.pid == proc.pid && x.status.Active? && x.start != proc.start then x.(status := Finished, end := Some(now)) else x
    {
      var i := 0;
      while i < |order|
        invariant 0 <= i <= |order|
        invariant sessions == CloseFirst(old(sessions), order[..i], proc, now)
      {
        assert order[..i + 1][..i] == order[..i];
        var id := order[i];
        if id in sessions && sessions[id].pid == proc.pid && sessions[id].status.Active? && sessions[id].start != proc.start {
          sessions := sessions[id := Ended(sessions[id], now)];
        } else if id in sessions {
          assert sessions == sessions[id := sessions[id]];
        }
        i := i + 1;
      }
      assert order[..i] == order;
      CloseFirstAt(old(sessions), order, proc, now);
    }

    /** One round of the attach loop. */
    method AttachOne(w: Round, proc: Process, rule: Rule) returns (id: SessionId)
      modifies this
      ensures Now() == Attach(old(Now()), w, proc, rule) && id == byIdentity[Key(proc)]
    {
      ghost var was := Now();
      if Known(Now(), Key(proc)) {
        id := byIdentity[Key(proc)];
      } else {
        id := SessionIdFor(proc.pid, proc.start, w.stamp(|order|), sessions.Keys);
        CloseFirstAt(sessions, order, proc, w.now);
        CloseStaleSessions(proc, w.now);
        sessions := sessions[id := NewSession(id, proc, rule, w.now)];
        order := order + [id];
        byIdentity := byIdentity[Key(proc) := id];
        Write(w.writable);
        assert Now() == Create(was, w, proc, rule);
      }
      sessions := sessions[id := Updated(sessions[id], proc, OfPid(w.stats, proc.pid))];
    }

    /** Whatever was active and not attached is over. */
    method FinishOthers(w: Round, ids: set<SessionId>)
      modifies this
      ensures Now() == FinishFirst(old(Now()), w, ids, old(order))
      ensures sessions.Keys == old(sessions).Keys
      ensures forall id :: id in order && id in sessions ==>
                sessions[id] ==
                var x := old(sessions)[id];
                if x.status.Active? && id !in ids then x.(status := Finished, end := Some(w.now)) else x
    {
      var i := 0;
      while i < |order|
        invariant order == old(order) && 0 <= i <= |order|
        invariant Now() == FinishFirst(old(Now()), w, ids, order[..i])
      {
        assert order[..i + 1][..i] == order[..i];
        var id := order[i];
        if id in sessions && sessions[id].status.Active? && id !in ids {
          sessions := sessions[id := Ended(sessions[id], w.now)];
          Write(w.writable);
        }
        i := i + 1;
      }
      assert order[..i] == order;
      FinishFirstAt(old(Now()), w, ids, order);
    }

    /** One refresh leaves exactly the matched processes observed. */
    method RefreshSessions(w: Round, matches: (Rule, Process) -> bool)
      modifies this
      ensures Now() == Refreshed(old(Now()), w, matches)
      ensures old(Valid()) ==>
                && Valid() && Kept(old(Now()), Now())
                && Watches(Now(), w, Hits(old(rules), w.procs, matches), ByPid(w.procs))
    {
      ghost var was := Now();
      var attached := AttachLoop(w, matches);
      FinishOthers(w, attached);
      if Sound(was) {
        RefreshSound(was, w, matches);
      }
    }

    /** The attach loop: the targets in order of pid. */
    method AttachLoop(w: Round, matches: (Rule, Process) -> bool) returns (ids: set<SessionId>)
      modifies this
      ensures Attached(Now(), ids) == AttachTargets(old(Now()), w, matches)
    {
      ghost var was := Now();
      var byPid := ByPid(w.procs);
      var hits := Resolve(rules, w.procs, matches);
      var pids := Targets(rules, w.procs, matches);
      TargetsSorted(rules, w.procs, matches);
      ids := {};
      var i := 0;
      while i < |pids|
        invariant 0 <= i <= |pids|
        invariant forall p :: p in pids ==> p in hits && p in byPid
        invariant Attached(Now(), ids) == AttachFirst(was, w, hits, byPid, pids[..i])
      {
        assert pids[..i + 1][..i] == pids[..i];
        var id := AttachOne(w, byPid[pids[i]], hits[pids[i]]);
        ids := ids + {id};
        i := i + 1;
      }
      assert pids[..i] == pids;
    }
  }

  /** The first rule of the same kind and value, or the number of rules. */
  method Position(rules: seq<Rule>, rule: Rule) returns (i: nat)
    ensures i <= |rules|
    ensures WithRule(rules, rule) ==
            if i < |rules| then rules[i := rules[i].(adapter := rule.adapter)] else rules + [rule]
  {
    i := 0;
    while i < |rules| && !SameRule(rules[i], rule)
      invariant i <= |rules| && forall j :: 0 <= j < i ==> !SameRule(rules[j], rule)
    {
      i := i + 1;
    }
    WithRuleAt(rules, rule, i);
  }

  ghost predicate HasRule(rules: seq<Rule>, kind: string, value: string) {
    exists i :: 0 <= i < |rules| && rules[i].kind == kind && rules[i].value == value
  }

  lemma {:induction false} WithoutRuleShorter(rules: seq<Rule>, kind: string, value: string)
    ensures |WithoutRule(rules, kind, value)| <= |rules|
    ensures |WithoutRule(rules, kind, value)| != |rules| <==> HasRule(rules, kind, value)
  {
    if rules != [] {
      WithoutRuleShorter(rules[1..], kind, value);
      assert HasRule(rules, kind, value) <==> (rules[0].kind == kind && rules[0].value == value) || HasRule(rules[1..], kind, value) by {
        if HasRule(rules[1..], kind, value) {
          var i :| 0 <= i < |rules[1..]| && rules[1..][i].kind == kind && rules[1..][i].value == value;
          assert rules[i + 1].kind == kind;
        }
        assert forall i :: 1 <= i < |rules| ==> rules[i] == rules[1..][i - 1];
      }
    }
  }

  /** `resolve`: for each process, the first rule that matches it. */
  method Resolve(rules: seq<Rule>, procs: seq<Process>, matches: (Rule, Process) -> bool) returns (hits: map<int, Rule>)
    ensures hits == Hits(rules, procs, matches)
  {
    hits := map[];
    var i := 0;
    while i < |procs|
      invariant 0 <= i <= |procs|
      invariant hits == Hits(rules, procs[..i], matches)
    {
      assert procs[..i + 1][..i] == procs[..i];
      var k := 0;
      while k < |rules| && !matches(rules[k], procs[i])
        invariant 0 <= k <= |rules|
        invariant FirstMatch(rules, procs[i], matches) == FirstMatch(rules[k..], procs[i], matches)
      {
        assert rules[k..][1..] == rules[k + 1..];
        k := k + 1;
      }
      if k < |rules| {
        hits := hits[procs[i].pid := rules[k]];
      }
      i := i + 1;
    }
    assert procs[..i] == procs;
  }
}
