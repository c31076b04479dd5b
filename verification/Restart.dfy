/** Loading the state file, rule edits and whole runs of the registry
    (src/telemetryd/backend/targets.py:113-183): what holds after any sequence of edits,
    refreshes and restarts, and what a restart gives back. */
module Restart {
  import opened Common
  import opened Sessions
  import opened Refresh

  // ---- loading ----

  function ValidRules(rules: seq<Rule>): seq<Rule> {
    if rules == [] then []
    else ValidRules(rules[..|rules| - 1]) + if rules[|rules| - 1].kind in VALID_KINDS then [rules[|rules| - 1]] else []
  }

  lemma {:induction false} ValidRulesValid(rules: seq<Rule>)
    ensures RulesValid(ValidRules(rules))
    ensures RulesValid(rules) ==> ValidRules(rules) == rules
  {
    if rules != [] {
      assert rules == rules[..|rules| - 1] + [rules[|rules| - 1]];
      ValidRulesValid(rules[..|rules| - 1]);
    }
  }

  /** The kinds the registry knows. */
  ghost predicate KnownKind(kind: string) {
    kind == "pid" || kind == "name" || kind == "name_pattern" || kind == "cmdline_pattern"
  }

  /** Of the rules of a file those of a known kind are taken, */
  lemma {:induction false} ValidRulesExact(rules: seq<Rule>)
    ensures forall r :: r in ValidRules(rules) <==> r in rules && KnownKind(r.kind)
  {
    if rules != [] {
      var front := rules[..|rules| - 1];
      assert rules == front + [rules[|rules| - 1]];
      ValidRulesExact(front);
    }
  }

  /** in their order and as often as they occur. */
  lemma {:induction false} ValidRulesAppend(a: seq<Rule>, b: seq<Rule>)
    ensures ValidRules(a + b) == ValidRules(a) + ValidRules(b)
  {
    if b == [] {
      assert a + b == a;
    } else {
      ValidRulesAppend(a, b[..|b| - 1]);
      assert (a + b)[..|a + b| - 1] == a + b[..|b| - 1];
    }
  }

  /** A loaded session is over until its process is seen again; the measurements are not in
      the file. */
  function Restored(x: Session): Session { x.(status := Finished, iops := 0.0) }

  function LoadOne(s: State, x: Session): State {
    s.(sessions := s.sessions[x.id := Restored(x)],
       order := if x.id in s.sessions then s.order else s.order + [x.id],
       byIdentity := s.byIdentity[IdentityOf(x) := x.id])
  }

  function LoadAll(s: State, file: seq<Session>): State {
    if file == [] then s else LoadOne(LoadAll(s, file[..|file| - 1]), file[|file| - 1])
  }

  function Empty(max: nat, disk: Saved): State { State(max, ValidRules(disk.rules), map[], [], map[], disk) }

  /** `_load`. A missing or unreadable file loads like an empty one. */
  function Loaded(max: nat, disk: Saved): State { LoadAll(Empty(max, disk), disk.sessions) }

  ghost predicate HasLoaded(t: State, x: Session) {
    && x.id in t.order && x.id in t.sessions && t.sessions[x.id] == x.(status := Finished, iops := 0.0)
    && (x.pid, x.start) in t.byIdentity && t.byIdentity[(x.pid, x.start)] == x.id
  }

  /** `t` holds the sessions of the file, in order, and nothing else. */
  ghost predicate Holds(t: State, file: seq<Session>) {
    && |t.order| == |file| && (forall i :: 0 <= i < |file| ==> t.order[i] == file[i].id && HasLoaded(t, file[i]))
    && (forall id :: id in t.sessions ==> id in t.order)
    && (forall i :: i in t.byIdentity ==> Indexed(t, i))
  }

  lemma NewId(s: State, front: seq<Session>, x: Session)
    requires Holds(s, front) && forall i :: 0 <= i < |front| ==> front[i].id != x.id
    ensures x.id !in s.sessions
  {
    assert forall i :: 0 <= i < |s.order| ==> s.order[i] != x.id;
  }

  lemma LoadOneHolds(s: State, front: seq<Session>, x: Session)
    requires Holds(s, front)
    requires forall i :: 0 <= i < |front| ==> front[i].id != x.id && (front[i].pid, front[i].start) != (x.pid, x.start)
    ensures Holds(LoadOne(s, x), front + [x])
  {
    var t, file := LoadOne(s, x), front + [x];
    NewId(s, front, x);
    forall i | 0 <= i < |file|
      ensures t.order[i] == file[i].id && HasLoaded(t, file[i])
    {
      if i < |front| {
        assert HasLoaded(s, front[i]);
      }
    }
    forall i | i in t.byIdentity
      ensures Indexed(t, i)
    {
      if i != IdentityOf(x) {
        assert Indexed(s, i);
      }
    }
  }

  lemma DiskSplits(rules: seq<Rule>, file: seq<Session>)
    requires DiskOk(Saved(rules, file)) && file != []
    ensures var front, x := file[..|file| - 1], file[|file| - 1];
            && DiskOk(Saved(rules, front))
            && forall i :: 0 <= i < |front| ==> front[i].id != x.id && (front[i].pid, front[i].start) != (x.pid, x.start)
  {
  }

  lemma {:induction false} LoadAllHolds(max: nat, disk: Saved, file: seq<Session>)
    requires DiskOk(Saved(disk.rules, file))
    ensures var t := LoadAll(Empty(max, disk), file);
            Holds(t, file) && t.max == max && t.rules == ValidRules(disk.rules) && t.disk == disk
  {
    if file != [] {
      var front, x := file[..|file| - 1], file[|file| - 1];
      DiskSplits(disk.rules, file);
      LoadAllHolds(max, disk, front);
      assert file == front + [x];
      LoadOneHolds(LoadAll(Empty(max, disk), front), front, x);
    }
  }

  /** A registry that can be observed: consistent, one session per process, a usable file. */
  ghost predicate Sound(s: State) { WellFormed(s) && OnePerProcess(s) && DiskOk(s.disk) }

  lemma HoldsSound(t: State, file: seq<Session>)
    requires Holds(t, file) && DiskOk(Saved([], file))
    ensures Ordered(t) && OnePerProcess(t)
    ensures forall id :: id in t.sessions ==> SessionOk(t, id) && t.sessions[id].status.Finished?
  {
    forall id | id in t.sessions
      ensures SessionOk(t, id) && t.sessions[id].status.Finished?
      ensures (t.sessions[id].pid, t.sessions[id].start) in t.byIdentity
      ensures t.byIdentity[(t.sessions[id].pid, t.sessions[id].start)] == id
    {
      var i :| 0 <= i < |t.order| && t.order[i] == id;
      assert HasLoaded(t, file[i]);
    }
    assert forall i :: 0 <= i < |t.order| ==> HasLoaded(t, file[i]);
    forall i, j | 0 <= i < j < |t.order|
      ensures t.order[i] != t.order[j]
    {
      assert file[i].id != file[j].id;
    }
  }

  lemma HoldsSynced(t: State, file: seq<Session>)
    requires Holds(t, file) && t.disk.sessions == file && t.disk.rules == t.rules && (t.max == 0 || |file| <= t.max)
    ensures Synced(t)
  {
    forall j | 0 <= j < Room(t)
      ensures InFile(t, t.order[|t.order| - Room(t) + j], file[j])
    {
      assert HasLoaded(t, file[j]);
    }
  }

  /** Loading a usable file gives a sound registry in step with it, unless the file holds
      more sessions than would be written. Nothing is active. */
  lemma LoadedSound(max: nat, disk: Saved)
    requires DiskOk(disk)
    ensures var t := Loaded(max, disk);
            && Sound(t) && Holds(t, disk.sessions) && t.max == max && t.rules == ValidRules(disk.rules) && t.disk == disk
            && forall id :: id in t.sessions ==> t.sessions[id].status.Finished?
    ensures RulesValid(disk.rules) && (max == 0 || |disk.sessions| <= max) ==> Synced(Loaded(max, disk))
  {
    LoadAllHolds(max, disk, disk.sessions);
    ValidRulesValid(disk.rules);
    var t := Loaded(max, disk);
    HoldsSound(t, disk.sessions);
    if RulesValid(disk.rules) && (max == 0 || |disk.sessions| <= max) {
      HoldsSynced(t, disk.sessions);
    }
  }

  // ---- any file ----

  ghost predicate LastWithId(file: seq<Session>, k: nat) {
    k < |file| && forall j :: k < j < |file| ==> file[j].id != file[k].id
  }

  ghost predicate LastOfProcess(file: seq<Session>, k: nat) {
    k < |file| && forall j :: k < j < |file| ==> (file[j].pid, file[j].start) != (file[k].pid, file[k].start)
  }

  /** Of each id the last entry counts. */
  function SessionsIn(file: seq<Session>): map<SessionId, Session> {
    if file == [] then map[] else SessionsIn(file[..|file| - 1])[file[|file| - 1].id := Restored(file[|file| - 1])]
  }

  /** And of each process. */
  function IndexIn(file: seq<Session>): map<Identity, SessionId> {
    if file == [] then map[] else IndexIn(file[..|file| - 1])[IdentityOf(file[|file| - 1]) := file[|file| - 1].id]
  }

  lemma {:induction false} LoadAllIs(max: nat, disk: Saved, file: seq<Session>)
    ensures var t := LoadAll(Empty(max, disk), file);
            t.sessions == SessionsIn(file) && t.byIdentity == IndexIn(file) && t.rules == ValidRules(disk.rules)
  {
    if file != [] {
      LoadAllIs(max, disk, file[..|file| - 1]);
    }
  }

  lemma {:induction false} LoadAllOrdered(max: nat, disk: Saved, file: seq<Session>)
    ensures Ordered(LoadAll(Empty(max, disk), file))
  {
    if file != [] {
      LoadAllOrdered(max, disk, file[..|file| - 1]);
    }
  }

  lemma {:induction false} SessionIn(file: seq<Session>, k: nat)
    requires LastWithId(file, k)
    ensures file[k].id in SessionsIn(file) && SessionsIn(file)[file[k].id] == Restored(file[k])
  {
    var n := |file| - 1;
    if k < n {
      assert file[n].id != file[k].id && LastWithId(file[..n], k);
      SessionIn(file[..n], k);
    }
  }

  lemma {:induction false} SessionFrom(file: seq<Session>, id: SessionId) returns (k: nat)
    requires id in SessionsIn(file)
    ensures LastWithId(file, k) && file[k].id == id
  {
    k := |file| - 1;
    if file[k].id != id {
      k := SessionFrom(file[..|file| - 1], id);
    }
  }

  lemma {:induction false} ProcessIn(file: seq<Session>, k: nat)
    requires LastOfProcess(file, k)
    ensures IdentityOf(file[k]) in IndexIn(file) && IndexIn(file)[IdentityOf(file[k])] == file[k].id
  {
    var n := |file| - 1;
    if k < n {
      assert IdentityOf(file[n]) != IdentityOf(file[k]) && LastOfProcess(file[..n], k);
      ProcessIn(file[..n], k);
    }
  }

  lemma {:induction false} ProcessFrom(file: seq<Session>, i: Identity) returns (k: nat)
    requires i in IndexIn(file)
    ensures LastOfProcess(file, k) && IdentityOf(file[k]) == i
  {
    k := |file| - 1;
    if IdentityOf(file[k]) != i {
      k := ProcessFrom(file[..|file| - 1], i);
    }
  }

  lemma {:induction false} LastEntry(file: seq<Session>, k: nat) returns (m: nat)
    requires k < |file|
    ensures k <= m && LastWithId(file, m) && file[m].id == file[k].id
    decreases |file| - k
  {
    if LastWithId(file, k) {
      m := k;
    } else {
      var j :| k < j < |file| && file[j].id == file[k].id;
      m := LastEntry(file, j);
    }
  }

  ghost predicate LeadsHome(sessions: map<SessionId, Session>, index: map<Identity, SessionId>, i: Identity)
    requires i in index
  {
    index[i] in sessions && IdentityOf(sessions[index[i]]) == i
  }

  lemma LeadsHomeExact(file: seq<Session>, k: nat)
    requires LastOfProcess(file, k)
    ensures IdentityOf(file[k]) in IndexIn(file)
    ensures LeadsHome(SessionsIn(file), IndexIn(file), IdentityOf(file[k])) <==> LastWithId(file, k)
  {
    ProcessIn(file, k);
    var m := LastEntry(file, k);
    SessionIn(file, m);
  }

  /** In the file, the last entry of each process is also the last one with its id. */
  ghost predicate ConsistentFile(file: seq<Session>) {
    forall k: nat :: LastOfProcess(file, k) ==> LastWithId(file, k)
  }

  ghost predicate AllLeadHome(sessions: map<SessionId, Session>, index: map<Identity, SessionId>) {
    forall i :: i in index ==> LeadsHome(sessions, index, i)
  }

  lemma IndexExact(file: seq<Session>)
    ensures AllLeadHome(SessionsIn(file), IndexIn(file)) <==> ConsistentFile(file)
  {
    if ConsistentFile(file) {
      forall i | i in IndexIn(file)
        ensures LeadsHome(SessionsIn(file), IndexIn(file), i)
      {
        var k := ProcessFrom(file, i);
        LeadsHomeExact(file, k);
      }
    }
    if AllLeadHome(SessionsIn(file), IndexIn(file)) {
      forall k: nat | LastOfProcess(file, k)
        ensures LastWithId(file, k)
      {
        LeadsHomeExact(file, k);
      }
    }
  }

  /** The last entry of an id, as loaded: over, and without the measured rate. */
  ghost predicate LoadedLast(t: State, file: seq<Session>, k: nat) {
    LastWithId(file, k) ==>
      file[k].id in t.sessions && t.sessions[file[k].id] == file[k].(status := Finished, iops := 0.0)
  }

  /** The last entry of a process leads to its id. */
  ghost predicate IndexedLast(t: State, file: seq<Session>, k: nat) {
    LastOfProcess(file, k) ==>
      (file[k].pid, file[k].start) in t.byIdentity && t.byIdentity[(file[k].pid, file[k].start)] == file[k].id
  }

  /** Any file, repetitions or not, loads with the last entry of each id, none active, and the
      last entry of each process, and nothing else; the result is consistent exactly for a
      consistent file. */
  lemma LoadedExact(max: nat, disk: Saved)
    ensures var t, file := Loaded(max, disk), disk.sessions;
            && (forall k: nat :: LoadedLast(t, file, k) && IndexedLast(t, file, k))
            && (forall id :: id in t.sessions ==> exists k: nat :: LastWithId(file, k) && file[k].id == id)
            && (forall i :: i in t.byIdentity ==> exists k: nat :: LastOfProcess(file, k) && (file[k].pid, file[k].start) == i)
    ensures WellFormed(Loaded(max, disk)) <==> ConsistentFile(disk.sessions)
  {
    var t, file := Loaded(max, disk), disk.sessions;
    LoadAllIs(max, disk, file);
    forall k: nat
      ensures LoadedLast(t, file, k) && IndexedLast(t, file, k)
    {
      if LastWithId(file, k) {
        SessionIn(file, k);
      }
      if LastOfProcess(file, k) {
        ProcessIn(file, k);
      }
    }
    forall id | id in t.sessions
      ensures exists k: nat :: LastWithId(file, k) && file[k].id == id
    {
      var k := SessionFrom(file, id);
    }
    forall i | i in t.byIdentity
      ensures exists k: nat :: LastOfProcess(file, k) && (file[k].pid, file[k].start) == i
    {
      var k := ProcessFrom(file, i);
    }
    LoadedConsistent(max, disk);
  }

  lemma LoadedConsistent(max: nat, disk: Saved)
    ensures WellFormed(Loaded(max, disk)) <==> ConsistentFile(disk.sessions)
  {
    var t, file := Loaded(max, disk), disk.sessions;
    LoadAllIs(max, disk, file);
    LoadAllOrdered(max, disk, file);
    ValidRulesValid(disk.rules);
    forall id | id in t.sessions
      ensures SessionOk(t, id)
    {
      var k := SessionFrom(file, id);
      SessionIn(file, k);
    }
    IndexExact(file);
    assert AllLeadHome(t.sessions, t.byIdentity) <==> forall i :: i in t.byIdentity ==> Indexed(t, i) by {
      assert forall i :: i in t.byIdentity ==> (Indexed(t, i) <==> LeadsHome(t.sessions, t.byIdentity, i));
    }
  }

  // ---- rule edits ----

  lemma SameSessions(s: State, t: State)
    requires WellFormed(s) && RulesValid(t.rules) && t.max == s.max
    requires t.sessions == s.sessions && t.order == s.order && t.byIdentity == s.byIdentity
    ensures WellFormed(t) && Kept(s, t) && (OnePerProcess(s) ==> OnePerProcess(t))
  {
    forall id | id in t.sessions
      ensures SessionOk(t, id)
    {
      assert SessionOk(s, id);
    }
    forall i | i in t.byIdentity
      ensures Indexed(t, i)
    {
      assert Indexed(s, i);
    }
  }

  /** New rules, saved if the file can be written. */
  lemma RulesSaved(s: State, rules: seq<Rule>, writable: bool)
    requires Sound(s) && RulesValid(rules)
    ensures var t := Save(s.(rules := rules), writable);
            && Sound(t) && Kept(s, t) && t.sessions == s.sessions && t.order == s.order && t.byIdentity == s.byIdentity
            && t.rules == rules && (writable ==> Synced(t))
  {
    var u := s.(rules := rules);
    SameSessions(s, u);
    SaveSyncs(u);
    SaveDiskOk(u);
    SameSessions(u, Save(u, writable));
  }

  /** The one entry for a kind and value; at most one rule has them. */
  ghost predicate OneRuleEach(rules: seq<Rule>) {
    forall i, j :: 0 <= i < j < |rules| ==> (rules[i].kind, rules[i].value) != (rules[j].kind, rules[j].value)
  }

  predicate SameRule(r: Rule, rule: Rule) { r.kind == rule.kind && r.value == rule.value }

  lemma {:induction false} WithRuleAt(rules: seq<Rule>, rule: Rule, i: nat)
    requires i <= |rules| && forall j :: 0 <= j < i ==> !SameRule(rules[j], rule)
    requires i < |rules| ==> SameRule(rules[i], rule)
    ensures WithRule(rules, rule) == if i < |rules| then rules[i := rules[i].(adapter := rule.adapter)] else rules + [rule]
  {
    if i > 0 {
      WithRuleAt(rules[1..], rule, i - 1);
    }
  }

  ghost predicate FirstSame(rules: seq<Rule>, rule: Rule, i: nat) {
    i < |rules| && SameRule(rules[i], rule) && forall j :: 0 <= j < i ==> !SameRule(rules[j], rule)
  }

  lemma {:induction false} FindSame(rules: seq<Rule>, rule: Rule) returns (i: nat)
    ensures i <= |rules| && forall j :: 0 <= j < i ==> !SameRule(rules[j], rule)
    ensures i < |rules| ==> SameRule(rules[i], rule)
  {
    if rules == [] || SameRule(rules[0], rule) {
      i := 0;
    } else {
      var rest := FindSame(rules[1..], rule);
      i := rest + 1;
      assert forall j :: 1 <= j < |rules| ==> rules[j] == rules[1..][j - 1];
    }
  }

  /** Adding changes the adapter of the first rule of that kind and value, or else puts the
      rule at the end, and leaves all other rules in their places. */
  lemma WithRuleExact(rules: seq<Rule>, rule: Rule)
    ensures (exists i :: FirstSame(rules, rule, i)) ==>
              && |WithRule(rules, rule)| == |rules|
              && forall i :: 0 <= i < |rules| ==>
                   WithRule(rules, rule)[i] == if FirstSame(rules, rule, i) then rules[i].(adapter := rule.adapter) else rules[i]
    ensures !(exists i :: FirstSame(rules, rule, i)) ==> WithRule(rules, rule) == rules + [rule]
  {
    var i := FindSame(rules, rule);
    WithRuleAt(rules, rule, i);
    if i < |rules| {
      assert FirstSame(rules, rule, i);
    }
  }

  /** Where each kind and value has one rule, it stays so, and exactly the given rule stands
      for its kind and value. */
  lemma {:induction false} WithRuleOnce(rules: seq<Rule>, rule: Rule)
    requires OneRuleEach(rules)
    ensures OneRuleEach(WithRule(rules, rule)) && rule in WithRule(rules, rule)
    ensures forall r :: r in WithRule(rules, rule) <==>
              r == rule || (r in rules && (r.kind, r.value) != (rule.kind, rule.value))
  {
    if rules != [] {
      var rest := WithRule(rules[1..], rule);
      if rules[0].kind == rule.kind && rules[0].value == rule.value {
        assert forall r :: r in rules[1..] ==> (r.kind, r.value) != (rule.kind, rule.value);
      } else {
        WithRuleOnce(rules[1..], rule);
        assert forall r :: r in rest ==> (r.kind, r.value) != (rules[0].kind, rules[0].value);
      }
    }
  }

  lemma {:induction false} WithoutRuleExact(rules: seq<Rule>, kind: string, value: string)
    ensures forall r :: r in WithoutRule(rules, kind, value) <==> r in rules && !(r.kind == kind && r.value == value)
    ensures |WithoutRule(rules, kind, value)| <= |rules|
    ensures |WithoutRule(rules, kind, value)| == |rules| ==> WithoutRule(rules, kind, value) == rules
  {
    if rules != [] {
      WithoutRuleExact(rules[1..], kind, value);
      assert rules == [rules[0]] + rules[1..];
    }
  }

  /** The other rules keep their order. */
  lemma {:induction false} WithoutRuleAppend(a: seq<Rule>, b: seq<Rule>, kind: string, value: string)
    ensures WithoutRule(a + b, kind, value) == WithoutRule(a, kind, value) + WithoutRule(b, kind, value)
  {
    if a == [] {
      assert a + b == b;
    } else {
      assert (a + b)[0] == a[0] && (a + b)[1..] == a[1..] + b;
      WithoutRuleAppend(a[1..], b, kind, value);
    }
  }

  lemma {:induction false} WithoutRuleOnce(rules: seq<Rule>, kind: string, value: string)
    requires OneRuleEach(rules)
    ensures OneRuleEach(WithoutRule(rules, kind, value))
  {
    if rules != [] {
      var rest := WithoutRule(rules[1..], kind, value);
      WithoutRuleOnce(rules[1..], kind, value);
      WithoutRuleExact(rules[1..], kind, value);
      forall i | 0 <= i < |rest|
        ensures (rest[i].kind, rest[i].value) != (rules[0].kind, rules[0].value)
      {
        assert rest[i] in rules[1..];
      }
    }
  }

  // ---- whole runs ----

  datatype Op =
    | Add(rule: Rule, writable: bool)
    | Remove(kind: string, value: string, writable: bool)
    | Clear(writable: bool)
    | Refresh(w: Round)
    | Reload

  function Apply(s: State, op: Op, matches: (Rule, Process) -> bool): State {
    match op
    case Add(rule, writable) => RuleAdded(s, rule, writable)
    case Remove(kind, value, writable) => RuleRemoved(s, kind, value, writable)
    case Clear(writable) => RulesCleared(s, writable)
    case Refresh(w) => Refreshed(s, w, matches)
    case Reload => Loaded(s.max, s.disk)
  }

  predicate Writes(op: Op) {
    match op
    case Add(_, writable) => writable
    case Remove(_, _, writable) => writable
    case Clear(writable) => writable
    case Refresh(w) => w.writable
    case Reload => true
  }

  lemma AddKeeps(s: State, rule: Rule, writable: bool)
    requires Sound(s)
    ensures var t := RuleAdded(s, rule, writable); Sound(t) && Kept(s, t) && (writable && Synced(s) ==> Synced(t))
  {
    if rule.kind in VALID_KINDS {
      WithRuleValid(s.rules, rule);
      RulesSaved(s, WithRule(s.rules, rule), writable);
    }
  }

  lemma {:induction false} WithRuleValid(rules: seq<Rule>, rule: Rule)
    requires RulesValid(rules) && rule.kind in VALID_KINDS
    ensures RulesValid(WithRule(rules, rule))
  {
    if rules != [] {
      WithRuleValid(rules[1..], rule);
    }
  }

  lemma RemoveKeeps(s: State, kind: string, value: string, writable: bool)
    requires Sound(s)
    ensures var t := RuleRemoved(s, kind, value, writable); Sound(t) && Kept(s, t) && (writable && Synced(s) ==> Synced(t))
  {
    WithoutRuleExact(s.rules, kind, value);
    var rest := WithoutRule(s.rules, kind, value);
    if |rest| != |s.rules| {
      RulesSaved(s, rest, writable);
    } else {
      assert s.(rules := rest) == s;
    }
  }

  lemma StepKeeps(s: State, op: Op, matches: (Rule, Process) -> bool)
    requires Sound(s)
    ensures var t := Apply(s, op, matches);
            && Sound(t) && t.max == s.max && (!op.Reload? ==> Kept(s, t)) && (Writes(op) && Synced(s) ==> Synced(t))
  {
    match op
    case Add(rule, writable) => AddKeeps(s, rule, writable);
    case Remove(kind, value, writable) => RemoveKeeps(s, kind, value, writable);
    case Clear(writable) => RulesSaved(s, [], writable);
    case Refresh(w) => RefreshKeeps(s, w, matches);
    case Reload => LoadedSound(s.max, s.disk);
  }

  function After(s: State, ops: seq<Op>, matches: (Rule, Process) -> bool): State {
    if ops == [] then s else Apply(After(s, ops[..|ops| - 1], matches), ops[|ops| - 1], matches)
  }

  /** Every run of edits, refreshes and restarts, with the file writable or not, keeps the
      registry sound; between restarts no session is lost or changes identity; and while the
      file can be written it stays in step. */
  lemma {:induction false} RunKeeps(s: State, ops: seq<Op>, matches: (Rule, Process) -> bool)
    requires Sound(s)
    ensures var t := After(s, ops, matches);
            && Sound(t) && t.max == s.max
            && ((forall i :: 0 <= i < |ops| ==> !ops[i].Reload?) ==> Kept(s, t))
            && ((forall i :: 0 <= i < |ops| ==> Writes(ops[i])) && Synced(s) ==> Synced(t))
  {
    if ops != [] {
      RunKeeps(s, ops[..|ops| - 1], matches);
      StepKeeps(After(s, ops[..|ops| - 1], matches), ops[|ops| - 1], matches);
    }
  }

  /** A registry that starts without a file is sound and in step. */
  lemma StartsSound(max: nat)
    ensures Sound(Loaded(max, Saved([], []))) && Synced(Loaded(max, Saved([], [])))
  {
    LoadedSound(max, Saved([], []));
  }

  // ---- what a restart gives back ----

  /** A session after a restart: of one that was over everything but the measured rate, of one that
      was active what never changes; over until seen again. */
  ghost predicate GivenBack(x: Session, y: Session) {
    && y.status.Finished? && CoreOf(y) == CoreOf(x)
    && (x.status.Finished? ==> y == x.(iops := 0.0))
  }

  /** Entry `j` of the file is back, in its place. */
  ghost predicate EntryBack(s: State, t: State, j: nat) {
    && j < |t.order| <= |s.order| && t.order[j] == s.order[|s.order| - |t.order| + j]
    && t.order[j] in s.sessions && t.order[j] in t.sessions && GivenBack(s.sessions[t.order[j]], t.sessions[t.order[j]])
  }

  lemma ReloadEntry(s: State, t: State, j: nat)
    requires WellFormed(s) && Synced(s) && Holds(t, s.disk.sessions) && j < |t.order|
    ensures EntryBack(s, t, j)
  {
    var id, x := s.order[|s.order| - Room(s) + j], s.disk.sessions[j];
    assert InFile(s, id, x);
    assert HasLoaded(t, x);
    assert SessionOk(s, id);
    EntryIsBack(s, t, id, x, j);
  }

  lemma EntryIsBack(s: State, t: State, id: SessionId, x: Session, j: nat)
    requires j < |t.order| <= |s.order| && id == s.order[|s.order| - |t.order| + j] && t.order[j] == x.id
    requires InFile(s, id, x) && s.sessions[id].id == id && HasLoaded(t, x)
    ensures EntryBack(s, t, j)
  {
  }

  lemma AllBack(s: State, t: State)
    requires |t.order| == Room(s) && forall j :: 0 <= j < |t.order| ==> EntryBack(s, t, j)
    ensures IsEnd(t.order, s.order, s.max)
    ensures forall id :: id in t.order ==>
              id in s.sessions && id in t.sessions && GivenBack(s.sessions[id], t.sessions[id])
  {
    var n := |t.order|;
    forall j | 0 <= j < n
      ensures t.order[j] == s.order[|s.order| - n..][j]
    {
      assert EntryBack(s, t, j);
    }
    assert t.order == s.order[|s.order| - n..];
    forall id | id in t.order
      ensures id in s.sessions && id in t.sessions && GivenBack(s.sessions[id], t.sessions[id])
    {
      var j :| 0 <= j < n && t.order[j] == id;
      assert EntryBack(s, t, j);
    }
  }

  lemma ReloadOrder(s: State, t: State)
    requires WellFormed(s) && Synced(s) && Holds(t, s.disk.sessions)
    ensures IsEnd(t.order, s.order, s.max)
    ensures forall id :: id in t.order ==>
              id in s.sessions && id in t.sessions && GivenBack(s.sessions[id], t.sessions[id])
  {
    forall j | 0 <= j < |t.order|
      ensures EntryBack(s, t, j)
    {
      ReloadEntry(s, t, j);
    }
    AllBack(s, t);
  }

  /** After a restart the rules are the same, and the sessions are the last `max` ones, under
      their ids and for their processes, all over until seen again. */
  lemma ReloadKeeps(s: State)
    requires Sound(s) && Synced(s)
    ensures var t := Loaded(s.max, s.disk);
            && t.rules == s.rules && IsEnd(t.order, s.order, s.max)
            && (forall id :: id in t.sessions <==> id in t.order)
            && (forall id :: id in t.sessions ==> id in s.sessions && GivenBack(s.sessions[id], t.sessions[id]))
            && (forall i :: i in t.byIdentity <==> i in s.byIdentity && s.byIdentity[i] in t.order)
            && (forall i :: i in t.byIdentity ==> t.byIdentity[i] == s.byIdentity[i])
  {
    var t := Loaded(s.max, s.disk);
    LoadedSound(s.max, s.disk);
    ValidRulesValid(s.rules);
    ReloadOrder(s, t);
    ReloadIndex(s, t);
  }

  lemma ReloadIndex(s: State, t: State)
    requires Sound(s) && Sound(t)
    requires forall id :: id in t.sessions ==> id in s.sessions && CoreOf(t.sessions[id]) == CoreOf(s.sessions[id])
    ensures forall i :: i in t.byIdentity <==> i in s.byIdentity && s.byIdentity[i] in t.sessions
    ensures forall i :: i in t.byIdentity ==> t.byIdentity[i] == s.byIdentity[i]
  {
    forall i
      ensures i in t.byIdentity <==> i in s.byIdentity && s.byIdentity[i] in t.sessions
      ensures i in t.byIdentity ==> t.byIdentity[i] == s.byIdentity[i]
    {
      if i in t.byIdentity {
        assert Indexed(t, i);
        assert IdentityOf(s.sessions[t.byIdentity[i]]) == i;
      }
      if i in s.byIdentity && s.byIdentity[i] in t.sessions {
        assert Indexed(s, i);
        assert IdentityOf(t.sessions[s.byIdentity[i]]) == i;
      }
    }
  }

  /** A refresh makes no session when every target has one. */
  lemma {:induction false} NothingNew(s: State, w: Round, hits: map<int, Rule>, byPid: map<int, Process>, pids: seq<int>)
    requires WellFormed(s) && NoDuplicates(pids)
    requires forall p :: p in pids ==> p in hits && p in byPid && byPid[p].pid == p && Key(byPid[p]) in s.byIdentity
    ensures AttachFirst(s, w, hits, byPid, pids).state.order == s.order
  {
    if pids != [] {
      var front, pid := pids[..|pids| - 1], pids[|pids| - 1];
      assert pids == front + [pid];
      NothingNew(s, w, hits, byPid, front);
      AttachFirstKeeps(s, w, hits, byPid, front);
      AttachKeeps(AttachFirst(s, w, hits, byPid, front).state, w, byPid[pid], hits[pid]);
    }
  }

  lemma KnownTargets(s: State, w: Round, matches: (Rule, Process) -> bool)
    requires WellFormed(s)
    requires forall p :: p in Hits(s.rules, w.procs, matches) && p in ByPid(w.procs) ==> Key(ByPid(w.procs)[p]) in s.byIdentity
    ensures Refreshed(s, w, matches).order == s.order
  {
    TargetsSorted(s.rules, w.procs, matches);
    ByPidOwn(w.procs);
    NothingNew(s, w, Hits(s.rules, w.procs, matches), ByPid(w.procs), Targets(s.rules, w.procs, matches));
    TargetsAttached(s, w, matches);
    var a := AttachTargets(s, w, matches);
    FinishFirstKeeps(a.state, w, a.ids, a.state.order);
  }

  lemma ReloadAll(s: State)
    requires Sound(s) && Synced(s) && (s.max == 0 || |s.order| <= s.max)
    ensures var t := Loaded(s.max, s.disk);
            && Sound(t) && t.order == s.order && t.rules == s.rules && t.byIdentity == s.byIdentity
            && forall id :: id in t.sessions ==> id in s.sessions && GivenBack(s.sessions[id], t.sessions[id])
  {
    ReloadKeeps(s);
    ReloadSound(s);
    AllReloaded(s, Loaded(s.max, s.disk));
  }

  lemma AllReloaded(s: State, t: State)
    requires WellFormed(s) && IsEnd(t.order, s.order, s.max) && (s.max == 0 || |s.order| <= s.max)
    requires forall i :: i in t.byIdentity <==> i in s.byIdentity && s.byIdentity[i] in t.order
    requires forall i :: i in t.byIdentity ==> t.byIdentity[i] == s.byIdentity[i]
    ensures t.order == s.order && t.byIdentity == s.byIdentity
  {
    assert s.order == s.order[..0] + t.order;
    IndexedOrdered(s);
  }

  lemma ReloadSound(s: State)
    requires Sound(s)
    ensures Sound(Loaded(s.max, s.disk))
  {
    LoadedSound(s.max, s.disk);
  }

  lemma IndexedOrdered(s: State)
    requires WellFormed(s)
    ensures forall i :: i in s.byIdentity ==> s.byIdentity[i] in s.order
  {
    forall i | i in s.byIdentity
      ensures s.byIdentity[i] in s.order
    {
      assert Indexed(s, i);
    }
  }

  /** A session before and after: under the same id for the same process, active or not as before,
      and unchanged, but for the measured rate, if it was over. */
  ghost predicate Resumed(s: State, r: State, id: SessionId)
    requires id in s.sessions
  {
    && id in r.sessions && CoreOf(r.sessions[id]) == CoreOf(s.sessions[id])
    && r.sessions[id].status == s.sessions[id].status
    && (s.sessions[id].status.Finished? ==> r.sessions[id] == s.sessions[id].(iops := 0.0))
  }

  /** Stopping after a refresh, restarting and refreshing with the same processes: the same
      rules, the same sessions under the same ids, and the same ones active. `max` of zero
      keeps every session. */
  lemma ResumeSame(before: State, w: Round, w2: Round, matches: (Rule, Process) -> bool)
    requires Sound(before) && Synced(before) && w.writable && w2.procs == w.procs
    requires before.max == 0 || |Refreshed(before, w, matches).order| <= before.max
    ensures var s := Refreshed(before, w, matches);
            var r := Refreshed(Loaded(s.max, s.disk), w2, matches);
            && r.rules == s.rules && r.order == s.order && Sound(r)
            && forall id :: id in s.sessions ==> Resumed(s, r, id)
  {
    var s := Refreshed(before, w, matches);
    RefreshKeeps(before, w, matches);
    ActiveAreTargets(before, w, matches);
    ReloadAll(s);
    Resumes(s, Loaded(s.max, s.disk), w, w2, matches);
  }

  lemma Resumes(s: State, t: State, w: Round, w2: Round, matches: (Rule, Process) -> bool)
    requires Ordered(s) && Sound(t) && t.order == s.order && t.rules == s.rules && w2.procs == w.procs
    requires forall id :: id in t.sessions ==> id in s.sessions && GivenBack(s.sessions[id], t.sessions[id])
    requires t.byIdentity == s.byIdentity && Watches(s, w, Hits(s.rules, w.procs, matches), ByPid(w.procs))
    ensures var r := Refreshed(t, w2, matches);
            && r.rules == s.rules && r.order == s.order && Sound(r)
            && forall id :: id in s.sessions ==> Resumed(s, r, id)
  {
    KnownTargets(t, w2, matches);
    var r := Refreshed(t, w2, matches);
    RefreshKeeps(t, w2, matches);
    ActiveAreTargets(t, w2, matches);
    OthersRest(t, w2, matches);
    forall id | id in s.sessions
      ensures Resumed(s, r, id)
    {
      assert id in s.order && id in t.sessions;
      ResumesOne(s, t, r, w, w2, Hits(s.rules, w.procs, matches), ByPid(w.procs), id);
    }
  }

  lemma ResumesOne(s: State, t: State, r: State, w: Round, w2: Round, hits: map<int, Rule>, byPid: map<int, Process>, id: SessionId)
    requires id in s.sessions && id in t.sessions && id in r.sessions
    requires GivenBack(s.sessions[id], t.sessions[id]) && CoreOf(r.sessions[id]) == CoreOf(t.sessions[id])
    requires Watches(s, w, hits, byPid) && Watches(r, w2, hits, byPid)
    requires forall i :: i in s.byIdentity ==> i in r.byIdentity && r.byIdentity[i] == s.byIdentity[i]
    requires r.sessions[id].status.Finished? ==> Rested(t.sessions[id], r.sessions[id], w2.now)
    ensures Resumed(s, r, id)
  {
    SameStatus(s, r, w, w2, hits, byPid, id);
  }

  /** Two states that observe the same processes under the same ids have the same sessions
      active. */
  lemma SameStatus(s: State, r: State, w: Round, w2: Round, hits: map<int, Rule>, byPid: map<int, Process>, id: SessionId)
    requires id in s.sessions && id in r.sessions && CoreOf(r.sessions[id]) == CoreOf(s.sessions[id])
    requires Watches(s, w, hits, byPid) && Watches(r, w2, hits, byPid)
    requires forall i :: i in s.byIdentity ==> i in r.byIdentity && r.byIdentity[i] == s.byIdentity[i]
    ensures r.sessions[id].status == s.sessions[id].status
  {
    var p := s.sessions[id].pid;
    assert CoreOf(r.sessions[id]).pid == p;
    if p in hits {
      assert Observes(s, w, s.byIdentity[Key(byPid[p])], byPid[p]);
      assert Observes(r, w2, r.byIdentity[Key(byPid[p])], byPid[p]);
    }
  }

  /** In general a process is observed under its old session exactly when that session was
      among the last `max` in the file; otherwise it gets a new one. */
  lemma ResumeExact(s: State, w: Round, matches: (Rule, Process) -> bool, p: int)
    requires Sound(s) && Synced(s)
    requires p in Hits(s.rules, w.procs, matches) && p in ByPid(w.procs) && Key(ByPid(w.procs)[p]) in s.byIdentity
    ensures var t := Loaded(s.max, s.disk);
            var r, i := Refreshed(t, w, matches), Key(ByPid(w.procs)[p]);
            && i in r.byIdentity && r.byIdentity[i] in r.sessions
            && IsEnd(t.order, s.order, s.max)
            && (r.byIdentity[i] in t.sessions <==> s.byIdentity[i] in t.order)
            && (s.byIdentity[i] in t.order ==> r.byIdentity[i] == s.byIdentity[i])
  {
    ReloadKeeps(s);
    LoadedSound(s.max, s.disk);
    var t := Loaded(s.max, s.disk);
    RefreshKeeps(t, w, matches);
    ActiveAreTargets(t, w, matches);
    var r, i := Refreshed(t, w, matches), Key(ByPid(w.procs)[p]);
    assert Observes(r, w, r.byIdentity[i], ByPid(w.procs)[p]);
    if r.byIdentity[i] in t.sessions {
      assert IdentityOf(t.sessions[r.byIdentity[i]]) == i;
    }
  }

  /** One refresh of a sound registry. */
  lemma RefreshSound(s: State, w: Round, matches: (Rule, Process) -> bool)
    requires Sound(s)
    ensures var t := Refreshed(s, w, matches);
            Sound(t) && Kept(s, t) && Watches(t, w, Hits(s.rules, w.procs, matches), ByPid(w.procs))
  {
    RefreshKeeps(s, w, matches);
    ActiveAreTargets(s, w, matches);
  }

  // ---- runs that start without a file ----

  /** The registry after a run that started without a file. */
  function FromNothing(max: nat, ops: seq<Op>, matches: (Rule, Process) -> bool): State {
    After(Loaded(max, Saved([], [])), ops, matches)
  }

  /** Whatever edits, refreshes and restarts came before, with the file writable or not, the next
      refresh leaves exactly the matched processes observed, and loses no session. */
  lemma AnyRunWatches(max: nat, ops: seq<Op>, w: Round, matches: (Rule, Process) -> bool)
    ensures var s := FromNothing(max, ops, matches);
            var t := Refreshed(s, w, matches);
            Sound(s) && Sound(t) && Kept(s, t) && Watches(t, w, Hits(s.rules, w.procs, matches), ByPid(w.procs))
  {
    StartsSound(max);
    RunKeeps(Loaded(max, Saved([], [])), ops, matches);
    RefreshSound(FromNothing(max, ops, matches), w, matches);
  }

  /** And if all writes succeeded, stopping there, restarting and refreshing with the same
      processes continues the same sessions. */
  lemma AnyRunResumes(max: nat, ops: seq<Op>, w: Round, w2: Round, matches: (Rule, Process) -> bool)
    requires w.writable && w2.procs == w.procs && forall i :: 0 <= i < |ops| ==> Writes(ops[i])
    requires max == 0 || |Refreshed(FromNothing(max, ops, matches), w, matches).order| <= max
    ensures var s := Refreshed(FromNothing(max, ops, matches), w, matches);
            var r := Refreshed(Loaded(s.max, s.disk), w2, matches);
            && r.rules == s.rules && r.order == s.order
            && forall id :: id in s.sessions ==> Resumed(s, r, id)
  {
    StartsSound(max);
    LoadedSound(max, Saved([], []));
    RunKeeps(Loaded(max, Saved([], [])), ops, matches);
    ResumeSame(FromNothing(max, ops, matches), w, w2, matches);
  }
}
