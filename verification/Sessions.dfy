/** Observation sessions and their rules (src/telemetryd/backend/targets.py): the data, what
    keeps it consistent, and the specification of one refresh. */
module Sessions {
  import opened Common
  import opened IoStats

  // ---- data ----

  /** `kind` is one of the four valid kinds, or something the registry refuses. */
  datatype Rule = Rule(kind: string, value: string, adapter: Option<string>)

  const VALID_KINDS := {"pid", "name", "name_pattern", "cmdline_pattern"}

  datatype Process = Process(pid: int, comm: string, cmdline: string, start: int, threads: int)

  /** `sess_<stamp>_<pid>`, with the suffixes added on a collision. */
  datatype SessionId =
    | Plain(stamp: int, pid: int)
    | WithStart(stamp: int, pid: int, low: int)
    | Numbered(stamp: int, pid: int, low: int, n: nat)

  datatype Status = Active | Finished

  datatype Session = Session(
    id: SessionId, pid: int, comm: string, cmdline: string, start: int, sessionStart: int, end: Option<int>,
    status: Status, threads: int, iops: real, devices: set<int>, matchedKind: string, matchedValue: string)

  /** Which process a session observes: pids are reused, start times tell them apart. */
  type Identity = (int, int)

  function IdentityOf(x: Session): Identity { (x.pid, x.start) }

  /** What never changes about a session. */
  datatype Core = Core(
    id: SessionId, pid: int, start: int, cmdline: string, sessionStart: int, matchedKind: string, matchedValue: string)

  function CoreOf(x: Session): Core {
    Core(x.id, x.pid, x.start, x.cmdline, x.sessionStart, x.matchedKind, x.matchedValue)
  }

  /** The state file. */
  datatype Saved = Saved(rules: seq<Rule>, sessions: seq<Session>)

  /** `order` is the insertion order of the session dictionary, `max` the number of sessions
      kept on disk. */
  datatype State = State(
    max: nat, rules: seq<Rule>, sessions: map<SessionId, Session>, order: seq<SessionId>,
    byIdentity: map<Identity, SessionId>, disk: Saved)

  /** What one refresh is given. `stamp(n)` is the wall-clock second at which an id is made
      when `n` sessions exist; `writable` says whether the state file can be written. */
  datatype Round = Round(procs: seq<Process>, stats: seq<IoStat>, now: int, stamp: nat -> int, writable: bool)

  // ---- consistency ----

  ghost predicate Ordered(s: State) {
    NoDuplicates(s.order) && forall id :: id in s.order <==> id in s.sessions
  }

  /** A session sits under its own id; an active one is not ended and is the one its
      identity leads to. */
  ghost predicate SessionOk(s: State, id: SessionId)
    requires id in s.sessions
  {
    var x := s.sessions[id];
    && x.id == id
    && (x.status.Active? ==> x.end.None? && (x.pid, x.start) in s.byIdentity && s.byIdentity[(x.pid, x.start)] == id)
  }

  ghost predicate Indexed(s: State, i: Identity)
    requires i in s.byIdentity
  {
    s.byIdentity[i] in s.sessions && (s.sessions[s.byIdentity[i]].pid, s.sessions[s.byIdentity[i]].start) == i
  }

  ghost predicate RulesValid(rules: seq<Rule>) { forall r :: r in rules ==> r.kind in VALID_KINDS }

  ghost predicate WellFormed(s: State) {
    && Ordered(s)
    && (forall id :: id in s.sessions ==> SessionOk(s, id))
    && (forall i :: i in s.byIdentity ==> Indexed(s, i))
    && RulesValid(s.rules)
  }

  /** No process has two sessions. */
  ghost predicate OnePerProcess(s: State) {
    forall id :: id in s.sessions ==>
      var x := s.sessions[id]; (x.pid, x.start) in s.byIdentity && s.byIdentity[(x.pid, x.start)] == id
  }

  /** Later states keep every session, with its id, process, command line, start and rule. */
  ghost predicate Kept(s: State, t: State) {
    && s.max == t.max && s.order <= t.order
    && (forall id :: id in s.sessions ==> id in t.sessions && CoreOf(t.sessions[id]) == CoreOf(s.sessions[id]))
    && (forall i :: i in s.byIdentity ==> i in t.byIdentity && t.byIdentity[i] == s.byIdentity[i])
  }

  // ---- the state file ----

  function Values(sessions: map<SessionId, Session>, ids: seq<SessionId>): seq<Session> {
    if ids == [] then []
    else Values(sessions, ids[..|ids| - 1]) + if ids[|ids| - 1] in sessions then [sessions[ids[|ids| - 1]]] else []
  }

  lemma {:induction false} ValuesAt(sessions: map<SessionId, Session>, ids: seq<SessionId>)
    requires forall id :: id in ids ==> id in sessions
    ensures |Values(sessions, ids)| == |ids|
    ensures forall j :: 0 <= j < |ids| ==> Values(sessions, ids)[j] == sessions[ids[j]]
  {
    if ids != [] {
      assert ids == ids[..|ids| - 1] + [ids[|ids| - 1]];
      ValuesAt(sessions, ids[..|ids| - 1]);
    }
  }

  /** `_save`: all rules and the last `max` sessions; a failing write leaves the file alone. */
  function Save(s: State, writable: bool): State {
    if writable then s.(disk := Saved(s.rules, Values(s.sessions, Tail(s.order, s.max)))) else s
  }

  /** `x` stands in the file for session `id`: what never changes is the same, and of a session that is
      over everything but the measured rate. */
  ghost predicate InFile(s: State, id: SessionId, x: Session) {
    && id in s.sessions && CoreOf(x) == CoreOf(s.sessions[id])
    && (s.sessions[id].status.Finished? ==> x.(status := Finished, iops := 0.0) == s.sessions[id].(iops := 0.0))
  }

  /** As many sessions as the file has room for, the latest ones; no limit when `max` is zero. */
  function Room(s: State): nat { if s.max == 0 || |s.order| < s.max then |s.order| else s.max }

  /** The file holds the current rules and the latest sessions, in order. */
  ghost predicate Synced(s: State) {
    && s.disk.rules == s.rules && |s.disk.sessions| == Room(s)
    && forall j :: 0 <= j < Room(s) ==> InFile(s, s.order[|s.order| - Room(s) + j], s.disk.sessions[j])
  }

  /** The file holds them as they are. */
  ghost predicate Written(s: State) {
    && s.disk.rules == s.rules && |s.disk.sessions| == Room(s)
    && forall j :: 0 <= j < Room(s) ==> AsItIs(s.sessions, s.order[|s.order| - Room(s) + j], s.disk.sessions[j])
  }

  ghost predicate AsItIs(sessions: map<SessionId, Session>, id: SessionId, x: Session) { id in sessions && x == sessions[id] }

  lemma LatestAt<T>(order: seq<T>, max: nat)
    ensures var ids := Tail(order, max);
            && |ids| <= |order| && (forall id :: id in ids ==> id in order)
            && forall j :: 0 <= j < |ids| ==> ids[j] == order[|order| - |ids| + j]
  {
  }

  lemma LatestValues(sessions: map<SessionId, Session>, order: seq<SessionId>, max: nat)
    requires forall id :: id in order ==> id in sessions
    ensures var v := Values(sessions, Tail(order, max));
            && |v| == (if max == 0 || |order| < max then |order| else max)
            && forall j :: 0 <= j < |v| ==> AsItIs(sessions, order[|order| - |v| + j], v[j])
  {
    LatestAt(order, max);
    TailValues(sessions, order, Tail(order, max));
  }

  lemma TailValues(sessions: map<SessionId, Session>, order: seq<SessionId>, ids: seq<SessionId>)
    requires |ids| <= |order| && forall id :: id in ids ==> id in sessions
    requires forall j :: 0 <= j < |ids| ==> ids[j] == order[|order| - |ids| + j]
    ensures var v := Values(sessions, ids);
            |v| == |ids| && forall j :: 0 <= j < |v| ==> AsItIs(sessions, order[|order| - |v| + j], v[j])
  {
    ValuesAt(sessions, ids);
  }

  lemma ValuesWritten(t: State)
    requires t.disk == Saved(t.rules, Values(t.sessions, Tail(t.order, t.max))) && forall id :: id in t.order ==> id in t.sessions
    ensures Written(t)
  {
    LatestValues(t.sessions, t.order, t.max);
  }

  lemma WrittenSyncs(t: State)
    requires Written(t)
    ensures Synced(t)
  {
    forall j | 0 <= j < Room(t)
      ensures InFile(t, t.order[|t.order| - Room(t) + j], t.disk.sessions[j])
    {
      assert AsItIs(t.sessions, t.order[|t.order| - Room(t) + j], t.disk.sessions[j]);
    }
  }

  lemma SaveWrites(s: State)
    requires Ordered(s)
    ensures Written(Save(s, true))
  {
    ValuesWritten(Save(s, true));
  }

  lemma SaveSyncs(s: State)
    requires Ordered(s)
    ensures Synced(Save(s, true))
  {
    SaveWrites(s);
    WrittenSyncs(Save(s, true));
  }

  /** Changes to other fields, and to sessions that are not over, leave the file in step. */
  lemma StaysSynced(s: State, t: State)
    requires Synced(s) && t.disk == s.disk && t.rules == s.rules && t.order == s.order && Kept(s, t)
    requires forall id :: id in s.sessions && t.sessions[id].status.Finished? ==> t.sessions[id] == s.sessions[id]
    ensures Synced(t)
  {
    forall j | 0 <= j < Room(t)
      ensures InFile(t, t.order[|t.order| - Room(t) + j], t.disk.sessions[j])
    {
      assert InFile(s, s.order[|s.order| - Room(s) + j], s.disk.sessions[j]);
    }
  }

  /** No session and no process is in the file twice. */
  ghost predicate DiskOk(d: Saved) {
    forall i, j :: 0 <= i < j < |d.sessions| ==>
      && d.sessions[i].id != d.sessions[j].id
      && (d.sessions[i].pid, d.sessions[i].start) != (d.sessions[j].pid, d.sessions[j].start)
  }

  lemma SaveDiskOk(s: State)
    requires WellFormed(s) && OnePerProcess(s)
    ensures DiskOk(Save(s, true).disk)
  {
    var ids := Tail(s.order, s.max);
    assert forall j :: 0 <= j < |ids| ==> ids[j] in s.order;
    ValuesAt(s.sessions, ids);
    forall i, j | 0 <= i < j < |ids|
      ensures s.sessions[ids[i]].id != s.sessions[ids[j]].id
      ensures (s.sessions[ids[i]].pid, s.sessions[ids[i]].start) != (s.sessions[ids[j]].pid, s.sessions[ids[j]].start)
    {
      assert SessionOk(s, ids[i]) && SessionOk(s, ids[j]) && ids[i] != ids[j];
    }
  }

  // ---- session ids ----

  /** The numbered ids taken from suffix `n` on; they run out as `n` grows. */
  ghost function Ahead(taken: set<SessionId>, n: nat): set<SessionId> { set t | t in taken && t.Numbered? && t.n >= n }

  lemma AheadShrinks(taken: set<SessionId>, id: SessionId)
    requires id in taken && id.Numbered?
    ensures Ahead(taken, id.n + 1) < Ahead(taken, id.n)
  {
    assert id in Ahead(taken, id.n) && id !in Ahead(taken, id.n + 1);
  }

  /** The first free numbered id from `n` on. */
  function NumberedFrom(stamp: int, pid: int, low: int, n: nat, taken: set<SessionId>): (id: SessionId)
    ensures id !in taken
    ensures id.Numbered? && id == Numbered(stamp, pid, low, id.n) && id.n >= n
    ensures forall m :: n <= m < id.n ==> Numbered(stamp, pid, low, m) in taken
    decreases Ahead(taken, n)
  {
    var id := Numbered(stamp, pid, low, n);
    if id in taken then
      AheadShrinks(taken, id);
      NumberedFrom(stamp, pid, low, n + 1, taken)
    else id
  }

  function FreshId(pid: int, start: int, stamp: int, taken: set<SessionId>): (id: SessionId)
    ensures id !in taken
    ensures Plain(stamp, pid) !in taken ==> id == Plain(stamp, pid)
    ensures id != Plain(stamp, pid) ==> id == WithStart(stamp, pid, start % 0x1_0000) || WithStart(stamp, pid, start % 0x1_0000) in taken
    ensures id.Numbered? ==>
              && id == Numbered(stamp, pid, start % 0x1_0000, id.n) && id.n >= 2
              && forall m :: 2 <= m < id.n ==> Numbered(stamp, pid, start % 0x1_0000, m) in taken
  {
    var low := start % 0x1_0000;
    if Plain(stamp, pid) !in taken then Plain(stamp, pid)
    else if WithStart(stamp, pid, low) !in taken then WithStart(stamp, pid, low)
    else NumberedFrom(stamp, pid, low, 2, taken)
  }

  /** `_session_id`: the plain id, or the first free one with a suffix. */
  method SessionIdFor(pid: int, start: int, stamp: int, taken: set<SessionId>) returns (id: SessionId)
    ensures id == FreshId(pid, start, stamp, taken)
  {
    id := Plain(stamp, pid);
    if id !in taken {
      return;
    }
    var low := start % 0x1_0000;
    id := WithStart(stamp, pid, low);
    var n := 2;
    while id in taken
      invariant n >= 2
      invariant id == if n == 2 then WithStart(stamp, pid, low) else Numbered(stamp, pid, low, n - 1)
      invariant (if id in taken then NumberedFrom(stamp, pid, low, n, taken) else id) == FreshId(pid, start, stamp, taken)
      decreases n == 2, Ahead(taken, n - 1)
    {
      if n > 2 {
        AheadShrinks(taken, id);
      }
      id := Numbered(stamp, pid, low, n);
      n := n + 1;
    }
  }

  // ---- which processes are targets ----

  /** `{p.pid: p for p in processes}`: the last one wins. */
  function ByPid(procs: seq<Process>): map<int, Process> {
    if procs == [] then map[] else ByPid(procs[..|procs| - 1])[procs[|procs| - 1].pid := procs[|procs| - 1]]
  }

  function FirstMatch(rules: seq<Rule>, proc: Process, matches: (Rule, Process) -> bool): Option<Rule> {
    if rules == [] then None
    else if matches(rules[0], proc) then Some(rules[0]) else FirstMatch(rules[1..], proc, matches)
  }

  /** `resolve`: the rule each matched pid is observed for. */
  function Hits(rules: seq<Rule>, procs: seq<Process>, matches: (Rule, Process) -> bool): map<int, Rule> {
    if procs == [] then map[]
    else
      var front := Hits(rules, procs[..|procs| - 1], matches);
      match FirstMatch(rules, procs[|procs| - 1], matches)
      case None => front
      case Some(rule) => front[procs[|procs| - 1].pid := rule]
  }

  /** The matched pids in ascending order. */
  function Targets(rules: seq<Rule>, procs: seq<Process>, matches: (Rule, Process) -> bool): seq<int> {
    if procs == [] then []
    else
      var front := Targets(rules, procs[..|procs| - 1], matches);
      if FirstMatch(rules, procs[|procs| - 1], matches).None? then front else Insert(front, procs[|procs| - 1].pid)
  }

  lemma {:induction false} TargetsSorted(rules: seq<Rule>, procs: seq<Process>, matches: (Rule, Process) -> bool)
    ensures Ascending(Targets(rules, procs, matches))
    ensures forall p :: p in Targets(rules, procs, matches) <==> p in Hits(rules, procs, matches)
    ensures forall p :: p in Hits(rules, procs, matches) ==> p in ByPid(procs)
  {
    if procs != [] {
      TargetsSorted(rules, procs[..|procs| - 1], matches);
      InsertSorts(Targets(rules, procs[..|procs| - 1], matches), procs[|procs| - 1].pid);
    }
  }

  // ---- one refresh ----

  /** A session of an earlier process with the same pid is closed. */
  function CloseStale(x: Session, proc: Process, now: int): Session {
    if x.pid == proc.pid && x.status.Active? && x.start != proc.start then x.(status := Finished, end := Some(now)) else x
  }

  function CloseFirst(sessions: map<SessionId, Session>, order: seq<SessionId>, proc: Process, now: int)
    : map<SessionId, Session>
  {
    if order == [] then sessions
    else
      var m := CloseFirst(sessions, order[..|order| - 1], proc, now);
      var id := order[|order| - 1];
      if id in m then m[id := CloseStale(m[id], proc, now)] else m
  }

  function DevicesOf(own: seq<IoStat>): set<int> { set st | st in own :: st.device }

  /** The fields brought up to date on every refresh. */
  function Updated(x: Session, proc: Process, own: seq<IoStat>): Session {
    x.(status := Active,
       end := if x.status.Finished? then None else x.end,
       comm := if proc.comm != "" then proc.comm else x.comm,
       threads := proc.threads, iops := TotalIops(own), devices := DevicesOf(own))
  }

  function NewSession(id: SessionId, proc: Process, rule: Rule, now: int): Session {
    Session(id, proc.pid, proc.comm, proc.cmdline, proc.start, now, None, Active, 0, 0.0, {}, rule.kind, rule.value)
  }

  /** The statistics of one process, over all devices. */
  function OfPid(stats: seq<IoStat>, pid: int): seq<IoStat> {
    if stats == [] then []
    else OfPid(stats[..|stats| - 1], pid) + if stats[|stats| - 1].pid == pid then [stats[|stats| - 1]] else []
  }

  function Key(proc: Process): Identity { (proc.pid, proc.start) }

  predicate Known(s: State, i: Identity) { i in s.byIdentity && s.byIdentity[i] in s.sessions }

  /** A process that has no session gets a new one. */
  function Create(s: State, w: Round, proc: Process, rule: Rule): (t: State)
    ensures Known(t, Key(proc))
  {
    var id := FreshId(proc.pid, proc.start, w.stamp(|s.order|), s.sessions.Keys);
    Save(s.(sessions := CloseFirst(s.sessions, s.order, proc, w.now)[id := NewSession(id, proc, rule, w.now)],
            order := s.order + [id], byIdentity := s.byIdentity[Key(proc) := id]),
         w.writable)
  }

  function Touch(s: State, w: Round, proc: Process): (t: State)
    requires Known(s, Key(proc))
    ensures Known(t, Key(proc))
  {
    var id := s.byIdentity[Key(proc)];
    s.(sessions := s.sessions[id := Updated(s.sessions[id], proc, OfPid(w.stats, proc.pid))])
  }

  /** One round of the attach loop. */
  function Attach(s: State, w: Round, proc: Process, rule: Rule): (t: State)
    ensures Known(t, Key(proc))
  {
    Touch(if Known(s, Key(proc)) then s else Create(s, w, proc, rule), w, proc)
  }

  datatype Attached = Attached(state: State, ids: set<SessionId>)

  /** The attach loop over the first `n` targets. */
  function AttachFirst(s: State, w: Round, hits: map<int, Rule>, byPid: map<int, Process>, pids: seq<int>): Attached
    requires forall p :: p in pids ==> p in hits && p in byPid
  {
    if pids == [] then Attached(s, {})
    else
      var pid := pids[|pids| - 1];
      var front := AttachFirst(s, w, hits, byPid, pids[..|pids| - 1]);
      var t := Attach(front.state, w, byPid[pid], hits[pid]);
      Attached(t, front.ids + {t.byIdentity[Key(byPid[pid])]})
  }

  function Ended(x: Session, now: int): Session { x.(status := Finished, end := Some(now)) }

  /** A session that was not attached this time is over. */
  function FinishOne(s: State, w: Round, ids: set<SessionId>, id: SessionId): State {
    if id in s.sessions && s.sessions[id].status.Active? && id !in ids
    then Save(s.(sessions := s.sessions[id := Ended(s.sessions[id], w.now)]), w.writable)
    else s
  }

  function FinishFirst(s: State, w: Round, ids: set<SessionId>, order: seq<SessionId>): State {
    if order == [] then s
    else FinishOne(FinishFirst(s, w, ids, order[..|order| - 1]), w, ids, order[|order| - 1])
  }

  function AttachTargets(s: State, w: Round, matches: (Rule, Process) -> bool): Attached {
    TargetsSorted(s.rules, w.procs, matches);
    AttachFirst(s, w, Hits(s.rules, w.procs, matches), ByPid(w.procs), Targets(s.rules, w.procs, matches))
  }

  /** `refresh`, as far as the sessions go. */
  function Refreshed(s: State, w: Round, matches: (Rule, Process) -> bool): State {
    var a := AttachTargets(s, w, matches);
    FinishFirst(a.state, w, a.ids, a.state.order)
  }

  // ---- rule edits ----

  /** A repeated rule only changes its adapter. The first equal rule is changed. */
  function WithRule(rules: seq<Rule>, rule: Rule): seq<Rule> {
    if rules == [] then [rule]
    else if rules[0].kind == rule.kind && rules[0].value == rule.value
    then [rules[0].(adapter := rule.adapter)] + rules[1..]
    else [rules[0]] + WithRule(rules[1..], rule)
  }

  function WithoutRule(rules: seq<Rule>, kind: string, value: string): seq<Rule> {
    if rules == [] then []
    else (if rules[0].kind == kind && rules[0].value == value then [] else [rules[0]]) + WithoutRule(rules[1..], kind, value)
  }

  /** What `add_rule` leaves; an unknown kind is refused and changes nothing. */
  function RuleAdded(s: State, rule: Rule, writable: bool): State {
    if rule.kind !in VALID_KINDS then s else Save(s.(rules := WithRule(s.rules, rule)), writable)
  }

  /** What `remove_rule` leaves; the file is written only when a rule went away. */
  function RuleRemoved(s: State, kind: string, value: string, writable: bool): State {
    var rest := WithoutRule(s.rules, kind, value);
    if |rest| != |s.rules| then Save(s.(rules := rest), writable) else s.(rules := rest)
  }

  function RulesCleared(s: State, writable: bool): State { Save(s.(rules := []), writable) }
}
