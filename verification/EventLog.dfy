/** From the probes to the event buffers: what a reader of the collector's log shows is what the
    collector reported, and that is what the commands were
    (ebpf/nvme_perf.bt, src/telemetryd/backend/ebpf_error_events.py, ebpf_timeout_events.py). */
module EventLog {
  import opened Common
  import opened LogLines
  import opened History
  import opened Ledger
  import opened Conservation
  import C = Cursor
  import P = ProcRecovery

  // ---- the log as bytes ----

  /** Lines written one after the other; `text` is how a line reads, without its newline. */
  function Bytes(lines: seq<Line>, text: Line -> C.Text): C.Text {
    if lines == [] then [] else Bytes(lines[..|lines| - 1], text) + (text(lines[|lines| - 1]) + [C.NEWLINE])
  }

  function Texts(lines: seq<Line>, text: Line -> C.Text): seq<C.Text> {
    if lines == [] then [] else Texts(lines[..|lines| - 1], text) + [text(lines[|lines| - 1])]
  }

  ghost predicate OneLineEach(text: Line -> C.Text) { forall l :: C.NEWLINE !in text(l) }

  /** The finished lines of the file are the written lines. */
  lemma {:induction false} WrittenLines(lines: seq<Line>, text: Line -> C.Text)
    requires OneLineEach(text)
    ensures C.Lines(Bytes(lines, text)) == Texts(lines, text)
    ensures Bytes(lines, text) != [] ==> Bytes(lines, text)[|Bytes(lines, text)| - 1] == C.NEWLINE
  {
    if lines != [] {
      var front, last := lines[..|lines| - 1], text(lines[|lines| - 1]);
      WrittenLines(front, text);
      C.OneLine(last);
      C.SplitAppend(Bytes(front, text), last + [C.NEWLINE], []);
    }
  }

  /** A line in the making adds none. */
  lemma UnfinishedLine(lines: seq<Line>, text: Line -> C.Text, partial: C.Text)
    requires OneLineEach(text) && C.NEWLINE !in partial
    ensures C.Lines(Bytes(lines, text) + partial) == Texts(lines, text)
  {
    WrittenLines(lines, text);
    C.SplitAppend(Bytes(lines, text), partial, []);
    C.NoNewlineNoLines(partial, []);
  }

  // ---- what a reader shows ----

  /** The events a reader is after among the lines, in order. */
  function Picked<E>(lines: seq<Line>, pick: Line -> Option<E>): seq<E> {
    if lines == [] then []
    else
      var front := Picked(lines[..|lines| - 1], pick);
      match pick(lines[|lines| - 1])
      case None => front
      case Some(ev) => front + [ev]
  }

  /** Picked line by line, in the order of the lines. */
  lemma {:induction false} PickedAppend<E>(a: seq<Line>, b: seq<Line>, pick: Line -> Option<E>)
    ensures Picked(a + b, pick) == Picked(a, pick) + Picked(b, pick)
  {
    if b == [] {
      assert a + b == a;
    } else {
      assert (a + b)[..|a + b| - 1] == a + b[..|b| - 1];
      PickedAppend(a, b[..|b| - 1], pick);
    }
  }

  lemma PickedOne<E>(l: Line, pick: Line -> Option<E>)
    ensures Picked([l], pick) == if pick(l).Some? then [pick(l).value] else []
  {
    assert Picked([l][..0], pick) == [];
  }

  lemma {:induction false} MatchingTexts<E>(lines: seq<Line>, text: Line -> C.Text, parse: C.Text -> Option<E>, pick: Line -> Option<E>)
    requires forall l :: parse(text(l)) == pick(l)
    ensures C.Matching(Texts(lines, text), parse) == Picked(lines, pick)
  {
    if lines != [] {
      var n := |lines| - 1;
      MatchingTexts(lines[..n], text, parse, pick);
      assert Texts(lines, text)[..|Texts(lines[..n], text)|] == Texts(lines[..n], text);
    }
  }

  /** A reader that polls the log of a collector run shows, after any poll, the last events of
      its kind that the run has printed, however the polls and the writes interleaved. */
  lemma BufferShowsRun<E>(h: Run, actions: seq<C.Action>, text: Line -> C.Text, partial: C.Text, parse: C.Text -> Option<E>,
                          pick: Line -> Option<E>, maxEvents: nat)
    requires OneLineEach(text) && C.NEWLINE !in partial && forall l :: parse(text(l)) == pick(l)
    requires actions != [] && actions[|actions| - 1].Poll? && forall i :: 0 <= i < |actions| ==> !actions[i].Replace?
    requires C.Run(actions).content == Bytes(Output(h), text) + partial
    ensures IsEnd(C.Buffer(C.Run(actions).received, parse, maxEvents), Picked(Output(h), pick), maxEvents)
  {
    LinesShown(Output(h), actions, text, partial);
    MatchingTexts(Output(h), text, parse, pick);
    TailIsEnd(Picked(Output(h), pick), maxEvents);
  }

  lemma LinesShown(lines: seq<Line>, actions: seq<C.Action>, text: Line -> C.Text, partial: C.Text)
    requires OneLineEach(text) && C.NEWLINE !in partial && C.Run(actions).content == Bytes(lines, text) + partial
    requires actions != [] && actions[|actions| - 1].Poll? && forall i :: 0 <= i < |actions| ==> !actions[i].Replace?
    ensures C.Run(actions).received == Texts(lines, text)
  {
    C.ReceivedIsFile(actions);
    UnfinishedLine(lines, text, partial);
  }

  // ---- what the events are ----

  function Error(): Line -> Option<ErrorReport> { (l: Line) => if l.ErrorEvent? then Some(l.error) else None }

  function TimedOut(): Line -> Option<TimeoutReport> { (l: Line) => if l.TimeoutEvent? then Some(l.timeout) else None }

  lemma {:induction false} PickedIn<E>(lines: seq<Line>, pick: Line -> Option<E>, ev: E) returns (l: Line)
    requires ev in Picked(lines, pick)
    ensures l in lines && pick(l) == Some(ev)
  {
    l := lines[|lines| - 1];
    if pick(l) != Some(ev) {
      l := PickedIn(lines[..|lines| - 1], pick, ev);
    }
  }

  /** `p` is an earlier moment of the run `h`, or `h` itself. */
  ghost predicate Earlier(p: Run, h: Run) { p == h || (h.Next? && Earlier(p, h.before)) }

  lemma {:induction false} LegalEarlier(p: Run, h: Run, unseen: set<CmdKey>)
    requires Earlier(p, h) && Legal(h, unseen)
    ensures Legal(p, unseen)
  {
    if p != h {
      LegalEarlier(p, h.before, unseen);
    }
  }

  lemma MapsHaveNoEvents(d: Dump, l: Line)
    requires l in Render(d) + [TickMark]
    ensures !l.ErrorEvent? && !l.TimeoutEvent?
  {
    NoEventsIn(d, PRINT_ORDER);
  }

  lemma {:induction false} NoEventsIn(d: Dump, names: seq<MapName>)
    ensures forall l :: l in Blocks(d, names) ==> !l.ErrorEvent? && !l.TimeoutEvent?
  {
    if names != [] {
      P.BlockBelongs(d, names[0]);
      NoEventsIn(d, names[1..]);
    }
  }

  /** Every event line of the log was printed at some moment of the run, by that moment's probe. */
  lemma {:induction false} EventPrinted(h: Run, l: Line) returns (p: Run, e: Event)
    requires l in Output(h) && (l.ErrorEvent? || l.TimeoutEvent?)
    ensures Earlier(Next(p, e), h) && l in Emit(p, e) && !e.Tick?
  {
    if l in Output(h.before) {
      p, e := EventPrinted(h.before, l);
    } else {
      p, e := h.before, h.event;
      if e.Tick? {
        MapsHaveNoEvents(e.dump, l);
      }
    }
  }

  /** Each error a reader shows was reported at the completion `d` of a command after `p`, which failed
      before fifty others of its controller did in that tick; its status is that of the completion,
      and its other fields are those of the command, if its submission was seen. */
  lemma ShownErrorExact(h: Run, unseen: set<CmdKey>, r: ErrorReport) returns (p: Run, d: Completion)
    requires Legal(h, unseen) && r in Picked(Output(h), Error())
    ensures Earlier(Next(p, Complete(d)), h) && d.status != 0 && SinceTick(p, Failed(FailedOn(d.ctrl))) < 50
    ensures r.ts == d.now && r.ctrl == d.ctrl && r.qid == d.qid && r.cid == d.cid && r.retries == d.retries
    ensures r.status == d.status && d.status % 0x8000 == r.sc + 0x100 * r.sct + 0x800 * r.crd + 0x2000 * r.more + 0x4000 * r.dnr
    ensures r.sc < 0x100 && r.sct < 8 && r.crd < 4 && r.more < 2 && r.dnr < 2
    ensures match Outstanding(p, d.ctrl, d.qid, d.cid)
            case Some(c) => ReportsSeen(r, c)
            case None => ReportsUnseen(r)
  {
    var l := PickedIn(Output(h), Error(), r);
    var e: Event;
    p, e := EventPrinted(h, l);
    d := e.done;
    LegalEarlier(Next(p, e), h, unseen);
    DetailExact(p, e, l);
    StatusFields(p, d);
    ErrorReportExact(p, unseen, d);
  }

  /** Each timeout a reader shows carries the fields of the one command that was in flight with its
      tag then, or zeros if none was seen. */
  lemma ShownTimeoutExact(h: Run, unseen: set<CmdKey>, r: TimeoutReport) returns (p: Run, now: nat)
    requires Legal(h, unseen) && r in Picked(Output(h), TimedOut())
    ensures Earlier(Next(p, Timeout(r.ctrl, r.qid, r.tag, now)), h)
    ensures forall c :: HasTag(p, c, r.ctrl, r.qid, r.tag) ==> ReportsCommand(r, c)
    ensures (forall c :: !HasTag(p, c, r.ctrl, r.qid, r.tag)) ==> ReportsNothing(r)
    ensures r.ts == now
  {
    var l := PickedIn(Output(h), TimedOut(), r);
    p, now := TimeoutPrinted(h, l);
    LegalEarlier(Next(p, Timeout(r.ctrl, r.qid, r.tag, now)), h, unseen);
    TimeoutReportExact(p, unseen, r.ctrl, r.qid, r.tag, now);
  }

  lemma TimeoutPrinted(h: Run, l: Line) returns (p: Run, now: nat)
    requires l in Output(h) && l.TimeoutEvent?
    ensures var r := l.timeout;
            Earlier(Next(p, Timeout(r.ctrl, r.qid, r.tag, now)), h) && l == TimeoutLine(p, r.ctrl, r.qid, r.tag, now)
  {
    var e: Event;
    p, e := EventPrinted(h, l);
    now := e.now;
  }
}
