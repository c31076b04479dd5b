/** The incremental log cursor (src/telemetryd/platform/ebpf/logfile.py) and the event
    readers built on it (ebpf_error_events.py, ebpf_timeout_events.py). */
module Cursor {
  import opened Common

  const NEWLINE: Byte := 10

  type Text = seq<Byte>

  // ---- lines of a byte string ----

  /** The number of bytes up to and including the last newline. */
  function Terminated(s: Text): (n: nat)
    ensures n <= |s|
  {
    if s == [] then 0 else if s[|s| - 1] == NEWLINE then |s| else Terminated(s[..|s| - 1])
  }

  lemma {:induction false} TerminatedAtLast(s: Text)
    ensures var n := Terminated(s); (n > 0 ==> s[n - 1] == NEWLINE) && NEWLINE !in s[n..]
  {
    if s != [] && s[|s| - 1] != NEWLINE {
      TerminatedAtLast(s[..|s| - 1]);
      var n := Terminated(s);
      assert s[n..] == s[..|s| - 1][n..] + [s[|s| - 1]];
    }
  }

  /** The newline-terminated lines, without their newlines; an unfinished last line is not
      among them. This is the meaning the cursor is measured against. */
  function Lines(s: Text): seq<Text> {
    Split(s, [])
  }

  function Split(s: Text, partial: Text): seq<Text> {
    if s == [] then []
    else if s[0] == NEWLINE then [partial] + Split(s[1..], [])
    else Split(s[1..], partial + [s[0]])
  }

  /** Python's `s.split("\n")`: the pieces around every newline. */
  function Pieces(s: Text, partial: Text): seq<Text> {
    if s == [] then [partial]
    else if s[0] == NEWLINE then [partial] + Pieces(s[1..], [])
    else Pieces(s[1..], partial + [s[0]])
  }

  /** Dropping the final newline and splitting gives exactly the terminated lines. */
  lemma {:induction false} PiecesAreLines(s: Text, partial: Text)
    ensures Pieces(s, partial) == Split(s + [NEWLINE], partial)
  {
    if s == [] {
      assert s + [NEWLINE] == [NEWLINE];
      assert Split([], []) == [];
    } else {
      assert (s + [NEWLINE])[0] == s[0] && (s + [NEWLINE])[1..] == s[1..] + [NEWLINE];
      PiecesAreLines(s[1..], if s[0] == NEWLINE then [] else partial + [s[0]]);
    }
  }

  /** Lines are read off piecewise wherever the text is cut after a newline. */
  lemma {:induction false} SplitAppend(s: Text, t: Text, partial: Text)
    requires s != [] ==> s[|s| - 1] == NEWLINE
    requires s == [] ==> partial == []
    ensures Split(s + t, partial) == Split(s, partial) + Split(t, [])
  {
    if s == [] {
      assert s + t == t;
    } else {
      assert (s + t)[0] == s[0] && (s + t)[1..] == s[1..] + t;
      SplitAppend(s[1..], t, if s[0] == NEWLINE then [] else partial + [s[0]]);
    }
  }

  lemma {:induction false} NoNewlineNoLines(s: Text, partial: Text)
    requires NEWLINE !in s
    ensures Split(s, partial) == []
  {
    if s != [] {
      NoNewlineNoLines(s[1..], partial + [s[0]]);
    }
  }

  lemma LinesOfTerminated(s: Text)
    ensures Lines(s) == Lines(s[..Terminated(s)])
  {
    var n := Terminated(s);
    TerminatedAtLast(s);
    assert s == s[..n] + s[n..];
    SplitAppend(s[..n], s[n..], []);
    NoNewlineNoLines(s[n..], []);
  }

  /** Lines written one after the other, each with its newline. */
  function Written(lines: seq<Text>): Text { if lines == [] then [] else lines[0] + [10] + Written(lines[1..]) }

  /** No line has a newline in it, and together they are the text up to its last newline: nothing is
      lost, repeated or moved. */
  lemma LinesExact(s: Text)
    ensures forall l :: l in Lines(s) ==> 10 !in l
    ensures var done := Written(Lines(s)); done <= s && 10 !in s[|done|..]
  {
    NoNewlineInside(s, []);
    SplitIsWritten(s, []);
    TerminatedAtLast(s);
    assert [] + s[..Terminated(s)] == s[..Terminated(s)];
  }

  lemma {:induction false} NoNewlineInside(s: Text, partial: Text)
    requires 10 !in partial
    ensures forall l :: l in Split(s, partial) ==> 10 !in l
  {
    if s != [] {
      NoNewlineInside(s[1..], if s[0] == NEWLINE then [] else partial + [s[0]]);
    }
  }

  lemma {:induction false} SplitIsWritten(s: Text, partial: Text)
    ensures Written(Split(s, partial)) == if Terminated(s) == 0 then [] else partial + s[..Terminated(s)]
  {
    if s != [] {
      TerminatedTail(s);
      var n := Terminated(s);
      if s[0] == NEWLINE {
        SplitIsWritten(s[1..], []);
        FirstWritten(partial, Split(s[1..], []), s, n);
      } else {
        SplitIsWritten(s[1..], partial + [s[0]]);
        assert n > 0 ==> partial + [s[0]] + s[1..][..n - 1] == partial + s[..n];
      }
    }
  }

  lemma FirstWritten(line: Text, lines: seq<Text>, s: Text, n: nat)
    requires 0 < n <= |s| && s[0] == 10 && Written(lines) == s[1..][..n - 1]
    ensures Written([line] + lines) == line + s[..n]
  {
    assert ([line] + lines)[1..] == lines;
    assert line + [10] + s[1..][..n - 1] == line + s[..n];
  }

  /** Bytes a list of lines stands for, newlines included. */
  function Extent(lines: seq<Text>): nat {
    if lines == [] then 0 else |lines[0]| + 1 + Extent(lines[1..])
  }

  lemma {:induction false} SplitExtent(s: Text, partial: Text)
    ensures Extent(Split(s, partial)) == if Terminated(s) == 0 then 0 else |partial| + Terminated(s)
  {
    if s != [] {
      TerminatedTail(s);
      SplitExtent(s[1..], if s[0] == NEWLINE then [] else partial + [s[0]]);
    }
  }

  lemma {:induction false} TerminatedTail(s: Text)
    requires s != []
    ensures Terminated(s) == if Terminated(s[1..]) > 0 then 1 + Terminated(s[1..]) else if s[0] == NEWLINE then 1 else 0
  {
    if s[|s| - 1] != NEWLINE && |s| > 1 {
      TerminatedTail(s[..|s| - 1]);
      assert s[..|s| - 1][1..] == s[1..][..|s| - 2];
    }
  }

  // ---- one poll ----

  /** What a poll may see: the size at the check and the content at the read. */
  datatype Look = NoFile | SizeOnly(size: nat) | Seen(size: nat, content: Text)

  /** The offset a poll starts from: a file shorter than the offset starts over. */
  function Restart(offset: nat, size: nat): nat {
    if size < offset then 0 else offset
  }

  /** The effect of one poll that starts at `offset`: it hands over the terminated lines
      between there and the end of what it read, and stops after the last of them. */
  ghost predicate Delivered(hasPath: bool, offset: nat, look: Look, lines: seq<Text>, offset': nat) {
    if !hasPath || look.NoFile? then lines == [] && offset' == offset
    else if look.SizeOnly? then lines == [] && offset' == Restart(offset, look.size)
    else
      var from := Restart(offset, look.size);
      var rest := if from <= |look.content| then look.content[from..] else [];
      lines == Lines(rest) && offset' == from + Terminated(rest)
  }

  class FileCursor {
    const hasPath: bool
    var offset: nat

    constructor (hasPath: bool)
      ensures this.hasPath == hasPath && offset == 0
    {
      this.hasPath := hasPath;
      offset := 0;
    }

    /** `read_new_lines`. The file may have grown, or been replaced, between the size
        check and the read; `look` holds what each of the two saw. */
    method ReadNewLines(look: Look) returns (lines: seq<Text>)
      modifies this
      ensures Delivered(hasPath, old(offset), look, lines, offset)
    {
      if !hasPath || look.NoFile? {
        return [];
      }
      if look.size < offset {
        offset := 0;
      }
      if look.SizeOnly? {
        return [];
      }
      var chunk := if offset <= |look.content| then look.content[offset..] else [];
      var lastNl := FindLast(chunk);
      TerminatedAtLast(chunk);
      LinesOfTerminated(chunk);
      if lastNl == -1 {
        return [];
      }
      offset := offset + lastNl + 1;
      PiecesAreLines(chunk[..lastNl], []);
      assert chunk[..lastNl] + [NEWLINE] == chunk[..lastNl + 1];
      return Pieces(chunk[..lastNl], []);
    }
  }

  /** `chunk.rfind(b"\n")`. */
  method FindLast(s: Text) returns (i: int)
    ensures i == Terminated(s) - 1
  {
    i := |s| - 1;
    assert s[..|s|] == s;
    while i >= 0 && s[i] != NEWLINE
      invariant -1 <= i < |s|
      invariant Terminated(s) == Terminated(s[..i + 1])
    {
      assert s[..i + 1][..i] == s[..i];
      i := i - 1;
    }
  }

  // ---- whole runs ----

  /** One generation of the file that is gone: its last content, and what was delivered of it. */
  datatype Generation = Generation(content: Text, delivered: seq<Text>)

  /** The world of one reader: the file, the cursor, the lines delivered from the current
      generation of the file, all lines ever received, and the generations before. `stale` is
      set while the file has been replaced and no poll has read it since. */
  datatype World = World(
    content: Text, offset: nat, delivered: seq<Text>, received: seq<Text>, past: seq<Generation>, stale: bool)

  /** What the writer does, and the three outcomes of a poll: it reads the file `grown` bytes
      after it took the size, it finds no file, or it gets the size and cannot read. */
  datatype Action =
    | Append(bytes: Text)
    | Replace(content: Text)
    | Poll(grown: Text)
    | Missing
    | Unreadable

  const Fresh := World([], 0, [], [], [], false)

  function Step(w: World, a: Action): World {
    match a
    case Append(b) => w.(content := w.content + b)
    case Replace(c) => World(c, w.offset, [], w.received, w.past + [Generation(w.content, w.delivered)], true)
    case Poll(grown) =>
      var content := w.content + grown;
      var from := Restart(w.offset, |w.content|);
      var rest := if from <= |content| then content[from..] else [];
      World(content, from + Terminated(rest), w.delivered + Lines(rest), w.received + Lines(rest), w.past, false)
    case Missing => w
    case Unreadable => w.(offset := Restart(w.offset, |w.content|))
  }

  /** What a poll of the cursor sees at an action of a run. */
  function LookAt(w: World, a: Action): Option<Look> {
    match a
    case Append(_) => None
    case Replace(_) => None
    case Poll(grown) => Some(Seen(|w.content|, w.content + grown))
    case Missing => Some(NoFile)
    case Unreadable => Some(SizeOnly(|w.content|))
  }

  /** The polls of a run are polls of the cursor, failing ones included. */
  lemma StepIsPoll(w: World, a: Action, lines: seq<Text>, offset: nat)
    requires LookAt(w, a).Some? && Delivered(true, w.offset, LookAt(w, a).value, lines, offset)
    ensures var t := Step(w, a);
            t.offset == offset && t.received == w.received + lines && t.delivered == w.delivered + lines && t.past == w.past
  {
  }

  function Run(actions: seq<Action>): World {
    if actions == [] then Fresh else Step(Run(actions[..|actions| - 1]), actions[|actions| - 1])
  }

  /** A replaced file is noticed only while it is shorter than the offset; nothing is lost
      either if nothing had been read. */
  ghost predicate Noticeable(w: World) {
    w.stale ==> |w.content| < w.offset || w.offset == 0
  }

  ghost predicate EveryPollNotices(actions: seq<Action>) {
    forall i :: 0 <= i < |actions| && actions[i].Poll? ==> Noticeable(Run(actions[..i]))
  }

  ghost predicate InStep(w: World) {
    && w.offset <= |w.content|
    && (w.offset > 0 ==> w.content[w.offset - 1] == NEWLINE)
    && w.delivered == Lines(w.content[..w.offset])
  }

  /** Reading on from a line boundary completes the lines of the whole text. */
  lemma ReadOn(content: Text, offset: nat)
    requires offset <= |content| && (offset > 0 ==> content[offset - 1] == NEWLINE)
    ensures var rest := content[offset..];
            var next := offset + Terminated(rest);
            && (next > 0 ==> content[next - 1] == NEWLINE)
            && Lines(content[..offset]) + Lines(rest) == Lines(content)
            && Lines(content[..next]) == Lines(content)
  {
    var head, rest := content[..offset], content[offset..];
    var done := rest[..Terminated(rest)];
    assert content == head + rest && content[..offset + |done|] == head + done;
    TerminatedAtLast(rest);
    LinesOfTerminated(rest);
    SplitAppend(head, rest, []);
    SplitAppend(head, done, []);
  }

  lemma PollDelivers(w: World, grown: Text)
    requires InStep(w)
    ensures var w' := Step(w, Poll(grown)); InStep(w') && w'.delivered == Lines(w'.content)
  {
    var content := w.content + grown;
    assert content[..w.offset] == w.content[..w.offset];
    ReadOn(content, w.offset);
  }

  lemma NoticedPollDelivers(w: World, grown: Text)
    requires Noticeable(w)
    requires if w.stale then w.delivered == [] else InStep(w)
    ensures var w' := Step(w, Poll(grown)); InStep(w') && w'.delivered == Lines(w'.content)
  {
    if w.stale {
      var reset := w.(offset := 0);
      assert Step(w, Poll(grown)) == Step(reset, Poll(grown));
      PollDelivers(reset, grown);
    } else {
      PollDelivers(w, grown);
    }
  }

  lemma NoticesBefore(actions: seq<Action>)
    requires EveryPollNotices(actions) && actions != []
    ensures EveryPollNotices(actions[..|actions| - 1])
    ensures actions[|actions| - 1].Poll? ==> Noticeable(Run(actions[..|actions| - 1]))
  {
    var before := actions[..|actions| - 1];
    forall i | 0 <= i < |before| && before[i].Poll?
      ensures Noticeable(Run(before[..i]))
    {
      assert before[..i] == actions[..i] && actions[i] == before[i];
    }
  }

  ghost predicate Tracking(w: World) { if w.stale then w.delivered == [] else InStep(w) }

  lemma StepTracks(w: World, a: Action)
    requires Tracking(w) && (a.Poll? ==> Noticeable(w))
    ensures Tracking(Step(w, a))
    ensures a.Poll? ==> Step(w, a).delivered == Lines(Step(w, a).content)
  {
    match a
    case Append(b) =>
      assert !w.stale ==> (w.content + b)[..w.offset] == w.content[..w.offset];
    case Poll(grown) =>
      NoticedPollDelivers(w, grown);
    case _ =>
  }

  lemma {:induction false} StaysInStep(actions: seq<Action>)
    requires EveryPollNotices(actions)
    ensures Tracking(Run(actions))
  {
    if actions != [] {
      NoticesBefore(actions);
      StaysInStep(actions[..|actions| - 1]);
      StepTracks(Run(actions[..|actions| - 1]), actions[|actions| - 1]);
    }
  }

  /** Whenever a poll has read the file, all polls since the file's generation began have
      delivered exactly its terminated lines, each once and in order: nothing is lost or
      repeated however appends, polls and failing polls interleave, even between the size
      check and the read. */
  lemma ExactlyOnce(actions: seq<Action>)
    requires EveryPollNotices(actions) && actions != [] && actions[|actions| - 1].Poll?
    ensures Run(actions).delivered == Lines(Run(actions).content)
  {
    NoticesBefore(actions);
    StaysInStep(actions[..|actions| - 1]);
    StepTracks(Run(actions[..|actions| - 1]), actions[|actions| - 1]);
  }

  /** The premise is exact: the first poll of a replaced file delivers its lines if and only
      if the replacement is noticeable or has no finished line yet. */
  lemma ReplacementExact(w: World, grown: Text)
    requires w.stale && w.delivered == []
    ensures var w' := Step(w, Poll(grown));
            w'.delivered == Lines(w'.content) <==> Noticeable(w) || NEWLINE !in w'.content
  {
    var content := w.content + grown;
    if Noticeable(w) {
      NoticedPollDelivers(w, grown);
    } else if NEWLINE in content {
      LaterStart(content, w.offset);
    } else {
      NoNewlineNoLines(content, []);
      NoNewlineNoLines(content[w.offset..], []);
    }
  }

  /** Starting after the first byte delivers something else, as soon as there is a line. */
  lemma LaterStart(s: Text, from: nat)
    requires 0 < from <= |s| && NEWLINE in s
    ensures Lines(s[from..]) != Lines(s)
  {
    SplitExtent(s, []);
    SplitExtent(s[from..], []);
    TerminatedAtLast(s);
    var n := Terminated(s);
    assert n > 0 by {
      assert s[0..] == s;
    }
    LastNewline(s, from);
  }

  lemma {:induction false} LastNewline(s: Text, from: nat)
    requires from <= |s|
    ensures Terminated(s[from..]) == if Terminated(s) > from then Terminated(s) - from else 0
  {
    if from < |s| && s[|s| - 1] != NEWLINE {
      LastNewline(s[..|s| - 1], from);
      assert s[from..][..|s| - from - 1] == s[..|s| - 1][from..];
    }
  }

  // ---- all generations of the file ----

  /** The contents of all generations, the current one last: what the writer did, whoever
      polled. */
  function WrittenBy(w: World): seq<Text> { Contents(w.past) + [w.content] }

  function Contents(past: seq<Generation>): seq<Text> {
    if past == [] then [] else Contents(past[..|past| - 1]) + [past[|past| - 1].content]
  }

  function LinesOfAll(texts: seq<Text>): seq<Text> {
    if texts == [] then [] else LinesOfAll(texts[..|texts| - 1]) + Lines(texts[|texts| - 1])
  }

  function DeliveredOf(past: seq<Generation>): seq<Text> {
    if past == [] then [] else DeliveredOf(past[..|past| - 1]) + past[|past| - 1].delivered
  }

  /** Nothing received is forgotten: it is what each generation delivered, one after the other. */
  lemma {:induction false} ReceivedByGeneration(actions: seq<Action>)
    ensures var w := Run(actions); w.received == DeliveredOf(w.past) + w.delivered
  {
    if actions != [] {
      var w := Run(actions[..|actions| - 1]);
      ReceivedByGeneration(actions[..|actions| - 1]);
      match actions[|actions| - 1]
      case Replace(c) =>
        var g := Generation(w.content, w.delivered);
        assert (w.past + [g])[..|w.past|] == w.past;
      case _ =>
    }
  }

  /** A finished line is in the file that no successful poll has come after. */
  predicate Waiting(actions: seq<Action>) {
    if actions == [] then false
    else
      var before := actions[..|actions| - 1];
      match actions[|actions| - 1]
      case Append(b) => NEWLINE in b || Waiting(before)
      case Replace(c) => NEWLINE in c
      case Poll(_) => false
      case Missing => Waiting(before)
      case Unreadable => Waiting(before)
  }

  /** No generation is replaced while a line of it is waiting. */
  ghost predicate Settled(actions: seq<Action>) {
    forall i :: 0 <= i < |actions| && actions[i].Replace? ==> !Waiting(actions[..i])
  }

  /** The part of the file the polls have not read. */
  function Behind(w: World): Text
    requires !w.stale ==> w.offset <= |w.content|
  {
    if w.stale then w.content else w.content[w.offset..]
  }

  lemma {:induction false} LinesNeedNewline(s: Text, partial: Text)
    ensures Split(s, partial) == [] <==> NEWLINE !in s
  {
    if s != [] && s[0] != NEWLINE {
      LinesNeedNewline(s[1..], partial + [s[0]]);
    }
  }

  lemma DeliveredIsPrefix(w: World)
    requires Tracking(w)
    ensures Lines(w.content) == w.delivered + Lines(Behind(w))
    ensures w.delivered == Lines(w.content) <==> NEWLINE !in Behind(w)
  {
    if !w.stale {
      ReadOn(w.content, w.offset);
    }
    LinesNeedNewline(Behind(w), []);
  }

  /** Whether a line is waiting is whether something finished is still to be delivered. */
  lemma {:induction false} WaitingExact(actions: seq<Action>)
    requires EveryPollNotices(actions)
    ensures Tracking(Run(actions))
    ensures Waiting(actions) <==> NEWLINE in Behind(Run(actions))
    ensures Waiting(actions) <==> Run(actions).delivered != Lines(Run(actions).content)
  {
    StaysInStep(actions);
    DeliveredIsPrefix(Run(actions));
    if actions != [] {
      NoticesBefore(actions);
      WaitingExact(actions[..|actions| - 1]);
      BehindNext(Run(actions[..|actions| - 1]), actions[|actions| - 1]);
    }
  }

  lemma BehindNext(w: World, a: Action)
    requires Tracking(w) && (a.Poll? ==> Noticeable(w))
    ensures Tracking(Step(w, a))
    ensures NEWLINE in Behind(Step(w, a)) <==>
            match a {
              case Append(b) => NEWLINE in b || NEWLINE in Behind(w)
              case Replace(c) => NEWLINE in c
              case Poll(_) => false
              case _ => NEWLINE in Behind(w)
            }
  {
    StepTracks(w, a);
    DeliveredIsPrefix(Step(w, a));
    if a.Append? {
      assert Behind(Step(w, a)) == Behind(w) + a.bytes;
    }
  }

  /** Every generation delivered a beginning of its lines, and all of them exactly when it was
      not replaced too early. */
  lemma {:induction false} GenerationsExact(actions: seq<Action>)
    requires EveryPollNotices(actions)
    ensures forall g :: g in Run(actions).past ==> g.delivered <= Lines(g.content)
    ensures Settled(actions) <==> forall g :: g in Run(actions).past ==> g.delivered == Lines(g.content)
  {
    if actions != [] {
      var before, a := actions[..|actions| - 1], actions[|actions| - 1];
      NoticesBefore(actions);
      GenerationsExact(before);
      SettledNext(actions);
      if a.Replace? {
        var w := Run(before);
        WaitingExact(before);
        DeliveredIsPrefix(w);
        assert forall g :: g in Run(actions).past <==> g in w.past || g == Generation(w.content, w.delivered);
      }
    }
  }

  lemma SettledNext(actions: seq<Action>)
    requires actions != []
    ensures var before, a := actions[..|actions| - 1], actions[|actions| - 1];
            Settled(actions) <==> Settled(before) && (a.Replace? ==> !Waiting(before))
  {
    var before, a := actions[..|actions| - 1], actions[|actions| - 1];
    assert forall i :: 0 <= i < |before| ==> before[i] == actions[i] && before[..i] == actions[..i];
    if Settled(actions) {
      forall i | 0 <= i < |before| && before[i].Replace?
        ensures !Waiting(before[..i])
      {
        assert actions[i].Replace?;
      }
      assert a.Replace? ==> !Waiting(actions[..|actions| - 1]);
    }
  }

  lemma {:induction false} BeginningsAddUp(past: seq<Generation>)
    requires forall g :: g in past ==> g.delivered <= Lines(g.content)
    ensures |DeliveredOf(past)| <= |LinesOfAll(Contents(past))|
    ensures |DeliveredOf(past)| == |LinesOfAll(Contents(past))| <==> forall g :: g in past ==> g.delivered == Lines(g.content)
    ensures (forall g :: g in past ==> g.delivered == Lines(g.content)) ==> DeliveredOf(past) == LinesOfAll(Contents(past))
  {
    if past != [] {
      var front, g := past[..|past| - 1], past[|past| - 1];
      assert past == front + [g];
      BeginningsAddUp(front);
      assert Contents(past)[..|Contents(front)|] == Contents(front);
    }
  }

  /** What the reader has received is all finished lines of all generations, in order, exactly
      when no generation was replaced before a successful poll came after its last finished
      line, and none is waiting now. */
  lemma ReceivedExact(actions: seq<Action>)
    requires EveryPollNotices(actions)
    ensures Run(actions).received == LinesOfAll(WrittenBy(Run(actions))) <==> Settled(actions) && !Waiting(actions)
  {
    var w := Run(actions);
    ReceivedByGeneration(actions);
    WaitingExact(actions);
    DeliveredIsPrefix(w);
    GenerationsExact(actions);
    BeginningsAddUp(w.past);
    assert WrittenBy(w)[..|Contents(w.past)|] == Contents(w.past);
    assert LinesOfAll(WrittenBy(w)) == LinesOfAll(Contents(w.past)) + Lines(w.content);
  }

  // ---- event readers ----

  function Matching<E>(lines: seq<Text>, parse: Text -> Option<E>): seq<E> {
    if lines == [] then []
    else
      var front := Matching(lines[..|lines| - 1], parse);
      match parse(lines[|lines| - 1])
      case None => front
      case Some(ev) => front + [ev]
  }

  lemma {:induction false} MatchingAppend<E>(a: seq<Text>, b: seq<Text>, parse: Text -> Option<E>)
    ensures Matching(a + b, parse) == Matching(a, parse) + Matching(b, parse)
  {
    if b == [] {
      assert a + b == a;
    } else {
      assert (a + b)[..|a + b| - 1] == a + b[..|b| - 1];
      MatchingAppend(a, b[..|b| - 1], parse);
    }
  }

  lemma MatchingOne<E>(line: Text, parse: Text -> Option<E>)
    ensures Matching([line], parse) == if parse(line).Some? then [parse(line).value] else []
  {
    assert Matching([line][..0], parse) == [];
  }

  /** The error reader and the timeout reader: same cursor, same buffer, different parser. */
  class EventReader<E> {
    const parse: Text -> Option<E>
    const maxEvents: nat
    const cursor: FileCursor
    var events: seq<E>
    /** Everything the cursor has handed over. */
    ghost var received: seq<Text>

    ghost predicate Valid()
      reads this
    {
      events == Tail(Matching(received, parse), maxEvents)
    }

    constructor (hasPath: bool, maxEvents: nat, parse: Text -> Option<E>)
      ensures Valid() && fresh(cursor) && events == [] && received == []
      ensures this.maxEvents == maxEvents && this.parse == parse
      ensures cursor.hasPath == hasPath && cursor.offset == 0
    {
      this.parse := parse;
      this.maxEvents := maxEvents;
      this.cursor := new FileCursor(hasPath);
      events := [];
      received := [];
    }

    method Poll(look: Look) returns (r: seq<E>)
      requires Valid()
      modifies this, cursor
      ensures Valid() && r == events && IsEnd(events, Matching(received, parse), maxEvents)
      ensures old(received) <= received
      ensures Delivered(cursor.hasPath, old(cursor.offset), look, received[|old(received)|..], cursor.offset)
    {
      var lines := cursor.ReadNewLines(look);
      Take(lines);
      assert received[|old(received)|..] == lines;
      return events;
    }

    /** The events of the new lines join the buffer, and it is trimmed. */
    method Take(lines: seq<Text>)
      requires Valid()
      modifies `events, `received
      ensures Valid() && received == old(received) + lines && IsEnd(events, Matching(received, parse), maxEvents)
    {
      var found := Select(lines, parse);
      var all := events + found;
      if |all| > maxEvents {
        all := all[if maxEvents == 0 then 0 else |all| - maxEvents..];
      }
      BufferNext(events, received, lines, found, all, parse, maxEvents);
      events := all;
      received := received + lines;
    }
  }

  /** The buffer after a poll that brought some lines. */
  lemma BufferNext<E>(events: seq<E>, received: seq<Text>, lines: seq<Text>, found: seq<E>, all: seq<E>,
                      parse: Text -> Option<E>, maxEvents: nat)
    requires events == Tail(Matching(received, parse), maxEvents) && found == Matching(lines, parse)
    requires all == if |events + found| > maxEvents > 0 then (events + found)[|events + found| - maxEvents..] else events + found
    ensures all == Tail(Matching(received + lines, parse), maxEvents)
    ensures IsEnd(all, Matching(received + lines, parse), maxEvents)
  {
    MatchingAppend(received, lines, parse);
    Trimmed(events, Matching(received, parse), found, all, maxEvents);
  }

  lemma Trimmed<E>(events: seq<E>, past: seq<E>, found: seq<E>, all: seq<E>, maxEvents: nat)
    requires events == Tail(past, maxEvents)
    requires all == if |events + found| > maxEvents > 0 then (events + found)[|events + found| - maxEvents..] else events + found
    ensures all == Tail(past + found, maxEvents) && IsEnd(all, past + found, maxEvents)
  {
    TrimAgain(past, found, maxEvents);
    TailIsEnd(past + found, maxEvents);
  }

  /** The loop of `poll`: the events of the lines that parse, in order. */
  method Select<E>(lines: seq<Text>, parse: Text -> Option<E>) returns (found: seq<E>)
    ensures found == Matching(lines, parse)
  {
    found := [];
    for i := 0 to |lines|
      invariant found == Matching(lines[..i], parse)
    {
      assert lines[..i + 1][..i] == lines[..i];
      var ev := parse(lines[i]);
      if ev.Some? {
        found := found + [ev.value];
      }
    }
    assert lines[..|lines|] == lines;
  }

  /** Trimming, appending and trimming again is the same as trimming once. */
  lemma TrimAgain<E>(a: seq<E>, b: seq<E>, n: nat)
    ensures Tail(Tail(a, n) + b, n) == Tail(a + b, n)
  {
    if n > 0 && |a| > n {
      assert Tail(a, n) + b == (a + b)[|a| - n..];
    }
  }

  /** The buffer of a reader that has received these lines. */
  function Buffer<E>(received: seq<Text>, parse: Text -> Option<E>, maxEvents: nat): seq<E> {
    Tail(Matching(received, parse), maxEvents)
  }

  /** A new reader polled along any run of the file receives what the run says, failing polls
      included, so its buffer is that of the run. */
  method Follow<E>(reader: EventReader<E>, actions: seq<Action>)
    requires reader.Valid() && reader.received == [] && reader.cursor.hasPath && reader.cursor.offset == 0
    modifies reader, reader.cursor
    ensures reader.received == Run(actions).received && reader.cursor.offset == Run(actions).offset
    ensures reader.events == Buffer(Run(actions).received, reader.parse, reader.maxEvents)
    ensures IsEnd(reader.events, Matching(Run(actions).received, reader.parse), reader.maxEvents)
  {
    for i := 0 to |actions|
      invariant reader.Valid() && reader.cursor.offset == Run(actions[..i]).offset
      invariant reader.received == Run(actions[..i]).received
    {
      assert actions[..i + 1][..i] == actions[..i];
      var w, a := Run(actions[..i]), actions[i];
      var look := LookAt(w, a);
      if look.Some? {
        ghost var before := reader.received;
        var shown := reader.Poll(look.value);
        StepIsPoll(w, a, reader.received[|before|..], reader.cursor.offset);
      }
    }
    assert actions[..|actions|] == actions;
    TailIsEnd(Matching(reader.received, reader.parse), reader.maxEvents);
  }

  /** Readers that end on the same history of the file, one of which missed nothing: the other
      has received the same exactly when it was polled in time, too, and then both have the
      same buffer. How the polls were scheduled otherwise does not matter. */
  lemma ScheduleIndependent<E>(one: seq<Action>, two: seq<Action>, parse: Text -> Option<E>, maxEvents: nat)
    requires EveryPollNotices(one) && EveryPollNotices(two) && WrittenBy(Run(one)) == WrittenBy(Run(two))
    requires Settled(one) && !Waiting(one)
    ensures Run(two).received == Run(one).received <==> Settled(two) && !Waiting(two)
    ensures Settled(two) && !Waiting(two) ==>
              Buffer(Run(two).received, parse, maxEvents) == Buffer(Run(one).received, parse, maxEvents)
  {
    ReceivedExact(one);
    ReceivedExact(two);
  }

  /** A file that is only appended to needs no condition: after a poll the buffer is that of
      the finished lines in the file. */
  lemma AppendOnly<E>(actions: seq<Action>, parse: Text -> Option<E>, maxEvents: nat)
    requires actions != [] && actions[|actions| - 1].Poll? && forall i :: 0 <= i < |actions| ==> !actions[i].Replace?
    ensures Buffer(Run(actions).received, parse, maxEvents) == Buffer(Lines(Run(actions).content), parse, maxEvents)
  {
    ReceivedIsFile(actions);
  }

  lemma ReceivedIsFile(actions: seq<Action>)
    requires actions != [] && actions[|actions| - 1].Poll? && forall i :: 0 <= i < |actions| ==> !actions[i].Replace?
    ensures Run(actions).received == Lines(Run(actions).content)
  {
    NeverReplaced(actions);
    ExactlyOnce(actions);
    ReceivedByGeneration(actions);
  }

  lemma {:induction false} NeverReplaced(actions: seq<Action>)
    requires forall i :: 0 <= i < |actions| ==> !actions[i].Replace?
    ensures !Run(actions).stale && Run(actions).past == [] && EveryPollNotices(actions)
  {
    if actions != [] {
      NeverReplaced(actions[..|actions| - 1]);
    }
    forall i | 0 <= i < |actions| && actions[i].Poll?
      ensures Noticeable(Run(actions[..i]))
    {
      NeverReplaced(actions[..i]);
    }
  }

  lemma RunNext(actions: seq<Action>, a: Action)
    ensures Run(actions + [a]) == Step(Run(actions), a)
    ensures EveryPollNotices(actions) && (a.Poll? ==> Noticeable(Run(actions))) ==> EveryPollNotices(actions + [a])
    ensures Settled(actions + [a]) <==> Settled(actions) && (a.Replace? ==> !Waiting(actions))
    ensures a.Poll? ==> !Waiting(actions + [a])
    ensures a.Append? && NEWLINE in a.bytes ==> Waiting(actions + [a])
  {
    var all := actions + [a];
    assert all[..|actions|] == actions;
    SettledNext(all);
    if EveryPollNotices(actions) && (a.Poll? ==> Noticeable(Run(actions))) {
      forall i | 0 <= i < |all| && all[i].Poll?
        ensures Noticeable(Run(all[..i]))
      {
        assert i < |actions| ==> all[..i] == actions[..i] && all[i] == actions[i];
      }
    }
  }

  lemma OneLine(line: Text)
    requires NEWLINE !in line
    ensures Lines(line + [NEWLINE]) == [line] && Terminated(line + [NEWLINE]) == |line| + 1
  {
    PiecesAreLines(line, []);
    OnePiece(line, []);
    assert [] + line == line;
    assert (line + [NEWLINE])[|line|] == NEWLINE;
  }

  lemma {:induction false} OnePiece(s: Text, partial: Text)
    requires NEWLINE !in s
    ensures Pieces(s, partial) == [partial + s]
  {
    if s != [] {
      OnePiece(s[1..], partial + [s[0]]);
      assert partial + [s[0]] + s[1..] == partial + s;
    } else {
      assert partial + s == partial;
    }
  }

  lemma PollsOneLine(line: Text)
    requires NEWLINE !in line
    ensures var text := line + [NEWLINE];
            Step(World(text, 0, [], [], [], false), Poll([])) == World(text, |text|, [line], [line], [], false)
  {
    var text := line + [NEWLINE];
    OneLine(line);
    assert text + [] == text && text[0..] == text;
  }

  ghost predicate Reaches(run: seq<Action>, w: World) { EveryPollNotices(run) && Run(run) == w }

  lemma ReachesNext(run: seq<Action>, w: World, a: Action, next: World)
    requires Reaches(run, w) && Step(w, a) == next && (a.Poll? ==> Noticeable(w))
    ensures Reaches(run + [a], next)
  {
    RunNext(run, a);
  }

  /** After a replacement by an empty file, and a poll. */
  lemma ReplacedAndPolled(run: seq<Action>, w: World) returns (all: seq<Action>)
    requires Reaches(run, w)
    ensures all == run + [Replace([])] + [Poll([])]
    ensures Reaches(all, World([], 0, [], w.received, w.past + [Generation(w.content, w.delivered)], false))
    ensures !Waiting(all) && (Settled(all) <==> Settled(run) && !Waiting(run))
  {
    var replaced := World([], w.offset, [], w.received, w.past + [Generation(w.content, w.delivered)], true);
    ReachesNext(run, w, Replace([]), replaced);
    RunNext(run, Replace([]));
    all := run + [Replace([])];
    assert Step(replaced, Poll([])) == replaced.(offset := 0, stale := false);
    ReachesNext(all, replaced, Poll([]), replaced.(offset := 0, stale := false));
    RunNext(all, Poll([]));
    all := all + [Poll([])];
  }

  lemma Appended(text: Text)
    ensures Reaches([Append(text)], World(text, 0, [], [], [], false)) && Settled([Append(text)])
    ensures NEWLINE in text ==> Waiting([Append(text)])
  {
    assert [] + text == text;
    ReachesNext([], Fresh, Append(text), World(text, 0, [], [], [], false));
    RunNext([], Append(text));
    assert [] + [Append(text)] == [Append(text)];
  }

  lemma OneEvent<E>(line: Text, parse: Text -> Option<E>, maxEvents: nat)
    requires parse(line).Some?
    ensures Buffer([line], parse, maxEvents) == [parse(line).value] && Buffer([], parse, maxEvents) == []
  {
    assert Matching([line], parse) == Matching([], parse) + [parse(line).value];
  }

  /** Without the condition it fails, for every line that is an event: replaced before a poll
      it is in one buffer and not in the other, on the same history of the file. */
  lemma ReplacedTooEarly<E>(line: Text, parse: Text -> Option<E>, maxEvents: nat) returns (one: seq<Action>, two: seq<Action>)
    requires NEWLINE !in line && parse(line).Some?
    ensures EveryPollNotices(one) && EveryPollNotices(two) && WrittenBy(Run(one)) == WrittenBy(Run(two))
    ensures Settled(one) && !Waiting(one) && !Settled(two) && !Waiting(two)
    ensures Buffer(Run(one).received, parse, maxEvents) == [parse(line).value]
    ensures Buffer(Run(two).received, parse, maxEvents) == []
  {
    var text := line + [NEWLINE];
    assert text[|line|] == NEWLINE;
    var written, read := World(text, 0, [], [], [], false), World(text, |text|, [line], [line], [], false);
    Appended(text);
    two := ReplacedAndPolled([Append(text)], written);
    PollsOneLine(line);
    ReachesNext([Append(text)], written, Poll([]), read);
    RunNext([Append(text)], Poll([]));
    one := ReplacedAndPolled([Append(text)] + [Poll([])], read);
    SameContents([], Generation(text, [line]), Generation(text, []));
    OneEvent(line, parse, maxEvents);
  }

  lemma SameContents(past: seq<Generation>, g: Generation, h: Generation)
    requires g.content == h.content
    ensures Contents(past + [g]) == Contents(past + [h])
  {
    assert (past + [g])[..|past|] == past == (past + [h])[..|past|];
  }
}
