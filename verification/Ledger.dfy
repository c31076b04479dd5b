/** What happened in a run, counted command by command from the fields of the trace points. The
    maps of the collector are measured against these counts. */
module Ledger {
  import opened History

  /** What one event counts for, given the events before it. */
  type Weight = (Run, Event) -> int

  /** Added up over the events since the last tick. */
  function SinceTick(h: Run, w: Weight): int {
    match h
    case Attached => 0
    case Next(_, Tick(_)) => 0
    case Next(p, e) => SinceTick(p, w) + w(p, e)
  }

  /** Added up over all events since the collector attached. */
  function SinceStart(h: Run, w: Weight): int {
    match h
    case Attached => 0
    case Next(p, e) => SinceStart(p, w) + w(p, e)
  }

  // ---- submissions ----

  /** Submitted commands of a kind. */
  function Sent(want: Command -> bool): Weight {
    (p: Run, e: Event) => if e.Submit? && want(e.cmd) then 1 else 0
  }

  /** Opcode 2 is a read, opcode 1 a write. */
  function Reads(want: Command -> bool): Weight {
    (p: Run, e: Event) => if e.Submit? && want(e.cmd) && e.cmd.opcode == 2 then 1 else 0
  }

  function Writes(want: Command -> bool): Weight {
    (p: Run, e: Event) => if e.Submit? && want(e.cmd) && e.cmd.opcode == 1 then 1 else 0
  }

  /** The bytes reads and writes move, in blocks of 512. */
  function Moved(want: Command -> bool): Weight {
    (p: Run, e: Event) =>
      if e.Submit? && want(e.cmd) && (e.cmd.opcode == 1 || e.cmd.opcode == 2)
      then 512 * BlockCount(e.cmd) else 0
  }

  /** Reads and writes that move so many bytes. */
  function MovedAtOnce(want: Command -> bool, bytes: int): Weight {
    (p: Run, e: Event) =>
      if e.Submit? && want(e.cmd) && (e.cmd.opcode == 1 || e.cmd.opcode == 2) && 512 * BlockCount(e.cmd) == bytes then 1 else 0
  }

  /** The block after the last read or write of a process on a controller; 0 before the first. */
  function NextBlock(h: Run, ctrl: int, pid: int): nat {
    match h
    case Attached => 0
    case Next(p, Submit(c)) =>
      if c.ctrl == ctrl && c.pid == pid && (c.opcode == 1 || c.opcode == 2) then StartLba(c) + BlockCount(c)
      else NextBlock(p, ctrl, pid)
    case Next(p, _) => NextBlock(p, ctrl, pid)
  }

  /** The command starts at that block. */
  predicate Adjoins(p: Run, c: Command) {
    NextBlock(p, c.ctrl, c.pid) != 0 && StartLba(c) == NextBlock(p, c.ctrl, c.pid)
  }

  /** Reads and writes that do, and those that do not. */
  function InSequence(want: Command -> bool): Weight {
    (p: Run, e: Event) =>
      if e.Submit? && want(e.cmd) && (e.cmd.opcode == 1 || e.cmd.opcode == 2) && Adjoins(p, e.cmd) then 1 else 0
  }

  function OutOfSequence(want: Command -> bool): Weight {
    (p: Run, e: Event) =>
      if e.Submit? && want(e.cmd) && (e.cmd.opcode == 1 || e.cmd.opcode == 2) && !Adjoins(p, e.cmd) then 1 else 0
  }

  function OnQueue(ctrl: int, qid: int): Command -> bool { (c: Command) => c.ctrl == ctrl && c.qid == qid }

  function OnCtrl(ctrl: int): Command -> bool { (c: Command) => c.ctrl == ctrl }

  function ByProcess(ctrl: int, pid: int): Command -> bool { (c: Command) => c.ctrl == ctrl && c.pid == pid }

  function ByProcessOn(ctrl: int, pid: int, qid: int): Command -> bool {
    (c: Command) => c.ctrl == ctrl && c.pid == pid && c.qid == qid
  }

  /** By a process while it had this name. */
  function ByName(ctrl: int, pid: int, comm: string): Command -> bool {
    (c: Command) => c.ctrl == ctrl && c.pid == pid && c.comm == comm
  }

  function ByThread(ctrl: int, pid: int, tid: int, comm: string): Command -> bool {
    (c: Command) => c.ctrl == ctrl && c.pid == pid && c.tid == tid && c.comm == comm
  }

  // ---- completions ----

  /** Completions of commands whose submission was seen. */
  function Answered(want: Command -> bool): Weight {
    (p: Run, e: Event) =>
      if e.Complete? then
        match Outstanding(p, e.done.ctrl, e.done.qid, e.done.cid)
        case None => 0
        case Some(c) => if want(c) then 1 else 0
      else 0
  }

  /** The nanoseconds they took. */
  function Waited(want: Command -> bool): Weight {
    (p: Run, e: Event) =>
      if e.Complete? then
        match Outstanding(p, e.done.ctrl, e.done.qid, e.done.cid)
        case None => 0
        case Some(c) => if want(c) && c.time <= e.done.now then e.done.now - c.time else 0
      else 0
  }

  /** Each of those times, in order of completion, for one queue since the last tick. */
  function Waits(h: Run, ctrl: int, qid: int): seq<nat> {
    match h
    case Attached => []
    case Next(_, Tick(_)) => []
    case Next(p, Complete(d)) =>
      (match Outstanding(p, d.ctrl, d.qid, d.cid)
       case None => Waits(p, ctrl, qid)
       case Some(c) =>
         if d.ctrl == ctrl && d.qid == qid then Waits(p, ctrl, qid) + [if c.time <= d.now then d.now - c.time else 0]
         else Waits(p, ctrl, qid))
    case Next(p, _) => Waits(p, ctrl, qid)
  }

  /** Completions with an error: the status is not zero. */
  function Failed(want: Completion -> bool): Weight {
    (p: Run, e: Event) => if e.Complete? && e.done.status != 0 && want(e.done) then 1 else 0
  }

  function FailedOn(ctrl: int): Completion -> bool { (d: Completion) => d.ctrl == ctrl }

  /** Bits 7 to 0 of the status are the code, bits 10 to 8 its type. */
  function FailedWith(ctrl: int, sct: int, sc: int): Completion -> bool {
    (d: Completion) => d.ctrl == ctrl && 0 <= sc < 0x100 && d.status % 0x800 == 0x100 * sct + sc
  }
}
