/** Reading the log gives back what the collector counted: the last complete tick of the
    log of any run, parsed, is that tick's maps. */
module Recovery {
  import opened Common
  import opened Tables
  import opened LogLines
  import opened History
  import opened PerfParser

  // ---- finding the tick ----

  /** What the log holds since its last tick mark. */
  function Open(h: Run): seq<Line> {
    match h
    case Attached => [Other]
    case Next(p, e) => if e.Tick? then [] else Open(p) + Emit(p, e)
  }

  /** A run's events, other than ticks, print event lines only. */
  lemma {:induction false} OpenHasEventsOnly(h: Run)
    ensures forall l :: l in Open(h) ==> l.Other? || l.ErrorEvent? || l.TimeoutEvent?
  {
    if h.Next? && !h.event.Tick? {
      OpenHasEventsOnly(h.before);
    }
  }

  lemma {:induction false} OutputEndsOpen(h: Run) returns (pre: seq<Line>)
    ensures Output(h) == pre + Open(h)
    ensures pre == [] || pre[|pre| - 1] == TickMark
  {
    if h.Attached? {
      pre := [];
    } else if h.event.Tick? {
      TickEndsWithMark(h.before, h.event);
      pre := Output(h);
    } else {
      pre := OutputEndsOpen(h.before);
      Assoc(pre, Open(h.before), Emit(h.before, h.event));
    }
  }

  lemma TickEndsWithMark(p: Run, e: Event)
    requires e.Tick?
    ensures var out := Output(Next(p, e)); |out| > 0 && out[|out| - 1] == TickMark
  {
    var body := Render(e.dump);
    assert Emit(p, e) == body + [TickMark];
  }

  lemma Assoc<T>(a: seq<T>, b: seq<T>, c: seq<T>)
    ensures a + b + c == a + (b + c)
  {
  }

  lemma {:induction false} LinesKind<K>(s: seq<(K, nat)>, row: (K, nat) -> Line, want: Line -> bool)
    requires want(Other) && forall k, v :: want(row(k, v))
    ensures forall l :: l in Lines(s, row) ==> want(l)
  {
    if s != [] {
      LinesKind(s[1..], row, want);
    }
  }

  predicate NoScalar2(l: Line) { !l.Scalar2? }

  lemma {:induction false} RowsKind(rows: seq<(nat, nat)>)
    ensures forall l :: l in RowLines(rows) ==> l.BucketRow? || l.PointRow? || l.WideRow?
  {
    if rows != [] {
      RowsKind(rows[1..]);
    }
  }

  lemma {:induction false} HistLinesKind(blocks: seq<HistBlock>)
    ensures forall l :: l in HistLines(blocks) ==> l.HistKey? || l.BucketRow? || l.PointRow? || l.WideRow? || l.Other?
  {
    if blocks != [] {
      RowsKind(blocks[0].rows);
      HistLinesKind(blocks[1..]);
    }
  }

  /** No printed map contains a tick mark. */
  lemma {:induction false} BlocksKind(d: Dump, names: seq<MapName>)
    ensures TickMark !in Blocks(d, names)
  {
    if names != [] {
      BlockKind(d, names[0]);
      BlocksKind(d, names[1..]);
    }
  }

  predicate NoMark(l: Line) { l != TickMark }

  lemma BlockKind(d: Dump, n: MapName)
    ensures TickMark !in Block(d, n)
  {
    match n
    case LatHist => HistLinesKind(d.latHist);
    case OpsByProcess => LinesKind(d.procOps, RowOps, NoMark);
    case OpsByThread => LinesKind(d.thrOps, RowThr, NoMark);
    case ProcBs => LinesKind(Entries3(d, n), Row3(n), NoMark);
    case ProcQ => LinesKind(Entries3(d, n), Row3(n), NoMark);
    case ErrCount => LinesKind(Entries3(d, n), Row3(n), NoMark);
    case _ => LinesKind(Entries2(d, n), Row2(n), NoMark);
  }

  /** However much of a next tick follows, the last complete tick is found: the events
      printed since the mark before it, then the maps. */
  lemma TickFound(h: Run, d: Dump, rest: seq<Line>)
    requires TickMark !in rest
    ensures LastCompleteTick(Output(Next(h, Tick(d))) + rest) == Some(Open(h) + Render(d))
  {
    var pre := OutputEndsOpen(h);
    OpenHasEventsOnly(h);
    BlocksKind(d, PRINT_ORDER);
    var open, render := Open(h), Render(d);
    assert Output(Next(h, Tick(d))) == pre + open + (render + [TickMark]);
    Regroup(pre, open, render, rest);
    LastTickFound(pre, open + render, rest);
  }

  lemma Regroup(pre: seq<Line>, open: seq<Line>, render: seq<Line>, rest: seq<Line>)
    ensures pre + open + (render + [TickMark]) + rest == pre + (open + render) + [TickMark] + rest
  {
  }

  // ---- scalars ----

  predicate TwoKeys(n: MapName) {
    !(n in {LatHist, OpsByProcess, OpsByThread, ProcBs, ProcQ, ErrCount})
  }

  lemma {:induction false} InRow2(s: seq<((int, int), nat)>, name: MapName, n: MapName, k: (int, int), v: nat)
    ensures Scalar2(n, k.0, k.1, v) in Lines(s, Row2(name)) <==> n == name && (k, v) in s
  {
    if s != [] {
      InRow2(s[1..], name, n, k, v);
      assert s == [s[0]] + s[1..];
    }
  }

  lemma BlockScalar(d: Dump, m: MapName, n: MapName, k: (int, int), v: nat)
    ensures Scalar2(n, k.0, k.1, v) in Block(d, m) <==> n == m && TwoKeys(n) && (k, v) in Entries2(d, n)
  {
    match m
    case LatHist => HistLinesKind(d.latHist);
    case OpsByProcess => LinesKind(d.procOps, RowOps, NoScalar2);
    case OpsByThread => LinesKind(d.thrOps, RowThr, NoScalar2);
    case ProcBs => LinesKind(Entries3(d, m), Row3(m), NoScalar2);
    case ProcQ => LinesKind(Entries3(d, m), Row3(m), NoScalar2);
    case ErrCount => LinesKind(Entries3(d, m), Row3(m), NoScalar2);
    case _ => InRow2(Entries2(d, m), m, n, k, v);
  }

  lemma {:induction false} BlocksScalar(d: Dump, names: seq<MapName>, n: MapName, k: (int, int), v: nat)
    ensures Scalar2(n, k.0, k.1, v) in Blocks(d, names) <==> n in names && TwoKeys(n) && (k, v) in Entries2(d, n)
  {
    if names != [] {
      BlockScalar(d, names[0], n, k, v);
      BlocksScalar(d, names[1..], n, k, v);
    }
  }

  function AsOption<K>(m: map<K, nat>, k: K): Option<nat> { if k in m then Some(m[k]) else None }

  /** A value is read back when its line, and no other with its key, is in the text. */
  lemma ScalarFrom(open: seq<Line>, render: seq<Line>, n: MapName, k: (int, int), m: map<(int, int), nat>)
    requires forall l :: l in open ==> !l.Scalar2?
    requires forall v :: Scalar2(n, k.0, k.1, v) in render <==> k in m && m[k] == v
    ensures Scalar(open + render, k, n) == AsOption(m, k)
  {
    ScalarIsLine(open + render, k, n);
    if k in m {
      assert Scalar2(n, k.0, k.1, m[k]) in open + render;
    }
  }

  lemma Listed<K>(s: seq<(K, nat)>, m: map<K, nat>, k: K, v: nat)
    requires Lists(s, m)
    ensures (k, v) in s <==> k in m && m[k] == v
  {
  }

  /** Every two-key counter of the tick is read back, and nothing else. */
  lemma ScalarsRecovered(h: Run, d: Dump, n: MapName, k: (int, int))
    requires IsDump(d, h)
    ensures Scalar(Open(h) + Render(d), k, n) == AsOption(Map2(h, n), k)
  {
    OpenHasEventsOnly(h);
    AllPrinted(d, n, k, Map2(h, n));
    ScalarFrom(Open(h), Render(d), n, k, Map2(h, n));
  }

  lemma AllPrinted(d: Dump, n: MapName, k: (int, int), m: map<(int, int), nat>)
    requires Lists(Entries2(d, n), m) && (!TwoKeys(n) ==> m == map[])
    ensures forall v :: Scalar2(n, k.0, k.1, v) in Render(d) <==> k in m && m[k] == v
  {
    EveryMapPrinted(n);
    forall v
      ensures Scalar2(n, k.0, k.1, v) in Render(d) <==> k in m && m[k] == v
    {
      BlocksScalar(d, PRINT_ORDER, n, k, v);
      Listed(Entries2(d, n), m, k, v);
    }
  }
}
