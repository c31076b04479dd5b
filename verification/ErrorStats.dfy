/** The cumulative error statistics (src/telemetryd/backend/ebpf_error_events.py), read from
    the end of the log only. */
module ErrorStats {
  import opened Common
  import opened Tables
  import opened LogLines
  import opened History
  import opened Ledger
  import opened Conservation
  import opened Counters
  import opened Recovery
  import opened HistRecovery
  import opened ProcRecovery

  type Counts = map<(int, int, int), nat>

  predicate IsCount(l: Line) { l.Scalar3? && l.name == ErrCount }

  /** Later lines replace earlier ones: every tick prints the running totals again. */
  function CountsOf(lines: seq<Line>): Counts {
    if lines == [] then map[]
    else
      var front, l := CountsOf(lines[..|lines| - 1]), lines[|lines| - 1];
      if IsCount(l) then front[(l.k1, l.k2, l.k3) := l.value] else front
  }

  /** `_parse_err_counts`. */
  method ParseErrCounts(lines: seq<Line>) returns (counts: Counts)
    ensures counts == CountsOf(lines)
  {
    counts := map[];
    for i := 0 to |lines|
      invariant counts == CountsOf(lines[..i])
    {
      assert lines[..i + 1][..i] == lines[..i];
      var l := lines[i];
      if l.Scalar3? && l.name == ErrCount {
        counts := counts[(l.k1, l.k2, l.k3) := l.value];
      }
    }
    assert lines[..|lines|] == lines;
  }

  /** `read_error_stats`: the rows of one controller and their sum. */
  method ReadErrorStats(lines: seq<Line>, ctrl: int) returns (rows: seq<((int, int, int), nat)>, total: nat)
    ensures forall k, n: nat :: (k, n) in rows <==> k in CountsOf(lines) && k.0 == ctrl && n == CountsOf(lines)[k]
    ensures total == Total(CountsOf(lines), Ctrl3(ctrl))
  {
    var counts := ParseErrCounts(lines);
    var own := map k | k in counts && k.0 == ctrl :: counts[k];
    rows := Print(own);
    total := 0;
    for i := 0 to |rows|
      invariant total == SumEntries(rows[..i], Ctrl3(ctrl))
    {
      assert rows[..i + 1] == rows[..i] + [rows[i]];
      SumEntriesAppend(rows[..i], [rows[i]], Ctrl3(ctrl));
      total := total + rows[i].1;
    }
    assert rows[..|rows|] == rows;
    OwnRows(rows, counts, own, ctrl);
  }

  lemma OwnRows(rows: seq<((int, int, int), nat)>, counts: Counts, own: Counts, ctrl: int)
    requires own == (map k | k in counts && k.0 == ctrl :: counts[k]) && Lists(rows, own)
    ensures forall k, n: nat :: (k, n) in rows <==> k in counts && k.0 == ctrl && n == counts[k]
    ensures SumEntries(rows, Ctrl3(ctrl)) == Total(counts, Ctrl3(ctrl))
  {
    forall k, n: nat
      ensures (k, n) in rows <==> k in counts && k.0 == ctrl && n == counts[k]
    {
      Listed(rows, own, k, n);
    }
    ListedSum(rows, own, Ctrl3(ctrl));
    OwnTotal(counts, own, Ctrl3(ctrl));
  }

  lemma {:induction false} OwnTotal<K(!new)>(m: map<K, nat>, own: map<K, nat>, keep: K -> bool)
    requires own == map k | k in m && keep(k) :: m[k]
    ensures Total(own, keep) == Total(m, keep)
    decreases |m|
  {
    if own == map[] {
      assert forall k :: k in m && keep(k) ==> k in own;
      TotalNothing(m, keep);
    } else {
      var k :| k in own;
      TotalTake(own, keep, k);
      TotalTake(m, keep, k);
      OwnTotal(m - {k}, own - {k}, keep);
    }
  }

  // ---- the end of the log is enough ----

  lemma {:induction false} CountsAppend(a: seq<Line>, b: seq<Line>)
    ensures CountsOf(a + b) == CountsOf(a) + CountsOf(b)
  {
    if b == [] {
      assert a + b == a;
    } else {
      assert (a + b)[..|a + b| - 1] == a + b[..|b| - 1];
      CountsAppend(a, b[..|b| - 1]);
    }
  }

  /** Reading a tail gives the full statistics exactly when no error code is only to be
      found before it. */
  lemma TailExact(before: seq<Line>, tail: seq<Line>)
    ensures CountsOf(before + tail) == CountsOf(tail) <==> CountsOf(before).Keys <= CountsOf(tail).Keys
  {
    CountsAppend(before, tail);
    var all := CountsOf(before) + CountsOf(tail);
    assert all.Keys == CountsOf(before).Keys + CountsOf(tail).Keys;
    if CountsOf(before).Keys <= CountsOf(tail).Keys {
      assert all == CountsOf(tail);
    }
  }

  lemma {:induction false} NoCounts(lines: seq<Line>)
    requires forall l :: l in lines ==> !IsCount(l)
    ensures CountsOf(lines) == map[]
  {
    if lines != [] {
      NoCounts(lines[..|lines| - 1]);
    }
  }

  lemma {:induction false} CountsOfLines(s: seq<((int, int, int), nat)>, m: Counts)
    requires Lists(s, m)
    ensures CountsOf(Lines(s, Row3(ErrCount))) == m
    decreases |s|
  {
    if s == [] {
      ListsNothing(s, m);
      assert CountsOf([Other]) == CountsOf([]);
    } else {
      ListsTail(s, m);
      CountsOfLines(s[1..], m - {s[0].0});
      FirstCount(s[0].0, s[0].1, Lines(s[1..], Row3(ErrCount)), m);
    }
  }

  lemma FirstCount(k: (int, int, int), v: nat, rest: seq<Line>, m: Counts)
    requires k in m && m[k] == v && CountsOf(rest) == m - {k}
    ensures CountsOf([Row3(ErrCount)(k, v)] + rest) == m
  {
    var row := Row3(ErrCount)(k, v);
    assert CountsOf([row]) == CountsOf([])[k := v];
    CountsAppend([row], rest);
    assert map[k := v] + (m - {k}) == m;
  }

  lemma OtherBlock(d: Dump, n: MapName)
    requires n != ErrCount
    ensures CountsOf(Block(d, n)) == map[]
  {
    BlockBelongs(d, n);
    NoCounts(Block(d, n));
  }

  lemma PlusNothing(c: Counts)
    ensures map[] + c == c && c + map[] == c
  {
  }

  lemma {:induction false} CountsOfBlocks(d: Dump, names: seq<MapName>)
    requires NoDuplicates(names)
    ensures CountsOf(Blocks(d, names)) == if ErrCount in names then CountsOf(Block(d, ErrCount)) else map[]
  {
    if names != [] {
      var n, rest := names[0], names[1..];
      assert forall x :: x in names <==> x == n || x in rest;
      CountsOfBlocks(d, rest);
      CountsAppend(Block(d, n), Blocks(d, rest));
      if n != ErrCount {
        OtherBlock(d, n);
      }
      PlusNothing(CountsOf(Blocks(d, rest)));
      PlusNothing(CountsOf(Block(d, n)));
    }
  }

  /** A dump's counts are the collector's totals. */
  lemma CountsOfDump(h: Run, d: Dump)
    requires IsDump(d, h)
    ensures CountsOf(Render(d)) == Ever(h, ErrCountOf)
    ensures CountsOf(Block(d, ErrCount)) == Ever(h, ErrCountOf)
  {
    assert Lists(Entries3(d, ErrCount), Map3(h, ErrCount));
    CountsOfPrint(d, Ever(h, ErrCountOf));
  }

  lemma CountsOfPrint(d: Dump, m: Counts)
    requires Lists(Entries3(d, ErrCount), m)
    ensures CountsOf(Render(d)) == m && CountsOf(Block(d, ErrCount)) == m
  {
    OnlyOneBlock(d);
    CountsOfLines(Entries3(d, ErrCount), m);
  }

  lemma OnlyOneBlock(d: Dump)
    ensures CountsOf(Render(d)) == CountsOf(Block(d, ErrCount))
  {
    PrintedOnce();
    EveryMapPrinted(ErrCount);
    CountsOfBlocks(d, PRINT_ORDER);
  }

  /** Error codes are never forgotten. */
  lemma EverGrows(p: Run, e: Event)
    ensures Ever(p, ErrCountOf).Keys <= Ever(Next(p, e), ErrCountOf).Keys
  {
  }

  predicate IsEventLine(l: Line) { l.Other? || l.ErrorEvent? || l.TimeoutEvent? }

  lemma EventOutput(p: Run, e: Event)
    requires !e.Tick?
    ensures forall l :: l in Emit(p, e) ==> IsEventLine(l)
  {
  }

  /** The log never mentions an error code the collector has not counted. */
  lemma {:induction false} LogCountsKnown(h: Run)
    requires Printed(h)
    ensures CountsOf(Output(h)).Keys <= Ever(h, ErrCountOf).Keys
  {
    if h.Next? {
      LogCountsKnown(h.before);
      EverGrows(h.before, h.event);
      EmitCountsKnown(h.before, h.event);
      CountsAppend(Output(h.before), Emit(h.before, h.event));
    } else {
      assert CountsOf([Other]) == CountsOf([]);
    }
  }

  lemma EmitCountsKnown(p: Run, e: Event)
    requires e.Tick? ==> IsDump(e.dump, p)
    ensures CountsOf(Emit(p, e)).Keys <= Ever(p, ErrCountOf).Keys
  {
    if e.Tick? {
      CountsOfDump(p, e.dump);
      CountsAppend(Render(e.dump), [TickMark]);
      assert CountsOf([TickMark]) == CountsOf([]);
    } else {
      EventOutput(p, e);
      NoCounts(Emit(p, e));
    }
  }

  lemma {:induction false} BlocksAppend(d: Dump, a: seq<MapName>, b: seq<MapName>)
    ensures Blocks(d, a + b) == Blocks(d, a) + Blocks(d, b)
  {
    if a == [] {
      assert a + b == b;
    } else {
      assert (a + b)[0] == a[0] && (a + b)[1..] == a[1..] + b;
      BlocksAppend(d, a[1..], b);
      Assoc(Block(d, a[0]), Blocks(d, a[1..]), Blocks(d, b));
    }
  }

  /** The maps printed before the error counts. */
  function BeforeErrors(): seq<MapName> { [OpCount, ReadCount, WriteCount, BytesSum, LatSum, LatCount, LatHist] }

  function AfterErrors(): seq<MapName> {
    [OpsByProcess, ProcBytes, ProcRd, ProcWr, ProcBs, ProcQ, ProcLatSum, ProcLatCnt, ProcSeq, ProcRand, OpsByThread]
  }

  lemma ErrorsInMiddle(d: Dump)
    ensures Render(d) == Blocks(d, BeforeErrors()) + (Block(d, ErrCount) + Blocks(d, AfterErrors()))
  {
    assert PRINT_ORDER == BeforeErrors() + ([ErrCount] + AfterErrors());
    BlocksAppend(d, BeforeErrors(), [ErrCount] + AfterErrors());
  }

  lemma HeadHasNoCounts(d: Dump)
    ensures CountsOf(Blocks(d, BeforeErrors())) == map[]
  {
    var names := BeforeErrors();
    assert NoDuplicates(names) by {
      assert forall i :: 0 <= i < |names| ==> Position(names[i]) == i;
    }
    CountsOfBlocks(d, names);
  }

  /** Any tail of the log that still holds the error block of the last finished dump gives
      the same statistics as the whole log, whatever follows, later dumps in the making
      included. A read that starts in the middle of a line sees a `fragment` of it, which is
      not a count line: those begin with their name. */
  lemma TailIsEnough(p: Run, d: Dump, rest: seq<Line>, cut: nat, fragment: seq<Line>)
    requires Printed(p) && IsDump(d, p) && forall l :: l in fragment ==> !IsCount(l)
    requires cut <= |Output(p)| + |Blocks(d, BeforeErrors())|
    ensures var log := Output(p) + (Render(d) + [TickMark]) + rest;
            cut <= |log| && CountsOf(fragment + log[cut..]) == CountsOf(log)
  {
    LineTailIsEnough(p, d, rest, cut);
    FragmentAdds(fragment, (Output(p) + (Render(d) + [TickMark]) + rest)[cut..]);
  }

  lemma FragmentAdds(fragment: seq<Line>, tail: seq<Line>)
    requires forall l :: l in fragment ==> !IsCount(l)
    ensures CountsOf(fragment + tail) == CountsOf(tail)
  {
    NoCounts(fragment);
    CountsAppend(fragment, tail);
    PlusNothing(CountsOf(tail));
  }

  lemma LineTailIsEnough(p: Run, d: Dump, rest: seq<Line>, cut: nat)
    requires Printed(p) && IsDump(d, p)
    requires cut <= |Output(p)| + |Blocks(d, BeforeErrors())|
    ensures var log := Output(p) + (Render(d) + [TickMark]) + rest;
            cut <= |log| && CountsOf(log[cut..]) == CountsOf(log)
  {
    var first := Blocks(d, BeforeErrors());
    var errors, last := Block(d, ErrCount), Blocks(d, AfterErrors());
    ErrorsInMiddle(d);
    RegroupLog(Output(p), first, errors, last, rest);
    LogCountsKnown(p);
    HeadHasNoCounts(d);
    CountsAppend(Output(p), first);
    CountsOfDump(p, d);
    CutLog(Output(p) + first, errors, last + [TickMark] + rest, cut);
  }

  lemma RegroupLog(out: seq<Line>, first: seq<Line>, errors: seq<Line>, last: seq<Line>, rest: seq<Line>)
    ensures out + (first + (errors + last) + [TickMark]) + rest == (out + first) + (errors + (last + [TickMark] + rest))
  {
  }

  lemma CutLog(head: seq<Line>, errors: seq<Line>, more: seq<Line>, cut: nat)
    requires cut <= |head| && CountsOf(head).Keys <= CountsOf(errors).Keys
    ensures var log := head + (errors + more); CountsOf(log[cut..]) == CountsOf(log)
  {
    var log := head + (errors + more);
    var before, kept := head[..cut], head[cut..];
    var tail := kept + (errors + more);
    assert head == before + kept;
    Assoc(before, kept, errors + more);
    DropFront(before, tail);
    CutCounts(before, kept, errors, more);
  }

  lemma DropFront<T>(a: seq<T>, b: seq<T>)
    ensures (a + b)[|a|..] == b
  {
  }

  lemma CutCounts(before: seq<Line>, kept: seq<Line>, errors: seq<Line>, more: seq<Line>)
    requires CountsOf(before + kept).Keys <= CountsOf(errors).Keys
    ensures CountsOf(before + (kept + (errors + more))) == CountsOf(kept + (errors + more))
  {
    CountsAppend(before, kept);
    CountsAppend(kept, errors + more);
    CountsAppend(errors, more);
    TailExact(before, kept + (errors + more));
  }

  /** Just after a tick the statistics are all errors since the collector started, printed
      in detail or not. */
  lemma StatsAreAllErrors(p: Run, d: Dump, ctrl: int, rest: seq<Line>)
    requires Printed(p) && IsDump(d, p) && forall l :: l in rest ==> !IsCount(l)
    ensures Total(CountsOf(Output(Next(p, Tick(d))) + rest), Ctrl3(ctrl)) == SinceStart(p, Failed(FailedOn(ctrl)))
    ensures forall sct, sc :: CountExact(CountsOf(Output(Next(p, Tick(d))) + rest), p, ctrl, sct, sc)
  {
    LogCountsAre(p, d, rest);
    ErrorsConserved(p, ctrl);
    forall sct, sc
      ensures CountExact(Ever(p, ErrCountOf), p, ctrl, sct, sc)
    {
      ErrorCounts(p, ctrl, sct, sc);
    }
  }

  /** The row of a status type and code is the number of completions that failed with them; there is
      none when nothing did. */
  ghost predicate CountExact(counts: Counts, p: Run, ctrl: int, sct: int, sc: int) {
    var failed := SinceStart(p, Failed(FailedWith(ctrl, sct, sc)));
    if failed == 0 then (ctrl, sct, sc) !in counts
    else (ctrl, sct, sc) in counts && counts[(ctrl, sct, sc)] == failed && 0 <= sct < 8 && 0 <= sc < 0x100
  }

  lemma LogCountsAre(p: Run, d: Dump, rest: seq<Line>)
    requires Printed(p) && IsDump(d, p) && forall l :: l in rest ==> !IsCount(l)
    ensures CountsOf(Output(Next(p, Tick(d))) + rest) == Ever(p, ErrCountOf)
  {
    DumpCovers(p, d);
    TickReplaces(p, d, rest);
  }

  lemma DumpCovers(p: Run, d: Dump)
    requires Printed(p) && IsDump(d, p)
    ensures CountsOf(Render(d)) == Ever(p, ErrCountOf) && CountsOf(Output(p)).Keys <= CountsOf(Render(d)).Keys
  {
    LogCountsKnown(p);
    CountsOfDump(p, d);
  }

  lemma TickReplaces(p: Run, d: Dump, rest: seq<Line>)
    requires CountsOf(Output(p)).Keys <= CountsOf(Render(d)).Keys && forall l :: l in rest ==> !IsCount(l)
    ensures CountsOf(Output(Next(p, Tick(d))) + rest) == CountsOf(Render(d))
  {
    CountsReplaced(Output(p), Render(d), rest);
  }

  /** A dump with every code of the log before it replaces all of them. */
  lemma CountsReplaced(out: seq<Line>, dump: seq<Line>, rest: seq<Line>)
    requires CountsOf(out).Keys <= CountsOf(dump).Keys && forall l :: l in rest ==> !IsCount(l)
    ensures CountsOf(out + (dump + [TickMark]) + rest) == CountsOf(dump)
  {
    CountsAppend(out + (dump + [TickMark]), rest);
    CountsAppend(out, dump + [TickMark]);
    CountsAppend(dump, [TickMark]);
    NoCounts([TickMark]);
    NoCounts(rest);
  }
}
