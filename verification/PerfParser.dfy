/** Parsing the last complete tick of the log (src/telemetryd/backend/ebpf_perf.py). */
module PerfParser {
  import opened Common
  import opened LogLines
  import opened Percentile

  // ---- the last complete tick ----

  /** `text.split("---TICK---")`. */
  function Split(lines: seq<Line>): (parts: seq<seq<Line>>)
    ensures |parts| > 0
  {
    if lines == [] then [[]]
    else if lines[0] == TickMark then [[]] + Split(lines[1..])
    else
      var rest := Split(lines[1..]);
      [[lines[0]] + rest[0]] + rest[1..]
  }

  /** `parts[-2]`; the part after the last mark may still be growing. */
  function LastCompleteTick(lines: seq<Line>): Option<seq<Line>> {
    var parts := Split(lines);
    if |parts| < 2 then None else Some(parts[|parts| - 2])
  }

  /** The lines of the last complete tick; none before the first. */
  function TickText(lines: seq<Line>): seq<Line> {
    match LastCompleteTick(lines)
    case None => []
    case Some(tick) => tick
  }

  lemma {:induction false} SplitNoMark(lines: seq<Line>)
    requires TickMark !in lines
    ensures Split(lines) == [lines]
  {
    if lines != [] {
      SplitNoMark(lines[1..]);
      assert lines == [lines[0]] + lines[1..];
    }
  }

  lemma {:induction false} SplitAtMark(lines: seq<Line>, rest: seq<Line>)
    ensures Split(lines + [TickMark] + rest) == Split(lines) + Split(rest)
  {
    var all := lines + [TickMark] + rest;
    if lines == [] {
      assert all[0] == TickMark && all[1..] == rest;
      assert Split(lines) == [[]];
    } else {
      assert all[0] == lines[0] && all[1..] == lines[1..] + [TickMark] + rest;
      SplitAtMark(lines[1..], rest);
    }
  }

  /** Before the first mark there is no tick to read. */
  lemma NoTickYet(lines: seq<Line>)
    ensures TickMark !in lines ==> TickText(lines) == []
    ensures LastCompleteTick(lines).None? <==> TickMark !in lines
  {
    if TickMark !in lines {
      SplitNoMark(lines);
    } else {
      var i :| 0 <= i < |lines| && lines[i] == TickMark;
      assert lines == lines[..i] + [TickMark] + lines[i + 1..];
      SplitAtMark(lines[..i], lines[i + 1..]);
    }
  }

  /** A finished tick followed by anything without a mark is the last complete tick. */
  lemma LastTickFound(pre: seq<Line>, tick: seq<Line>, rest: seq<Line>)
    requires pre == [] || pre[|pre| - 1] == TickMark
    requires TickMark !in tick && TickMark !in rest
    ensures LastCompleteTick(pre + tick + [TickMark] + rest) == Some(tick)
  {
    SplitAtMark(pre + tick, rest);
    SplitNoMark(rest);
    SplitNoMark(tick);
    if pre == [] {
      assert pre + tick == tick;
    } else {
      var front := pre[..|pre| - 1];
      assert pre + tick == front + [TickMark] + tick;
      SplitAtMark(front, tick);
    }
  }

  // ---- scalars ----

  /** The value the last `@name[k1, k2]: v` line gives. */
  function Scalar(lines: seq<Line>, k: (int, int), name: MapName): Option<nat> {
    if lines == [] then None
    else
      var last := lines[|lines| - 1];
      if last.Scalar2? && (last.k1, last.k2) == k && last.name == name then Some(last.value)
      else Scalar(lines[..|lines| - 1], k, name)
  }

  predicate Gives(l: Line, k: (int, int), name: MapName) { l.Scalar2? && l.name == name && l.k1 == k.0 && l.k2 == k.1 }

  /** Line `i` is the last one with that name and those keys. */
  ghost predicate LastGiving(lines: seq<Line>, i: nat, k: (int, int), name: MapName, v: nat) {
    i < |lines| && lines[i] == Scalar2(name, k.0, k.1, v) && forall j :: i < j < |lines| ==> !Gives(lines[j], k, name)
  }

  /** A scalar value is that of the last line with its name and keys; where there is no value there is
      no such line. */
  lemma {:induction false} ScalarIsLine(lines: seq<Line>, k: (int, int), name: MapName)
    ensures Scalar(lines, k, name).Some? ==> exists i :: LastGiving(lines, i, k, name, Scalar(lines, k, name).value)
    ensures Scalar(lines, k, name).None? ==> forall v :: Scalar2(name, k.0, k.1, v) !in lines
  {
    if lines != [] {
      var n := |lines| - 1;
      var front := lines[..n];
      assert lines == front + [lines[n]];
      ScalarIsLine(front, k, name);
      if Gives(lines[n], k, name) {
        assert LastGiving(lines, n, k, name, lines[n].value);
      } else if Scalar(front, k, name).Some? {
        var v := Scalar(front, k, name).value;
        var i :| LastGiving(front, i, k, name, v);
        assert LastGiving(lines, i, k, name, v);
      }
    }
  }

  // ---- histograms ----

  function ToBucket(l: Line): Bucket
    requires l.BucketRow?
  {
    (Edge(l.lo, l.hi), l.value)
  }

  /** The bucket rows directly at the head. */
  function BucketRun(lines: seq<Line>): seq<Bucket> {
    if lines == [] || !lines[0].BucketRow? then [] else [ToBucket(lines[0])] + BucketRun(lines[1..])
  }

  /** The rows that directly follow the key lines of a queue. */
  function Hist(lines: seq<Line>, k: (int, int)): seq<Bucket> {
    if lines == [] then []
    else if lines[0] == HistKey(k.0, k.1) then BucketRun(lines[1..]) + Hist(lines[1..], k)
    else Hist(lines[1..], k)
  }

  /** Buckets are read piecewise, wherever no row is cut off from its header. */
  lemma {:induction false} HistAppend(a: seq<Line>, b: seq<Line>, k: (int, int))
    requires b == [] || !b[0].BucketRow?
    ensures Hist(a + b, k) == Hist(a, k) + Hist(b, k)
  {
    if a == [] {
      assert a + b == b;
    } else {
      assert (a + b)[0] == a[0] && (a + b)[1..] == a[1..] + b;
      HistAppend(a[1..], b, k);
      if a[0] == HistKey(k.0, k.1) {
        RunEnds(a[1..], b);
        assert BucketRun(a[1..]) + (Hist(a[1..], k) + Hist(b, k)) == BucketRun(a[1..]) + Hist(a[1..], k) + Hist(b, k);
      }
    }
  }

  lemma {:induction false} RunEnds(a: seq<Line>, b: seq<Line>)
    requires b == [] || !b[0].BucketRow?
    ensures BucketRun(a + b) == BucketRun(a)
  {
    if a == [] {
      assert a + b == b;
    } else {
      assert (a + b)[0] == a[0] && (a + b)[1..] == a[1..] + b;
      RunEnds(a[1..], b);
    }
  }

  /** A header and the rows right behind it give one bucket a row, for the header's queue only; lines
      without a header give none. */
  lemma {:induction false} HistOfRows(head: Line, rows: seq<Line>, k: (int, int))
    requires forall l :: l in rows ==> !l.HistKey?
    requires head.HistKey? ==> forall l :: l in rows ==> l.BucketRow?
    ensures var got := Hist([head] + rows, k);
            if head != HistKey(k.0, k.1) then got == []
            else |got| == |rows| && forall i :: 0 <= i < |rows| ==> got[i] == (Edge(rows[i].lo, rows[i].hi), rows[i].value)
  {
    assert ([head] + rows)[1..] == rows;
    assert forall i :: 0 <= i < |rows| ==> rows[i] in rows;
    HistSkips(rows, |rows|, k);
    assert rows[|rows|..] == [];
    if head.HistKey? {
      RunOfRows(rows);
    }
  }

  lemma {:induction false} RunOfRows(rows: seq<Line>)
    requires forall l :: l in rows ==> l.BucketRow?
    ensures |BucketRun(rows)| == |rows|
    ensures forall i :: 0 <= i < |rows| ==> rows[i].BucketRow? && BucketRun(rows)[i] == (Edge(rows[i].lo, rows[i].hi), rows[i].value)
  {
    if rows != [] {
      assert rows[0] in rows;
      RunOfRows(rows[1..]);
    }
  }

  lemma {:induction false} HistSkips(lines: seq<Line>, n: nat, k: (int, int))
    requires n <= |lines| && forall i :: 0 <= i < n ==> lines[i] != HistKey(k.0, k.1)
    ensures Hist(lines, k) == Hist(lines[n..], k)
  {
    if n == 0 {
      assert lines[0..] == lines;
    } else {
      HistSkips(lines[1..], n - 1, k);
      assert lines[1..][n - 1..] == lines[n..];
    }
  }

  // ---- the parser ----

  type Scalars = map<(int, int), map<MapName, nat>>

  type Hists = map<(int, int), seq<Bucket>>

  function Lookup(scalars: Scalars, k: (int, int), n: MapName): Option<nat> {
    if k in scalars && n in scalars[k] then Some(scalars[k][n]) else None
  }

  function HistAt(hists: Hists, k: (int, int)): seq<Bucket> { if k in hists then hists[k] else [] }

  /** `scalars.setdefault((k1, k2), {})[name] = value`. */
  function PutScalar(scalars: Scalars, line: Line): Scalars
    requires line.Scalar2?
  {
    var k := (line.k1, line.k2);
    scalars[k := (if k in scalars then scalars[k] else map[])[line.name := line.value]]
  }

  /** The scalar dictionaries hold what the lines so far say, and no key without a value. */
  ghost predicate HoldsScalars(scalars: Scalars, lines: seq<Line>) {
    && (forall k, n :: Lookup(scalars, k, n) == Scalar(lines, k, n))
    && (forall k :: k in scalars ==> exists n :: n in scalars[k])
  }

  /** The histograms so far are those of the lines before `i`. */
  ghost predicate HoldsHists(hists: Hists, lines: seq<Line>, i: nat)
    requires i <= |lines|
  {
    forall k :: HistAt(hists, k) + Hist(lines[i..], k) == Hist(lines, k)
  }

  /** `_parse_segment`. */
  method ParseSegment(lines: seq<Line>) returns (scalars: Scalars, hists: Hists)
    ensures HoldsScalars(scalars, lines)
    ensures forall k :: HistAt(hists, k) == Hist(lines, k)
  {
    scalars, hists := map[], map[];
    var i := 0;
    assert lines[0..] == lines && lines[..0] == [];
    while i < |lines|
      invariant 0 <= i <= |lines|
      invariant HoldsScalars(scalars, lines[..i]) && HoldsHists(hists, lines, i)
    {
      var line := lines[i];
      if line.Scalar2? {
        AddScalar(scalars, lines[..i], line);
        assert lines[..i + 1] == lines[..i] + [line];
        SkipHists(hists, lines, i, i + 1);
        scalars := PutScalar(scalars, line);
        i := i + 1;
      } else if line.HistKey? {
        var k := (line.k1, line.k2);
        var j, buckets := ReadBuckets(lines, i + 1);
        SkipScalars(scalars, lines, i, j);
        AddHist(hists, lines, i, j);
        hists := hists[k := HistAt(hists, k) + buckets];
        i := j;
      } else {
        SkipScalars(scalars, lines, i, i + 1);
        SkipHists(hists, lines, i, i + 1);
        i := i + 1;
      }
    }
    assert lines[..|lines|] == lines && lines[|lines|..] == [];
  }

  /** The inner loop: bucket rows up to the first line of another kind. */
  method ReadBuckets(lines: seq<Line>, from: nat) returns (j: nat, buckets: seq<Bucket>)
    requires from <= |lines|
    ensures from <= j <= |lines| && forall i :: from <= i < j ==> lines[i].BucketRow?
    ensures buckets == BucketRun(lines[from..])
  {
    j, buckets := from, [];
    while j < |lines| && lines[j].BucketRow?
      invariant from <= j <= |lines| && forall i :: from <= i < j ==> lines[i].BucketRow?
      invariant buckets + BucketRun(lines[j..]) == BucketRun(lines[from..])
    {
      assert lines[j..][1..] == lines[j + 1..];
      buckets := buckets + [ToBucket(lines[j])];
      j := j + 1;
    }
  }

  lemma AddScalar(scalars: Scalars, before: seq<Line>, line: Line)
    requires HoldsScalars(scalars, before) && line.Scalar2?
    ensures HoldsScalars(PutScalar(scalars, line), before + [line])
  {
    var k := (line.k1, line.k2);
    var after := PutScalar(scalars, line);
    assert (before + [line])[..|before|] == before;
    forall k', n
      ensures Lookup(after, k', n) == Scalar(before + [line], k', n)
    {
      assert Lookup(scalars, k', n) == Scalar(before, k', n);
    }
    assert line.name in after[k];
  }

  lemma {:induction false} SkipScalars(scalars: Scalars, lines: seq<Line>, i: nat, j: nat)
    requires i <= j <= |lines| && HoldsScalars(scalars, lines[..i])
    requires forall n :: i <= n < j ==> !lines[n].Scalar2?
    ensures HoldsScalars(scalars, lines[..j])
    decreases j - i
  {
    if i < j {
      assert lines[..i + 1][..i] == lines[..i];
      SkipScalars(scalars, lines, i + 1, j);
    }
  }

  lemma SkipHists(hists: Hists, lines: seq<Line>, i: nat, j: nat)
    requires i <= j <= |lines| && HoldsHists(hists, lines, i)
    requires forall n :: i <= n < j ==> !lines[n].HistKey?
    ensures HoldsHists(hists, lines, j)
  {
    forall k
      ensures HistAt(hists, k) + Hist(lines[j..], k) == Hist(lines, k)
    {
      HistSkips(lines[i..], j - i, k);
      assert lines[i..][j - i..] == lines[j..];
    }
  }

  lemma AddHist(hists: Hists, lines: seq<Line>, i: nat, j: nat)
    requires i < j <= |lines| && HoldsHists(hists, lines, i) && lines[i].HistKey?
    requires forall n :: i < n < j ==> lines[n].BucketRow?
    ensures var k := (lines[i].k1, lines[i].k2);
            HoldsHists(hists[k := HistAt(hists, k) + BucketRun(lines[i + 1..])], lines, j)
  {
    var k := (lines[i].k1, lines[i].k2);
    var run := BucketRun(lines[i + 1..]);
    var after := hists[k := HistAt(hists, k) + run];
    forall k'
      ensures HistAt(after, k') + Hist(lines[j..], k') == Hist(lines, k')
    {
      assert lines[i..][1..] == lines[i + 1..];
      HistSkips(lines[i + 1..], j - i - 1, k');
      assert lines[i + 1..][j - i - 1..] == lines[j..];
      assert HistAt(hists, k') + Hist(lines[i..], k') == Hist(lines, k');
      if k' == k {
        assert HistAt(hists, k) + run + Hist(lines[j..], k) == HistAt(hists, k) + (run + Hist(lines[j..], k));
      }
    }
  }
}
