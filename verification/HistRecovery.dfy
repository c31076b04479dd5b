/** Latency histograms from the log: which of them are read back, and that those are the
    log2 histograms of the tick's latencies. */
module HistRecovery {
  import opened Common
  import opened Tables
  import opened LogLines
  import opened History
  import opened Ledger
  import opened Counters
  import opened Percentile
  import opened PerfParser
  import opened Recovery

  // ---- reading the blocks ----

  function BucketOf(row: (nat, nat)): Bucket
    requires row.0 >= 2
  {
    (Edge(Power(row.0 - 1), Power(row.0)), row.1)
  }

  /** The rows a reader gets: it stops at the first `[0]` or `[1]` line and at the first wide one. */
  function Readable(rows: seq<(nat, nat)>): seq<Bucket> {
    if rows == [] || rows[0].0 < 2 || rows[0].0 >= WIDE_ROW then [] else [BucketOf(rows[0])] + Readable(rows[1..])
  }

  lemma {:induction false} RunIsReadable(rows: seq<(nat, nat)>, rest: seq<Line>)
    requires rest != [] && !rest[0].BucketRow?
    ensures BucketRun(RowLines(rows) + rest) == Readable(rows)
  {
    var all := RowLines(rows) + rest;
    if rows == [] {
      assert all == rest;
    } else {
      assert all[0] == HistLine(rows[0]) && all[1..] == RowLines(rows[1..]) + rest;
      RunIsReadable(rows[1..], rest);
    }
  }

  lemma HistOfBlock(b: HistBlock, rest: seq<Line>, k: (int, int))
    ensures Hist(BlockLines(b) + rest, k) == (if (b.ctrl, b.qid) == k then Readable(b.rows) else []) + Hist(rest, k)
  {
    var rows, tail := RowLines(b.rows), [Other] + rest;
    var all := BlockLines(b) + rest;
    assert all[0] == HistKey(b.ctrl, b.qid) && all[1..] == rows + tail;
    RunIsReadable(b.rows, tail);
    RowsKind(b.rows);
    forall i | 0 <= i < |rows| + 1
      ensures (rows + tail)[i] != HistKey(k.0, k.1)
    {
      assert i < |rows| ==> (rows + tail)[i] in rows;
    }
    HistSkips(rows + tail, |rows| + 1, k);
    assert (rows + tail)[|rows| + 1..] == rest;
  }

  /** The readable rows of a queue among the blocks. */
  function RowsFor(blocks: seq<HistBlock>, k: (int, int)): seq<Bucket> {
    if blocks == [] then []
    else (if (blocks[0].ctrl, blocks[0].qid) == k then Readable(blocks[0].rows) else []) + RowsFor(blocks[1..], k)
  }

  lemma {:induction false} HistOfBlocks(blocks: seq<HistBlock>, rest: seq<Line>, k: (int, int))
    ensures Hist(HistLines(blocks) + rest, k) == RowsFor(blocks, k) + Hist(rest, k)
  {
    if blocks == [] {
      assert HistLines(blocks) + rest == rest;
    } else {
      var more := HistLines(blocks[1..]) + rest;
      assert HistLines(blocks) + rest == BlockLines(blocks[0]) + more;
      HistOfBlock(blocks[0], more, k);
      HistOfBlocks(blocks[1..], rest, k);
      Assoc(if (blocks[0].ctrl, blocks[0].qid) == k then Readable(blocks[0].rows) else [], RowsFor(blocks[1..], k), Hist(rest, k));
    }
  }

  predicate NoKey(l: Line) { !l.HistKey? }

  lemma OtherBlocksNoKey(d: Dump, n: MapName)
    requires n != LatHist
    ensures forall l :: l in Block(d, n) ==> NoKey(l)
  {
    match n
    case OpsByProcess => LinesKind(d.procOps, RowOps, NoKey);
    case OpsByThread => LinesKind(d.thrOps, RowThr, NoKey);
    case ProcBs => LinesKind(Entries3(d, n), Row3(n), NoKey);
    case ProcQ => LinesKind(Entries3(d, n), Row3(n), NoKey);
    case ErrCount => LinesKind(Entries3(d, n), Row3(n), NoKey);
    case _ => LinesKind(Entries2(d, n), Row2(n), NoKey);
  }

  lemma HistIgnores(lines: seq<Line>, rest: seq<Line>, k: (int, int))
    requires forall l :: l in lines ==> NoKey(l)
    ensures Hist(lines + rest, k) == Hist(rest, k)
  {
    forall i | 0 <= i < |lines|
      ensures (lines + rest)[i] != HistKey(k.0, k.1)
    {
      assert (lines + rest)[i] in lines;
    }
    HistSkips(lines + rest, |lines|, k);
    assert (lines + rest)[|lines|..] == rest;
  }

  lemma {:induction false} HistOfNames(d: Dump, names: seq<MapName>, k: (int, int))
    requires NoDuplicates(names)
    ensures Hist(Blocks(d, names), k) == if LatHist in names then RowsFor(d.latHist, k) else []
  {
    if names != [] {
      var rest := names[1..];
      assert forall n :: n in names <==> n == names[0] || n in rest;
      HistOfNames(d, rest, k);
      if names[0] == LatHist {
        HistOfBlocks(d.latHist, Blocks(d, rest), k);
        assert RowsFor(d.latHist, k) + [] == RowsFor(d.latHist, k);
      } else {
        OtherBlocksNoKey(d, names[0]);
        HistIgnores(Block(d, names[0]), Blocks(d, rest), k);
      }
    }
  }

  lemma PrintedOnce()
    ensures NoDuplicates(PRINT_ORDER)
  {
    var o := PRINT_ORDER;
    forall i, j | 0 <= i < j < |o|
      ensures o[i] != o[j]
    {
      assert Position(o[i]) == i && Position(o[j]) == j;
    }
  }

  function Position(n: MapName): nat {
    match n
    case OpCount => 0
    case ReadCount => 1
    case WriteCount => 2
    case BytesSum => 3
    case LatSum => 4
    case LatCount => 5
    case LatHist => 6
    case ErrCount => 7
    case OpsByProcess => 8
    case ProcBytes => 9
    case ProcRd => 10
    case ProcWr => 11
    case ProcBs => 12
    case ProcQ => 13
    case ProcLatSum => 14
    case ProcLatCnt => 15
    case ProcSeq => 16
    case ProcRand => 17
    case OpsByThread => 18
  }

  lemma {:induction false} RowsForBlock(blocks: seq<HistBlock>, i: nat)
    requires i < |blocks|
    requires forall a, b :: 0 <= a < b < |blocks| ==> (blocks[a].ctrl, blocks[a].qid) != (blocks[b].ctrl, blocks[b].qid)
    ensures RowsFor(blocks, (blocks[i].ctrl, blocks[i].qid)) == Readable(blocks[i].rows)
  {
    var k := (blocks[i].ctrl, blocks[i].qid);
    if i == 0 {
      NoRowsFor(blocks[1..], k);
    } else {
      assert (blocks[0].ctrl, blocks[0].qid) != k;
      RowsForBlock(blocks[1..], i - 1);
    }
  }

  lemma {:induction false} NoRowsFor(blocks: seq<HistBlock>, k: (int, int))
    requires forall b :: b in blocks ==> (b.ctrl, b.qid) != k
    ensures RowsFor(blocks, k) == []
  {
    if blocks != [] {
      NoRowsFor(blocks[1..], k);
    }
  }

  // ---- the latencies behind a histogram ----

  /** The latencies of a queue since the last tick, in order. */
  function LatenciesOf(h: Run, k: (int, int)): seq<nat> { Waits(h, k.0, k.1) }

  lemma {:induction false} CountAppend(xs: seq<nat>, x: nat, p: nat -> bool)
    ensures CountIf(xs + [x], p) == CountIf(xs, p) + if p(x) then 1 else 0
  {
    if xs != [] {
      assert (xs + [x])[0] == xs[0] && (xs + [x])[1..] == xs[1..] + [x];
      CountAppend(xs[1..], x, p);
    }
  }

  function InRow(r: nat): nat -> bool { (x: nat) => HistRow(x) == r }

  /** Each row of the histogram map counts the latencies that fall in it. */
  lemma {:induction false} RowCounts(h: Run, k: (int, int), r: nat)
    ensures Get(InTick(h, LatHistOf), (k.0, k.1, r)) == CountIf(LatenciesOf(h, k), InRow(r))
    ensures (k.0, k.1, r) in InTick(h, LatHistOf) ==> Get(InTick(h, LatHistOf), (k.0, k.1, r)) > 0
  {
    if h.Next? && !h.event.Tick? {
      RowCounts(h.before, k, r);
      if h.event.Complete? {
        FinishedIs(h.before, h.event);
        var c := Finished(h.before, h.event);
        if c.Some? && (h.event.done.ctrl, h.event.done.qid) == k {
          CountAppend(LatenciesOf(h.before, k), Latency(c.value, h.event), InRow(r));
        }
      }
    }
  }

  lemma {:induction false} SomeInRow(xs: seq<nat>, p: nat -> bool) returns (x: nat)
    requires CountIf(xs, p) > 0
    ensures x in xs && p(x)
  {
    if p(xs[0]) {
      x := xs[0];
    } else {
      x := SomeInRow(xs[1..], p);
    }
  }

  lemma {:induction false} CountsMember(xs: seq<nat>, p: nat -> bool, x: nat)
    requires x in xs && p(x)
    ensures CountIf(xs, p) > 0
  {
    if xs[0] != x {
      CountsMember(xs[1..], p, x);
    }
  }

  // ---- rows are power-of-two intervals ----

  lemma {:induction false} RowBounds(x: nat)
    requires x > 0
    ensures HistRow(x) > 0 && Power(HistRow(x) - 1) <= x < Power(HistRow(x))
  {
    if x > 1 {
      RowBounds(x / 2);
    }
  }

  lemma {:induction false} PowerMonotone(a: nat, b: nat)
    requires a <= b
    ensures 0 < Power(a) <= Power(b) && (a < b ==> Power(a) < Power(b))
    decreases b
  {
    if a < b {
      PowerMonotone(a, b - 1);
    } else if a > 0 {
      PowerMonotone(a - 1, a - 1);
    }
  }

  lemma {:induction false} PowerIsPower(n: nat)
    ensures IsPowerOfTwo(Power(n))
  {
    if n > 0 {
      PowerIsPower(n - 1);
    }
  }

  lemma RowIsEdge(x: nat, r: nat)
    requires r >= 1
    ensures HistRow(x) == r <==> Power(r - 1) <= x < Power(r)
  {
    PowerMonotone(0, r - 1);
    if x > 0 {
      RowBounds(x);
      if HistRow(x) < r {
        PowerMonotone(HistRow(x), r - 1);
      } else if HistRow(x) > r {
        PowerMonotone(r, HistRow(x) - 1);
      }
    }
  }

  // ---- recovery ----

  /** How many of `n` rows from `lo` on are read. */
  function ReadCount(lo: nat, n: nat): nat {
    if lo >= WIDE_ROW then 0 else if n <= WIDE_ROW - lo then n else WIDE_ROW - lo
  }

  /** Rows one after the other are read up to the first wide one. */
  lemma {:induction false} ReadableRows(rows: seq<(nat, nat)>, lo: nat)
    requires lo >= 2 && forall i :: 0 <= i < |rows| ==> rows[i].0 == lo + i
    ensures |Readable(rows)| == ReadCount(lo, |rows|)
    ensures forall i :: 0 <= i < |Readable(rows)| ==> Readable(rows)[i] == BucketOf(rows[i])
  {
    if rows != [] {
      assert rows[0].0 == lo;
      ReadableRows(rows[1..], lo + 1);
    }
  }

  lemma Twice(x: nat, y: nat)
    ensures 2 * (x * y) == 2 * x * y
  {
  }

  lemma {:induction false} PowerSum(a: nat, b: nat)
    ensures Power(a + b) == Power(a) * Power(b)
  {
    if a > 0 {
      PowerSum(a - 1, b);
      Twice(Power(a - 1), Power(b));
    }
  }

  /** About nine minutes, in nanoseconds. */
  lemma ShortMeans(x: nat)
    ensures HistRow(x) < WIDE_ROW <==> x < 0x80_0000_0000
  {
    assert Power(3) == 8 && Power(6) == 64;
    PowerSum(6, 6);
    PowerSum(12, 12);
    PowerSum(24, 12);
    PowerSum(36, 3);
    if x > 0 {
      RowBounds(x);
      if HistRow(x) < WIDE_ROW {
        PowerMonotone(HistRow(x), WIDE_ROW - 1);
      } else {
        PowerMonotone(WIDE_ROW - 1, HistRow(x) - 1);
      }
    }
  }

  /** The latencies whose row can be read, those below two to the thirty-ninth nanoseconds. */
  function Short(xs: seq<nat>): seq<nat> {
    if xs == [] then [] else (if xs[0] < 0x80_0000_0000 then [xs[0]] else []) + Short(xs[1..])
  }

  lemma {:induction false} InShort(xs: seq<nat>, x: nat)
    ensures x in Short(xs) <==> x in xs && HistRow(x) < WIDE_ROW
  {
    if xs != [] {
      ShortMeans(xs[0]);
      InShort(xs[1..], x);
      assert x in xs <==> x == xs[0] || x in xs[1..];
    }
  }

  lemma {:induction false} CountShort(xs: seq<nat>, p: nat -> bool)
    requires forall x :: p(x) ==> HistRow(x) < WIDE_ROW
    ensures CountIf(Short(xs), p) == CountIf(xs, p)
  {
    if xs != [] {
      ShortMeans(xs[0]);
      CountShort(xs[1..], p);
      var rest := Short(xs[1..]);
      assert ([xs[0]] + rest)[1..] == rest && [] + rest == rest;
    }
  }

  /** The bucket of a row as an edge. */
  function RowEdge(r: nat): Edge
    requires r >= 1
  {
    Edge(Power(r - 1), Power(r))
  }

  /** The buckets of consecutive rows from `lo` on. */
  ghost predicate RowBuckets(bs: seq<Bucket>, lo: nat, xs: seq<nat>)
    requires lo >= 1
  {
    forall i :: 0 <= i < |bs| ==> bs[i] == (RowEdge(lo + i), CountIn(xs, RowEdge(lo + i)))
  }

  lemma RowBucketOf(bs: seq<Bucket>, lo: nat, xs: seq<nat>, x: nat)
    requires lo >= 1 && RowBuckets(bs, lo, xs) && lo <= HistRow(x) < lo + |bs|
    ensures exists c :: c in bs && Inside(x, c.0)
  {
    var c := bs[HistRow(x) - lo];
    RowIsEdge(x, HistRow(x));
    assert c in bs && Inside(x, c.0);
  }

  lemma RowEdgesDiffer(r: nat, t: nat)
    requires 1 <= r < t
    ensures RowEdge(r) != RowEdge(t) && PowerEdge(RowEdge(r))
  {
    PowerMonotone(r, t);
    PowerIsPower(r - 1);
  }

  lemma RowBucketsRepresent(bs: seq<Bucket>, lo: nat, xs: seq<nat>)
    requires lo >= 1 && RowBuckets(bs, lo, xs) && forall x :: x in xs ==> lo <= HistRow(x) < lo + |bs|
    ensures Represents(bs, xs)
  {
    forall i | 0 <= i < |bs|
      ensures PowerEdge(bs[i].0)
    {
      RowEdgesDiffer(lo + i, lo + i + 1);
    }
    forall i, j | 0 <= i < j < |bs|
      ensures bs[i].0 != bs[j].0
    {
      RowEdgesDiffer(lo + i, lo + j);
    }
    forall x | x in xs
      ensures exists c :: c in bs && Inside(x, c.0)
    {
      RowBucketOf(bs, lo, xs, x);
    }
  }

  /** Rows that count samples, wide rows left out, are read as their histogram. */
  lemma RowsRepresent(rows: seq<(nat, nat)>, lo: nat, xs: seq<nat>)
    requires lo >= 2 && forall i :: 0 <= i < |rows| ==> rows[i].0 == lo + i
    requires forall i :: 0 <= i < |rows| && rows[i].0 < WIDE_ROW ==> rows[i].1 == CountIn(xs, RowEdge(rows[i].0))
    requires forall x :: x in xs ==> lo <= HistRow(x) < lo + |rows| && HistRow(x) < WIDE_ROW
    ensures Represents(Readable(rows), xs)
  {
    RowsAreBuckets(rows, lo, xs);
    RowBucketsRepresent(Readable(rows), lo, xs);
  }

  lemma RowsAreBuckets(rows: seq<(nat, nat)>, lo: nat, xs: seq<nat>)
    requires lo >= 2 && forall i :: 0 <= i < |rows| ==> rows[i].0 == lo + i
    requires forall i :: 0 <= i < |rows| && rows[i].0 < WIDE_ROW ==> rows[i].1 == CountIn(xs, RowEdge(rows[i].0))
    ensures RowBuckets(Readable(rows), lo, xs) && |Readable(rows)| == ReadCount(lo, |rows|)
  {
    ReadableRows(rows, lo);
    forall i | 0 <= i < |Readable(rows)|
      ensures Readable(rows)[i] == (RowEdge(lo + i), CountIn(xs, RowEdge(lo + i)))
    {
      RowIsBucket(rows[i], lo + i, xs);
    }
  }

  lemma RowIsBucket(row: (nat, nat), r: nat, xs: seq<nat>)
    requires r == row.0 >= 2 && row.1 == CountIn(xs, RowEdge(r))
    ensures BucketOf(row) == (RowEdge(r), CountIn(xs, RowEdge(r)))
  {
  }

  /** A block that starts at row 2 or later is read as the histogram of the short latencies. */
  lemma BlockRepresents(h: Run, b: HistBlock)
    requires BlockOf(b, InTick(h, LatHistOf)) && b.rows[0].0 >= 2
    ensures Represents(Readable(b.rows), Short(LatenciesOf(h, (b.ctrl, b.qid))))
  {
    var k, lo := (b.ctrl, b.qid), b.rows[0].0;
    var xs := LatenciesOf(h, k);
    forall i | 0 <= i < |b.rows| && b.rows[i].0 < WIDE_ROW
      ensures b.rows[i].1 == CountIn(Short(xs), RowEdge(b.rows[i].0))
    {
      RowHolds(h, k, b.rows[i].0);
    }
    forall x | x in Short(xs)
      ensures lo <= HistRow(x) < lo + |b.rows| && HistRow(x) < WIDE_ROW
    {
      InShort(xs, x);
      RowOfSample(h, b, x);
    }
    RowsRepresent(b.rows, lo, Short(xs));
  }

  lemma RowOfSample(h: Run, b: HistBlock, x: nat)
    requires BlockOf(b, InTick(h, LatHistOf)) && b.rows[0].0 >= 2 && x in LatenciesOf(h, (b.ctrl, b.qid))
    ensures b.rows[0].0 <= HistRow(x) < b.rows[0].0 + |b.rows|
  {
    var k, r := (b.ctrl, b.qid), HistRow(x);
    RowCounts(h, k, r);
    CountsMember(LatenciesOf(h, k), InRow(r), x);
    assert (k.0, k.1, r) in InTick(h, LatHistOf);
  }

  lemma RowHolds(h: Run, k: (int, int), r: nat)
    requires 2 <= r < WIDE_ROW
    ensures Get(InTick(h, LatHistOf), (k.0, k.1, r)) == CountIn(Short(LatenciesOf(h, k)), RowEdge(r))
  {
    var xs, e := LatenciesOf(h, k), RowEdge(r);
    RowCounts(h, k, r);
    CountShort(xs, InRow(r));
    forall x | x in Short(xs)
      ensures InRow(r)(x) == Inside(x, e)
    {
      RowIsEdge(x, r);
    }
    CountAgree(Short(xs), InRow(r), (x: nat) => Inside(x, e));
  }

  /** A block starts below row 2 exactly when a latency was below two nanoseconds. */
  lemma StartsLow(h: Run, b: HistBlock)
    requires BlockOf(b, InTick(h, LatHistOf))
    ensures b.rows[0].0 < 2 <==> exists x :: x in LatenciesOf(h, (b.ctrl, b.qid)) && x < 2
  {
    var k, hist := (b.ctrl, b.qid), InTick(h, LatHistOf);
    var xs, r := LatenciesOf(h, k), b.rows[0].0;
    RowCounts(h, k, r);
    var y := SomeInRow(xs, InRow(r));
    if r < 2 {
      if y >= 2 {
        RowBounds(y / 2);
        assert false;
      }
      assert y in xs && y < 2;
    }
    if x :| x in xs && x < 2 {
      RowCounts(h, k, HistRow(x));
      CountsMember(xs, InRow(HistRow(x)), x);
      assert HistRow(x) < 2;
      assert (k.0, k.1, HistRow(x)) in hist;
    }
  }

  /** What the reader gets for a queue: the exact log2 histogram of its latencies below two to
      the thirty-ninth, unless one of them was below two nanoseconds; then nothing at all. */
  lemma HistRecovered(h: Run, d: Dump, k: (int, int))
    requires IsDump(d, h)
    ensures var xs, got := LatenciesOf(h, k), Hist(Open(h) + Render(d), k);
            if exists x :: x in xs && x < 2 then got == [] else Represents(got, Short(xs))
  {
    var xs := LatenciesOf(h, k);
    OpenHasEventsOnly(h);
    HistIgnores(Open(h), Render(d), k);
    PrintedOnce();
    EveryMapPrinted(LatHist);
    HistOfNames(d, PRINT_ORDER, k);
    HistOfQueue(h, d.latHist, k);
  }

  lemma HistOfQueue(h: Run, blocks: seq<HistBlock>, k: (int, int))
    requires ListsHist(blocks, InTick(h, LatHistOf))
    ensures var xs, got := LatenciesOf(h, k), RowsFor(blocks, k);
            if exists x :: x in xs && x < 2 then got == [] else Represents(got, Short(xs))
  {
    var xs := LatenciesOf(h, k);
    if i :| 0 <= i < |blocks| && (blocks[i].ctrl, blocks[i].qid) == k {
      var b := blocks[i];
      assert b in blocks;
      RowsForBlock(blocks, i);
      StartsLow(h, b);
      if b.rows[0].0 >= 2 {
        BlockRepresents(h, b);
      }
    } else {
      assert forall b :: b in blocks ==> (b.ctrl, b.qid) != k;
      NoRowsFor(blocks, k);
      if xs != [] {
        var x := xs[0];
        CountsMember(xs, InRow(HistRow(x)), x);
        RowCounts(h, k, HistRow(x));
        assert false;
      }
    }
  }
}
