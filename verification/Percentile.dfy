/** Latency percentiles from power-of-two histograms
    (src/telemetryd/backend/ebpf_perf.py): the percentile of a bucket list, and how far the
    answer is from the true quantile. */
module Percentile {
  import opened Tables

  /** A bucket line `[lo, hi)` and its count. */
  datatype Edge = Edge(lo: nat, hi: nat)
  type Bucket = (Edge, nat)

  // ---- cumulative counts ----

  function UpTo(bs: seq<Bucket>, t: nat): nat { SumEntries(bs, (e: Edge) => e.lo <= t) }

  function Samples(bs: seq<Bucket>): nat { SumEntries(bs, (e: Edge) => true) }

  lemma {:induction false} UpToBounded(bs: seq<Bucket>, t: nat)
    ensures UpTo(bs, t) <= Samples(bs)
  {
    if bs != [] {
      UpToBounded(bs[1..], t);
    }
  }

  lemma {:induction false} UpToMonotone(bs: seq<Bucket>, t: nat, u: nat)
    requires t <= u
    ensures UpTo(bs, t) <= UpTo(bs, u)
  {
    if bs != [] {
      UpToMonotone(bs[1..], t, u);
    }
  }

  lemma {:induction false} UpToAll(bs: seq<Bucket>, t: nat)
    requires forall b :: b in bs ==> b.0.lo <= t
    ensures UpTo(bs, t) == Samples(bs)
  {
    if bs != [] {
      UpToAll(bs[1..], t);
    }
  }

  lemma {:induction false} UpToNone(bs: seq<Bucket>, t: nat)
    requires forall b :: b in bs ==> b.0.lo > t
    ensures UpTo(bs, t) == 0
  {
    if bs != [] {
      UpToNone(bs[1..], t);
    }
  }

  // ---- sorting by lower edge ----

  predicate Ordered(bs: seq<Bucket>) {
    forall i, j :: 0 <= i < j < |bs| ==> bs[i].0.lo <= bs[j].0.lo
  }

  function Insert(b: Bucket, bs: seq<Bucket>): (r: seq<Bucket>)
    ensures |r| == |bs| + 1
  {
    if bs == [] || b.0.lo <= bs[0].0.lo then [b] + bs else [bs[0]] + Insert(b, bs[1..])
  }

  /** `sorted(buckets, key=lambda b: b[0])`, stable as Python's sort is. */
  function SortByLo(bs: seq<Bucket>): (r: seq<Bucket>)
    ensures |r| == |bs|
  {
    if bs == [] then [] else Insert(bs[0], SortByLo(bs[1..]))
  }

  lemma {:induction false} InsertSorts(b: Bucket, bs: seq<Bucket>)
    requires Ordered(bs)
    ensures Ordered(Insert(b, bs))
    ensures forall x :: x in Insert(b, bs) <==> x == b || x in bs
  {
    if bs == [] {
      assert Insert(b, bs) == [b];
    } else if b.0.lo <= bs[0].0.lo {
      InFront(b, bs);
    } else {
      InsertSorts(b, bs[1..]);
      assert bs == [bs[0]] + bs[1..];
      InFront(bs[0], Insert(b, bs[1..]));
    }
  }

  /** A bucket not above the others may stand before them. */
  lemma InFront(b: Bucket, bs: seq<Bucket>)
    requires Ordered(bs) && forall x :: x in bs ==> b.0.lo <= x.0.lo
    ensures Ordered([b] + bs)
  {
    forall i, j | 0 <= i < j < |[b] + bs|
      ensures ([b] + bs)[i].0.lo <= ([b] + bs)[j].0.lo
    {
      assert bs[j - 1] in bs;
    }
  }

  lemma {:induction false} SortSorts(bs: seq<Bucket>)
    ensures Ordered(SortByLo(bs))
    ensures forall x :: x in SortByLo(bs) <==> x in bs
  {
    if bs != [] {
      assert bs == [bs[0]] + bs[1..];
      SortSorts(bs[1..]);
      InsertSorts(bs[0], SortByLo(bs[1..]));
    }
  }

  lemma {:induction false} InsertSum(b: Bucket, bs: seq<Bucket>, keep: Edge -> bool)
    ensures SumEntries(Insert(b, bs), keep) == SumEntries([b], keep) + SumEntries(bs, keep)
  {
    if bs == [] || b.0.lo <= bs[0].0.lo {
      SumEntriesAppend([b], bs, keep);
    } else {
      InsertSum(b, bs[1..], keep);
      var rest := Insert(b, bs[1..]);
      assert Insert(b, bs)[1..] == rest;
    }
  }

  lemma {:induction false} SortSum(bs: seq<Bucket>, keep: Edge -> bool)
    ensures SumEntries(SortByLo(bs), keep) == SumEntries(bs, keep)
  {
    if bs != [] {
      SortSum(bs[1..], keep);
      InsertSum(bs[0], SortByLo(bs[1..]), keep);
    }
  }

  // ---- the percentile ----

  /** `v` is the upper edge of the lowest bucket at which the cumulative count reaches
      `target`. The order of the list does not enter. */
  ghost predicate FirstAt(bs: seq<Bucket>, target: real, v: nat) {
    exists b :: b in bs && First(bs, target, v, b)
  }

  ghost predicate First(bs: seq<Bucket>, target: real, v: nat, b: Bucket) {
    && v == b.0.hi
    && UpTo(bs, b.0.lo) as real >= target
    && forall c :: c in bs && c.0.lo < b.0.lo ==> UpTo(bs, c.0.lo) as real < target
  }

  ghost predicate IsPercentile(bs: seq<Bucket>, p: real, v: nat) {
    FirstAt(bs, Target(p, Samples(bs)), v)
  }

  /** `_percentile_ns`; the line after the loop is reached only for `p > 1`. */
  method PercentileNs(bs: seq<Bucket>, p: real) returns (v: nat)
    ensures Samples(bs) == 0 ==> v == 0
    ensures Samples(bs) > 0 && p <= 1.0 ==> IsPercentile(bs, p, v)
    ensures Samples(bs) > 0 && p > 1.0 ==>
              IsPercentile(bs, p, v) || (|bs| > 0 && v == SortByLo(bs)[|bs| - 1].0.hi)
  {
    var total := Samples(bs);
    if total == 0 {
      return 0;
    }
    var target := Target(p, total);
    ShareOfTotal(p, total);
    v := Scan(bs, target);
  }

  function Target(p: real, total: nat): real { p * total as real }

  lemma ShareOfTotal(p: real, total: nat)
    ensures p <= 1.0 ==> Target(p, total) <= total as real
  {
  }

  method Scan(bs: seq<Bucket>, target: real) returns (v: nat)
    requires Samples(bs) > 0
    ensures target <= Samples(bs) as real ==> FirstAt(bs, target, v)
    ensures FirstAt(bs, target, v) || (|bs| > 0 && v == SortByLo(bs)[|bs| - 1].0.hi)
  {
    var cum := 0;
    var s := SortByLo(bs);
    SortSum(bs, (e: Edge) => true);
    var i := 0;
    while i < |s|
      invariant 0 <= i <= |s|
      invariant cum == Samples(s[..i])
      invariant i > 0 ==> cum as real < target
    {
      assert s[..i + 1] == s[..i] + [s[i]];
      SumEntriesAppend(s[..i], [s[i]], (e: Edge) => true);
      cum := cum + s[i].1;
      if cum as real >= target {
        FirstReached(bs, target, s, i);
        return s[i].0.hi;
      }
      i := i + 1;
    }
    assert s[..|s|] == s;
    return s[|s| - 1].0.hi;
  }

  lemma FirstReached(bs: seq<Bucket>, target: real, s: seq<Bucket>, i: nat)
    requires s == SortByLo(bs) && i < |s|
    requires Samples(s[..i + 1]) as real >= target
    requires i > 0 ==> Samples(s[..i]) as real < target
    ensures FirstAt(bs, target, s[i].0.hi)
  {
    SortSorts(bs);
    var b := s[i];
    SplitAt(s, i + 1, b.0.lo);
    SortSum(bs, (e: Edge) => e.lo <= b.0.lo);
    UpToAll(s[..i + 1], b.0.lo);
    forall c | c in bs && c.0.lo < b.0.lo
      ensures UpTo(bs, c.0.lo) as real < target
    {
      assert c in s;
      SplitAt(s, i, c.0.lo);
      SortSum(bs, (e: Edge) => e.lo <= c.0.lo);
      UpToNone(s[i..], c.0.lo);
      UpToBounded(s[..i], c.0.lo);
    }
    assert b in bs && First(bs, target, b.0.hi, b);
  }

  lemma SplitAt(s: seq<Bucket>, i: nat, t: nat)
    requires i <= |s|
    ensures UpTo(s, t) == UpTo(s[..i], t) + UpTo(s[i..], t)
  {
    assert s == s[..i] + s[i..];
    SumEntriesAppend(s[..i], s[i..], (e: Edge) => e.lo <= t);
  }

  // ---- power-of-two histograms of a sample ----

  predicate IsPowerOfTwo(n: nat) {
    n == 1 || (n > 1 && n % 2 == 0 && IsPowerOfTwo(n / 2))
  }

  /** Two different powers of two are a factor of two apart. */
  lemma {:induction false} PowersApart(a: nat, b: nat)
    requires IsPowerOfTwo(a) && IsPowerOfTwo(b) && a < b
    ensures 2 * a <= b
  {
    if a != 1 {
      PowersApart(a / 2, b / 2);
    }
  }

  predicate PowerEdge(e: Edge) {
    IsPowerOfTwo(e.lo) && e.hi == 2 * e.lo
  }

  predicate Inside(x: nat, e: Edge) {
    e.lo <= x < e.hi
  }

  ghost function CountIf(xs: seq<nat>, p: nat -> bool): nat {
    if xs == [] then 0 else (if p(xs[0]) then 1 else 0) + CountIf(xs[1..], p)
  }

  ghost function CountIn(xs: seq<nat>, e: Edge): nat { CountIf(xs, (x: nat) => Inside(x, e)) }

  /** The buckets are the log2 histogram of the samples: right counts, no bucket twice,
      every sample in a bucket. Empty buckets and any order are allowed. */
  ghost predicate Represents(bs: seq<Bucket>, xs: seq<nat>) {
    && (forall b :: b in bs ==> PowerEdge(b.0) && b.1 == CountIn(xs, b.0))
    && (forall i, j :: 0 <= i < j < |bs| ==> bs[i].0 != bs[j].0)
    && (forall x :: x in xs ==> exists b :: b in bs && Inside(x, b.0))
  }

  lemma {:induction false} CountAgree(xs: seq<nat>, p: nat -> bool, q: nat -> bool)
    requires forall x :: x in xs ==> (p(x) ==> q(x))
    ensures CountIf(xs, p) <= CountIf(xs, q)
    ensures (forall x :: x in xs ==> p(x) == q(x)) ==> CountIf(xs, p) == CountIf(xs, q)
  {
    if xs != [] {
      CountAgree(xs[1..], p, q);
    }
  }

  lemma {:induction false} CountDisjoint(xs: seq<nat>, p: nat -> bool, q: nat -> bool, r: nat -> bool)
    requires forall x :: x in xs ==> !(p(x) && q(x)) && (r(x) <==> p(x) || q(x))
    ensures CountIf(xs, r) == CountIf(xs, p) + CountIf(xs, q)
  {
    if xs != [] {
      CountDisjoint(xs[1..], p, q, r);
    }
  }

  lemma {:induction false} CountEverything(xs: seq<nat>, p: nat -> bool)
    requires forall x :: x in xs ==> p(x)
    ensures CountIf(xs, p) == |xs|
  {
    if xs != [] {
      CountEverything(xs[1..], p);
    }
  }

  lemma {:induction false} CountNothing(xs: seq<nat>, p: nat -> bool)
    requires forall x :: x in xs ==> !p(x)
    ensures CountIf(xs, p) == 0
  {
    if xs != [] {
      CountNothing(xs[1..], p);
    }
  }

  ghost predicate Covered(bs: seq<Bucket>, keep: Edge -> bool, x: nat) {
    exists b :: b in bs && keep(b.0) && Inside(x, b.0)
  }

  lemma DisjointEdges(e: Edge, f: Edge, x: nat)
    requires PowerEdge(e) && PowerEdge(f) && Inside(x, e) && Inside(x, f)
    ensures e == f
  {
    if e.lo < f.lo {
      PowersApart(e.lo, f.lo);
    } else if f.lo < e.lo {
      PowersApart(f.lo, e.lo);
    }
  }

  /** Adding up buckets counts the samples they cover. */
  lemma {:induction false} SumIsCount(bs: seq<Bucket>, xs: seq<nat>, keep: Edge -> bool)
    requires forall b :: b in bs ==> PowerEdge(b.0) && b.1 == CountIn(xs, b.0)
    requires forall i, j :: 0 <= i < j < |bs| ==> bs[i].0 != bs[j].0
    ensures SumEntries(bs, keep) == CountIf(xs, (x: nat) => Covered(bs, keep, x))
  {
    if bs == [] {
      CountNothing(xs, (x: nat) => Covered(bs, keep, x));
    } else {
      var b, rest := bs[0], bs[1..];
      assert b in bs && forall c :: c in bs <==> c == b || c in rest;
      SumIsCount(rest, xs, keep);
      var first := (x: nat) => keep(b.0) && Inside(x, b.0);
      forall x: nat | first(x)
        ensures !Covered(rest, keep, x)
      {
        forall c | c in rest && Inside(x, c.0)
          ensures false
        {
          DisjointEdges(b.0, c.0, x);
        }
      }
      CountDisjoint(xs, first, (x: nat) => Covered(rest, keep, x), (x: nat) => Covered(bs, keep, x));
      if keep(b.0) {
        CountAgree(xs, first, (x: nat) => Inside(x, b.0));
      } else {
        CountNothing(xs, first);
      }
    }
  }

  /** The cumulative count at a bucket is the number of samples below its upper edge. */
  lemma CumulativeIsBelow(bs: seq<Bucket>, xs: seq<nat>, b: Bucket)
    requires Represents(bs, xs) && b in bs
    ensures UpTo(bs, b.0.lo) == CountIf(xs, (x: nat) => x < b.0.hi)
  {
    var keep := (e: Edge) => e.lo <= b.0.lo;
    SumIsCount(bs, xs, keep);
    forall x | x in xs
      ensures Covered(bs, keep, x) <==> x < b.0.hi
    {
      var c :| c in bs && Inside(x, c.0);
      if c.0.lo < b.0.lo {
        PowersApart(c.0.lo, b.0.lo);
      } else if b.0.lo < c.0.lo {
        PowersApart(b.0.lo, c.0.lo);
        forall d | d in bs && Inside(x, d.0)
          ensures d == c || !keep(d.0)
        {
          DisjointEdges(c.0, d.0, x);
        }
      }
    }
    CountAgree(xs, (x: nat) => Covered(bs, keep, x), (x: nat) => x < b.0.hi);
  }

  lemma SamplesAreAll(bs: seq<Bucket>, xs: seq<nat>)
    requires Represents(bs, xs)
    ensures Samples(bs) == |xs|
  {
    var keep := (e: Edge) => true;
    SumIsCount(bs, xs, keep);
    CountEverything(xs, (x: nat) => Covered(bs, keep, x));
  }

  // ---- accuracy ----

  /** How many samples are at or below `q`. */
  ghost function Rank(xs: seq<nat>, q: nat): nat { CountIf(xs, (x: nat) => x <= q) }

  /** The exact p-quantile: the smallest sample with at least a share `p` at or below it. */
  ghost predicate IsQuantile(xs: seq<nat>, p: real, q: nat) {
    && q in xs
    && Rank(xs, q) as real >= p * |xs| as real
    && forall y :: y in xs && Rank(xs, y) as real >= p * |xs| as real ==> q <= y
  }

  lemma {:induction false} LargestBelow(xs: seq<nat>, t: nat) returns (y: nat)
    requires CountIf(xs, (x: nat) => x < t) > 0
    ensures y in xs && y < t && forall x :: x in xs && x < t ==> x <= y
  {
    assert xs == [xs[0]] + xs[1..];
    if xs[0] >= t {
      y := LargestBelow(xs[1..], t);
    } else if CountIf(xs[1..], (x: nat) => x < t) == 0 {
      y := xs[0];
      forall x | x in xs[1..]
        ensures x >= t
      {
        NoneBelow(xs[1..], t, x);
      }
    } else {
      y := LargestBelow(xs[1..], t);
      y := if y < xs[0] then xs[0] else y;
    }
  }

  lemma {:induction false} NoneBelow(xs: seq<nat>, t: nat, x: nat)
    requires CountIf(xs, (x: nat) => x < t) == 0 && x in xs
    ensures x >= t
  {
    if x != xs[0] {
      NoneBelow(xs[1..], t, x);
    }
  }

  /** The same for an absolute number of samples instead of a share. */
  ghost predicate QuantileAt(xs: seq<nat>, target: real, q: nat) {
    && q in xs
    && Rank(xs, q) as real >= target
    && forall y :: y in xs && Rank(xs, y) as real >= target ==> q <= y
  }

  /** A bucket that reaches the target reaches it at some sample below its upper edge. */
  lemma SampleBelow(xs: seq<nat>, target: real, t: nat) returns (y: nat)
    requires target > 0.0 && CountIf(xs, (x: nat) => x < t) as real >= target
    ensures y in xs && y < t && Rank(xs, y) as real >= target
  {
    y := LargestBelow(xs, t);
    CountAgree(xs, (x: nat) => x < t, (x: nat) => x <= y);
  }

  /** Every sample that reaches the target lies in a bucket that reaches it. */
  lemma BucketOf(bs: seq<Bucket>, xs: seq<nat>, target: real, y: nat) returns (b: Bucket)
    requires Represents(bs, xs) && y in xs && Rank(xs, y) as real >= target
    ensures b in bs && Inside(y, b.0) && UpTo(bs, b.0.lo) as real >= target
  {
    b :| b in bs && Inside(y, b.0);
    CumulativeIsBelow(bs, xs, b);
    CountAgree(xs, (x: nat) => x <= y, (x: nat) => x < b.0.hi);
  }

  lemma QuantileBracket(bs: seq<Bucket>, xs: seq<nat>, target: real, v: nat, q: nat)
    requires Represents(bs, xs) && target > 0.0
    requires FirstAt(bs, target, v) && QuantileAt(xs, target, q)
    ensures q < v <= 2 * q
  {
    var b :| b in bs && First(bs, target, v, b);
    CumulativeIsBelow(bs, xs, b);
    var y := SampleBelow(xs, target, v);
    var c := BucketOf(bs, xs, target, q);
    assert b.0.lo <= c.0.lo <= q <= y < v;
  }

  /** The reported percentile is above the true quantile and at most twice as large. */
  lemma WithinFactorTwo(bs: seq<Bucket>, xs: seq<nat>, p: real, v: nat, q: nat)
    requires Represents(bs, xs) && 0.0 < p <= 1.0
    requires IsPercentile(bs, p, v) && IsQuantile(xs, p, q)
    ensures q < v <= 2 * q
  {
    SamplesAreAll(bs, xs);
    PositiveTarget(p, |xs|);
    QuantileBracket(bs, xs, Target(p, |xs|), v, q);
  }

  lemma PositiveTarget(p: real, n: nat)
    requires p > 0.0 && n > 0
    ensures Target(p, n) > 0.0
  {
  }

  /** Larger shares never give smaller answers. */
  lemma MonotoneInShare(bs: seq<Bucket>, p: real, larger: real, v: nat, w: nat)
    requires forall b :: b in bs ==> PowerEdge(b.0)
    requires p <= larger && IsPercentile(bs, p, v) && IsPercentile(bs, larger, w)
    ensures v <= w
  {
    TargetMonotone(p, larger, Samples(bs));
    var b :| b in bs && First(bs, Target(p, Samples(bs)), v, b);
    var c :| c in bs && First(bs, Target(larger, Samples(bs)), w, c);
    assert !(c.0.lo < b.0.lo);
  }

  lemma TargetMonotone(p: real, larger: real, n: nat)
    requires p <= larger
    ensures Target(p, n) <= Target(larger, n)
  {
  }

  /** Any two histograms of the same samples give the same percentile, whatever the order
      of their buckets and however many empty buckets they list. */
  lemma OrderIndependent(bs: seq<Bucket>, cs: seq<Bucket>, xs: seq<nat>, p: real, v: nat, w: nat)
    requires Represents(bs, xs) && Represents(cs, xs) && 0.0 < p <= 1.0 && xs != []
    requires IsPercentile(bs, p, v) && IsPercentile(cs, p, w)
    ensures v == w
  {
    SamplesAreAll(bs, xs);
    SamplesAreAll(cs, xs);
    PositiveTarget(p, |xs|);
    NotAbove(bs, cs, xs, Target(p, |xs|), v, w);
    NotAbove(cs, bs, xs, Target(p, |xs|), w, v);
  }

  lemma NotAbove(bs: seq<Bucket>, cs: seq<Bucket>, xs: seq<nat>, target: real, v: nat, w: nat)
    requires Represents(bs, xs) && Represents(cs, xs) && target > 0.0
    requires FirstAt(bs, target, v) && FirstAt(cs, target, w)
    ensures v <= w
  {
    var b :| b in bs && First(bs, target, v, b);
    var c :| c in cs && First(cs, target, w, c);
    CumulativeIsBelow(cs, xs, c);
    var y := SampleBelow(xs, target, w);
    var d := BucketOf(bs, xs, target, y);
    assert b.0.lo <= d.0.lo <= y < w;
    if c.0.lo < b.0.lo {
      PowersApart(c.0.lo, b.0.lo);
    }
  }

  // ---- the quantile is there ----

  lemma {:induction false} Largest(xs: seq<nat>) returns (y: nat)
    requires xs != []
    ensures y in xs && forall x :: x in xs ==> x <= y
  {
    y := xs[0];
    if |xs| > 1 {
      var z := Largest(xs[1..]);
      y := if z > y then z else y;
      assert forall x :: x in xs <==> x == xs[0] || x in xs[1..];
    }
  }

  lemma {:induction false} LeastReaching(xs: seq<nat>, target: real, y: nat) returns (q: nat)
    requires y in xs && Rank(xs, y) as real >= target
    ensures QuantileAt(xs, target, q)
    decreases y
  {
    if z :| z in xs && z < y && Rank(xs, z) as real >= target {
      q := LeastReaching(xs, target, z);
    } else {
      q := y;
    }
  }

  /** Samples have a p-quantile for every p up to 1. */
  lemma QuantileExists(xs: seq<nat>, p: real) returns (q: nat)
    requires xs != [] && p <= 1.0
    ensures IsQuantile(xs, p, q)
  {
    var y := Largest(xs);
    CountEverything(xs, (x: nat) => x <= y);
    ShareOfTotal(p, |xs|);
    q := LeastReaching(xs, Target(p, |xs|), y);
  }
}
