/** Merging the histograms of a device's queues (src/telemetryd/backend/ebpf_perf.py) and
    where the aggregate percentile lies among the queues' own. */
module Merge {
  import opened Common
  import opened Tables
  import opened Percentile

  /** Adding a bucket list into a dictionary keyed by the bucket's edges. */
  function AddAll(m: map<Edge, nat>, bs: seq<Bucket>): map<Edge, nat> {
    if bs == [] then m else Bump(AddAll(m, bs[..|bs| - 1]), bs[|bs| - 1].0, bs[|bs| - 1].1)
  }

  function MergeAll(lists: seq<seq<Bucket>>): map<Edge, nat> {
    if lists == [] then map[] else AddAll(MergeAll(lists[..|lists| - 1]), lists[|lists| - 1])
  }

  function SumLists(lists: seq<seq<Bucket>>, keep: Edge -> bool): nat {
    if lists == [] then 0 else SumLists(lists[..|lists| - 1], keep) + SumEntries(lists[|lists| - 1], keep)
  }

  /** `_merge_buckets`: a dictionary in insertion order. */
  method MergeBuckets(lists: seq<seq<Bucket>>) returns (out: seq<Bucket>)
    ensures Lists(out, MergeAll(lists))
  {
    var merged: map<Edge, nat> := map[];
    var order: seq<Edge> := [];
    for i := 0 to |lists|
      invariant merged == MergeAll(lists[..i])
      invariant NoDuplicates(order) && forall e :: e in order <==> e in merged
    {
      ghost var start := merged;
      for j := 0 to |lists[i]|
        invariant merged == AddAll(start, lists[i][..j])
        invariant NoDuplicates(order) && forall e :: e in order <==> e in merged
      {
        assert lists[i][..j + 1][..j] == lists[i][..j];
        var (edge, count) := lists[i][j];
        if edge !in merged {
          order := order + [edge];
        }
        merged := merged[edge := (if edge in merged then merged[edge] else 0) + count];
      }
      assert lists[i][..|lists[i]|] == lists[i];
      assert lists[..i + 1][..i] == lists[..i];
    }
    assert lists[..|lists|] == lists;
    out := seq(|order|, k requires 0 <= k < |order| => (order[k], merged[order[k]]));
    forall e | e in merged
      ensures (e, merged[e]) in out
    {
      var k :| 0 <= k < |order| && order[k] == e;
      assert out[k] == (e, merged[e]);
    }
  }

  lemma {:induction false} AddAllTotal(m: map<Edge, nat>, bs: seq<Bucket>, keep: Edge -> bool)
    ensures Total(AddAll(m, bs), keep) == Total(m, keep) + SumEntries(bs, keep)
  {
    if bs != [] {
      var front, last := bs[..|bs| - 1], bs[|bs| - 1];
      AddAllTotal(m, front, keep);
      TotalBump(AddAll(m, front), keep, last.0, last.1);
      assert bs == front + [last];
      SumEntriesAppend(front, [last], keep);
    }
  }

  lemma {:induction false} MergeTotal(lists: seq<seq<Bucket>>, keep: Edge -> bool)
    ensures Total(MergeAll(lists), keep) == SumLists(lists, keep)
  {
    if lists != [] {
      MergeTotal(lists[..|lists| - 1], keep);
      AddAllTotal(MergeAll(lists[..|lists| - 1]), lists[|lists| - 1], keep);
    }
  }

  /** Merging conserves the count of every set of buckets. */
  lemma MergeConserves(lists: seq<seq<Bucket>>, out: seq<Bucket>, keep: Edge -> bool)
    requires Lists(out, MergeAll(lists))
    ensures SumEntries(out, keep) == SumLists(lists, keep)
  {
    ListedSum(out, MergeAll(lists), keep);
    MergeTotal(lists, keep);
  }

  lemma {:induction false} AddAllKeys(m: map<Edge, nat>, bs: seq<Bucket>)
    ensures AddAll(m, bs).Keys == m.Keys + set b | b in bs :: b.0
  {
    if bs != [] {
      var front, last := bs[..|bs| - 1], bs[|bs| - 1];
      assert bs == front + [last];
      AddAllKeys(m, front);
    }
  }

  /** The merged edges are exactly the edges of the lists. */
  lemma {:induction false} MergeKeys(lists: seq<seq<Bucket>>, e: Edge)
    ensures e in MergeAll(lists) <==> exists i :: 0 <= i < |lists| && HasEdge(lists[i], e)
  {
    if lists != [] {
      var front, last := lists[..|lists| - 1], lists[|lists| - 1];
      MergeKeys(front, e);
      AddAllKeys(MergeAll(front), last);
      assert forall i :: 0 <= i < |front| ==> front[i] == lists[i];
      assert HasEdge(last, e) <==> e in set b | b in last :: b.0;
    }
  }

  ghost predicate HasEdge(bs: seq<Bucket>, e: Edge) {
    exists b :: b in bs && b.0 == e
  }

  // ---- the aggregate percentile lies between the queues' percentiles ----

  /** A positive target reached at `t` is reached at a bucket at or below `t`. */
  lemma {:induction false} ReachedAtBucket(bs: seq<Bucket>, target: real, t: nat) returns (b: Bucket)
    requires target > 0.0 && UpTo(bs, t) as real >= target
    ensures b in bs && b.0.lo <= t && UpTo(bs, b.0.lo) as real >= target
    decreases t
  {
    if b' :| b' in bs && b'.0.lo == t {
      b := b';
    } else if t == 0 {
      UpToNone(bs, 0);
      assert false;
    } else {
      SumBelow(bs, t);
      b := ReachedAtBucket(bs, target, t - 1);
    }
  }

  lemma {:induction false} SumBelow(bs: seq<Bucket>, t: nat)
    requires t > 0 && forall b :: b in bs ==> b.0.lo != t
    ensures UpTo(bs, t) == UpTo(bs, t - 1)
  {
    if bs != [] {
      SumBelow(bs[1..], t);
    }
  }

  function SumUpTo(lists: seq<seq<Bucket>>, t: nat): nat { SumLists(lists, (e: Edge) => e.lo <= t) }

  function SumSamples(lists: seq<seq<Bucket>>): nat { SumLists(lists, (e: Edge) => true) }

  lemma TargetAdds(p: real, a: nat, b: nat)
    ensures Target(p, a + b) == Target(p, a) + Target(p, b)
  {
  }

  /** A share reached by all queues together is reached by one that has samples. */
  lemma {:induction false} SomeQueueReaches(lists: seq<seq<Bucket>>, p: real, t: nat) returns (i: nat)
    requires SumSamples(lists) > 0
    requires SumUpTo(lists, t) as real >= Target(p, SumSamples(lists))
    ensures i < |lists| && Samples(lists[i]) > 0 && UpTo(lists[i], t) as real >= Target(p, Samples(lists[i]))
  {
    var front, last := lists[..|lists| - 1], lists[|lists| - 1];
    TargetAdds(p, SumSamples(front), Samples(last));
    if Samples(last) > 0 && UpTo(last, t) as real >= Target(p, Samples(last)) {
      i := |lists| - 1;
    } else {
      UpToBounded(last, t);
      SumUpToBounded(front, t);
      i := SomeQueueReaches(front, p, t);
    }
  }

  lemma {:induction false} SumUpToBounded(lists: seq<seq<Bucket>>, t: nat)
    ensures SumUpTo(lists, t) <= SumSamples(lists)
  {
    if lists != [] {
      SumUpToBounded(lists[..|lists| - 1], t);
      UpToBounded(lists[|lists| - 1], t);
    }
  }

  /** A share reached by every queue is reached by all together. */
  lemma {:induction false} AllQueuesReach(lists: seq<seq<Bucket>>, p: real, t: nat)
    requires forall i :: 0 <= i < |lists| && Samples(lists[i]) > 0 ==>
               UpTo(lists[i], t) as real >= Target(p, Samples(lists[i]))
    ensures SumUpTo(lists, t) as real >= Target(p, SumSamples(lists))
  {
    if lists != [] {
      var front, last := lists[..|lists| - 1], lists[|lists| - 1];
      assert forall i :: 0 <= i < |front| ==> front[i] == lists[i];
      AllQueuesReach(front, p, t);
      assert last == lists[|lists| - 1];
      TargetAdds(p, SumSamples(front), Samples(last));
    }
  }

  lemma {:induction false} SomeQueueHasSamples(lists: seq<seq<Bucket>>) returns (i: nat)
    requires SumSamples(lists) > 0
    ensures i < |lists| && Samples(lists[i]) > 0
  {
    if Samples(lists[|lists| - 1]) > 0 {
      i := |lists| - 1;
    } else {
      i := SomeQueueHasSamples(lists[..|lists| - 1]);
    }
  }

  lemma HighestQueue(lists: seq<seq<Bucket>>, vs: seq<nat>) returns (k: nat)
    requires |vs| == |lists| && SumSamples(lists) > 0
    ensures k < |lists| && Samples(lists[k]) > 0
    ensures forall i :: 0 <= i < |lists| && Samples(lists[i]) > 0 ==> vs[i] <= vs[k]
  {
    k := SomeQueueHasSamples(lists);
    for i := 0 to |lists|
      invariant k < |lists| && Samples(lists[k]) > 0
      invariant forall j :: 0 <= j < i && Samples(lists[j]) > 0 ==> vs[j] <= vs[k]
    {
      if Samples(lists[i]) > 0 && vs[i] > vs[k] {
        k := i;
      }
    }
  }

  /** The queues' percentiles, where a queue without samples reports nothing usable. */
  ghost predicate QueuePercentiles(lists: seq<seq<Bucket>>, p: real, vs: seq<nat>) {
    && |vs| == |lists|
    && (forall i, b :: 0 <= i < |lists| && b in lists[i] ==> PowerEdge(b.0))
    && (forall i :: 0 <= i < |lists| && Samples(lists[i]) > 0 ==> IsPercentile(lists[i], p, vs[i]))
  }

  lemma MergedSums(lists: seq<seq<Bucket>>, out: seq<Bucket>, t: nat)
    requires Lists(out, MergeAll(lists))
    ensures UpTo(out, t) == SumUpTo(lists, t) && Samples(out) == SumSamples(lists)
  {
    MergeConserves(lists, out, (e: Edge) => e.lo <= t);
    MergeConserves(lists, out, (e: Edge) => true);
  }

  lemma MergedEdges(lists: seq<seq<Bucket>>, out: seq<Bucket>, p: real, vs: seq<nat>, b: Bucket)
    requires Lists(out, MergeAll(lists)) && QueuePercentiles(lists, p, vs) && b in out
    ensures PowerEdge(b.0)
  {
    MergeKeys(lists, b.0);
  }

  /** Some queue is at or below the aggregate percentile. */
  lemma SomeQueueBelow(lists: seq<seq<Bucket>>, out: seq<Bucket>, p: real, v: nat, vs: seq<nat>) returns (i: nat)
    requires Lists(out, MergeAll(lists)) && QueuePercentiles(lists, p, vs)
    requires 0.0 < p <= 1.0 && Samples(out) > 0 && IsPercentile(out, p, v)
    ensures i < |lists| && Samples(lists[i]) > 0 && vs[i] <= v
  {
    var b :| b in out && First(out, Target(p, Samples(out)), v, b);
    MergedSums(lists, out, b.0.lo);
    i := SomeQueueReaches(lists, p, b.0.lo);
    var target := Target(p, Samples(lists[i]));
    PositiveTarget(p, Samples(lists[i]));
    var c := ReachedAtBucket(lists[i], target, b.0.lo);
    var d :| d in lists[i] && First(lists[i], target, vs[i], d);
    assert d.0.lo <= c.0.lo <= b.0.lo;
    MergedEdges(lists, out, p, vs, b);
  }

  /** Some queue is at or above the aggregate percentile. */
  lemma SomeQueueAbove(lists: seq<seq<Bucket>>, out: seq<Bucket>, p: real, v: nat, vs: seq<nat>) returns (k: nat)
    requires Lists(out, MergeAll(lists)) && QueuePercentiles(lists, p, vs)
    requires 0.0 < p <= 1.0 && Samples(out) > 0 && IsPercentile(out, p, v)
    ensures k < |lists| && Samples(lists[k]) > 0 && v <= vs[k]
  {
    MergedSums(lists, out, 0);
    k := HighestQueue(lists, vs);
    var d :| d in lists[k] && First(lists[k], Target(p, Samples(lists[k])), vs[k], d);
    var t := d.0.lo;
    forall i | 0 <= i < |lists| && Samples(lists[i]) > 0
      ensures UpTo(lists[i], t) as real >= Target(p, Samples(lists[i]))
    {
      var c :| c in lists[i] && First(lists[i], Target(p, Samples(lists[i])), vs[i], c);
      assert c.0.lo <= t;
      UpToMonotone(lists[i], c.0.lo, t);
    }
    AllQueuesReach(lists, p, t);
    MergedSums(lists, out, t);
    MergeKeys(lists, d.0);
    assert HasEdge(lists[k], d.0);
    var e := (d.0, MergeAll(lists)[d.0]);
    assert e in out;
    var b :| b in out && First(out, Target(p, Samples(out)), v, b);
    MergedEdges(lists, out, p, vs, b);
    assert !(e.0.lo < b.0.lo);
  }

  /** The aggregate percentile lies between the smallest and the largest queue percentile. */
  lemma AggregateBetween(lists: seq<seq<Bucket>>, out: seq<Bucket>, p: real, v: nat, vs: seq<nat>)
    requires Lists(out, MergeAll(lists)) && QueuePercentiles(lists, p, vs)
    requires 0.0 < p <= 1.0 && Samples(out) > 0 && IsPercentile(out, p, v)
    ensures exists i, k :: 0 <= i < |lists| && 0 <= k < |lists| && Samples(lists[i]) > 0 && Samples(lists[k]) > 0 &&
              vs[i] <= v <= vs[k]
  {
    var i := SomeQueueBelow(lists, out, p, v, vs);
    var k := SomeQueueAbove(lists, out, p, v, vs);
  }

  // ---- the merged histogram is the histogram of all samples ----

  function Concat(xss: seq<seq<nat>>): seq<nat> {
    if xss == [] then [] else Concat(xss[..|xss| - 1]) + xss[|xss| - 1]
  }

  lemma {:induction false} InConcat(xss: seq<seq<nat>>, x: nat)
    requires x in Concat(xss)
    ensures exists i :: 0 <= i < |xss| && x in xss[i]
  {
    var front, last := xss[..|xss| - 1], xss[|xss| - 1];
    if x in last {
      assert xss[|xss| - 1] == last;
    } else {
      InConcat(front, x);
      var i :| 0 <= i < |front| && x in front[i];
      assert xss[i] == front[i];
    }
  }

  lemma {:induction false} CountConcat(xs: seq<nat>, ys: seq<nat>, p: nat -> bool)
    ensures CountIf(xs + ys, p) == CountIf(xs, p) + CountIf(ys, p)
  {
    if xs == [] {
      assert xs + ys == ys;
    } else {
      assert (xs + ys)[0] == xs[0] && (xs + ys)[1..] == xs[1..] + ys;
      CountConcat(xs[1..], ys, p);
    }
  }

  function Exactly(e: Edge): Edge -> bool { (f: Edge) => f == e }

  /** A histogram's count at an edge is the number of samples there, listed or not. */
  lemma EdgeCount(bs: seq<Bucket>, xs: seq<nat>, e: Edge)
    requires Represents(bs, xs) && PowerEdge(e)
    ensures SumEntries(bs, Exactly(e)) == CountIn(xs, e)
  {
    SumIsCount(bs, xs, Exactly(e));
    var covered, inside := (x: nat) => Covered(bs, Exactly(e), x), (x: nat) => Inside(x, e);
    forall x | x in xs
      ensures covered(x) == inside(x)
    {
      var b :| b in bs && Inside(x, b.0);
      if inside(x) {
        DisjointEdges(b.0, e, x);
      }
    }
    CountAgree(xs, covered, inside);
  }

  lemma {:induction false} MergedCount(lists: seq<seq<Bucket>>, xss: seq<seq<nat>>, e: Edge)
    requires |lists| == |xss| && PowerEdge(e) && forall i :: 0 <= i < |lists| ==> Represents(lists[i], xss[i])
    ensures SumLists(lists, Exactly(e)) == CountIn(Concat(xss), e)
  {
    if lists != [] {
      var n := |lists| - 1;
      MergedCount(lists[..n], xss[..n], e);
      EdgeCount(lists[n], xss[n], e);
      CountConcat(Concat(xss[..n]), xss[n], (x: nat) => Inside(x, e));
    }
  }

  /** Merging the histograms of several sample lists gives the histogram of all of them. */
  lemma MergedRepresents(lists: seq<seq<Bucket>>, xss: seq<seq<nat>>, out: seq<Bucket>)
    requires |lists| == |xss| && Lists(out, MergeAll(lists)) && forall i :: 0 <= i < |lists| ==> Represents(lists[i], xss[i])
    ensures Represents(out, Concat(xss))
  {
    var m := MergeAll(lists);
    forall b | b in out
      ensures PowerEdge(b.0) && b.1 == CountIn(Concat(xss), b.0)
    {
      MergeKeys(lists, b.0);
      MergeTotal(lists, Exactly(b.0));
      TotalOne(m, Exactly(b.0), b.0);
      MergedCount(lists, xss, b.0);
    }
    forall x | x in Concat(xss)
      ensures exists b :: b in out && Inside(x, b.0)
    {
      InConcat(xss, x);
      var i :| 0 <= i < |xss| && x in xss[i];
      var c :| c in lists[i] && Inside(x, c.0);
      assert HasEdge(lists[i], c.0);
      MergeKeys(lists, c.0);
      assert (c.0, m[c.0]) in out;
    }
  }
}
