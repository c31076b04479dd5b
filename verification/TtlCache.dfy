/** The adaptive TTL cache (src/telemetryd/platform/cache.py): how much of the worker's
    time recomputing one key can take. */
module TtlCache {
  import opened Common

  /** One run of the expensive computation. */
  datatype Compute = Compute(started: real, finished: real) {
    function Duration(): real { finished - started }
  }

  datatype Entry<V> = Entry(at: real, value: V, ttl: real)

  function Ttl(minTtl: real, factor: real, c: Compute): real {
    var scaled := c.Duration() * factor;
    if minTtl >= scaled then minTtl else scaled
  }

  /** The longer of the minimum and `factor` times the duration. */
  ghost predicate IsTtl(ttl: real, minTtl: real, factor: real, c: Compute) {
    var scaled := factor * (c.finished - c.started);
    ttl >= minTtl && ttl >= scaled && (ttl == minTtl || ttl == scaled)
  }

  lemma LongEnough(minTtl: real, factor: real, c: Compute)
    ensures IsTtl(Ttl(minTtl, factor, c), minTtl, factor, c)
    ensures Ttl(minTtl, factor, c) >= minTtl
  {
    assert factor * (c.finished - c.started) == c.Duration() * factor;
  }

  /** Consecutive computations are at least the earlier one's TTL apart. */
  ghost predicate Spaced(minTtl: real, factor: real, runs: seq<Compute>) {
    forall i :: 0 <= i < |runs| - 1 ==> runs[i + 1].started - runs[i].finished >= Ttl(minTtl, factor, runs[i])
  }

  lemma SpacedAppend(minTtl: real, factor: real, runs: seq<Compute>, c: Compute)
    requires Spaced(minTtl, factor, runs)
    requires |runs| > 0 ==> c.started - runs[|runs| - 1].finished >= Ttl(minTtl, factor, runs[|runs| - 1])
    ensures Spaced(minTtl, factor, runs + [c])
  {
    var all := runs + [c];
    forall i | 0 <= i < |all| - 1
      ensures all[i + 1].started - all[i].finished >= Ttl(minTtl, factor, all[i])
    {
      if i < |runs| - 1 {
        assert all[i] == runs[i] && all[i + 1] == runs[i + 1];
      } else {
        assert all[i + 1] == c;
      }
    }
  }

  ghost function Busy(runs: seq<Compute>): real {
    if runs == [] then 0.0 else Busy(runs[..|runs| - 1]) + runs[|runs| - 1].Duration()
  }

  /** Each computation is followed by at least `factor` times its own length of rest. */
  lemma Rest(minTtl: real, factor: real, c: Compute, next: real)
    requires next - c.finished >= Ttl(minTtl, factor, c)
    ensures (factor + 1.0) * c.Duration() <= next - c.started
  {
    assert (factor + 1.0) * c.Duration() == c.Duration() * factor + c.Duration();
  }

  /** Consecutive starts are at least `k` times the earlier computation apart. */
  ghost predicate Rests(k: real, runs: seq<Compute>) {
    forall i :: 0 <= i < |runs| - 1 ==> k * runs[i].Duration() <= runs[i + 1].started - runs[i].started
  }

  lemma SpacedRests(minTtl: real, factor: real, runs: seq<Compute>, k: real)
    requires Spaced(minTtl, factor, runs) && k == factor + 1.0
    ensures Rests(k, runs)
  {
    forall i | 0 <= i < |runs| - 1
      ensures k * runs[i].Duration() <= runs[i + 1].started - runs[i].started
    {
      Rest(minTtl, factor, runs[i], runs[i + 1].started);
    }
  }

  lemma {:induction false} Share(k: real, runs: seq<Compute>, n: nat)
    requires Rests(k, runs) && n < |runs|
    ensures k * Busy(runs[..n]) <= runs[n].started - runs[0].started
  {
    if n > 0 {
      Share(k, runs, n - 1);
      assert runs[..n][..n - 1] == runs[..n - 1];
      Distribute(k, Busy(runs[..n - 1]), runs[n - 1].Duration());
    }
  }

  lemma Distribute(k: real, x: real, y: real)
    ensures k * (x + y) == k * x + k * y
  {
  }

  /** Over any run, all computations before the latest one take at most one part in
      `factor + 1` of the time since the first. */
  lemma WorkerShare(minTtl: real, factor: real, runs: seq<Compute>)
    requires Spaced(minTtl, factor, runs) && |runs| > 0
    ensures (factor + 1.0) * Busy(runs[..|runs| - 1]) <= runs[|runs| - 1].started - runs[0].started
  {
    SpacedRests(minTtl, factor, runs, factor + 1.0);
    Share(factor + 1.0, runs, |runs| - 1);
  }

  class AdaptiveTtlCache<K(==), V> {
    const minTtl: real
    const factor: real
    var entries: map<K, Entry<V>>
    /** The computations of each key since it was last invalidated. */
    ghost var runs: map<K, seq<Compute>>

    ghost predicate Valid()
      reads this
    {
      && runs.Keys == entries.Keys
      && forall k :: k in entries ==> KeyValid(k)
    }

    ghost predicate KeyValid(k: K)
      requires k in entries && k in runs
      reads this
    {
      && |runs[k]| > 0
      && Spaced(minTtl, factor, runs[k])
      && entries[k].at == runs[k][|runs[k]| - 1].finished
      && entries[k].ttl == Ttl(minTtl, factor, runs[k][|runs[k]| - 1])
    }

    constructor (minTtl: real, factor: real)
      ensures Valid() && entries == map[] && this.minTtl == minTtl && this.factor == factor
    {
      this.minTtl, this.factor := minTtl, factor;
      entries, runs := map[], map[];
    }

    /** `get_or_compute`: an entry younger than its TTL, and in any case one younger than the
        minimum, is a hit and changes nothing; otherwise the value is computed and stored. `now`
        and `finished` are the clock before and after, `computed` is what the callback returns if
        it is called. */
    method GetOrCompute(key: K, now: real, computed: V, finished: real) returns (value: V)
      requires Valid()
      modifies this
      ensures Valid()
      ensures entries - {key} == old(entries) - {key} && runs - {key} == old(runs) - {key}
      ensures key in old(entries) && now - old(entries)[key].at < old(entries)[key].ttl ==>
                value == old(entries)[key].value && entries == old(entries) && runs == old(runs)
      ensures key in old(entries) && now - old(entries)[key].at < minTtl ==>
                value == old(entries)[key].value && entries == old(entries) && runs == old(runs)
      ensures key !in old(entries) || now - old(entries)[key].at >= old(entries)[key].ttl ==>
                && value == computed && key in entries && entries[key].value == computed && entries[key].at == finished
                && IsTtl(entries[key].ttl, minTtl, factor, Compute(now, finished))
                && runs[key] == (if key in old(runs) then old(runs)[key] else []) + [Compute(now, finished)]
    {
      if key in entries {
        var hit := entries[key];
        LongEnough(minTtl, factor, runs[key][|runs[key]| - 1]);
        if now - hit.at < hit.ttl {
          return hit.value;
        }
      }
      Store(key, now, computed, finished);
      return computed;
    }

    /** The computed value with its time and TTL. */
    method Store(key: K, now: real, computed: V, finished: real)
      requires Valid()
      requires key in entries ==> now - entries[key].at >= entries[key].ttl
      modifies this
      ensures Valid()
      ensures entries - {key} == old(entries) - {key} && runs - {key} == old(runs) - {key}
      ensures key in entries && entries[key].value == computed && entries[key].at == finished
      ensures IsTtl(entries[key].ttl, minTtl, factor, Compute(now, finished))
      ensures runs[key] == (if key in old(runs) then old(runs)[key] else []) + [Compute(now, finished)]
    {
      var run := Compute(now, finished);
      var ttl := Ttl(minTtl, factor, run);
      LongEnough(minTtl, factor, run);
      ghost var past := if key in runs then runs[key] else [];
      SpacedAppend(minTtl, factor, past, run);
      entries := entries[key := Entry(finished, computed, ttl)];
      runs := runs[key := past + [run]];
    }

    /** `invalidate`: one key, or all of them for `None`. */
    method Invalidate(key: Option<K>)
      requires Valid()
      modifies this
      ensures Valid()
      ensures entries == if key.None? then map[] else old(entries) - {key.value}
      ensures runs == if key.None? then map[] else old(runs) - {key.value}
    {
      if key.None? {
        entries, runs := map[], map[];
      } else {
        entries, runs := entries - {key.value}, runs - {key.value};
      }
    }
  }
}
