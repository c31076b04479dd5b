/** Counter tables: finite maps to naturals, as bpftrace's `@` maps and Python's counting
    dictionaries use them, with sums over the entries that satisfy a condition. */
module Tables {
  import opened Common

  /** Reading a missing key gives zero. */
  function Get<K>(m: map<K, nat>, k: K): nat {
    if k in m then m[k] else 0
  }

  function Bump<K>(m: map<K, nat>, k: K, v: nat): map<K, nat> {
    m[k := Get(m, k) + v]
  }

  /** Sum of the values whose key satisfies `keep`. */
  ghost function Total<K(!new)>(m: map<K, nat>, keep: K -> bool): nat
    decreases |m|
  {
    if m == map[] then 0
    else
      var k :| k in m;
      (if keep(k) then m[k] else 0) + Total(m - {k}, keep)
  }

  /** Any key may be taken out first. */
  lemma {:induction false} TotalTake<K(!new)>(m: map<K, nat>, keep: K -> bool, k: K)
    requires k in m
    ensures Total(m, keep) == (if keep(k) then m[k] else 0) + Total(m - {k}, keep)
    decreases |m|
  {
    var j :| j in m && Total(m, keep) == (if keep(j) then m[j] else 0) + Total(m - {j}, keep);
    if j != k {
      TotalTake(m - {j}, keep, k);
      TotalTake(m - {k}, keep, j);
      assert m - {j} - {k} == m - {k} - {j};
    }
  }

  lemma TotalBump<K(!new)>(m: map<K, nat>, keep: K -> bool, k: K, v: nat)
    ensures Total(Bump(m, k, v), keep) == Total(m, keep) + if keep(k) then v else 0
  {
    var b := Bump(m, k, v);
    TotalTake(b, keep, k);
    if k in m {
      TotalTake(m, keep, k);
      assert b - {k} == m - {k};
    } else {
      assert b - {k} == m;
    }
  }

  lemma {:induction false} TotalNothing<K(!new)>(m: map<K, nat>, keep: K -> bool)
    requires forall k :: k in m ==> !keep(k)
    ensures Total(m, keep) == 0
    decreases |m|
  {
    if m != map[] {
      var k :| k in m;
      TotalTake(m, keep, k);
      TotalNothing(m - {k}, keep);
    }
  }

  /** The entry of one key is the sum of the entries at that key. */
  lemma TotalOne<K(!new)>(m: map<K, nat>, keep: K -> bool, k: K)
    requires forall j :: keep(j) <==> j == k
    ensures Total(m, keep) == Get(m, k)
  {
    if k in m {
      TotalTake(m, keep, k);
      TotalNothing(m - {k}, keep);
    } else {
      TotalNothing(m, keep);
    }
  }

  // ---- listings of a table ----

  function SumEntries<K>(s: seq<(K, nat)>, keep: K -> bool): nat {
    if s == [] then 0 else (if keep(s[0].0) then s[0].1 else 0) + SumEntries(s[1..], keep)
  }

  lemma {:induction false} SumEntriesAppend<K>(s: seq<(K, nat)>, t: seq<(K, nat)>, keep: K -> bool)
    ensures SumEntries(s + t, keep) == SumEntries(s, keep) + SumEntries(t, keep)
  {
    if s == [] {
      assert s + t == t;
    } else {
      assert (s + t)[0] == s[0] && (s + t)[1..] == s[1..] + t;
      SumEntriesAppend(s[1..], t, keep);
    }
  }

  /** `s` lists every entry of `m` once, in any order. */
  ghost predicate Lists<K>(s: seq<(K, nat)>, m: map<K, nat>) {
    && (forall i, j :: 0 <= i < j < |s| ==> s[i].0 != s[j].0)
    && (forall i :: 0 <= i < |s| ==> s[i].0 in m && m[s[i].0] == s[i].1)
    && (forall k :: k in m ==> (k, m[k]) in s)
  }

  lemma ListsTail<K>(s: seq<(K, nat)>, m: map<K, nat>)
    requires Lists(s, m) && s != []
    ensures s[0].0 in m && m[s[0].0] == s[0].1 && Lists(s[1..], m - {s[0].0})
  {
    var k := s[0].0;
    forall j | j in m - {k}
      ensures (j, (m - {k})[j]) in s[1..]
    {
      assert (j, m[j]) in s && s[0] != (j, m[j]);
    }
  }

  lemma KeysListed<K>(s: seq<(K, nat)>, m: map<K, nat>)
    requires Lists(s, m)
    ensures m.Keys == set e | e in s :: e.0
  {
    forall k | k in m
      ensures k in set e | e in s :: e.0
    {
      assert (k, m[k]) in s;
    }
  }

  lemma ListsNothing<K>(s: seq<(K, nat)>, m: map<K, nat>)
    requires Lists(s, m) && s == []
    ensures m == map[]
  {
    KeysListed(s, m);
  }

  lemma {:induction false} ListedSum<K(!new)>(s: seq<(K, nat)>, m: map<K, nat>, keep: K -> bool)
    requires Lists(s, m)
    ensures SumEntries(s, keep) == Total(m, keep)
    decreases |s|
  {
    if s == [] {
      ListsNothing(s, m);
    } else {
      ListsTail(s, m);
      TotalTake(m, keep, s[0].0);
      ListedSum(s[1..], m - {s[0].0}, keep);
    }
  }

  /** `print(@map)`: every entry once; bpftrace promises no order. */
  method Print<K(==)>(m: map<K, nat>) returns (s: seq<(K, nat)>)
    ensures Lists(s, m)
  {
    var keys := Elements(m.Keys);
    s := seq(|keys|, i requires 0 <= i < |keys| => (keys[i], if keys[i] in m then m[keys[i]] else 0));
    forall k | k in m
      ensures (k, m[k]) in s
    {
      var i :| 0 <= i < |keys| && keys[i] == k;
      assert s[i] == (k, m[k]);
    }
  }
}
