/** Small datatypes and helpers shared by the models. */
module Common {
  datatype Option<+T> = None | Some(value: T)

  type Byte = b: int | 0 <= b < 256

  /** An unsigned number from its bytes, least significant first. */
  function LittleEndian(bs: seq<Byte>): nat {
    if bs == [] then 0 else (bs[0] as int) + 256 * LittleEndian(bs[1..])
  }

  function Power256(n: nat): nat { if n == 0 then 1 else 256 * Power256(n - 1) }

  lemma {:induction false} LittleEndianAppend(a: seq<Byte>, b: seq<Byte>)
    ensures LittleEndian(a + b) == LittleEndian(a) + Power256(|a|) * LittleEndian(b)
  {
    if a == [] {
      assert a + b == b;
    } else {
      assert (a + b)[0] == a[0] && (a + b)[1..] == a[1..] + b;
      LittleEndianAppend(a[1..], b);
      Regroup(Power256(|a| - 1), LittleEndian(b));
    }
  }

  lemma Regroup(p: nat, n: nat)
    ensures 256 * (p * n) == 256 * p * n
  {
  }

  /** The bytes of a 64-bit word, written out. */
  lemma EightBytes(bs: seq<Byte>)
    requires |bs| == 8
    ensures LittleEndian(bs) ==
            bs[0] as int + 0x100 * bs[1] as int + 0x1_0000 * bs[2] as int + 0x100_0000 * bs[3] as int
            + 0x1_0000_0000 * bs[4] as int + 0x100_0000_0000 * bs[5] as int
            + 0x1_0000_0000_0000 * bs[6] as int + 0x100_0000_0000_0000 * bs[7] as int
  {
    assert bs == bs[..4] + bs[4..];
    FourBytes(bs[..4]);
    FourBytes(bs[4..]);
    LittleEndianAppend(bs[..4], bs[4..]);
    assert Power256(4) == 256 * Power256(3) == 256 * (256 * Power256(2)) == 0x1_0000_0000;
  }

  lemma FourBytes(bs: seq<Byte>)
    requires |bs| == 4
    ensures LittleEndian(bs) == bs[0] as int + 0x100 * bs[1] as int + 0x1_0000 * bs[2] as int + 0x100_0000 * bs[3] as int
  {
    assert bs == bs[..2] + bs[2..];
    TwoBytes(bs[..2]);
    TwoBytes(bs[2..]);
    LittleEndianAppend(bs[..2], bs[2..]);
    assert Power256(2) == 256 * Power256(1) == 0x1_0000;
  }

  lemma TwoBytes(bs: seq<Byte>)
    requires |bs| == 2
    ensures LittleEndian(bs) == bs[0] as int + 0x100 * bs[1] as int
  {
    assert LittleEndian(bs[1..]) == bs[1] as int + 256 * LittleEndian(bs[1..][1..]);
    assert LittleEndian(bs[1..][1..]) == 0;
  }

  /** Python's `s[-n:]`: the last `n` elements. The source trims lists this way; `-0` is `0`, so a
      bound of zero keeps the whole list instead of dropping it. */
  function Tail<T>(s: seq<T>, n: nat): (r: seq<T>)
    ensures |r| == if n == 0 || |s| < n then |s| else n
  {
    if n == 0 || |s| <= n then s else s[|s| - n..]
  }

  /** `r` is the end of `s`: its last `n` elements, all of them when there are no more or the bound
      is zero. */
  ghost predicate IsEnd<T>(r: seq<T>, s: seq<T>, n: nat) {
    |r| == (if n == 0 || |s| < n then |s| else n) && s == s[..|s| - |r|] + r
  }

  lemma TailIsEnd<T>(s: seq<T>, n: nat)
    ensures IsEnd(Tail(s, n), s, n)
  {
    assert s == s[..|s| - |Tail(s, n)|] + Tail(s, n);
  }

  ghost predicate NoDuplicates<T>(s: seq<T>) {
    forall i, j :: 0 <= i < j < |s| ==> s[i] != s[j]
  }

  // ---- ascending lists ----

  ghost predicate Ascending(q: seq<int>) { forall i, j :: 0 <= i < j < |q| ==> q[i] < q[j] }

  /** A number put in its place, unless it is there already. */
  function Insert(q: seq<int>, x: int): seq<int> {
    if q == [] || x < q[0] then [x] + q
    else if x == q[0] then q
    else [q[0]] + Insert(q[1..], x)
  }

  lemma {:induction false} InsertSorts(q: seq<int>, x: int)
    requires Ascending(q)
    ensures Ascending(Insert(q, x))
    ensures forall y :: y in Insert(q, x) <==> y == x || y in q
  {
    if q == [] {
      assert Insert(q, x) == [x];
    } else if x < q[0] {
      Prepended(x, q);
    } else if x == q[0] {
      assert x in q;
    } else {
      var rest := Insert(q[1..], x);
      InsertSorts(q[1..], x);
      assert q == [q[0]] + q[1..];
      Prepended(q[0], rest);
    }
  }

  lemma Prepended(x: int, q: seq<int>)
    requires Ascending(q) && forall y :: y in q ==> x < y
    ensures Ascending([x] + q)
  {
    forall i, j | 0 <= i < j < |[x] + q|
      ensures ([x] + q)[i] < ([x] + q)[j]
    {
      assert q[j - 1] in q;
    }
  }

  /** `sorted` of a set of numbers. */
  method Sorted(s: set<int>) returns (q: seq<int>)
    ensures Ascending(q) && forall x :: x in q <==> x in s
  {
    var all := Elements(s);
    q := [];
    for i := 0 to |all|
      invariant Ascending(q) && forall x :: x in q <==> x in all[..i]
    {
      assert all[..i + 1] == all[..i] + [all[i]];
      InsertSorts(q, all[i]);
      q := Insert(q, all[i]);
    }
    assert all[..|all|] == all;
  }

  /** The elements of a set in some order. */
  method Elements<T(==)>(s: set<T>) returns (q: seq<T>)
    ensures NoDuplicates(q)
    ensures forall x :: x in q <==> x in s
  {
    q := [];
    var todo := s;
    while todo != {}
      invariant todo <= s && NoDuplicates(q)
      invariant forall x :: x in q <==> x in s && x !in todo
      decreases todo
    {
      var x :| x in todo;
      q := q + [x];
      todo := todo - {x};
    }
  }
}
