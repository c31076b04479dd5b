/** The manual page-table walk that reads another process's memory
    (src/telemetryd/backend/procinfo.py), against byte-by-byte address translation. */
module PageWalk {
  import opened Common
  import opened Physical
  import M = ManualWalk

  datatype Result = Fault | NoPgd | Bytes(data: seq<Byte>)

  /** The three page sizes of four-level paging: 4 KB, 2 MB and 1 GB. */
  datatype PageSize = Small | Medium | Huge {
    function Bytes(): nat {
      match this
      case Small => 0x1000
      case Medium => 0x20_0000
      case Huge => 0x4000_0000
    }

    /** `va & (size - 1)`. */
    function Offset(va: nat): (r: nat)
      ensures r < Bytes()
    {
      match this
      case Small => va % 0x1000
      case Medium => va % 0x20_0000
      case Huge => va % 0x4000_0000
    }
  }

  // ---- bit fields of the source, as arithmetic ----

  predicate Present(e: nat) { e % 2 == 1 }

  predicate Large(e: nat) { e / 128 % 2 == 1 }

  /** `e & 0x000F_FFFF_FFFF_F000`: bits 51 to 12. */
  function Base(e: nat): nat { e / 0x1000 % 0x100_0000_0000 * 0x1000 }

  /** The four nine-bit table indices of an address, outermost first. */
  datatype Path = Path(pgd: nat, pud: nat, pmd: nat, pte: nat)

  function PathOf(va: nat): Path {
    Path(va / 0x80_0000_0000 % 512, va / 0x4000_0000 % 512, va / 0x20_0000 % 512, va / 0x1000 % 512)
  }

  // ---- table entries ----

  /** How a table entry is read: the table's physical address and an index. */
  type Tables = (int, nat) -> Option<nat>

  function EntryIn(mem: Memory): Tables {
    (table: int, index: nat) =>
      match Read(mem, table + index * 8, 8)
      case None => None
      case Some(raw) => Some(LittleEndian(raw))
  }

  // ---- the reference: translate one address at a time ----

  datatype Leaf = BadTable | Unmapped | Page(entry: nat, size: PageSize)

  /** Four-level walk: the leaf entry that maps the addresses with these indices. */
  function WalkPath(entry: Tables, root: int, p: Path): Leaf {
    match entry(root, p.pgd)
    case None => BadTable
    case Some(e) => if !Present(e) then Unmapped else WalkPud(entry, Base(e), p)
  }

  function WalkPud(entry: Tables, table: int, p: Path): Leaf {
    match entry(table, p.pud)
    case None => BadTable
    case Some(e) => if !Present(e) then Unmapped else if Large(e) then Page(e, Huge) else WalkPmd(entry, Base(e), p)
  }

  function WalkPmd(entry: Tables, table: int, p: Path): Leaf {
    match entry(table, p.pmd)
    case None => BadTable
    case Some(e) => if !Present(e) then Unmapped else if Large(e) then Page(e, Medium) else WalkPte(entry, Base(e), p)
  }

  function WalkPte(entry: Tables, table: int, p: Path): Leaf {
    match entry(table, p.pte)
    case None => BadTable
    case Some(e) => if Present(e) then Page(e, Small) else Unmapped
  }

  /** Where one virtual address lives, and how many bytes its page still holds. */
  datatype Location = BadTables | Hole | At(pa: int, left: nat)

  type Translation = nat -> Location

  function Locate(leaf: Leaf, va: nat): Location {
    match leaf
    case BadTable => BadTables
    case Unmapped => Hole
    case Page(e, size) => At(Base(e) + size.Offset(va), size.Bytes() - size.Offset(va))
  }

  function Translate(entry: Tables, root: int): Translation {
    (va: nat) => Locate(WalkPath(entry, root, PathOf(va)), va)
  }

  /** The bytes of `[va, va + n)` one at a time, up to the first unmapped address. */
  function ByteWise(mem: Memory, loc: Translation, va: nat, n: nat): Result
    decreases n
  {
    if n == 0 then Bytes([])
    else match loc(va)
      case BadTables => Fault
      case Hole => Bytes([])
      case At(pa, _) =>
        match mem(pa)
        case None => Fault
        case Some(b) => Prepend([b], ByteWise(mem, loc, va + 1, n - 1))
  }

  function Prepend(bs: seq<Byte>, r: Result): Result {
    if r.Bytes? then Bytes(bs + r.data) else r
  }

  ghost predicate MappedTo(mem: Memory, loc: Location, b: Byte) {
    loc.At? && mem(loc.pa) == Some(b)
  }

  /** A page table or a mapped byte that cannot be read. */
  ghost predicate Broken(mem: Memory, loc: Location) { loc.BadTables? || (loc.At? && mem(loc.pa).None?) }

  ghost predicate Readable(mem: Memory, loc: Location) { loc.At? && mem(loc.pa).Some? }

  /** `ByteWise` delivers exactly the longest mapped prefix, and fails exactly when it meets
      something it cannot read before the first unmapped address. */
  lemma {:induction false} LongestMappedPrefix(mem: Memory, loc: Translation, va: nat, n: nat)
    ensures ByteWise(mem, loc, va, n).Bytes? ==>
              var data := ByteWise(mem, loc, va, n).data;
              && |data| <= n
              && (forall i :: 0 <= i < |data| ==> MappedTo(mem, loc(va + i), data[i]))
              && (|data| < n ==> loc(va + |data|) == Hole)
    ensures !ByteWise(mem, loc, va, n).Bytes? <==>
              exists a: nat :: va <= a < va + n && Broken(mem, loc(a)) && forall b: nat :: va <= b < a ==> Readable(mem, loc(b))
    decreases n
  {
    if n > 0 && Readable(mem, loc(va)) {
      LongestMappedPrefix(mem, loc, va + 1, n - 1);
      if ByteWise(mem, loc, va, n).Bytes? {
        var data := ByteWise(mem, loc, va, n).data;
        var rest := ByteWise(mem, loc, va + 1, n - 1).data;
        assert va + 1 + |rest| == va + |data|;
        forall i | 0 <= i < |data|
          ensures MappedTo(mem, loc(va + i), data[i])
        {
          if i > 0 {
            assert data[i] == rest[i - 1] && va + i == va + 1 + (i - 1);
          }
        }
      }
    }
  }

  // ---- a page is translated uniformly ----

  /** Consecutive addresses of one page are consecutive in memory. */
  ghost predicate Steady(loc: Translation, va: nat) {
    loc(va).At? ==>
      && loc(va).left > 0
      && (loc(va).left > 1 ==> loc(va + 1) == At(loc(va).pa + 1, loc(va).left - 1))
  }

  lemma TranslateIsSteady(entry: Tables, root: int, va: nat)
    ensures Steady(Translate(entry, root), va)
  {
    var leaf := WalkPath(entry, root, PathOf(va));
    if leaf.Page? && leaf.size.Offset(va) + 1 < leaf.size.Bytes() {
      SamePage(entry, root, PathOf(va), PathOf(va + 1), va);
    }
  }

  lemma SamePage(entry: Tables, root: int, p: Path, p': Path, va: nat)
    requires p == PathOf(va) && p' == PathOf(va + 1)
    requires WalkPath(entry, root, p).Page?
    requires WalkPath(entry, root, p).size.Offset(va) + 1 < WalkPath(entry, root, p).size.Bytes()
    ensures WalkPath(entry, root, p') == WalkPath(entry, root, p)
    ensures var size := WalkPath(entry, root, p).size; size.Offset(va + 1) == size.Offset(va) + 1
  {
    SamePath(va, WalkPath(entry, root, p).size);
    SameWalk(entry, root, p, p');
  }

  /** A walk ends at the level of its leaf, so deeper indices do not matter. */
  lemma SameWalk(entry: Tables, root: int, p: Path, p': Path)
    requires WalkPath(entry, root, p).Page?
    requires p'.pgd == p.pgd && p'.pud == p.pud
    requires !WalkPath(entry, root, p).size.Huge? ==> p'.pmd == p.pmd
    requires WalkPath(entry, root, p).size.Small? ==> p'.pte == p.pte
    ensures WalkPath(entry, root, p') == WalkPath(entry, root, p)
  {
  }

  /** Indices at and above the level of a page do not change inside it. */
  lemma SamePath(va: nat, size: PageSize)
    requires size.Offset(va) + 1 < size.Bytes()
    ensures size.Offset(va + 1) == size.Offset(va) + 1
    ensures PathOf(va + 1).pgd == PathOf(va).pgd && PathOf(va + 1).pud == PathOf(va).pud
    ensures !size.Huge? ==> PathOf(va + 1).pmd == PathOf(va).pmd
    ensures size.Small? ==> PathOf(va + 1).pte == PathOf(va).pte
  {
    Nested(va);
    Nested(va + 1);
    match size
    case Small => assert (va + 1) / 0x1000 == va / 0x1000;
    case Medium => assert (va + 1) / 0x20_0000 == va / 0x20_0000;
    case Huge => assert (va + 1) / 0x4000_0000 == va / 0x4000_0000;
  }

  lemma Nested(va: nat)
    ensures va / 0x20_0000 == va / 0x1000 / 512
    ensures va / 0x4000_0000 == va / 0x20_0000 / 512
    ensures va / 0x80_0000_0000 == va / 0x4000_0000 / 512
  {
  }

  /** One chunk inside a page stands for that many single-byte steps. */
  lemma {:induction false} Chunk(mem: Memory, loc: Translation, va: nat, n: nat, chunk: nat)
    requires (forall a :: Steady(loc, a)) && loc(va).At?
    requires 0 < chunk <= n && chunk <= loc(va).left
    ensures var raw := Read(mem, loc(va).pa, chunk);
            ByteWise(mem, loc, va, n) ==
            if raw.None? then Fault else Prepend(raw.value, ByteWise(mem, loc, va + chunk, n - chunk))
    decreases chunk
  {
    if chunk == 1 {
      assert Read(mem, loc(va).pa + 1, 0) == Some([]);
    } else {
      assert Steady(loc, va);
      Chunk(mem, loc, va + 1, n - 1, chunk - 1);
      assert va + 1 + (chunk - 1) == va + chunk && n - 1 - (chunk - 1) == n - chunk;
      var rest := ByteWise(mem, loc, va + chunk, n - chunk);
      var raw := Read(mem, loc(va).pa + 1, chunk - 1);
      if raw.Some? && mem(loc(va).pa).Some? && rest.Bytes? {
        var b := mem(loc(va).pa).value;
        assert [b] + (raw.value + rest.data) == [b] + raw.value + rest.data;
      }
    }
  }

  /** Nothing is read for a size that is not positive. */
  function Length(size: int): nat { if size > 0 then size else 0 }

  /** The walker's loop, for any translation that is steady inside its pages: reading
      page by page gives what byte-by-byte translation gives, faults included. */
  method ReadPages(mem: Memory, loc: Translation, addr: nat, size: int) returns (r: Result)
    requires forall va :: Steady(loc, va)
    ensures r == ByteWise(mem, loc, addr, Length(size))
  {
    var out: seq<Byte> := [];
    var remaining := size;
    var va: nat := addr;
    ghost var whole := ByteWise(mem, loc, addr, Length(size));
    while remaining > 0
      invariant remaining > 0 ==> whole == Prepend(out, ByteWise(mem, loc, va, remaining))
      invariant remaining <= 0 ==> whole == Bytes(out)
      decreases remaining
    {
      var at := loc(va);
      assert Steady(loc, va);
      if at.BadTables? { return Fault; }
      if at.Hole? { break; }
      var chunk := if remaining <= at.left then remaining else at.left;
      Chunk(mem, loc, va, remaining, chunk);
      var raw := Read(mem, at.pa, chunk);
      if raw.None? { return Fault; }
      Regroup(out, raw.value, ByteWise(mem, loc, va + chunk, remaining - chunk));
      out := out + raw.value;
      va := va + chunk;
      remaining := remaining - chunk;
    }
    return Bytes(out);
  }

  /** The walker. `pgdVa` is `mm->pgd`; every table below it is read physically. */
  method ReadUser(mem: Memory, pgdVa: int, pageOffset: int, addr: nat, size: int) returns (r: Result)
    ensures pgdVa == 0 ==> r == NoPgd
    ensures pgdVa != 0 ==> r == ByteWise(mem, Translate(EntryIn(mem), pgdVa - pageOffset), addr, Length(size))
  {
    if pgdVa == 0 {
      return NoPgd;
    }
    AllSteady(EntryIn(mem), pgdVa - pageOffset);
    r := ReadPages(mem, Translate(EntryIn(mem), pgdVa - pageOffset), addr, size);
  }

  lemma AllSteady(entry: Tables, root: int)
    ensures forall va: nat :: Steady(Translate(entry, root), va)
  {
    forall va: nat
      ensures Steady(Translate(entry, root), va)
    {
      TranslateIsSteady(entry, root, va);
    }
  }

  lemma Regroup(out: seq<Byte>, bs: seq<Byte>, rest: Result)
    ensures Prepend(out, Prepend(bs, rest)) == Prepend(out + bs, rest)
  {
    if rest.Bytes? {
      assert out + (bs + rest.data) == out + bs + rest.data;
    }
  }

  // ---- agreement with the architecture manual ----

  /** The address bits of a leaf as the manual takes them, and those below its page size. */
  lemma LeafBits(e: nat)
    ensures Base(e) == e / 0x20_0000 % 0x8000_0000 * 0x20_0000 + 0x1000 * (e / 0x1000 % 0x200)
    ensures Base(e) == e / 0x4000_0000 % 0x40_0000 * 0x4000_0000 + 0x1000 * (e / 0x1000 % 0x4_0000)
  {
    var x := e / 0x1000;
    assert x / 0x200 == e / 0x20_0000 && x / 0x4_0000 == e / 0x4000_0000;
    Split9(x / 0x200, x % 0x200);
    Split18(x / 0x4_0000, x % 0x4_0000);
  }

  lemma Split9(y: nat, z: nat)
    requires z < 0x200
    ensures (0x200 * y + z) % 0x100_0000_0000 == 0x200 * (y % 0x8000_0000) + z
  {
    var q, r := y / 0x8000_0000, y % 0x8000_0000;
    assert 0x200 * y + z == q * 0x100_0000_0000 + (0x200 * r + z);
  }

  lemma Split18(y: nat, z: nat)
    requires z < 0x4_0000
    ensures (0x4_0000 * y + z) % 0x100_0000_0000 == 0x4_0000 * (y % 0x40_0000) + z
  {
    var q, r := y / 0x40_0000, y % 0x40_0000;
    assert 0x4_0000 * y + z == q * 0x100_0000_0000 + (0x4_0000 * r + z);
  }

  /** Entries are the words of memory at those places. */
  ghost predicate ReadsWords(entry: Tables, word: Words) {
    forall table, index: nat :: entry(table, index) == word(table + 8 * index)
  }

  lemma EntryIsWord(mem: Memory, table: int, index: nat)
    ensures EntryIn(mem)(table, index) == WordsOf(mem)(table + 8 * index)
  {
    var at := table + index * 8;
    WordIsRead(mem, at);
    assert at == table + 8 * index;
  }

  lemma EntriesAreWords(mem: Memory)
    ensures ReadsWords(EntryIn(mem), WordsOf(mem))
  {
    forall table, index: nat
      ensures EntryIn(mem)(table, index) == WordsOf(mem)(table + 8 * index)
    {
      EntryIsWord(mem, table, index);
    }
  }

  /** The same place, but for the extra bits of a large leaf. */
  ghost predicate SamePlace(loc: Location, m: M.Mapping) {
    match m
    case NoEntry => loc == BadTables
    case NotPresent => loc == Hole
    case Mapped(pa, extra) => loc.At? && loc.pa == pa + 0x1000 * extra
  }

  lemma PteIsManual(entry: Tables, word: Words, table: nat, va: nat)
    requires ReadsWords(entry, word)
    ensures SamePlace(Locate(WalkPte(entry, table, PathOf(va)), va), M.InTable(word, table, va))
  {
    var e := entry(table, PathOf(va).pte);
  }

  lemma PmdIsManual(entry: Tables, word: Words, table: nat, va: nat)
    requires ReadsWords(entry, word)
    ensures SamePlace(Locate(WalkPmd(entry, table, PathOf(va)), va), M.InDirectory(word, table, va))
  {
    var e := entry(table, PathOf(va).pmd);
    if e.Some? && Present(e.value) {
      if Large(e.value) {
        LeafBits(e.value);
      } else {
        PteIsManual(entry, word, Base(e.value), va);
      }
    }
  }

  lemma PudIsManual(entry: Tables, word: Words, table: nat, va: nat)
    requires ReadsWords(entry, word)
    ensures SamePlace(Locate(WalkPud(entry, table, PathOf(va)), va), M.InDirectoryPointers(word, table, va))
  {
    var e := entry(table, PathOf(va).pud);
    if e.Some? && Present(e.value) {
      if Large(e.value) {
        LeafBits(e.value);
      } else {
        PmdIsManual(entry, word, Base(e.value), va);
      }
    }
  }

  /** The source's walk against the manual's: it ends at the same level for every address, and
      where a large leaf has extra bits it adds them to the address. */
  lemma WalkIsManual(mem: Memory, root: int, va: nat)
    ensures SamePlace(Translate(EntryIn(mem), root)(va), M.AddressOf(WordsOf(mem), root, va))
  {
    EntriesAreWords(mem);
    PgdIsManual(EntryIn(mem), WordsOf(mem), root, va);
  }

  lemma PgdIsManual(entry: Tables, word: Words, root: int, va: nat)
    requires ReadsWords(entry, word)
    ensures SamePlace(Translate(entry, root)(va), M.AddressOf(word, root, va))
  {
    var e := entry(root, PathOf(va).pgd);
    if e.Some? && Present(e.value) {
      PudIsManual(entry, word, Base(e.value), va);
    }
  }

  /** So the address computed is the manual's exactly when the leaf has no address bits below its
      page size; a 2 MB or 1 GB leaf with its PAT bit (bit 12) set is read from the wrong place. */
  lemma FrameExact(mem: Memory, root: int, va: nat)
    requires M.AddressOf(WordsOf(mem), root, va).Mapped?
    ensures var loc, m := Translate(EntryIn(mem), root)(va), M.AddressOf(WordsOf(mem), root, va);
            loc.At? && (loc.pa == m.pa <==> m.extra == 0)
  {
    WalkIsManual(mem, root, va);
  }

  ghost predicate SameOutcome(r: Result, m: M.Outcome) {
    match m
    case Fails => r == Fault
    case Delivers(data) => r == Bytes(data)
  }

  /** When every leaf met in the range is clean, the bytes are the architecture's bytes. */
  lemma {:induction false} ManualAgrees(mem: Memory, root: int, va: nat, n: nat)
    requires M.CleanRange(mem, root, va, n)
    ensures SameOutcome(ByteWise(mem, Translate(EntryIn(mem), root), va, n), M.UserBytes(mem, root, va, n))
    decreases n
  {
    if n > 0 {
      ManualAgrees(mem, root, va + 1, n - 1);
      WalkIsManual(mem, root, va);
      SameStep(mem, Translate(EntryIn(mem), root), M.AddressOf(WordsOf(mem), root, va), root, va, n);
    }
  }

  lemma SameStep(mem: Memory, loc: Translation, m: M.Mapping, root: int, va: nat, n: nat)
    requires n > 0 && m == M.AddressOf(WordsOf(mem), root, va) && SamePlace(loc(va), m) && (m.Mapped? ==> m.extra == 0)
    requires SameOutcome(ByteWise(mem, loc, va + 1, n - 1), M.UserBytes(mem, root, va + 1, n - 1))
    ensures SameOutcome(ByteWise(mem, loc, va, n), M.UserBytes(mem, root, va, n))
  {
  }
}
