/** Four-level paging as section 4.5 of the Intel SDM, Volume 3A, gives it: bit 0 of an entry is P,
    bit 7 PS, bits 51 to 12 an address; bits 47:39, 38:30, 29:21 and 20:12 of a linear address are
    the four indices. */
module ManualWalk {
  import opened Common
  import opened Physical

  /** Where a linear address lies. `extra` holds the bits of a large leaf between its page size
      and bit 12, in units of 4 KB: bit 12 is PAT, the others are reserved and zero. */
  datatype Mapping = NoEntry | NotPresent | Mapped(pa: nat, extra: nat)

  /** `tables` is the physical address of the outermost table. */
  function AddressOf(word: Words, tables: int, va: nat): Mapping {
    match word(tables + 8 * (va / 0x80_0000_0000 % 512))
    case None => NoEntry
    case Some(e) =>
      if e % 2 == 0 then NotPresent else InDirectoryPointers(word, e / 0x1000 % 0x100_0000_0000 * 0x1000, va)
  }

  /** A leaf with PS here maps 1 GB; its address is in bits 51 to 30. */
  function InDirectoryPointers(word: Words, table: nat, va: nat): Mapping {
    match word(table + 8 * (va / 0x4000_0000 % 512))
    case None => NoEntry
    case Some(e) =>
      if e % 2 == 0 then NotPresent
      else if e / 128 % 2 == 1
      then Mapped(e / 0x4000_0000 % 0x40_0000 * 0x4000_0000 + va % 0x4000_0000, e / 0x1000 % 0x4_0000)
      else InDirectory(word, e / 0x1000 % 0x100_0000_0000 * 0x1000, va)
  }

  /** A leaf with PS here maps 2 MB; its address is in bits 51 to 21. */
  function InDirectory(word: Words, table: nat, va: nat): Mapping {
    match word(table + 8 * (va / 0x20_0000 % 512))
    case None => NoEntry
    case Some(e) =>
      if e % 2 == 0 then NotPresent
      else if e / 128 % 2 == 1
      then Mapped(e / 0x20_0000 % 0x8000_0000 * 0x20_0000 + va % 0x20_0000, e / 0x1000 % 0x200)
      else InTable(word, e / 0x1000 % 0x100_0000_0000 * 0x1000, va)
  }

  function InTable(word: Words, table: nat, va: nat): Mapping {
    match word(table + 8 * (va / 0x1000 % 512))
    case None => NoEntry
    case Some(e) =>
      if e % 2 == 0 then NotPresent else Mapped(e / 0x1000 % 0x100_0000_0000 * 0x1000 + va % 0x1000, 0)
  }

  /** No leaf met in the range has such extra bits. */
  ghost predicate CleanRange(mem: Memory, tables: int, va: nat, n: nat) {
    forall a: nat :: va <= a < va + n && AddressOf(WordsOf(mem), tables, a).Mapped? ==> AddressOf(WordsOf(mem), tables, a).extra == 0
  }

  datatype Outcome = Fails | Delivers(data: seq<Byte>)

  /** The bytes of `[va, va + n)` up to the first address that is not present. A table or byte that
      cannot be read fails the whole. */
  function UserBytes(mem: Memory, tables: int, va: nat, n: nat): Outcome
    decreases n
  {
    if n == 0 then Delivers([])
    else
      match AddressOf(WordsOf(mem), tables, va)
      case NoEntry => Fails
      case NotPresent => Delivers([])
      case Mapped(pa, _) =>
        if mem(pa).None? then Fails
        else
          match UserBytes(mem, tables, va + 1, n - 1)
          case Fails => Fails
          case Delivers(rest) => Delivers([mem(pa).value] + rest)
  }
}
