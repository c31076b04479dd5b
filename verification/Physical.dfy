/** Physical memory as the readers see it through `prog.read(..., physical=True)`. */
module Physical {
  import opened Common

  /** `None` is an address whose read raises a fault. */
  type Memory = int -> Option<Byte>

  /** A read of `n` bytes faults when any of them does. */
  function Read(mem: Memory, pa: int, n: nat): (r: Option<seq<Byte>>)
    ensures r.Some? ==> |r.value| == n
    decreases n
  {
    if n == 0 then Some([])
    else match mem(pa)
      case None => None
      case Some(b) =>
        match Read(mem, pa + 1, n - 1)
        case None => None
        case Some(rest) => Some([b] + rest)
  }

  lemma {:induction false} ReadByte(mem: Memory, pa: int, n: nat, i: nat)
    requires Read(mem, pa, n).Some? && i < n
    ensures mem(pa + i) == Some(Read(mem, pa, n).value[i])
    decreases n
  {
    if i > 0 {
      ReadByte(mem, pa + 1, n - 1, i - 1);
      assert pa + 1 + (i - 1) == pa + i;
    }
  }

  /** The 64-bit word at an address, least significant byte first. */
  function Word64(mem: Memory, at: int): Option<nat> {
    if mem(at).None? || mem(at + 1).None? || mem(at + 2).None? || mem(at + 3).None?
       || mem(at + 4).None? || mem(at + 5).None? || mem(at + 6).None? || mem(at + 7).None? then None
    else Some(mem(at).value as int + 0x100 * mem(at + 1).value as int
      + 0x1_0000 * mem(at + 2).value as int + 0x100_0000 * mem(at + 3).value as int
      + 0x1_0000_0000 * mem(at + 4).value as int + 0x100_0000_0000 * mem(at + 5).value as int
      + 0x1_0000_0000_0000 * mem(at + 6).value as int + 0x100_0000_0000_0000 * mem(at + 7).value as int)
  }

  /** The words of a memory, by address. */
  type Words = int -> Option<nat>

  function WordsOf(mem: Memory): Words { (at: int) => Word64(mem, at) }

  /** A read fails just when one of its bytes does. */
  lemma {:induction false} ReadFaults(mem: Memory, pa: int, n: nat)
    ensures Read(mem, pa, n).None? <==> exists a :: pa <= a < pa + n && mem(a).None?
    decreases n
  {
    if n > 0 {
      ReadFaults(mem, pa + 1, n - 1);
    }
  }

  /** Reading eight bytes and putting them together gives the word. */
  lemma WordIsRead(mem: Memory, at: int)
    ensures match Read(mem, at, 8)
            case None => Word64(mem, at) == None
            case Some(raw) => Word64(mem, at) == Some(LittleEndian(raw))
  {
    ReadFaults(mem, at, 8);
    if Read(mem, at, 8).Some? {
      var raw := Read(mem, at, 8).value;
      forall i: nat | i < 8
        ensures mem(at + i) == Some(raw[i])
      {
        ReadByte(mem, at, 8, i);
      }
      assert mem(at + 0) == mem(at);
      EightBytes(raw);
    } else {
      var a :| at <= a < at + 8 && mem(a).None?;
      assert a == at || a == at + 1 || a == at + 2 || a == at + 3 || a == at + 4 || a == at + 5 || a == at + 6 || a == at + 7;
    }
  }

  /** A prefix of a read is a read. */
  lemma {:induction false} ReadPrefix(mem: Memory, pa: int, n: nat, k: nat)
    requires Read(mem, pa, n).Some? && k <= n
    ensures Read(mem, pa, k) == Some(Read(mem, pa, n).value[..k])
    decreases n
  {
    if k > 0 {
      ReadPrefix(mem, pa + 1, n - 1, k - 1);
      var all := Read(mem, pa, n).value;
      assert all[..k] == [all[0]] + all[1..][..k - 1];
    }
  }

  lemma {:induction false} ReadTotal(mem: Memory, pa: int, n: nat)
    requires forall a :: mem(a).Some?
    ensures Read(mem, pa, n).Some?
    decreases n
  {
    if n > 0 {
      ReadTotal(mem, pa + 1, n - 1);
    }
  }
}
