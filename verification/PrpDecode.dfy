/** The PRP decoder (src/telemetryd/services/queues/decode.py) against the data layout of
    section 4.3 of NVM Express 1.4. */
module PrpDecode {
  import opened Common
  import opened Physical

  const PAGE := 4096

  datatype PrpPage = PrpPage(phys: int, offset: nat, data: seq<Byte>, isList: bool)

  function Min(a: int, b: int): int { if a <= b then a else b }

  // ---- the layout of the standard, for memory pages of 4096 bytes ----

  /** The `i`-th of `n` data pointers of the list that starts at `list`. When the list does
      not fit its page, the page's last slot points to the rest of the list, which starts
      a page of its own. */
  function ListEntry(word: Words, list: nat, i: nat, n: nat): Option<nat>
    requires i < n
    decreases n, list % 4096 != 0
  {
    var slots := (4096 - list % 4096) / 8;
    if n <= slots || i + 1 < slots then word(list + 8 * i)
    else if slots == 0 then None
    else
      match word(list + 8 * (slots - 1))
      case None => None
      case Some(next) =>
        if next % 4096 != 0 then None else ListEntry(word, next, i - (slots - 1), n - (slots - 1))
  }

  /** Byte `k` of the transfer, counted in `at` from the start of PRP1's page: PRP1 may point into
      the middle of a page, every further page is used from its start. One further page is PRP2
      itself; of more, PRP2 is the list. */
  function TransferByte(mem: Memory, prp1: nat, prp2: nat, total: nat, k: nat): Option<Byte>
    requires k < total
  {
    var at, pages := prp1 % 4096 + k, (prp1 % 4096 + total + 4095) / 4096;
    if at < 4096 then mem(prp1 + k)
    else if pages == 2 then mem(prp2 + at % 4096)
    else
      match ListEntry(WordsOf(mem), prp2, at / 4096 - 1, pages - 1)
      case None => None
      case Some(page) => mem(page + at % 4096)
  }

  // ---- how the decoder cuts it ----

  /** Bytes of the transfer held by the page PRP1 points into. */
  function FirstBytes(prp1: nat, total: nat): nat { Min(total, PAGE - prp1 % PAGE) }

  /** Further pages the transfer needs. */
  function MorePages(prp1: nat, total: nat): nat { (total - FirstBytes(prp1, total) + PAGE - 1) / PAGE }

  /** The first bytes are those that lie in PRP1's page, and the further pages the fewest that hold
      the rest. */
  lemma CutExact(prp1: nat, total: nat, k: nat, n: nat)
    requires k < total
    ensures k < FirstBytes(prp1, total) <==> (prp1 + k) / 4096 == prp1 / 4096
    ensures FirstBytes(prp1, total) + 4096 * n >= total <==> n >= MorePages(prp1, total)
    ensures MorePages(prp1, total) == (prp1 % 4096 + total + 4095) / 4096 - 1
  {
  }

  // ---- the decoder ----

  /** `_read_page`: a faulting page is shown empty. */
  function ReadPage(mem: Memory, phys: int, offset: nat, nbytes: int, isList: bool): PrpPage {
    var n := if nbytes < 0 then 0 else Min(nbytes, PAGE);
    var raw := Read(mem, phys, n);
    PrpPage(phys, offset, if raw.Some? then raw.value else [], isList)
  }

  function DataOf(pages: seq<PrpPage>): seq<Byte> {
    if pages == [] then []
    else DataOf(pages[..|pages| - 1]) + if pages[|pages| - 1].isList then [] else pages[|pages| - 1].data
  }

  function Entries(raw: seq<Byte>): seq<nat> {
    if |raw| < 8 then [] else [LittleEndian(raw[..8])] + Entries(raw[8..])
  }

  /** How many data bytes are shown, and how many of them lie behind PRP1's page. */
  function Shown(total: nat): nat { Min(total, PAGE) }

  function Behind(prp1: nat, total: nat): nat { Shown(total) - FirstBytes(prp1, total) }

  /** Where the decoder takes the bytes behind the first page from. */
  function SecondPage(mem: Memory, prp1: nat, prp2: nat, total: nat): Option<nat> {
    PageBehind(mem, prp2, MorePages(prp1, total))
  }

  function PageBehind(mem: Memory, prp2: nat, n: nat): Option<nat> {
    if n <= 1 then Some(prp2)
    else
      var show := Min(n, 8);
      match Read(mem, prp2, show * 8)
      case None => None
      case Some(raw) => Some(LittleEndian(raw[..8]))
  }

  /** The decoder's reads all succeed. */
  ghost predicate ReadsSucceed(mem: Memory, prp1: nat, prp2: nat, total: nat) {
    && Read(mem, prp1, FirstBytes(prp1, total)).Some?
    && (Behind(prp1, total) > 0 ==>
          var second := SecondPage(mem, prp1, prp2, total);
          second.Some? && Read(mem, second.value, Behind(prp1, total)).Some?)
  }

  function Bytes(mem: Memory, at: Option<nat>, n: nat): seq<Byte> {
    if at.None? then []
    else
      var raw := Read(mem, at.value, n);
      if raw.Some? then raw.value else []
  }

  /** The bytes the decoder shows: those in PRP1's page, then those of the second page. */
  function ShownData(mem: Memory, prp1: nat, prp2: nat, total: nat): seq<Byte> {
    Bytes(mem, Some(prp1), FirstBytes(prp1, total))
    + if Behind(prp1, total) == 0 then [] else Bytes(mem, SecondPage(mem, prp1, prp2, total), Behind(prp1, total))
  }

  lemma DataOfAppend(pages: seq<PrpPage>, p: PrpPage)
    ensures DataOf(pages + [p]) == DataOf(pages) + if p.isList then [] else p.data
  {
    assert (pages + [p])[..|pages|] == pages;
  }

  /** From `from` on, whole pages of data. */
  ghost predicate DataPages(pages: seq<PrpPage>, from: nat) {
    forall i :: from <= i < |pages| ==> pages[i].offset == 0 && !pages[i].isList
  }

  /** The loop over the list's entries: the cap leaves room for the first page only. */
  method ListPages(mem: Memory, pages: seq<PrpPage>, entries: seq<nat>, remaining: nat, firstBytes: nat)
    returns (r: seq<PrpPage>)
    requires remaining > PAGE && firstBytes < PAGE
    ensures DataOf(r) == DataOf(pages) + if entries == [] then [] else Bytes(mem, Some(entries[0]), PAGE - firstBytes)
    ensures pages <= r && DataPages(r, |pages|)
  {
    r := pages;
    var shown := firstBytes;
    var i := 0;
    while i < |entries| && shown < PAGE
      invariant 0 <= i <= |entries|
      invariant i == 0 ==> shown == firstBytes && r == pages
      invariant pages <= r && DataPages(r, |pages|)
      invariant i > 0 ==> shown == PAGE
      invariant i > 0 ==> DataOf(r) == DataOf(pages) + Bytes(mem, Some(entries[0]), PAGE - firstBytes)
    {
      var pageBytes := Min(Min(PAGE, remaining - i * PAGE), PAGE - shown);
      if pageBytes <= 0 {
        break;
      }
      var page := ReadPage(mem, entries[i], 0, pageBytes, false);
      DataOfAppend(r, page);
      r := r + [page];
      shown := shown + pageBytes;
      i := i + 1;
    }
  }

  lemma BehindFirst(prp1: nat, total: nat)
    ensures var first := FirstBytes(prp1, total);
            Behind(prp1, total) == if total <= first || first >= PAGE then 0 else Min(total - first, PAGE - first)
  {
  }

  lemma ShownSplits(mem: Memory, prp1: nat, prp2: nat, total: nat, first: nat, rest: nat)
    requires first == FirstBytes(prp1, total) && rest == total - first
    ensures ShownData(mem, prp1, prp2, total) ==
            Bytes(mem, Some(prp1), first)
            + if rest == 0 || first >= PAGE then []
              else Bytes(mem, PageBehind(mem, prp2, (rest + PAGE - 1) / PAGE), Min(rest, PAGE - first))
  {
    BehindFirst(prp1, total);
  }

  /** `_decode_prp_pages`. */
  method DecodePages(mem: Memory, prp1: nat, prp2: nat, total: int) returns (pages: seq<PrpPage>)
    ensures prp1 == 0 || total <= 0 ==> pages == []
    ensures prp1 != 0 && total > 0 ==>
              DataOf(pages) == ShownData(mem, prp1, prp2, total)
    ensures prp1 != 0 && total > 0 ==>
              |pages| > 0 && pages[0].phys == prp1 && pages[0].offset == prp1 % 4096 && !pages[0].isList
    ensures |pages| > 1 ==>
              && pages[1].phys == prp2 && pages[1].offset == 0 && DataPages(pages, 2)
              && (pages[1].isList <==> prp1 % 4096 + total > 8192)
              && (pages[1].isList ==> pages[1].data == Bytes(mem, Some(prp2), 4096))
  {
    pages := [];
    if prp1 == 0 || total <= 0 {
      return;
    }
    var offset := prp1 % PAGE;
    var firstPageBytes := Min(total, PAGE - offset);
    var firstBytes := Min(firstPageBytes, PAGE);
    var first := ReadPage(mem, prp1, offset, firstBytes, false);
    DataOfAppend(pages, first);
    pages := pages + [first];
    var shown := firstBytes;
    assert DataOf(pages) == Bytes(mem, Some(prp1), shown);
    var remaining := total - firstPageBytes;
    ShownSplits(mem, prp1, prp2, total, shown, remaining);
    if remaining <= 0 || shown >= PAGE {
      return;
    }
    pages := FurtherPages(mem, prp2, pages, shown, remaining);
  }

  /** The decoder after the first page: PRP2 is a data page or a list. */
  method FurtherPages(mem: Memory, prp2: nat, before: seq<PrpPage>, shown: nat, remaining: nat)
    returns (pages: seq<PrpPage>)
    requires 0 < shown < PAGE && remaining > 0
    ensures DataOf(pages) ==
            DataOf(before) + Bytes(mem, PageBehind(mem, prp2, (remaining + PAGE - 1) / PAGE), Min(remaining, PAGE - shown))
    ensures before <= pages && DataPages(pages, |before| + 1) && |pages| > |before|
    ensures var page := pages[|before|];
            && page.phys == prp2 && page.offset == 0 && (page.isList <==> remaining > 4096)
            && (page.isList ==> page.data == Bytes(mem, Some(prp2), 4096))
  {
    pages := before;
    var nMore := (remaining + PAGE - 1) / PAGE;
    if nMore == 1 {
      var pageBytes := Min(remaining, PAGE - shown);
      if pageBytes > 0 {
        var second := ReadPage(mem, prp2, 0, pageBytes, false);
        DataOfAppend(pages, second);
        pages := pages + [second];
      }
      return;
    }
    var listPage := ReadPage(mem, prp2, 0, Min(remaining, PAGE), true);
    DataOfAppend(pages, listPage);
    assert DataOf(pages + [listPage]) == DataOf(before);
    var show := Min(Min(nMore, PAGE / 8 - 1), 8);
    var entries := ReadEntries(mem, prp2, show);
    assert PageBehind(mem, prp2, show) == PageBehind(mem, prp2, nMore);
    pages := ListPages(mem, pages + [listPage], entries, remaining, shown);
  }

  /** `struct.unpack` of the list's first entries; a faulting list has none. */
  function ReadEntries(mem: Memory, at: nat, show: nat): (r: seq<nat>)
    ensures 1 < show <= 8 ==>
              match PageBehind(mem, at, show)
              case None => r == []
              case Some(page) => r != [] && r[0] == page
  {
    var raw := Read(mem, at, show * 8);
    if raw.Some? then Entries(raw.value) else []
  }

  // ---- agreement with the standard ----

  /** The list holds two slots at least, so its first slot is a data pointer and not the
      link to the next list page; a caller sees it from PRP2, or the transfer needs no list. */
  predicate FirstSlotIsData(prp1: nat, prp2: nat, total: nat) {
    prp1 % 4096 != 0 && prp1 % 4096 + total > 8192 ==> prp2 % 4096 <= 4080
  }

  lemma NeedsList(prp1: nat, total: nat)
    ensures Behind(prp1, total) > 0 && MorePages(prp1, total) > 1 <==> prp1 % 4096 != 0 && prp1 % 4096 + total > 8192
  {
  }

  lemma SecondPageIsEntry(mem: Memory, prp1: nat, prp2: nat, total: nat)
    requires FirstSlotIsData(prp1, prp2, total) && Behind(prp1, total) > 0 && MorePages(prp1, total) > 1
    requires SecondPage(mem, prp1, prp2, total).Some?
    ensures ListEntry(WordsOf(mem), prp2, 0, MorePages(prp1, total)) == SecondPage(mem, prp1, prp2, total)
  {
    var n := MorePages(prp1, total);
    NeedsList(prp1, total);
    ReadPrefix(mem, prp2, Min(n, 8) * 8, 8);
    WordIsRead(mem, prp2);
    assert (4096 - prp2 % 4096) / 8 >= 2;
    assert prp2 + 8 * 0 == prp2;
  }

  /** Where byte `k` lies, in the decoder's terms. */
  lemma PlaceOf(prp1: nat, total: nat, k: nat)
    requires k < total && k < 4096
    ensures var at, first := prp1 % 4096 + k, FirstBytes(prp1, total);
            if at < 4096 then k < first
            else k >= first && first < 4096 && at / 4096 == 1 && at % 4096 == k - first && Behind(prp1, total) > k - first
    ensures (prp1 % 4096 + total + 4095) / 4096 == MorePages(prp1, total) + 1
  {
  }

  /** The bytes shown are exactly the first bytes of the transfer, up to the 4 KB cap, for
      one-page, two-page and list layouts and any offset in the first page. */
  lemma ShownIsTransfer(mem: Memory, prp1: nat, prp2: nat, total: nat, k: nat)
    requires ReadsSucceed(mem, prp1, prp2, total) && FirstSlotIsData(prp1, prp2, total)
    requires k < total && k < 4096
    ensures var data := ShownData(mem, prp1, prp2, total);
            && |data| == (if total < 4096 then total else 4096)
            && TransferByte(mem, prp1, prp2, total, k) == Some(data[k])
  {
    var first := FirstBytes(prp1, total);
    PlaceOf(prp1, total, k);
    if k < first {
      ReadByte(mem, prp1, first, k);
    } else {
      var j := k - first;
      var second := SecondPage(mem, prp1, prp2, total).value;
      ReadByte(mem, second, Behind(prp1, total), j);
      if MorePages(prp1, total) > 1 {
        SecondPageIsEntry(mem, prp1, prp2, total);
      }
    }
  }

  ghost predicate Readable(mem: Memory, at: int, n: int) { forall a :: at <= a < at + n ==> mem(a).Some? }

  /** The reads that must succeed: the bytes of the first page; when bytes behind it are shown, of up to
      eight entries of the list, if the transfer needs one, and the bytes of the second page. */
  lemma ReadsExact(mem: Memory, prp1: nat, prp2: nat, total: nat)
    ensures var room, pages := 4096 - prp1 % 4096, (prp1 % 4096 + total + 4095) / 4096;
            var shown := if total < 4096 then total else 4096;
            ReadsSucceed(mem, prp1, prp2, total) <==>
              if shown <= room then Readable(mem, prp1, shown)
              else
                && Readable(mem, prp1, room)
                && if pages == 2 then Readable(mem, prp2, shown - room)
                   else
                     && Readable(mem, prp2, 8 * (if pages - 1 < 8 then pages - 1 else 8))
                     && Word64(mem, prp2).Some? && Readable(mem, Word64(mem, prp2).value, shown - room)
  {
    var first, behind, n := FirstBytes(prp1, total), Behind(prp1, total), MorePages(prp1, total);
    ReadFaults(mem, prp1, first);
    if behind > 0 {
      CutExact(prp1, total, 0, 0);
      if n > 1 {
        var show := Min(n, 8);
        ReadFaults(mem, prp2, show * 8);
        WordIsRead(mem, prp2);
        ReadFaults(mem, prp2, 8);
        if Read(mem, prp2, show * 8).Some? {
          ReadPrefix(mem, prp2, show * 8, 8);
          ReadFaults(mem, Word64(mem, prp2).value, behind);
        }
      } else {
        ReadFaults(mem, prp2, behind);
      }
    }
  }

  /** A failing read shows: fewer bytes than the cap allows. */
  lemma ShortOnFault(mem: Memory, prp1: nat, prp2: nat, total: nat)
    requires total > 0 && !ReadsSucceed(mem, prp1, prp2, total)
    ensures |ShownData(mem, prp1, prp2, total)| < (if total < 4096 then total else 4096)
  {
  }

  /** A memory in which the list's only slot links to a list page that points to page 0. */
  ghost predicate LinkedList(mem: Memory, prp2: nat) {
    && (forall a :: mem(a).Some?)
    && WordsOf(mem)(prp2) == Some(4096) && WordsOf(mem)(4096) == Some(0)
    && mem(4096) != mem(0)
  }

  lemma AlignedEntry(word: Words, n: nat)
    requires n > 0
    ensures ListEntry(word, 4096, 0, n) == word(4096)
  {
  }

  lemma FollowsLink(word: Words, prp2: nat, n: nat)
    requires word(prp2) == Some(4096) && word(4096) == Some(0) && prp2 % 4096 == 4088 && n > 1
    ensures ListEntry(word, prp2, 0, n) == Some(0)
  {
    AlignedEntry(word, n);
    LastSlot(word, prp2, n, 4096);
  }

  lemma LastSlot(word: Words, list: nat, n: nat, next: nat)
    requires list % 4096 == 4088 && n > 1 && next % 4096 == 0 && word(list) == Some(next)
    ensures ListEntry(word, list, 0, n) == ListEntry(word, next, 0, n)
  {
    assert (4096 - list % 4096) / 8 == 1 && list + 8 * 0 == list;
  }

  lemma ShowsLink(mem: Memory, prp1: nat, prp2: nat, total: nat)
    requires LinkedList(mem, prp2) && MorePages(prp1, total) > 1
    ensures SecondPage(mem, prp1, prp2, total) == Some(PAGE)
  {
    var n := Min(MorePages(prp1, total), 8) * 8;
    ReadTotal(mem, prp2, n);
    ReadPrefix(mem, prp2, n, 8);
    WordIsRead(mem, prp2);
  }

  /** Where all memory is readable and the second page is at PAGE, that page's bytes follow. */
  lemma ShownBehind(mem: Memory, prp1: nat, prp2: nat, total: nat)
    requires (forall a :: mem(a).Some?) && Behind(prp1, total) > 0 && SecondPage(mem, prp1, prp2, total) == Some(PAGE)
    ensures ReadsSucceed(mem, prp1, prp2, total) && |ShownData(mem, prp1, prp2, total)| == Shown(total)
    ensures Some(ShownData(mem, prp1, prp2, total)[FirstBytes(prp1, total)]) == mem(PAGE)
  {
    ReadTotal(mem, prp1, FirstBytes(prp1, total));
    ReadTotal(mem, PAGE, Behind(prp1, total));
    ReadByte(mem, PAGE, Behind(prp1, total), 0);
  }

  /** All reads succeed, as many bytes as there should be are shown, and byte `k` is not the one of the
      transfer. */
  ghost predicate Misread(mem: Memory, prp1: nat, prp2: nat, total: nat, k: nat) {
    var data := ShownData(mem, prp1, prp2, total);
    && ReadsSucceed(mem, prp1, prp2, total) && |data| == (if total < 4096 then total else 4096)
    && k < |data| && k < total && TransferByte(mem, prp1, prp2, total, k) != Some(data[k])
  }

  lemma LinkShown(mem: Memory, prp1: nat, prp2: nat, total: nat)
    requires LinkedList(mem, prp2) && MorePages(prp1, total) > 1 && Behind(prp1, total) > 0 && prp2 % 4096 == 4088
    ensures Misread(mem, prp1, prp2, total, FirstBytes(prp1, total))
  {
    ShowsLink(mem, prp1, prp2, total);
    ShownBehind(mem, prp1, prp2, total);
    LinkSkipped(mem, prp1, prp2, total);
  }

  /** Behind the first page, of a transfer that needs a list, the standard reads the list's first entry. */
  lemma TransferBehind(mem: Memory, prp1: nat, prp2: nat, total: nat, k: nat)
    requires k < total && k < 4096 && FirstBytes(prp1, total) <= k && MorePages(prp1, total) > 1
    ensures var entry := ListEntry(WordsOf(mem), prp2, 0, MorePages(prp1, total));
            TransferByte(mem, prp1, prp2, total, k) ==
            if entry.None? then None else mem(entry.value + (k - FirstBytes(prp1, total)))
  {
    PlaceOf(prp1, total, k);
  }

  /** The standard goes on to page 0. */
  lemma LinkSkipped(mem: Memory, prp1: nat, prp2: nat, total: nat)
    requires WordsOf(mem)(prp2) == Some(4096) && WordsOf(mem)(4096) == Some(0)
    requires MorePages(prp1, total) > 1 && Behind(prp1, total) > 0 && prp2 % 4096 == 4088
    ensures var k := FirstBytes(prp1, total);
            k < total && k < 4096 && TransferByte(mem, prp1, prp2, total, k) == mem(0)
  {
    FollowsLink(WordsOf(mem), prp2, MorePages(prp1, total));
    TransferBehind(mem, prp1, prp2, total, FirstBytes(prp1, total));
  }

  lemma LastSlotOfPage(prp1: nat, prp2: nat, total: nat)
    requires !FirstSlotIsData(prp1, prp2, total) && prp2 % 8 == 0
    ensures MorePages(prp1, total) > 1 && Behind(prp1, total) > 0 && prp2 % 4096 == 4088
  {
    NeedsList(prp1, total);
    LastAligned(prp2);
  }

  lemma LastAligned(at: nat)
    requires at % 8 == 0 && at % 4096 > 4080
    ensures at % 4096 == 4088
  {
    var q, r := at / 4096, at % 4096;
    assert at == 8 * (512 * q) + r;
    assert r % 8 == 0;
  }

  lemma SomeLink(prp2: nat) returns (mem: Memory)
    requires prp2 % 4096 == 4088
    ensures LinkedList(mem, prp2)
  {
    mem := (a: int) => if a == prp2 + 1 then Some(16) else if a == 0 then Some(1) else Some(0);
    LinkAside(prp2);
    HasLink(mem, prp2);
  }

  /** The condition is exact: an aligned list that starts in the last slot of a page and
      needs more than that slot is misread, for some memory content, as soon as it is
      shown at all. The decoder takes the link to the next list page for a data page. */
  lemma LinkTakenForData(prp1: nat, prp2: nat, total: nat) returns (mem: Memory)
    requires !FirstSlotIsData(prp1, prp2, total) && prp2 % 8 == 0
    ensures exists k :: Misread(mem, prp1, prp2, total, k)
  {
    LastSlotOfPage(prp1, prp2, total);
    mem := SomeLink(prp2);
    LinkShown(mem, prp1, prp2, total);
  }

  lemma HasLink(mem: Memory, at: nat)
    requires 0 < at && (at + 1 < PAGE || at + 1 >= PAGE + 8)
    requires forall a :: mem(a) == if a == at + 1 then Some(16) else if a == 0 then Some(1) else Some(0)
    ensures LinkedList(mem, at)
  {
    assert Word64(mem, at) == Some(0x100 * 16) && Word64(mem, 4096) == Some(0);
  }

  lemma LinkAside(prp2: nat)
    requires prp2 % PAGE == PAGE - 8
    ensures 0 < prp2 && (prp2 + 1 < PAGE || prp2 + 1 >= PAGE + 8)
  {
  }
}
