/** translate.cc: virtual memory through a linear page table, on a little-endian host. */
module Memory {
  import opened Words
  import opened Options

  const PAGE_SIZE := 512
  const NUM_PHYS_PAGES := 128
  const MEMORY_SIZE := NUM_PHYS_PAGES * PAGE_SIZE

  datatype ExceptionType =
    NoException | SyscallException | PageFaultException | ReadOnlyException | BusErrorException |
    AddressErrorException | OverflowException | IllegalInstrException

  datatype TranslationEntry = TranslationEntry(
    virtualPage: int, physicalPage: int, valid: bool, readOnly: bool, use: bool, dirty: bool)


  type Bytes = s: seq<Byte> | |s| == MEMORY_SIZE witness seq(MEMORY_SIZE, _ => 0)

  /** The contents of main memory and the page table in force. */
  datatype Space = Space(bytes: Bytes, table: seq<TranslationEntry>)

  /** The exception a reference of `size` bytes at a virtual address raises, if any. */
  function Fault(table: seq<TranslationEntry>, addr: Word, size: int, writing: bool): ExceptionType {
    var vpn := addr / PAGE_SIZE;
    if (size == 4 && addr % 4 != 0) || (size == 2 && addr % 2 != 0) then AddressErrorException
    else if vpn >= |table| then AddressErrorException
    else if !table[vpn].valid then PageFaultException
    else if table[vpn].readOnly && writing then ReadOnlyException
    else if table[vpn].physicalPage < 0 || table[vpn].physicalPage >= NUM_PHYS_PAGES then BusErrorException
    else NoException
  }

  /** The physical address; an aligned reference of 1, 2 or 4 bytes stays inside its page. */
  function Physical(table: seq<TranslationEntry>, addr: Word, size: int, writing: bool): (p: nat)
    requires Fault(table, addr, size, writing) == NoException && (size == 1 || size == 2 || size == 4)
    ensures p + size <= MEMORY_SIZE
    ensures p / PAGE_SIZE == table[addr / PAGE_SIZE].physicalPage == (p + size - 1) / PAGE_SIZE
  {
    StaysInPage(addr, size, table[addr / PAGE_SIZE].physicalPage);
    table[addr / PAGE_SIZE].physicalPage * PAGE_SIZE + addr % PAGE_SIZE
  }

  lemma StaysInPage(addr: Word, size: int, frame: int)
    requires size == 1 || (size == 2 && addr % 2 == 0) || (size == 4 && addr % 4 == 0)
    ensures addr % PAGE_SIZE + size <= PAGE_SIZE
    ensures (frame * PAGE_SIZE + addr % PAGE_SIZE) / PAGE_SIZE == frame
    ensures (frame * PAGE_SIZE + addr % PAGE_SIZE + size - 1) / PAGE_SIZE == frame
  {
    var q, off := addr / PAGE_SIZE, addr % PAGE_SIZE;
    assert addr == 512 * q + off;
    if size == 4 {
      assert off == 4 * (addr / 4 - 128 * q);
    } else if size == 2 {
      assert off == 2 * (addr / 2 - 256 * q);
    }
    InFrame(frame, off);
    InFrame(frame, off + size - 1);
  }

  lemma InFrame(frame: int, off: int)
    requires 0 <= off < PAGE_SIZE
    ensures (frame * PAGE_SIZE + off) / PAGE_SIZE == frame
  {
  }

  /** The table with the use bit, and on a write the dirty bit, of the page set. */
  function Touch(table: seq<TranslationEntry>, addr: Word, writing: bool): seq<TranslationEntry>
    requires addr / PAGE_SIZE < |table|
  {
    var e := table[addr / PAGE_SIZE];
    table[addr / PAGE_SIZE := e.(use := true, dirty := e.dirty || writing)]
  }

  /** The value read at a physical address: a byte is sign-extended, a half word is not. */
  function Fetch(bytes: Bytes, p: nat, size: int): Word
    requires (size == 1 || size == 2 || size == 4) && p + size <= MEMORY_SIZE
  {
    if size == 4 then WordAt(bytes, p)
    else if size == 2 then
      var lo: int, hi: int := bytes[p], bytes[p + 1];
      lo + 0x100 * hi
    else if bytes[p] >= 0x80 then
      var b: int := bytes[p];
      b + 0xffff_ff00
    else bytes[p]
  }

  function Store(bytes: Bytes, p: nat, size: int, value: Word): Bytes
    requires (size == 1 || size == 2 || size == 4) && p + size <= MEMORY_SIZE
  {
    var one := bytes[p := WordByte(value, 0)];
    if size == 1 then one else
    var two := one[p + 1 := WordByte(value, 1)];
    if size == 2 then two else two[p + 2 := WordByte(value, 2)][p + 3 := WordByte(value, 3)]
  }

  /** Machine::ReadMem: the value, or the exception raised; and the space with the use bit set. */
  function ReadMem(m: Space, addr: Word, size: int): (r: (Option<Word>, ExceptionType, Space))
    requires size == 1 || size == 2 || size == 4
  {
    var fault := Fault(m.table, addr, size, false);
    if fault != NoException then (None, fault, m)
    else (Some(Fetch(m.bytes, Physical(m.table, addr, size, false), size)), fault, m.(table := Touch(m.table, addr, false)))
  }

  function WriteMem(m: Space, addr: Word, size: int, value: Word): (r: (ExceptionType, Space))
    requires size == 1 || size == 2 || size == 4
  {
    var fault := Fault(m.table, addr, size, true);
    if fault != NoException then (fault, m)
    else (fault, Space(Store(m.bytes, Physical(m.table, addr, size, true), size, value), Touch(m.table, addr, true)))
  }

  // ---- properties -------------------------------------------------------------------------------

  /** What a reference of this size can hold of a word. */
  function Truncated(value: Word, size: int): Word
    requires size == 1 || size == 2 || size == 4
  {
    if size == 4 then value
    else if size == 2 then value % 0x1_0000
    else if value % 0x100 >= 0x80 then value % 0x100 + 0xffff_ff00 else value % 0x100
  }

  lemma FetchStored(bytes: Bytes, p: nat, size: int, value: Word)
    requires (size == 1 || size == 2 || size == 4) && p + size <= MEMORY_SIZE
    ensures Fetch(Store(bytes, p, size, value), p, size) == Truncated(value, size)
  {
    WordSplits(value);
  }

  /** Setting use and dirty bits changes no translation. */
  lemma TouchIsHarmless(table: seq<TranslationEntry>, addr: Word, w: bool, other: Word, size: int, writing: bool)
    requires addr / PAGE_SIZE < |table|
    ensures Fault(Touch(table, addr, w), other, size, writing) == Fault(table, other, size, writing)
    ensures Fault(table, other, size, writing) == NoException && (size == 1 || size == 2 || size == 4) ==>
      Physical(Touch(table, addr, w), other, size, writing) == Physical(table, other, size, writing)
  {
  }

  /** What was written is what is read back, cut to the size of the reference. */
  lemma ReadWritten(m: Space, addr: Word, size: int, value: Word)
    requires size == 1 || size == 2 || size == 4
    ensures WriteMem(m, addr, size, value).0 == NoException ==>
      ReadMem(WriteMem(m, addr, size, value).1, addr, size).0 == Some(Truncated(value, size))
  {
    if Fault(m.table, addr, size, true) == NoException {
      TouchIsHarmless(m.table, addr, true, addr, size, false);
      FetchStored(m.bytes, Physical(m.table, addr, size, true), size, value);
    }
  }

  /** The physical frames a table maps. */
  ghost function Frames(table: seq<TranslationEntry>): set<int> {
    set i | 0 <= i < |table| :: table[i].physicalPage
  }

  /** A store changes no byte outside the frame it goes to. */
  lemma StoreStaysInFrame(bytes: Bytes, p: nat, size: int, value: Word, q: nat, size': int)
    requires (size == 1 || size == 2 || size == 4) && p + size <= MEMORY_SIZE
    requires (size' == 1 || size' == 2 || size' == 4) && q + size' <= MEMORY_SIZE
    requires p / PAGE_SIZE == (p + size - 1) / PAGE_SIZE && q / PAGE_SIZE == (q + size' - 1) / PAGE_SIZE
    requires p / PAGE_SIZE != q / PAGE_SIZE
    ensures Fetch(Store(bytes, p, size, value), q, size') == Fetch(bytes, q, size')
  {
  }

  /** Address spaces with no frame in common do not see each other's writes. */
  lemma SpacesAreIsolated(bytes: Bytes, mine: seq<TranslationEntry>, theirs: seq<TranslationEntry>,
                          addr: Word, size: int, value: Word, other: Word, size': int)
    requires (size == 1 || size == 2 || size == 4) && (size' == 1 || size' == 2 || size' == 4)
    requires Frames(mine) !! Frames(theirs)
    ensures var after := WriteMem(Space(bytes, mine), addr, size, value).1.bytes;
      ReadMem(Space(after, theirs), other, size').0 == ReadMem(Space(bytes, theirs), other, size').0
  {
    if Fault(mine, addr, size, true) == NoException && Fault(theirs, other, size', false) == NoException {
      assert mine[addr / PAGE_SIZE].physicalPage in Frames(mine);
      assert theirs[other / PAGE_SIZE].physicalPage in Frames(theirs);
      StoreStaysInFrame(bytes, Physical(mine, addr, size, true), size, value, Physical(theirs, other, size', false), size');
    }
  }

  /** Which exception a reference raises: misalignment and the end of the space first, then an invalid page, then a
      write to a read-only page, then a frame that memory does not have; none, if and only if none of these. */
  lemma FaultExactly(table: seq<TranslationEntry>, addr: Word, size: int, writing: bool)
    requires size == 1 || size == 2 || size == 4
    ensures var f, vpn := Fault(table, addr, size, writing), addr / PAGE_SIZE;
      && (f == AddressErrorException <==> addr % size != 0 || addr >= PAGE_SIZE * |table|)
      && (f == PageFaultException <==> addr % size == 0 && vpn < |table| && !table[vpn].valid)
      && (f == ReadOnlyException <==> addr % size == 0 && vpn < |table| && table[vpn].valid && table[vpn].readOnly && writing)
      && (f == NoException <==>
            addr % size == 0 && vpn < |table| && table[vpn].valid && !(table[vpn].readOnly && writing) &&
            0 <= table[vpn].physicalPage < NUM_PHYS_PAGES)
      && (f == AddressErrorException || f == PageFaultException || f == ReadOnlyException || f == BusErrorException || f == NoException)
  {
    assert size == 1 ==> addr % size == 0;
  }

  /** The entries of a table, apart from what references mark in them. */
  ghost predicate SamePages(table: seq<TranslationEntry>, table': seq<TranslationEntry>) {
    |table'| == |table| && forall i :: 0 <= i < |table| ==>
      table'[i].(use := false, dirty := false) == table[i].(use := false, dirty := false)
  }

  /** A reference that succeeds marks its page as used, a write also as dirty; no other mark and nothing else in the
      table changes, and a reference that fails changes nothing at all. */
  lemma ReferenceMarks(m: Space, addr: Word, size: int, value: Word, i: int)
    requires (size == 1 || size == 2 || size == 4) && 0 <= i < |m.table|
    ensures var (v, fault, r) := ReadMem(m, addr, size);
      && r.bytes == m.bytes && SamePages(m.table, r.table) && (v.None? <==> fault != NoException) && (v.None? ==> r == m)
      && (v.Some? ==> r.table[i].dirty == m.table[i].dirty && r.table[i].use == (m.table[i].use || i == addr / PAGE_SIZE))
    ensures var (fault, w) := WriteMem(m, addr, size, value);
      && SamePages(m.table, w.table) && (fault != NoException ==> w == m)
      && (fault == NoException ==>
            w.table[i].dirty == (m.table[i].dirty || i == addr / PAGE_SIZE) && w.table[i].use == (m.table[i].use || i == addr / PAGE_SIZE))
  {
  }

  /** A write changes the bytes it refers to, to those of the value from the lowest up, and no others. */
  lemma WriteExactly(m: Space, addr: Word, size: int, value: Word, q: nat)
    requires (size == 1 || size == 2 || size == 4) && Fault(m.table, addr, size, true) == NoException && q < MEMORY_SIZE
    ensures var p := Physical(m.table, addr, size, true);
      WriteMem(m, addr, size, value).1.bytes[q] == if p <= q < p + size then WordByte(value, q - p) else m.bytes[q]
    ensures Physical(m.table, addr, size, true) == m.table[addr / PAGE_SIZE].physicalPage * PAGE_SIZE + addr % PAGE_SIZE
  {
  }
}
