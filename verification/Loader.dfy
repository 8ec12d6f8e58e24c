/** addrspace.cc: building an address space for a program and loading it, page by page, into whatever
    frames are free. */
module Loader {
  import opened Words
  import opened BitMaps
  import opened SynchDisks
  import opened OpenFiles
  import opened Memory
  import opened Options

  const USER_STACK_SIZE := 1024

  datatype Segment = Segment(virtualAddr: int, inFileAddr: int, size: int)
  datatype Noff = Noff(code: Segment, initData: Segment, uninitData: Segment)

  /** A header whose code starts at virtual address 0 and is followed directly by the data, with sizes and
      file positions that are not negative and small enough for 32-bit arithmetic. */
  predicate Loadable(h: Noff) {
    && 0 <= h.code.size && 0 <= h.initData.size && 0 <= h.uninitData.size
    && 0 <= h.code.inFileAddr && 0 <= h.initData.inFileAddr
    && h.code.virtualAddr == 0 && h.initData.virtualAddr == h.code.size
    && h.code.inFileAddr + h.code.size + PAGE_SIZE <= INT_MAX
    && h.initData.inFileAddr + h.initData.size + PAGE_SIZE <= INT_MAX
    && SpaceSize(h) + PAGE_SIZE <= INT_MAX
  }

  function SpaceSize(h: Noff): int {
    h.code.size + h.initData.size + h.uninitData.size + USER_STACK_SIZE
  }

  /** Byte k of a file, or 0 past its end, where ReadAt delivers nothing. */
  ghost function FileByte(file: seq<Byte>, k: int): Byte {
    if 0 <= k < |file| then file[k] else 0
  }

  /** What the program must find at virtual address v: code, then initialised data, then zeros. */
  ghost function ImageByte(file: seq<Byte>, h: Noff, v: int): Byte {
    if v < h.code.size then FileByte(file, h.code.inFileAddr + v)
    else if v < h.code.size + h.initData.size then FileByte(file, h.initData.inFileAddr + (v - h.code.size))
    else 0
  }

  // ---- memory seen through a list of frames ---------------------------------------------------

  ghost predicate FramesOk(frames: seq<int>) {
    && (forall i :: 0 <= i < |frames| ==> 0 <= frames[i] < NUM_PHYS_PAGES)
    && (forall i, j :: 0 <= i < j < |frames| ==> frames[i] != frames[j])
  }

  ghost function PhysicalOf(frames: seq<int>, v: int): (p: int)
    requires FramesOk(frames) && 0 <= v < PAGE_SIZE * |frames|
    ensures 0 <= p < MEMORY_SIZE
  {
    frames[v / PAGE_SIZE] * PAGE_SIZE + v % PAGE_SIZE
  }

  /** A byte of memory in none of the frames. */
  ghost predicate Foreign(frames: seq<int>, p: int) {
    forall i :: 0 <= i < |frames| ==> p / PAGE_SIZE != frames[i]
  }

  /** Up to virtual address `done` the image is in place; beyond it is all zeros. */
  ghost predicate Loaded(mem: seq<Byte>, frames: seq<int>, file: seq<Byte>, h: Noff, done: int)
    requires |mem| == MEMORY_SIZE && FramesOk(frames)
  {
    forall v :: 0 <= v < PAGE_SIZE * |frames| ==>
      mem[PhysicalOf(frames, v)] == if v < done then ImageByte(file, h, v) else 0
  }

  ghost predicate OthersKept(old_: seq<Byte>, mem: seq<Byte>, frames: seq<int>)
    requires |old_| == |mem| == MEMORY_SIZE
  {
    forall p :: 0 <= p < MEMORY_SIZE && Foreign(frames, p) ==> mem[p] == old_[p]
  }

  /** Filling a stretch inside one page advances the load. */
  lemma StretchLoaded(mem: seq<Byte>, mem': seq<Byte>, frames: seq<int>, file: seq<Byte>, h: Noff, done: int, n: int)
    requires |mem| == MEMORY_SIZE == |mem'| && FramesOk(frames) && Loaded(mem, frames, file, h, done)
    requires 0 <= done && 0 <= n && done + n <= PAGE_SIZE * |frames| && (n > 0 ==> done % PAGE_SIZE + n <= PAGE_SIZE)
    requires n > 0 ==> forall p :: 0 <= p < MEMORY_SIZE ==>
      mem'[p] == if PhysicalOf(frames, done) <= p < PhysicalOf(frames, done) + n
                 then ImageByte(file, h, done + (p - PhysicalOf(frames, done))) else mem[p]
    requires n == 0 ==> mem' == mem
    ensures Loaded(mem', frames, file, h, done + n) && OthersKept(mem, mem', frames)
  {
    if n > 0 {
      forall v | 0 <= v < PAGE_SIZE * |frames|
        ensures mem'[PhysicalOf(frames, v)] == if v < done + n then ImageByte(file, h, v) else 0
      {
        StretchIs(frames, done, n, v);
      }
      forall p | 0 <= p < MEMORY_SIZE && Foreign(frames, p)
        ensures mem'[p] == mem[p]
      {
        StretchIsOwn(frames, done, n, p);
      }
    }
  }

  lemma StretchIsOwn(frames: seq<int>, done: int, n: int, p: int)
    requires FramesOk(frames) && 0 <= done && 0 < n && done + n <= PAGE_SIZE * |frames| && done % PAGE_SIZE + n <= PAGE_SIZE
    requires Foreign(frames, p)
    ensures !(PhysicalOf(frames, done) <= p < PhysicalOf(frames, done) + n)
  {
    var f := frames[done / PAGE_SIZE];
    if 0 <= p - f * PAGE_SIZE < PAGE_SIZE {
      InFrame(f, p - f * PAGE_SIZE);
    }
  }

  /** A virtual address is stored in the stretch exactly when it is one of the stretch's. */
  lemma StretchIs(frames: seq<int>, done: int, n: int, v: int)
    requires FramesOk(frames) && 0 <= done && 0 < n && done + n <= PAGE_SIZE * |frames| && done % PAGE_SIZE + n <= PAGE_SIZE
    requires 0 <= v < PAGE_SIZE * |frames|
    ensures var base, p := PhysicalOf(frames, done), PhysicalOf(frames, v);
      (base <= p < base + n <==> done <= v < done + n) && (done <= v < done + n ==> p - base == v - done)
  {
    var f, g := frames[done / PAGE_SIZE], frames[v / PAGE_SIZE];
    if v / PAGE_SIZE == done / PAGE_SIZE {
      assert f == g;
    } else {
      assert f != g;
    }
  }

  // ---- allocating pages -----------------------------------------------------------------------

  ghost function FrameSet(frames: seq<int>): set<int> {
    set f | f in frames
  }

  /** All bytes of the space are zero. */
  ghost predicate AllZero(mem: seq<Byte>, frames: seq<int>)
    requires |mem| == MEMORY_SIZE
  {
    forall p :: 0 <= p < MEMORY_SIZE && !Foreign(frames, p) ==> mem[p] == 0
  }

  lemma ZeroIsLoaded(mem: seq<Byte>, frames: seq<int>, file: seq<Byte>, h: Noff)
    requires |mem| == MEMORY_SIZE && FramesOk(frames) && AllZero(mem, frames)
    ensures Loaded(mem, frames, file, h, 0)
  {
    forall v | 0 <= v < PAGE_SIZE * |frames|
      ensures mem[PhysicalOf(frames, v)] == 0
    {
      InFrame(frames[v / PAGE_SIZE], v % PAGE_SIZE);
      assert !Foreign(frames, PhysicalOf(frames, v));
    }
  }

  /** bzero of one frame. */
  method ZeroFrame(mem: array<Byte>, frame: nat)
    requires mem.Length == MEMORY_SIZE && frame < NUM_PHYS_PAGES
    modifies mem
    ensures forall p :: 0 <= p < MEMORY_SIZE ==> mem[p] == if p / PAGE_SIZE == frame then 0 else old(mem[p])
  {
    for k := 0 to PAGE_SIZE
      invariant forall p :: 0 <= p < MEMORY_SIZE ==>
        mem[p] == if frame * PAGE_SIZE <= p < frame * PAGE_SIZE + k then 0 else old(mem[p])
    {
      mem[frame * PAGE_SIZE + k] := 0;
    }
  }

  lemma OneMoreFrame(frames: seq<int>, f: int, used: set<int>)
    requires FramesOk(frames) && 0 <= f < NUM_PHYS_PAGES && f !in used && f !in frames && FrameSet(frames) !! used
    ensures FramesOk(frames + [f]) && FrameSet(frames + [f]) == FrameSet(frames) + {f} && FrameSet(frames + [f]) !! used
  {
  }

  lemma OneMoreZero(old_: seq<Byte>, mem: seq<Byte>, mem': seq<Byte>, frames: seq<int>, f: int)
    requires |old_| == |mem| == |mem'| == MEMORY_SIZE && AllZero(mem, frames) && OthersKept(old_, mem, frames)
    requires forall p :: 0 <= p < MEMORY_SIZE ==> mem'[p] == if p / PAGE_SIZE == f then 0 else mem[p]
    ensures AllZero(mem', frames + [f]) && OthersKept(old_, mem', frames + [f])
  {
    forall p | 0 <= p < MEMORY_SIZE
      ensures Foreign(frames + [f], p) <==> Foreign(frames, p) && p / PAGE_SIZE != f
    {
      assert (frames + [f])[|frames|] == f;
      assert forall i :: 0 <= i < |frames| ==> (frames + [f])[i] == frames[i];
    }
  }

  ghost predicate Maps(table: seq<TranslationEntry>, frames: seq<int>) {
    |table| == |frames| && forall i :: 0 <= i < |table| ==> table[i] == TranslationEntry(i, frames[i], true, false, false, false)
  }

  /** The state after some pages have been given frames. */
  ghost predicate Allocated(frames: seq<int>, used: set<int>, bits: set<int>, old_: seq<Byte>, mem: seq<Byte>) {
    && FramesOk(frames) && FrameSet(frames) !! used && bits == used + FrameSet(frames) && |bits| == |used| + |frames|
    && |old_| == |mem| == MEMORY_SIZE && AllZero(mem, frames) && OthersKept(old_, mem, frames)
  }

  lemma NoneAllocated(used: set<int>, mem: seq<Byte>)
    requires |mem| == MEMORY_SIZE
    ensures Allocated([], used, used, mem, mem)
  {
    assert FrameSet([]) == {};
  }

  /** Find a free frame and clear it. */
  method TakeFrame(phys: BitMap, mem: array<Byte>, ghost frames: seq<int>, ghost used: set<int>, ghost old_: seq<Byte>) returns (frame: int)
    requires phys.Valid() && phys.numBits == NUM_PHYS_PAGES && mem.Length == MEMORY_SIZE
    requires Allocated(frames, used, phys.Bits(), old_, mem[..]) && |phys.Bits()| < NUM_PHYS_PAGES
    modifies phys.words, mem
    ensures Allocated(frames + [frame], used, phys.Bits(), old_, mem[..])
  {
    frame := phys.Find();
    ghost var bits := phys.Bits();
    OneMoreFrame(frames, frame, used);
    ghost var before := mem[..];
    ZeroFrame(mem, frame);
    assert phys.Bits() == bits;
    OneMoreZero(old_, before, mem[..], frames, frame);
  }

  /** Give each page of the space a free frame, and clear it. */
  method AllocatePages(phys: BitMap, mem: array<Byte>, numPages: nat) returns (table: seq<TranslationEntry>, ghost frames: seq<int>)
    requires phys.Valid() && phys.numBits == NUM_PHYS_PAGES && mem.Length == MEMORY_SIZE
    requires numPages <= NUM_PHYS_PAGES - |phys.Bits()|
    modifies phys.words, mem
    ensures Allocated(frames, old(phys.Bits()), phys.Bits(), old(mem[..]), mem[..])
    ensures |frames| == numPages && Maps(table, frames)
  {
    table, frames := [], [];
    ghost var used, before := phys.Bits(), mem[..];
    NoneAllocated(used, before);
    for i := 0 to numPages
      invariant Allocated(frames, used, phys.Bits(), before, mem[..])
      invariant |frames| == i && Maps(table, frames)
    {
      table, frames := TakePage(phys, mem, table, frames, used, before);
    }
  }

  /** One more page: a frame and the entry that maps it. */
  method TakePage(phys: BitMap, mem: array<Byte>, table: seq<TranslationEntry>, ghost frames: seq<int>, ghost used: set<int>,
                  ghost old_: seq<Byte>)
    returns (table': seq<TranslationEntry>, ghost frames': seq<int>)
    requires phys.Valid() && phys.numBits == NUM_PHYS_PAGES && mem.Length == MEMORY_SIZE
    requires Allocated(frames, used, phys.Bits(), old_, mem[..]) && |used| + |frames| < NUM_PHYS_PAGES && Maps(table, frames)
    modifies phys.words, mem
    ensures Allocated(frames', used, phys.Bits(), old_, mem[..])
    ensures |frames'| == |frames| + 1 && Maps(table', frames')
  {
    var frame := TakeFrame(phys, mem, frames, used, old_);
    OneMoreEntry(table, frames, frame);
    table' := table + [TranslationEntry(|table|, frame, true, false, false, false)];
    frames' := frames + [frame];
  }

  lemma OneMoreEntry(table: seq<TranslationEntry>, frames: seq<int>, f: int)
    requires Maps(table, frames)
    ensures Maps(table + [TranslationEntry(|table|, f, true, false, false, false)], frames + [f])
  {
  }

  // ---- loading ----------------------------------------------------------------------------------

  /** Reading part of the file over zeros puts the image in place, even where the file ends early. */
  lemma PartIsImage(mem: seq<Byte>, mem': seq<Byte>, frames: seq<int>, file: seq<Byte>, h: Noff, done: int, at: int, n: int, from: int)
    requires |mem| == MEMORY_SIZE == |mem'| && FramesOk(frames) && Loaded(mem, frames, file, h, done)
    requires 0 <= done && 0 < n && done + n <= PAGE_SIZE * |frames| && done % PAGE_SIZE + n <= PAGE_SIZE && 0 <= from
    requires at == PhysicalOf(frames, done) && at + n <= MEMORY_SIZE && ReadInto(mem, mem', file, at, n, from)
    requires ComesFrom(file, h, done, n, from)
    ensures forall p :: 0 <= p < MEMORY_SIZE ==> mem'[p] == if at <= p < at + n then ImageByte(file, h, done + (p - at)) else mem[p]
  {
    var got := Transfer(|file|, n, from);
    forall p | at <= p < at + n
      ensures mem'[p] == ImageByte(file, h, done + (p - at))
    {
      var v := done + (p - at);
      StretchIs(frames, done, n, v);
      assert mem[p] == 0;
      assert ImageByte(file, h, v) == FileByte(file, from + (p - at));
    }
  }

  /** Copy n bytes of the executable from file position `from` to virtual page `page`, `skip` bytes in. */
  method CopyPart(exe: OpenFile, mem: array<Byte>, table: seq<TranslationEntry>, ghost frames: seq<int>, ghost h: Noff,
                  page: nat, skip: nat, n: int, from: int, ghost done: int)
    requires exe.Valid() && mem.Length == MEMORY_SIZE && FramesOk(frames) && Maps(table, frames)
    requires page < |table| && 0 < n && skip + n <= PAGE_SIZE && 0 <= from && from + n <= INT_MAX
    requires done == page * PAGE_SIZE + skip && Loaded(mem[..], frames, exe.Bytes(), h, done)
    requires ComesFrom(exe.Bytes(), h, done, n, from)
    modifies mem
    ensures Loaded(mem[..], frames, exe.Bytes(), h, done + n) && OthersKept(old(mem[..]), mem[..], frames)
  {
    var at := table[page].physicalPage * PAGE_SIZE + skip;
    PlaceIs(frames, page, skip, n);
    ghost var file, before := exe.Bytes(), mem[..];
    ReadOver(exe, mem, at, n, from);
    assert exe.Bytes() == file;
    PartLoaded(before, mem[..], frames, file, h, done, at, n, from);
  }

  /** The n bytes of the image from virtual address v0 on are those of the file from position `from` on. */
  ghost predicate ComesFrom(file: seq<Byte>, h: Noff, v0: int, n: int, from: int) {
    forall v :: v0 <= v < v0 + n ==> ImageByte(file, h, v) == FileByte(file, from + (v - v0))
  }

  lemma PlaceIs(frames: seq<int>, page: nat, skip: nat, n: int)
    requires FramesOk(frames) && page < |frames| && 0 < n && skip + n <= PAGE_SIZE
    ensures page * PAGE_SIZE + skip + n <= PAGE_SIZE * |frames| && frames[page] * PAGE_SIZE + skip + n <= MEMORY_SIZE
    ensures PhysicalOf(frames, page * PAGE_SIZE + skip) == frames[page] * PAGE_SIZE + skip
    ensures (page * PAGE_SIZE + skip) % PAGE_SIZE == skip
  {
    InFrame(page, skip);
  }

  lemma PartLoaded(mem: seq<Byte>, mem': seq<Byte>, frames: seq<int>, file: seq<Byte>, h: Noff, done: int, at: int, n: int, from: int)
    requires |mem| == MEMORY_SIZE == |mem'| && FramesOk(frames) && Loaded(mem, frames, file, h, done)
    requires 0 <= done && 0 < n && done + n <= PAGE_SIZE * |frames| && done % PAGE_SIZE + n <= PAGE_SIZE && 0 <= from
    requires at == PhysicalOf(frames, done) && at + n <= MEMORY_SIZE && ReadInto(mem, mem', file, at, n, from)
    requires ComesFrom(file, h, done, n, from)
    ensures Loaded(mem', frames, file, h, done + n) && OthersKept(mem, mem', frames)
  {
    PartIsImage(mem, mem', frames, file, h, done, at, n, from);
    StretchLoaded(mem, mem', frames, file, h, done, n);
  }

  /** What ReadAt makes of a buffer: the bytes the file has there, over those that were in it. */
  ghost predicate ReadInto(mem: seq<Byte>, mem': seq<Byte>, file: seq<Byte>, at: int, n: int, from: int)
    requires 0 <= at && 0 < n && at + n <= |mem| && 0 <= from
  {
    var got := Transfer(|file|, n, from);
    mem' == if got == 0 then mem else Splice(mem, at, file[from..from + got])
  }

  method ReadOver(exe: OpenFile, mem: array<Byte>, at: nat, n: int, from: int)
    requires exe.Valid() && 0 < n && at + n <= mem.Length && 0 <= from && from + n <= INT_MAX
    modifies mem
    ensures exe.Bytes() == old(exe.Bytes()) && ReadInto(old(mem[..]), mem[..], exe.Bytes(), at, n, from)
  {
    var got := exe.ReadAt(mem, at, n, from);
  }

  lemma KeptTwice(a: seq<Byte>, b: seq<Byte>, c: seq<Byte>, frames: seq<int>)
    requires |a| == |b| == |c| == MEMORY_SIZE && OthersKept(a, b, frames) && OthersKept(b, c, frames)
    ensures OthersKept(a, c, frames)
  {
  }

  function Min(a: int, b: int): int {
    if a < b then a else b
  }

  method LoadCode(exe: OpenFile, mem: array<Byte>, table: seq<TranslationEntry>, ghost frames: seq<int>, h: Noff, numCodePage: nat, lastCodePageSize: int)
    requires exe.Valid() && mem.Length == MEMORY_SIZE && FramesOk(frames) && Maps(table, frames) && Loadable(h)
    requires Loaded(mem[..], frames, exe.Bytes(), h, 0) && h.code.size <= PAGE_SIZE * |frames|
    requires numCodePage == DivRoundUp(h.code.size, PAGE_SIZE) && lastCodePageSize == h.code.size - (numCodePage - 1) * PAGE_SIZE
    modifies mem
    ensures Loaded(mem[..], frames, exe.Bytes(), h, h.code.size) && OthersKept(old(mem[..]), mem[..], frames)
  {
    for i := 0 to numCodePage
      invariant Loaded(mem[..], frames, exe.Bytes(), h, Min(i * PAGE_SIZE, h.code.size))
      invariant OthersKept(old(mem[..]), mem[..], frames)
    {
      ghost var before := mem[..];
      CopyPart(exe, mem, table, frames, h, i, 0, if i < numCodePage - 1 then PAGE_SIZE else lastCodePageSize,
               h.code.inFileAddr + i * PAGE_SIZE, i * PAGE_SIZE);
      KeptTwice(old(mem[..]), before, mem[..], frames);
    }
  }

  method LoadData(exe: OpenFile, mem: array<Byte>, table: seq<TranslationEntry>, ghost frames: seq<int>, h: Noff,
                  numCodePage: nat, numDataPage: nat, lastDataPageSize: int, firstDataPageSize: int)
    requires exe.Valid() && mem.Length == MEMORY_SIZE && FramesOk(frames) && Maps(table, frames) && Loadable(h)
    requires 0 <= firstDataPageSize <= h.initData.size && h.code.size + h.initData.size <= PAGE_SIZE * |frames|
    requires Loaded(mem[..], frames, exe.Bytes(), h, h.code.size + firstDataPageSize)
    requires h.code.size + firstDataPageSize == numCodePage * PAGE_SIZE
    requires numDataPage == DivRoundUp(h.initData.size - firstDataPageSize, PAGE_SIZE)
    requires lastDataPageSize == h.initData.size - firstDataPageSize - (numDataPage - 1) * PAGE_SIZE
    modifies mem
    ensures Loaded(mem[..], frames, exe.Bytes(), h, h.code.size + h.initData.size) && OthersKept(old(mem[..]), mem[..], frames)
  {
    for j := 0 to numDataPage
      invariant Loaded(mem[..], frames, exe.Bytes(), h, h.code.size + Min(firstDataPageSize + j * PAGE_SIZE, h.initData.size))
      invariant OthersKept(old(mem[..]), mem[..], frames)
    {
      ghost var before := mem[..];
      var n := if j < numDataPage - 1 then PAGE_SIZE else lastDataPageSize;
      DataPageFits(h, numCodePage, numDataPage, lastDataPageSize, firstDataPageSize, j, n, |frames|);
      var from := h.initData.inFileAddr + j * PAGE_SIZE + firstDataPageSize;
      DataComes(exe.Bytes(), h, firstDataPageSize, j, n);
      assert ComesFrom(exe.Bytes(), h, (numCodePage + j) * PAGE_SIZE, n, from);
      CopyPart(exe, mem, table, frames, h, numCodePage + j, 0, n, from, (numCodePage + j) * PAGE_SIZE);
      KeptTwice(old(mem[..]), before, mem[..], frames);
    }
  }

  /** Data page j starts where the one before it ended, and is in the space. */
  lemma DataPageFits(h: Noff, numCodePage: nat, numDataPage: nat, lastDataPageSize: int, firstDataPageSize: int, j: nat, n: int,
                     pages: nat)
    requires Loadable(h) && 0 <= firstDataPageSize <= h.initData.size && h.code.size + h.initData.size <= PAGE_SIZE * pages
    requires h.code.size + firstDataPageSize == numCodePage * PAGE_SIZE
    requires numDataPage == DivRoundUp(h.initData.size - firstDataPageSize, PAGE_SIZE) && j < numDataPage
    requires lastDataPageSize == h.initData.size - firstDataPageSize - (numDataPage - 1) * PAGE_SIZE
    requires n == if j < numDataPage - 1 then PAGE_SIZE else lastDataPageSize
    ensures 0 < n <= PAGE_SIZE && numCodePage + j < pages && firstDataPageSize + j * PAGE_SIZE + n <= h.initData.size
    ensures h.code.size + Min(firstDataPageSize + j * PAGE_SIZE, h.initData.size) == (numCodePage + j) * PAGE_SIZE
    ensures h.code.size + Min(firstDataPageSize + (j + 1) * PAGE_SIZE, h.initData.size) == (numCodePage + j) * PAGE_SIZE + n
  {
  }

  lemma DataComes(file: seq<Byte>, h: Noff, first: int, j: nat, n: int)
    requires Loadable(h) && 0 <= first && 0 < n && first + j * PAGE_SIZE + n <= h.initData.size
    ensures ComesFrom(file, h, h.code.size + first + j * PAGE_SIZE, n, h.initData.inFileAddr + j * PAGE_SIZE + first)
  {
  }

  /** How a program is laid out: its code pages and how full the last one is; what of the data goes into the
      rest of that page; and the data pages after it and how full the last of those is. */
  datatype Layout = Layout(numCodePage: nat, lastCodePageSize: int, tempDataSize: int,
                           numDataPage: nat, lastDataPageSize: int, firstDataPageSize: int)

  ghost predicate LaidOut(h: Noff, l: Layout)
    requires Loadable(h)
  {
    && l.numCodePage == DivRoundUp(h.code.size, PAGE_SIZE)
    && l.lastCodePageSize == h.code.size - (l.numCodePage - 1) * PAGE_SIZE
    && 0 < l.lastCodePageSize <= PAGE_SIZE && 0 <= l.firstDataPageSize <= h.initData.size
    && l.lastCodePageSize + l.firstDataPageSize <= PAGE_SIZE
    && (l.lastCodePageSize < PAGE_SIZE ==> l.numCodePage > 0)
    && (l.lastCodePageSize == PAGE_SIZE ==> l.firstDataPageSize == 0)
    && (l.tempDataSize < 0 ==> l.firstDataPageSize == h.initData.size)
    && (l.tempDataSize >= 0 ==>
          && h.code.size + l.firstDataPageSize == l.numCodePage * PAGE_SIZE
          && l.numDataPage == DivRoundUp(h.initData.size - l.firstDataPageSize, PAGE_SIZE)
          && l.lastDataPageSize == h.initData.size - l.firstDataPageSize - (l.numDataPage - 1) * PAGE_SIZE)
  }

  /** The six sizes the constructor computes before it copies anything. */
  method ComputeLayout(h: Noff) returns (l: Layout)
    requires Loadable(h)
    ensures LaidOut(h, l)
  {
    var numCodePage := DivRoundUp(h.code.size, PAGE_SIZE);
    var lastCodePageSize := h.code.size - (numCodePage - 1) * PAGE_SIZE;
    var tempDataSize := h.initData.size - (PAGE_SIZE - lastCodePageSize);
    if tempDataSize < 0 {
      l := Layout(numCodePage, lastCodePageSize, tempDataSize, 0, 0, h.initData.size);
    } else {
      var numDataPage := DivRoundUp(tempDataSize, PAGE_SIZE);
      l := Layout(numCodePage, lastCodePageSize, tempDataSize, numDataPage,
                  tempDataSize - (numDataPage - 1) * PAGE_SIZE, PAGE_SIZE - lastCodePageSize);
    }
  }

  /** The part of the data that shares the last code page. */
  method LoadShared(exe: OpenFile, mem: array<Byte>, table: seq<TranslationEntry>, ghost frames: seq<int>, h: Noff, l: Layout)
    requires exe.Valid() && mem.Length == MEMORY_SIZE && FramesOk(frames) && Maps(table, frames) && Loadable(h) && LaidOut(h, l)
    requires h.code.size + h.initData.size <= PAGE_SIZE * |frames| && Loaded(mem[..], frames, exe.Bytes(), h, h.code.size)
    modifies mem
    ensures Loaded(mem[..], frames, exe.Bytes(), h, h.code.size + l.firstDataPageSize) && OthersKept(old(mem[..]), mem[..], frames)
  {
    if l.lastCodePageSize < PAGE_SIZE && l.firstDataPageSize > 0 {
      CopyPart(exe, mem, table, frames, h, l.numCodePage - 1, l.lastCodePageSize, l.firstDataPageSize, h.initData.inFileAddr, h.code.size);
    }
  }

  /** The copying part of the constructor: code pages, the data that shares the last code page, then the
      remaining data pages. */
  method LoadSegments(exe: OpenFile, mem: array<Byte>, table: seq<TranslationEntry>, ghost frames: seq<int>, h: Noff)
    requires exe.Valid() && mem.Length == MEMORY_SIZE && FramesOk(frames) && Maps(table, frames) && Loadable(h)
    requires SpaceSize(h) <= PAGE_SIZE * |frames| && Loaded(mem[..], frames, exe.Bytes(), h, 0)
    modifies mem
    ensures Loaded(mem[..], frames, exe.Bytes(), h, h.code.size + h.initData.size) && OthersKept(old(mem[..]), mem[..], frames)
  {
    var l := ComputeLayout(h);
    LoadCode(exe, mem, table, frames, h, l.numCodePage, l.lastCodePageSize);
    ghost var coded := mem[..];
    LoadShared(exe, mem, table, frames, h, l);
    ghost var shared := mem[..];
    KeptTwice(old(mem[..]), coded, shared, frames);
    if l.tempDataSize >= 0 {
      LoadData(exe, mem, table, frames, h, l.numCodePage, l.numDataPage, l.lastDataPageSize, l.firstDataPageSize);
      KeptTwice(old(mem[..]), shared, mem[..], frames);
    }
  }

  // ---- the address space ------------------------------------------------------------------------

  /** Through the page table, memory holds the program: every virtual byte is readable and is the byte of
      the image. */
  ghost predicate Shows(mem: Bytes, table: seq<TranslationEntry>, file: seq<Byte>, h: Noff) {
    forall v: Word :: v < PAGE_SIZE * |table| ==>
      && Fault(table, v, 1, false) == NoException
      && mem[Physical(table, v, 1, false)] == ImageByte(file, h, v)
  }

  /** The value a reference of this size finds at v, made of the bytes of the image as ReadMem makes it of the
      bytes of memory. */
  ghost function ImageValue(file: seq<Byte>, h: Noff, v: int, size: int): Word
    requires size == 1 || size == 2 || size == 4
  {
    var b0: int, b1: int, b2: int, b3: int :=
      ImageByte(file, h, v), ImageByte(file, h, v + 1), ImageByte(file, h, v + 2), ImageByte(file, h, v + 3);
    if size == 4 then b0 + 0x100 * b1 + 0x1_0000 * b2 + 0x100_0000 * b3
    else if size == 2 then b0 + 0x100 * b1
    else if b0 >= 0x80 then b0 + 0xffff_ff00 else b0
  }

  /** Every aligned reference inside the space, an instruction fetch for one, reads the image. */
  ghost predicate ReadsImage(mem: Bytes, table: seq<TranslationEntry>, file: seq<Byte>, h: Noff) {
    forall v: Word, size :: (size == 1 || size == 2 || size == 4) && v % size == 0 && v < PAGE_SIZE * |table| ==>
      ReadMem(Space(mem, table), v, size).0 == Some(ImageValue(file, h, v, size))
  }

  /** The bytes of an aligned reference lie one after another, in memory as in the space. */
  lemma AlignedBytes(table: seq<TranslationEntry>, v: Word, size: int, k: int)
    requires (size == 1 || size == 2 || size == 4) && v % size == 0 && v < PAGE_SIZE * |table| && 0 <= k < size
    requires Fault(table, v, 1, false) == NoException
    ensures Fault(table, v, size, false) == NoException && v + k < PAGE_SIZE * |table| && v + k < 0x1_0000_0000
    ensures Fault(table, v + k, 1, false) == NoException
    ensures Physical(table, v + k, 1, false) == Physical(table, v, size, false) + k
  {
    StaysInPage(v, size, table[v / PAGE_SIZE].physicalPage);
    SamePage(v, k);
  }

  lemma SamePage(v: int, k: int)
    requires 0 <= v && 0 <= k && v % PAGE_SIZE + k < PAGE_SIZE
    ensures (v + k) / PAGE_SIZE == v / PAGE_SIZE && (v + k) % PAGE_SIZE == v % PAGE_SIZE + k
  {
  }

  lemma ShownByte(mem: Bytes, table: seq<TranslationEntry>, file: seq<Byte>, h: Noff, v: Word, size: int, k: int)
    requires Shows(mem, table, file, h)
    requires (size == 1 || size == 2 || size == 4) && v % size == 0 && v < PAGE_SIZE * |table| && 0 <= k < size
    ensures Fault(table, v, size, false) == NoException
    ensures mem[Physical(table, v, size, false) + k] == ImageByte(file, h, v + k)
  {
    AlignedBytes(table, v, size, k);
    assert mem[Physical(table, v + k, 1, false)] == ImageByte(file, h, v + k);
  }

  lemma ShownIsRead(mem: Bytes, table: seq<TranslationEntry>, file: seq<Byte>, h: Noff, v: Word, size: int)
    requires Shows(mem, table, file, h)
    requires (size == 1 || size == 2 || size == 4) && v % size == 0 && v < PAGE_SIZE * |table|
    ensures ReadMem(Space(mem, table), v, size).0 == Some(ImageValue(file, h, v, size))
  {
    ShownByte(mem, table, file, h, v, size, 0);
    if size >= 2 {
      ShownByte(mem, table, file, h, v, size, 1);
    }
    if size == 4 {
      ShownByte(mem, table, file, h, v, size, 2);
      ShownByte(mem, table, file, h, v, size, 3);
    }
    FetchIs(mem, Physical(table, v, size, false), file, h, v, size);
  }

  lemma FetchIs(mem: Bytes, p: nat, file: seq<Byte>, h: Noff, v: int, size: int)
    requires (size == 1 || size == 2 || size == 4) && p + size <= MEMORY_SIZE && mem[p] == ImageByte(file, h, v)
    requires size >= 2 ==> mem[p + 1] == ImageByte(file, h, v + 1)
    requires size == 4 ==> mem[p + 2] == ImageByte(file, h, v + 2) && mem[p + 3] == ImageByte(file, h, v + 3)
    ensures Fetch(mem, p, size) == ImageValue(file, h, v, size)
  {
  }

  lemma ShowsIsReads(mem: Bytes, table: seq<TranslationEntry>, file: seq<Byte>, h: Noff)
    requires Shows(mem, table, file, h)
    ensures ReadsImage(mem, table, file, h)
  {
    forall v: Word, size | (size == 1 || size == 2 || size == 4) && v % size == 0 && v < PAGE_SIZE * |table|
      ensures ReadMem(Space(mem, table), v, size).0 == Some(ImageValue(file, h, v, size))
    {
      ShownIsRead(mem, table, file, h, v, size);
    }
  }

  /** The space has room for the program and its stack and not a page more than that takes; every byte of it can be
      read and written, and all that is not initialised reads zero. */
  ghost predicate HoldsProgram(mem: Bytes, table: seq<TranslationEntry>, h: Noff) {
    var initialised := h.code.size + h.initData.size;
    var all := initialised + h.uninitData.size + 1024;
    && PAGE_SIZE * (|table| - 1) < all <= PAGE_SIZE * |table|
    && (forall v: Word :: v < all ==> Fault(table, v, 1, false) == NoException && Fault(table, v, 1, true) == NoException)
    && (forall v: Word :: initialised <= v < all ==> ReadMem(Space(mem, table), v, 1).0 == Some(0))
  }

  lemma ShowsHolds(mem: Bytes, table: seq<TranslationEntry>, frames: seq<int>, file: seq<Byte>, h: Noff)
    requires Loadable(h) && FramesOk(frames) && Maps(table, frames) && Shows(mem, table, file, h)
    requires |table| == DivRoundUp(SpaceSize(h), PAGE_SIZE)
    ensures HoldsProgram(mem, table, h)
  {
    var all := h.code.size + h.initData.size + h.uninitData.size + 1024;
    RoundUpIsLeast(all, PAGE_SIZE);
    forall v: Word | v < all
      ensures Fault(table, v, 1, false) == NoException && Fault(table, v, 1, true) == NoException
      ensures h.code.size + h.initData.size <= v ==> ReadMem(Space(mem, table), v, 1).0 == Some(0)
    {
      assert table[v / PAGE_SIZE].physicalPage == frames[v / PAGE_SIZE];
      ShownIsRead(mem, table, file, h, v, 1);
    }
  }

  lemma LoadedShows(mem: Bytes, table: seq<TranslationEntry>, frames: seq<int>, file: seq<Byte>, h: Noff)
    requires FramesOk(frames) && Maps(table, frames) && Loadable(h)
    requires Loaded(mem, frames, file, h, h.code.size + h.initData.size)
    ensures Shows(mem, table, file, h)
  {
    forall v: Word | v < PAGE_SIZE * |table|
      ensures Fault(table, v, 1, false) == NoException && mem[Physical(table, v, 1, false)] == ImageByte(file, h, v)
    {
      assert Physical(table, v, 1, false) == PhysicalOf(frames, v);
    }
  }

  lemma MappedFrames(table: seq<TranslationEntry>, frames: seq<int>)
    requires Maps(table, frames)
    ensures Frames(table) == FrameSet(frames)
  {
    forall f | f in frames
      ensures f in Frames(table)
    {
      var i :| 0 <= i < |frames| && frames[i] == f;
      assert table[i].physicalPage == f;
    }
  }

  /** No byte outside the given frames differs. */
  ghost predicate OnlyFrames(old_: Bytes, mem: Bytes, frames: set<int>) {
    forall p :: 0 <= p < MEMORY_SIZE && p / PAGE_SIZE !in frames ==> mem[p] == old_[p]
  }

  /** Create the space and load the program, or fail for lack of frames and change nothing. */
  method BuildSpace(exe: OpenFile, h: Noff, phys: BitMap, mem: array<Byte>) returns (ok: bool, table: seq<TranslationEntry>)
    requires exe.Valid() && Loadable(h) && phys.Valid() && phys.numBits == NUM_PHYS_PAGES && mem.Length == MEMORY_SIZE
    modifies phys.words, mem
    ensures ok <==>
      h.code.size + h.initData.size + h.uninitData.size + 1024 <= PAGE_SIZE * (NUM_PHYS_PAGES - |old(phys.Bits())|)
    ensures !ok ==> mem[..] == old(mem[..]) && phys.Bits() == old(phys.Bits()) && table == []
    ensures ok ==> HoldsProgram(mem[..], table, h) && Shows(mem[..], table, exe.Bytes(), h)
    ensures ok ==> ReadsImage(mem[..], table, exe.Bytes(), h)
    ensures ok ==> Frames(table) !! old(phys.Bits()) && phys.Bits() == old(phys.Bits()) + Frames(table)
    ensures OnlyFrames(old(mem[..]), mem[..], Frames(table))
  {
    var numPages := DivRoundUp(SpaceSize(h), PAGE_SIZE);
    var clear := phys.NumClear();
    RoundUpIsLeast(SpaceSize(h), PAGE_SIZE);
    if numPages > clear {
      return false, [];
    }
    ghost var frames, file := [], exe.Bytes();
    table, frames := AllocatePages(phys, mem, numPages);
    ghost var zeroed, bits := mem[..], phys.Bits();
    ZeroIsLoaded(mem[..], frames, file, h);
    LoadSegments(exe, mem, table, frames, h);
    assert phys.Bits() == bits;
    LoadedShows(mem[..], table, frames, file, h);
    ShowsIsReads(mem[..], table, file, h);
    ShowsHolds(mem[..], table, frames, file, h);
    KeptTwice(old(mem[..]), zeroed, mem[..], frames);
    MappedFrames(table, frames);
    ForeignIs(old(mem[..]), mem[..], frames);
    return true, table;
  }

  lemma ForeignIs(old_: Bytes, mem: Bytes, frames: seq<int>)
    requires OthersKept(old_, mem, frames)
    ensures OnlyFrames(old_, mem, FrameSet(frames))
  {
    forall p | 0 <= p < MEMORY_SIZE && p / PAGE_SIZE !in FrameSet(frames)
      ensures Foreign(frames, p)
    {
      assert forall i :: 0 <= i < |frames| ==> frames[i] in frames;
    }
  }

  /** The spaces of all live processes: every frame of each is marked, and no two share one. */
  ghost predicate Apart(tables: seq<seq<TranslationEntry>>, used: set<int>) {
    && (forall i :: 0 <= i < |tables| ==> Frames(tables[i]) <= used)
    && (forall i, j :: 0 <= i < j < |tables| ==> Frames(tables[i]) !! Frames(tables[j]))
  }

  /** A space built from free frames is apart from all the others, and building it disturbed none. */
  lemma NewSpaceApart(tables: seq<seq<TranslationEntry>>, used: set<int>, table: seq<TranslationEntry>, old_: Bytes, mem: Bytes)
    requires Apart(tables, used) && Frames(table) !! used && OnlyFrames(old_, mem, Frames(table))
    ensures Apart(tables + [table], used + Frames(table))
    ensures forall i, v: Word, size :: 0 <= i < |tables| && (size == 1 || size == 2 || size == 4) ==>
      ReadMem(Space(mem, tables[i]), v, size).0 == ReadMem(Space(old_, tables[i]), v, size).0
  {
    forall i, v: Word, size | 0 <= i < |tables| && (size == 1 || size == 2 || size == 4)
      ensures ReadMem(Space(mem, tables[i]), v, size).0 == ReadMem(Space(old_, tables[i]), v, size).0
    {
      ReadUndisturbed(tables[i], Frames(table), old_, mem, v, size);
    }
  }

  lemma ReadUndisturbed(theirs: seq<TranslationEntry>, frames: set<int>, old_: Bytes, mem: Bytes, v: Word, size: int)
    requires Frames(theirs) !! frames && OnlyFrames(old_, mem, frames) && (size == 1 || size == 2 || size == 4)
    ensures ReadMem(Space(mem, theirs), v, size).0 == ReadMem(Space(old_, theirs), v, size).0
  {
    if Fault(theirs, v, size, false) == NoException {
      var p, f := Physical(theirs, v, size, false), theirs[v / PAGE_SIZE].physicalPage;
      assert f in Frames(theirs);
      assert forall k :: p <= k < p + size ==> k / PAGE_SIZE == f && mem[k] == old_[k];
    }
  }
}
