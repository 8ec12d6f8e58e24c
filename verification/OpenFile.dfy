/** openfile.cc: byte-granular reads and writes on top of whole-sector transfers. */
module OpenFiles {
  import opened Words
  import opened Sequences
  import opened SynchDisks
  import opened FileHeaders

  /** How many bytes a request for numBytes at `position` moves, in a file of `length` bytes. */
  function Transfer(length: nat, numBytes: int, position: nat): (n: nat)
    ensures n > 0 ==> position + n <= length && n <= numBytes
  {
    if numBytes <= 0 || position >= length then 0
    else if position + numBytes > length then length - position
    else numBytes
  }

  /** A file's whole sectors end to end, including the slack after its last byte. */
  ghost function Blocks(d: Image, h: Header): (bytes: seq<Byte>)
    requires h.WellFormed()
    ensures |bytes| == SECTOR_SIZE * h.numSectors
  {
    seq(SECTOR_SIZE * h.numSectors, k requires 0 <= k < SECTOR_SIZE * h.numSectors => BlockByte(d, h, k))
  }

  ghost function BlockByte(d: Image, h: Header, k: int): Byte
    requires h.WellFormed() && 0 <= k < SECTOR_SIZE * h.numSectors
  {
    assert h.dataSectors[..h.numSectors][k / SECTOR_SIZE] in h.dataSectors[..h.numSectors];
    d[h.dataSectors[k / SECTOR_SIZE]][k % SECTOR_SIZE]
  }

  lemma FileIsPrefixOfBlocks(d: Image, h: Header)
    requires h.WellFormed()
    ensures h.numBytes <= |Blocks(d, h)| && FileBytes(d, h) == Blocks(d, h)[..h.numBytes]
  {
  }

  /** Sector i of a file is the i-th 512-byte block. */
  lemma BlockIs(d: Image, h: Header, i: nat)
    requires h.WellFormed() && i < h.numSectors
    ensures h.dataSectors[i] < NUM_SECTORS && h.dataSectors[i] in h.Data()
    ensures Blocks(d, h)[SECTOR_SIZE * i..SECTOR_SIZE * (i + 1)] == d[h.dataSectors[i]]
  {
    assert h.dataSectors[..h.numSectors][i] in h.dataSectors[..h.numSectors];
  }

  /** Overwriting sector i of a file replaces that block and nothing else of the file. */
  lemma BlockWritten(d: Image, h: Header, i: nat, s: Sector)
    requires h.WellFormed() && i < h.numSectors
    ensures h.dataSectors[i] < NUM_SECTORS && h.dataSectors[i] in h.Data()
    ensures Blocks(d[h.dataSectors[i] := s], h) == Splice(Blocks(d, h), SECTOR_SIZE * i, s)
  {
    BlockIs(d, h, i);
    var d' := d[h.dataSectors[i] := s];
    forall k | 0 <= k < SECTOR_SIZE * h.numSectors
      ensures Blocks(d', h)[k] == Splice(Blocks(d, h), SECTOR_SIZE * i, s)[k]
    {
      var taken := h.dataSectors[..h.numSectors];
      var j := k / SECTOR_SIZE;
      assert taken[j] == h.dataSectors[j] && taken[i] == h.dataSectors[i];
      assert h.dataSectors[j] == h.dataSectors[i] <==> j == i;
      assert Blocks(d', h)[k] == BlockByte(d', h, k) && Blocks(d, h)[k] == BlockByte(d, h, k);
      if j == i {
        assert Blocks(d', h)[k] == s[k - SECTOR_SIZE * i];
      } else {
        BlockIs(d, h, j);
        assert d'[h.dataSectors[j]] == d[h.dataSectors[j]];
      }
    }
  }

  lemma SliceOfSlice<T>(s: seq<T>, lo: nat, hi: nat, skip: nat, n: nat)
    requires lo <= hi <= |s| && lo + skip + n <= hi
    ensures s[lo..hi][skip..skip + n] == s[lo + skip..lo + skip + n]
  {
    var a, b := s[lo..hi][skip..skip + n], s[lo + skip..lo + skip + n];
    assert forall k :: 0 <= k < n ==> a[k] == b[k];
  }

  /** A stretch of a file's bytes, seen through a run of whole sectors that covers it. */
  lemma WindowOf(d: Image, h: Header, first: nat, last: nat, position: nat, n: nat)
    requires h.WellFormed() && first <= last < h.numSectors
    requires SECTOR_SIZE * first <= position && position + n <= h.numBytes && position + n <= SECTOR_SIZE * (last + 1)
    ensures var skip := position - SECTOR_SIZE * first;
      Blocks(d, h)[SECTOR_SIZE * first..SECTOR_SIZE * (last + 1)][skip..skip + n]
        == FileBytes(d, h)[position..position + n]
  {
    FileIsPrefixOfBlocks(d, h);
    SliceOfSlice(Blocks(d, h), SECTOR_SIZE * first, SECTOR_SIZE * (last + 1), position - SECTOR_SIZE * first, n);
    SliceOfSlice(Blocks(d, h), 0, h.numBytes, position, n);
  }

  /** `buf`, placed at offset `base` of a file, agrees with `bytes` except on lo..hi and past the end. */
  ghost predicate Agrees(buf: seq<Byte>, bytes: seq<Byte>, base: nat, lo: nat, hi: nat) {
    forall k :: base <= k < base + |buf| && k < |bytes| && !(lo <= k < hi) ==> buf[k - base] == bytes[k]
  }

  /** The bytes of the sector that starts at offset `at`, as far as they lie inside the file. */
  ghost function Part(bytes: seq<Byte>, at: nat): (p: seq<Byte>)
    requires at <= |bytes|
    ensures |p| <= SECTOR_SIZE
  {
    if at + SECTOR_SIZE > |bytes| then bytes[at..] else bytes[at..at + SECTOR_SIZE]
  }

  /** The buffer after reading back, if wanted, the sector that starts at offset `from` of the file. */
  ghost function FetchedPart(buf: seq<Byte>, at: nat, bytes: seq<Byte>, from: nat, wanted: bool): (r: seq<Byte>)
    requires from <= |bytes| && at + SECTOR_SIZE <= |buf|
    ensures |r| == |buf|
  {
    if wanted then Splice(buf, at, Part(bytes, from)) else buf
  }

  /** Reading back the first sector when it starts unaligned, and the last one when it ends
      unaligned and was not just read, covers every byte around the ones about to be replaced. */
  lemma EdgesAgree(bytes: seq<Byte>, base: nat, off: nat, position: nat, n: nat,
                   b0: seq<Byte>, b1: seq<Byte>, b2: seq<Byte>)
    requires base <= position < base + SECTOR_SIZE && base + off < position + n <= base + off + SECTOR_SIZE
    requires (off == 0 || off >= SECTOR_SIZE) && position + n <= |bytes| && |b0| == off + SECTOR_SIZE
    requires b1 == if position == base then b0 else Splice(b0, 0, Part(bytes, base))
    requires b2 == if position + n != base + off + SECTOR_SIZE && (off != 0 || position == base)
                   then Splice(b1, off, Part(bytes, base + off)) else b1
    ensures Agrees(b2, bytes, base, position, position + n)
  {
    forall k | base <= k < base + |b2| && k < |bytes| && !(position <= k < position + n)
      ensures b2[k - base] == bytes[k]
    {
      EdgeAgrees(bytes, base, off, position, n, b0, b1, b2, k);
    }
  }

  lemma Offsets(position: nat, n: nat, first: nat, last: nat, base: nat, off: int)
    requires n > 0 && first == position / SECTOR_SIZE && last == (position + n - 1) / SECTOR_SIZE
    requires base == first * SECTOR_SIZE && off == (last - first) * SECTOR_SIZE
    ensures base <= position < base + SECTOR_SIZE && base + off < position + n <= base + off + SECTOR_SIZE
    ensures if first == last then off == 0 else off >= SECTOR_SIZE
    ensures last * SECTOR_SIZE == base + off && (last + 1) * SECTOR_SIZE == base + off + SECTOR_SIZE
    ensures (1 + last - first) * SECTOR_SIZE == off + SECTOR_SIZE
  {
  }

  /** The same for one byte. */
  lemma EdgeAgrees(bytes: seq<Byte>, base: nat, off: nat, position: nat, n: nat,
                   b0: seq<Byte>, b1: seq<Byte>, b2: seq<Byte>, k: int)
    requires base <= position < base + SECTOR_SIZE && base + off < position + n <= base + off + SECTOR_SIZE
    requires (off == 0 || off >= SECTOR_SIZE) && position + n <= |bytes| && |b0| == off + SECTOR_SIZE
    requires b1 == if position == base then b0 else Splice(b0, 0, Part(bytes, base))
    requires b2 == if position + n != base + off + SECTOR_SIZE && (off != 0 || position == base)
                   then Splice(b1, off, Part(bytes, base + off)) else b1
    requires base <= k < base + |b2| && k < |bytes| && !(position <= k < position + n)
    ensures b2[k - base] == bytes[k]
  {
    if position != base {
      SpliceAt(b0, 0, Part(bytes, base), k - base);
    }
    if k >= base + off {
      PartAt(bytes, base + off, k);
    }
    if k < base + SECTOR_SIZE {
      PartAt(bytes, base, k);
    }
    SpliceAt(b1, off, Part(bytes, base + off), k - base);
  }

  lemma PartAt(bytes: seq<Byte>, at: nat, k: nat)
    requires at <= k < at + SECTOR_SIZE && k < |bytes|
    ensures k - at < |Part(bytes, at)| && Part(bytes, at)[k - at] == bytes[k]
  {
  }

  lemma SpliceAt(s: seq<Byte>, at: nat, piece: seq<Byte>, k: nat)
    requires at + |piece| <= |s| && k < |s|
    ensures Splice(s, at, piece)[k] == if at <= k < at + |piece| then piece[k - at] else s[k]
  {
  }

  lemma SpliceMore(s: seq<Byte>, at: nat, piece: seq<Byte>, m: nat, n: nat)
    requires m + n <= |piece| && at + |piece| <= |s|
    ensures Splice(Splice(s, at, piece[..m]), at + m, piece[m..m + n]) == Splice(s, at, piece[..m + n])
  {
  }

  /** bcopy between distinct buffers. */
  method Copy(src: array<Byte>, from: nat, dst: array<Byte>, to: nat, n: nat)
    requires src != dst && from + n <= src.Length && to + n <= dst.Length
    modifies dst
    ensures dst[..] == Splice(old(dst[..]), to, src[from..from + n])
  {
    for k := 0 to n
      invariant dst[..] == Splice(old(dst[..]), to, src[from..from + k])
    {
      dst[to + k] := src[from + k];
    }
  }

  class OpenFile {
    const disk: SynchDisk
    const hdr: Header
    var seekPosition: int

    /** Opening a file brings the header stored at `sector` into memory. */
    constructor (disk: SynchDisk, sector: int)
      requires disk.Valid() && 0 <= sector < NUM_SECTORS
      ensures this.disk == disk && seekPosition == 0
      ensures hdr == DecodeHeader(disk.Contents()[sector])
    {
      var h := new FileHeader();
      h.FetchFrom(disk, sector);
      this.disk := disk;
      hdr := h.Value();
      seekPosition := 0;
    }

    ghost predicate Valid() {
      disk.Valid() && hdr.WellFormed()
    }

    ghost function Bytes(): (bytes: seq<Byte>)
      requires Valid()
      reads disk.sectors
      ensures |bytes| == hdr.numBytes
    {
      FileBytes(disk.Contents(), hdr)
    }

    /** Fetch whole sectors first..last into a new buffer. */
    method FetchSectors(first: nat, last: nat) returns (buf: array<Byte>)
      requires Valid() && first <= last < hdr.numSectors
      ensures fresh(buf)
      ensures buf[..] == Blocks(disk.Contents(), hdr)[SECTOR_SIZE * first..SECTOR_SIZE * (last + 1)]
    {
      ghost var blocks := Blocks(disk.Contents(), hdr);
      buf := new Byte[(1 + last - first) * SECTOR_SIZE];
      for i := first to last + 1
        invariant disk.Contents() == old(disk.Contents())
        invariant buf[..SECTOR_SIZE * (i - first)] == blocks[SECTOR_SIZE * first..SECTOR_SIZE * i]
      {
        BlockIs(disk.Contents(), hdr, i);
        ghost var before := buf[..];
        disk.ReadSector(hdr.dataSectors[i], buf, (i - first) * SECTOR_SIZE);
        assert buf[..SECTOR_SIZE * (i + 1 - first)] == before[..SECTOR_SIZE * (i - first)] + disk.Contents()[hdr.dataSectors[i]];
        assert blocks[SECTOR_SIZE * first..SECTOR_SIZE * (i + 1)]
            == blocks[SECTOR_SIZE * first..SECTOR_SIZE * i] + blocks[SECTOR_SIZE * i..SECTOR_SIZE * (i + 1)];
      }
      assert buf[..] == buf[..SECTOR_SIZE * (last + 1 - first)];
    }

    method ReadAt(into: array<Byte>, at: nat, numBytes: int, position: int) returns (n: nat)
      requires Valid() && 0 <= position && position + numBytes <= INT_MAX
      requires at + Transfer(hdr.numBytes, numBytes, position) <= into.Length
      modifies into
      ensures n == Transfer(hdr.numBytes, numBytes, position)
      ensures n > 0 ==> into[..] == Splice(old(into[..]), at, Bytes()[position..position + n])
      ensures n == 0 ==> into[..] == old(into[..])
    {
      var fileLength := hdr.numBytes;
      if numBytes <= 0 || position >= fileLength {
        return 0;
      }
      n := numBytes;
      if position + numBytes > fileLength {
        n := fileLength - position;
      }
      var firstSector := position / SECTOR_SIZE;
      var lastSector := (position + n - 1) / SECTOR_SIZE;
      var buf := FetchSectors(firstSector, lastSector);
      var skip := position - firstSector * SECTOR_SIZE;
      assert buf[skip..skip + n] == Bytes()[position..position + n] by {
        WindowOf(disk.Contents(), hdr, firstSector, lastSector, position, n);
      }
      Copy(buf, skip, into, at, n);
    }

    /** Write the n bytes of `from` at `position`.  A first or last sector that is only partly
        overwritten is read back first, through ReadAt, so bytes past the end of the file stay
        arbitrary in the buffer and may reach the disk. */
    method WriteAt(from: seq<Byte>, numBytes: int, position: int) returns (n: nat)
      requires Valid() && 0 <= position && position + numBytes <= INT_MAX
      requires numBytes <= |from|
      modifies disk.sectors
      ensures n == Transfer(hdr.numBytes, numBytes, position)
      ensures n > 0 ==> Bytes() == Splice(old(Bytes()), position, from[..n])
      ensures n == 0 ==> disk.Contents() == old(disk.Contents())
      ensures forall s :: 0 <= s < NUM_SECTORS && s !in hdr.Data() ==> disk.Contents()[s] == old(disk.Contents())[s]
    {
      var fileLength := hdr.numBytes;
      if numBytes <= 0 || position >= fileLength {
        return 0;
      }
      n := numBytes;
      if position + numBytes > fileLength {
        n := fileLength - position;
      }
      var firstSector := position / SECTOR_SIZE;
      var lastSector := (position + n - 1) / SECTOR_SIZE;
      var buf := Compose(from[..n], position, firstSector, lastSector);
      StoreSectors(buf, firstSector, lastSector);
      FileIsPrefixOfBlocks(disk.Contents(), hdr);
      FileIsPrefixOfBlocks(old(disk.Contents()), hdr);
    }

    /** The sectors first..last as they must be written: the new bytes in place, and around them
        the bytes the file already has. */
    method Compose(from: seq<Byte>, position: nat, first: nat, last: nat) returns (buf: array<Byte>)
      requires Valid() && |from| > 0 && position + |from| <= hdr.numBytes
      requires first == position / SECTOR_SIZE && last == (position + |from| - 1) / SECTOR_SIZE
      ensures fresh(buf) && buf.Length == (1 + last - first) * SECTOR_SIZE
      ensures Agrees(buf[..], Splice(Bytes(), position, from), first * SECTOR_SIZE, 0, 0)
    {
      buf := FetchEdges(position, |from|, first, last);
      ghost var edges := buf[..];
      var to := position - first * SECTOR_SIZE;
      for k := 0 to |from|
        invariant buf[..] == Splice(edges, to, from[..k])
      {
        buf[to + k] := from[k];
      }
      assert from[..|from|] == from;
    }

    /** Read back whichever of the first and last sectors will be written only in part. */
    method FetchEdges(position: nat, n: nat, first: nat, last: nat) returns (buf: array<Byte>)
      requires Valid() && n > 0 && position + n <= hdr.numBytes
      requires first == position / SECTOR_SIZE && last == (position + n - 1) / SECTOR_SIZE
      ensures fresh(buf) && buf.Length == (1 + last - first) * SECTOR_SIZE
      ensures Agrees(buf[..], Bytes(), first * SECTOR_SIZE, position, position + n)
    {
      var base, off := first * SECTOR_SIZE, (last - first) * SECTOR_SIZE;
      Offsets(position, n, first, last, base, off);
      ghost var b0, b1;
      buf, b0, b1 := FetchAround(position, n, base, off);
      EdgesAgree(Bytes(), base, off, position, n, b0, b1, buf[..]);
    }

    /** The same, with the offsets of the two sectors: the first at `base`, the last `off` bytes on. */
    method FetchAround(position: nat, n: nat, base: nat, off: nat)
      returns (buf: array<Byte>, ghost b0: seq<Byte>, ghost b1: seq<Byte>)
      requires Valid() && base <= position && base + off < position + n <= hdr.numBytes
      ensures fresh(buf) && buf.Length == off + SECTOR_SIZE == |b0|
      ensures b1 == FetchedPart(b0, 0, Bytes(), base, position != base)
      ensures buf[..] == FetchedPart(b1, off, Bytes(), base + off,
                                     position + n != base + off + SECTOR_SIZE && (off != 0 || position == base))
    {
      var firstAligned := position == base;
      var lastAligned := position + n == base + off + SECTOR_SIZE;
      buf, b0 := FetchFront(base, off, !firstAligned);
      b1 := buf[..];
      FetchPart(buf, off, base + off, !lastAligned && (off != 0 || firstAligned));
    }

    method FetchFront(base: nat, off: nat, wanted: bool) returns (buf: array<Byte>, ghost b0: seq<Byte>)
      requires Valid() && base < hdr.numBytes
      ensures fresh(buf) && buf.Length == off + SECTOR_SIZE == |b0| && Bytes() == old(Bytes())
      ensures buf[..] == FetchedPart(b0, 0, Bytes(), base, wanted)
    {
      buf := new Byte[off + SECTOR_SIZE];
      b0 := buf[..];
      FetchPart(buf, 0, base, wanted);
    }

    method FetchPart(buf: array<Byte>, at: nat, position: nat, wanted: bool)
      requires Valid() && position < hdr.numBytes && at + SECTOR_SIZE <= buf.Length
      modifies buf
      ensures Bytes() == old(Bytes())
      ensures buf[..] == FetchedPart(old(buf[..]), at, Bytes(), position, wanted)
    {
      if wanted {
        var got := ReadAt(buf, at, SECTOR_SIZE, position);
      }
    }

    method StoreSectors(buf: array<Byte>, first: nat, last: nat)
      requires Valid() && first <= last < hdr.numSectors
      requires buf.Length == (1 + last - first) * SECTOR_SIZE
      modifies disk.sectors
      ensures Blocks(disk.Contents(), hdr) == Splice(old(Blocks(disk.Contents(), hdr)), SECTOR_SIZE * first, buf[..])
      ensures forall s :: 0 <= s < NUM_SECTORS && s !in hdr.Data() ==> disk.Contents()[s] == old(disk.Contents())[s]
    {
      ghost var blocks := Blocks(disk.Contents(), hdr);
      for i := first to last + 1
        invariant Blocks(disk.Contents(), hdr) == Splice(blocks, SECTOR_SIZE * first, buf[..SECTOR_SIZE * (i - first)])
        invariant forall s :: 0 <= s < NUM_SECTORS && s !in hdr.Data() ==> disk.Contents()[s] == old(disk.Contents())[s]
      {
        BlockWritten(disk.Contents(), hdr, i, buf[SECTOR_SIZE * (i - first)..SECTOR_SIZE * (i + 1 - first)]);
        SpliceMore(blocks, SECTOR_SIZE * first, buf[..], SECTOR_SIZE * (i - first), SECTOR_SIZE);
        disk.WriteSector(hdr.dataSectors[i], buf, (i - first) * SECTOR_SIZE);
      }
      assert buf[..SECTOR_SIZE * (last + 1 - first)] == buf[..];
    }

    method Seek(position: int)
      modifies this
      ensures seekPosition == position
    {
      seekPosition := position;
    }

    method Read(into: array<Byte>, numBytes: int) returns (n: nat)
      requires Valid() && 0 <= seekPosition && seekPosition + numBytes <= INT_MAX
      requires Transfer(hdr.numBytes, numBytes, seekPosition) <= into.Length
      modifies this, into
      ensures n == Transfer(hdr.numBytes, numBytes, old(seekPosition))
      ensures (into[..n], seekPosition) == ReadOnce(Bytes(), old(seekPosition), numBytes)
      ensures into[n..] == old(into[n..])
    {
      n := ReadAt(into, 0, numBytes, seekPosition);
      if n > 0 {
        assert into[..n] == Bytes()[seekPosition..seekPosition + n];
      }
      assert into[n..] == old(into[..])[n..];
      seekPosition := seekPosition + n;
    }

    method Write(from: seq<Byte>) returns (n: nat)
      requires Valid() && 0 <= seekPosition && seekPosition + |from| <= INT_MAX
      modifies this, disk.sectors
      ensures n == Transfer(hdr.numBytes, |from|, old(seekPosition))
      ensures (Bytes(), seekPosition) == WriteOnce(old(Bytes()), old(seekPosition), from)
      ensures forall s :: 0 <= s < NUM_SECTORS && s !in hdr.Data() ==> disk.Contents()[s] == old(disk.Contents())[s]
    {
      n := WriteAt(from, |from|, seekPosition);
      seekPosition := seekPosition + n;
    }
  }

  // ---- what a sequence of Read and Write calls amounts to -------------------------------------

  /** One Write: the file's bytes and the seek position afterwards. */
  function WriteOnce(file: seq<Byte>, position: nat, data: seq<Byte>): (r: (seq<Byte>, nat))
    ensures |r.0| == |file|
  {
    var n := Transfer(|file|, |data|, position);
    (if n == 0 then file else Splice(file, position, data[..n]), position + n)
  }

  /** One Read: the bytes delivered and the seek position afterwards. */
  function ReadOnce(file: seq<Byte>, position: nat, numBytes: int): (seq<Byte>, nat) {
    var n := Transfer(|file|, numBytes, position);
    (if n == 0 then [] else file[position..position + n], position + n)
  }

  function WriteChunks(file: seq<Byte>, position: nat, chunks: seq<seq<Byte>>): (r: (seq<Byte>, nat))
    ensures |r.0| == |file|
    decreases chunks
  {
    if chunks == [] then (file, position) else
    var (file', position') := WriteOnce(file, position, chunks[0]);
    WriteChunks(file', position', chunks[1..])
  }

  function ReadChunks(file: seq<Byte>, position: nat, sizes: seq<int>): (seq<Byte>, nat)
    decreases sizes
  {
    if sizes == [] then ([], position) else
    var (got, position') := ReadOnce(file, position, sizes[0]);
    var (rest, position'') := ReadChunks(file, position', sizes[1..]);
    (got + rest, position'')
  }

  /** The bytes a list of requests asks for; a request for fewer than one byte asks for none. */
  function Total(sizes: seq<int>): nat {
    if sizes == [] then 0 else (if sizes[0] <= 0 then 0 else sizes[0]) + Total(sizes[1..])
  }

  lemma WriteTwice(file: seq<Byte>, position: nat, a: seq<Byte>, b: seq<Byte>)
    ensures var (file', position') := WriteOnce(file, position, a);
      WriteOnce(file', position', b) == WriteOnce(file, position, a + b)
  {
    var n, m := Transfer(|file|, |a|, position), Transfer(|file|, |a + b|, position);
    var (file', position') := WriteOnce(file, position, a);
    if n == |a| && |b| > 0 && position' < |file| {
      var k := Transfer(|file|, |b|, position');
      assert m == |a| + k && (a + b)[..m] == a + b[..k];
      assert a == a[..n];
      assert WriteOnce(file', position', b).0 == Splice(file, position, (a + b)[..m]);
    } else if m > 0 {
      assert m == n && (a + b)[..m] == a[..n];
    }
  }

  /** Writing in any chunks, clipped at the end of the file, is writing the whole at once. */
  lemma {:induction false} ChunkedWrite(file: seq<Byte>, position: nat, chunks: seq<seq<Byte>>)
    ensures WriteChunks(file, position, chunks) == WriteOnce(file, position, Flatten(chunks))
    decreases chunks
  {
    if chunks != [] {
      var (file', position') := WriteOnce(file, position, chunks[0]);
      ChunkedWrite(file', position', chunks[1..]);
      WriteTwice(file, position, chunks[0], Flatten(chunks[1..]));
    }
  }

  lemma ReadTwice(file: seq<Byte>, position: nat, a: int, b: nat)
    ensures var (got, position') := ReadOnce(file, position, a);
      var (rest, position'') := ReadOnce(file, position', b);
      ReadOnce(file, position, (if a <= 0 then 0 else a) + b) == (got + rest, position'')
  {
    var n := Transfer(|file|, a, position);
    var k := Transfer(|file|, b, position + n);
    assert Transfer(|file|, (if a <= 0 then 0 else a) + b, position) == n + k;
    if n == 0 {
      assert forall s: seq<Byte> :: [] + s == s;
    } else if k == 0 {
      assert forall s: seq<Byte> :: s + [] == s;
    } else {
      assert file[position..position + n + k] == file[position..position + n] + file[position + n..position + n + k];
    }
  }

  /** Reading in any chunks delivers what one request for the total delivers. */
  lemma {:induction false} ChunkedRead(file: seq<Byte>, position: nat, sizes: seq<int>)
    ensures ReadChunks(file, position, sizes) == ReadOnce(file, position, Total(sizes))
    decreases sizes
  {
    if sizes != [] {
      ChunkedRead(file, ReadOnce(file, position, sizes[0]).1, sizes[1..]);
      ReadTwice(file, position, sizes[0], Total(sizes[1..]));
    }
  }

  /** Write a string in any chunks, seek back, read in any chunks: the string comes back, cut off
      only where the file ends; and the rest of the file is as it was. */
  lemma ChunkedRoundTrip(file: seq<Byte>, position: nat, chunks: seq<seq<Byte>>, sizes: seq<int>)
    requires Total(sizes) == |Flatten(chunks)|
    ensures var data, file' := Flatten(chunks), WriteChunks(file, position, chunks).0;
      var n := Transfer(|file|, |data|, position);
      && ReadChunks(file', position, sizes).0 == data[..n]
      && (n < |data| ==> position + n >= |file|)
      && forall k :: 0 <= k < |file| && !(position <= k < position + n) ==> file'[k] == file[k]
  {
    ChunkedWrite(file, position, chunks);
    ChunkedRead(WriteChunks(file, position, chunks).0, position, sizes);
  }
}
