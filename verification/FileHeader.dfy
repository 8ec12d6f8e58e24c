/** filehdr.cc: the table of sector numbers that locates a file's data on disk. */
module FileHeaders {
  import opened Words
  import opened BitMaps
  import opened SynchDisks

  const NUM_DIRECT := 126                          // (SectorSize - 2 * sizeof(int)) / sizeof(int)
  const MAX_FILE_SIZE := NUM_DIRECT * SECTOR_SIZE

  /** The value of a header.  Entries past numSectors are whatever was in memory. */
  datatype Header = Header(numBytes: Word, numSectors: Word, dataSectors: seq<Word>) {
    /** What every header written by Create satisfies. */
    ghost predicate WellFormed() {
      && |dataSectors| == NUM_DIRECT
      && numBytes <= MAX_FILE_SIZE
      && numSectors == DivRoundUp(numBytes, SECTOR_SIZE)
      && Taken(dataSectors[..numSectors], {})
    }

    /** ByteToSector: the disk sector that holds byte `offset` of the file. */
    function SectorOf(offset: int): (s: int)
      requires WellFormed() && 0 <= offset < numBytes
      ensures 0 <= s < NUM_SECTORS && s in Data()
    {
      assert dataSectors[offset / SECTOR_SIZE] in dataSectors[..numSectors];
      dataSectors[offset / SECTOR_SIZE]
    }

    ghost function Data(): set<int>
      requires numSectors <= |dataSectors|
    {
      Elements(dataSectors[..numSectors])
    }
  }

  ghost function Elements(s: seq<Word>): set<int> {
    set x: int | x in s
  }

  ghost predicate NoDuplicates(s: seq<Word>) {
    forall i, j :: 0 <= i < j < |s| ==> s[i] != s[j]
  }

  /** `taken` lists distinct sectors, none of them in `used`. */
  ghost predicate Taken(taken: seq<Word>, used: set<int>) {
    NoDuplicates(taken) && Elements(taken) !! used && forall x :: x in taken ==> x < NUM_SECTORS
  }

  /** The free map after `taken` has been taken out of it. */
  ghost predicate Filled(taken: seq<Word>, used: set<int>, bits: set<int>) {
    Taken(taken, used) && bits == used + Elements(taken) && |bits| == |used| + |taken|
  }

  lemma TakeOne(taken: seq<Word>, used: set<int>, bits: set<int>, bits': set<int>, x: int)
    requires Filled(taken, used, bits) && 0 <= x < NUM_SECTORS && x !in bits && bits' == bits + {x}
    ensures Filled(taken + [x], used, bits')
  {
    assert Elements(taken + [x]) == Elements(taken) + {x};
  }

  /** The bytes of the file a header describes. */
  ghost function FileBytes(d: Image, h: Header): (bytes: seq<Byte>)
    requires h.WellFormed()
    ensures |bytes| == h.numBytes
  {
    seq(h.numBytes, k requires 0 <= k < h.numBytes => d[h.SectorOf(k)][k % SECTOR_SIZE])
  }

  /** Only a file's own data sectors bear on its bytes. */
  lemma FileBytesFrame(d: Image, d': Image, h: Header)
    requires h.WellFormed()
    requires forall s :: s in h.Data() ==> d'[s] == d[s]
    ensures FileBytes(d', h) == FileBytes(d, h)
  {
    forall k | 0 <= k < h.numBytes
      ensures FileBytes(d', h)[k] == FileBytes(d, h)[k]
    {
      assert h.SectorOf(k) in h.Data();
    }
  }

  function EncodeHeader(h: Header): (s: Sector)
    requires |h.dataSectors| == NUM_DIRECT
  {
    EncodeWords([h.numBytes, h.numSectors] + h.dataSectors)
  }

  function DecodeHeader(s: Sector): (h: Header)
    ensures |h.dataSectors| == NUM_DIRECT
  {
    var ws := DecodeWords(s, 2 + NUM_DIRECT);
    Header(ws[0], ws[1], ws[2..])
  }

  lemma HeaderRoundTrip(h: Header)
    requires |h.dataSectors| == NUM_DIRECT
    ensures DecodeHeader(EncodeHeader(h)) == h
  {
    WordsRoundTrip([h.numBytes, h.numSectors] + h.dataSectors);
  }

  class FileHeader {
    var numBytes: Word
    var numSectors: Word
    const dataSectors: array<Word>

    ghost predicate Valid() {
      dataSectors.Length == NUM_DIRECT
    }

    function Value(): (h: Header)
      reads this, dataSectors
    {
      Header(numBytes, numSectors, dataSectors[..])
    }

    /** There is no constructor in the source: a header starts with arbitrary contents. */
    constructor ()
      ensures Valid() && fresh(dataSectors)
    {
      dataSectors := new Word[NUM_DIRECT];
    }

    /** Take data sectors out of the free map.  Either there are too few and the map is untouched,
        or every Find succeeds and the header gets that many distinct sectors that were free. */
    method Allocate(freeMap: BitMap, fileSize: int) returns (ok: bool)
      requires Valid() && freeMap.Valid() && freeMap.numBits == NUM_SECTORS
      requires freeMap.words != dataSectors
      requires 0 <= fileSize <= MAX_FILE_SIZE
      modifies this, dataSectors, freeMap.words
      ensures ok <==> DivRoundUp(fileSize, SECTOR_SIZE) <= NUM_SECTORS - |old(freeMap.Bits())|
      ensures !ok ==> freeMap.words[..] == old(freeMap.words[..])
      ensures ok ==>
        && Value().WellFormed() && numBytes == fileSize
        && Value().Data() !! old(freeMap.Bits())
        && freeMap.Bits() == old(freeMap.Bits()) + Value().Data()
        && |freeMap.Bits()| == |old(freeMap.Bits())| + DivRoundUp(fileSize, SECTOR_SIZE)
    {
      numBytes := fileSize;
      numSectors := DivRoundUp(fileSize, SECTOR_SIZE);
      var clear := freeMap.NumClear();
      if clear < numSectors {
        return false;
      }
      Fill(freeMap);
      return true;
    }

    /** The loop of Allocate. */
    method Fill(freeMap: BitMap)
      requires Valid() && freeMap.Valid() && freeMap.numBits == NUM_SECTORS
      requires freeMap.words != dataSectors
      requires numSectors <= NUM_DIRECT && numSectors <= NUM_SECTORS - |freeMap.Bits()|
      modifies dataSectors, freeMap.words
      ensures Filled(dataSectors[..numSectors], old(freeMap.Bits()), freeMap.Bits())
    {
      ghost var used := freeMap.Bits();
      assert dataSectors[..0] == [];
      for i := 0 to numSectors
        invariant Filled(dataSectors[..i], used, freeMap.Bits())
      {
        FillOne(freeMap, i, used);
      }
    }

    method FillOne(freeMap: BitMap, i: nat, ghost used: set<int>)
      requires Valid() && freeMap.Valid() && freeMap.numBits == NUM_SECTORS
      requires freeMap.words != dataSectors
      requires i < NUM_DIRECT && |used| + i < NUM_SECTORS && Filled(dataSectors[..i], used, freeMap.Bits())
      modifies dataSectors, freeMap.words
      ensures Filled(dataSectors[..i + 1], used, freeMap.Bits())
    {
      ghost var taken, bits := dataSectors[..i], freeMap.Bits();
      var s := freeMap.Find();
      ghost var bits' := freeMap.Bits();
      TakeOne(taken, used, bits, bits', s);
      SetSector(i, s);
      assert freeMap.Bits() == bits';
    }

    method SetSector(i: nat, s: Word)
      requires Valid() && i < NUM_DIRECT
      modifies dataSectors
      ensures dataSectors[..i + 1] == old(dataSectors[..i]) + [s]
    {
      dataSectors[i] := s;
    }

    /** Return the data sectors to the free map; the source's assertion that each one is marked
        is the precondition of the loop body and holds throughout. */
    method Deallocate(freeMap: BitMap)
      requires Valid() && freeMap.Valid() && freeMap.numBits == NUM_SECTORS
      requires freeMap.words != dataSectors
      requires Value().WellFormed() && Value().Data() <= freeMap.Bits()
      modifies freeMap.words
      ensures freeMap.Bits() == old(freeMap.Bits()) - Value().Data()
    {
      for i := 0 to numSectors
        invariant freeMap.Bits() == old(freeMap.Bits()) - Elements(dataSectors[..i])
      {
        assert dataSectors[i] in dataSectors[..numSectors] && dataSectors[i] !in dataSectors[..i];
        var marked := freeMap.Test(dataSectors[i]);
        assert marked;
        freeMap.Clear(dataSectors[i]);
        assert dataSectors[..i + 1] == dataSectors[..i] + [dataSectors[i]];
      }
    }

    method FetchFrom(disk: SynchDisk, sector: int)
      requires Valid() && disk.Valid() && 0 <= sector < NUM_SECTORS
      modifies this, dataSectors
      ensures Value() == DecodeHeader(disk.Contents()[sector])
    {
      var raw := new Byte[SECTOR_SIZE];
      disk.ReadSector(sector, raw, 0);
      assert raw[..] == disk.Contents()[sector];
      var h := DecodeHeader(raw[..]);
      numBytes, numSectors := h.numBytes, h.numSectors;
      for i := 0 to NUM_DIRECT
        invariant numBytes == h.numBytes && numSectors == h.numSectors
        invariant dataSectors[..i] == h.dataSectors[..i]
      {
        dataSectors[i] := h.dataSectors[i];
      }
      assert dataSectors[..] == dataSectors[..NUM_DIRECT];
    }

    method WriteBack(disk: SynchDisk, sector: int)
      requires Valid() && disk.Valid() && 0 <= sector < NUM_SECTORS
      modifies disk.sectors
      ensures disk.Contents() == old(disk.Contents())[sector := EncodeHeader(Value())]
      ensures Value() == old(Value())
    {
      var bytes := EncodeHeader(Value());
      var raw := new Byte[SECTOR_SIZE](k requires 0 <= k < SECTOR_SIZE => bytes[k]);
      assert raw[..] == bytes && raw[0..SECTOR_SIZE] == raw[..];
      disk.WriteSector(sector, raw, 0);
    }
  }
}
