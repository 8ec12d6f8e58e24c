/** filesys.cc: files by name, on a disk whose free map and directory are themselves files. */
module FileSystems {
  import opened Words
  import opened BitMaps
  import opened SynchDisks
  import opened FileHeaders
  import opened OpenFiles
  import opened Directories

  const FREE_MAP_SECTOR := 0
  const DIRECTORY_SECTOR := 1
  const NUM_WORDS := NUM_SECTORS / BITS_IN_WORD
  const FREE_MAP_FILE_SIZE := NUM_SECTORS / 8
  const NUM_DIR_ENTRIES := 10
  const DIRECTORY_FILE_SIZE := ENTRY_SIZE * NUM_DIR_ENTRIES

  type Table = t: seq<DirectoryEntry> | |t| == NUM_DIR_ENTRIES
    witness seq(NUM_DIR_ENTRIES, _ => DirectoryEntry(false, 0, seq(FILE_NAME_MAX_LEN + 1, _ => 0)))

  // ---- what is on a disk ----------------------------------------------------------------------

  ghost function HeaderAt(d: Image, s: int): Header
    requires 0 <= s < NUM_SECTORS
  {
    DecodeHeader(d[s])
  }

  ghost function MapHeader(d: Image): Header { HeaderAt(d, FREE_MAP_SECTOR) }

  ghost function DirHeader(d: Image): Header { HeaderAt(d, DIRECTORY_SECTOR) }

  /** The two well-known headers describe files of the expected sizes. */
  ghost predicate Readable(d: Image) {
    && MapHeader(d).WellFormed() && MapHeader(d).numBytes == FREE_MAP_FILE_SIZE
    && DirHeader(d).WellFormed() && DirHeader(d).numBytes == DIRECTORY_FILE_SIZE
  }

  ghost function TableOf(d: Image): Table
    requires Readable(d)
  {
    DecodeTable(FileBytes(d, DirHeader(d)), NUM_DIR_ENTRIES)
  }

  /** The sectors the free map on disk marks as in use. */
  ghost function UsedOf(d: Image): set<int>
    requires Readable(d)
  {
    Marked(DecodeWords(FileBytes(d, MapHeader(d)), NUM_WORDS), NUM_SECTORS)
  }

  // ---- ownership ------------------------------------------------------------------------------

  // The owners of sectors are numbered 0 (the free map file), 1 (the directory file) and
  // 2 + i (directory entry i, when in use).
  const NUM_OWNERS := 2 + NUM_DIR_ENTRIES

  ghost predicate Live(t: Table, a: int) {
    0 <= a < 2 || (2 <= a < NUM_OWNERS && t[a - 2].inUse)
  }

  ghost function HeaderSector(t: Table, a: int): int
    requires Live(t, a)
  {
    if a < 2 then a else t[a - 2].sector
  }

  /** A sector number that leads to a proper header which does not claim its own sector. */
  ghost predicate OwnerOk(d: Image, s: int) {
    0 <= s < NUM_SECTORS && HeaderAt(d, s).WellFormed() && s !in HeaderAt(d, s).Data()
  }

  /** The header sector and the data sectors of a file. */
  ghost function Extent(d: Image, s: int): set<int>
    requires OwnerOk(d, s)
  {
    {s} + HeaderAt(d, s).Data()
  }

  ghost predicate OwnersOk(d: Image, t: Table) {
    forall a {:trigger Live(t, a)} :: Live(t, a) ==> OwnerOk(d, HeaderSector(t, a))
  }

  /** Which sectors each live owner owns. */
  type Extents = map<int, set<int>>

  ghost function ExtentsOf(d: Image, t: Table): Extents
    requires OwnersOk(d, t)
  {
    map a | 0 <= a < NUM_OWNERS && Live(t, a) :: Extent(d, HeaderSector(t, a))
  }

  lemma ExtentIs(d: Image, t: Table, a: int)
    requires OwnersOk(d, t) && Live(t, a)
    ensures a in ExtentsOf(d, t) && ExtentsOf(d, t)[a] == Extent(d, HeaderSector(t, a))
  {
  }

  ghost predicate OwnedBy(ext: Extents, s: int, a: int) {
    a in ext && s in ext[a]
  }

  /** Extents are pairwise disjoint, and `used` holds exactly the sectors somebody owns. */
  ghost predicate Exclusive(ext: Extents, used: set<int>) {
    && (forall a, b :: a in ext && b in ext && a != b ==> ext[a] !! ext[b])
    && (forall a :: a in ext ==> ext[a] <= used)
    && (forall s :: s in used ==> exists a :: OwnedBy(ext, s, a))
  }

  ghost predicate NamesDistinct(t: Table) {
    forall i, j :: 0 <= i < j < NUM_DIR_ENTRIES && t[i].inUse && t[j].inUse ==> Key(t[i].name) != Key(t[j].name)
  }

  /** The file system's invariant, a property of the disk alone. */
  ghost predicate Sound(d: Image) {
    && Readable(d)
    && SoundWith(d, TableOf(d), UsedOf(d))
  }

  ghost predicate SoundWith(d: Image, t: Table, used: set<int>) {
    NamesDistinct(t) && OwnersOk(d, t) && Exclusive(ExtentsOf(d, t), used)
  }

  /** What a user of the file system sees: the bytes stored under each name. */
  ghost function Files(d: Image): map<seq<Byte>, seq<Byte>>
    requires Sound(d)
  {
    FilesIn(d, TableOf(d))
  }

  ghost function FilesIn(d: Image, t: Table): map<seq<Byte>, seq<Byte>>
    requires NamesDistinct(t) && OwnersOk(d, t)
  {
    ByName(t, BytesOf(d, t))
  }

  /** The bytes of the file in each directory entry that is in use. */
  ghost function BytesOf(d: Image, t: Table): map<int, seq<Byte>>
    requires OwnersOk(d, t)
  {
    map i | 0 <= i < NUM_DIR_ENTRIES && t[i].inUse :: EntryBytes(d, t, i)
  }

  ghost predicate Indexes(t: Table, bytes: map<int, seq<Byte>>) {
    forall i :: i in bytes <==> 0 <= i < NUM_DIR_ENTRIES && t[i].inUse
  }

  ghost predicate At(t: Table, key: seq<Byte>, i: int) {
    0 <= i < NUM_DIR_ENTRIES && t[i].inUse && Key(t[i].name) == key
  }

  ghost function KeysOf(t: Table): set<seq<Byte>> {
    set i | 0 <= i < NUM_DIR_ENTRIES && t[i].inUse :: Key(t[i].name)
  }

  ghost function SlotOf(t: Table, key: seq<Byte>): (i: int)
    requires key in KeysOf(t)
    ensures At(t, key, i)
  {
    var i :| 0 <= i < NUM_DIR_ENTRIES && t[i].inUse && Key(t[i].name) == key; i
  }

  lemma SlotIs(t: Table, i: int)
    requires NamesDistinct(t) && 0 <= i < NUM_DIR_ENTRIES && t[i].inUse
    ensures Key(t[i].name) in KeysOf(t) && SlotOf(t, Key(t[i].name)) == i
  {
  }

  ghost function ByName(t: Table, bytes: map<int, seq<Byte>>): map<seq<Byte>, seq<Byte>>
    requires NamesDistinct(t) && Indexes(t, bytes)
  {
    map key | key in KeysOf(t) :: bytes[SlotOf(t, key)]
  }

  lemma KeysAdd(t: Table, t': Table, i: int)
    requires NamesDistinct(t')
    requires 0 <= i < NUM_DIR_ENTRIES && !t[i].inUse && t'[i].inUse
    requires forall j :: 0 <= j < NUM_DIR_ENTRIES && j != i ==> t'[j] == t[j]
    ensures Key(t'[i].name) !in KeysOf(t)
    ensures KeysOf(t') == KeysOf(t) + {Key(t'[i].name)}
  {
    forall j | 0 <= j < NUM_DIR_ENTRIES && t[j].inUse
      ensures t'[j].inUse && Key(t[j].name) == Key(t'[j].name) != Key(t'[i].name)
    {
    }
  }

  lemma ByNameAdd(t: Table, t': Table, bytes: map<int, seq<Byte>>, i: int, key: seq<Byte>, new_: seq<Byte>)
    requires NamesDistinct(t) && NamesDistinct(t') && Indexes(t, bytes)
    requires 0 <= i < NUM_DIR_ENTRIES && !t[i].inUse && At(t', key, i)
    requires forall j :: 0 <= j < NUM_DIR_ENTRIES && j != i ==> t'[j] == t[j]
    ensures Indexes(t', bytes[i := new_]) && key !in ByName(t, bytes)
    ensures ByName(t', bytes[i := new_]) == ByName(t, bytes)[key := new_]
  {
    KeysAdd(t, t', i);
    SlotIs(t', i);
    forall k | k in KeysOf(t)
      ensures SlotOf(t', k) == SlotOf(t, k) != i
    {
      SlotIs(t', SlotOf(t, k));
    }
  }

  lemma ByNameDrop(t: Table, t': Table, bytes: map<int, seq<Byte>>, i: int)
    requires NamesDistinct(t) && NamesDistinct(t') && Indexes(t, bytes)
    requires 0 <= i < NUM_DIR_ENTRIES && t[i].inUse && !t'[i].inUse
    requires forall j :: 0 <= j < NUM_DIR_ENTRIES && j != i ==> t'[j] == t[j]
    ensures Indexes(t', bytes - {i})
    ensures Key(t[i].name) in ByName(t, bytes)
    ensures ByName(t', bytes - {i}) == ByName(t, bytes) - {Key(t[i].name)}
  {
    SlotIs(t, i);
    assert KeysOf(t') == KeysOf(t) - {Key(t[i].name)};
    forall k | k in KeysOf(t')
      ensures SlotOf(t', k) == SlotOf(t, k) != i
    {
      SlotIs(t, SlotOf(t', k));
    }
  }

  lemma ByNameUpdate(t: Table, bytes: map<int, seq<Byte>>, i: int, new_: seq<Byte>)
    requires NamesDistinct(t) && Indexes(t, bytes) && i in bytes
    ensures ByName(t, bytes[i := new_]) == ByName(t, bytes)[Key(t[i].name) := new_]
    ensures Key(t[i].name) in ByName(t, bytes) && ByName(t, bytes)[Key(t[i].name)] == bytes[i]
  {
    SlotIs(t, i);
  }

  ghost function EntryBytes(d: Image, t: Table, i: int): seq<Byte>
    requires OwnersOk(d, t) && 0 <= i < NUM_DIR_ENTRIES && t[i].inUse
  {
    assert Live(t, i + 2);
    FileBytes(d, HeaderAt(d, t[i].sector))
  }

  ghost predicate Untouched(d: Image, d': Image, changed: set<int>) {
    forall s :: 0 <= s < NUM_SECTORS && s !in changed ==> d'[s] == d[s]
  }

  // ---- sets of extents ----------------------------------------------------------------------

  lemma ExclusiveAdd(ext: Extents, used: set<int>, a: int, new_: set<int>)
    requires Exclusive(ext, used) && a !in ext && new_ !! used
    ensures Exclusive(ext[a := new_], used + new_)
  {
    var ext' := ext[a := new_];
    forall s | s in used + new_
      ensures exists b :: OwnedBy(ext', s, b)
    {
      if s in used {
        var b :| OwnedBy(ext, s, b);
        assert OwnedBy(ext', s, b);
      } else {
        assert OwnedBy(ext', s, a);
      }
    }
  }

  lemma ExclusiveDrop(ext: Extents, used: set<int>, a: int)
    requires Exclusive(ext, used) && a in ext
    ensures Exclusive(ext - {a}, used - ext[a])
  {
    forall s | s in used - ext[a]
      ensures exists b :: OwnedBy(ext - {a}, s, b)
    {
      var b :| OwnedBy(ext, s, b);
      assert OwnedBy(ext - {a}, s, b);
    }
  }

  /** A header none of whose sectors, nor its own sector, is changed keeps its place and bytes. */
  lemma OwnerStays(d: Image, d': Image, s: int, changed: set<int>)
    requires OwnerOk(d, s) && Untouched(d, d', changed) && s !in changed
    ensures OwnerOk(d', s) && HeaderAt(d', s) == HeaderAt(d, s) && Extent(d', s) == Extent(d, s)
    ensures Extent(d, s) !! changed ==> FileBytes(d', HeaderAt(d, s)) == FileBytes(d, HeaderAt(d, s))
  {
    if Extent(d, s) !! changed {
      FileBytesFrame(d, d', HeaderAt(d, s));
    }
  }

  /** The sectors that hold the directory and the free map. */
  ghost function MetaData(d: Image): set<int>
    requires Readable(d)
  {
    MapHeader(d).Data() + DirHeader(d).Data()
  }

  /** Whatever is written into unowned sectors and into the directory and free map, every owner
      keeps its header, and every named file its bytes. */
  ghost predicate OthersKept(d: Image, d': Image, t: Table)
    requires OwnersOk(d, t)
  {
    forall a {:trigger Live(t, a)} :: Live(t, a) ==> var s := HeaderSector(t, a);
      && OwnerOk(d', s) && HeaderAt(d', s) == HeaderAt(d, s)
      && (a >= 2 ==> FileBytes(d', HeaderAt(d, s)) == FileBytes(d, HeaderAt(d, s)))
  }

  lemma OneStays(d: Image, d': Image, t: Table, used: set<int>, changed: set<int>, a: int)
    requires Readable(d) && OwnersOk(d, t) && Exclusive(ExtentsOf(d, t), used) && Untouched(d, d', changed)
    requires forall s :: s in changed && s in used ==> s in MetaData(d)
    requires Live(t, a)
    ensures var s := HeaderSector(t, a);
      && OwnerOk(d', s) && HeaderAt(d', s) == HeaderAt(d, s)
      && (a >= 2 ==> FileBytes(d', HeaderAt(d, s)) == FileBytes(d, HeaderAt(d, s)))
  {
    var ext, s := ExtentsOf(d, t), HeaderSector(t, a);
    ExtentIs(d, t, 0);
    ExtentIs(d, t, 1);
    ExtentIs(d, t, a);
    MetaApart(ext, used, a, s, MapHeader(d).Data(), DirHeader(d).Data());
    OwnerStays(d, d', s, changed);
  }

  lemma MetaApart(ext: Extents, used: set<int>, a: int, s: int, mapData: set<int>, dirData: set<int>)
    requires Exclusive(ext, used) && 0 in ext && 1 in ext && a in ext && s in ext[a]
    requires ext[0] == {0} + mapData && 0 !in mapData && ext[1] == {1} + dirData && 1 !in dirData
    requires a < 2 ==> a == s
    ensures s !in mapData + dirData && s in used
    ensures a >= 2 ==> ext[a] !! mapData + dirData && ext[a] <= used
  {
  }

  lemma OthersStay(d: Image, d': Image, t: Table, used: set<int>, changed: set<int>)
    requires Readable(d) && OwnersOk(d, t) && Exclusive(ExtentsOf(d, t), used) && Untouched(d, d', changed)
    requires forall s :: s in changed && s in used ==> s in MetaData(d)
    ensures OthersKept(d, d', t)
  {
    forall a | Live(t, a)
      ensures var s := HeaderSector(t, a);
        && OwnerOk(d', s) && HeaderAt(d', s) == HeaderAt(d, s)
        && (a >= 2 ==> FileBytes(d', HeaderAt(d, s)) == FileBytes(d, HeaderAt(d, s)))
    {
      OneStays(d, d', t, used, changed, a);
    }
  }

  // ---- the effect of each operation on the disk ---------------------------------------------

  /** What the two metadata files say, and the sectors they are in. */
  datatype View = View(table: Table, used: set<int>, meta: set<int>)

  ghost function ViewOf(d: Image): View
    requires Readable(d)
  {
    View(TableOf(d), UsedOf(d), MetaData(d))
  }

  /** Create succeeded: slot i of the directory, header sector `sec`, header h. */
  ghost predicate Created(d: Image, v: View, d': Image, v': View, name: seq<Byte>, size: nat, i: int, sec: int, h: Header) {
    && 0 <= sec < NUM_SECTORS && sec !in v.used
    && h.WellFormed() && h.numBytes == size && h.Data() !! v.used + {sec}
    && Untouched(d, d', v.meta + {sec}) && HeaderAt(d', sec) == h
    && Added(v.table, v'.table, name, sec, i)
    && v'.used == v.used + {sec} + h.Data()
    && |v'.used| == |v.used| + 1 + DivRoundUp(size, SECTOR_SIZE)
  }

  ghost predicate CreatedFile(d: Image, v: View, d': Image, v': View, name: seq<Byte>, size: nat) {
    exists i, sec, h :: Created(d, v, d', v', name, size, i, sec, h)
  }

  /** Remove succeeded on directory entry i. */
  ghost predicate Deleted(d: Image, v: View, d': Image, v': View, name: seq<Byte>, i: int)
    requires OwnersOk(d, v.table)
  {
    Untouched(d, d', v.meta) && ErasedAt(d, v, v'.table, v'.used, name, i)
  }

  /** The directory and map without the file of entry i, which is the one a lookup of `name` finds. */
  ghost predicate ErasedAt(d: Image, v: View, t': Table, used': set<int>, name: seq<Byte>, i: int)
    requires OwnersOk(d, v.table)
  {
    Removed(v.table, t', name, i) && Live(v.table, i + 2) && used' == v.used - Extent(d, v.table[i].sector)
  }

  ghost predicate DeletedFile(d: Image, v: View, d': Image, v': View, name: seq<Byte>) {
    OwnersOk(d, v.table) && exists i :: Deleted(d, v, d', v', name, i)
  }

  /** WriteAt on a handle for directory entry i stored `data` at `position`. */
  ghost predicate Written(d: Image, v: View, d': Image, i: int, position: nat, data: seq<Byte>)
    requires OwnersOk(d, v.table)
  {
    && 0 <= i < NUM_DIR_ENTRIES && v.table[i].inUse && Live(v.table, i + 2)
    && var h := HeaderAt(d, v.table[i].sector);
    && Untouched(d, d', h.Data())
    && FileBytes(d', h) == WriteOnce(FileBytes(d, h), position, data).0
  }

  // ---- Create -------------------------------------------------------------------------------

  lemma NamesAfterAdd(t: Table, t': Table, name: seq<Byte>, sec: Word, i: int)
    requires NamesDistinct(t) && Added(t, t', name, sec, i)
    ensures NamesDistinct(t') && t'[i].inUse && Key(t'[i].name) == Key(name)
    ensures forall j :: 0 <= j < NUM_DIR_ENTRIES && t[j].inUse ==> Key(t[j].name) != Key(name)
    ensures forall a {:trigger Live(t', a)} :: Live(t', a) <==> Live(t, a) || a == i + 2
  {
    StoredKey(t[i].name, name);
    assert forall j :: 0 <= j < NUM_DIR_ENTRIES && t[j].inUse ==> !Names(t[j], name);
  }

  lemma ExtentsAfterAdd(d: Image, d': Image, t: Table, t': Table, i: int, sec: Word)
    requires OwnersOk(d, t) && OthersKept(d, d', t) && OwnerOk(d', sec)
    requires 0 <= i < NUM_DIR_ENTRIES && !t[i].inUse && t'[i].inUse && t'[i].sector == sec
    requires forall j :: 0 <= j < NUM_DIR_ENTRIES && j != i ==> t'[j] == t[j]
    ensures OwnersOk(d', t')
    ensures ExtentsOf(d', t') == ExtentsOf(d, t)[i + 2 := Extent(d', sec)]
  {
    assert forall a {:trigger Live(t', a)} :: Live(t', a) && a != i + 2 ==> Live(t, a) && HeaderSector(t', a) == HeaderSector(t, a);
    assert forall a {:trigger Live(t, a)} :: Live(t, a) ==> Live(t', a) && a != i + 2;
    assert Live(t', i + 2) && HeaderSector(t', i + 2) == sec;
  }

  lemma FilesAfterAdd(d: Image, d': Image, t: Table, t': Table, name: seq<Byte>, i: int, sec: Word)
    requires NamesDistinct(t) && OwnersOk(d, t) && OthersKept(d, d', t) && Added(t, t', name, sec, i)
    requires NamesDistinct(t') && OwnersOk(d', t') && t'[i].inUse
    ensures Key(name) !in FilesIn(d, t)
    ensures FilesIn(d', t') == FilesIn(d, t)[Key(name) := EntryBytes(d', t', i)]
  {
    NamesAfterAdd(t, t', name, sec, i);
    assert BytesOf(d', t') == BytesOf(d, t)[i := EntryBytes(d', t', i)] by {
      assert forall j :: 0 <= j < NUM_DIR_ENTRIES && t[j].inUse ==> Live(t, j + 2);
    }
    ByNameAdd(t, t', BytesOf(d, t), i, Key(name), EntryBytes(d', t', i));
  }

  lemma AddIsSound(d: Image, d': Image, t: Table, t': Table, used: set<int>, name: seq<Byte>, i: int, sec: Word)
    requires SoundWith(d, t, used) && OthersKept(d, d', t) && Added(t, t', name, sec, i)
    requires OwnerOk(d', sec) && Extent(d', sec) !! used
    ensures SoundWith(d', t', used + Extent(d', sec))
  {
    NamesAfterAdd(t, t', name, sec, i);
    ExtentsAfterAdd(d, d', t, t', i, sec);
    ExclusiveAdd(ExtentsOf(d, t), used, i + 2, Extent(d', sec));
  }

  /** Create keeps the invariant, adds one file of the requested size, and leaves every other file's
      bytes as they were.  The new file's bytes are whatever its sectors already held. */
  lemma CreateAddsOne(d: Image, v: View, d': Image, v': View, name: seq<Byte>, size: nat, i: int, sec: int, h: Header)
    requires Readable(d) && v.meta == MetaData(d) && SoundWith(d, v.table, v.used)
    requires Created(d, v, d', v', name, size, i, sec, h)
    ensures SoundWith(d', v'.table, v'.used)
    ensures Key(name) !in FilesIn(d, v.table)
    ensures FilesIn(d', v'.table) == FilesIn(d, v.table)[Key(name) := FileBytes(d, h)]
  {
    OthersStay(d, d', v.table, v.used, v.meta + {sec});
    assert v'.used == v.used + Extent(d', sec);
    AddIsSound(d, d', v.table, v'.table, v.used, name, i, sec);
    FilesAfterAdd(d, d', v.table, v'.table, name, i, sec);
    MetaDataIsUsed(d, v.table, v.used);
    FileBytesFrame(d, d', h);
  }

  lemma MetaDataIsUsed(d: Image, t: Table, used: set<int>)
    requires Readable(d) && OwnersOk(d, t) && Exclusive(ExtentsOf(d, t), used)
    ensures MetaData(d) <= used
  {
    ExtentIs(d, t, 0);
    ExtentIs(d, t, 1);
  }

  // ---- Remove -------------------------------------------------------------------------------

  lemma LiveAfterRemove(t: Table, t': Table, i: int, a: int)
    requires 0 <= i < NUM_DIR_ENTRIES && t[i].inUse && !t'[i].inUse
    requires forall j :: 0 <= j < NUM_DIR_ENTRIES && j != i ==> t'[j] == t[j]
    ensures Live(t', a) <==> Live(t, a) && a != i + 2
    ensures Live(t', a) ==> HeaderSector(t', a) == HeaderSector(t, a)
  {
  }

  lemma ExtentsAfterRemove(d: Image, d': Image, t: Table, t': Table, i: int)
    requires OwnersOk(d, t) && OthersKept(d, d', t)
    requires 0 <= i < NUM_DIR_ENTRIES && t[i].inUse && !t'[i].inUse
    requires forall j :: 0 <= j < NUM_DIR_ENTRIES && j != i ==> t'[j] == t[j]
    ensures OwnersOk(d', t')
    ensures ExtentsOf(d', t') == ExtentsOf(d, t) - {i + 2}
  {
    forall a
      ensures Live(t', a) <==> Live(t, a) && a != i + 2
      ensures Live(t', a) ==> HeaderSector(t', a) == HeaderSector(t, a)
    {
      LiveAfterRemove(t, t', i, a);
    }
    FewerExtents(d, d', t, t', i + 2);
  }

  lemma FewerExtents(d: Image, d': Image, t: Table, t': Table, b: int)
    requires OwnersOk(d, t) && OthersKept(d, d', t)
    requires forall a {:trigger Live(t', a)} :: Live(t', a) ==> Live(t, a) && HeaderSector(t', a) == HeaderSector(t, a)
    requires forall a {:trigger Live(t', a)} {:trigger Live(t, a)} :: Live(t', a) <==> Live(t, a) && a != b
    ensures OwnersOk(d', t') && ExtentsOf(d', t') == ExtentsOf(d, t) - {b}
  {
  }

  lemma BytesAfterRemove(d: Image, d': Image, t: Table, t': Table, i: int)
    requires OwnersOk(d, t) && OthersKept(d, d', t) && OwnersOk(d', t')
    requires 0 <= i < NUM_DIR_ENTRIES && t[i].inUse && !t'[i].inUse
    requires forall j :: 0 <= j < NUM_DIR_ENTRIES && j != i ==> t'[j] == t[j]
    ensures BytesOf(d', t') == BytesOf(d, t) - {i}
  {
    forall j | 0 <= j < NUM_DIR_ENTRIES && t'[j].inUse
      ensures t'[j] == t[j] && EntryBytes(d', t', j) == EntryBytes(d, t, j)
    {
      assert Live(t, j + 2);
    }
  }

  lemma FilesAfterRemove(d: Image, d': Image, t: Table, t': Table, i: int)
    requires NamesDistinct(t) && OwnersOk(d, t) && OthersKept(d, d', t)
    requires NamesDistinct(t') && OwnersOk(d', t')
    requires 0 <= i < NUM_DIR_ENTRIES && t[i].inUse && !t'[i].inUse
    requires forall j :: 0 <= j < NUM_DIR_ENTRIES && j != i ==> t'[j] == t[j]
    ensures Key(t[i].name) in FilesIn(d, t) && FilesIn(d', t') == FilesIn(d, t) - {Key(t[i].name)}
  {
    BytesAfterRemove(d, d', t, t', i);
    ByNameDrop(t, t', BytesOf(d, t), i);
  }

  lemma RemoveIsSound(d: Image, d': Image, t: Table, t': Table, used: set<int>, i: int)
    requires SoundWith(d, t, used) && OthersKept(d, d', t) && Live(t, i + 2)
    requires 0 <= i < NUM_DIR_ENTRIES && !t'[i].inUse
    requires forall j :: 0 <= j < NUM_DIR_ENTRIES && j != i ==> t'[j] == t[j]
    ensures SoundWith(d', t', used - Extent(d, t[i].sector))
  {
    ExtentIs(d, t, i + 2);
    ExtentsAfterRemove(d, d', t, t', i);
    ExclusiveDrop(ExtentsOf(d, t), used, i + 2);
  }

  /** Remove keeps the invariant, takes exactly the named file away, and frees exactly its sectors. */
  lemma RemoveTakesOne(d: Image, v: View, d': Image, v': View, name: seq<Byte>, i: int)
    requires Readable(d) && v.meta == MetaData(d) && SoundWith(d, v.table, v.used)
    requires Deleted(d, v, d', v', name, i)
    ensures SoundWith(d', v'.table, v'.used)
    ensures Key(name) in FilesIn(d, v.table)
    ensures FilesIn(d', v'.table) == FilesIn(d, v.table) - {Key(name)}
  {
    OthersStay(d, d', v.table, v.used, v.meta);
    assert Names(v.table[i], name);
    RemoveIsSound(d, d', v.table, v'.table, v.used, i);
    FilesAfterRemove(d, d', v.table, v'.table, i);
  }

  // ---- WriteAt ------------------------------------------------------------------------------

  /** Writing into one file changes that file's bytes only: not another file, not a header, not
      the directory, not the free map. */
  lemma WriteChangesOne(d: Image, v: View, d': Image, i: int, position: nat, data: seq<Byte>)
    requires Readable(d) && v == ViewOf(d) && SoundWith(d, v.table, v.used)
    requires Written(d, v, d', i, position, data)
    ensures Readable(d') && ViewOf(d') == v && SoundWith(d', v.table, v.used)
    ensures var key := Key(v.table[i].name); var was := FilesIn(d, v.table);
      key in was && FilesIn(d', v.table) == was[key := WriteOnce(was[key], position, data).0]
  {
    WriteMisses(d, d', v.table, v.used, i, 0);
    WriteMisses(d, d', v.table, v.used, i, 1);
    WriteKeepsOwners(d, d', v.table, v.used, i);
    var h := HeaderAt(d, v.table[i].sector);
    WriteMisses(d, d', v.table, v.used, i, i + 2);
    FilesAfterWrite(d, d', v.table, v.used, i, FileBytes(d', h));
  }

  lemma WriteMisses(d: Image, d': Image, t: Table, used: set<int>, i: int, a: int)
    requires OwnersOk(d, t) && Exclusive(ExtentsOf(d, t), used) && Live(t, i + 2) && i >= 0 && Live(t, a)
    requires Untouched(d, d', HeaderAt(d, t[i].sector).Data())
    ensures OwnerOk(d', HeaderSector(t, a)) && HeaderAt(d', HeaderSector(t, a)) == HeaderAt(d, HeaderSector(t, a))
    ensures a != i + 2 ==> var h := HeaderAt(d, HeaderSector(t, a)); FileBytes(d', h) == FileBytes(d, h)
  {
    ExtentIs(d, t, i + 2);
    ExtentIs(d, t, a);
    OwnerStays(d, d', HeaderSector(t, a), HeaderAt(d, t[i].sector).Data());
  }

  lemma WriteKeepsOwners(d: Image, d': Image, t: Table, used: set<int>, i: int)
    requires OwnersOk(d, t) && Exclusive(ExtentsOf(d, t), used) && Live(t, i + 2) && i >= 0
    requires Untouched(d, d', HeaderAt(d, t[i].sector).Data())
    ensures OwnersOk(d', t) && ExtentsOf(d', t) == ExtentsOf(d, t)
  {
    forall a | Live(t, a)
      ensures OwnerOk(d', HeaderSector(t, a)) && Extent(d', HeaderSector(t, a)) == Extent(d, HeaderSector(t, a))
    {
      WriteMisses(d, d', t, used, i, a);
    }
    SameExtents(d, d', t);
  }

  lemma SameExtents(d: Image, d': Image, t: Table)
    requires OwnersOk(d, t) && OwnersOk(d', t)
    requires forall a {:trigger Live(t, a)} :: Live(t, a) ==> Extent(d', HeaderSector(t, a)) == Extent(d, HeaderSector(t, a))
    ensures ExtentsOf(d', t) == ExtentsOf(d, t)
  {
  }

  lemma FilesAfterWrite(d: Image, d': Image, t: Table, used: set<int>, i: int, new_: seq<Byte>)
    requires SoundWith(d, t, used) && OwnersOk(d', t) && Live(t, i + 2) && i >= 0
    requires Untouched(d, d', HeaderAt(d, t[i].sector).Data()) && new_ == EntryBytes(d', t, i)
    ensures var key := Key(t[i].name); var was := FilesIn(d, t);
      && key in was && was[key] == EntryBytes(d, t, i)
      && FilesIn(d', t) == was[key := new_]
  {
    forall j | 0 <= j < NUM_DIR_ENTRIES && t[j].inUse && j != i
      ensures EntryBytes(d', t, j) == EntryBytes(d, t, j)
    {
      WriteMisses(d, d', t, used, i, j + 2);
    }
    assert BytesOf(d', t) == BytesOf(d, t)[i := new_];
    ByNameUpdate(t, BytesOf(d, t), i, new_);
  }

  // ---- the operations -------------------------------------------------------------------------

  /** BitMap::FetchFrom. */
  method FetchMapFrom(freeMap: BitMap, file: OpenFile)
    requires freeMap.Valid() && freeMap.numBits == NUM_SECTORS
    requires file.Valid() && file.hdr.numBytes == FREE_MAP_FILE_SIZE
    modifies freeMap.words
    ensures freeMap.words[..] == DecodeWords(file.Bytes(), NUM_WORDS)
  {
    var raw := new Byte[FREE_MAP_FILE_SIZE];
    var got := file.ReadAt(raw, 0, NUM_WORDS * 4, 0);
    assert raw[..] == file.Bytes();
    LoadWords(freeMap.words, DecodeWords(raw[..], NUM_WORDS));
  }

  method LoadWords(a: array<Word>, ws: seq<Word>)
    requires a.Length == |ws|
    modifies a
    ensures a[..] == ws
  {
    for i := 0 to a.Length
      invariant a[..i] == ws[..i]
    {
      a[i] := ws[i];
    }
  }

  /** BitMap::WriteBack. */
  method WriteMapBack(freeMap: BitMap, file: OpenFile)
    requires freeMap.Valid() && freeMap.numBits == NUM_SECTORS
    requires file.Valid() && file.hdr.numBytes == FREE_MAP_FILE_SIZE
    modifies file.disk.sectors
    ensures DecodeWords(file.Bytes(), NUM_WORDS) == freeMap.words[..] == old(freeMap.words[..])
    ensures Untouched(old(file.disk.Contents()), file.disk.Contents(), file.hdr.Data())
  {
    var bytes := EncodeWords(freeMap.words[..]);
    WordsRoundTrip(freeMap.words[..]);
    var put := file.WriteAt(bytes, NUM_WORDS * 4, 0);
    assert bytes[..|bytes|] == bytes;
    assert file.Bytes() == bytes;
  }

  /** Two images with the same metadata headers, the second with the given directory and map. */
  ghost predicate Recorded(d: Image, d': Image, t: Table, used: set<int>)
    requires Readable(d)
  {
    && MapHeader(d') == MapHeader(d) && DirHeader(d') == DirHeader(d)
    && TableOf(d') == t && UsedOf(d') == used
  }

  /** Write a new directory and free map over the old ones, in either order. */
  lemma BothRecorded(d: Image, d1: Image, d2: Image, t: Table, words: seq<Word>, dirFirst: bool)
    requires Readable(d) && MapHeader(d).Data() !! DirHeader(d).Data()
    requires {FREE_MAP_SECTOR, DIRECTORY_SECTOR} !! MetaData(d)
    requires |words| == NUM_WORDS
    requires if dirFirst
      then (Untouched(d, d1, DirHeader(d).Data()) && Untouched(d1, d2, MapHeader(d).Data()) &&
            DecodeTable(FileBytes(d1, DirHeader(d)), NUM_DIR_ENTRIES) == t &&
            DecodeWords(FileBytes(d2, MapHeader(d)), NUM_WORDS) == words)
      else (Untouched(d, d1, MapHeader(d).Data()) && Untouched(d1, d2, DirHeader(d).Data()) &&
            DecodeWords(FileBytes(d1, MapHeader(d)), NUM_WORDS) == words &&
            DecodeTable(FileBytes(d2, DirHeader(d)), NUM_DIR_ENTRIES) == t)
    ensures Recorded(d, d2, t, Marked(words, NUM_SECTORS)) && Untouched(d, d2, MetaData(d))
  {
    if dirFirst {
      FileBytesFrame(d1, d2, DirHeader(d));
    } else {
      FileBytesFrame(d1, d2, MapHeader(d));
    }
    assert d2[FREE_MAP_SECTOR] == d[FREE_MAP_SECTOR] && d2[DIRECTORY_SECTOR] == d[DIRECTORY_SECTOR];
  }

  /** The metadata files are apart from each other and from the two header sectors. */
  ghost predicate MetaShape(d: Image) {
    && Readable(d) && MapHeader(d).Data() !! DirHeader(d).Data()
    && {FREE_MAP_SECTOR, DIRECTORY_SECTOR} !! MetaData(d)
  }

  lemma SoundHasShape(d: Image)
    requires Sound(d)
    ensures MetaShape(d) && MetaData(d) + {FREE_MAP_SECTOR, DIRECTORY_SECTOR} <= UsedOf(d)
  {
    MetaExtents(d, TableOf(d), UsedOf(d));
    WithoutHeaders(FREE_MAP_SECTOR, MapHeader(d).Data(), DIRECTORY_SECTOR, DirHeader(d).Data(), UsedOf(d));
  }

  lemma WithoutHeaders(s: int, a: set<int>, t: int, b: set<int>, used: set<int>)
    requires s !in a && t !in b && {s} + a !! {t} + b && ({s} + a) + ({t} + b) <= used
    ensures a !! b && {s, t} !! a + b && a + b + {s, t} <= used
  {
  }

  lemma MetaExtents(d: Image, t: Table, used: set<int>)
    requires SoundWith(d, t, used)
    ensures OwnerOk(d, FREE_MAP_SECTOR) && OwnerOk(d, DIRECTORY_SECTOR)
    ensures Extent(d, FREE_MAP_SECTOR) !! Extent(d, DIRECTORY_SECTOR)
    ensures Extent(d, FREE_MAP_SECTOR) + Extent(d, DIRECTORY_SECTOR) <= used
  {
    ExtentIs(d, t, 0);
    ExtentIs(d, t, 1);
  }

  /** Storing a header in an unowned sector does not disturb the metadata. */
  lemma HeaderStored(d: Image, d1: Image, sec: int, h: Header)
    requires MetaShape(d) && 0 <= sec < NUM_SECTORS && sec !in MetaData(d) + {FREE_MAP_SECTOR, DIRECTORY_SECTOR}
    requires |h.dataSectors| == NUM_DIRECT && d1 == d[sec := EncodeHeader(h)]
    ensures MetaShape(d1) && MapHeader(d1) == MapHeader(d) && DirHeader(d1) == DirHeader(d)
    ensures HeaderAt(d1, sec) == h
  {
    HeaderRoundTrip(h);
  }

  /** A Create request the file system can satisfy. */
  ghost predicate CanCreate(v: View, name: seq<Byte>, size: nat) {
    && !Listed(v.table, name)
    && (exists i :: 0 <= i < NUM_DIR_ENTRIES && !v.table[i].inUse)
    && |v.used| + 1 + DivRoundUp(size, SECTOR_SIZE) <= NUM_SECTORS
  }

  /** The in-memory structures Create has prepared when everything worked. */
  ghost predicate Reserved(v: View, name: seq<Byte>, size: nat, t': Table, used': set<int>, sec: int, h: Header) {
    && 0 <= sec < NUM_SECTORS && sec !in v.used && h.WellFormed() && h.numBytes == size
    && h.Data() !! v.used + {sec} && used' == v.used + {sec} + h.Data()
    && |used'| == |v.used| + 1 + DivRoundUp(size, SECTOR_SIZE)
    && exists i :: Added(v.table, t', name, sec, i)
  }

  lemma CreateWritten(d: Image, v: View, d1: Image, d3: Image, v3: View, name: seq<Byte>, size: nat, sec: int, h: Header)
    requires Readable(d) && v.meta == MetaData(d) && SoundWith(d, v.table, v.used)
    requires Reserved(v, name, size, v3.table, v3.used, sec, h)
    requires d1 == d[sec := EncodeHeader(h)] && Untouched(d1, d3, v.meta)
    ensures CreatedFile(d, v, d3, v3, name, size) && SoundWith(d3, v3.table, v3.used)
  {
    MetaDataIsUsed(d, v.table, v.used);
    var i :| Added(v.table, v3.table, name, sec, i);
    CreateStored(d, v, d1, d3, v3, name, size, i, sec, h);
    CreateAddsOne(d, v, d3, v3, name, size, i, sec, h);
  }

  lemma CreateStored(d: Image, v: View, d1: Image, d3: Image, v3: View, name: seq<Byte>, size: nat, i: int, sec: int, h: Header)
    requires Reserved(v, name, size, v3.table, v3.used, sec, h) && Added(v.table, v3.table, name, sec, i)
    requires v.meta <= v.used && d1 == d[sec := EncodeHeader(h)] && Untouched(d1, d3, v.meta)
    ensures Created(d, v, d3, v3, name, size, i, sec, h)
  {
    HeaderRoundTrip(h);
  }

  lemma FoundIsOwned(d: Image, t: Table, used: set<int>, name: seq<Byte>, i: int)
    requires OwnersOk(d, t) && Exclusive(ExtentsOf(d, t), used) && FoundAt(t, name, i) && i != -1
    ensures Live(t, i + 2) && OwnerOk(d, t[i].sector) && Extent(d, t[i].sector) <= used
  {
    assert Names(t[i], name) && Live(t, i + 2);
    ExtentIs(d, t, i + 2);
  }

  /** A lookup has only one answer. */
  lemma FoundOnce(t: Table, t': Table, name: seq<Byte>, i: int)
    requires FoundAt(t, name, i) && i != -1 && exists j :: Removed(t, t', name, j)
    ensures Removed(t, t', name, i)
  {
    var j :| Removed(t, t', name, j);
    assert Names(t[i], name) && Names(t[j], name);
  }

  /** The in-memory structures Remove has prepared. */
  ghost predicate Erased(d: Image, v: View, t': Table, used': set<int>, name: seq<Byte>)
    requires OwnersOk(d, v.table)
  {
    exists i :: ErasedAt(d, v, t', used', name, i)
  }

  lemma RemoveWritten(d: Image, v: View, d': Image, v': View, name: seq<Byte>)
    requires Readable(d) && v.meta == MetaData(d) && SoundWith(d, v.table, v.used)
    requires Untouched(d, d', v.meta) && Erased(d, v, v'.table, v'.used, name)
    ensures DeletedFile(d, v, d', v', name) && SoundWith(d', v'.table, v'.used)
  {
    var i :| ErasedAt(d, v, v'.table, v'.used, name, i);
    assert Deleted(d, v, d', v', name, i);
    RemoveTakesOne(d, v, d', v', name, i);
  }

  /** The handles kept open hold the headers that are on disk. */
  ghost predicate Opened(disk: SynchDisk, freeMapFile: OpenFile, directoryFile: OpenFile, d: Image) {
    && freeMapFile.disk == disk && directoryFile.disk == disk
    && freeMapFile.hdr == MapHeader(d) && directoryFile.hdr == DirHeader(d)
  }

  /** Flush the directory and the free map. */
  method Commit(disk: SynchDisk, freeMapFile: OpenFile, directoryFile: OpenFile,
                directory: Directory, freeMap: BitMap, dirFirst: bool)
    requires disk.Valid() && Opened(disk, freeMapFile, directoryFile, disk.Contents()) && MetaShape(disk.Contents())
    requires directory.table.Length == NUM_DIR_ENTRIES && freeMap.Valid() && freeMap.numBits == NUM_SECTORS
    modifies disk.sectors
    ensures Recorded(old(disk.Contents()), disk.Contents(), directory.table[..], freeMap.Bits())
    ensures Untouched(old(disk.Contents()), disk.Contents(), old(MetaData(disk.Contents())))
    ensures directory.table[..] == old(directory.table[..]) && freeMap.Bits() == old(freeMap.Bits())
  {
    ghost var d := disk.Contents();
    if dirFirst {
      directory.WriteBack(directoryFile);
      ghost var d1 := disk.Contents();
      WriteMapBack(freeMap, freeMapFile);
      BothRecorded(d, d1, disk.Contents(), directory.table[..], freeMap.words[..], true);
    } else {
      WriteMapBack(freeMap, freeMapFile);
      ghost var d1 := disk.Contents();
      directory.WriteBack(directoryFile);
      BothRecorded(d, d1, disk.Contents(), directory.table[..], freeMap.words[..], false);
    }
  }

  const STDIN: seq<Byte> := [115, 116, 100, 105, 110]
  const STDOUT: seq<Byte> := [115, 116, 100, 111, 117, 116]

  ghost predicate Vacant(t: Table) {
    forall i :: 0 <= i < NUM_DIR_ENTRIES ==> !t[i].inUse
  }

  /** As formatted: only the two metadata files, which take four sectors. */
  ghost predicate Blank(v: View) {
    Vacant(v.table) && |v.used| == 4
  }

  /** Holding `n` used sectors and exactly the files with these names. */
  ghost predicate Holds(v: View, keys: set<seq<Byte>>, n: nat) {
    KeysOf(v.table) == keys && |v.used| == n
  }

  lemma KeysCreated(d: Image, v: View, d': Image, v': View, name: seq<Byte>, size: nat)
    requires NamesDistinct(v'.table) && CreatedFile(d, v, d', v', name, size)
    ensures KeysOf(v'.table) == KeysOf(v.table) + {Key(name)}
    ensures |v'.used| == |v.used| + 1 + DivRoundUp(size, SECTOR_SIZE)
  {
    var i, sec, h :| Created(d, v, d', v', name, size, i, sec, h);
    StoredKey(v.table[i].name, name);
    KeysAdd(v.table, v'.table, i);
  }

  lemma StandardInFits(v: View)
    requires Blank(v)
    ensures CanCreate(v, STDIN, 2) && KeysOf(v.table) == {}
  {
    assert !v.table[0].inUse;
  }

  ghost predicate WithInput(v: View) {
    CanCreate(v, STDOUT, 3) && Holds(v, {Key(STDIN)}, 6)
  }

  /** After the first file there is still room for the second. */
  lemma StandardOutFits(d: Image, v: View, d': Image, v': View)
    requires Blank(v) && NamesDistinct(v'.table) && CreatedFile(d, v, d', v', STDIN, 2)
    ensures WithInput(v')
  {
    StandardInFits(v);
    KeysCreated(d, v, d', v', STDIN, 2);
    assert !v'.table[0].inUse || !v'.table[1].inUse;
    StandardNamesDiffer();
    assert forall i :: 0 <= i < NUM_DIR_ENTRIES && v'.table[i].inUse ==> Key(v'.table[i].name) in KeysOf(v'.table);
    assert !Listed(v'.table, STDOUT);
  }

  /** The freshly formatted disk with its two standard files. */
  ghost predicate WithStandard(v: View) {
    Holds(v, {Key(STDIN), Key(STDOUT)}, 8)
  }

  lemma StandardOutDone(d: Image, v: View, d': Image, v': View)
    requires WithInput(v) && NamesDistinct(v'.table) && CreatedFile(d, v, d', v', STDOUT, 3)
    ensures WithStandard(v')
  {
    KeysCreated(d, v, d', v', STDOUT, 3);
  }

  lemma StandardNamesDiffer()
    ensures Key(STDIN) != Key(STDOUT)
  {
    StrnEqualIsSameKey(STDIN, STDOUT, 0);
    assert !StrnEqual(STDIN, STDOUT, 3, FILE_NAME_MAX_LEN);
    assert !StrnEqual(STDIN, STDOUT, 2, FILE_NAME_MAX_LEN);
    assert !StrnEqual(STDIN, STDOUT, 1, FILE_NAME_MAX_LEN);
  }

  /** A disk holding just the two metadata files is sound. */
  lemma FormatIsSound(d: Image, t: Table, used: set<int>)
    requires MetaShape(d) && Vacant(t)
    requires used == {FREE_MAP_SECTOR, DIRECTORY_SECTOR} + MapHeader(d).Data() + DirHeader(d).Data()
    ensures SoundWith(d, t, used)
  {
    assert forall a {:trigger Live(t, a)} :: Live(t, a) <==> a == 0 || a == 1;
    var m, r := {FREE_MAP_SECTOR} + MapHeader(d).Data(), {DIRECTORY_SECTOR} + DirHeader(d).Data();
    assert ExtentsOf(d, t) == map[0 := m, 1 := r];
    TwoOwners(map[0 := m, 1 := r], m, r, used);
  }

  lemma TwoOwners(ext: Extents, m: set<int>, r: set<int>, used: set<int>)
    requires ext == map[0 := m, 1 := r] && m !! r && used == m + r
    ensures Exclusive(ext, used)
  {
    assert forall s :: s in used ==> OwnedBy(ext, s, 0) || OwnedBy(ext, s, 1);
  }

  /** The formatting branch of the constructor. */
  method FormatDisk(disk: SynchDisk)
    requires disk.Valid()
    modifies disk.sectors
    ensures Sound(disk.Contents()) && Blank(ViewOf(disk.Contents()))
  {
    var directory := new Directory(NUM_DIR_ENTRIES);
    assert Vacant(directory.table[..]);
    var freeMap, mapHdr, dirHdr := NewMeta();
    FormatWith(disk, mapHdr, dirHdr, freeMap, directory);
  }

  method NewMeta() returns (freeMap: BitMap, mapHdr: FileHeader, dirHdr: FileHeader)
    ensures mapHdr.Valid() && dirHdr.Valid() && freeMap.Valid() && freeMap.numBits == NUM_SECTORS
    ensures MetaAllocated(mapHdr.Value(), dirHdr.Value(), freeMap.Bits())
  {
    freeMap := new BitMap(NUM_SECTORS);
    mapHdr := new FileHeader();
    dirHdr := new FileHeader();
    AllocateMeta(freeMap, mapHdr, dirHdr);
  }

  method FormatWith(disk: SynchDisk, mapHdr: FileHeader, dirHdr: FileHeader, freeMap: BitMap, directory: Directory)
    requires disk.Valid() && mapHdr.Valid() && dirHdr.Valid() && freeMap.Valid() && freeMap.numBits == NUM_SECTORS
    requires directory.table.Length == NUM_DIR_ENTRIES && Vacant(directory.table[..])
    requires MetaAllocated(mapHdr.Value(), dirHdr.Value(), freeMap.Bits())
    modifies disk.sectors
    ensures Sound(disk.Contents()) && |UsedOf(disk.Contents())| == 4 && Vacant(TableOf(disk.Contents()))
  {
    WriteFormat(disk, mapHdr, dirHdr, freeMap, directory);
    FormatIsSound(disk.Contents(), directory.table[..], freeMap.Bits());
  }

  /** Headers for the two metadata files, and the free map after taking their sectors. */
  ghost predicate MetaAllocated(m: Header, r: Header, used: set<int>) {
    && m.WellFormed() && m.numBytes == FREE_MAP_FILE_SIZE
    && r.WellFormed() && r.numBytes == DIRECTORY_FILE_SIZE
    && m.Data() !! r.Data() && m.Data() + r.Data() !! {FREE_MAP_SECTOR, DIRECTORY_SECTOR}
    && used == {FREE_MAP_SECTOR, DIRECTORY_SECTOR} + m.Data() + r.Data() && |used| == 4
  }

  /** Take the two header sectors and room for the two metadata files; on an empty map there is
      always enough space. */
  method AllocateMeta(freeMap: BitMap, mapHdr: FileHeader, dirHdr: FileHeader)
    requires mapHdr.Valid() && dirHdr.Valid() && freeMap.Valid() && freeMap.numBits == NUM_SECTORS && freeMap.Bits() == {}
    requires mapHdr != dirHdr && mapHdr.dataSectors != dirHdr.dataSectors
    requires freeMap.words != mapHdr.dataSectors && freeMap.words != dirHdr.dataSectors
    modifies freeMap.words, mapHdr, mapHdr.dataSectors, dirHdr, dirHdr.dataSectors
    ensures MetaAllocated(mapHdr.Value(), dirHdr.Value(), freeMap.Bits())
  {
    MarkMeta(freeMap);
    var gotMap := mapHdr.Allocate(freeMap, FREE_MAP_FILE_SIZE);
    assert gotMap;
    ghost var m, used := mapHdr.Value(), freeMap.Bits();
    var gotDir := dirHdr.Allocate(freeMap, DIRECTORY_FILE_SIZE);
    assert gotDir;
    assert mapHdr.Value() == m;
  }

  method MarkMeta(freeMap: BitMap)
    requires freeMap.Valid() && freeMap.numBits == NUM_SECTORS && freeMap.Bits() == {}
    modifies freeMap.words
    ensures freeMap.Bits() == {FREE_MAP_SECTOR, DIRECTORY_SECTOR}
  {
    freeMap.Mark(FREE_MAP_SECTOR);
    freeMap.Mark(DIRECTORY_SECTOR);
  }

  method StoreHeaders(disk: SynchDisk, mapHdr: FileHeader, dirHdr: FileHeader, ghost used: set<int>)
    requires disk.Valid() && mapHdr.Valid() && dirHdr.Valid() && MetaAllocated(mapHdr.Value(), dirHdr.Value(), used)
    modifies disk.sectors
    ensures MetaShape(disk.Contents()) && mapHdr.Value() == old(mapHdr.Value()) && dirHdr.Value() == old(dirHdr.Value())
    ensures MapHeader(disk.Contents()) == mapHdr.Value() && DirHeader(disk.Contents()) == dirHdr.Value()
  {
    ghost var m, r := mapHdr.Value(), dirHdr.Value();
    HeaderRoundTrip(m);
    HeaderRoundTrip(r);
    mapHdr.WriteBack(disk, FREE_MAP_SECTOR);
    assert dirHdr.Value() == r;
    dirHdr.WriteBack(disk, DIRECTORY_SECTOR);
  }

  method WriteFormat(disk: SynchDisk, mapHdr: FileHeader, dirHdr: FileHeader, freeMap: BitMap, directory: Directory)
    requires disk.Valid() && mapHdr.Valid() && dirHdr.Valid() && freeMap.Valid() && freeMap.numBits == NUM_SECTORS
    requires directory.table.Length == NUM_DIR_ENTRIES
    requires MetaAllocated(mapHdr.Value(), dirHdr.Value(), freeMap.Bits())
    modifies disk.sectors
    ensures MetaShape(disk.Contents())
    ensures MapHeader(disk.Contents()) == mapHdr.Value() && DirHeader(disk.Contents()) == dirHdr.Value()
    ensures TableOf(disk.Contents()) == directory.table[..] == old(directory.table[..])
    ensures UsedOf(disk.Contents()) == freeMap.Bits() == old(freeMap.Bits())
  {
    StoreHeaders(disk, mapHdr, dirHdr, freeMap.Bits());
    var freeMapFile := new OpenFile(disk, FREE_MAP_SECTOR);
    var directoryFile := new OpenFile(disk, DIRECTORY_SECTOR);
    Commit(disk, freeMapFile, directoryFile, directory, freeMap, false);
  }

  class FileSystem {
    const disk: SynchDisk
    const freeMapFile: OpenFile
    const directoryFile: OpenFile

    ghost predicate Valid()
      reads disk.sectors
    {
      && disk.Valid() && Opened(disk, freeMapFile, directoryFile, disk.Contents()) && Sound(disk.Contents())
    }

    /** Open the file system on a disk, formatting it first if asked; either way the two standard
        files are then created if they are not there. */
    constructor (disk: SynchDisk, format: bool)
      requires disk.Valid() && (!format ==> Sound(disk.Contents()))
      modifies disk.sectors
      ensures Valid() && this.disk == disk
      ensures format ==> WithStandard(ViewOf(disk.Contents()))
    {
      if format {
        FormatDisk(disk);
      }
      this.disk := disk;
      freeMapFile := new OpenFile(disk, FREE_MAP_SECTOR);
      directoryFile := new OpenFile(disk, DIRECTORY_SECTOR);
      new;
      CreateIn(format);
      CreateOut(format);
    }

    method CreateIn(ghost formatted: bool)
      requires Valid() && (formatted ==> Blank(ViewOf(disk.Contents())))
      modifies disk.sectors
      ensures Valid() && (formatted ==> WithInput(ViewOf(disk.Contents())))
    {
      ghost var d, v := disk.Contents(), ViewOf(disk.Contents());
      var made := Create(STDIN, 2);
      if formatted {
        StandardInFits(v);
        StandardOutFits(d, v, disk.Contents(), ViewOf(disk.Contents()));
      }
    }

    method CreateOut(ghost formatted: bool)
      requires Valid() && (formatted ==> WithInput(ViewOf(disk.Contents())))
      modifies disk.sectors
      ensures Valid() && (formatted ==> WithStandard(ViewOf(disk.Contents())))
    {
      ghost var d, v := disk.Contents(), ViewOf(disk.Contents());
      var made := Create(STDOUT, 3);
      if formatted {
        StandardOutDone(d, v, disk.Contents(), ViewOf(disk.Contents()));
      }
    }

    /** The in-memory part of Create: look up the name, then take a header sector, a directory slot
        and data sectors.  Nothing is written. */
    static method Reserve(ghost v: View, name: seq<Byte>, initialSize: int, directory: Directory, freeMap: BitMap, hdr: FileHeader)
      returns (ok: bool, sector: int)
      requires 0 <= initialSize <= MAX_FILE_SIZE
      requires freeMap.Valid() && freeMap.numBits == NUM_SECTORS && hdr.Valid() && freeMap.words != hdr.dataSectors
      requires directory.table[..] == v.table && freeMap.Bits() == v.used
      modifies directory.table, freeMap.words, hdr, hdr.dataSectors
      ensures ok <==> CanCreate(v, name, initialSize)
      ensures ok ==> directory.table.Length == NUM_DIR_ENTRIES
      ensures ok ==> Reserved(v, name, initialSize, directory.table[..], freeMap.Bits(), sector, hdr.Value())
    {
      ok, sector := TakeEntry(v, name, directory, freeMap);
      if ok {
        ghost var i :| Added(v.table, directory.table[..], name, sector, i);
        ghost var t' := directory.table[..];
        ok := hdr.Allocate(freeMap, initialSize);
        assert directory.table[..] == t';
      }
    }

    /** Bring the directory and the free map into memory. */
    method FetchMeta() returns (directory: Directory, freeMap: BitMap)
      requires Valid()
      ensures fresh(freeMap.words) && fresh(directory.table) 
      ensures directory.table.Length == NUM_DIR_ENTRIES && freeMap.Valid() && freeMap.numBits == NUM_SECTORS
      ensures directory.table[..] == ViewOf(disk.Contents()).table && freeMap.Bits() == ViewOf(disk.Contents()).used
    {
      directory := new Directory(NUM_DIR_ENTRIES);
      directory.FetchFrom(directoryFile);
      freeMap := new BitMap(NUM_SECTORS);
      FetchMapFrom(freeMap, freeMapFile);
    }

    /** Find a header sector and enter it in the directory under a name that is not there yet. */
    static method TakeEntry(ghost v: View, name: seq<Byte>, directory: Directory, freeMap: BitMap) returns (ok: bool, sector: int)
      requires freeMap.Valid() && freeMap.numBits == NUM_SECTORS
      requires directory.table[..] == v.table && freeMap.Bits() == v.used
      modifies directory.table, freeMap.words
      ensures ok <==> CanCreate(v, name, 0)
      ensures ok ==> 0 <= sector < NUM_SECTORS && sector !in v.used
      ensures ok ==> freeMap.Bits() == v.used + {sector} && |freeMap.Bits()| == |v.used| + 1
      ensures ok ==> exists i :: Added(v.table, directory.table[..], name, sector, i)
    {
      FullExactly(freeMap.words[..], NUM_SECTORS);
      var found := directory.Find(name);
      if found != -1 {
        return false, -1;
      }
      sector := freeMap.Find();
      if sector == -1 {
        return false, -1;
      }
      ok := directory.Add(name, sector);
    }

    /** Create succeeds exactly when the name is new, a directory slot is free, and there is room for
        the header and the data; it then changes the visible files by adding that one, and marks
        exactly 1 + ceil(size / 512) more sectors.  When it fails the disk is not written. */
    method Create(name: seq<Byte>, initialSize: int) returns (ok: bool)
      requires Valid() && 0 <= initialSize <= MAX_FILE_SIZE
      modifies disk.sectors
      ensures Valid()
      ensures ok <==> CanCreate(old(ViewOf(disk.Contents())), name, initialSize)
      ensures !ok ==> disk.Contents() == old(disk.Contents())
      ensures ok ==> CreatedFile(old(disk.Contents()), old(ViewOf(disk.Contents())), disk.Contents(), ViewOf(disk.Contents()), name, initialSize)
    {
      var directory, freeMap := FetchMeta();
      var hdr := new FileHeader();
      var sector;
      ghost var v := ViewOf(disk.Contents());
      ok, sector := Reserve(v, name, initialSize, directory, freeMap, hdr);
      if ok {
        WriteOut(name, initialSize, directory, freeMap, hdr, sector);
      }
    }

    /** The flushing part of Create: header first, then the directory, then the free map. */
    method WriteOut(name: seq<Byte>, initialSize: nat, directory: Directory, freeMap: BitMap, hdr: FileHeader, sector: int)
      requires Valid() && hdr.Valid() && freeMap.Valid() && freeMap.numBits == NUM_SECTORS
      requires directory.table.Length == NUM_DIR_ENTRIES
      requires Reserved(ViewOf(disk.Contents()), name, initialSize, directory.table[..], freeMap.Bits(), sector, hdr.Value())
      modifies disk.sectors
      ensures Valid()
      ensures CreatedFile(old(disk.Contents()), old(ViewOf(disk.Contents())), disk.Contents(), ViewOf(disk.Contents()), name, initialSize)
    {
      ghost var d, v := disk.Contents(), ViewOf(disk.Contents());
      SoundHasShape(d);
      hdr.WriteBack(disk, sector);
      ghost var d1, h := disk.Contents(), hdr.Value();
      HeaderStored(d, d1, sector, h);
      Commit(disk, freeMapFile, directoryFile, directory, freeMap, true);
      CreateWritten(d, v, d1, disk.Contents(), ViewOf(disk.Contents()), name, initialSize, sector, h);
    }

    /** Remove succeeds exactly when the name is in the directory; the file disappears and exactly its
        header and data sectors become free. */
    method Remove(name: seq<Byte>) returns (ok: bool)
      requires Valid()
      modifies disk.sectors
      ensures Valid()
      ensures ok <==> Listed(old(ViewOf(disk.Contents())).table, name)
      ensures !ok ==> disk.Contents() == old(disk.Contents())
      ensures ok ==> DeletedFile(old(disk.Contents()), old(ViewOf(disk.Contents())), disk.Contents(), ViewOf(disk.Contents()), name)
    {
      var directory, freeMap := FetchMeta();
      ghost var d, v := disk.Contents(), ViewOf(disk.Contents());
      ok := Erase(v, name, directory, freeMap);
      if ok {
        SoundHasShape(d);
        Commit(disk, freeMapFile, directoryFile, directory, freeMap, false);
        RemoveWritten(d, v, disk.Contents(), ViewOf(disk.Contents()), name);
      }
    }

    /** The in-memory part of Remove: free the file's sectors and its directory entry. */
    method Erase(ghost v: View, name: seq<Byte>, directory: Directory, freeMap: BitMap) returns (ok: bool)
      requires disk.Valid() && SoundWith(disk.Contents(), v.table, v.used)
      requires freeMap.Valid() && freeMap.numBits == NUM_SECTORS
      requires directory.table[..] == v.table && freeMap.Bits() == v.used
      modifies directory.table, freeMap.words
      ensures ok <==> Listed(v.table, name)
      ensures directory.table.Length == NUM_DIR_ENTRIES
      ensures ok ==> Erased(disk.Contents(), v, directory.table[..], freeMap.Bits(), name)
    {
      ghost var i;
      var sector;
      sector, i := Locate(v, name, directory);
      if sector == -1 {
        return false;
      }
      Release(v, i, sector, freeMap);
      EraseEntry(v.table, name, directory, i);
      assert ErasedAt(disk.Contents(), v, directory.table[..], freeMap.Bits(), name, i);
      return true;
    }

    method Locate(ghost v: View, name: seq<Byte>, directory: Directory) returns (sector: int, ghost i: int)
      requires disk.Valid() && SoundWith(disk.Contents(), v.table, v.used) && directory.table[..] == v.table
      ensures sector != -1 <==> Listed(v.table, name)
      ensures sector != -1 ==> FoundAt(v.table, name, i) && 0 <= i && v.table[i].sector == sector && Live(v.table, i + 2)
      ensures sector != -1 ==> OwnerOk(disk.Contents(), sector) && Extent(disk.Contents(), sector) <= v.used
    {
      sector := directory.Find(name);
      i := -1;
      if sector != -1 {
        i :| FoundAt(v.table, name, i) && i != -1 && v.table[i].sector == sector;
        FoundIsOwned(disk.Contents(), v.table, v.used, name, i);
      }
    }

    static method EraseEntry(ghost t: Table, name: seq<Byte>, directory: Directory, ghost i: int)
      requires directory.table[..] == t && FoundAt(t, name, i) && i != -1
      modifies directory.table
      ensures directory.table.Length == NUM_DIR_ENTRIES && Removed(t, directory.table[..], name, i)
    {
      var removed := directory.Remove(name);
      assert Names(t[i], name);
      FoundOnce(t, directory.table[..], name, i);
    }

    /** Give the sectors of directory entry i back to the in-memory free map. */
    method Release(ghost v: View, ghost i: int, sector: int, freeMap: BitMap)
      requires disk.Valid() && OwnersOk(disk.Contents(), v.table) && 0 <= i < NUM_DIR_ENTRIES && Live(v.table, i + 2)
      requires sector == v.table[i].sector && OwnerOk(disk.Contents(), sector) && Extent(disk.Contents(), sector) <= v.used
      requires freeMap.Valid() && freeMap.numBits == NUM_SECTORS && freeMap.Bits() == v.used
      modifies freeMap.words
      ensures freeMap.Bits() == v.used - Extent(disk.Contents(), sector)
    {
      var fileHdr := new FileHeader();
      fileHdr.FetchFrom(disk, sector);
      fileHdr.Deallocate(freeMap);
      freeMap.Clear(sector);
    }

    /** A handle on the named file, or null when the directory does not list it. */
    method Open(name: seq<Byte>) returns (f: OpenFile?)
      requires Valid()
      ensures f == null <==> !Listed(ViewOf(disk.Contents()).table, name)
      ensures f != null ==> f.disk == disk && f.seekPosition == 0
      ensures f != null ==> exists i :: Handles(disk.Contents(), ViewOf(disk.Contents()), name, i, f.hdr)
    {
      var directory, freeMap := FetchMeta();
      ghost var v := ViewOf(disk.Contents());
      ghost var i;
      var sector;
      sector, i := Locate(v, name, directory);
      f := null;
      if sector != -1 {
        f := new OpenFile(disk, sector);
        assert Handles(disk.Contents(), v, name, i, f.hdr);
      }
    }

    /** WriteAt through a handle, at a time when its file is still there. */
    method WriteThrough(f: OpenFile, name: seq<Byte>, ghost i: int, data: seq<Byte>, position: nat) returns (n: nat)
      requires Valid() && f.disk == disk && Handles(disk.Contents(), ViewOf(disk.Contents()), name, i, f.hdr)
      requires position + |data| <= INT_MAX
      modifies disk.sectors
      ensures Valid() && n == Transfer(f.hdr.numBytes, |data|, position)
      ensures Written(old(disk.Contents()), old(ViewOf(disk.Contents())), disk.Contents(), i, position, data)
      ensures Handles(disk.Contents(), ViewOf(disk.Contents()), name, i, f.hdr)
    {
      ghost var d, v := disk.Contents(), ViewOf(disk.Contents());
      HandleIsOwned(d, v, name, i, f.hdr);
      n := Put(f, data, position);
      WriteDone(d, v, disk.Contents(), name, i, f.hdr, position, data);
    }

    static method Put(f: OpenFile, data: seq<Byte>, position: nat) returns (n: nat)
      requires f.Valid() && position + |data| <= INT_MAX
      modifies f.disk.sectors
      ensures n == Transfer(f.hdr.numBytes, |data|, position)
      ensures f.Bytes() == WriteOnce(old(f.Bytes()), position, data).0
      ensures Untouched(old(f.disk.Contents()), f.disk.Contents(), f.hdr.Data())
    {
      n := f.WriteAt(data, |data|, position);
    }
  }

  /** h is the header of the file that a lookup of `name` finds, in directory entry i. */
  ghost predicate Handles(d: Image, v: View, name: seq<Byte>, i: int, h: Header) {
    && 0 <= i < NUM_DIR_ENTRIES && FoundAt(v.table, name, i) && Live(v.table, i + 2)
    && v.table[i].sector < NUM_SECTORS && h == HeaderAt(d, v.table[i].sector)
  }

  lemma HandleIsOwned(d: Image, v: View, name: seq<Byte>, i: int, h: Header)
    requires OwnersOk(d, v.table) && Handles(d, v, name, i, h)
    ensures h.WellFormed() && OwnerOk(d, v.table[i].sector)
  {
    assert Live(v.table, i + 2);
  }

  lemma WriteDone(d: Image, v: View, d': Image, name: seq<Byte>, i: int, h: Header, position: nat, data: seq<Byte>)
    requires Readable(d) && v == ViewOf(d) && SoundWith(d, v.table, v.used)
    requires Handles(d, v, name, i, h) && h.WellFormed() && Untouched(d, d', h.Data())
    requires FileBytes(d', h) == WriteOnce(FileBytes(d, h), position, data).0
    ensures Written(d, v, d', i, position, data) && Handles(d', v, name, i, h)
    ensures Readable(d') && ViewOf(d') == v && SoundWith(d', v.table, v.used)
    ensures MapHeader(d') == MapHeader(d) && DirHeader(d') == DirHeader(d)
  {
    HandleIsOwned(d, v, name, i, h);
    WriteChangesOne(d, v, d', i, position, data);
    WriteMisses(d, d', v.table, v.used, i, 0);
    WriteMisses(d, d', v.table, v.used, i, 1);
  }

  // ---- how much room there is -----------------------------------------------------------------

  /** A header and the data. */
  ghost function SectorsFor(size: nat): nat {
    1 + DivRoundUp(size, SECTOR_SIZE)
  }

  /** The sectors that a set of files takes. */
  ghost function Cost(files: map<seq<Byte>, seq<Byte>>): nat
    decreases |files.Keys|
  {
    if files.Keys == {} then 0 else
    var k :| k in files.Keys;
    assert (files - {k}).Keys == files.Keys - {k};
    SectorsFor(|files[k]|) + Cost(files - {k})
  }

  lemma {:induction false} CostDrop(files: map<seq<Byte>, seq<Byte>>, k: seq<Byte>)
    requires k in files
    ensures Cost(files) == SectorsFor(|files[k]|) + Cost(files - {k})
    decreases |files.Keys|
  {
    var c :| c in files.Keys && Cost(files) == SectorsFor(|files[c]|) + Cost(files - {c});
    if c != k {
      var both := files - {c, k};
      assert files - {c} - {k} == both && files - {k} - {c} == both;
      assert (files - {c}).Keys == files.Keys - {c} && (files - {k}).Keys == files.Keys - {k};
      CostDrop(files - {c}, k);
      CostDrop(files - {k}, c);
    }
  }

  lemma {:induction false} ElementsCount(s: seq<Word>)
    requires NoDuplicates(s)
    ensures |Elements(s)| == |s|
  {
    if s != [] {
      var n := |s| - 1;
      ElementsCount(s[..n]);
      assert s == s[..n] + [s[n]];
      assert Elements(s) == Elements(s[..n]) + {s[n] as int};
      assert s[n] !in s[..n];
    } else {
      assert Elements(s) == {};
    }
  }

  lemma ExtentCount(d: Image, s: int)
    requires OwnerOk(d, s)
    ensures |Extent(d, s)| == SectorsFor(HeaderAt(d, s).numBytes)
  {
    var h := HeaderAt(d, s);
    ElementsCount(h.dataSectors[..h.numSectors]);
  }

  ghost function InUse(t: Table): set<int> {
    set i | 0 <= i < NUM_DIR_ENTRIES && t[i].inUse
  }

  lemma VacantExtents(d: Image, t: Table)
    requires OwnersOk(d, t) && Vacant(t)
    ensures OwnerOk(d, FREE_MAP_SECTOR) && OwnerOk(d, DIRECTORY_SECTOR)
    ensures ExtentsOf(d, t) == map[0 := Extent(d, FREE_MAP_SECTOR), 1 := Extent(d, DIRECTORY_SECTOR)]
  {
    assert Live(t, 0) && Live(t, 1);
    assert forall a {:trigger Live(t, a)} :: Live(t, a) <==> a == 0 || a == 1;
  }

  /** With no files, the two metadata files take four sectors. */
  lemma BlankCount(d: Image, t: Table, used: set<int>)
    requires Readable(d) && SoundWith(d, t, used) && Vacant(t)
    ensures |used| == 4
  {
    VacantExtents(d, t);
    MetaCounts(d);
    OnlyTwo(ExtentsOf(d, t), used, Extent(d, FREE_MAP_SECTOR), Extent(d, DIRECTORY_SECTOR));
  }

  lemma MetaCounts(d: Image)
    requires Readable(d) && OwnerOk(d, FREE_MAP_SECTOR) && OwnerOk(d, DIRECTORY_SECTOR)
    ensures |Extent(d, FREE_MAP_SECTOR)| == 2 && |Extent(d, DIRECTORY_SECTOR)| == 2
  {
    ExtentCount(d, FREE_MAP_SECTOR);
    ExtentCount(d, DIRECTORY_SECTOR);
  }

  lemma BlankFiles(d: Image, t: Table)
    requires NamesDistinct(t) && OwnersOk(d, t) && Vacant(t)
    ensures FilesIn(d, t) == map[]
  {
    assert KeysOf(t) == {};
  }

  lemma OnlyTwo(ext: Extents, used: set<int>, m: set<int>, r: set<int>)
    requires Exclusive(ext, used) && ext == map[0 := m, 1 := r]
    ensures |used| == |m| + |r|
  {
    assert 0 in ext && 1 in ext && ext[0] == m && ext[1] == r;
    forall s | s in used
      ensures s in m + r
    {
      var a :| OwnedBy(ext, s, a);
    }
    assert used == m + r;
  }

  /** The free map marks what the files and the metadata take, and the directory lists as many entries. */
  lemma {:induction false} UsedIsCost(d: Image, t: Table, used: set<int>)
    requires Readable(d) && SoundWith(d, t, used)
    ensures |used| == 4 + Cost(FilesIn(d, t)) && |FilesIn(d, t)| == |InUse(t)|
    decreases |InUse(t)|
  {
    if i :| i in InUse(t) {
      var t' := t[i := t[i].(inUse := false)];
      OneLessUsed(d, t, t', used, i);
      OneLessFile(d, t, t', used, i);
      UsedIsCost(d, t', used - Extent(d, t[i].sector));
    } else {
      assert InUse(t) == {} && Vacant(t) by {
        assert forall i :: 0 <= i < NUM_DIR_ENTRIES && t[i].inUse ==> i in InUse(t);
      }
      BlankCount(d, t, used);
      BlankFiles(d, t);
    }
  }

  lemma OneLessUsed(d: Image, t: Table, t': Table, used: set<int>, i: int)
    requires SoundWith(d, t, used) && i in InUse(t) && t' == t[i := t[i].(inUse := false)]
    ensures OwnerOk(d, t[i].sector) && SoundWith(d, t', used - Extent(d, t[i].sector))
    ensures |used| == |used - Extent(d, t[i].sector)| + SectorsFor(HeaderAt(d, t[i].sector).numBytes)
  {
    assert Live(t, i + 2) && HeaderSector(t, i + 2) == t[i].sector;
    NothingMoves(d, t);
    RemoveIsSound(d, d, t, t', used, i);
    ExtentIs(d, t, i + 2);
    ExtentCount(d, t[i].sector);
    Shrinks(used, Extent(d, t[i].sector));
  }

  lemma NothingMoves(d: Image, t: Table)
    requires OwnersOk(d, t)
    ensures OthersKept(d, d, t)
  {
  }

  lemma EntryCount(d: Image, t: Table, i: int)
    requires NamesDistinct(t) && OwnersOk(d, t) && i in InUse(t)
    ensures OwnerOk(d, t[i].sector) && Key(t[i].name) in FilesIn(d, t)
    ensures |FilesIn(d, t)[Key(t[i].name)]| == HeaderAt(d, t[i].sector).numBytes
  {
    assert Live(t, i + 2) && HeaderSector(t, i + 2) == t[i].sector;
    ByNameUpdate(t, BytesOf(d, t), i, EntryBytes(d, t, i));
  }

  lemma OneLessFile(d: Image, t: Table, t': Table, used: set<int>, i: int)
    requires SoundWith(d, t, used) && i in InUse(t) && t' == t[i := t[i].(inUse := false)]
    requires OwnerOk(d, t[i].sector) && NamesDistinct(t') && OwnersOk(d, t')
    ensures Cost(FilesIn(d, t)) == SectorsFor(HeaderAt(d, t[i].sector).numBytes) + Cost(FilesIn(d, t'))
    ensures |FilesIn(d, t)| == |FilesIn(d, t')| + 1 && |InUse(t)| == |InUse(t')| + 1
  {
    NothingMoves(d, t);
    FilesAfterRemove(d, d, t, t', i);
    EntryCount(d, t, i);
    DropOne(FilesIn(d, t), FilesIn(d, t'), Key(t[i].name));
    OneLessInUse(t, t', i);
  }

  lemma OneLessInUse(t: Table, t': Table, i: int)
    requires i in InUse(t) && t' == t[i := t[i].(inUse := false)]
    ensures |InUse(t)| == |InUse(t')| + 1
  {
    assert InUse(t) == InUse(t') + {i};
  }

  lemma Shrinks(used: set<int>, part: set<int>)
    requires part <= used
    ensures |used| == |used - part| + |part|
  {
    assert used == (used - part) + part;
  }

  lemma DropOne(files: map<seq<Byte>, seq<Byte>>, files': map<seq<Byte>, seq<Byte>>, k: seq<Byte>)
    requires k in files && files' == files - {k}
    ensures Cost(files) == SectorsFor(|files[k]|) + Cost(files') && |files| == |files'| + 1
  {
    CostDrop(files, k);
    assert files.Keys == files'.Keys + {k};
  }

  /** Create's success, in terms of the files a user sees. */
  lemma CanCreateExactly(d: Image, v: View, name: seq<Byte>, size: nat)
    requires Readable(d) && SoundWith(d, v.table, v.used)
    ensures CanCreate(v, name, size) <==> Room(FilesIn(d, v.table), name, size)
  {
    UsedIsCost(d, v.table, v.used);
    KeyListed(v.table, BytesOf(d, v.table), name);
    FreeSlotExactly(v.table);
  }

  lemma FreeSlotExactly(t: Table)
    ensures |InUse(t)| < NUM_DIR_ENTRIES <==> exists i :: 0 <= i < NUM_DIR_ENTRIES && !t[i].inUse
  {
    FullBelow(InUse(t), NUM_DIR_ENTRIES);
    assert forall i :: 0 <= i < NUM_DIR_ENTRIES ==> (i in InUse(t) <==> t[i].inUse);
    assert Below(InUse(t), NUM_DIR_ENTRIES) == InUse(t);
  }

  // ---- handles ------------------------------------------------------------------------------------

  /** Only the removal of its own name makes a handle stale. */
  predicate Spares(op: Op, name: seq<Byte>) {
    op.DoRemove? ==> Key(op.name) != Key(name)
  }

  lemma CreateKeepsHandle(d: Image, v: View, d': Image, v': View, other: seq<Byte>, size: nat, j: int, sec: int, g: Header,
                          name: seq<Byte>, i: int, h: Header)
    requires Readable(d) && v.meta == MetaData(d) && SoundWith(d, v.table, v.used)
    requires Created(d, v, d', v', other, size, j, sec, g) && Handles(d, v, name, i, h)
    ensures Handles(d', v', name, i, h)
  {
    OthersStay(d, d', v.table, v.used, v.meta + {sec});
    assert HeaderSector(v.table, i + 2) == v.table[i].sector;
    AddKeepsFound(v.table, v'.table, other, sec, j, name, i);
  }

  /** Entering another name does not change where a lookup stops. */
  lemma AddKeepsFound(t: Table, t': Table, other: seq<Byte>, sec: Word, j: int, name: seq<Byte>, i: int)
    requires Added(t, t', other, sec, j) && FoundAt(t, name, i) && i != -1
    ensures FoundAt(t', name, i) && t'[i] == t[i]
  {
    StoredKey(t[j].name, other);
    assert Names(t[i], name) && !Names(t[i], other);
    assert forall k :: 0 <= k < NUM_DIR_ENTRIES && k != j ==> t'[k] == t[k];
  }

  lemma RemoveKeepsHandle(d: Image, v: View, d': Image, v': View, other: seq<Byte>, j: int, name: seq<Byte>, i: int, h: Header)
    requires Readable(d) && v.meta == MetaData(d) && SoundWith(d, v.table, v.used)
    requires Deleted(d, v, d', v', other, j) && Handles(d, v, name, i, h) && Key(other) != Key(name)
    ensures Handles(d', v', name, i, h)
  {
    OthersStay(d, d', v.table, v.used, v.meta);
    assert HeaderSector(v.table, i + 2) == v.table[i].sector;
    assert Names(v.table[j], other) && Names(v.table[i], name);
    assert forall k :: 0 <= k < NUM_DIR_ENTRIES && k != j ==> v'.table[k] == v.table[k];
  }

  lemma WriteKeepsHandle(d: Image, v: View, d': Image, j: int, position: nat, data: seq<Byte>, name: seq<Byte>, i: int, h: Header)
    requires SoundWith(d, v.table, v.used) && Written(d, v, d', j, position, data) && Handles(d, v, name, i, h)
    ensures Handles(d', v, name, i, h)
  {
    WriteMisses(d, d', v.table, v.used, j, i + 2);
  }

  /** A handle stays good through every call except the removal of its own file: the same entry, the same
      header. */
  lemma HandleSurvives(d: Image, op: Op, d': Image, name: seq<Byte>, i: int, h: Header)
    requires Sound(d) && Step(d, op, d') && Handles(d, ViewOf(d), name, i, h) && Spares(op, name)
    ensures Sound(d') && Handles(d', ViewOf(d'), name, i, h)
  {
    StepRefines(d, op, d');
    var v := ViewOf(d);
    if d' != d {
      if op.DoCreate? {
        var j, sec, g :| Created(d, v, d', ViewOf(d'), op.name, op.size, j, sec, g);
        CreateKeepsHandle(d, v, d', ViewOf(d'), op.name, op.size, j, sec, g, name, i, h);
      } else if op.DoRemove? {
        var j :| Deleted(d, v, d', ViewOf(d'), op.name, j);
        RemoveKeepsHandle(d, v, d', ViewOf(d'), op.name, j, name, i, h);
      } else {
        var j :| FoundAt(v.table, op.name, j) && Written(d, v, d', j, op.position, op.data);
        WriteRefines(d, v, d', op.name, j, op.position, op.data);
        WriteKeepsHandle(d, v, d', j, op.position, op.data, name, i, h);
      }
    }
  }

  // ---- every run --------------------------------------------------------------------------------

  datatype Op =
    | DoCreate(name: seq<Byte>, size: nat)
    | DoRemove(name: seq<Byte>)
    | DoWrite(name: seq<Byte>, position: nat, data: seq<Byte>)

  /** One call, as its effect on the disk. */
  ghost predicate Step(d: Image, op: Op, d': Image)
    requires Sound(d)
  {
    match op
    case DoCreate(name, size) =>
      if CanCreate(ViewOf(d), name, size) then Readable(d') && CreatedFile(d, ViewOf(d), d', ViewOf(d'), name, size)
      else d' == d
    case DoRemove(name) =>
      if Listed(TableOf(d), name) then Readable(d') && DeletedFile(d, ViewOf(d), d', ViewOf(d'), name) else d' == d
    case DoWrite(name, position, data) =>
      if Listed(TableOf(d), name)
      then exists i :: FoundAt(TableOf(d), name, i) && Written(d, ViewOf(d), d', i, position, data) else d' == d
  }

  /** One call, as its effect on the files a user sees. */
  ghost predicate AbstractStep(files: map<seq<Byte>, seq<Byte>>, op: Op, files': map<seq<Byte>, seq<Byte>>) {
    match op
    case DoCreate(name, size) =>
      if Room(files, name, size) then exists bytes :: |bytes| == size && files' == files[Key(name) := bytes]
      else files' == files
    case DoRemove(name) => files' == files - {Key(name)}
    case DoWrite(name, position, data) =>
      if Key(name) in files then files' == files[Key(name) := WriteOnce(files[Key(name)], position, data).0]
      else files' == files
  }

  /** Whether a file can be created is decided by the files there are: the name is new, there are fewer than
      ten, and the sectors they take, with four for the metadata, leave room. */
  ghost predicate Room(files: map<seq<Byte>, seq<Byte>>, name: seq<Byte>, size: nat) {
    Key(name) !in files && |files| < NUM_DIR_ENTRIES && 4 + Cost(files) + SectorsFor(size) <= NUM_SECTORS
  }

  lemma KeyListed(t: Table, bytes: map<int, seq<Byte>>, name: seq<Byte>)
    requires NamesDistinct(t) && Indexes(t, bytes)
    ensures Key(name) in ByName(t, bytes) <==> Listed(t, name)
  {
    if Key(name) in KeysOf(t) {
      assert Names(t[SlotOf(t, Key(name))], name);
    }
  }

  lemma CreateRefines(d: Image, v: View, d': Image, v': View, name: seq<Byte>, size: nat)
    requires Readable(d) && v.meta == MetaData(d) && SoundWith(d, v.table, v.used)
    requires CreatedFile(d, v, d', v', name, size) && CanCreate(v, name, size)
    ensures SoundWith(d', v'.table, v'.used)
    ensures AbstractStep(FilesIn(d, v.table), DoCreate(name, size), FilesIn(d', v'.table))
  {
    var i, sec, h :| Created(d, v, d', v', name, size, i, sec, h);
    CreateAddsOne(d, v, d', v', name, size, i, sec, h);
    CanCreateExactly(d, v, name, size);
    assert |FileBytes(d, h)| == size;
  }

  lemma RemoveRefines(d: Image, v: View, d': Image, v': View, name: seq<Byte>)
    requires Readable(d) && v.meta == MetaData(d) && SoundWith(d, v.table, v.used)
    requires DeletedFile(d, v, d', v', name)
    ensures SoundWith(d', v'.table, v'.used)
    ensures AbstractStep(FilesIn(d, v.table), DoRemove(name), FilesIn(d', v'.table))
  {
    var i :| Deleted(d, v, d', v', name, i);
    RemoveTakesOne(d, v, d', v', name, i);
  }

  lemma WriteRefines(d: Image, v: View, d': Image, name: seq<Byte>, i: int, position: nat, data: seq<Byte>)
    requires Readable(d) && v == ViewOf(d) && SoundWith(d, v.table, v.used)
    requires FoundAt(v.table, name, i) && Written(d, v, d', i, position, data)
    ensures Readable(d') && ViewOf(d') == v && SoundWith(d', v.table, v.used)
    ensures AbstractStep(FilesIn(d, v.table), DoWrite(name, position, data), FilesIn(d', v.table))
  {
    assert Names(v.table[i], name);
    WriteChangesOne(d, v, d', i, position, data);
  }

  lemma RefusedKeeps(d: Image, v: View, op: Op)
    requires Readable(d) && SoundWith(d, v.table, v.used)
    requires if op.DoCreate? then !CanCreate(v, op.name, op.size) else !Listed(v.table, op.name)
    ensures AbstractStep(FilesIn(d, v.table), op, FilesIn(d, v.table))
  {
    KeyListed(v.table, BytesOf(d, v.table), op.name);
    if op.DoCreate? {
      CanCreateExactly(d, v, op.name, op.size);
    }
  }

  /** Each call keeps the on-disk invariant and refines the corresponding change of the files. */
  lemma StepRefines(d: Image, op: Op, d': Image)
    requires Sound(d) && Step(d, op, d')
    ensures Sound(d') && AbstractStep(Files(d), op, Files(d'))
  {
    var v := ViewOf(d);
    if (if op.DoCreate? then !CanCreate(v, op.name, op.size) else !Listed(v.table, op.name)) {
      RefusedKeeps(d, v, op);
    } else if op.DoCreate? {
      CreateRefines(d, v, d', ViewOf(d'), op.name, op.size);
    } else if op.DoRemove? {
      RemoveRefines(d, v, d', ViewOf(d'), op.name);
    } else {
      var i :| FoundAt(v.table, op.name, i) && Written(d, v, d', i, op.position, op.data);
      WriteRefines(d, v, d', op.name, i, op.position, op.data);
    }
  }

  /** A history of disk images, each the result of one call on the one before. */
  ghost predicate Run(history: seq<Image>, ops: seq<Op>) {
    |history| == |ops| + 1 && forall k :: 0 <= k < |ops| ==> Called(history, ops, k)
  }

  ghost predicate Called(history: seq<Image>, ops: seq<Op>, k: int) {
    0 <= k < |ops| && |history| == |ops| + 1 && (Sound(history[k]) ==> Step(history[k], ops[k], history[k + 1]))
  }

  ghost predicate Refined(history: seq<Image>, ops: seq<Op>, j: int) {
    && 0 <= j < |ops| && |history| == |ops| + 1 && Sound(history[j]) && Sound(history[j + 1])
    && AbstractStep(Files(history[j]), ops[j], Files(history[j + 1]))
  }

  lemma OneRefined(history: seq<Image>, ops: seq<Op>, k: int)
    requires Called(history, ops, k) && Sound(history[k])
    ensures Refined(history, ops, k)
  {
    StepRefines(history[k], ops[k], history[k + 1]);
  }

  lemma RefinedIsSound(history: seq<Image>, ops: seq<Op>, k: int)
    requires Refined(history, ops, k)
    ensures Sound(history[k + 1])
  {
  }

  lemma {:induction false} RunStaysSound(history: seq<Image>, ops: seq<Op>, k: nat)
    requires Run(history, ops) && Sound(history[0]) && k <= |ops|
    ensures Sound(history[k])
  {
    if k > 0 {
      RunStaysSound(history, ops, k - 1);
      OneRefined(history, ops, k - 1);
      RefinedIsSound(history, ops, k - 1);
    }
  }

  /** Over every run from a sound disk: names stay distinct, every sector keeps at most one owner,
      the free map on disk stays exact, and the visible files change as the calls say. */
  lemma RunRefines(history: seq<Image>, ops: seq<Op>, k: nat)
    requires Run(history, ops) && Sound(history[0]) && k <= |ops|
    ensures Sound(history[k])
    ensures forall j :: 0 <= j < k ==> Refined(history, ops, j)
  {
    RunStaysSound(history, ops, k);
    forall j | 0 <= j < k
      ensures Refined(history, ops, j)
    {
      RunStaysSound(history, ops, j);
      OneRefined(history, ops, j);
    }
  }

  /** No call of the history from j on removes the file. */
  ghost predicate SparedFrom(ops: seq<Op>, name: seq<Byte>, j: nat, k: nat) {
    forall n :: j <= n < k && n < |ops| ==> Spares(ops[n], name)
  }

  /** So a handle opened at any point of a run stays good until its file is removed. */
  lemma {:induction false} HandleSurvivesRun(history: seq<Image>, ops: seq<Op>, j: nat, k: nat, name: seq<Byte>, i: int, h: Header)
    requires Run(history, ops) && j <= k <= |ops| && Sound(history[j]) && Handles(history[j], ViewOf(history[j]), name, i, h)
    requires SparedFrom(ops, name, j, k)
    ensures Sound(history[k]) && Handles(history[k], ViewOf(history[k]), name, i, h)
    decreases k
  {
    if j < k {
      HandleSurvivesRun(history, ops, j, k - 1, name, i, h);
      assert Called(history, ops, k - 1);
      HandleSurvives(history[k - 1], ops[k - 1], history[k], name, i, h);
    }
  }

  /** Removing a file just created restores the free map and the files. */
  lemma CreateThenRemove(d: Image, v: View, d1: Image, v1: View, d2: Image, v2: View, name: seq<Byte>, size: nat,
                         i: int, sec: int, h: Header, j: int)
    requires Readable(d) && v.meta == MetaData(d) && SoundWith(d, v.table, v.used)
    requires Readable(d1) && v1.meta == MetaData(d1)
    requires Created(d, v, d1, v1, name, size, i, sec, h)
    requires OwnersOk(d1, v1.table) && Deleted(d1, v1, d2, v2, name, j)
    ensures v2.used == v.used && SoundWith(d2, v2.table, v2.used)
    ensures FilesIn(d2, v2.table) == FilesIn(d, v.table)
  {
    CreateAddsOne(d, v, d1, v1, name, size, i, sec, h);
    RemoveTakesOne(d1, v1, d2, v2, name, j);
    UsedRestored(d, v, d1, v1, v2, name, size, i, sec, h, j);
    PutThenDrop(FilesIn(d, v.table), Key(name), FileBytes(d, h));
  }

  lemma PutThenDrop(m: map<seq<Byte>, seq<Byte>>, k: seq<Byte>, x: seq<Byte>)
    requires k !in m
    ensures m[k := x] - {k} == m
  {
  }

  lemma UsedRestored(d: Image, v: View, d1: Image, v1: View, v2: View, name: seq<Byte>, size: nat, i: int, sec: int, h: Header, j: int)
    requires Created(d, v, d1, v1, name, size, i, sec, h)
    requires OwnersOk(d1, v1.table) && ErasedAt(d1, v1, v2.table, v2.used, name, j)
    ensures v2.used == v.used
  {
    SlotFound(v.table, v1.table, name, sec, i, j);
    assert Extent(d1, sec) == {sec} + h.Data();
  }

  lemma SlotFound(t: Table, t': Table, name: seq<Byte>, sec: Word, i: int, j: int)
    requires Added(t, t', name, sec, i) && FoundAt(t', name, j) && j != -1
    ensures j == i
  {
    assert Names(t'[j], name);
  }
}
