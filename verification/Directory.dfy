/** directory.cc: a fixed table of file names and header locations. */
module Directories {
  import opened Words
  import opened SynchDisks
  import opened FileHeaders
  import opened OpenFiles

  const FILE_NAME_MAX_LEN := 9
  const ENTRY_SIZE := 20          // sizeof(DirectoryEntry): bool + 3 pad, int, char[10] + 2 pad

  type StoredName = s: seq<Byte> | |s| == FILE_NAME_MAX_LEN + 1 witness seq(FILE_NAME_MAX_LEN + 1, _ => 0)

  datatype DirectoryEntry = DirectoryEntry(inUse: bool, sector: Word, name: StoredName)

  // ---- names --------------------------------------------------------------------------------

  /** Character i of a C string given by its characters; a terminator follows them. */
  function CharAt(s: seq<Byte>, i: nat): Byte {
    if i < |s| then s[i] else 0
  }

  /** !strncmp(a, b, n), comparing from character i on. */
  predicate StrnEqual(a: seq<Byte>, b: seq<Byte>, i: nat, n: nat)
    decreases n - i
  {
    i >= n || (CharAt(a, i) == CharAt(b, i) && (CharAt(a, i) == 0 || StrnEqual(a, b, i + 1, n)))
  }

  /** The characters of a name that count, from character i on. */
  function KeyFrom(s: seq<Byte>, i: nat): seq<Byte>
    decreases FILE_NAME_MAX_LEN - i
  {
    if i >= FILE_NAME_MAX_LEN || CharAt(s, i) == 0 then [] else [CharAt(s, i)] + KeyFrom(s, i + 1)
  }

  function Key(s: seq<Byte>): seq<Byte> {
    KeyFrom(s, 0)
  }

  lemma {:induction false} StrnEqualIsSameKey(a: seq<Byte>, b: seq<Byte>, i: nat)
    ensures StrnEqual(a, b, i, FILE_NAME_MAX_LEN) <==> KeyFrom(a, i) == KeyFrom(b, i)
    decreases FILE_NAME_MAX_LEN - i
  {
    if i < FILE_NAME_MAX_LEN {
      StrnEqualIsSameKey(a, b, i + 1);
      assert CharAt(a, i) != 0 ==> KeyFrom(a, i)[0] == CharAt(a, i) && KeyFrom(a, i)[1..] == KeyFrom(a, i + 1);
      assert CharAt(b, i) != 0 ==> KeyFrom(b, i)[0] == CharAt(b, i) && KeyFrom(b, i)[1..] == KeyFrom(b, i + 1);
    }
  }

  /** strncpy(was, name, FileNameMaxLen): the key, padded with zeros; the tenth byte is kept. */
  function StoreName(was: StoredName, name: seq<Byte>): StoredName {
    KeyFits(name, 0);
    Key(name) + seq(FILE_NAME_MAX_LEN - |Key(name)|, _ => 0) + [was[FILE_NAME_MAX_LEN]]
  }

  lemma {:induction false} KeyFits(s: seq<Byte>, i: nat)
    requires i <= FILE_NAME_MAX_LEN
    ensures |KeyFrom(s, i)| <= FILE_NAME_MAX_LEN - i && 0 !in KeyFrom(s, i)
    decreases FILE_NAME_MAX_LEN - i
  {
    if i < FILE_NAME_MAX_LEN {
      KeyFits(s, i + 1);
    }
  }

  /** A name found again under its key, whatever its length. */
  lemma StoredKey(was: StoredName, name: seq<Byte>)
    ensures Key(StoreName(was, name)) == Key(name)
  {
    KeyFits(name, 0);
    KeyOfPadded(StoreName(was, name), Key(name), 0);
  }

  lemma {:induction false} KeyOfPadded(s: seq<Byte>, key: seq<Byte>, i: nat)
    requires i <= |key| <= FILE_NAME_MAX_LEN < |s| && 0 !in key
    requires s[..|key|] == key && forall j :: |key| <= j < FILE_NAME_MAX_LEN ==> s[j] == 0
    ensures KeyFrom(s, i) == key[i..]
    decreases FILE_NAME_MAX_LEN - i
  {
    if i < |key| {
      assert s[i] == key[i] && key[i] in key;
      KeyOfPadded(s, key, i + 1);
    }
  }

  // ---- layout on disk -----------------------------------------------------------------------

  function EntryByte(e: DirectoryEntry, k: nat): Byte
    requires k < ENTRY_SIZE
  {
    if k == 0 then (if e.inUse then 1 else 0)
    else if k < 4 then 0
    else if k < 8 then WordByte(e.sector, k - 4)
    else if k < 18 then e.name[k - 8]
    else 0
  }

  function EncodeTable(t: seq<DirectoryEntry>): (bytes: seq<Byte>)
    ensures |bytes| == ENTRY_SIZE * |t|
  {
    seq(ENTRY_SIZE * |t|, i requires 0 <= i < ENTRY_SIZE * |t| => EntryByte(t[i / ENTRY_SIZE], i % ENTRY_SIZE))
  }

  function DecodeEntry(bytes: seq<Byte>, at: nat): DirectoryEntry
    requires at + ENTRY_SIZE <= |bytes|
  {
    DirectoryEntry(bytes[at] != 0, WordAt(bytes, at + 4), bytes[at + 8..at + 18])
  }

  function DecodeTable(bytes: seq<Byte>, n: nat): (t: seq<DirectoryEntry>)
    requires ENTRY_SIZE * n <= |bytes|
    ensures |t| == n
  {
    seq(n, i requires 0 <= i < n => DecodeEntry(bytes, ENTRY_SIZE * i))
  }

  lemma EntryRoundTrip(t: seq<DirectoryEntry>, i: nat)
    requires i < |t|
    ensures DecodeEntry(EncodeTable(t), ENTRY_SIZE * i) == t[i]
  {
    var bytes, at := EncodeTable(t), ENTRY_SIZE * i;
    assert forall k :: at <= k < at + ENTRY_SIZE ==> bytes[k] == EntryByte(t[i], k - at);
    assert bytes[at] == EntryByte(t[i], 0);
    assert bytes[at + 4] == WordByte(t[i].sector, 0) && bytes[at + 5] == WordByte(t[i].sector, 1);
    assert bytes[at + 6] == WordByte(t[i].sector, 2) && bytes[at + 7] == WordByte(t[i].sector, 3);
    WordSplits(t[i].sector);
    assert bytes[at + 8..at + 18] == t[i].name;
  }

  lemma TableRoundTrip(t: seq<DirectoryEntry>)
    ensures DecodeTable(EncodeTable(t), |t|) == t
  {
    forall i | 0 <= i < |t|
      ensures DecodeTable(EncodeTable(t), |t|)[i] == t[i]
    {
      EntryRoundTrip(t, i);
    }
  }

  // ---- the table ----------------------------------------------------------------------------

  ghost predicate Names(e: DirectoryEntry, name: seq<Byte>) {
    e.inUse && Key(e.name) == Key(name)
  }

  /** i is where a lookup of `name` stops: the first entry in use under that name, or -1. */
  ghost predicate FoundAt(t: seq<DirectoryEntry>, name: seq<Byte>, i: int) {
    && -1 <= i < |t|
    && (i != -1 ==> Names(t[i], name))
    && forall j :: 0 <= j < (if i == -1 then |t| else i) ==> !Names(t[j], name)
  }

  ghost predicate Listed(t: seq<DirectoryEntry>, name: seq<Byte>) {
    exists i :: 0 <= i < |t| && Names(t[i], name)
  }

  /** t' is t with `name` entered in slot i, the first that was not in use. */
  ghost predicate Added(t: seq<DirectoryEntry>, t': seq<DirectoryEntry>, name: seq<Byte>, sector: Word, i: int) {
    && 0 <= i < |t| && !t[i].inUse && (forall j :: 0 <= j < i ==> t[j].inUse) && !Listed(t, name)
    && t' == t[i := DirectoryEntry(true, sector, StoreName(t[i].name, name))]
  }

  ghost predicate Removed(t: seq<DirectoryEntry>, t': seq<DirectoryEntry>, name: seq<Byte>, i: int) {
    && 0 <= i < |t| && FoundAt(t, name, i)
    && t' == t[i := t[i].(inUse := false)]
  }

  class Directory {
    const table: array<DirectoryEntry>

    constructor (size: nat)
      ensures table.Length == size && fresh(table)
      ensures forall i :: 0 <= i < size ==> !table[i].inUse
    {
      table := new DirectoryEntry[size];
      new;
      for i := 0 to size
        invariant forall j :: 0 <= j < i ==> !table[j].inUse
      {
        table[i] := table[i].(inUse := false);
      }
    }

    method FetchFrom(file: OpenFile)
      requires file.Valid() && file.hdr.numBytes == ENTRY_SIZE * table.Length
      modifies table
      ensures table[..] == DecodeTable(file.Bytes(), table.Length)
    {
      var raw := new Byte[table.Length * ENTRY_SIZE];
      var got := file.ReadAt(raw, 0, table.Length * ENTRY_SIZE, 0);
      assert raw[..] == file.Bytes();
      Load(DecodeTable(raw[..], table.Length));
    }

    method Load(t: seq<DirectoryEntry>)
      requires |t| == table.Length
      modifies table
      ensures table[..] == t
    {
      for i := 0 to table.Length
        invariant table[..i] == t[..i]
      {
        table[i] := t[i];
      }
    }

    method WriteBack(file: OpenFile)
      requires file.Valid() && file.hdr.numBytes == ENTRY_SIZE * table.Length
      modifies file.disk.sectors
      ensures DecodeTable(file.Bytes(), table.Length) == table[..] == old(table[..])
      ensures forall s :: 0 <= s < NUM_SECTORS && s !in file.hdr.Data() ==>
        file.disk.Contents()[s] == old(file.disk.Contents())[s]
    {
      var bytes := EncodeTable(table[..]);
      TableRoundTrip(table[..]);
      var put := file.WriteAt(bytes, table.Length * ENTRY_SIZE, 0);
      assert bytes[..|bytes|] == bytes;
      assert file.Bytes() == bytes;
    }

    method FindIndex(name: seq<Byte>) returns (index: int)
      ensures FoundAt(table[..], name, index)
    {
      for i := 0 to table.Length
        invariant forall j :: 0 <= j < i ==> !Names(table[j], name)
      {
        StrnEqualIsSameKey(table[i].name, name, 0);
        if table[i].inUse && StrnEqual(table[i].name, name, 0, FILE_NAME_MAX_LEN) {
          return i;
        }
      }
      return -1;
    }

    method Find(name: seq<Byte>) returns (sector: int)
      ensures sector == -1 <==> !Listed(table[..], name)
      ensures sector != -1 ==> exists i :: FoundAt(table[..], name, i) && i != -1 && table[i].sector == sector
    {
      var i := FindIndex(name);
      if i != -1 {
        assert Names(table[i], name);
        return table[i].sector;
      }
      return -1;
    }

    /** Enter a name in the first unused slot.  Fails, changing nothing, when the name is there
        already or every slot is in use. */
    method Add(name: seq<Byte>, newSector: Word) returns (ok: bool)
      modifies table
      ensures !ok ==> table[..] == old(table[..])
      ensures !ok ==> Listed(table[..], name) || forall j :: 0 <= j < table.Length ==> table[j].inUse
      ensures ok ==> exists i :: Added(old(table[..]), table[..], name, newSector, i)
    {
      var index := FindIndex(name);
      if index != -1 {
        return false;
      }
      for i := 0 to table.Length
        invariant table[..] == old(table[..])
        invariant forall j :: 0 <= j < i ==> table[j].inUse
      {
        if !table[i].inUse {
          table[i] := DirectoryEntry(true, newSector, StoreName(table[i].name, name));
          assert Added(old(table[..]), table[..], name, newSector, i);
          return true;
        }
      }
      return false;
    }

    method Remove(name: seq<Byte>) returns (ok: bool)
      modifies table
      ensures ok <==> Listed(old(table[..]), name)
      ensures !ok ==> table[..] == old(table[..])
      ensures ok ==> exists i :: Removed(old(table[..]), table[..], name, i)
    {
      var i := FindIndex(name);
      if i == -1 {
        return false;
      }
      table[i] := table[i].(inUse := false);
      assert Removed(old(table[..]), table[..], name, i);
      return true;
    }
  }
}
