/** synchdisk.cc: the disk as the file system sees it, one whole sector at a time. */
module SynchDisks {
  import opened Words

  const SECTOR_SIZE := 512
  const NUM_SECTORS := 1024

  type Sector = s: seq<Byte> | |s| == SECTOR_SIZE witness seq(SECTOR_SIZE, _ => 0)
  const BLANK_SECTOR: Sector := seq(SECTOR_SIZE, _ => 0)
  type Image = d: seq<Sector> | |d| == NUM_SECTORS witness seq<Sector>(NUM_SECTORS, _ => BLANK_SECTOR)

  /** `old` with the bytes from `at` on replaced by `piece`. */
  function Splice<T>(old_: seq<T>, at: nat, piece: seq<T>): (r: seq<T>)
    requires at + |piece| <= |old_|
    ensures |r| == |old_|
    ensures forall k :: 0 <= k < |r| ==> r[k] == if at <= k < at + |piece| then piece[k - at] else old_[k]
  {
    old_[..at] + piece + old_[at + |piece|..]
  }

  class SynchDisk {
    const sectors: array<Sector>

    ghost predicate Valid() {
      sectors.Length == NUM_SECTORS
    }

    ghost function Contents(): (d: Image)
      requires Valid()
      reads sectors
    {
      sectors[..]
    }

    /** Nothing is known about what is on the disk to begin with. */
    constructor ()
      ensures Valid() && fresh(sectors)
    {
      sectors := new Sector[NUM_SECTORS];
    }

    method ReadSector(sectorNumber: int, data: array<Byte>, at: nat)
      requires Valid() && 0 <= sectorNumber < NUM_SECTORS
      requires at + SECTOR_SIZE <= data.Length
      modifies data
      ensures data[..] == Splice(old(data[..]), at, Contents()[sectorNumber])
    {
      var s := sectors[sectorNumber];
      for k := 0 to SECTOR_SIZE
        invariant data[..] == Splice(old(data[..]), at, s[..k])
      {
        data[at + k] := s[k];
      }
      assert s[..SECTOR_SIZE] == s;
    }

    method WriteSector(sectorNumber: int, data: array<Byte>, at: nat)
      requires Valid() && 0 <= sectorNumber < NUM_SECTORS
      requires at + SECTOR_SIZE <= data.Length
      modifies sectors
      ensures Contents() == old(Contents())[sectorNumber := data[at..at + SECTOR_SIZE]]
    {
      sectors[sectorNumber] := data[at..at + SECTOR_SIZE];
    }
  }
}
