/** disk.cc: how long a request takes on the simulated disk: seek, rotation, and the track buffer
    that keeps what has passed under the head since it reached the current track. */
module DiskTiming {
  import opened SynchDisks

  const SECTORS_PER_TRACK := 32
  const NUM_TRACKS := NUM_SECTORS / SECTORS_PER_TRACK
  const ROTATION_TIME := 500
  const SEEK_TIME := 500

  function Abs(x: int): nat {
    if x < 0 then -x else x
  }

  /** Division as C does it, rounding toward zero; the divisor is positive. */
  function CDiv(n: int, d: int): int
    requires d > 0
  {
    if n >= 0 then n / d else -(-n / d)
  }

  function ModuloDiff(to: nat, from: nat): (k: nat)
    ensures k < SECTORS_PER_TRACK
  {
    (to % SECTORS_PER_TRACK - from % SECTORS_PER_TRACK + SECTORS_PER_TRACK) % SECTORS_PER_TRACK
  }

  /** Rotation slot t is the interval from t * ROTATION_TIME to (t + 1) * ROTATION_TIME; in it the
      sector with that number, modulo the track length, passes under the head. */
  ghost predicate Passes(sector: nat, t: int) {
    t % SECTORS_PER_TRACK == sector % SECTORS_PER_TRACK
  }

  /** A full pass of `sector` that starts no earlier than `since` and is over by `done`. */
  ghost predicate FullPass(sector: nat, since: int, done: int, t: int) {
    Passes(sector, t) && since <= t * ROTATION_TIME && (t + 1) * ROTATION_TIME <= done
  }

  /** ModuloDiff is the least number of slots from `from` to one in which `to` passes. */
  lemma ModuloDiffIsLeast(to: nat, from: nat, t: int)
    ensures Passes(to, from + ModuloDiff(to, from))
    ensures from <= t && Passes(to, t) ==> from + ModuloDiff(to, from) <= t
  {
    var a, b := to % SECTORS_PER_TRACK, from % SECTORS_PER_TRACK;
    var k := ModuloDiff(to, from);
    assert k == if a >= b then a - b else a - b + SECTORS_PER_TRACK;
    assert (b + k) % SECTORS_PER_TRACK == a;
    assert from == from / SECTORS_PER_TRACK * SECTORS_PER_TRACK + b;
    assert (from + k) % SECTORS_PER_TRACK == a;
  }

  class Disk {
    var lastSector: nat
    var bufferInit: int
    var active: bool
    var clock: nat            // stats->totalTicks
    ghost var completion: nat // when the request in progress will finish
    ghost var arrival: int    // when the head last reached the track it is on, or will

    /** What holds between operations: the buffer started filling at the first sector boundary
        after the head arrived, and not in the future unless a request is still in progress. */
    ghost predicate Valid()
      reads this
    {
      && lastSector < NUM_SECTORS
      && bufferInit % ROTATION_TIME == 0 && 0 <= bufferInit
      && arrival <= bufferInit < arrival + ROTATION_TIME
      && (if active then bufferInit < completion else bufferInit <= clock)
    }

    constructor ()
      ensures Valid() && !active && clock == 0
    {
      lastSector, bufferInit, active, clock := 0, 0, false, 0;
      completion, arrival := 0, 0;
    }

    /** Seek time, and the wait from the end of the seek to the next sector boundary. */
    function TimeToSeek(newSector: nat): (r: (nat, nat))
      requires newSector < NUM_SECTORS && lastSector < NUM_SECTORS
      reads this
      ensures r.0 <= (NUM_TRACKS - 1) * SEEK_TIME && r.1 < ROTATION_TIME
      ensures (clock + r.0 + r.1) % ROTATION_TIME == 0
      ensures r.0 == 0 <==> newSector / SECTORS_PER_TRACK == lastSector / SECTORS_PER_TRACK
      ensures var from, to := lastSector / SECTORS_PER_TRACK, newSector / SECTORS_PER_TRACK;
        r.0 == 500 * (if from <= to then to - from else from - to)
    {
      var seek := Abs(newSector / SECTORS_PER_TRACK - lastSector / SECTORS_PER_TRACK) * SEEK_TIME;
      var over := (clock + seek) % ROTATION_TIME;
      (seek, if over > 0 then ROTATION_TIME - over else 0)
    }

    /** The track buffer already holds the sector. */
    predicate Buffered(newSector: nat, writing: bool)
      requires newSector < NUM_SECTORS && lastSector < NUM_SECTORS && bufferInit >= 0
      reads this
    {
      var (seek, rotation) := TimeToSeek(newSector);
      !writing && seek == 0 &&
      CDiv(clock + seek + rotation - bufferInit, ROTATION_TIME) > ModuloDiff(newSector, bufferInit / ROTATION_TIME)
    }

    function ComputeLatency(newSector: nat, writing: bool): (ticks: nat)
      requires newSector < NUM_SECTORS && Valid()
      reads this
      ensures ROTATION_TIME <= ticks < 64 * ROTATION_TIME
      ensures Buffered(newSector, writing) ==> ticks == ROTATION_TIME
    {
      var (seek, rotation) := TimeToSeek(newSector);
      var timeAfter := clock + seek + rotation;
      if Buffered(newSector, writing) then ROTATION_TIME
      else seek + rotation + ModuloDiff(newSector, timeAfter / ROTATION_TIME) * ROTATION_TIME + ROTATION_TIME
    }

    /** When the head is on the right track: at once if it is there already. */
    ghost function OnTrack(newSector: nat): int
      requires newSector < NUM_SECTORS && lastSector < NUM_SECTORS
      reads this
    {
      var seek := TimeToSeek(newSector).0;
      if seek == 0 then arrival else clock + seek
    }

    /** Every request finishes no earlier than the end of a full pass of its sector that began after
        the head reached the track. */
    lemma LatencyCoversPass(newSector: nat, writing: bool) returns (t: int)
      requires Valid() && !active && newSector < NUM_SECTORS
      ensures FullPass(newSector, OnTrack(newSector), clock + ComputeLatency(newSector, writing), t)
      ensures !Buffered(newSector, writing) ==> clock + TimeToSeek(newSector).0 <= t * ROTATION_TIME
    {
      var (seek, rotation) := TimeToSeek(newSector);
      var timeAfter := clock + seek + rotation;
      if Buffered(newSector, writing) {
        t := bufferInit / ROTATION_TIME + ModuloDiff(newSector, bufferInit / ROTATION_TIME);
        ModuloDiffIsLeast(newSector, bufferInit / ROTATION_TIME, t);
      } else {
        t := timeAfter / ROTATION_TIME + ModuloDiff(newSector, timeAfter / ROTATION_TIME);
        ModuloDiffIsLeast(newSector, timeAfter / ROTATION_TIME, t);
      }
    }

    /** Without the buffer, the request finishes at the end of the first full pass after the seek. */
    lemma RotationIsLeast(newSector: nat, writing: bool, t: int)
      requires Valid() && newSector < NUM_SECTORS && !Buffered(newSector, writing)
      requires Passes(newSector, t) && clock + TimeToSeek(newSector).0 <= t * ROTATION_TIME
      ensures clock + ComputeLatency(newSector, writing) <= (t + 1) * ROTATION_TIME
    {
      var (seek, rotation) := TimeToSeek(newSector);
      var slot := (clock + seek + rotation) / ROTATION_TIME;
      assert slot * ROTATION_TIME == clock + seek + rotation;
      assert slot <= t;
      ModuloDiffIsLeast(newSector, slot, t);
    }

    /** The buffer is used exactly when reading, on the same track, a sector of which a full pass on this track is
        already over by the next sector boundary. */
    lemma BufferedExactly(newSector: nat, writing: bool, t: int)
      requires Valid() && !active && newSector < NUM_SECTORS
      ensures Buffered(newSector, writing) ==> !writing && TimeToSeek(newSector).0 == 0
      ensures !writing && TimeToSeek(newSector).0 == 0 && FullPass(newSector, bufferInit, clock + TimeToSeek(newSector).1, t) ==>
        Buffered(newSector, writing)
      ensures Buffered(newSector, writing) ==>
        var done := clock + TimeToSeek(newSector).1; exists u :: FullPass(newSector, bufferInit, done, u)
    {
      var slot := bufferInit / ROTATION_TIME;
      ModuloDiffIsLeast(newSector, slot, t);
      if Buffered(newSector, writing) {
        assert FullPass(newSector, bufferInit, clock + TimeToSeek(newSector).1, slot + ModuloDiff(newSector, slot));
      }
    }

    method UpdateLast(newSector: nat)
      requires newSector < NUM_SECTORS && lastSector < NUM_SECTORS
      modifies this`lastSector, this`bufferInit, this`arrival
      ensures lastSector == newSector
      ensures old(TimeToSeek(newSector)).0 == 0 ==> bufferInit == old(bufferInit) && arrival == old(arrival)
      ensures old(TimeToSeek(newSector)).0 != 0 ==>
        arrival == clock + old(TimeToSeek(newSector)).0 && bufferInit == arrival + old(TimeToSeek(newSector)).1
    {
      var (seek, rotate) := TimeToSeek(newSector);
      if seek != 0 {
        bufferInit := clock + seek + rotate;
        arrival := clock + seek;
      }
      lastSector := newSector;
    }

    /** ReadRequest and WriteRequest, as far as timing goes. */
    method Request(newSector: nat, writing: bool) returns (ticks: nat)
      requires Valid() && !active && newSector < NUM_SECTORS
      modifies this
      ensures Valid() && active && clock == old(clock) && lastSector == newSector
      ensures ticks == old(ComputeLatency(newSector, writing)) && completion == clock + ticks
      ensures exists t :: FullPass(newSector, arrival, completion, t)
    {
      ticks := ComputeLatency(newSector, writing);
      ghost var t := LatencyCoversPass(newSector, writing);
      active := true;
      UpdateLast(newSector);
      completion := clock + ticks;
      assert FullPass(newSector, arrival, completion, t);
    }

    /** Simulated time goes by. */
    method Advance(ticks: nat)
      requires Valid()
      modifies this`clock
      ensures Valid() && clock == old(clock) + ticks
    {
      clock := clock + ticks;
    }

    /** The completion interrupt, which comes at the scheduled time or later. */
    method HandleInterrupt()
      requires Valid() && active && clock >= completion
      modifies this`active
      ensures Valid() && !active
    {
      active := false;
    }
  }
}
