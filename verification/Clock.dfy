/** The hybrid logical clock of hlc.go: its timestamps, their order, and the two
    operations that move the clock. Wall-clock readings are parameters. */
module Clock {
  import opened Wrappers

  /** Durations are in nanoseconds. */
  const HOUR := 3_600_000_000_000
  const MILLISECOND := 1_000_000

  const MAX_INT32 := 0x7FFF_FFFF
  const MIN_INT32 := -0x8000_0000

  datatype Timestamp = Timestamp(physical: int, logical: int)

  predicate GreaterOrEqual(t: Timestamp, other: Timestamp) {
    if t.physical != other.physical then t.physical > other.physical
    else t.logical >= other.logical
  }

  predicate After(t: Timestamp, other: Timestamp) {
    if t.physical > other.physical then true
    else if t.physical < other.physical then false
    else t.logical > other.logical
  }

  /** The logical component is an int32 that wraps around. */
  predicate IsInt32(x: int) { MIN_INT32 <= x <= MAX_INT32 }

  function Increment32(x: int): int {
    if x == MAX_INT32 then MIN_INT32 else x + 1
  }

  /** It counts modulo 2^32, within 32 bits. */
  lemma IncrementWraps(x: int)
    requires IsInt32(x)
    ensures IsInt32(Increment32(x)) && (Increment32(x) - (x + 1)) % 4_294_967_296 == 0
  {
  }

  /** What `Now` makes of the clock when the wall clock shows `wall`. */
  function Tick(c: Timestamp, wall: int): Timestamp {
    if c.physical < wall then Timestamp(wall, 0)
    else Timestamp(c.physical, Increment32(c.logical))
  }

  /** A remote timestamp too far ahead of the local wall clock is refused. */
  predicate ClockSmash(remote: Timestamp, wall: int, maxOffset: int) {
    remote.physical > wall + maxOffset
  }

  /** What an accepted `Update` makes of the clock. */
  function Merge(c: Timestamp, remote: Timestamp, wall: int): Timestamp {
    var physical := Max(Max(wall, c.physical), remote.physical);
    if physical == c.physical && physical == remote.physical then
      Timestamp(physical, Increment32(Max(c.logical, remote.logical)))
    else if physical == c.physical then Timestamp(physical, Increment32(c.logical))
    else if physical == remote.physical then Timestamp(physical, Increment32(remote.logical))
    else Timestamp(physical, 0)
  }

  /** `Now` returns a strictly newer timestamp exactly when the logical component
      does not wrap around; nothing is asked of the wall clock. */
  lemma TickIsNewer(c: Timestamp, wall: int)
    requires IsInt32(c.logical)
    ensures After(Tick(c, wall), c) <==> !(wall <= c.physical && c.logical == MAX_INT32)
  {
  }

  /** The logical component that an `Update` increments, when it increments one. */
  function Carried(c: Timestamp, remote: Timestamp, wall: int): Option<int> {
    if wall > c.physical && wall > remote.physical then None
    else if c.physical > remote.physical then Some(c.logical)
    else if c.physical < remote.physical then Some(remote.logical)
    else Some(Max(c.logical, remote.logical))
  }

  /** `Update` leaves a clock newer than both its own past and the remote timestamp
      exactly when the component it increments is not already the largest int32. */
  lemma MergeIsNewer(c: Timestamp, remote: Timestamp, wall: int)
    requires IsInt32(c.logical) && IsInt32(remote.logical)
    ensures var r := Merge(c, remote, wall);
            After(r, c) && After(r, remote) <==> Carried(c, remote, wall) != Some(MAX_INT32)
  {
  }

  /** A timestamp with a counter that has not wrapped, past the clock and not behind the wall. */
  predicate Admits(c: Timestamp, wall: int, t: Timestamp) {
    After(t, c) && t.physical >= wall && t.logical >= 0
  }

  /** `Now` moves the clock no further than it has to: until the counter wraps, it answers the
      least timestamp that is newer than the clock and not behind the wall. */
  lemma TickIsLeast(c: Timestamp, wall: int, t: Timestamp)
    requires 0 <= c.logical < MAX_INT32
    ensures Admits(c, wall, Tick(c, wall))
    ensures Admits(c, wall, t) ==> GreaterOrEqual(t, Tick(c, wall))
  {
  }

  /** And `Update` to the least one that is newer than the remote timestamp as well. */
  lemma MergeIsLeast(c: Timestamp, remote: Timestamp, wall: int, t: Timestamp)
    requires 0 <= c.logical < MAX_INT32 && 0 <= remote.logical < MAX_INT32
    ensures var r := Merge(c, remote, wall); Admits(c, wall, r) && After(r, remote)
    ensures Admits(c, wall, t) && After(t, remote) ==> GreaterOrEqual(t, Merge(c, remote, wall))
  {
  }

  /** The order of timestamps: physical time first, then the counter; every two are
      comparable, and each is at least as new as the other only when they are the same. */
  lemma OrderIsTotal(a: Timestamp, b: Timestamp, c: Timestamp)
    ensures After(a, b) <==> a.physical > b.physical || (a.physical == b.physical && a.logical > b.logical)
    ensures GreaterOrEqual(a, b) <==> a == b || After(a, b)
    ensures GreaterOrEqual(a, b) <==> !After(b, a)
    ensures After(a, b) && After(b, c) ==> After(a, c)
  {
  }

  class HLC {
    var physical: int
    var logical: int
    var maxOffset: int

    function Reading(): Timestamp
      reads this
    {
      Timestamp(physical, logical)
    }

    constructor (wall: int)
      ensures Reading() == Timestamp(wall, 0) && maxOffset == 500_000_000
    {
      physical, logical, maxOffset := wall, 0, 500_000_000;
    }

    method Now(wall: int) returns (ts: Timestamp)
      modifies this`physical, this`logical
      ensures ts == Reading() == Tick(old(Reading()), wall)
    {
      if physical < wall {
        physical := wall;
        logical := 0;
      } else {
        logical := Increment32(logical);
      }
      ts := Timestamp(physical, logical);
    }

    /** Refuses a smashed clock without moving, or merges the remote timestamp. */
    method Update(remote: Timestamp, wall: int) returns (r: Option<Timestamp>)
      modifies this`physical, this`logical
      ensures r.None? <==> ClockSmash(remote, wall, maxOffset)
      ensures r.None? ==> Reading() == old(Reading())
      ensures r.Some? ==> r.value == Reading() == Merge(old(Reading()), remote, wall)
    {
      if remote.physical > wall + maxOffset {
        return None;
      }
      var maxPhysical := wall;
      if physical > maxPhysical {
        maxPhysical := physical;
      }
      if remote.physical > maxPhysical {
        maxPhysical := remote.physical;
      }
      if maxPhysical == physical && maxPhysical == remote.physical {
        var maxLogical := logical;
        if remote.logical > maxLogical {
          maxLogical := remote.logical;
        }
        logical := Increment32(maxLogical);
      } else if maxPhysical == physical {
        logical := Increment32(logical);
      } else if maxPhysical == remote.physical {
        physical := maxPhysical;
        logical := Increment32(remote.logical);
      } else {
        physical := maxPhysical;
        logical := 0;
      }
      r := Some(Timestamp(physical, logical));
    }
  }
}
