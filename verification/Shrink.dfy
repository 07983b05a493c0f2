/**
 How far a partition can shrink, which sizes are accepted, and when the space a shrink frees is
 enough once it has been rounded to whole MiB.
 */
module Shrink {
  import opened Common
  import opened Disk
  import opened Intervals

  // What a shrink leaves a filesystem above the minimum it needs.
  const SHRINK_HEADROOM: int := 2 * GIB

  /** `smallest` is 0 when the partition cannot be shrunk. */
  datatype ShrinkInfo = ShrinkInfo(size: int, smallest: int) {
    function LargestRoom(): int {
      if smallest == 0 then 0 else Max((size - smallest) / MIB * MIB, 0)
    }

    predicate Shrinkable() {
      LargestRoom() >= ROOM_NEEDED
    }
  }

  /** What measuring a partition yields when the measuring commands succeed. */
  function Measured(p: Partition): ShrinkInfo {
    if p.fs !in {Ntfs, Ext4} || p.mounted then ShrinkInfo(p.Size(), 0)
    else ShrinkInfo(p.Size(), Min(AlignUp(p.minimum + SHRINK_HEADROOM), p.Size()))
  }

  function RoundedSize(shrinkSize: int): int {
    shrinkSize / MIB * MIB
  }

  predicate AcceptedSize(info: ShrinkInfo, shrinkSize: int) {
    && info.smallest != 0
    && RoundedSize(shrinkSize) >= info.smallest
    && info.size - RoundedSize(shrinkSize) >= ROOM_NEEDED
  }

  /** The checks the installer makes before it shrinks a partition. */
  predicate Accepted(p: Partition, shrinkSize: int) {
    AcceptedSize(Measured(p), shrinkSize)
  }

  // -- shrinkable means some size is accepted ------------------------------------

  lemma AcceptedFacts(p: Partition, shrinkSize: int)
    requires Accepted(p, shrinkSize)
    ensures Measured(p).smallest % MIB == 0
    ensures p.fs in {Ntfs, Ext4} && !p.mounted
    ensures RoundedSize(shrinkSize) >= p.minimum + SHRINK_HEADROOM
    ensures RoundedSize(shrinkSize) % MIB == 0
    ensures 0 < RoundedSize(shrinkSize) && RoundedSize(shrinkSize) + ROOM_NEEDED <= p.Size()
  {
    AlignFacts(p.minimum + SHRINK_HEADROOM);
  }

  /** Exactly which sizes are accepted: of an idle NTFS or ext4 partition, those that, rounded down to a
      MiB, keep 2 GiB above what its files need and free 17 GiB. */
  lemma AcceptedIff(p: Partition, shrinkSize: int)
    requires 0 < p.Size()
    ensures RoundedSize(shrinkSize) % MIB == 0 && shrinkSize - MIB < RoundedSize(shrinkSize) <= shrinkSize
    ensures Accepted(p, shrinkSize) <==>
            && (p.fs == Ntfs || p.fs == Ext4) && !p.mounted
            && RoundedSize(shrinkSize) >= p.minimum + 2 * GIB
            && p.Size() - RoundedSize(shrinkSize) >= 17 * GIB
  {
    AlignFacts(p.minimum + SHRINK_HEADROOM);
    AlignFacts(shrinkSize);
    AlignedAbove(p.minimum + SHRINK_HEADROOM, RoundedSize(shrinkSize));
  }

  lemma AlignedAbove(v: int, m: int)
    requires m % MIB == 0
    ensures m >= AlignUp(v) <==> m >= v
  {
    AlignFacts(v);
  }

  /** Every accepted size keeps the measured minimum and the headroom, and frees what is needed. */
  lemma AcceptedKeepsHeadroom(p: Partition, shrinkSize: int)
    requires Accepted(p, shrinkSize)
    ensures p.minimum + SHRINK_HEADROOM <= RoundedSize(shrinkSize) <= p.Size() - ROOM_NEEDED
    ensures shrinkSize - MIB < RoundedSize(shrinkSize) <= shrinkSize
  {
    AcceptedFacts(p, shrinkSize);
  }

  /** A partition is reported shrinkable exactly when some requested size would be accepted. */
  lemma ShrinkableIffSomeSizeAccepted(p: Partition)
    requires 0 < p.Size()
    ensures Measured(p).Shrinkable() <==> exists size :: size > 0 && Accepted(p, size)
  {
    var info := Measured(p);
    if info.Shrinkable() {
      AlignFacts(p.minimum + SHRINK_HEADROOM);
      assert RoundedSize(info.smallest) == info.smallest;
      assert info.smallest > 0 && Accepted(p, info.smallest);
    }
    if size :| size > 0 && Accepted(p, size) {
      AcceptedFacts(p, size);
    }
  }

  // -- the disk screen -------------------------------------------------------------

  /** The room the screen proposes once a partition has been measured; `previous` is an earlier
      choice for it, or 0. */
  function ProposedRoom(info: ShrinkInfo, previous: int): int {
    var half := info.LargestRoom() / 2 / GIB * GIB;
    var preferred := if previous != 0 then previous else Max(ROOM_NEEDED, half);
    Min(Max(preferred, ROOM_NEEDED), info.LargestRoom())
  }

  /** What is proposed: the earlier choice as far as it can be had, and else half of what can be freed,
      in whole GiB, but never less than is needed. */
  lemma ProposedRoomIs(info: ShrinkInfo, previous: int)
    requires info.Shrinkable()
    ensures ROOM_NEEDED <= ProposedRoom(info, previous) <= info.LargestRoom()
    ensures previous != 0 && ROOM_NEEDED <= previous <= info.LargestRoom() ==> ProposedRoom(info, previous) == previous
    ensures previous == 0 && info.LargestRoom() >= 2 * ROOM_NEEDED ==>
              && ProposedRoom(info, previous) % GIB == 0
              && 2 * ProposedRoom(info, previous) <= info.LargestRoom() < 2 * ProposedRoom(info, previous) + 2 * GIB
    ensures previous == 0 && info.LargestRoom() < 2 * ROOM_NEEDED ==> ProposedRoom(info, previous) == ROOM_NEEDED
  {
    var half, needed := info.LargestRoom() / 2, ROOM_NEEDED / GIB;
    assert half == half / GIB * GIB + half % GIB && ROOM_NEEDED == needed * GIB;
    if info.LargestRoom() >= 2 * ROOM_NEEDED {
      assert half / GIB >= needed;
    }
  }

  /** Values the room can have: the proposal, or a slider position between its bounds. */
  ghost predicate RoomShown(info: ShrinkInfo, room: int) {
    || (exists previous :: room == ProposedRoom(info, previous))
    || ROOM_NEEDED <= room <= info.LargestRoom()
  }

  predicate ShrinkOk(info: ShrinkInfo, room: int) {
    info.Shrinkable() && room >= ROOM_NEEDED
  }

  function ShrinkSize(info: ShrinkInfo, room: int): int {
    (info.size - room) / MIB * MIB
  }

  /** Whatever room the screen shows and enables, the size it sends is accepted and leaves at least
      the room shown. */
  lemma EnabledRoomIsAccepted(p: Partition, room: int)
    requires RoomShown(Measured(p), room) && ShrinkOk(Measured(p), room)
    ensures Accepted(p, ShrinkSize(Measured(p), room))
    ensures ShrinkSize(Measured(p), room) > 0
    ensures p.Size() - ShrinkSize(Measured(p), room) >= room
  {
    var info := Measured(p);
    AlignFacts(p.minimum + SHRINK_HEADROOM);
    assert room <= info.LargestRoom();
    assert info.size - room >= info.smallest;
    assert info.smallest % MIB == 0;
    RoundingKeeps(info.size - room, info.smallest);
  }

  lemma RoundingKeeps(value: int, floor: int)
    requires value >= floor && floor % MIB == 0
    ensures floor <= value / MIB * MIB <= value && value / MIB * MIB == RoundedSize(value / MIB * MIB)
  {
  }

  // -- the space a shrink frees -------------------------------------------------------

  function Shrunk(d: Disk, i: nat, bytes: int): Disk
    requires i < |d.partitions|
  {
    var p := d.partitions[i];
    d.(partitions := d.partitions[i := p.(end := p.start + bytes - 1, fsBytes := bytes)])
  }

  /** Where the free space after partition `i` ends. */
  function GapEnd(d: Disk, i: nat): int
    requires i < |d.partitions|
  {
    if i + 1 < |d.partitions| then d.partitions[i + 1].start - 1 else d.hi
  }

  /** Whole MiB between the new end of partition `i` and the next partition. */
  function FreedMib(d: Disk, i: nat, bytes: int): int
    requires i < |d.partitions|
  {
    AlignDown(GapEnd(d, i) + 1) - AlignUp(d.partitions[i].start) - bytes
  }

  ghost predicate Enough(d: Disk) {
    exists a :: DiskFree(d, a, ROOM_NEEDED)
  }

  ghost predicate Shrinks(d: Disk, i: nat, bytes: int) {
    && DiskOk(d) && i < |d.partitions|
    && bytes % MIB == 0 && MIB <= bytes < d.partitions[i].Size()
  }

  lemma AlignUpShift(start: int, bytes: int)
    requires bytes % MIB == 0
    ensures AlignUp(start + bytes) == AlignUp(start) + bytes
  {
  }

  lemma Neighbours(d: Disk, i: nat, j: nat)
    requires DiskOk(d) && i < |d.partitions| && j < |d.partitions| && i != j
    ensures j < i ==> d.partitions[j].end < d.partitions[i].start
    ensures j > i ==> GapEnd(d, i) < d.partitions[j].start
    ensures d.partitions[i].end <= GapEnd(d, i) <= d.hi
  {
    assert d.partitions[i] in d.partitions && d.partitions[j] in d.partitions;
    assert PartOk(d, d.partitions[i]) && PartOk(d, d.partitions[j]);
    if i + 1 < |d.partitions| {
      assert d.partitions[i + 1] in d.partitions;
      assert PartOk(d, d.partitions[i + 1]);
    }
  }

  lemma GapInside(d: Disk, i: nat)
    requires DiskOk(d) && i < |d.partitions|
    ensures d.lo <= d.partitions[i].start <= d.partitions[i].end <= GapEnd(d, i) <= d.hi
  {
    assert PartOk(d, d.partitions[i]);
    if i + 1 < |d.partitions| {
      Neighbours(d, i, i + 1);
      assert PartOk(d, d.partitions[i + 1]);
    }
  }

  /** The whole MiB behind the shrunk partition. */
  function Freed(d: Disk, i: nat, bytes: int): FreeRegion
    requires i < |d.partitions|
  {
    FreeRegion(AlignUp(d.partitions[i].start) + bytes, AlignDown(GapEnd(d, i) + 1))
  }

  /** They are free. */
  lemma FreedIsFree(d: Disk, i: nat, bytes: int)
    requires Shrinks(d, i, bytes) && FreedMib(d, i, bytes) >= MIB
    ensures DiskFree(Shrunk(d, i, bytes), Freed(d, i, bytes).start, FreedMib(d, i, bytes))
  {
    var s, p, r := Shrunk(d, i, bytes), d.partitions[i], Freed(d, i, bytes);
    AlignUpShift(p.start, bytes);
    AlignFacts(p.start);
    AlignFacts(GapEnd(d, i) + 1);
    GapInside(d, i);
    forall q | q in s.partitions ensures Apart(r.start, r.end - 1, q.start, q.end) {
      var j :| 0 <= j < |s.partitions| && s.partitions[j] == q;
      if j != i {
        Neighbours(d, i, j);
      }
    }
  }

  /** Free space stays free when a partition shrinks. */
  lemma StillFree(d: Disk, i: nat, bytes: int, a: int, length: int)
    requires Shrinks(d, i, bytes) && DiskFree(d, a, length)
    ensures DiskFree(Shrunk(d, i, bytes), a, length)
  {
    var s, p := Shrunk(d, i, bytes), d.partitions[i];
    forall q | q in s.partitions ensures Apart(a, a + length - 1, q.start, q.end) {
      var j :| 0 <= j < |s.partitions| && s.partitions[j] == q;
      assert d.partitions[j] in d.partitions;
      assert Apart(a, a + length - 1, d.partitions[j].start, d.partitions[j].end);
    }
  }

  lemma OthersApart(d: Disk, i: nat, bytes: int, a: int, length: int, j: nat)
    requires Shrinks(d, i, bytes) && DiskFree(Shrunk(d, i, bytes), a, length)
    requires j < |d.partitions| && j != i
    ensures Apart(a, a + length - 1, d.partitions[j].start, d.partitions[j].end)
  {
    assert Shrunk(d, i, bytes).partitions[j] in Shrunk(d, i, bytes).partitions;
  }

  /** In the gap behind the shrunk partition. */
  predicate LiesBehind(d: Disk, i: nat, bytes: int, a: int, b: int)
    requires i < |d.partitions|
  {
    d.partitions[i].start + bytes <= a && b - 1 <= GapEnd(d, i)
  }

  lemma FreedLiesBehind(d: Disk, i: nat, bytes: int, a: int, length: int)
    requires Shrinks(d, i, bytes) && DiskFree(Shrunk(d, i, bytes), a, length)
    requires !Apart(a, a + length - 1, d.partitions[i].start, d.partitions[i].end)
    ensures LiesBehind(d, i, bytes, a, a + length)
  {
    assert Shrunk(d, i, bytes).partitions[i] in Shrunk(d, i, bytes).partitions;
    GapInside(d, i);
    if i + 1 < |d.partitions| {
      Neighbours(d, i, i + 1);
      OthersApart(d, i, bytes, a, length, i + 1);
      assert PartOk(d, d.partitions[i + 1]);
    }
  }

  /** Free space after the shrink was free before, or lies in the gap behind the partition. */
  lemma WhereFree(d: Disk, i: nat, bytes: int, a: int, length: int)
    requires Shrinks(d, i, bytes) && DiskFree(Shrunk(d, i, bytes), a, length)
    ensures DiskFree(d, a, length) || LiesBehind(d, i, bytes, a, a + length)
  {
    var p := d.partitions[i];
    if Apart(a, a + length - 1, p.start, p.end) {
      forall q | q in d.partitions ensures Apart(a, a + length - 1, q.start, q.end) {
        var j :| 0 <= j < |d.partitions| && d.partitions[j] == q;
        if j != i {
          OthersApart(d, i, bytes, a, length, j);
        }
      }
    } else {
      FreedLiesBehind(d, i, bytes, a, length);
    }
  }

  lemma BehindIsFreed(d: Disk, i: nat, bytes: int, a: int, b: int)
    requires Shrinks(d, i, bytes) && LiesBehind(d, i, bytes, a, b) && a % MIB == 0 && b % MIB == 0
    ensures Freed(d, i, bytes).start <= a && b <= Freed(d, i, bytes).end
  {
    AlignUpShift(d.partitions[i].start, bytes);
    AlignedBetween(d.partitions[i].start + bytes, GapEnd(d, i) + 1, a, b);
  }

  lemma AlignedBetween(lo: int, hi: int, a: int, b: int)
    requires a % MIB == 0 && b % MIB == 0 && lo <= a && b <= hi
    ensures AlignUp(lo) <= a && b <= AlignDown(hi)
  {
    AlignFacts(lo);
    AlignFacts(hi);
  }

  lemma EnoughCameFrom(d: Disk, i: nat, bytes: int, a: int)
    requires Shrinks(d, i, bytes) && DiskFree(Shrunk(d, i, bytes), a, ROOM_NEEDED)
    ensures Enough(d) || FreedMib(d, i, bytes) >= ROOM_NEEDED
  {
    WhereFree(d, i, bytes, a, ROOM_NEEDED);
    if LiesBehind(d, i, bytes, a, a + ROOM_NEEDED) {
      BehindIsFreed(d, i, bytes, a, a + ROOM_NEEDED);
    }
  }

  lemma FreedIsEnough(d: Disk, i: nat, bytes: int)
    requires Shrinks(d, i, bytes) && FreedMib(d, i, bytes) >= ROOM_NEEDED
    ensures Enough(Shrunk(d, i, bytes))
  {
    FreedIsFree(d, i, bytes);
    RoomIsFree(Shrunk(d, i, bytes), Freed(d, i, bytes), ROOM_NEEDED);
  }

  /** After a shrink the disk offers room for the installation exactly when it did before, or when
      the whole MiB between the partition's new end and its successor are enough. */
  lemma EnoughAfterShrink(d: Disk, i: nat, bytes: int)
    requires Shrinks(d, i, bytes)
    ensures Enough(Shrunk(d, i, bytes)) <==> Enough(d) || FreedMib(d, i, bytes) >= ROOM_NEEDED
  {
    if a :| DiskFree(Shrunk(d, i, bytes), a, ROOM_NEEDED) {
      EnoughCameFrom(d, i, bytes, a);
    }
    if a :| DiskFree(d, a, ROOM_NEEDED) {
      StillFree(d, i, bytes, a, ROOM_NEEDED);
    }
    if FreedMib(d, i, bytes) >= ROOM_NEEDED {
      FreedIsEnough(d, i, bytes);
    }
  }

  lemma AlignedFrees(d: Disk, i: nat, bytes: int)
    requires Shrinks(d, i, bytes) && d.partitions[i].start % MIB == 0
    requires d.partitions[i].Size() - bytes >= ROOM_NEEDED
    ensures FreedMib(d, i, bytes) >= ROOM_NEEDED
  {
    var start := d.partitions[i].start;
    GapInside(d, i);
    AlignFacts(start);
    assert (start + bytes + ROOM_NEEDED) % MIB == 0;
    AlignedBetween(0, GapEnd(d, i) + 1, 0, start + bytes + ROOM_NEEDED);
  }

  lemma MultiplesBetween(up: int, down: int, bytes: int)
    requires up % MIB == 0 && down % MIB == 0 && bytes % MIB == 0
    requires down - up - bytes > ROOM_NEEDED - MIB
    ensures down - up - bytes >= ROOM_NEEDED
  {
    var a, b, c := up / MIB, down / MIB, bytes / MIB;
    assert up == MIB * a && down == MIB * b && bytes == MIB * c;
    assert b - a - c > ROOM_NEEDED / MIB - 1;
  }

  lemma SlackFrees(d: Disk, i: nat, bytes: int)
    requires Shrinks(d, i, bytes)
    requires d.partitions[i].Size() - bytes >= ROOM_NEEDED + MIB
    ensures FreedMib(d, i, bytes) >= ROOM_NEEDED
  {
    GapInside(d, i);
    AlignFacts(d.partitions[i].start);
    AlignFacts(GapEnd(d, i) + 1);
    MultiplesBetween(AlignUp(d.partitions[i].start), AlignDown(GapEnd(d, i) + 1), bytes);
  }

  /** An accepted size is enough when the partition starts on a MiB boundary, and also when it
      frees a MiB more than required. */
  lemma AlignedOrSlackIsEnough(d: Disk, i: nat, shrinkSize: int)
    requires DiskOk(d) && i < |d.partitions| && Accepted(d.partitions[i], shrinkSize)
    requires var p := d.partitions[i];
             p.start % MIB == 0 || p.Size() - RoundedSize(shrinkSize) >= ROOM_NEEDED + MIB
    ensures Enough(Shrunk(d, i, RoundedSize(shrinkSize)))
  {
    var p, bytes := d.partitions[i], RoundedSize(shrinkSize);
    AcceptedFacts(p, shrinkSize);
    assert bytes >= MIB;
    if p.start % MIB == 0 {
      AlignedFrees(d, i, bytes);
    } else {
      SlackFrees(d, i, bytes);
    }
    EnoughAfterShrink(d, i, bytes);
  }

  /** Without either, an accepted shrink can come out a MiB short: a partition one sector past a
      MiB boundary, with the end of the disk right behind it, that frees exactly what is needed. */
  lemma AcceptedShrinkCanFallShort()
    ensures exists d: Disk, size :: DiskOk(d) && d.table == Some(Gpt) && |d.partitions| == 1
              && Accepted(d.partitions[0], size) && !Enough(Shrunk(d, 0, RoundedSize(size)))
  {
    var start := MIB + 512;
    var p := Partition(1, start, start + 19 * GIB - 1, Ntfs, 19 * GIB, 0, false);
    var d := Disk(p.end + 1 + 33 * 512, Some(Gpt), 512, 34 * 512, p.end, [p]);
    var size := 2 * GIB;
    assert PartOk(d, p);
    assert Accepted(p, size);
    assert RoundedSize(size) == size;
    assert FreedMib(d, 0, size) == ROOM_NEEDED - MIB;
    assert !Enough(d) by {
      assert p in d.partitions;
      forall a ensures !DiskFree(d, a, ROOM_NEEDED) {
      }
    }
    EnoughAfterShrink(d, 0, size);
  }
}
