/**
 When a partition is shrunk for the new system: the region the installer then takes, and the tail
 the bar marks for it.
 */
module FreedTail {
  import opened Common
  import opened Disk
  import opened Intervals
  import opened Shrink
  import MarkedGap
  import PartitionBar
  import Preview
  import Sorting
  import Storage

  // Before the shrink no free region has more whole MiB than the shrink will leave behind the
  // partition, and none in front of it as many.
  ghost predicate FreesMost(d: Disk, i: nat, bytes: int)
    requires i < |d.partitions|
  {
    forall q <- Regions(d) ::
      && q.Size() <= FreedMib(d, i, bytes)
      && (q.start < d.partitions[i].start ==> q.Size() < FreedMib(d, i, bytes))
  }

  // -- regions before and after the shrink ---------------------------------------

  lemma ShrunkIsBetween(d: Disk, i: nat, bytes: int)
    requires Shrinks(d, i, bytes)
    ensures var s := Shrunk(d, i, bytes); Between(s.lo, s.partitions, s.hi) && RegionsFollow(Regions(s))
  {
    var s := Shrunk(d, i, bytes);
    DiskIsBetween(d);
    forall j | 0 <= j < |s.partitions|
      ensures s.lo <= s.partitions[j].start <= s.partitions[j].end <= s.hi
    {
      assert d.partitions[j] in d.partitions && d.partitions[i] in d.partitions;
    }
    RegionsAreInOrder(s.lo, s.partitions, s.hi);
  }

  // A region offered before lies in one offered afterwards.
  lemma RegionStays(d: Disk, i: nat, bytes: int, q: FreeRegion) returns (r: FreeRegion)
    requires Shrinks(d, i, bytes) && q in Regions(d)
    ensures r in Regions(Shrunk(d, i, bytes)) && r.start <= q.start && q.end <= r.end && q.start < q.end
  {
    var s := Shrunk(d, i, bytes);
    DiskIsBetween(d);
    RegionsAreFree(d.lo, d.partitions, d.hi, q);
    StillFree(d, i, bytes, q.start, q.Size());
    ShrunkIsBetween(d, i, bytes);
    r := FreeIsInRegion(s.lo, s.partitions, s.hi, q.start, q.end);
  }

  // A region offered afterwards, if it does not lie behind the partition, lies in one offered before.
  lemma RegionWasThere(d: Disk, i: nat, bytes: int, r: FreeRegion) returns (q: FreeRegion)
    requires Shrinks(d, i, bytes) && r in Regions(Shrunk(d, i, bytes)) && !LiesBehind(d, i, bytes, r.start, r.end)
    ensures q in Regions(d) && q.start <= r.start && r.end <= q.end
  {
    var s := Shrunk(d, i, bytes);
    ShrunkIsBetween(d, i, bytes);
    RegionsAreFree(s.lo, s.partitions, s.hi, r);
    WhereFree(d, i, bytes, r.start, r.Size());
    DiskIsBetween(d);
    q := FreeIsInRegion(d.lo, d.partitions, d.hi, r.start, r.end);
  }

  // What the shrink leaves behind the partition is one of the regions offered.
  lemma FreedIsRegion(d: Disk, i: nat, bytes: int)
    requires Shrinks(d, i, bytes) && FreedMib(d, i, bytes) >= MIB
    ensures Freed(d, i, bytes) in Regions(Shrunk(d, i, bytes))
  {
    var s, f := Shrunk(d, i, bytes), Freed(d, i, bytes);
    ShrunkIsBetween(d, i, bytes);
    FreedIsFree(d, i, bytes);
    var r := FreeIsInRegion(s.lo, s.partitions, s.hi, f.start, f.end);
    RegionsAreFree(s.lo, s.partitions, s.hi, r);
    StaysBehind(d, i, bytes, r);
    BehindIsFreed(d, i, bytes, r.start, r.end);
  }

  // A free interval that reaches the freed space is inside the gap behind the partition.
  lemma StaysBehind(d: Disk, i: nat, bytes: int, r: FreeRegion)
    requires Shrinks(d, i, bytes) && DiskFree(Shrunk(d, i, bytes), r.start, r.Size())
    requires var f := Freed(d, i, bytes); r.start <= f.start < f.end <= r.end
    ensures LiesBehind(d, i, bytes, r.start, r.end)
  {
    var s := Shrunk(d, i, bytes);
    AlignFacts(d.partitions[i].start);
    AlignFacts(GapEnd(d, i) + 1);
    GapInside(d, i);
    assert s.partitions[i] in s.partitions;
    if i + 1 < |d.partitions| {
      OthersApart(d, i, bytes, r.start, r.Size(), i + 1);
      Neighbours(d, i, i + 1);
      assert PartOk(d, d.partitions[i + 1]);
    }
  }

  // A region is the freed one, or lies in front of the partition, or behind the gap after it.
  lemma FreedOrApart(d: Disk, i: nat, bytes: int, r: FreeRegion)
    requires Shrinks(d, i, bytes) && r in Regions(Shrunk(d, i, bytes))
    ensures || r == Freed(d, i, bytes)
            || r.end <= d.partitions[i].start
            || GapEnd(d, i) < r.start
  {
    var s, p := Shrunk(d, i, bytes), d.partitions[i];
    ShrunkIsBetween(d, i, bytes);
    RegionsAreFree(s.lo, s.partitions, s.hi, r);
    assert s.partitions[i] in s.partitions;
    assert Apart(r.start, r.end - 1, p.start, p.start + bytes - 1);
    if r.start > p.start + bytes - 1 && r.start <= GapEnd(d, i) {
      NotBeyondGap(d, i, bytes, r);
      BehindIsFreed(d, i, bytes, r.start, r.end);
      FreedIsRegion(d, i, bytes);
      OneRegion(Regions(s), r, Freed(d, i, bytes));
    }
  }

  lemma NotBeyondGap(d: Disk, i: nat, bytes: int, r: FreeRegion)
    requires Shrinks(d, i, bytes) && DiskFree(Shrunk(d, i, bytes), r.start, r.Size())
    requires d.partitions[i].start + bytes <= r.start <= GapEnd(d, i)
    ensures LiesBehind(d, i, bytes, r.start, r.end)
  {
    if i + 1 < |d.partitions| {
      OthersApart(d, i, bytes, r.start, r.Size(), i + 1);
      Neighbours(d, i, i + 1);
      assert PartOk(d, d.partitions[i + 1]);
    }
  }

  // -- which region is taken -------------------------------------------------------

  lemma FreedTakenFreesMost(d: Disk, i: nat, bytes: int, r: FreeRegion)
    requires Shrinks(d, i, bytes) && d.table.Some? && Storage.IsLargest(Shrunk(d, i, bytes), r)
    requires r == Freed(d, i, bytes)
    ensures FreesMost(d, i, bytes)
  {
    var s := Shrunk(d, i, bytes);
    LayoutOffers(s);
    ShrunkIsBetween(d, i, bytes);
    forall q | q in Regions(d)
      ensures q.Size() <= FreedMib(d, i, bytes)
      ensures q.start < d.partitions[i].start ==> q.Size() < FreedMib(d, i, bytes)
    {
      var other := RegionStays(d, i, bytes, q);
      LargestBeats(Regions(s), r, other);
      FreedOrApart(d, i, bytes, other);
      AlignFacts(d.partitions[i].start);
      GapInside(d, i);
    }
  }

  lemma FreesMostTakesFreed(d: Disk, i: nat, bytes: int, r: FreeRegion)
    requires Shrinks(d, i, bytes) && d.table.Some? && Storage.IsLargest(Shrunk(d, i, bytes), r)
    requires FreesMost(d, i, bytes)
    ensures r == Freed(d, i, bytes)
  {
    var s, f := Shrunk(d, i, bytes), Freed(d, i, bytes);
    LayoutOffers(s);
    ShrunkIsBetween(d, i, bytes);
    RegionsAreFree(s.lo, s.partitions, s.hi, r);
    FreedOrApart(d, i, bytes, r);
    GapInside(d, i);
    AlignFacts(GapEnd(d, i) + 1);
    if r != f {
      var q := RegionWasThere(d, i, bytes, r);
      FreedIsRegion(d, i, bytes);
      LargestBeats(Regions(s), r, f);
    }
  }

  // After a shrink the installer takes the space behind the shrunk partition exactly when, before it,
  // no free region had more whole MiB than the shrink leaves there, and none in front as many.
  lemma TakesFreedIff(d: Disk, i: nat, bytes: int, r: FreeRegion)
    requires Shrinks(d, i, bytes) && d.table.Some? && Storage.IsLargest(Shrunk(d, i, bytes), r)
    ensures r == Freed(d, i, bytes) <==> FreesMost(d, i, bytes)
  {
    if r == Freed(d, i, bytes) {
      FreedTakenFreesMost(d, i, bytes, r);
    } else if FreesMost(d, i, bytes) {
      FreesMostTakesFreed(d, i, bytes, r);
    }
  }

  // -- and the tail the bar marks ----------------------------------------------------

  lemma ListedIsIt(d: Disk, path: nat -> string, i: nat, p: PartitionBar.Part)
    requires MarkedGap.OnDisk(d) && Preview.Paths(path) && i < |d.partitions|
    requires p in MarkedGap.Listing(d, path) && p.path == path(d.partitions[i].number)
    ensures p == Preview.Listed(d.partitions[i], path)
  {
    var j :| 0 <= j < |d.partitions| && p == Preview.Listed(d.partitions[j], path);
    assert d.partitions[j].number == d.partitions[i].number;
  }

  // The one segment shown as new is the tail cut off the shrunk partition.
  lemma MarkedIsTail(
      d: Disk, path: nat -> string, c: Storage.Config, segments: seq<PartitionBar.Segment>,
      i: nat, s: PartitionBar.Segment)
    requires MarkedGap.OnDisk(d) && Preview.Paths(path) && MarkedGap.Previews(d, path, c, segments)
    requires i < |d.partitions| && c.shrink == Some(d.partitions[i].number)
    requires s in segments && s.fate == PartitionBar.New
    ensures s.start == d.partitions[i].start + RoundedSize(c.shrinkSize) && s.End() == d.partitions[i].end + 1
  {
    var choice, parts := Preview.Previewed(c, path), MarkedGap.Listing(d, path);
    var p := PartitionBar.NewIsTail(choice, PartitionBar.SortByStart(parts), 0, d.size, s);
    Sorting.SameMembers(parts, PartitionBar.SortByStart(parts));
    ListedIsIt(d, path, i, p);
  }

  lemma AcceptedShrinks(d: Disk, i: nat, shrinkSize: int)
    requires DiskOk(d) && i < |d.partitions| && Accepted(d.partitions[i], shrinkSize)
    ensures Shrinks(d, i, RoundedSize(shrinkSize))
    ensures RoundedSize(shrinkSize) + ROOM_NEEDED <= d.partitions[i].Size()
  {
    AcceptedFacts(d.partitions[i], shrinkSize);
  }

  // For an accepted shrink: the installer takes bytes of the tail marked for the new system exactly
  // when the shrink frees the most; otherwise it takes none of them.
  lemma TailIsTakenIff(
      d: Disk, path: nat -> string, c: Storage.Config, segments: seq<PartitionBar.Segment>,
      i: nat, s: PartitionBar.Segment, r: FreeRegion)
    requires MarkedGap.OnDisk(d) && Preview.Paths(path) && MarkedGap.Previews(d, path, c, segments)
    requires i < |d.partitions| && c.shrink == Some(d.partitions[i].number)
    requires Accepted(d.partitions[i], c.shrinkSize)
    requires s in segments && s.fate == PartitionBar.New
    requires Storage.IsLargest(Shrunk(d, i, RoundedSize(c.shrinkSize)), r)
    ensures !Apart(s.start, s.End() - 1, r.start, r.end - 1) <==> FreesMost(d, i, RoundedSize(c.shrinkSize))
  {
    var bytes := RoundedSize(c.shrinkSize);
    AcceptedShrinks(d, i, c.shrinkSize);
    MarkedIsTail(d, path, c, segments, i, s);
    TakesFreedIff(d, i, bytes, r);
    LayoutOffers(Shrunk(d, i, bytes));
    ShrunkIsBetween(d, i, bytes);
    FreedOrApart(d, i, bytes, r);
    AlignFacts(d.partitions[i].start);
    GapInside(d, i);
  }

  // -- a disk on which the tail stays unused -------------------------------------------

  // An NTFS partition at 30 GiB with nothing in front of it.
  const ROOM_IN_FRONT: Disk :=
    Disk(49 * GIB + 33 * 512, Some(Gpt), 512, 34 * 512, 49 * GIB - 1,
         [Partition(1, 30 * GIB, 49 * GIB - 1, Ntfs, 19 * GIB, 0, false)])

  lemma RoomInFrontIsOk()
    ensures MarkedGap.OnDisk(ROOM_IN_FRONT)
    ensures Accepted(ROOM_IN_FRONT.partitions[0], 2 * GIB) && RoundedSize(2 * GIB) == 2 * GIB
  {
    assert PartOk(ROOM_IN_FRONT, ROOM_IN_FRONT.partitions[0]);
  }

  lemma FrontIsTaken() returns (r: FreeRegion)
    requires MarkedGap.OnDisk(ROOM_IN_FRONT) && Shrinks(ROOM_IN_FRONT, 0, 2 * GIB)
    ensures Storage.IsLargest(Shrunk(ROOM_IN_FRONT, 0, 2 * GIB), r) && r == FreeRegion(MIB, 30 * GIB)
  {
    var d, bytes := ROOM_IN_FRONT, 2 * GIB;
    var s := Shrunk(d, 0, bytes);
    DiskIsBetween(d);
    assert FreeInterval(d.lo, d.partitions, d.hi, MIB, 30 * GIB);
    var q := FreeIsInRegion(d.lo, d.partitions, d.hi, MIB, 30 * GIB);
    var other := RegionStays(d, 0, bytes, q);
    ShrunkIsBetween(d, 0, bytes);
    r := MarkedGap.LargestRegion(s, other);
    LayoutOffers(s);
    RegionsAreFree(s.lo, s.partitions, s.hi, r);
    FreedOrApart(d, 0, bytes, r);
    assert GapEnd(d, 0) == d.hi && Freed(d, 0, bytes).Size() == 17 * GIB;
  }

  // The shrink is accepted and the bar marks its tail, but the installer takes the space in front and
  // leaves the 17 GiB just freed unused.
  lemma TailCanStayUnused(path: nat -> string, c: Storage.Config)
    requires Preview.Paths(path)
    requires c.layout == Storage.FreeSpace && c.shrink == Some(1) && c.shrinkSize == 2 * GIB
    ensures exists segments: seq<PartitionBar.Segment>, s: PartitionBar.Segment ::
              && MarkedGap.OnDisk(ROOM_IN_FRONT) && Accepted(ROOM_IN_FRONT.partitions[0], c.shrinkSize)
              && MarkedGap.Previews(ROOM_IN_FRONT, path, c, segments)
              && s in segments && s.fate == PartitionBar.New && s.size == 17 * GIB
              && Storage.IsLargest(Shrunk(ROOM_IN_FRONT, 0, 2 * GIB), FreeRegion(MIB, 30 * GIB))
              && Apart(s.start, s.End() - 1, MIB, 30 * GIB - 1)
  {
    var d := ROOM_IN_FRONT;
    RoomInFrontIsOk();
    AcceptedShrinks(d, 0, c.shrinkSize);
    var segments, s := TailIsShown(d, path, c, 0);
    MarkedIsTail(d, path, c, segments, 0, s);
    var r := FrontIsTaken();
  }

  // A bar shown for the shrink, and its segment for the tail.
  lemma TailIsShown(d: Disk, path: nat -> string, c: Storage.Config, i: nat)
    returns (segments: seq<PartitionBar.Segment>, s: PartitionBar.Segment)
    requires MarkedGap.OnDisk(d) && i < |d.partitions|
    requires c.layout == Storage.FreeSpace && c.shrink == Some(d.partitions[i].number)
    ensures MarkedGap.Previews(d, path, c, segments) && s in segments && s.fate == PartitionBar.New
  {
    var choice, parts := Preview.Previewed(c, path), MarkedGap.Listing(d, path);
    var sorted := PartitionBar.SortByStart(parts);
    segments := PartitionBar.Bar(choice, sorted, 0, d.size);
    Sorting.SameMembers(parts, sorted);
    assert parts[i] in parts;
    PartitionBar.PartIsShown(choice, sorted, 0, d.size, parts[i]);
    var own := PartitionBar.PartSegments(choice, parts[i]);
    var k :| PartitionBar.ShownAt(segments, own, k);
    s := own[1];
    assert segments[k + 1] == segments[k..k + |own|][1] == s;
  }
}
