/**
 Which gap the bar gives to a new system, and which region the installer then takes: the bar
 compares gaps by their bytes, the installer by the whole MiB it can use of them.
 */
module MarkedGap {
  import opened Common
  import opened Disk
  import opened Intervals
  import PartitionBar
  import Preview
  import Sorting
  import Storage

  // The disk's partitions as the bar is given them.
  function Listing(d: Disk, path: nat -> string): seq<PartitionBar.Part>
    requires forall p <- d.partitions :: 0 <= p.start && 0 <= p.end
  {
    seq(|d.partitions|, i requires 0 <= i < |d.partitions| => Preview.Listed(d.partitions[i], path))
  }

  ghost predicate OnDisk(d: Disk) {
    DiskOk(d) && d.table.Some? && 0 <= d.size && forall p <- d.partitions :: 0 <= p.start && 0 <= p.end
  }

  // The configuration takes free space as it is, and these are the segments shown for it.
  ghost predicate Shows(d: Disk, path: nat -> string, c: Storage.Config, segments: seq<PartitionBar.Segment>)
    requires OnDisk(d)
  {
    c.shrink.None? && Previews(d, path, c, segments)
  }

  // The configuration takes free space, and these are the segments shown for it.
  ghost predicate Previews(d: Disk, path: nat -> string, c: Storage.Config, segments: seq<PartitionBar.Segment>)
    requires OnDisk(d)
  {
    && c.layout == Storage.FreeSpace
    && var choice := Preview.Previewed(c, path);
       PartitionBar.MarkedFrom(
         choice, PartitionBar.Bar(choice, PartitionBar.SortByStart(Listing(d, path)), 0, d.size), segments)
  }

  predicate IsGap(segments: seq<PartitionBar.Segment>, k: nat) {
    k < |segments| && segments[k].key == PartitionBar.Gap
  }

  predicate Contains(s: PartitionBar.Segment, r: FreeRegion) {
    s.start <= r.start && r.end <= s.End()
  }

  // The whole MiB an installation can use of a gap.
  function Usable(d: Disk, s: PartitionBar.Segment): FreeRegion {
    Inner(Max(s.start, d.lo), Min(s.End() - 1, d.hi))
  }

  // No gap shown has more whole MiB to use, and no earlier one as many.
  ghost predicate HoldsMost(d: Disk, segments: seq<PartitionBar.Segment>, m: nat) {
    && IsGap(segments, m)
    && (forall k: nat | IsGap(segments, k) ::
          Usable(d, segments[k]).Size() <= Usable(d, segments[m]).Size())
    && (forall k: nat | IsGap(segments, k) && k < m ::
          Usable(d, segments[k]).Size() < Usable(d, segments[m]).Size())
  }

  // -- the bar's layout ------------------------------------------------------

  lemma {:induction false} CountedOnce<T>(items: seq<T>)
    requires forall i, j | 0 <= i < j < |items| :: items[i] != items[j]
    ensures forall x <- items :: multiset(items)[x] == 1
  {
    if items != [] {
      CountedOnce(items[1..]);
      assert items == [items[0]] + items[1..];
      assert items[0] !in items[1..];
    }
  }

  lemma AscendingIsPlaced(parts: seq<PartitionBar.Part>, size: int)
    requires PartitionBar.Ascending(parts) && forall p <- parts :: p.start <= p.end < size
    ensures PartitionBar.WellPlaced(parts, size)
  {
    CountedOnce(parts);
    forall p, q | p in parts && q in parts && p != q ensures Apart(p.start, p.end, q.start, q.end) {
      var i, j :| 0 <= i < |parts| && 0 <= j < |parts| && parts[i] == p && parts[j] == q;
    }
  }

  lemma ListingIsPlaced(d: Disk, path: nat -> string)
    requires OnDisk(d)
    ensures PartitionBar.WellPlaced(Listing(d, path), d.size)
  {
    var parts := Listing(d, path);
    forall i | 0 <= i < |parts| ensures parts[i].start <= parts[i].end < d.size {
      assert PartOk(d, d.partitions[i]);
    }
    AscendingIsPlaced(parts, d.size);
  }

  lemma GapIsClear(
      d: Disk, path: nat -> string, c: Storage.Config, segments: seq<PartitionBar.Segment>, k: nat, p: Partition)
    requires OnDisk(d) && Shows(d, path, c, segments) && IsGap(segments, k) && p in d.partitions
    ensures Apart(segments[k].start, segments[k].End() - 1, p.start, p.end)
  {
    ListingIsPlaced(d, path);
    var i :| 0 <= i < |d.partitions| && d.partitions[i] == p;
    var listed := Listing(d, path)[i];
    PartitionBar.GapsAvoidPartitions(Listing(d, path), d.size, Preview.Previewed(c, path), segments, k, listed);
  }

  lemma GapsInOrder(
      d: Disk, path: nat -> string, c: Storage.Config, segments: seq<PartitionBar.Segment>, j: nat, k: nat)
    requires OnDisk(d) && Shows(d, path, c, segments) && j < k < |segments|
    ensures segments[j].End() <= segments[k].start
  {
    ListingIsPlaced(d, path);
    PartitionBar.PreviewIsThePicture(Listing(d, path), d.size, Preview.Previewed(c, path), segments);
    PartitionBar.PicturesInOrder(segments, 0, d.size, j);
  }

  lemma SameGap(
      d: Disk, path: nat -> string, c: Storage.Config, segments: seq<PartitionBar.Segment>,
      j: nat, k: nat, r: FreeRegion)
    requires OnDisk(d) && Shows(d, path, c, segments) && j < |segments| && k < |segments|
    requires Contains(segments[j], r) && Contains(segments[k], r) && r.start < r.end
    ensures j == k
  {
    if j < k {
      GapsInOrder(d, path, c, segments, j, k);
    } else if k < j {
      GapsInOrder(d, path, c, segments, k, j);
    }
  }

  // -- gaps and regions ---------------------------------------------------------

  lemma UsableIsInside(d: Disk, s: PartitionBar.Segment)
    ensures Contains(s, Usable(d, s)) && d.lo <= Usable(d, s).start && Usable(d, s).end <= d.hi + 1
    ensures Usable(d, s).start % MIB == 0 && Usable(d, s).end % MIB == 0 && MIB <= Usable(d, s).start
  {
    AlignFacts(Max(s.start, d.lo));
    AlignFacts(Min(s.End() - 1, d.hi) + 1);
  }

  lemma UsableIsFree(
      d: Disk, path: nat -> string, c: Storage.Config, segments: seq<PartitionBar.Segment>, k: nat, u: FreeRegion)
    requires OnDisk(d) && Shows(d, path, c, segments) && IsGap(segments, k)
    requires u == Usable(d, segments[k]) && u.Size() >= MIB
    ensures FreeInterval(d.lo, d.partitions, d.hi, u.start, u.end)
  {
    UsableIsInside(d, segments[k]);
    forall p | p in d.partitions ensures Apart(u.start, u.end - 1, p.start, p.end) {
      GapIsClear(d, path, c, segments, k, p);
    }
  }

  lemma RegionIsShown(
      d: Disk, path: nat -> string, c: Storage.Config, segments: seq<PartitionBar.Segment>, r: FreeRegion)
    returns (k: nat)
    requires OnDisk(d) && Shows(d, path, c, segments)
    requires FreeInterval(d.lo, d.partitions, d.hi, r.start, r.end) && r.Size() >= PartitionBar.MIN_GAP
    ensures IsGap(segments, k) && Contains(segments[k], r)
  {
    var choice, parts := Preview.Previewed(c, path), Listing(d, path);
    var sorted := PartitionBar.SortByStart(parts);
    Sorting.SameMembers(parts, sorted);
    forall q | q in sorted ensures Apart(r.start, r.end - 1, q.start, q.end) {
      var i :| 0 <= i < |parts| && parts[i] == q;
      assert d.partitions[i] in d.partitions;
    }
    k := PartitionBar.FreeIsShown(choice, sorted, 0, d.size, r.start, r.end);
    PartitionBar.MarkingKeepsShape(choice, PartitionBar.Bar(choice, sorted, 0, d.size), segments);
  }

  lemma UsableHolds(d: Disk, s: PartitionBar.Segment, r: FreeRegion)
    requires FreeInterval(d.lo, d.partitions, d.hi, r.start, r.end) && Contains(s, r)
    ensures Usable(d, s).start <= r.start && r.end <= Usable(d, s).end
  {
    InnerIsLargest(Max(s.start, d.lo), Min(s.End() - 1, d.hi), r.start, r.end);
  }

  // Every region large enough to show is what can be used of one gap.
  lemma RegionIsUsable(
      d: Disk, path: nat -> string, c: Storage.Config, segments: seq<PartitionBar.Segment>, r: FreeRegion)
    returns (k: nat)
    requires OnDisk(d) && Shows(d, path, c, segments)
    requires r in Regions(d) && r.Size() >= PartitionBar.MIN_GAP
    ensures IsGap(segments, k) && Usable(d, segments[k]) == r
  {
    DiskIsBetween(d);
    RegionsAreFree(d.lo, d.partitions, d.hi, r);
    k := RegionIsShown(d, path, c, segments, r);
    var u := Usable(d, segments[k]);
    UsableHolds(d, segments[k], r);
    UsableIsFree(d, path, c, segments, k, u);
    var other := FreeIsInRegion(d.lo, d.partitions, d.hi, u.start, u.end);
    RegionsAreInOrder(d.lo, d.partitions, d.hi);
    OneRegion(Regions(d), r, other);
  }

  // What can be used of a gap is a region, if it is large enough to show.
  lemma UsableIsRegion(
      d: Disk, path: nat -> string, c: Storage.Config, segments: seq<PartitionBar.Segment>, k: nat)
    requires OnDisk(d) && Shows(d, path, c, segments) && IsGap(segments, k)
    requires Usable(d, segments[k]).Size() >= PartitionBar.MIN_GAP
    ensures Usable(d, segments[k]) in Regions(d)
  {
    var u := Usable(d, segments[k]);
    DiskIsBetween(d);
    UsableIsFree(d, path, c, segments, k, u);
    var r := FreeIsInRegion(d.lo, d.partitions, d.hi, u.start, u.end);
    var j := RegionIsUsable(d, path, c, segments, r);
    UsableIsInside(d, segments[j]);
    UsableIsInside(d, segments[k]);
    SameGap(d, path, c, segments, j, k, u);
  }

  // -- the two choices ------------------------------------------------------------

  lemma MostHoldsRegion(
      d: Disk, path: nat -> string, c: Storage.Config, segments: seq<PartitionBar.Segment>, m: nat, r: FreeRegion)
    requires OnDisk(d) && Shows(d, path, c, segments) && HoldsMost(d, segments, m)
    requires Storage.IsLargest(d, r) && r.Size() >= PartitionBar.MIN_GAP
    ensures Contains(segments[m], r)
  {
    LayoutOffers(d);
    DiskIsBetween(d);
    RegionsAreInOrder(d.lo, d.partitions, d.hi);
    var j := RegionIsUsable(d, path, c, segments, r);
    var u := Usable(d, segments[m]);
    UsableIsInside(d, segments[m]);
    if j != m {
      UsableIsRegion(d, path, c, segments, m);
      LargestBeats(Regions(d), r, u);
      UsableIsInside(d, segments[j]);
      GapsInOrder(d, path, c, segments, if j < m then j else m, if j < m then m else j);
    }
  }

  lemma HolderHasMost(
      d: Disk, path: nat -> string, c: Storage.Config, segments: seq<PartitionBar.Segment>, m: nat, r: FreeRegion)
    requires OnDisk(d) && Shows(d, path, c, segments) && IsGap(segments, m) && Contains(segments[m], r)
    requires Storage.IsLargest(d, r) && r.Size() >= PartitionBar.MIN_GAP
    ensures HoldsMost(d, segments, m)
  {
    LayoutOffers(d);
    DiskIsBetween(d);
    RegionsAreInOrder(d.lo, d.partitions, d.hi);
    var j := RegionIsUsable(d, path, c, segments, r);
    UsableIsInside(d, segments[j]);
    SameGap(d, path, c, segments, j, m, r);
    forall k: nat | IsGap(segments, k)
      ensures Usable(d, segments[k]).Size() <= r.Size()
      ensures k < m ==> Usable(d, segments[k]).Size() < r.Size()
    {
      var u := Usable(d, segments[k]);
      if u.Size() >= PartitionBar.MIN_GAP {
        UsableIsRegion(d, path, c, segments, k);
        LargestBeats(Regions(d), r, u);
        UsableIsInside(d, segments[k]);
        if k < m { GapsInOrder(d, path, c, segments, k, m); }
      }
    }
  }

  // The gap marked for the new system holds the region the installer takes exactly when no gap shown
  // has more whole MiB to use and no earlier one as many.
  lemma MarkedHoldsRegionIff(
      d: Disk, path: nat -> string, c: Storage.Config, segments: seq<PartitionBar.Segment>, m: nat, r: FreeRegion)
    requires OnDisk(d) && Shows(d, path, c, segments)
    requires m < |segments| && segments[m].fate == PartitionBar.New
    requires Storage.IsLargest(d, r) && r.Size() >= PartitionBar.MIN_GAP
    ensures Contains(segments[m], r) <==> HoldsMost(d, segments, m)
  {
    PartitionBar.FirstLargestIsNew(Listing(d, path), d.size, Preview.Previewed(c, path), segments, m);
    if HoldsMost(d, segments, m) {
      MostHoldsRegion(d, path, c, segments, m, r);
    }
    if Contains(segments[m], r) {
      HolderHasMost(d, path, c, segments, m, r);
    }
  }

  // -- a disk on which they differ ---------------------------------------------------

  function OnlyBytes(number: nat, start: int, end: int): Partition {
    Partition(number, start, end, Unknown, 0, 0, false)
  }

  // A gap of 20 GiB and one sector that starts and ends off the MiB grid, before one of 20 GiB on it.
  const OFF_GRID: Disk :=
    Disk(40 * GIB + 4 * MIB + 33 * 512, Some(Gpt), 512, 34 * 512, 40 * GIB + 4 * MIB - 1,
         [OnlyBytes(1, MIB, 2 * MIB + 511),
          OnlyBytes(2, 20 * GIB + 2 * MIB + 1024, 20 * GIB + 3 * MIB - 1),
          OnlyBytes(3, 40 * GIB + 3 * MIB, 40 * GIB + 4 * MIB - 1)])

  lemma OffGridIsOk()
    ensures OnDisk(OFF_GRID)
  {
  }

  function Own(p: PartitionBar.Part): PartitionBar.Segment {
    PartitionBar.Segment(PartitionBar.Whole(p.path), p.start, p.Size(), p.name, PartitionBar.Kept)
  }

  function GapAfter(p: PartitionBar.Part, q: PartitionBar.Part): PartitionBar.Segment {
    PartitionBar.Segment(PartitionBar.Gap, p.end + 1, q.start - p.end - 1, "free", PartitionBar.Free)
  }

  lemma DrawnAfter(choice: PartitionBar.Choice, p: PartitionBar.Part, q: PartitionBar.Part)
    requires choice.kind == PartitionBar.FreeSpace && choice.shrink.None?
    requires q.start - p.end - 1 >= PartitionBar.MIN_GAP
    ensures PartitionBar.Drawn(choice, q, p.end + 1) == [GapAfter(p, q), Own(q)]
  {
  }

  lemma BarFrom(
      choice: PartitionBar.Choice, p: PartitionBar.Part, q: PartitionBar.Part, rest: seq<PartitionBar.Part>, size: int)
    requires choice.kind == PartitionBar.FreeSpace && choice.shrink.None?
    requires q.start - p.end - 1 >= PartitionBar.MIN_GAP && q.start <= q.end
    ensures PartitionBar.Bar(choice, [q] + rest, p.end + 1, size) ==
            [GapAfter(p, q), Own(q)] + PartitionBar.Bar(choice, rest, q.end + 1, size)
  {
    DrawnAfter(choice, p, q);
    assert ([q] + rest)[0] == q && ([q] + rest)[1..] == rest;
  }

  lemma BarFromStart(
      choice: PartitionBar.Choice, p: PartitionBar.Part, rest: seq<PartitionBar.Part>, size: int)
    requires choice.kind == PartitionBar.FreeSpace && choice.shrink.None?
    requires p.start < PartitionBar.MIN_GAP
    ensures PartitionBar.Bar(choice, [p] + rest, 0, size) == [Own(p)] + PartitionBar.Bar(choice, rest, p.end + 1, size)
  {
    assert PartitionBar.Drawn(choice, p, 0) == [Own(p)];
    assert ([p] + rest)[0] == p && ([p] + rest)[1..] == rest;
  }

  // Three partitions with a gap to show before the second and the third only.
  lemma BarOfThree(
      choice: PartitionBar.Choice, a: PartitionBar.Part, b: PartitionBar.Part, e: PartitionBar.Part, size: int)
    requires choice.kind == PartitionBar.FreeSpace && choice.shrink.None?
    requires a.start < PartitionBar.MIN_GAP && size - e.end - 1 < PartitionBar.MIN_GAP
    requires b.start - a.end - 1 >= PartitionBar.MIN_GAP && e.start - b.end - 1 >= PartitionBar.MIN_GAP
    requires b.start <= b.end && e.start <= e.end
    ensures PartitionBar.Bar(choice, [a, b, e], 0, size) == [Own(a), GapAfter(a, b), Own(b), GapAfter(b, e), Own(e)]
  {
    BarFrom(choice, b, e, [], size);
    BarFrom(choice, a, b, [e], size);
    BarFromStart(choice, a, [b, e], size);
    assert [e] + [] == [e] && [b] + [e] == [b, e] && [a] + [b, e] == [a, b, e];
    assert PartitionBar.Bar(choice, [], e.end + 1, size) == [];
  }

  // The gaps of that disk, in its bar.
  ghost predicate OffGridGaps(bar: seq<PartitionBar.Segment>) {
    && |bar| == 5
    && bar[0].fate == PartitionBar.Kept && bar[2].fate == PartitionBar.Kept && bar[4].fate == PartitionBar.Kept
    && bar[1] == PartitionBar.Segment(PartitionBar.Gap, 2 * MIB + 512, 20 * GIB + 512, "free", PartitionBar.Free)
    && bar[3] == PartitionBar.Segment(PartitionBar.Gap, 20 * GIB + 3 * MIB, 20 * GIB, "free", PartitionBar.Free)
  }

  lemma OffGridBar(path: nat -> string, choice: PartitionBar.Choice) returns (bar: seq<PartitionBar.Segment>)
    requires choice.kind == PartitionBar.FreeSpace && choice.shrink.None? && OnDisk(OFF_GRID)
    ensures bar == PartitionBar.Bar(choice, PartitionBar.SortByStart(Listing(OFF_GRID, path)), 0, OFF_GRID.size)
    ensures OffGridGaps(bar)
  {
    var parts := Listing(OFF_GRID, path);
    OffGridSorted(path, parts);
    bar := ThreeShown(choice, parts[0], parts[1], parts[2], OFF_GRID.size);
  }

  lemma ThreeShown(
      choice: PartitionBar.Choice, a: PartitionBar.Part, b: PartitionBar.Part, e: PartitionBar.Part, size: int)
    returns (bar: seq<PartitionBar.Segment>)
    requires choice.kind == PartitionBar.FreeSpace && choice.shrink.None?
    requires a.start == MIB && a.end == 2 * MIB + 511
    requires b.start == 20 * GIB + 2 * MIB + 1024 && b.end == 20 * GIB + 3 * MIB - 1
    requires e.start == 40 * GIB + 3 * MIB && e.end == 40 * GIB + 4 * MIB - 1 && size == e.end + 1 + 33 * 512
    ensures bar == PartitionBar.Bar(choice, [a, b, e], 0, size) && OffGridGaps(bar)
  {
    BarOfThree(choice, a, b, e, size);
    bar := [Own(a), GapAfter(a, b), Own(b), GapAfter(b, e), Own(e)];
  }

  lemma OffGridSorted(path: nat -> string, parts: seq<PartitionBar.Part>)
    requires OnDisk(OFF_GRID) && parts == Listing(OFF_GRID, path)
    ensures |parts| == 3 && PartitionBar.SortByStart(parts) == [parts[0], parts[1], parts[2]]
    ensures parts[0].start == MIB && parts[0].end == 2 * MIB + 511
    ensures parts[1].start == 20 * GIB + 2 * MIB + 1024 && parts[1].end == 20 * GIB + 3 * MIB - 1
    ensures parts[2].start == 40 * GIB + 3 * MIB && parts[2].end == 40 * GIB + 4 * MIB - 1
  {
    forall i, j | 0 <= i < j < |parts| ensures PartitionBar.Start(parts[i]) <= PartitionBar.Start(parts[j]) {
      assert OFF_GRID.partitions[i].end < OFF_GRID.partitions[j].start;
    }
    Sorting.SortOfSorted(parts, PartitionBar.Start);
  }

  lemma OffGridUsable(first: PartitionBar.Segment, second: PartitionBar.Segment)
    requires first.start == 2 * MIB + 512 && first.size == 20 * GIB + 512
    requires second.start == 20 * GIB + 3 * MIB && second.size == 20 * GIB
    ensures Usable(OFF_GRID, first).Size() == 20 * GIB - MIB
    ensures Usable(OFF_GRID, second).Size() == 20 * GIB
  {
  }

  lemma FirstIsLargest(bar: seq<PartitionBar.Segment>)
    requires OffGridGaps(bar)
    ensures PartitionBar.IsFirstLargestFree(bar, 1)
  {
  }

  lemma MarkingFirst(choice: PartitionBar.Choice, bar: seq<PartitionBar.Segment>, m: nat)
    requires choice.kind == PartitionBar.FreeSpace && choice.shrink.None?
    requires PartitionBar.IsFirstLargestFree(bar, m)
    ensures PartitionBar.MarkedFrom(choice, bar, PartitionBar.Marked(bar, m))
  {
    assert bar[m] in bar;
  }

  lemma OffGridMarked(path: nat -> string, c: Storage.Config) returns (segments: seq<PartitionBar.Segment>)
    requires c.layout == Storage.FreeSpace && c.shrink.None? && OnDisk(OFF_GRID)
    ensures Shows(OFF_GRID, path, c, segments)
    ensures |segments| == 5 && segments[1].fate == PartitionBar.New
    ensures segments[1].start == 2 * MIB + 512 && segments[1].size == 20 * GIB + 512
    ensures segments[3].start == 20 * GIB + 3 * MIB && segments[3].size == 20 * GIB
    ensures segments[1].key == PartitionBar.Gap && segments[3].key == PartitionBar.Gap
  {
    var choice := Preview.Previewed(c, path);
    var bar := OffGridBar(path, choice);
    FirstIsLargest(bar);
    MarkingFirst(choice, bar, 1);
    segments := PartitionBar.Marked(bar, 1);
  }

  lemma LargestRegion(d: Disk, u: FreeRegion) returns (r: FreeRegion)
    requires Between(d.lo, d.partitions, d.hi) && d.table.Some? && u in Regions(d)
    ensures Storage.IsLargest(d, r) && r.Size() >= u.Size()
  {
    LayoutOffers(d);
    RegionsAreInOrder(d.lo, d.partitions, d.hi);
    r := Regions(d)[LargestIndex(Regions(d))];
    LargestBeats(Regions(d), r, u);
  }

  // On this disk the bar gives the new system the first gap, and the installer takes the second.
  lemma MarkedGapCanMissRegion(path: nat -> string, c: Storage.Config)
    requires c.layout == Storage.FreeSpace && c.shrink.None?
    ensures exists segments: seq<PartitionBar.Segment>, m: nat, r: FreeRegion ::
              && OnDisk(OFF_GRID) && OFF_GRID.table == Some(Gpt) && Shows(OFF_GRID, path, c, segments)
              && m < |segments| && segments[m].fate == PartitionBar.New
              && Storage.IsLargest(OFF_GRID, r) && r.Size() >= ROOM_NEEDED && !Contains(segments[m], r)
  {
    OffGridIsOk();
    var segments := OffGridMarked(path, c);
    OffGridUsable(segments[1], segments[3]);
    assert IsGap(segments, 1) && IsGap(segments, 3) && !HoldsMost(OFF_GRID, segments, 1);
    UsableIsRegion(OFF_GRID, path, c, segments, 3);
    DiskIsBetween(OFF_GRID);
    var r := LargestRegion(OFF_GRID, Usable(OFF_GRID, segments[3]));
    MarkedHoldsRegionIff(OFF_GRID, path, c, segments, 1, r);
  }
}
