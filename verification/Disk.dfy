/**
 A disk as a table of partitions with byte extents, the listing parted prints of it, and the
 layout the installer reads from that listing: the partitions, and the free regions rounded
 inward to whole MiB.
 */
module Disk {
  import opened Common
  import opened Intervals
  import opened Sequences

  const MIB: int := 0x10_0000
  const GIB: int := 0x4000_0000
  const ESP_BYTES: int := 1024 * MIB
  const MIN_ROOT_BYTES: int := 16 * GIB
  // What a new ESP and root need together.
  const ROOM_NEEDED: int := MIN_ROOT_BYTES + ESP_BYTES

  datatype FsType = Unknown | Ntfs | Ext4 | Btrfs | Xfs | F2fs | Vfat | Luks | BitLocker

  /** A partition covers the bytes `start..end`, both included. `fsBytes` is the size of the
      filesystem on it, `minimum` what its files need, `mounted` whether the live system uses it. */
  datatype Partition = Partition(
    number: nat, start: int, end: int, fs: FsType, fsBytes: int, minimum: nat, mounted: bool)
  {
    function Size(): int {
      end - start + 1
    }
  }

  datatype TableKind = Gpt | OtherTable

  // Bytes `lo..hi` are the part of the disk a partition may use.
  datatype Disk = Disk(
    size: int, table: Option<TableKind>, sector: int, lo: int, hi: int, partitions: seq<Partition>)

  ghost predicate Ordered(parts: seq<Partition>) {
    forall i, j | 0 <= i < j < |parts| :: parts[i].end < parts[j].start
  }

  ghost predicate DistinctNumbers(parts: seq<Partition>) {
    forall i, j | 0 <= i < j < |parts| :: parts[i].number != parts[j].number
  }

  ghost predicate PartOk(d: Disk, p: Partition) {
    && d.lo <= p.start <= p.end <= d.hi
    && 0 < d.sector
    && p.start % d.sector == 0
    && (p.end + 1) % d.sector == 0
  }

  /** Partitions are sector-aligned, pairwise disjoint and inside the usable area; the sector size
      divides a MiB. */
  ghost predicate DiskOk(d: Disk) {
    && 0 < d.sector && MIB % d.sector == 0
    && 0 <= d.lo && d.hi < d.size
    && (forall p <- d.partitions :: PartOk(d, p))
    && Ordered(d.partitions)
    && DistinctNumbers(d.partitions)
  }

  // -- lookup and update by number --------------------------------------------

  predicate Has(parts: seq<Partition>, number: nat) {
    exists i :: 0 <= i < |parts| && parts[i].number == number
  }

  function IndexOf(parts: seq<Partition>, number: nat): (i: nat)
    requires Has(parts, number)
    ensures i < |parts| && parts[i].number == number
  {
    if parts[0].number == number then 0 else 1 + IndexOf(parts[1..], number)
  }

  function Get(parts: seq<Partition>, number: nat): (p: Partition)
    requires Has(parts, number)
    ensures p in parts && p.number == number
  {
    parts[IndexOf(parts, number)]
  }

  function Put(parts: seq<Partition>, p: Partition): seq<Partition>
    requires Has(parts, p.number)
  {
    parts[IndexOf(parts, p.number) := p]
  }

  lemma GetUnique(parts: seq<Partition>, p: Partition)
    requires DistinctNumbers(parts) && p in parts
    ensures Has(parts, p.number) && Get(parts, p.number) == p
  {
  }

  // -- what parted prints ---------------------------------------------------------

  datatype Line = FreeLine(start: int, end: int) | PartLine(part: Partition)

  function Gap(start: int, end: int): seq<Line> {
    if start <= end then [FreeLine(start, end)] else []
  }

  /** `print free` for the area `cursor..hi`: partitions in order, with the gaps between them. */
  function Print(cursor: int, parts: seq<Partition>, hi: int): seq<Line>
    decreases |parts|
  {
    if parts == [] then Gap(cursor, hi)
    else Gap(cursor, parts[0].start - 1) + [PartLine(parts[0])] + Print(parts[0].end + 1, parts[1..], hi)
  }

  // -- reading the listing ----------------------------------------------------------

  datatype FreeRegion = FreeRegion(start: int, end: int) {
    function Size(): int {
      end - start
    }
  }

  datatype DiskLayout = DiskLayout(
    size: int, table: Option<TableKind>, sector: int, partitions: seq<Partition>, free: seq<FreeRegion>)

  // Python's // rounds down, as / does here for a positive divisor.
  function AlignUp(value: int): int {
    -((-value) / MIB) * MIB
  }

  function AlignDown(value: int): int {
    value / MIB * MIB
  }

  /** The whole MiB inside a free line, without the first one of the disk. */
  function Inner(start: int, end: int): FreeRegion {
    FreeRegion(Max(MIB, AlignUp(start)), AlignDown(end + 1))
  }

  function FreeOf(lines: seq<Line>): seq<FreeRegion> {
    if lines == [] then []
    else
      (if lines[0].FreeLine? && Inner(lines[0].start, lines[0].end).Size() >= MIB
       then [Inner(lines[0].start, lines[0].end)] else [])
      + FreeOf(lines[1..])
  }

  function PartsOf(lines: seq<Line>): seq<Partition> {
    if lines == [] then []
    else (if lines[0].PartLine? then [lines[0].part] else []) + PartsOf(lines[1..])
  }

  /** What the installer makes of a listing; an empty disk without a table offers nearly all of it. */
  function Layout(size: int, table: Option<TableKind>, sector: int, lines: seq<Line>): DiskLayout {
    DiskLayout(size, table, sector, PartsOf(lines),
               if table == None && size != 0 && PartsOf(lines) == []
               then [FreeRegion(MIB, (size / MIB - 1) * MIB)] else FreeOf(lines))
  }

  /** A disk without a table offers all of its whole MiB but the first and the last. */
  lemma TablelessOffers(size: int, sector: int, lines: seq<Line>)
    requires size > 0 && PartsOf(lines) == []
    ensures var free := Layout(size, None, sector, lines).free;
            && |free| == 1 && free[0].start == MIB && free[0].end % MIB == 0
            && free[0].end + MIB <= size < free[0].end + 2 * MIB
  {
    AlignFacts(size);
  }

  method ParseDiskLayout(size: int, table: Option<TableKind>, sector: int, lines: seq<Line>)
    returns (layout: DiskLayout)
    ensures layout == Layout(size, table, sector, lines)
  {
    var partitions: seq<Partition> := [];
    var free: seq<FreeRegion> := [];
    for i := 0 to |lines|
      invariant partitions + PartsOf(lines[i..]) == PartsOf(lines)
      invariant free + FreeOf(lines[i..]) == FreeOf(lines)
    {
      var line := lines[i];
      assert lines[i..][1..] == lines[i + 1..];
      ghost var partitions0, free0 := partitions, free;
      if line.FreeLine? {
        var alignedStart := Max(MIB, AlignUp(line.start));
        var alignedEnd := AlignDown(line.end + 1);
        if alignedEnd - alignedStart >= MIB {
          free := free + [FreeRegion(alignedStart, alignedEnd)];
          assert free + FreeOf(lines[i + 1..])
              == free0 + ([FreeRegion(alignedStart, alignedEnd)] + FreeOf(lines[i + 1..]));
        }
      } else {
        partitions := partitions + [line.part];
        assert partitions + PartsOf(lines[i + 1..]) == partitions0 + ([line.part] + PartsOf(lines[i + 1..]));
      }
    }
    if table == None && size != 0 && partitions == [] {
      free := [FreeRegion(MIB, (size / MIB - 1) * MIB)];
    }
    layout := DiskLayout(size, table, sector, partitions, free);
  }

  /** The layout read from an actual disk. */
  function ReadLayout(d: Disk): DiskLayout {
    Layout(d.size, d.table, d.sector, Print(d.lo, d.partitions, d.hi))
  }

  /** Python's max: the first of the largest. */
  function LargestIndex(free: seq<FreeRegion>): (k: nat)
    requires free != []
    ensures k < |free|
    ensures forall i | 0 <= i < k :: free[i].Size() < free[k].Size()
    ensures forall i | k <= i < |free| :: free[i].Size() <= free[k].Size()
  {
    var last := |free| - 1;
    if last == 0 then 0
    else
      var k := LargestIndex(free[..last]);
      if free[last].Size() > free[k].Size() then last else k
  }

  function LargestFree(free: seq<FreeRegion>): Option<FreeRegion> {
    if free == [] then None else Some(free[LargestIndex(free)])
  }

  // -- alignment ------------------------------------------------------------------------

  lemma AlignFacts(v: int)
    ensures AlignDown(v) <= v < AlignDown(v) + MIB
    ensures AlignUp(v) - MIB < v <= AlignUp(v)
    ensures AlignDown(v) % MIB == 0 && AlignUp(v) % MIB == 0
    ensures v % MIB == 0 ==> AlignUp(v) == v && AlignDown(v) == v
  {
  }

  /** A multiple of a MiB is a multiple of the sector size, so sector arithmetic on it is exact. */
  lemma MibIsSectors(sector: int, v: int)
    requires 0 < sector && MIB % sector == 0 && v % MIB == 0
    ensures v % sector == 0 && v / sector * sector == v
  {
    var q, k := MIB / sector, v / MIB;
    assert MIB == sector * q && v == MIB * k;
    assert v == sector * (q * k) by {
      MulAssoc(sector, q, k);
    }
    MulMod(sector, q * k);
  }

  lemma MulAssoc(a: int, b: int, c: int)
    ensures a * b * c == a * (b * c)
  {
  }

  lemma MulAtLeast(a: int, d: int)
    requires 0 < a && 1 <= d
    ensures a * d >= a
  {
    assert a * d == a + a * (d - 1);
    assert a * (d - 1) >= 0;
  }

  lemma MulMod(a: int, k: int)
    requires 0 < a
    ensures (a * k) % a == 0 && (a * k) / a == k
  {
    var q, r := (a * k) / a, (a * k) % a;
    assert a * k == a * q + r && 0 <= r < a;
    assert a * (k - q) == a * k - a * q && a * (q - k) == a * q - a * k;
    if k - q >= 1 {
      MulAtLeast(a, k - q);
    } else if q - k >= 1 {
      MulAtLeast(a, q - k);
    }
  }

  // -- the free regions are exactly the usable whole MiB -----------------------------------

  /** An interval of whole MiB, clear of the first MiB, inside `lo..hi` and of every partition. */
  ghost predicate FreeInterval(lo: int, parts: seq<Partition>, hi: int, a: int, b: int) {
    && a % MIB == 0 && b % MIB == 0 && MIB <= a && a + MIB <= b
    && lo <= a && b - 1 <= hi
    && forall p <- parts :: Apart(a, b - 1, p.start, p.end)
  }

  ghost predicate Between(lo: int, parts: seq<Partition>, hi: int) {
    && Ordered(parts)
    && forall p <- parts :: lo <= p.start <= p.end <= hi
  }

  /** The whole MiB inside a free line are the largest aligned interval in it. */
  lemma InnerIsLargest(start: int, end: int, a: int, b: int)
    requires a % MIB == 0 && b % MIB == 0 && MIB <= a && a + MIB <= b
    requires start <= a && b - 1 <= end
    ensures Inner(start, end).start <= a && b <= Inner(start, end).end
  {
    AlignFacts(start);
    AlignFacts(end + 1);
  }

  lemma GapRegion(start: int, end: int, r: FreeRegion)
    requires r in FreeOf(Gap(start, end))
    ensures r.start % MIB == 0 && r.end % MIB == 0 && MIB <= r.start && r.start + MIB <= r.end
    ensures start <= r.start && r.end - 1 <= end
  {
    assert r == Inner(start, end);
    AlignFacts(start);
    AlignFacts(end + 1);
  }

  lemma GapOffers(start: int, end: int, a: int, b: int) returns (r: FreeRegion)
    requires a % MIB == 0 && b % MIB == 0 && MIB <= a && a + MIB <= b
    requires start <= a && b - 1 <= end
    ensures r in FreeOf(Gap(start, end)) && r.start <= a && b <= r.end
  {
    r := Inner(start, end);
    InnerIsLargest(start, end, a, b);
  }

  lemma {:induction false} FreeOfConcat(a: seq<Line>, b: seq<Line>)
    ensures FreeOf(a + b) == FreeOf(a) + FreeOf(b)
  {
    if a == [] {
      assert a + b == b;
    } else {
      assert (a + b)[1..] == a[1..] + b;
      FreeOfConcat(a[1..], b);
    }
  }

  lemma FreeOfPrint(lo: int, parts: seq<Partition>, hi: int)
    requires parts != []
    ensures FreeOf(Print(lo, parts, hi)) ==
            FreeOf(Gap(lo, parts[0].start - 1)) + FreeOf(Print(parts[0].end + 1, parts[1..], hi))
  {
    var gap, rest := Gap(lo, parts[0].start - 1), Print(parts[0].end + 1, parts[1..], hi);
    FreeOfConcat(gap, [PartLine(parts[0])] + rest);
    assert ([PartLine(parts[0])] + rest)[1..] == rest;
    assert gap + [PartLine(parts[0])] + rest == gap + ([PartLine(parts[0])] + rest);
  }

  lemma BeforeFirst(lo: int, parts: seq<Partition>, hi: int, r: FreeRegion)
    requires Between(lo, parts, hi) && parts != [] && r in FreeOf(Gap(lo, parts[0].start - 1))
    ensures FreeInterval(lo, parts, hi, r.start, r.end)
  {
    GapRegion(lo, parts[0].start - 1, r);
    forall p | p in parts ensures Apart(r.start, r.end - 1, p.start, p.end) {
      var k :| 0 <= k < |parts| && parts[k] == p;
    }
  }

  lemma AfterFirst(lo: int, parts: seq<Partition>, hi: int, a: int, b: int)
    requires Between(lo, parts, hi) && parts != []
    requires FreeInterval(parts[0].end + 1, parts[1..], hi, a, b)
    ensures FreeInterval(lo, parts, hi, a, b)
  {
    assert parts[0] in parts;
    forall p | p in parts ensures Apart(a, b - 1, p.start, p.end) {
      if p != parts[0] {
        assert p in parts[1..];
      }
    }
  }

  lemma DropFirst(lo: int, parts: seq<Partition>, hi: int)
    requires Between(lo, parts, hi) && parts != []
    ensures Between(parts[0].end + 1, parts[1..], hi)
  {
  }

  /** Every region read back is a free interval. */
  lemma {:induction false} RegionsAreFree(lo: int, parts: seq<Partition>, hi: int, r: FreeRegion)
    requires Between(lo, parts, hi) && r in FreeOf(Print(lo, parts, hi))
    ensures FreeInterval(lo, parts, hi, r.start, r.end)
    decreases |parts|
  {
    if parts == [] {
      GapRegion(lo, hi, r);
    } else {
      FreeOfPrint(lo, parts, hi);
      if r in FreeOf(Gap(lo, parts[0].start - 1)) {
        BeforeFirst(lo, parts, hi, r);
      } else {
        DropFirst(lo, parts, hi);
        RegionsAreFree(parts[0].end + 1, parts[1..], hi, r);
        AfterFirst(lo, parts, hi, r.start, r.end);
      }
    }
  }

  ghost predicate RegionsFollow(free: seq<FreeRegion>) {
    && (forall r <- free :: r.start < r.end)
    && forall i, j | 0 <= i < j < |free| :: free[i].end <= free[j].start
  }

  lemma GapOffersOne(start: int, end: int)
    ensures |FreeOf(Gap(start, end))| <= 1
  {
    if start <= end {
      assert FreeOf(Gap(start, end)[1..]) == [];
    }
  }

  lemma RegionsBehind(lo: int, parts: seq<Partition>, hi: int, rest: seq<FreeRegion>)
    requires parts != [] && Between(lo, parts, hi)
    requires rest == FreeOf(Print(parts[0].end + 1, parts[1..], hi)) && RegionsFollow(rest)
    ensures RegionsFollow(FreeOf(Gap(lo, parts[0].start - 1)) + rest)
  {
    var first := FreeOf(Gap(lo, parts[0].start - 1));
    DropFirst(lo, parts, hi);
    forall r | r in rest ensures parts[0].end < r.start {
      RegionsAreFree(parts[0].end + 1, parts[1..], hi, r);
    }
    forall r | r in first ensures r.start < r.end <= parts[0].start {
      GapRegion(lo, parts[0].start - 1, r);
    }
    GapOffersOne(lo, parts[0].start - 1);
  }

  /** The regions read back stand in disk order, one behind the other. */
  lemma {:induction false} RegionsAreInOrder(lo: int, parts: seq<Partition>, hi: int)
    requires Between(lo, parts, hi)
    ensures RegionsFollow(FreeOf(Print(lo, parts, hi)))
    decreases |parts|
  {
    if parts == [] {
      GapOffersOne(lo, hi);
      forall r | r in FreeOf(Gap(lo, hi)) ensures r.start < r.end {
        GapRegion(lo, hi, r);
      }
    } else {
      DropFirst(lo, parts, hi);
      RegionsAreInOrder(parts[0].end + 1, parts[1..], hi);
      RegionsBehind(lo, parts, hi, FreeOf(Print(parts[0].end + 1, parts[1..], hi)));
      FreeOfPrint(lo, parts, hi);
    }
  }

  lemma OneRegion(free: seq<FreeRegion>, r: FreeRegion, other: FreeRegion)
    requires RegionsFollow(free) && r in free && other in free
    requires other.start <= r.start && r.end <= other.end
    ensures r == other
  {
    var i, j :| 0 <= i < |free| && 0 <= j < |free| && free[i] == r && free[j] == other;
  }

  lemma LargestBeats(free: seq<FreeRegion>, r: FreeRegion, u: FreeRegion)
    requires RegionsFollow(free) && u in free && r == free[LargestIndex(free)]
    ensures u.Size() <= r.Size() && (u.end <= r.start ==> u.Size() < r.Size())
  {
    var i :| 0 <= i < |free| && free[i] == u;
  }

  lemma BehindFirst(lo: int, parts: seq<Partition>, rest: seq<Partition>, hi: int, a: int, b: int)
    requires Between(lo, parts, hi) && FreeInterval(lo, parts, hi, a, b)
    requires parts != [] && rest == parts[1..] && parts[0].start <= b - 1
    ensures Between(parts[0].end + 1, rest, hi) && FreeInterval(parts[0].end + 1, rest, hi, a, b)
  {
    DropFirst(lo, parts, hi);
    assert Apart(a, b - 1, parts[0].start, parts[0].end);
    forall p | p in rest ensures Apart(a, b - 1, p.start, p.end) {
      assert p in parts;
    }
  }

  lemma OfferedBehind(lo: int, parts: seq<Partition>, rest: seq<Partition>, hi: int, r: FreeRegion)
    requires parts != [] && rest == parts[1..] && r in FreeOf(Print(parts[0].end + 1, rest, hi))
    ensures r in FreeOf(Print(lo, parts, hi))
  {
    FreeOfPrint(lo, parts, hi);
  }

  lemma OfferedAlone(lo: int, hi: int, a: int, b: int) returns (r: FreeRegion)
    requires FreeInterval(lo, [], hi, a, b)
    ensures r in FreeOf(Print(lo, [], hi)) && r.start <= a && b <= r.end
  {
    r := GapOffers(lo, hi, a, b);
  }

  lemma OfferedBefore(lo: int, parts: seq<Partition>, hi: int, a: int, b: int) returns (r: FreeRegion)
    requires FreeInterval(lo, parts, hi, a, b) && parts != [] && b - 1 < parts[0].start
    ensures r in FreeOf(Print(lo, parts, hi)) && r.start <= a && b <= r.end
  {
    r := GapOffers(lo, parts[0].start - 1, a, b);
    FreeOfPrint(lo, parts, hi);
  }

  /** Every free interval lies inside one of the regions read back. */
  lemma {:induction false} FreeIsInRegion(lo: int, parts: seq<Partition>, hi: int, a: int, b: int)
    returns (r: FreeRegion)
    requires Between(lo, parts, hi) && FreeInterval(lo, parts, hi, a, b)
    ensures r in FreeOf(Print(lo, parts, hi)) && r.start <= a && b <= r.end
    decreases |parts|
  {
    if parts == [] {
      r := OfferedAlone(lo, hi, a, b);
    } else if b - 1 < parts[0].start {
      r := OfferedBefore(lo, parts, hi, a, b);
    } else {
      var first, rest := parts[0], parts[1..];
      BehindFirst(lo, parts, rest, hi, a, b);
      r := FreeIsInRegion(first.end + 1, rest, hi, a, b);
      OfferedBehind(lo, parts, rest, hi, r);
    }
  }

  /** `length` bytes of whole MiB are free from byte `a` on. */
  ghost predicate DiskFree(d: Disk, a: int, length: int) {
    FreeInterval(d.lo, d.partitions, d.hi, a, a + length)
  }

  /** The free regions read from a partitioned disk. */
  function Regions(d: Disk): seq<FreeRegion> {
    FreeOf(Print(d.lo, d.partitions, d.hi))
  }

  lemma DiskIsBetween(d: Disk)
    requires DiskOk(d)
    ensures Between(d.lo, d.partitions, d.hi)
  {
    assert forall p <- d.partitions :: PartOk(d, p);
  }

  lemma FreePrefix(lo: int, parts: seq<Partition>, hi: int, a: int, b: int, need: int)
    requires FreeInterval(lo, parts, hi, a, b)
    requires need % MIB == 0 && MIB <= need <= b - a
    ensures FreeInterval(lo, parts, hi, a, a + need)
  {
    forall p | p in parts ensures Apart(a, a + need - 1, p.start, p.end) {
      assert Apart(a, b - 1, p.start, p.end);
    }
  }

  lemma LargestIsFree(d: Disk, free: seq<FreeRegion>)
    requires DiskOk(d) && free == FreeOf(Print(d.lo, d.partitions, d.hi)) && free != []
    ensures var best := free[LargestIndex(free)]; DiskFree(d, best.start, best.Size())
  {
    DiskIsBetween(d);
    RegionsAreFree(d.lo, d.partitions, d.hi, free[LargestIndex(free)]);
  }

  lemma FreeIsOffered(d: Disk, free: seq<FreeRegion>, a: int, need: int)
    requires DiskOk(d) && free == FreeOf(Print(d.lo, d.partitions, d.hi))
    requires DiskFree(d, a, need)
    ensures free != [] && free[LargestIndex(free)].Size() >= need
  {
    DiskIsBetween(d);
    var r := FreeIsInRegion(d.lo, d.partitions, d.hi, a, a + need);
    var i :| 0 <= i < |free| && free[i] == r;
    assert free[i].Size() <= free[LargestIndex(free)].Size();
  }

  lemma RoomIsFree(d: Disk, region: FreeRegion, need: int)
    requires DiskFree(d, region.start, region.Size())
    requires need % MIB == 0 && MIB <= need <= region.Size()
    ensures DiskFree(d, region.start, need)
  {
    FreePrefix(d.lo, d.partitions, d.hi, region.start, region.start + region.Size(), need);
  }

  lemma OfferedIffFree(d: Disk, free: seq<FreeRegion>, best: FreeRegion, need: int)
    requires DiskOk(d) && need % MIB == 0 && need >= MIB
    requires free == FreeOf(Print(d.lo, d.partitions, d.hi)) && free != [] && best == free[LargestIndex(free)]
    ensures DiskFree(d, best.start, best.Size())
    ensures best.Size() >= need <==> exists a :: DiskFree(d, a, need)
  {
    LargestIsFree(d, free);
    if best.Size() >= need {
      RoomIsFree(d, best, need);
    }
    if a :| DiskFree(d, a, need) {
      FreeIsOffered(d, free, a, need);
    }
  }

  lemma LayoutOffers(d: Disk)
    requires d.table.Some?
    ensures ReadLayout(d).free == FreeOf(Print(d.lo, d.partitions, d.hi))
  {
  }

  /** On a partitioned disk the layout offers `need` bytes (whole MiB) exactly when that much
      aligned space is really free, and the largest region it offers really is free. */
  lemma LargestFreeIsExact(d: Disk, need: int)
    requires DiskOk(d) && need % MIB == 0 && need >= MIB
    ensures d.table.Some? ==>
            var best := LargestFree(ReadLayout(d).free);
            && (best.Some? ==> DiskFree(d, best.value.start, best.value.Size()))
            && ((best.Some? && best.value.Size() >= need) <==> exists a :: DiskFree(d, a, need))
  {
    if d.table.Some? {
      LayoutOffers(d);
      var free := ReadLayout(d).free;
      if free != [] {
        OfferedIffFree(d, free, LargestFree(free).value, need);
      } else if a :| DiskFree(d, a, need) {
        FreeIsOffered(d, free, a, need);
      }
    }
  }

  lemma {:induction false} PartsOfConcat(a: seq<Line>, b: seq<Line>)
    ensures PartsOf(a + b) == PartsOf(a) + PartsOf(b)
  {
    if a == [] {
      assert a + b == b;
    } else {
      var all, own := a + b, if a[0].PartLine? then [a[0].part] else [];
      assert all[0] == a[0] && all[1..] == a[1..] + b;
      PartsOfConcat(a[1..], b);
      Associates(own, PartsOf(a[1..]), PartsOf(b));
    }
  }

  lemma {:induction false} PartsOfPrint(lo: int, parts: seq<Partition>, hi: int)
    ensures PartsOf(Print(lo, parts, hi)) == parts
    decreases |parts|
  {
    if parts != [] {
      var gap, rest := Gap(lo, parts[0].start - 1), Print(parts[0].end + 1, parts[1..], hi);
      PartsOfPrint(parts[0].end + 1, parts[1..], hi);
      PartsOfConcat(gap + [PartLine(parts[0])], rest);
      PartsOfConcat(gap, [PartLine(parts[0])]);
      assert PartsOf(gap) == [] && PartsOf([PartLine(parts[0])]) == [parts[0]];
    }
  }
}
