/**
 The storage manager: shrinking a partition, laying out the disk, encrypting, formatting and
 mounting it, and tearing everything down again, with a fault possible at every command.
 */
module Storage {
  import opened Common
  import opened Disk
  import opened Intervals
  import opened Machine
  import opened Shrink

  datatype LayoutKind = Erase | FreeSpace | Partitions

  datatype Firmware = Uefi | Bios

  datatype Config = Config(
    layout: LayoutKind, firmware: Firmware, filesystem: FsType, subvolumes: bool,
    root: Option<nat>, boot: Option<nat>, formatBoot: bool,
    shrink: Option<nat>, shrinkSize: int, encrypt: bool)

  /** What validation has checked before the disk is touched. */
  predicate Validated(c: Config) {
    && c.filesystem in {Btrfs, Ext4, Xfs, F2fs}
    && (c.layout != Erase ==> c.firmware == Uefi)
    && (c.layout == Partitions ==> c.root.Some? && c.boot.Some? && c.root != c.boot)
    && (c.shrink.Some? ==> c.layout == FreeSpace && c.shrinkSize > 0)
  }

  /** A BIOS boot loader reads neither a LUKS nor an f2fs root. */
  predicate NeedsSeparateBoot(c: Config) {
    c.firmware == Bios && (c.encrypt || c.filesystem == F2fs)
  }

  // (subvolume, mount point below the target)
  const SUBVOLUMES: seq<(string, seq<string>)> :=
    [("@", []), ("@home", ["home"]), ("@log", ["var", "log"]),
     ("@pkg", ["var", "cache", "pacman", "pkg"]), ("@snapshots", [".snapshots"])]
  const BOOT: seq<string> := ["boot"]

  /** Done, refused by a check, or stopped by a command that failed. */
  datatype Outcome<+T> = Done(value: T) | Refused(reason: string) | Failed

  datatype Prepared = Prepared(
    rootPartition: nat, rootDevice: Device, boot: Option<nat>, bootIsEsp: bool, espNumber: Option<nat>)

  /** The root is reached through the mapper exactly with encryption, and with UEFI the boot
      partition is the ESP. */
  predicate Describes(p: Prepared, c: Config) {
    && p.rootDevice == (if c.encrypt then Mapper else Part(p.rootPartition))
    && (p.bootIsEsp <==> c.firmware == Uefi)
    && p.espNumber == (if c.firmware == Uefi then p.boot else None)
  }

  // -- the command runner -----------------------------------------------------------

  /** Runs one command at a time; the `k`th one fails for no reason of its own when `fails(k)`. */
  class Runner {
    const fails: nat -> bool
    var issued: nat
    var world: World
    ghost var history: seq<OrderlyWorld>  // the states after every command so far, all in order
    ghost var last: Option<Command>       // the command before, if it went through
    ghost var devices: Devices

    ghost predicate Valid()
      reads this
    {
      WorldOk(world)
    }

    /** Some command from the `lo`th up to the `hi`th met a fault. */
    ghost predicate Faulty(lo: nat, hi: nat) {
      exists k: nat :: lo <= k < hi && fails(k)
    }

    constructor (fails: nat -> bool, world: World)
      requires WorldOk(world)
      ensures Valid() && this.world == world && this.fails == fails && issued == 0 && history == [world]
      ensures last == None && devices == Current
    {
      this.fails := fails;
      this.world := world;
      issued := 0;
      history, last, devices := [world], None, Current;
    }

    method Run(c: Command) returns (ok: bool)
      requires Valid() && Careful(world, c) && InTurn(last, devices, c)
      modifies this
      ensures Valid() && issued == old(issued) + 1 && history == old(history) + [world]
      ensures ok == (!fails(old(issued)) && Possible(old(world), c))
      ensures world == if ok then Effect(old(world), c) else old(world)
      ensures devices == if ok then DevicesAfter(old(devices), c) else old(devices)
      ensures last == if ok then Some(c) else None
    {
      ok := !fails(issued) && Possible(world, c);
      if ok {
        EffectKeepsOk(world, c);
        world := Effect(world, c);
        devices := DevicesAfter(devices, c);
      }
      issued := issued + 1;
      history := history + [world];
      last := if ok then Some(c) else None;
    }

    /** A command that only reads. */
    method Read() returns (ok: bool)
      requires Valid() && devices == Current
      modifies this
      ensures Valid() && world == old(world) && issued == old(issued) + 1 && devices == Current
      ensures ok == !fails(old(issued)) && (ok ==> last == Some(Query))
    {
      ok := Run(Query);
    }

    /** partprobe, then udevadm settle. */
    method CatchUp() returns (ok: bool)
      requires Valid()
      modifies this
      ensures Valid() && world == old(world) && issued > old(issued)
      ensures ok ==> devices == Current && issued == old(issued) + 2
      ensures !Faulty(old(issued), issued) ==> ok
    {
      ok := Run(Partprobe);
      if ok {
        ok := Run(Settle);
      }
    }

    /** The layout of the disk, as far as parted and lsblk could be read. */
    method ReadDiskLayout() returns (layout: DiskLayout)
      requires Valid() && devices == Current
      modifies this
      ensures Valid() && world == old(world) && issued == old(issued) + 2 && devices == Current
      ensures layout == SeenLayout(world.disk, !fails(old(issued)), !fails(old(issued) + 1))
    {
      var parted := Read();
      var lsblk := Read();
      if !parted {
        return EMPTY_LAYOUT;
      }
      layout := ParseDiskLayout(world.disk.size, world.disk.table, world.disk.sector,
                                Print(world.disk.lo, world.disk.partitions, world.disk.hi));
      if !lsblk {
        layout := layout.(partitions := Undetailed(layout.partitions));
      }
    }
  }

  /** Without parted's listing the layout is empty, without lsblk's it lacks filesystem types and
      mount points. */
  function SeenLayout(d: Disk, parted: bool, lsblk: bool): DiskLayout {
    if !parted then EMPTY_LAYOUT
    else if !lsblk then ReadLayout(d).(partitions := Undetailed(ReadLayout(d).partitions))
    else ReadLayout(d)
  }

  lemma SeenFacts(d: Disk, parted: bool, lsblk: bool)
    ensures var layout := SeenLayout(d, parted, lsblk);
            && (!parted ==> layout == EMPTY_LAYOUT)
            && (parted ==> layout.table == d.table && layout.sector == d.sector && layout.free == ReadLayout(d).free)
            && (parted && lsblk ==> layout.partitions == d.partitions)
            && (parted && !lsblk ==> layout.partitions == Undetailed(d.partitions))
  {
    PartsOfPrint(d.lo, d.partitions, d.hi);
  }

  const EMPTY_LAYOUT: DiskLayout := DiskLayout(0, None, 512, [], [])

  function Undetailed(parts: seq<Partition>): seq<Partition> {
    seq(|parts|, i requires 0 <= i < |parts| => parts[i].(fs := Unknown, mounted := false))
  }

  /** Looking a partition up in what was read. */
  lemma SeenPart(d: Disk, parted: bool, lsblk: bool, n: nat)
    requires DistinctNumbers(d.partitions)
    ensures var parts := SeenLayout(d, parted, lsblk).partitions;
            && Has(parts, n) == (parted && Has(d.partitions, n))
            && (Has(parts, n) ==> Get(parts, n) == Detailed(Get(d.partitions, n), lsblk))
  {
    SeenFacts(d, parted, lsblk);
    UndetailedLookups(d.partitions, n);
  }

  function Detailed(p: Partition, lsblk: bool): Partition {
    if lsblk then p else p.(fs := Unknown, mounted := false)
  }

  /** The partition a shrink is asked for, as far as a layout shows it. */
  function Candidate(layout: DiskLayout, n: nat): Outcome<Partition> {
    if layout.table != Some(Gpt) then Refused("shrinking a partition requires a GPT partition table")
    else if !Has(layout.partitions, n) then Refused("not a partition on this disk")
    else Done(Get(layout.partitions, n))
  }

  lemma CandidateIsThere(d: Disk, parted: bool, lsblk: bool, n: nat)
    requires DistinctNumbers(d.partitions)
    ensures var r := Candidate(SeenLayout(d, parted, lsblk), n);
            && (r.Done? <==> parted && d.table == Some(Gpt) && Has(d.partitions, n))
            && (r.Done? ==> r.value == Detailed(Get(d.partitions, n), lsblk))
  {
    SeenFacts(d, parted, lsblk);
    SeenPart(d, parted, lsblk, n);
  }

  function FindStart(parts: seq<Partition>, start: int): (r: Option<Partition>)
    ensures r.Some? ==> r.value in parts && r.value.start == start
    ensures r == None ==> forall p <- parts :: p.start != start
  {
    if parts == [] then None
    else if parts[0].start == start then Some(parts[0])
    else FindStart(parts[1..], start)
  }

  // -- which partitions a command changes -----------------------------------------------

  /** From `w` to `v` only the partitions numbered in `ns` changed, and not in place or extent. */
  ghost predicate Only(w: World, v: World, ns: set<nat>) {
    && w.written <= v.written && w.flags <= v.flags
    && forall n ::
         && Has(v.disk.partitions, n) == Has(w.disk.partitions, n)
         && (Has(w.disk.partitions, n) ==>
               var p, q := Get(w.disk.partitions, n), Get(v.disk.partitions, n);
               if n in ns then q.start == p.start && q.end == p.end && q.mounted == p.mounted else q == p)
  }

  /** From `w` to `v` the whole partition was written over. */
  ghost predicate Renewed(w: World, v: World, n: nat) {
    && Has(w.disk.partitions, n)
    && exists i :: |w.written| <= i < |v.written|
                   && v.written[i] == Extent(Get(w.disk.partitions, n).start, Get(w.disk.partitions, n).end)
  }

  lemma ReformatRenews(w: World, n: nat, fs: FsType)
    requires Has(w.disk.partitions, n)
    ensures Renewed(w, Reformatted(w, n, fs), n)
  {
    assert Reformatted(w, n, fs).written[|w.written|] ==
      Extent(Get(w.disk.partitions, n).start, Get(w.disk.partitions, n).end);
  }

  lemma RenewedBefore(w: World, v: World, u: World, n: nat)
    requires Renewed(w, v, n) && v.written <= u.written
    ensures Renewed(w, u, n)
  {
  }

  lemma RenewedAfter(w: World, v: World, u: World, n: nat, ns: set<nat>)
    requires Only(w, v, ns) && Renewed(v, u, n)
    ensures Renewed(w, u, n)
  {
    var i :| |v.written| <= i < |u.written|
             && u.written[i] == Extent(Get(v.disk.partitions, n).start, Get(v.disk.partitions, n).end);
  }

  lemma OnlyThenMounts(w: World, v: World, u: World, ns: set<nat>)
    requires Only(w, v, ns) && u == v.(mounts := u.mounts)
    ensures Only(w, u, ns)
  {
  }

  function Target(c: Command): set<nat> {
    match c
    case Wipe(n) => {n}
    case LuksFormat(n) => {n}
    case MakeFs(device, _) => if device.Part? then {device.number} else {}
    case _ => {}
  }

  predicate InPlace(c: Command) {
    !c.MakePartition? && !c.MakeLabel? && !c.Sfdisk? && !c.NtfsResize? && !c.Resize2fs?
  }

  lemma EffectOnly(w: World, c: Command)
    requires WorldOk(w) && Possible(w, c) && InPlace(c)
    ensures Only(w, Effect(w, c), Target(c))
  {
    match c
    case Wipe(n) => ReformatLookups(w, n, Unknown);
    case LuksFormat(n) => ReformatLookups(w, n, Luks);
    case MakeFs(device, fs) =>
      if device.Part? {
        ReformatLookups(w, device.number, fs);
      }
    case _ =>
  }

  /** A command inside the frame, if it can take effect. */
  lemma StaysInFrame(f: Frame, w: World, c: Command)
    requires WorldOk(w) && DiskOk(f.base.disk) && Kept(f.base, w, f.scope) && InScope(w, c, f.scope)
    ensures Possible(w, c) ==> Kept(f.base, Effect(w, c), f.scope)
    ensures Possible(w, c) && InPlace(c) ==> Only(w, Effect(w, c), Target(c))
    ensures Only(w, w, Target(c))
  {
    if Possible(w, c) {
      EffectKeeps(f.base, w, c, f.scope);
      if InPlace(c) {
        EffectOnly(w, c);
      }
    }
  }

  lemma OpensOnly(w: World, c: Command)
    requires Possible(w, c)
    ensures !c.MountFs? && Effect(w, c).mounts != [] ==> w.mounts != []
    ensures !c.LuksOpen? && Effect(w, c).mapper.Some? ==> w.mapper.Some?
  {
  }

  lemma MountEffect(
      w: World, device: Device, dir: seq<string>, fs: FsType, subvolume: Option<string>, scope: seq<Extent>)
    requires Mountable(w, device, dir, fs, subvolume)
    ensures var c := MountFs(device, dir, fs, subvolume);
            && Possible(w, c) && InScope(w, c, scope)
            && Effect(w, c) == w.(mounts := w.mounts + [Mount(device, dir, fs, subvolume)])
  {
  }

  lemma OnlyTrans(u: World, v: World, w: World, a: set<nat>, b: set<nat>)
    requires Only(u, v, a) && Only(v, w, b)
    ensures Only(u, w, a + b)
  {
    forall n ensures
      && Has(w.disk.partitions, n) == Has(u.disk.partitions, n)
      && (Has(u.disk.partitions, n) ==>
            var p, q := Get(u.disk.partitions, n), Get(w.disk.partitions, n);
            if n in a + b then q.start == p.start && q.end == p.end && q.mounted == p.mounted else q == p)
    {
      assert Has(v.disk.partitions, n) == Has(u.disk.partitions, n);
    }
  }

  // -- shrinking, as a change of the table ------------------------------------------------

  /** The world once filesystem and partition `n` have both shrunk to `bytes`. */
  function TableShrunk(w: World, n: nat, bytes: int): World
    requires Has(w.disk.partitions, n)
  {
    w.(disk := Shrunk(w.disk, IndexOf(w.disk.partitions, n), bytes))
  }

  /** The three states a shrink passes through: untouched, filesystem shrunk, partition shrunk. */
  ghost predicate ShrinkStage(w: World, v: World, n: nat, bytes: int) {
    || v == w
    || (Has(w.disk.partitions, n) && v == FsResized(w, n, bytes))
    || (Has(w.disk.partitions, n) && v == TableShrunk(w, n, bytes))
  }

  /** The checks that let a shrink go ahead. */
  predicate ShrinkChecks(d: Disk, n: nat, shrinkSize: int) {
    d.table == Some(Gpt) && Has(d.partitions, n) && Accepted(Get(d.partitions, n), shrinkSize)
  }

  /** In the disk's own terms: a GPT disk with an idle NTFS or ext4 partition of that number, which keeps
      2 GiB above what its files need and frees 17 GiB. */
  lemma ShrinkChecksMean(d: Disk, n: nat, shrinkSize: int)
    requires DiskOk(d)
    ensures ShrinkChecks(d, n, shrinkSize) <==>
            && d.table == Some(Gpt)
            && exists p <- d.partitions ::
                 && p.number == n && (p.fs == Ntfs || p.fs == Ext4) && !p.mounted
                 && RoundedSize(shrinkSize) >= p.minimum + 2 * GIB
                 && p.Size() - RoundedSize(shrinkSize) >= 17 * GIB
  {
    forall p | p in d.partitions
      ensures Accepted(p, shrinkSize) <==>
              && (p.fs == Ntfs || p.fs == Ext4) && !p.mounted
              && RoundedSize(shrinkSize) >= p.minimum + 2 * GIB
              && p.Size() - RoundedSize(shrinkSize) >= 17 * GIB
      ensures Has(d.partitions, p.number) && Get(d.partitions, p.number) == p
    {
      assert PartOk(d, p);
      AcceptedIff(p, shrinkSize);
      GetUnique(d.partitions, p);
    }
  }

  lemma UndetailedLookups(parts: seq<Partition>, n: nat)
    requires DistinctNumbers(parts)
    ensures Has(Undetailed(parts), n) == Has(parts, n)
    ensures Has(parts, n) ==>
              Get(Undetailed(parts), n) == Get(parts, n).(fs := Unknown, mounted := false)
  {
    var q := Undetailed(parts);
    assert forall i | 0 <= i < |parts| :: q[i].number == parts[i].number;
    if Has(parts, n) {
      var i := IndexOf(parts, n);
      assert q[i].number == n;
      assert DistinctNumbers(q);
      GetUnique(q, q[i]);
    }
  }

  function SizeRefusal(info: ShrinkInfo, newSize: int): Option<string> {
    if info.smallest == 0 then Some("can't be shrunk")
    else if newSize < info.smallest then Some("can't be smaller than its files plus room to keep working")
    else if info.size - newSize < ROOM_NEEDED then Some("frees less than protogenOS needs")
    else None
  }

  lemma SizeRefusalIsExact(info: ShrinkInfo, shrinkSize: int)
    ensures SizeRefusal(info, RoundedSize(shrinkSize)) == None <==> AcceptedSize(info, shrinkSize)
  {
  }

  lemma KibIsExact(bytes: int)
    requires bytes % MIB == 0
    ensures bytes / 1024 * 1024 == bytes
  {
    var k := bytes / MIB;
    assert bytes == 1024 * (1024 * k);
  }

  /** A partition that can hold a size, with nothing in the way of the tools. */
  predicate Holds(w: World, n: nat, bytes: int) {
    && w.mounts == [] && w.mapper == None && Has(w.disk.partitions, n)
    && var p := Get(w.disk.partitions, n); !p.mounted && p.minimum <= bytes <= p.Size()
  }

  /** The resizing tools on a partition that can hold the size. */
  lemma NtfsCommands(w: World, n: nat, bytes: int)
    requires Holds(w, n, bytes) && Get(w.disk.partitions, n).fs == Ntfs
    ensures var t, c := NtfsTest(n, bytes), NtfsResize(n, bytes);
            && Possible(w, t) && Careful(w, t) && Effect(w, t) == w
            && Possible(w, c) && Careful(w, c) && Effect(w, c) == FsResized(w, n, bytes)
  {
    assert !Busy(w, n);
  }

  lemma Ext4Commands(w: World, n: nat, kib: int)
    requires Holds(w, n, kib * 1024) && Get(w.disk.partitions, n).fs == Ext4
    ensures var t, c := Fsck(n), Resize2fs(n, kib);
            && Possible(w, t) && Careful(w, t) && Effect(w, t) == w
            && Possible(w, c) && Careful(w, c) && Effect(w, c) == FsResized(w, n, kib * 1024)
  {
    assert !Busy(w, n);
  }

  /** sfdisk after the filesystem's shrink: the partition ends with its filesystem. */
  lemma SfdiskAfterResize(w: World, n: nat, bytes: int)
    requires WorldOk(w) && Has(w.disk.partitions, n)
    requires bytes % MIB == 0 && 0 < bytes <= Get(w.disk.partitions, n).Size()
    ensures var v := FsResized(w, n, bytes);
            var c := Sfdisk(n, bytes / w.disk.sector);
            && Possible(v, c) && Careful(v, c) && Effect(v, c) == TableShrunk(w, n, bytes)
            && bytes / w.disk.sector * w.disk.sector == bytes
  {
    var p := Get(w.disk.partitions, n);
    var v := FsResized(w, n, bytes);
    MibIsSectors(w.disk.sector, bytes);
    PutFacts(w.disk.partitions, p.(fsBytes := bytes));
    var i := IndexOf(w.disk.partitions, n);
    assert IndexOf(v.disk.partitions, n) == i;
    assert v.disk.partitions[i] == p.(fsBytes := bytes);
    if bytes / w.disk.sector <= 0 {
      NonPositive(bytes / w.disk.sector, w.disk.sector);
    }
  }

  lemma NonPositive(a: int, b: int)
    requires a <= 0 && 0 < b
    ensures a * b <= 0
  {
  }

  // -- new partitions in a free region --------------------------------------------------------

  function NewFor(w: World, start: int, end: int): Partition {
    Partition(FirstUnused(Numbers(w.disk.partitions), 1), start, end, Unknown, 0, 0, false)
  }

  function WithPartition(w: World, start: int, end: int): World {
    w.(disk := w.disk.(partitions := Insert(w.disk.partitions, NewFor(w, start, end))))
  }

  lemma WithFacts(w: World, start: int, end: int)
    requires DistinctNumbers(w.disk.partitions)
    ensures var p, v := NewFor(w, start, end), WithPartition(w, start, end);
            && DistinctNumbers(v.disk.partitions)
            && p.number !in Numbers(w.disk.partitions)
            && (forall x :: x in v.disk.partitions <==> x == p || x in w.disk.partitions)
            && Numbers(v.disk.partitions) == Numbers(w.disk.partitions) + {p.number}
            && Has(v.disk.partitions, p.number) && Get(v.disk.partitions, p.number) == p
  {
    var p, v := NewFor(w, start, end), WithPartition(w, start, end);
    InsertFacts(w.disk.partitions, p);
    forall n ensures n in Numbers(v.disk.partitions) <==> n in Numbers(w.disk.partitions) + {p.number} {
      if n in Numbers(w.disk.partitions) {
        var x :| x in w.disk.partitions && x.number == n;
        assert x in v.disk.partitions;
      }
      assert p in v.disk.partitions;
    }
  }

  /** The region is the one the installer chooses: the first largest in the layout of the disk. */
  ghost predicate IsLargest(d: Disk, region: FreeRegion) {
    LargestFree(ReadLayout(d).free) == Some(region)
  }

  /** The region chosen is of whole MiB, free, and large enough for both partitions. */
  ghost predicate Carvable(w: World, region: FreeRegion) {
    && WorldOk(w) && w.disk.table == Some(Gpt)
    && IsLargest(w.disk, region)
    && DiskFree(w.disk, region.start, region.Size())
    && region.Size() >= ROOM_NEEDED
  }

  function Middle(region: FreeRegion): int {
    region.start + ESP_BYTES
  }

  function WithEsp(w: World, region: FreeRegion): World {
    WithPartition(w, region.start, Middle(region) - 1)
  }

  function Carved(w: World, region: FreeRegion): World {
    WithPartition(WithEsp(w, region), Middle(region), region.end - 1)
  }

  function NewEsp(w: World, region: FreeRegion): Partition {
    NewFor(w, region.start, Middle(region) - 1)
  }

  function NewRoot(w: World, region: FreeRegion): Partition {
    NewFor(WithEsp(w, region), Middle(region), region.end - 1)
  }

  /** Both partitions made, and the first flagged as an ESP. */
  function Adopted(w: World, region: FreeRegion): World {
    Flagged(Carved(w, region), NewEsp(w, region).number, Esp)
  }

  lemma ExactSectors(d: Disk, start: int, end: int)
    requires DiskOk(d) && start % MIB == 0 && end % MIB == 0
    ensures PartitionStart(d, start / d.sector) == start
    ensures PartitionEnd(d, end / d.sector - 1) == end - 1
  {
    MibIsSectors(d.sector, start);
    MibIsSectors(d.sector, end);
  }

  lemma RegionAligned(w: World, region: FreeRegion)
    requires Carvable(w, region)
    ensures region.start % MIB == 0 && Middle(region) % MIB == 0 && region.end % MIB == 0
    ensures w.disk.lo <= region.start && region.end - 1 <= w.disk.hi
  {
    assert FreeInterval(w.disk.lo, w.disk.partitions, w.disk.hi, region.start, region.end);
    MibAfterMib(region.start);
  }

  lemma MibAfterMib(start: int)
    requires start % MIB == 0
    ensures (start + ESP_BYTES) % MIB == 0
  {
  }

  lemma EspFits(w: World, region: FreeRegion)
    requires Carvable(w, region)
    ensures FitsTable(w.disk, region.start, Middle(region) - 1)
  {
    forall p | p in w.disk.partitions ensures Apart(region.start, Middle(region) - 1, p.start, p.end) {
      assert Apart(region.start, region.end - 1, p.start, p.end);
    }
  }

  lemma RootFits(w: World, region: FreeRegion)
    requires Carvable(w, region)
    ensures FitsTable(WithEsp(w, region).disk, Middle(region), region.end - 1)
  {
    WithFacts(w, region.start, Middle(region) - 1);
    forall p | p in WithEsp(w, region).disk.partitions
      ensures Apart(Middle(region), region.end - 1, p.start, p.end)
    {
      if p in w.disk.partitions {
        assert Apart(region.start, region.end - 1, p.start, p.end);
      }
    }
  }

  lemma InsideRegion(region: FreeRegion, start: int, end: int)
    requires region.start <= start && end < region.end
    ensures Inside(start, end, [Extent(region.start, region.end - 1)])
  {
    assert Extent(region.start, region.end - 1) in [Extent(region.start, region.end - 1)];
  }

  lemma CarvedIs(w: World, region: FreeRegion, before: World, start: int, end: int)
    requires before == WithEsp(w, region) && start == Middle(region) && end == region.end - 1
    ensures Carved(w, region) == WithPartition(before, start, end)
  {
  }

  lemma RootBounds(w: World, region: FreeRegion)
    requires Carvable(w, region)
    ensures var d, sector := WithEsp(w, region).disk, w.disk.sector;
            && d.table == Some(Gpt)
            && PartitionStart(d, Middle(region) / sector) == Middle(region)
            && PartitionEnd(d, region.end / sector - 1) == region.end - 1
  {
    RegionAligned(w, region);
    ExactSectors(w.disk, Middle(region), region.end);
  }

  lemma RegionIsClear(w: World, region: FreeRegion)
    requires Carvable(w, region)
    ensures forall p <- w.disk.partitions :: Clear(p.start, p.end, [Extent(region.start, region.end - 1)])
  {
    forall p | p in w.disk.partitions ensures Clear(p.start, p.end, [Extent(region.start, region.end - 1)]) {
      assert Apart(region.start, region.end - 1, p.start, p.end);
    }
  }

  /** Partitions `root` and `esp` are new, unmounted, and tile a region that was free: a 1 GiB ESP
      followed by a root of at least 16 GiB; everything else is as it was. */
  ghost predicate FreshPair(base: World, region: FreeRegion, w: World, root: nat, esp: nat) {
    && root !in Numbers(base.disk.partitions) && esp !in Numbers(base.disk.partitions) && root != esp
    && Has(w.disk.partitions, root) && Has(w.disk.partitions, esp)
    && var r, e := Get(w.disk.partitions, root), Get(w.disk.partitions, esp);
       && !r.mounted && !e.mounted
       && e.start == region.start && e.Size() == ESP_BYTES
       && r.start == e.end + 1 && r.end == region.end - 1 && r.Size() >= MIN_ROOT_BYTES
       && (forall p :: p in w.disk.partitions <==> p in base.disk.partitions || p == r || p == e)
  }

  lemma CarvedLookups(w: World, region: FreeRegion)
    requires Carvable(w, region)
    ensures var parts, e, r := Carved(w, region).disk.partitions, NewEsp(w, region), NewRoot(w, region);
            && e.number !in Numbers(w.disk.partitions) && r.number !in Numbers(w.disk.partitions)
            && e.number != r.number
            && (forall p :: p in parts <==> p in w.disk.partitions || p == r || p == e)
            && Has(parts, r.number) && Get(parts, r.number) == r
            && Has(parts, e.number) && Get(parts, e.number) == e
  {
    WithFacts(w, region.start, Middle(region) - 1);
    WithFacts(WithEsp(w, region), Middle(region), region.end - 1);
    GetUnique(Carved(w, region).disk.partitions, NewEsp(w, region));
  }

  lemma CarvedPair(w: World, region: FreeRegion)
    requires Carvable(w, region)
    ensures FreshPair(w, region, Carved(w, region), NewRoot(w, region).number, NewEsp(w, region).number)
    ensures FreshPair(w, region, Adopted(w, region), NewRoot(w, region).number, NewEsp(w, region).number)
  {
    CarvedLookups(w, region);
  }

  lemma StartsAreUnique(w: World, region: FreeRegion, p: Partition)
    requires Carvable(w, region) && p in Carved(w, region).disk.partitions
    ensures p.start == region.start ==> p == NewEsp(w, region)
    ensures p.start == Middle(region) ==> p == NewRoot(w, region)
  {
    CarvedLookups(w, region);
    if p in w.disk.partitions {
      assert Apart(region.start, region.end - 1, p.start, p.end);
      assert PartOk(w.disk, p);
    }
  }

  lemma FoundIn(parts: seq<Partition>, listed: seq<Partition>, wanted: Partition)
    requires listed == parts || listed == Undetailed(parts)
    requires wanted in parts && forall p <- parts :: p.start == wanted.start ==> p == wanted
    ensures FindStart(listed, wanted.start).Some?
    ensures FindStart(listed, wanted.start).value.number == wanted.number
  {
    var i :| 0 <= i < |parts| && parts[i] == wanted;
    assert listed[i].start == wanted.start && listed[i] in listed;
    var found := FindStart(listed, wanted.start).value;
    var k :| 0 <= k < |listed| && listed[k] == found;
    assert parts[k] in parts;
  }

  /** Looking the new partitions up by start offset finds them and nothing older. */
  lemma FoundByStart(w: World, region: FreeRegion, listed: seq<Partition>)
    requires Carvable(w, region)
    requires listed == Carved(w, region).disk.partitions || listed == Undetailed(Carved(w, region).disk.partitions)
    ensures var esp, root := FindStart(listed, region.start), FindStart(listed, Middle(region));
            && esp.Some? && esp.value.number == NewEsp(w, region).number
            && root.Some? && root.value.number == NewRoot(w, region).number
    ensures Has(Carved(w, region).disk.partitions, NewEsp(w, region).number)
  {
    CarvedLookups(w, region);
    var parts := Carved(w, region).disk.partitions;
    forall p | p in parts
      ensures (p.start == region.start ==> p == NewEsp(w, region))
              && (p.start == Middle(region) ==> p == NewRoot(w, region))
    {
      StartsAreUnique(w, region, p);
    }
    FoundIn(parts, listed, NewEsp(w, region));
    FoundIn(parts, listed, NewRoot(w, region));
  }

  /** A base world and the byte ranges that commands may write to from there on. */
  datatype Frame = Frame(base: World, scope: seq<Extent>)

  // -- mounts --------------------------------------------------------------------------------

  /** The mounts of the first `k` subvolumes. */
  ghost function SubvolumeMounts(device: Device, k: nat): seq<Mount>
    requires k <= |SUBVOLUMES|
  {
    seq(k, i requires 0 <= i < k => Mount(device, SUBVOLUMES[i].1, Btrfs, Some(SUBVOLUMES[i].0)))
  }

  ghost function SubvolumeNames(k: nat): set<string>
    requires k <= |SUBVOLUMES|
  {
    set i | 0 <= i < k :: SUBVOLUMES[i].0
  }

  ghost function RootMounts(fs: FsType, device: Device, subvolumes: bool): seq<Mount> {
    if fs == Btrfs && subvolumes then SubvolumeMounts(device, |SUBVOLUMES|) else [Mount(device, [], fs, None)]
  }

  /** Which subvolume stands where, written out. */
  lemma RootMountsAre(fs: FsType, device: Device, subvolumes: bool)
    ensures RootMounts(fs, device, subvolumes) ==
            if fs == Btrfs && subvolumes then
              [Mount(device, [], Btrfs, Some("@")),
               Mount(device, ["home"], Btrfs, Some("@home")),
               Mount(device, ["var", "log"], Btrfs, Some("@log")),
               Mount(device, ["var", "cache", "pacman", "pkg"], Btrfs, Some("@pkg")),
               Mount(device, [".snapshots"], Btrfs, Some("@snapshots"))]
            else [Mount(device, [], fs, None)]
  {
    var all := SubvolumeMounts(device, |SUBVOLUMES|);
    assert |all| == 5 && forall i | 0 <= i < 5 ::
      all[i] == Mount(device, SUBVOLUMES[i].1, Btrfs, Some(SUBVOLUMES[i].0));
  }

  ghost function BootMount(n: nat, esp: bool, ok: bool): seq<Mount> {
    if ok then [Mount(Part(n), BOOT, if esp then Vfat else Ext4, None)] else []
  }

  ghost function Touched(device: Device): set<nat> {
    if device.Part? then {device.number} else {}
  }

  function RootDevice(c: Config, root: nat): Device {
    if c.encrypt then Mapper else Part(root)
  }

  function BootSet(boot: Option<nat>): set<nat> {
    if boot.Some? then {boot.value} else {}
  }

  /** What a layout hands over: partitions that exist and, where they will be formatted, lie in
      the scope; a boot partition that is kept is FAT. */
  ghost predicate Laid(w: World, c: Config, root: nat, boot: Option<nat>, formatBoot: bool, scope: seq<Extent>) {
    && w.mounts == [] && w.mapper == None
    && Has(w.disk.partitions, root) && PartInside(w, root, scope)
    && (boot.Some? ==>
          && boot.value != root && Has(w.disk.partitions, boot.value)
          && (formatBoot || c.firmware == Bios ==> PartInside(w, boot.value, scope))
          && (c.firmware == Uefi && !formatBoot ==> FsOf(w, Part(boot.value)) == Some(Vfat)))
  }

  ghost predicate Smooth(w: World, root: nat, boot: Option<nat>) {
    !Busy(w, root) && (boot.Some? ==> !Busy(w, boot.value))
  }

  /** The root filesystem is on its device and mounted, behind the mapper when encrypted. */
  ghost predicate RootMounted(w: World, c: Config, root: nat) {
    && w.mapper == (if c.encrypt then Some(root) else None)
    && FsOf(w, RootDevice(c, root)) == Some(c.filesystem)
    && w.mounts == RootMounts(c.filesystem, RootDevice(c, root), c.subvolumes)
  }

  ghost predicate Mounted(w: World, c: Config, root: nat, boot: Option<nat>) {
    && w.mapper == (if c.encrypt then Some(root) else None)
    && FsOf(w, RootDevice(c, root)) == Some(c.filesystem)
    && w.mounts == RootMounts(c.filesystem, RootDevice(c, root), c.subvolumes)
                   + if boot.Some? then BootMount(boot.value, c.firmware == Uefi, true) else []
  }

  /** What is mounted in the end, written out. */
  lemma MountedMeans(w: World, c: Config, root: nat, boot: Option<nat>)
    requires Mounted(w, c, root, boot)
    ensures w.mapper == if c.encrypt then Some(root) else None
    ensures var device := if c.encrypt then Mapper else Part(root);
            && FsOf(w, device) == Some(c.filesystem)
            && w.mounts ==
                 (if c.filesystem == Btrfs && c.subvolumes then
                    [Mount(device, [], Btrfs, Some("@")),
                     Mount(device, ["home"], Btrfs, Some("@home")),
                     Mount(device, ["var", "log"], Btrfs, Some("@log")),
                     Mount(device, ["var", "cache", "pacman", "pkg"], Btrfs, Some("@pkg")),
                     Mount(device, [".snapshots"], Btrfs, Some("@snapshots"))]
                  else [Mount(device, [], c.filesystem, None)])
                 + if boot.None? then []
                   else [Mount(Part(boot.value), ["boot"], if c.firmware == Uefi then Vfat else Ext4, None)]
  {
    RootMountsAre(c.filesystem, if c.encrypt then Mapper else Part(root), c.subvolumes);
  }

  lemma NextName(i: nat)
    requires i < |SUBVOLUMES|
    ensures SUBVOLUMES[i].0 !in SubvolumeNames(i)
    ensures SubvolumeNames(i + 1) == SubvolumeNames(i) + {SUBVOLUMES[i].0}
  {
    SubvolumeNamesDistinct(i);
  }

  lemma NextSubvolume(device: Device, i: nat)
    requires i < |SUBVOLUMES|
    ensures forall m <- SubvolumeMounts(device, i) :: !(SUBVOLUMES[i].1 <= m.dir)
    ensures SUBVOLUMES[i].1 == [] <==> SubvolumeMounts(device, i) == []
    ensures SubvolumeMounts(device, i + 1)
         == SubvolumeMounts(device, i) + [Mount(device, SUBVOLUMES[i].1, Btrfs, Some(SUBVOLUMES[i].0))]
  {
    SubvolumeDirsNest(i);
  }

  lemma OnlyMore(u: World, v: World, a: set<nat>, b: set<nat>)
    requires Only(u, v, a) && a <= b
    ensures Only(u, v, b)
  {
    forall n ensures
      && Has(v.disk.partitions, n) == Has(u.disk.partitions, n)
      && (Has(u.disk.partitions, n) ==>
            var p, q := Get(u.disk.partitions, n), Get(v.disk.partitions, n);
            if n in b then q.start == p.start && q.end == p.end && q.mounted == p.mounted else q == p)
    {
    }
  }

  lemma OpenedInside(u: World, v: World, n: nat, scope: seq<Extent>)
    requires Only(u, v, {n}) && Has(u.disk.partitions, n) && PartInside(u, n, scope)
    ensures Has(v.disk.partitions, n) && PartInside(v, n, scope)
    ensures v.mounts == [] && u.mounts == [] && v.mapper == None && u.mapper == None ==> Busy(v, n) == Busy(u, n)
  {
  }

  lemma TouchedOnly(u: World, v: World, w: World, root: nat, device: Device)
    requires Only(u, v, {root}) && Only(v, w, Touched(device))
    requires device in {Part(root), Mapper}
    ensures Only(u, w, {root})
  {
    OnlyTrans(u, v, w, {root}, Touched(device));
    OnlyMore(u, w, {root} + Touched(device), {root});
  }

  lemma RootMountsAvoidBoot(fs: FsType, device: Device, subvolumes: bool)
    ensures var mounts := RootMounts(fs, device, subvolumes);
            && mounts != []
            && (forall m <- mounts :: !(BOOT <= m.dir) && m.device == device)
  {
    var mounts := RootMounts(fs, device, subvolumes);
    forall m | m in mounts ensures !(BOOT <= m.dir) && m.device == device {
      var i :| 0 <= i < |mounts| && mounts[i] == m;
      if fs == Btrfs && subvolumes {
        SubvolumeDirsNest(i);
      } else {
        NotPrefix(BOOT, m.dir);
      }
    }
  }

  /** Preparing the root leaves the boot partition as it was. */
  lemma BootStays(u: World, v: World, c: Config, root: nat, boot: nat, formatBoot: bool, scope: seq<Extent>)
    requires Laid(u, c, root, Some(boot), formatBoot, scope)
    requires Only(u, v, {root}) && RootMounted(v, c, root)
    ensures Has(v.disk.partitions, boot) && Get(v.disk.partitions, boot) == Get(u.disk.partitions, boot)
    ensures Busy(v, boot) == Busy(u, boot)
    ensures v.mounts != [] && forall m <- v.mounts :: !(BOOT <= m.dir)
    ensures formatBoot || c.firmware == Bios ==> PartInside(v, boot, scope)
    ensures c.firmware == Uefi && !formatBoot ==> FsOf(v, Part(boot)) == Some(Vfat)
  {
    RootMountsAvoidBoot(c.filesystem, RootDevice(c, root), c.subvolumes);
  }

  lemma BootOnly(u: World, v: World, w: World, root: nat, boot: nat, formatted: bool)
    requires Only(u, v, {root}) && Only(v, w, if formatted then {boot} else {})
    ensures Only(u, w, {root} + {boot})
  {
    OnlyTrans(u, v, w, {root}, if formatted then {boot} else {});
    OnlyMore(u, w, {root} + (if formatted then {boot} else {}), {root} + {boot});
  }

  /** Formatting the boot partition leaves the root's filesystem where it is. */
  lemma RootDeviceStays(c: Config, root: nat, boot: nat, u: World, v: World)
    requires boot != root && RootMounted(u, c, root)
    requires v.mapper == u.mapper && v.mapperFs == u.mapperFs
    requires Only(u, v, {boot}) || Only(u, v, {})
    ensures FsOf(v, RootDevice(c, root)) == Some(c.filesystem)
  {
  }

  function SeenStart(d: Disk, parted: bool, lsblk: bool, start: int): Option<Partition> {
    FindStart(SeenLayout(d, parted, lsblk).partitions, start)
  }

  /** Whatever could be read of the disk, a partition found to start there is number `n`; it is
      found whenever parted's listing could be read. */
  ghost predicate FoundAs(d: Disk, start: int, n: nat) {
    forall parted, lsblk ::
      var found := SeenStart(d, parted, lsblk, start);
      if parted then found.Some? && found.value.number == n else found == None
  }

  lemma PairFound(w: World, region: FreeRegion, d: Disk)
    requires Carvable(w, region) && d == Carved(w, region).disk
    ensures FoundAs(d, region.start, NewEsp(w, region).number)
    ensures FoundAs(d, Middle(region), NewRoot(w, region).number)
    ensures Has(d.partitions, NewEsp(w, region).number)
  {
    forall parted, lsblk
      ensures var esp, root := SeenStart(d, parted, lsblk, region.start), SeenStart(d, parted, lsblk, Middle(region));
              && (if parted then esp.Some? && esp.value.number == NewEsp(w, region).number else esp == None)
              && (if parted then root.Some? && root.value.number == NewRoot(w, region).number else root == None)
    {
      SeenFacts(d, parted, lsblk);
      if parted {
        FoundByStart(w, region, SeenLayout(d, parted, lsblk).partitions);
      }
    }
    CarvedLookups(w, region);
  }

  // -- erasing the disk -----------------------------------------------------------------------

  ghost predicate WholeDisk(f: Frame) {
    f.scope == [Extent(0, f.base.disk.size - 1)]
  }

  ghost predicate Labelled(d: Disk, size: int) {
    && d.table == Some(Gpt) && d.size == size
    && d.lo == 2 * d.sector + ENTRY_BYTES && d.hi == size - d.sector - ENTRY_BYTES - 1
    && 0 < d.sector <= ENTRY_BYTES
  }

  /** "100%": the last whole MiB a partition may use once the disk has a new label. */
  function LastByte(d: Disk): int {
    AlignDown(d.size - d.sector - ENTRY_BYTES) - 1
  }

  lemma LabelBounds(d: Disk)
    requires Labelled(d, d.size) && d.size >= MIN_ROOT_BYTES
    ensures d.lo <= MIB
    ensures 3 * MIB + ESP_BYTES + MIB <= LastByte(d) + 1 <= d.hi + 1
    ensures (LastByte(d) + 1) % MIB == 0
  {
    AlignFacts(d.hi + 1);
  }

  /** The partitions made so far are numbered 1 to `k` and end before byte `at`. */
  ghost predicate Built(w: World, k: nat, at: int) {
    && w.disk.table == Some(Gpt)
    && (forall n :: n in Numbers(w.disk.partitions) <==> 1 <= n <= k)
    && (forall p <- w.disk.partitions :: p.end < at && !p.mounted)
  }

  ghost predicate Appended(w: World, v: World, k: nat, start: int, end: int) {
    && Built(v, k + 1, end + 1)
    && Has(v.disk.partitions, k + 1)
    && Get(v.disk.partitions, k + 1).start == start && Get(v.disk.partitions, k + 1).end == end
    && v.disk.size == w.disk.size
    && (forall p <- w.disk.partitions :: Has(v.disk.partitions, p.number) && Get(v.disk.partitions, p.number) == p)
  }

  lemma {:induction false} FirstUnusedIs(used: set<nat>, from: nat, k: nat)
    requires forall n :: n in used <==> 1 <= n <= k
    requires 1 <= from <= k + 1
    ensures FirstUnused(used, from) == k + 1
    decreases k + 1 - from
  {
    if from <= k {
      FirstUnusedIs(used, from + 1, k);
    }
  }

  lemma AppendKeeps(w: World, start: int, end: int, p: Partition)
    requires WorldOk(w) && p in w.disk.partitions
    ensures var v := WithPartition(w, start, end);
            Has(v.disk.partitions, p.number) && Get(v.disk.partitions, p.number) == p
  {
    WithFacts(w, start, end);
    GetUnique(WithPartition(w, start, end).disk.partitions, p);
  }

  lemma AppendBuilds(w: World, k: nat, start: int, end: int)
    requires WorldOk(w) && Built(w, k, start) && w.disk.lo <= start <= end <= w.disk.hi
    ensures NewFor(w, start, end).number == k + 1
    ensures Built(WithPartition(w, start, end), k + 1, end + 1)
  {
    FirstUnusedIs(Numbers(w.disk.partitions), 1, k);
    WithFacts(w, start, end);
  }

  lemma AppendFacts(w: World, k: nat, start: int, end: int)
    requires WorldOk(w) && Built(w, k, start) && w.disk.lo <= start <= end <= w.disk.hi
    ensures FitsTable(w.disk, start, end)
    ensures Appended(w, WithPartition(w, start, end), k, start, end)
  {
    var v := WithPartition(w, start, end);
    assert forall p <- w.disk.partitions ::
             Has(v.disk.partitions, p.number) && Get(v.disk.partitions, p.number) == p by {
      forall p | p in w.disk.partitions
        ensures Has(v.disk.partitions, p.number) && Get(v.disk.partitions, p.number) == p
      {
        AppendKeeps(w, start, end, p);
      }
    }
    AppendBuilds(w, k, start, end);
    assert Has(v.disk.partitions, k + 1) && Get(v.disk.partitions, k + 1) == NewFor(w, start, end) by {
      WithFacts(w, start, end);
    }
  }

  lemma InsideWhole(d: Disk, f: Frame, start: int, end: int)
    requires WholeDisk(f) && DiskOk(d) && d.size == f.base.disk.size && d.lo <= start && end <= d.hi
    ensures Inside(start, end, f.scope)
  {
    assert f.scope[0] in f.scope;
  }

  /** The whole table: partition `n` covers the bytes from the `n`th bound up to the next, none is
      mounted, and there is no other. */
  ghost predicate Table(w: World, bounds: seq<int>) {
    && bounds != []
    && (forall n :: n in Numbers(w.disk.partitions) <==> 1 <= n < |bounds|)
    && (forall n | 1 <= n < |bounds| :: Spans(w, n, bounds[n - 1], bounds[n] - 1))
  }

  ghost predicate Spans(w: World, n: nat, start: int, end: int) {
    && Has(w.disk.partitions, n)
    && var p := Get(w.disk.partitions, n); p.start == start && p.end == end && !p.mounted
  }

  lemma EmptyTable(w: World, at: int)
    requires Built(w, 0, 0)
    ensures Table(w, [at])
  {
  }

  lemma TableGrows(w: World, v: World, bounds: seq<int>, end: int)
    requires Table(w, bounds) && Appended(w, v, |bounds| - 1, bounds[|bounds| - 1], end)
    ensures Table(v, bounds + [end + 1])
  {
    var more := bounds + [end + 1];
    forall n | 1 <= n < |more| ensures Spans(v, n, more[n - 1], more[n] - 1) {
      if n < |bounds| {
        assert Spans(w, n, bounds[n - 1], bounds[n] - 1);
      } else {
        var p := Get(v.disk.partitions, n);
        assert n == |bounds| && p in v.disk.partitions;
      }
    }
  }

  lemma OnlyKeepsTable(w: World, v: World, ns: set<nat>, bounds: seq<int>)
    requires Table(w, bounds) && Only(w, v, ns)
    ensures Table(v, bounds)
  {
    forall n ensures n in Numbers(v.disk.partitions) <==> Has(v.disk.partitions, n) {
      HasIsNumber(v.disk.partitions, n);
    }
    forall n | 1 <= n < |bounds| ensures Spans(v, n, bounds[n - 1], bounds[n] - 1) {
      assert Spans(w, n, bounds[n - 1], bounds[n] - 1);
    }
    forall n ensures n in Numbers(w.disk.partitions) <==> Has(w.disk.partitions, n) {
      HasIsNumber(w.disk.partitions, n);
    }
  }

  lemma FlagKeepsTable(w: World, n: nat, flag: Flag, bounds: seq<int>)
    requires Table(w, bounds)
    ensures Table(Flagged(w, n, flag), bounds)
  {
    OnlyKeepsTable(w, Flagged(w, n, flag), {}, bounds);
  }

  lemma HasIsNumber(parts: seq<Partition>, n: nat)
    ensures n in Numbers(parts) <==> Has(parts, n)
  {
    if Has(parts, n) {
      assert Get(parts, n).number in Numbers(parts);
    }
  }

  /** Where the partitions of an erased disk begin and end: an ESP and the root, or the partition for
      GRUB's core image, a boot partition where GRUB needs one, and the root up to the last whole MiB. */
  function EraseBounds(c: Config, d: Disk): seq<int> {
    if c.firmware == Uefi then [MIB, MIB + ESP_BYTES, LastByte(d) + 1]
    else if NeedsSeparateBoot(c) then [MIB, 3 * MIB, 3 * MIB + ESP_BYTES, LastByte(d) + 1]
    else [MIB, 3 * MIB, LastByte(d) + 1]
  }

  /** The disk `d`, freshly labelled and partitioned: exactly the partitions the firmware needs. */
  ghost predicate ErasedFor(w: World, d: Disk, c: Config, root: nat, boot: Option<nat>) {
    && Table(w, EraseBounds(c, d))
    && (1, if c.firmware == Uefi then Esp else BiosGrub) in w.flags
    && root == |EraseBounds(c, d)| - 1
    && boot == if c.firmware == Uefi then Some(1) else if NeedsSeparateBoot(c) then Some(2) else None
  }

  lemma ErasedSpans(w: World, d: Disk, c: Config, root: nat, boot: Option<nat>)
    requires ErasedFor(w, d, c, root, boot)
    ensures Has(w.disk.partitions, root) && !Get(w.disk.partitions, root).mounted && boot != Some(root)
    ensures boot.Some? ==> Has(w.disk.partitions, boot.value) && !Get(w.disk.partitions, boot.value).mounted
    ensures boot.Some? <==> c.firmware == Uefi || NeedsSeparateBoot(c)
  {
    var bounds := EraseBounds(c, d);
    assert Spans(w, root, bounds[root - 1], bounds[root] - 1);
    assert boot.Some? ==> Spans(w, boot.value, bounds[boot.value - 1], bounds[boot.value] - 1);
  }

  /** The table of an erased disk, written out: from the first MiB an ESP of 1 GiB and the root, or a
      BIOS boot partition of 2 MiB, with encryption or f2fs a boot partition of 1 GiB, and the root,
      which takes the rest. */
  lemma ErasedIs(w: World, d: Disk, c: Config, root: nat, boot: Option<nat>)
    requires ErasedFor(w, d, c, root, boot)
    ensures forall n :: n in Numbers(w.disk.partitions) <==> 1 <= n <= root
    ensures c.firmware == Uefi ==>
              root == 2 && boot == Some(1)
              && Spans(w, 1, MIB, 1025 * MIB - 1) && Spans(w, 2, 1025 * MIB, LastByte(d))
    ensures c.firmware == Bios && (c.encrypt || c.filesystem == F2fs) ==>
              root == 3 && boot == Some(2) && Spans(w, 1, MIB, 3 * MIB - 1)
              && Spans(w, 2, 3 * MIB, 1027 * MIB - 1) && Spans(w, 3, 1027 * MIB, LastByte(d))
    ensures c.firmware == Bios && !(c.encrypt || c.filesystem == F2fs) ==>
              root == 2 && boot == None && Spans(w, 1, MIB, 3 * MIB - 1) && Spans(w, 2, 3 * MIB, LastByte(d))
    ensures (LastByte(d) + 1) % MIB == 0
    ensures LastByte(d) < d.size - d.sector - ENTRY_BYTES <= LastByte(d) + MIB
  {
    AlignFacts(d.size - d.sector - ENTRY_BYTES);
    if c.firmware == Uefi {
      TableOfTwo(w, MIB, 1025 * MIB, LastByte(d) + 1);
    } else if NeedsSeparateBoot(c) {
      TableOfThree(w, MIB, 3 * MIB, 1027 * MIB, LastByte(d) + 1);
    } else {
      TableOfTwo(w, MIB, 3 * MIB, LastByte(d) + 1);
    }
  }

  lemma TableOfTwo(w: World, a: int, b: int, end: int)
    requires Table(w, [a, b, end])
    ensures Spans(w, 1, a, b - 1) && Spans(w, 2, b, end - 1)
    ensures forall n :: n in Numbers(w.disk.partitions) <==> 1 <= n <= 2
  {
    var bounds := [a, b, end];
    assert Spans(w, 1, bounds[1 - 1], bounds[1] - 1) && Spans(w, 2, bounds[2 - 1], bounds[2] - 1);
  }

  lemma TableOfThree(w: World, a: int, b: int, c: int, end: int)
    requires Table(w, [a, b, c, end])
    ensures Spans(w, 1, a, b - 1) && Spans(w, 2, b, c - 1) && Spans(w, 3, c, end - 1)
    ensures forall n :: n in Numbers(w.disk.partitions) <==> 1 <= n <= 3
  {
    var bounds := [a, b, c, end];
    assert Spans(w, 1, bounds[1 - 1], bounds[1] - 1) && Spans(w, 2, bounds[2 - 1], bounds[2] - 1);
    assert Spans(w, 3, bounds[3 - 1], bounds[3] - 1);
  }

  // -- what survives an installation -----------------------------------------------------------

  /** Every partition of `w` is in `v` as it was, and no byte of one was overwritten since. */
  ghost predicate OldKept(w: World, v: World) {
    && (forall p <- w.disk.partitions :: p in v.disk.partitions)
    && w.written <= v.written
    && (forall p, i | p in w.disk.partitions && |w.written| <= i < |v.written| ::
          Apart(p.start, p.end, v.written[i].start, v.written[i].end))
  }

  /** `v` has two partitions that `w` had not: a 1 GiB ESP and, right behind it, a root of at least
      16 GiB. Together they are, in whole MiB, exactly the largest free region of `w`; everything
      else is as in `w`, and all are disjoint. */
  ghost predicate Tiled(w: World, v: World, root: nat, esp: nat) {
    && root !in Numbers(w.disk.partitions) && esp !in Numbers(w.disk.partitions) && root != esp
    && Has(v.disk.partitions, root) && Has(v.disk.partitions, esp)
    && var r, e := Get(v.disk.partitions, root), Get(v.disk.partitions, esp);
       && e.start % MIB == 0 && e.Size() == ESP_BYTES
       && r.start == e.end + 1 && (r.end + 1) % MIB == 0 && r.Size() >= MIN_ROOT_BYTES
       && IsLargest(w.disk, FreeRegion(e.start, r.end + 1)) && (esp, Esp) in v.flags
       && (forall p :: p in v.disk.partitions <==> p in w.disk.partitions || p == r || p == e)
       && Ordered(v.disk.partitions)
  }

  lemma FrameIsClear(f: Frame, region: FreeRegion)
    requires f.scope == [] || (Carvable(f.base, region) && f.scope == [Extent(region.start, region.end - 1)])
    ensures forall p <- f.base.disk.partitions :: Clear(p.start, p.end, f.scope)
  {
    if f.scope != [] {
      RegionIsClear(f.base, region);
    }
  }

  lemma KeptIsOldKept(f: Frame, v: World)
    requires Kept(f.base, v, f.scope) && DiskOk(f.base.disk)
    requires forall p <- f.base.disk.partitions :: Clear(p.start, p.end, f.scope)
    ensures OldKept(f.base, v)
  {
    forall p, i | p in f.base.disk.partitions && |f.base.written| <= i < |v.written|
      ensures Apart(p.start, p.end, v.written[i].start, v.written[i].end)
    {
      assert Inside(v.written[i].start, v.written[i].end, f.scope);
      var e :| e in f.scope && e.start <= v.written[i].start && v.written[i].end <= e.end;
      assert Apart(p.start, p.end, e.start, e.end);
    }
  }

  lemma PairIsLaid(f: Frame, region: FreeRegion, w: World, c: Config, root: nat, esp: nat)
    requires Carvable(f.base, region) && f.scope == [Extent(region.start, region.end - 1)]
    requires FreshPair(f.base, region, w, root, esp) && w.mounts == [] && w.mapper == None
    ensures Laid(w, c, root, Some(esp), true, f.scope)
    ensures Smooth(w, root, Some(esp))
  {
    InsideRegion(region, Get(w.disk.partitions, root).start, Get(w.disk.partitions, root).end);
    InsideRegion(region, Get(w.disk.partitions, esp).start, Get(w.disk.partitions, esp).end);
  }

  lemma PairStaysTiled(f: Frame, region: FreeRegion, w: World, v: World, root: nat, esp: nat)
    requires Carvable(f.base, region) && FreshPair(f.base, region, w, root, esp) && (esp, Esp) in w.flags
    requires WorldOk(w) && WorldOk(v) && Only(w, v, {root} + BootSet(Some(esp)))
    ensures Tiled(f.base, v, root, esp)
  {
    RegionAligned(f.base, region);
    PairMembers(f.base, region, w, v, root, esp);
  }

  lemma PairMembers(base: World, region: FreeRegion, w: World, v: World, root: nat, esp: nat)
    requires FreshPair(base, region, w, root, esp)
    requires DistinctNumbers(w.disk.partitions) && DistinctNumbers(v.disk.partitions)
    requires Only(w, v, {root} + BootSet(Some(esp)))
    ensures var r, e := Get(v.disk.partitions, root), Get(v.disk.partitions, esp);
            forall p :: p in v.disk.partitions <==> p in base.disk.partitions || p == r || p == e
  {
    var r, e := Get(v.disk.partitions, root), Get(v.disk.partitions, esp);
    forall p ensures p in v.disk.partitions <==> p in base.disk.partitions || p == r || p == e {
      if p in v.disk.partitions {
        GetUnique(v.disk.partitions, p);
        assert Has(w.disk.partitions, p.number);
      }
      if p in base.disk.partitions {
        assert p.number in Numbers(base.disk.partitions);
        assert p in w.disk.partitions;
        GetUnique(w.disk.partitions, p);
        assert Has(v.disk.partitions, p.number);
      }
    }
  }

  lemma ErasedIsLaid(w: World, c: Config, root: nat, boot: Option<nat>, f: Frame)
    requires WorldOk(w) && Validated(c) && c.layout == Erase && WholeDisk(f)
    requires ErasedFor(w, f.base.disk, c, root, boot) && w.mounts == [] && w.mapper == None
    requires w.disk.size == f.base.disk.size
    ensures Laid(w, c, root, boot, boot.Some?, f.scope)
    ensures Smooth(w, root, boot)
  {
    ErasedSpans(w, f.base.disk, c, root, boot);
    assert PartOk(w.disk, Get(w.disk.partitions, root));
    InsideWhole(w.disk, f, Get(w.disk.partitions, root).start, Get(w.disk.partitions, root).end);
    if boot.Some? {
      assert PartOk(w.disk, Get(w.disk.partitions, boot.value));
      InsideWhole(w.disk, f, Get(w.disk.partitions, boot.value).start, Get(w.disk.partitions, boot.value).end);
    }
  }

  lemma ExistingIsLaid(w: World, v: World, c: Config, f: Frame)
    requires Validated(c) && c.layout == Partitions && f == ExistingFrame(w, c)
    requires DistinctNumbers(w.disk.partitions)
    requires ExistingUsable(w.disk, c) && Only(w, v, {c.root.value}) && v.mounts == [] && v.mapper == None
    ensures Laid(v, c, c.root.value, c.boot, c.formatBoot, f.scope)
    ensures Installable(w.disk, c) ==> Smooth(v, c.root.value, c.boot)
  {
    PassesMeans(w.disk, c);
    ExistingInside(w, c);
  }

  /** What a shrink leaves: the partition keeps its number, start and filesystem, never ends before
      its filesystem, and none of the bytes it keeps is overwritten; all others are as they were. */
  ghost predicate ShrunkKept(w: World, v: World, n: nat, bytes: int) {
    && w.written <= v.written
    && (forall p <- w.disk.partitions :: p.number != n ==> p in v.disk.partitions)
    && (forall p <- w.disk.partitions :: p.number == n ==>
          p in v.disk.partitions || p.(fsBytes := bytes) in v.disk.partitions
          || p.(fsBytes := bytes, end := p.start + bytes - 1) in v.disk.partitions)
    && (forall p, i | p in w.disk.partitions && |w.written| <= i < |v.written| ::
          Apart(p.start, KeptEnd(p, n, bytes), v.written[i].start, v.written[i].end))
  }

  /** The last byte of the partition that a shrink of partition `n` to `bytes` leaves to it. */
  function KeptEnd(p: Partition, n: nat, bytes: int): int {
    if p.number == n then Min(p.end, p.start + bytes - 1) else p.end
  }

  /** A shrink that its checks accept and that leaves enough room. */
  ghost predicate ShrunkEnough(w: World, n: nat, shrinkSize: int) {
    && ShrinkChecks(w.disk, n, shrinkSize)
    && Enough(TableShrunk(w, n, RoundedSize(shrinkSize)).disk)
  }

  lemma StageKept(w: World, m: World, n: nat, bytes: int)
    requires ShrinkStage(w, m, n, bytes)
    ensures ShrunkKept(w, m, n, bytes)
  {
    if Has(w.disk.partitions, n) {
      var i := IndexOf(w.disk.partitions, n);
      assert |m.disk.partitions| == |w.disk.partitions|;
      assert forall j | 0 <= j < |w.disk.partitions| && j != i :: m.disk.partitions[j] == w.disk.partitions[j];
      assert m.disk.partitions[i] in m.disk.partitions;
      forall p | p in w.disk.partitions && p != w.disk.partitions[i] ensures p in m.disk.partitions {
        var j :| 0 <= j < |w.disk.partitions| && w.disk.partitions[j] == p;
        assert m.disk.partitions[j] == p;
      }
    }
  }

  lemma ShrunkPartitionIn(w: World, n: nat, bytes: int, p: Partition)
    requires DistinctNumbers(w.disk.partitions) && Has(w.disk.partitions, n) && p in w.disk.partitions
    ensures (if p.number == n then p.(fsBytes := bytes, end := p.start + bytes - 1) else p)
            in TableShrunk(w, n, bytes).disk.partitions
  {
    var m := TableShrunk(w, n, bytes);
    var j :| 0 <= j < |w.disk.partitions| && w.disk.partitions[j] == p;
    assert m.disk.partitions[j] in m.disk.partitions;
  }

  lemma InstalledKept(w: World, v: World, n: nat, bytes: int)
    requires DistinctNumbers(w.disk.partitions) && Has(w.disk.partitions, n)
    requires OldKept(TableShrunk(w, n, bytes), v)
    ensures ShrunkKept(w, v, n, bytes)
  {
    var m := TableShrunk(w, n, bytes);
    forall p | p in w.disk.partitions
      ensures (if p.number == n then p.(fsBytes := bytes, end := p.start + bytes - 1) else p) in v.disk.partitions
    {
      ShrunkPartitionIn(w, n, bytes, p);
    }
    forall p, i | p in w.disk.partitions && |w.written| <= i < |v.written|
      ensures Apart(p.start, KeptEnd(p, n, bytes), v.written[i].start, v.written[i].end)
    {
      ShrunkPartitionIn(w, n, bytes, p);
      var q := if p.number == n then p.(fsBytes := bytes, end := p.start + bytes - 1) else p;
      assert Apart(q.start, q.end, v.written[i].start, v.written[i].end);
    }
  }

  /** Before the installation nothing is mounted under the target and no mapper is open; a disk to
      be erased is large enough. It may be in use: that is noticed only if lsblk answers. */
  predicate Idle(w: World, c: Config) {
    && w.mounts == [] && w.mapper == None
    && (c.layout == Erase ==> w.disk.size >= MIN_ROOT_BYTES)
  }

  function AfterShrink(w: World, c: Config): World {
    if c.shrink.Some? && Has(w.disk.partitions, c.shrink.value)
    then TableShrunk(w, c.shrink.value, RoundedSize(c.shrinkSize)) else w
  }

  /** The checks that decide an installation when no command fails. */
  ghost predicate Acceptable(w: World, c: Config)
    requires Validated(c)
  {
    match c.layout
    case Erase => DiskIdle(w)
    case FreeSpace =>
      if c.shrink.Some? then ShrunkEnough(w, c.shrink.value, c.shrinkSize)
      else w.disk.table == Some(Gpt) && Enough(w.disk)
    case Partitions => Installable(w.disk, c)
  }

  /** A partition the installation may overwrite when it uses existing ones. */
  predicate Sacrificed(c: Config, number: nat) {
    c.root == Some(number) || (c.formatBoot && c.boot == Some(number))
  }

  /** No partition but the chosen ones changes, and no byte of another one is overwritten. */
  ghost predicate OthersKept(w: World, v: World, c: Config) {
    && w.written <= v.written
    && (forall p <- w.disk.partitions :: !Sacrificed(c, p.number) ==> p in v.disk.partitions)
    && (forall p, i | p in w.disk.partitions && |w.written| <= i < |v.written| ::
          !Sacrificed(c, p.number) ==> Apart(p.start, p.end, v.written[i].start, v.written[i].end))
  }

  /** What each layout promises about the data that was on the disk. */
  ghost predicate DataSafe(w: World, v: World, c: Config) {
    match c.layout
    case Erase => true
    case FreeSpace =>
      if c.shrink.Some? then ShrunkKept(w, v, c.shrink.value, RoundedSize(c.shrinkSize)) else OldKept(w, v)
    case Partitions => OthersKept(w, v, c)
  }

  lemma ExistingClear(w: World, c: Config, p: Partition)
    requires WorldOk(w) && c.root.Some? && c.boot.Some? && p in w.disk.partitions && !Sacrificed(c, p.number)
    ensures Clear(p.start, p.end, ExistingFrame(w, c).scope)
  {
    forall e | e in ExistingFrame(w, c).scope ensures Apart(p.start, p.end, e.start, e.end) {
      var n := if e in ExtentOf(w.disk.partitions, c.root.value) then c.root.value else c.boot.value;
      PartitionsApart(w.disk, p, Get(w.disk.partitions, n));
    }
  }

  lemma PartitionsApart(d: Disk, p: Partition, q: Partition)
    requires DiskOk(d) && p in d.partitions && q in d.partitions && p.number != q.number
    ensures Apart(p.start, p.end, q.start, q.end)
  {
    var i :| 0 <= i < |d.partitions| && d.partitions[i] == p;
    var j :| 0 <= j < |d.partitions| && d.partitions[j] == q;
    assert PartOk(d, p) && PartOk(d, q);
  }

  lemma ExistingBytesKept(w: World, v: World, c: Config)
    requires WorldOk(w) && Validated(c) && c.layout == Partitions
    requires Kept(w, v, ExistingFrame(w, c).scope)
    ensures OthersKept(w, v, c)
  {
    forall p | p in w.disk.partitions && !Sacrificed(c, p.number) ensures p in v.disk.partitions {
      ExistingClear(w, c, p);
    }
    forall p, i | p in w.disk.partitions && |w.written| <= i < |v.written| && !Sacrificed(c, p.number)
      ensures Apart(p.start, p.end, v.written[i].start, v.written[i].end)
    {
      ExistingClear(w, c, p);
      assert Inside(v.written[i].start, v.written[i].end, ExistingFrame(w, c).scope);
      var e :| e in ExistingFrame(w, c).scope && e.start <= v.written[i].start && v.written[i].end <= e.end;
      assert Apart(p.start, p.end, e.start, e.end);
    }
  }

  lemma MountedSomething(w: World, c: Config, root: nat, boot: Option<nat>)
    requires Mounted(w, c, root, boot)
    ensures w.mounts != []
  {
    RootMountsAvoidBoot(c.filesystem, RootDevice(c, root), c.subvolumes);
  }

  lemma SafeAfterTeardown(w: World, v: World, u: World, c: Config)
    requires DataSafe(w, v, c) && u.disk == v.disk && u.written == v.written
    ensures DataSafe(w, u, c)
  {
  }

  /** Shrink then install, end to end: once the shrink is accepted, the installation finds room
      exactly when it had room before or the whole MiB behind the shrunk partition suffice, and they
      do when the partition starts on a MiB boundary or frees a MiB more than required. */
  lemma ShrinkThenInstall(w: World, n: nat, shrinkSize: int)
    requires WorldOk(w) && ShrinkChecks(w.disk, n, shrinkSize)
    ensures var i, bytes := IndexOf(w.disk.partitions, n), RoundedSize(shrinkSize);
            var p := w.disk.partitions[i];
            && (ShrunkEnough(w, n, shrinkSize) <==> Enough(w.disk) || FreedMib(w.disk, i, bytes) >= ROOM_NEEDED)
            && (p.start % MIB == 0 || p.Size() - bytes >= ROOM_NEEDED + MIB ==> ShrunkEnough(w, n, shrinkSize))
  {
    var i := IndexOf(w.disk.partitions, n);
    AcceptedFacts(w.disk.partitions[i], shrinkSize);
    EnoughAfterShrink(w.disk, i, RoundedSize(shrinkSize));
    var p := w.disk.partitions[i];
    if p.start % MIB == 0 || p.Size() - RoundedSize(shrinkSize) >= ROOM_NEEDED + MIB {
      AlignedOrSlackIsEnough(w.disk, i, shrinkSize);
    }
  }

  // -- existing partitions -----------------------------------------------------------------

  function ExtentOf(parts: seq<Partition>, n: nat): seq<Extent> {
    if Has(parts, n) then [Extent(Get(parts, n).start, Get(parts, n).end)] else []
  }

  /** The chosen root, and the boot partition when it is to be formatted. */
  function ExistingFrame(w: World, c: Config): Frame
    requires c.root.Some? && c.boot.Some?
  {
    Frame(w, ExtentOf(w.disk.partitions, c.root.value)
             + if c.formatBoot then ExtentOf(w.disk.partitions, c.boot.value) else [])
  }

  /** What the checks guarantee even when details could not be read. */
  ghost predicate ExistingUsable(d: Disk, c: Config)
    requires c.root.Some? && c.boot.Some?
  {
    && Has(d.partitions, c.root.value) && Has(d.partitions, c.boot.value)
    && Get(d.partitions, c.root.value).Size() >= MIN_ROOT_BYTES
    && (!c.formatBoot ==> Get(d.partitions, c.boot.value).fs == Vfat)
  }

  /** The checks on the partitions the configuration names, in whatever list they were found. */
  predicate Passes(parts: seq<Partition>, c: Config)
    requires c.root.Some? && c.boot.Some?
  {
    && Has(parts, c.root.value) && Has(parts, c.boot.value)
    && (var root := Get(parts, c.root.value); root.Size() >= MIN_ROOT_BYTES && !root.mounted)
    && (var boot := Get(parts, c.boot.value); !boot.mounted && (!c.formatBoot ==> boot.fs == Vfat))
  }

  /** Both partitions are there and idle, the root has at least 16 GiB, and boot is FAT or will be. */
  ghost predicate Installable(d: Disk, c: Config) {
    && (exists root <- d.partitions ::
          c.root == Some(root.number) && root.end - root.start + 1 >= 16 * GIB && !root.mounted)
    && (exists boot <- d.partitions ::
          c.boot == Some(boot.number) && !boot.mounted && (boot.fs == Vfat || c.formatBoot))
  }

  lemma PassesMeans(d: Disk, c: Config)
    requires DistinctNumbers(d.partitions) && c.root.Some? && c.boot.Some?
    ensures Passes(d.partitions, c) <==> Installable(d, c)
  {
    if Installable(d, c) {
      var root :| root in d.partitions && c.root == Some(root.number)
                  && root.end - root.start + 1 >= 16 * GIB && !root.mounted;
      var boot :| boot in d.partitions && c.boot == Some(boot.number)
                  && !boot.mounted && (boot.fs == Vfat || c.formatBoot);
      GetUnique(d.partitions, root);
      GetUnique(d.partitions, boot);
    }
  }

  /** What is on a boot partition that will be formatted makes no difference to whether an installation
      goes through; what is on one that will not decides it. */
  lemma BootContentsMatterIff(d: Disk, c: Config, i: nat, fs: FsType)
    requires DistinctNumbers(d.partitions) && i < |d.partitions|
    requires c.boot == Some(d.partitions[i].number) && c.root != c.boot
    ensures var e := d.(partitions := d.partitions[i := d.partitions[i].(fs := fs)]);
            && (c.formatBoot ==> (Installable(e, c) <==> Installable(d, c)))
            && (!c.formatBoot && d.partitions[i].fs == Vfat ==>
                  (Installable(e, c) <==> Installable(d, c) && fs == Vfat))
            && (!c.formatBoot ==> (Installable(e, c) ==> fs == Vfat))
  {
    OtherBoot(d, c, i, fs);
    OtherBoot(d, c, i, d.partitions[i].fs);
    assert d.partitions[i := d.partitions[i].(fs := d.partitions[i].fs)] == d.partitions;
  }

  lemma OtherBoot(d: Disk, c: Config, i: nat, fs: FsType)
    requires DistinctNumbers(d.partitions) && i < |d.partitions|
    requires c.boot == Some(d.partitions[i].number) && c.root != c.boot
    ensures Installable(d.(partitions := d.partitions[i := d.partitions[i].(fs := fs)]), c) <==>
            && (exists j :: && 0 <= j < |d.partitions| && c.root == Some(d.partitions[j].number)
                            && d.partitions[j].Size() >= 16 * GIB && !d.partitions[j].mounted)
            && !d.partitions[i].mounted && (fs == Vfat || c.formatBoot)
  {
    var e := d.(partitions := d.partitions[i := d.partitions[i].(fs := fs)]);
    assert e.partitions[i] in e.partitions;
    if j :| && 0 <= j < |d.partitions| && c.root == Some(d.partitions[j].number)
            && d.partitions[j].Size() >= 16 * GIB && !d.partitions[j].mounted {
      assert e.partitions[j] == d.partitions[j] && e.partitions[j] in e.partitions;
    }
    if Installable(e, c) {
      var root :| root in e.partitions && c.root == Some(root.number)
                  && root.end - root.start + 1 >= 16 * GIB && !root.mounted;
      var j :| 0 <= j < |e.partitions| && e.partitions[j] == root;
      assert d.partitions[j] == root;
      var boot :| boot in e.partitions && c.boot == Some(boot.number)
                  && !boot.mounted && (boot.fs == Vfat || c.formatBoot);
      var k :| 0 <= k < |e.partitions| && e.partitions[k] == boot;
      assert k == i;
    }
  }

  lemma SeenPasses(d: Disk, parted: bool, lsblk: bool, c: Config)
    requires DistinctNumbers(d.partitions) && c.root.Some? && c.boot.Some?
    ensures var passes := Passes(SeenLayout(d, parted, lsblk).partitions, c);
            && (passes ==> ExistingUsable(d, c))
            && (parted && lsblk ==> (passes <==> Installable(d, c)))
  {
    PassesMeans(d, c);
    SeenPart(d, parted, lsblk, c.root.value);
    SeenPart(d, parted, lsblk, c.boot.value);
  }

  lemma ExistingInside(w: World, c: Config)
    requires c.root.Some? && c.boot.Some?
    requires Has(w.disk.partitions, c.root.value) && Has(w.disk.partitions, c.boot.value)
    ensures PartInside(w, c.root.value, ExistingFrame(w, c).scope)
    ensures c.formatBoot ==> PartInside(w, c.boot.value, ExistingFrame(w, c).scope)
  {
    var scope := ExistingFrame(w, c).scope;
    var root, boot := Get(w.disk.partitions, c.root.value), Get(w.disk.partitions, c.boot.value);
    assert scope[0] == Extent(root.start, root.end);
    assert scope[0] in scope;
    if c.formatBoot {
      assert scope[1] == Extent(boot.start, boot.end);
      assert scope[1] in scope;
    }
  }

  // -- the manager -----------------------------------------------------------------------

  class StorageManager {
    const runner: Runner
    var mountAttempted: bool
    var luksOpened: bool

    constructor (runner: Runner)
      ensures this.runner == runner && !mountAttempted && !luksOpened
    {
      this.runner := runner;
      mountAttempted, luksOpened := false, false;
    }

    /** What teardown relies on: anything mounted or opened has been noted. */
    ghost predicate Ready()
      reads this, runner
    {
      && runner.Valid()
      && (runner.world.mounts != [] ==> mountAttempted)
      && (runner.world.mapper.Some? ==> luksOpened)
    }

    ghost predicate Held(f: Frame)
      reads runner
    {
      DiskOk(f.base.disk) && Kept(f.base, runner.world, f.scope)
    }

    /** Runs a command that stays inside the frame. */
    method Do(c: Command, ghost f: Frame) returns (ok: bool)
      requires Ready() && Held(f) && InScope(runner.world, c, f.scope)
      requires (c.MountFs? ==> mountAttempted) && (c.LuksOpen? ==> luksOpened)
      requires (c.Wipe? ==> !InUse(runner.world, c.number)) && InTurn(runner.last, runner.devices, c)
      modifies runner
      ensures Ready() && Held(f) && runner.issued == old(runner.issued) + 1
      ensures ok == (!runner.fails(old(runner.issued)) && Possible(old(runner.world), c))
      ensures runner.world == if ok then Effect(old(runner.world), c) else old(runner.world)
      ensures runner.devices == if ok then DevicesAfter(old(runner.devices), c) else old(runner.devices)
      ensures runner.last == if ok then Some(c) else None
      ensures InPlace(c) ==> Only(old(runner.world), runner.world, Target(c))
    {
      StaysInFrame(f, runner.world, c);
      if Possible(runner.world, c) { OpensOnly(runner.world, c); }
      ok := runner.Run(c);
    }

    /** partprobe, then udevadm settle. */
    method Settle(ghost f: Frame) returns (ok: bool)
      requires Ready() && Held(f)
      modifies runner
      ensures ok ==> runner.devices == Current
      ensures Ready() && Held(f) && runner.world == old(runner.world)
      ensures runner.issued > old(runner.issued) && (ok ==> runner.issued == old(runner.issued) + 2)
      ensures !runner.Faulty(old(runner.issued), runner.issued) ==> ok
    {
      ok := runner.CatchUp();
    }

    // -- shrinking -------------------------------------------------------------------

    /** How small the partition can get, as far as the tools could measure it. */
    method MeasureShrink(p: Partition) returns (info: ShrinkInfo)
      requires Ready()
      requires runner.devices == Current
      modifies runner
      ensures runner.devices == Current
      ensures Ready() && runner.world == old(runner.world) && runner.issued >= old(runner.issued)
      ensures info == Measured(p) || info == ShrinkInfo(p.Size(), 0)
      ensures !runner.Faulty(old(runner.issued), runner.issued) ==> info == Measured(p)
    {
      if p.fs !in {Ntfs, Ext4} || p.mounted {
        return ShrinkInfo(p.Size(), 0);
      }
      var measured := runner.Read();
      if p.fs == Ext4 {
        var header := runner.Read();
        measured := measured && header;
      }
      if !measured {
        return ShrinkInfo(p.Size(), 0);
      }
      return ShrinkInfo(p.Size(), Min(AlignUp(p.minimum + SHRINK_HEADROOM), p.Size()));
    }

    ghost predicate CanHold(n: nat, bytes: int)
      reads runner
    {
      && runner.world.mounts == [] && runner.world.mapper == None
      && Has(runner.world.disk.partitions, n)
      && (var p := Get(runner.world.disk.partitions, n);
          p.fs in {Ntfs, Ext4} && !p.mounted && p.minimum <= bytes <= p.Size())
      && bytes % MIB == 0 && 0 < bytes
    }

    method ShrinkNtfs(n: nat, bytes: int) returns (ok: bool)
      requires Ready() && CanHold(n, bytes) && Get(runner.world.disk.partitions, n).fs == Ntfs
      requires runner.devices == Current
      modifies runner
      ensures runner.devices == Current
      ensures Ready() && runner.issued >= old(runner.issued)
      ensures runner.world == if ok then FsResized(old(runner.world), n, bytes) else old(runner.world)
      ensures !runner.Faulty(old(runner.issued), runner.issued) ==> ok
    {
      NtfsCommands(runner.world, n, bytes);
      // Nothing is resized unless the rehearsal went through.
      ok := runner.Run(NtfsTest(n, bytes));
      if ok {
        ok := runner.Run(NtfsResize(n, bytes));
      }
    }

    method ShrinkExt4(n: nat, bytes: int) returns (ok: bool)
      requires Ready() && CanHold(n, bytes) && Get(runner.world.disk.partitions, n).fs == Ext4
      requires runner.devices == Current
      modifies runner
      ensures runner.devices == Current
      ensures Ready() && runner.issued >= old(runner.issued)
      ensures runner.world == if ok then FsResized(old(runner.world), n, bytes) else old(runner.world)
      ensures !runner.Faulty(old(runner.issued), runner.issued) ==> ok
    {
      KibIsExact(bytes);
      Ext4Commands(runner.world, n, bytes / 1024);
      ok := runner.Run(Fsck(n));
      if ok {
        ok := runner.Run(Resize2fs(n, bytes / 1024));
      }
    }

    /** Shrinks what is on the partition before the partition itself. */
    method ApplyShrink(n: nat, bytes: int) returns (ok: bool)
      requires Ready() && CanHold(n, bytes)
      requires runner.devices == Current
      modifies runner
      ensures ok ==> runner.devices == Current
      ensures Ready() && runner.issued >= old(runner.issued)
      ensures ShrinkStage(old(runner.world), runner.world, n, bytes)
      ensures ok ==> runner.world == TableShrunk(old(runner.world), n, bytes)
      ensures !runner.Faulty(old(runner.issued), runner.issued) ==> ok
    {
      ghost var w0 := runner.world;
      if Get(runner.world.disk.partitions, n).fs == Ntfs {
        ok := ShrinkNtfs(n, bytes);
      } else {
        ok := ShrinkExt4(n, bytes);
      }
      if !ok {
        return;
      }
      ok := CutPartition(n, bytes, w0);
    }

    /** The partition ends where its filesystem now does, and the kernel is told. */
    method CutPartition(n: nat, bytes: int, ghost w0: World) returns (ok: bool)
      requires Ready() && WorldOk(w0) && Has(w0.disk.partitions, n)
      requires bytes % MIB == 0 && 0 < bytes <= Get(w0.disk.partitions, n).Size()
      requires runner.world == FsResized(w0, n, bytes)
      modifies runner
      ensures Ready() && runner.issued >= old(runner.issued)
      ensures ok ==> runner.devices == Current
      ensures runner.world == FsResized(w0, n, bytes) || runner.world == TableShrunk(w0, n, bytes)
      ensures ok ==> runner.world == TableShrunk(w0, n, bytes)
      ensures !runner.Faulty(old(runner.issued), runner.issued) ==> ok
    {
      SfdiskAfterResize(w0, n, bytes);
      ok := runner.Run(Sfdisk(n, bytes / runner.world.disk.sector));
      if ok {
        ok := runner.CatchUp();
      }
    }

    /** The partition to shrink as far as it could be read. */
    method FindShrinkable(n: nat) returns (r: Outcome<Partition>)
      requires Ready()
      requires runner.devices == Current
      modifies runner
      ensures runner.devices == Current
      ensures Ready() && runner.world == old(runner.world) && runner.issued == old(runner.issued) + 2
      ensures r == Candidate(SeenLayout(runner.world.disk, !runner.fails(old(runner.issued)),
                                        !runner.fails(old(runner.issued) + 1)), n)
    {
      var layout := runner.ReadDiskLayout();
      if layout.table != Some(Gpt) {
        return Refused("shrinking a partition requires a GPT partition table");
      }
      if !Has(layout.partitions, n) {
        return Refused("not a partition on this disk");
      }
      return Done(Get(layout.partitions, n));
    }

    /** Measures the partition and checks the requested size before anything is touched. */
    method CheckShrink(n: nat, shrinkSize: int) returns (r: Outcome<()>)
      requires Ready()
      requires runner.devices == Current
      modifies runner
      ensures runner.devices == Current
      ensures Ready() && runner.world == old(runner.world) && runner.issued >= old(runner.issued)
      ensures !r.Failed?
      ensures r.Done? ==> ShrinkChecks(runner.world.disk, n, shrinkSize)
      ensures !runner.Faulty(old(runner.issued), runner.issued) ==>
                (r.Done? <==> ShrinkChecks(runner.world.disk, n, shrinkSize))
    {
      CandidateIsThere(runner.world.disk, !runner.fails(runner.issued), !runner.fails(runner.issued + 1), n);
      var part := FindShrinkable(n);
      if part.Refused? {
        return Refused(part.reason);
      }
      var info := MeasureShrink(part.value);
      var refusal := SizeRefusal(info, RoundedSize(shrinkSize));
      SizeRefusalIsExact(info, shrinkSize);
      return if refusal == None then Done(()) else Refused(refusal.value);
    }

    method ShrinkPartition(n: nat, shrinkSize: int) returns (r: Outcome<()>)
      requires Ready() && runner.world.mounts == [] && runner.world.mapper == None
      requires runner.devices == Current
      modifies runner
      ensures r.Done? ==> runner.devices == Current
      ensures Ready() && runner.issued >= old(runner.issued)
      ensures ShrinkStage(old(runner.world), runner.world, n, RoundedSize(shrinkSize))
      ensures runner.world != old(runner.world) ==> ShrinkChecks(old(runner.world.disk), n, shrinkSize)
      ensures r.Refused? ==> runner.world == old(runner.world)
      ensures r.Done? ==> ShrinkChecks(old(runner.world.disk), n, shrinkSize)
                          && runner.world == TableShrunk(old(runner.world), n, RoundedSize(shrinkSize))
      ensures !runner.Faulty(old(runner.issued), runner.issued) ==>
                (r.Done? <==> ShrinkChecks(old(runner.world.disk), n, shrinkSize)) && !r.Failed?
    {
      var checked := CheckShrink(n, shrinkSize);
      if checked.Refused? {
        return Refused(checked.reason);
      }
      AcceptedFacts(Get(runner.world.disk.partitions, n), shrinkSize);
      var ok := ApplyShrink(n, RoundedSize(shrinkSize));
      return if ok then Done(()) else Failed;
    }

    // -- disk layouts ---------------------------------------------------------------

    /** mkpart with exact sector bounds. */
    method MakePart(startSector: int, endSector: int, ghost start: int, ghost end: int, ghost f: Frame)
      returns (ok: bool)
      requires Ready() && Held(f) && runner.world.disk.table == Some(Gpt)
      requires start == PartitionStart(runner.world.disk, startSector)
      requires end == PartitionEnd(runner.world.disk, endSector)
      requires FitsTable(runner.world.disk, start, end) && Inside(start, end, f.scope)
      modifies runner
      ensures Ready() && Held(f) && runner.issued == old(runner.issued) + 1
      ensures ok == !runner.fails(old(runner.issued))
      ensures runner.world == if ok then WithPartition(old(runner.world), start, end) else old(runner.world)
    {
      ok := Do(MakePartition(startSector, endSector), f);
    }

    method SetPartFlag(n: nat, flag: Flag, ghost f: Frame) returns (ok: bool)
      requires Ready() && Held(f) && Has(runner.world.disk.partitions, n)
      modifies runner
      ensures runner.devices == old(runner.devices)
      ensures Ready() && Held(f) && runner.issued == old(runner.issued) + 1
      ensures ok == !runner.fails(old(runner.issued))
      ensures runner.world == if ok then Flagged(old(runner.world), n, flag) else old(runner.world)
    {
      ok := Do(SetFlag(n, flag), f);
    }

    ghost predicate CarveFrame(f: Frame, region: FreeRegion) {
      Carvable(f.base, region) && f.scope == [Extent(region.start, region.end - 1)]
    }

    method CarveEsp(region: FreeRegion, sector: int, ghost f: Frame) returns (ok: bool)
      requires Ready() && Held(f) && runner.world == f.base && sector == f.base.disk.sector
      requires CarveFrame(f, region)
      modifies runner
      ensures Ready() && Held(f) && runner.issued == old(runner.issued) + 1
      ensures runner.world == if ok then WithEsp(f.base, region) else f.base
      ensures ok == !runner.fails(old(runner.issued))
    {
      RegionAligned(f.base, region);
      ExactSectors(f.base.disk, region.start, Middle(region));
      EspFits(f.base, region);
      InsideRegion(region, region.start, Middle(region) - 1);
      ok := MakePart(region.start / sector, Middle(region) / sector - 1, region.start, Middle(region) - 1, f);
    }

    method CarveRoot(region: FreeRegion, sector: int, ghost f: Frame) returns (ok: bool)
      requires Ready() && Held(f) && runner.world == WithEsp(f.base, region) && sector == f.base.disk.sector
      requires CarveFrame(f, region)
      modifies runner
      ensures Ready() && Held(f) && runner.issued == old(runner.issued) + 1
      ensures runner.world == if ok then Carved(f.base, region) else WithEsp(f.base, region)
      ensures ok == !runner.fails(old(runner.issued))
    {
      ghost var before, start, end := runner.world, Middle(region), region.end - 1;
      RootBounds(f.base, region);
      RootFits(f.base, region);
      InsideRegion(region, start, end);
      CarvedIs(f.base, region, before, start, end);
      ok := MakePart(Middle(region) / sector, region.end / sector - 1, start, end, f);
    }

    /** An ESP and a root that tile the region. */
    method CarveRegion(region: FreeRegion, sector: int, ghost f: Frame) returns (ok: bool)
      requires Ready() && Held(f) && runner.world == f.base && sector == f.base.disk.sector
      requires CarveFrame(f, region)
      requires runner.devices == Current
      modifies runner
      ensures ok ==> runner.devices == Current
      ensures Ready() && Held(f) && runner.issued >= old(runner.issued)
      ensures runner.world in {f.base, WithEsp(f.base, region), Carved(f.base, region)}
      ensures ok ==> runner.world == Carved(f.base, region)
      ensures !runner.Faulty(old(runner.issued), runner.issued) ==> ok
    {
      ok := CarveEsp(region, sector, f);
      if ok {
        ok := CarveRoot(region, sector, f);
      }
      if ok {
        ok := Settle(f);
      }
    }

    /** Reads the layout again and looks two partitions up by their start offsets. */
    method FindPair(first: int, second: int) returns (a: Option<Partition>, b: Option<Partition>)
      requires Ready()
      requires runner.devices == Current
      modifies runner
      ensures runner.devices == Current
      ensures Ready() && runner.world == old(runner.world) && runner.issued == old(runner.issued) + 2
      ensures var parted, lsblk := !runner.fails(old(runner.issued)), !runner.fails(old(runner.issued) + 1);
              && a == SeenStart(runner.world.disk, parted, lsblk, first)
              && b == SeenStart(runner.world.disk, parted, lsblk, second)
    {
      var created := runner.ReadDiskLayout();
      a := FindStart(created.partitions, first);
      b := FindStart(created.partitions, second);
    }

    /** Finds the partitions just created by their start offsets and marks the ESP. */
    method AdoptPair(espStart: int, rootStart: int, ghost esp: nat, ghost root: nat, ghost f: Frame)
      returns (r: Outcome<(nat, nat)>)
      requires Ready() && Held(f) && Has(runner.world.disk.partitions, esp)
      requires FoundAs(runner.world.disk, espStart, esp) && FoundAs(runner.world.disk, rootStart, root)
      requires runner.devices == Current
      modifies runner
      ensures runner.devices == Current
      ensures Ready() && Held(f) && runner.issued >= old(runner.issued)
      ensures runner.world == old(runner.world) || runner.world == Flagged(old(runner.world), esp, Esp)
      ensures r.Done? ==> r.value == (root, esp) && runner.world == Flagged(old(runner.world), esp, Esp)
      ensures !runner.Faulty(old(runner.issued), runner.issued) ==> r.Done?
      ensures r.Done? ==> runner.last == Some(Command.Settle)
    {
      var foundEsp, foundRoot := FindPair(espStart, rootStart);
      if foundEsp == None || foundRoot == None {
        return Refused("could not find the newly created partitions");
      }
      var ok := SetPartFlag(foundEsp.value.number, Esp, f);
      if ok {
        ok := Settled(f);
      }
      return if ok then Done((foundRoot.value.number, foundEsp.value.number)) else Failed;
    }

    /** Where the free-space layout works: nowhere, or in one region that was free. */
    ghost predicate FreeFrame(f: Frame, region: FreeRegion) {
      f.scope == [] || CarveFrame(f, region)
    }

    /** The largest free region, if it has room for the installation. */
    method ChooseRegion() returns (r: Outcome<(FreeRegion, int)>)
      requires Ready()
      requires runner.devices == Current
      modifies runner
      ensures runner.devices == Current
      ensures Ready() && runner.world == old(runner.world) && runner.issued >= old(runner.issued)
      ensures !r.Failed?
      ensures r.Done? ==> Carvable(runner.world, r.value.0) && r.value.1 == runner.world.disk.sector
      ensures !runner.Faulty(old(runner.issued), runner.issued) ==>
                (r.Done? <==> runner.world.disk.table == Some(Gpt) && Enough(runner.world.disk))
    {
      ghost var d, parted, lsblk :=
        runner.world.disk, !runner.fails(runner.issued), !runner.fails(runner.issued + 1);
      SeenFacts(d, parted, lsblk);
      LargestFreeIsExact(d, ROOM_NEEDED);
      var layout := runner.ReadDiskLayout();
      if layout.table != Some(Gpt) {
        return Refused("installing into free space requires a GPT partition table");
      }
      var best := LargestFree(layout.free);
      if best == None || best.value.Size() < ROOM_NEEDED {
        return Refused("not enough unallocated space");
      }
      return Done((best.value, layout.sector));
    }

    method FreeSpaceLayout() returns (r: Outcome<(nat, nat)>, ghost f: Frame, ghost region: FreeRegion)
      requires Ready()
      requires runner.devices == Current
      modifies runner
      ensures r.Done? ==> runner.devices == Current
      ensures Ready() && Held(f) && runner.issued >= old(runner.issued)
      ensures f.base == old(runner.world) && FreeFrame(f, region)
      ensures runner.world == f.base
              || (f.scope != []
                  && runner.world in {WithEsp(f.base, region), Carved(f.base, region), Adopted(f.base, region)})
      ensures r.Done? ==> f.scope != [] && runner.world == Adopted(f.base, region)
                          && FreshPair(f.base, region, runner.world, r.value.0, r.value.1)
                          && r.value.1 == NewEsp(f.base, region).number
      ensures !runner.Faulty(old(runner.issued), runner.issued) ==>
                (r.Done? <==> f.base.disk.table == Some(Gpt) && Enough(f.base.disk)) && !r.Failed?
    {
      f, region := Frame(runner.world, []), FreeRegion(0, 0);
      var choice := ChooseRegion();
      if choice.Refused? {
        return Refused(choice.reason), f, region;
      }
      var (best, sector) := choice.value;
      region := best;
      f := Frame(runner.world, [Extent(best.start, best.end - 1)]);
      r := UseRegion(best, sector, f);
    }

    method UseRegion(region: FreeRegion, sector: int, ghost f: Frame) returns (r: Outcome<(nat, nat)>)
      requires Ready() && Held(f) && runner.world == f.base && sector == f.base.disk.sector
      requires CarveFrame(f, region)
      requires runner.devices == Current
      modifies runner
      ensures r.Done? ==> runner.devices == Current
      ensures Ready() && Held(f) && runner.issued >= old(runner.issued)
      ensures runner.world in {f.base, WithEsp(f.base, region), Carved(f.base, region), Adopted(f.base, region)}
      ensures r.Done? ==> runner.world == Adopted(f.base, region)
                          && FreshPair(f.base, region, runner.world, r.value.0, r.value.1)
                          && r.value.1 == NewEsp(f.base, region).number
      ensures !runner.Faulty(old(runner.issued), runner.issued) ==> r.Done?
    {
      var ok := CarveRegion(region, sector, f);
      if !ok {
        return Failed;
      }
      ghost var made, esp, root := runner.world, NewEsp(f.base, region).number, NewRoot(f.base, region).number;
      CarvedPair(f.base, region);
      PairFound(f.base, region, made.disk);
      r := AdoptPair(region.start, Middle(region), esp, root, f);
    }

    /** The checks on the partitions the configuration names. */
    method CheckExisting(c: Config) returns (r: Outcome<()>)
      requires Ready() && Validated(c) && c.layout == Partitions
      requires runner.devices == Current
      modifies runner
      ensures runner.devices == Current
      ensures Ready() && runner.world == old(runner.world) && runner.issued >= old(runner.issued)
      ensures !r.Failed?
      ensures r.Done? ==> ExistingUsable(runner.world.disk, c)
      ensures !runner.Faulty(old(runner.issued), runner.issued) ==>
                (r.Done? <==> Installable(runner.world.disk, c))
    {
      SeenPasses(runner.world.disk, !runner.fails(runner.issued), !runner.fails(runner.issued + 1), c);
      var layout := runner.ReadDiskLayout();
      var refusal := ExistingRefusal(layout.partitions, c);
      return if refusal == None then Done(()) else Refused(refusal.value);
    }

    static method ExistingRefusal(parts: seq<Partition>, c: Config) returns (refusal: Option<string>)
      requires c.root.Some? && c.boot.Some?
      ensures refusal == None <==> Passes(parts, c)
    {
      var root, boot := c.root.value, c.boot.value;
      if !Has(parts, root) {
        return Some("root is not a partition on this disk");
      }
      var rootInfo := Get(parts, root);
      if rootInfo.Size() < MIN_ROOT_BYTES {
        return Some("root must be at least 16 GiB");
      }
      if rootInfo.mounted {
        return Some("root is mounted");
      }
      if !Has(parts, boot) {
        return Some("boot is not a partition on this disk");
      }
      var bootInfo := Get(parts, boot);
      if bootInfo.mounted {
        return Some("boot is mounted");
      }
      if !c.formatBoot && bootInfo.fs != Vfat {
        return Some("boot is not a FAT32 EFI system partition");
      }
      return None;
    }

    /** The partitions the configuration names, after the checks; the root is wiped. */
    method ExistingLayout(c: Config) returns (r: Outcome<(nat, nat)>, ghost f: Frame)
      requires Ready() && Validated(c) && c.layout == Partitions
      requires runner.world.mounts == [] && runner.world.mapper == None
      requires runner.devices == Current
      modifies runner
      ensures runner.devices == Current
      ensures Ready() && Held(f) && f == ExistingFrame(old(runner.world), c)
      ensures runner.issued >= old(runner.issued)
      ensures runner.world.mounts == [] && runner.world.mapper == None
      ensures Only(old(runner.world), runner.world, {c.root.value})
      ensures r.Refused? ==> runner.world == old(runner.world)
      ensures r.Done? ==> r.value == (c.root.value, c.boot.value) && ExistingUsable(f.base.disk, c)
      ensures r.Done? ==> FsOf(runner.world, Part(c.root.value)) == Some(Unknown)
                          && Renewed(old(runner.world), runner.world, c.root.value)
                          && (c.formatBoot ==> (c.boot.value, Esp) in runner.world.flags)
      ensures !runner.Faulty(old(runner.issued), runner.issued) ==>
                (r.Done? <==> Installable(f.base.disk, c)) && !r.Failed?
    {
      var root, boot := c.root.value, c.boot.value;
      f := ExistingFrame(runner.world, c);
      var checked := CheckExisting(c);
      if checked.Refused? {
        return Refused(checked.reason), f;
      }
      ExistingInside(runner.world, c);
      var ok := WipeOne(root, f);
      if ok && c.formatBoot {
        ok := SetPartFlag(boot, Esp, f);
      }
      return if ok then Done((root, boot)) else Failed, f;
    }

    /** mkpart behind the partitions made so far. */
    method AppendPart(start: int, end: int, ghost bounds: seq<int>, ghost f: Frame) returns (ok: bool)
      requires Ready() && Held(f) && WholeDisk(f) && Laying(bounds) && start == bounds[|bounds| - 1]
      requires start % MIB == 0 && (end + 1) % MIB == 0
      requires runner.world.disk.lo <= start <= end <= runner.world.disk.hi
      modifies runner
      ensures Ready() && Held(f) && runner.issued == old(runner.issued) + 1
      ensures ok == !runner.fails(old(runner.issued))
      ensures ok ==> Laying(bounds + [end + 1]) && Has(runner.world.disk.partitions, |bounds|)
      ensures runner.world.mounts == old(runner.world.mounts) && runner.world.mapper == old(runner.world.mapper)
      ensures runner.world.disk.lo == old(runner.world.disk.lo) && runner.world.disk.hi == old(runner.world.disk.hi)
      ensures runner.world.flags == old(runner.world.flags)
    {
      ghost var before := runner.world;
      var sector := runner.world.disk.sector;
      ExactSectors(before.disk, start, end + 1);
      AppendFacts(before, |bounds| - 1, start, end);
      InsideWhole(before.disk, f, start, end);
      ok := MakePart(start / sector, (end + 1) / sector - 1, start, end, f);
      if ok {
        TableGrows(before, runner.world, bounds, end);
      }
    }

    /** The partitions made so far have these bounds. */
    ghost predicate Laying(bounds: seq<int>)
      reads runner
    {
      && Table(runner.world, bounds)
      && Built(runner.world, |bounds| - 1, bounds[|bounds| - 1])
    }

    method EraseUefi(end: int, ghost f: Frame) returns (ok: bool)
      requires Ready() && Held(f) && Blank(f) && end == LastByte(runner.world.disk)
      modifies runner
      ensures Ready() && Held(f) && runner.issued >= old(runner.issued)
      ensures runner.world.mounts == [] && runner.world.mapper == None
      ensures ok ==> Table(runner.world, [MIB, MIB + ESP_BYTES, end + 1]) && (1, Esp) in runner.world.flags
      ensures !runner.Faulty(old(runner.issued), runner.issued) ==> ok
    {
      LabelBounds(runner.world.disk);
      EmptyTable(runner.world, MIB);
      ok := AppendPart(MIB, MIB + ESP_BYTES - 1, [MIB], f);
      ghost var made := runner.world;
      if ok {
        ok := SetPartFlag(1, Esp, f);
      }
      if ok {
        FlagKeepsTable(made, 1, Esp, [MIB] + [MIB + ESP_BYTES]);
        assert [MIB] + [MIB + ESP_BYTES] == [MIB, MIB + ESP_BYTES];
        ok := AppendPart(MIB + ESP_BYTES, end, [MIB, MIB + ESP_BYTES], f);
        assert [MIB, MIB + ESP_BYTES] + [end + 1] == [MIB, MIB + ESP_BYTES, end + 1];
      }
    }

    method EraseBios(end: int, ghost f: Frame) returns (ok: bool)
      requires Ready() && Held(f) && Blank(f) && end == LastByte(runner.world.disk)
      modifies runner
      ensures Ready() && Held(f) && runner.issued >= old(runner.issued)
      ensures runner.world.mounts == [] && runner.world.mapper == None
      ensures ok ==> Table(runner.world, [MIB, 3 * MIB, end + 1]) && (1, BiosGrub) in runner.world.flags
      ensures !runner.Faulty(old(runner.issued), runner.issued) ==> ok
    {
      LabelBounds(runner.world.disk);
      ok := BiosBoot(f);
      if ok {
        ok := AppendPart(3 * MIB, end, [MIB, 3 * MIB], f);
        assert [MIB, 3 * MIB] + [end + 1] == [MIB, 3 * MIB, end + 1];
      }
    }

    method EraseBiosWithBoot(end: int, ghost f: Frame) returns (ok: bool)
      requires Ready() && Held(f) && Blank(f) && end == LastByte(runner.world.disk)
      modifies runner
      ensures Ready() && Held(f) && runner.issued >= old(runner.issued)
      ensures runner.world.mounts == [] && runner.world.mapper == None
      ensures ok ==> Table(runner.world, [MIB, 3 * MIB, 3 * MIB + ESP_BYTES, end + 1])
                     && (1, BiosGrub) in runner.world.flags
      ensures !runner.Faulty(old(runner.issued), runner.issued) ==> ok
    {
      LabelBounds(runner.world.disk);
      var middle := 3 * MIB + ESP_BYTES;
      ok := BiosBoot(f);
      if ok {
        ok := AppendPart(3 * MIB, middle - 1, [MIB, 3 * MIB], f);
      }
      if ok {
        assert [MIB, 3 * MIB] + [middle] == [MIB, 3 * MIB, middle];
        ok := AppendPart(middle, end, [MIB, 3 * MIB, middle], f);
        assert [MIB, 3 * MIB, middle] + [end + 1] == [MIB, 3 * MIB, middle, end + 1];
      }
    }

    /** The partition GRUB's core image lives in. */
    method BiosBoot(ghost f: Frame) returns (ok: bool)
      requires Ready() && Held(f) && Blank(f)
      modifies runner
      ensures Ready() && Held(f) && runner.issued >= old(runner.issued)
      ensures runner.world.mounts == [] && runner.world.mapper == None
      ensures ok ==> Laying([MIB, 3 * MIB]) && (1, BiosGrub) in runner.world.flags
      ensures runner.world.disk.lo == old(runner.world.disk.lo) && runner.world.disk.hi == old(runner.world.disk.hi)
      ensures !runner.Faulty(old(runner.issued), runner.issued) ==> ok
    {
      LabelBounds(runner.world.disk);
      EmptyTable(runner.world, MIB);
      ok := AppendPart(MIB, 3 * MIB - 1, [MIB], f);
      assert [MIB] + [3 * MIB] == [MIB, 3 * MIB];
      ghost var made := runner.world;
      if ok {
        FlagKeepsTable(made, 1, BiosGrub, [MIB, 3 * MIB]);
        ok := SetPartFlag(1, BiosGrub, f);
      }
    }

    /** A freshly labelled disk, idle, in a frame that covers it. */
    ghost predicate Blank(f: Frame)
      reads runner
    {
      && WholeDisk(f) && f.base.disk.size == runner.world.disk.size >= MIN_ROOT_BYTES
      && Labelled(runner.world.disk, runner.world.disk.size) && Built(runner.world, 0, 0)
      && runner.world.mounts == [] && runner.world.mapper == None
    }

    /** A new label, and the partitions the firmware needs up to the end of the disk. */
    method EraseLayout(c: Config) returns (r: Outcome<(nat, Option<nat>)>, ghost f: Frame)
      requires Ready() && Validated(c) && c.layout == Erase && Idle(runner.world, c)
      modifies runner
      ensures r.Done? ==> runner.devices == Current
      ensures Ready() && Held(f) && f.base == old(runner.world) && WholeDisk(f)
      ensures runner.issued >= old(runner.issued)
      ensures runner.world.mounts == [] && runner.world.mapper == None
      ensures r.Done? ==> ErasedFor(runner.world, f.base.disk, c, r.value.0, r.value.1)
      ensures !r.Refused? && (r.Done? ==> old(DiskIdle(runner.world)))
      ensures !runner.Faulty(old(runner.issued), runner.issued) ==> (r.Done? <==> old(DiskIdle(runner.world)))
    {
      f := Frame(runner.world, [Extent(0, runner.world.disk.size - 1)]);
      var ok := NewLabel(f);
      if !ok {
        return Failed, f;
      }
      var end := LastByte(runner.world.disk);
      var laid: (nat, Option<nat>);
      if c.firmware == Uefi {
        ok := EraseUefi(end, f);
        laid := (2, Some(1));
      } else if NeedsSeparateBoot(c) {
        ok := EraseBiosWithBoot(end, f);
        laid := (3, Some(2));
      } else {
        ok := EraseBios(end, f);
        laid := (2, None);
      }
      if ok {
        ok := Settle(f);
      }
      r := if ok then Done(laid) else Failed;
    }

    method NewLabel(ghost f: Frame) returns (ok: bool)
      requires Ready() && Held(f) && runner.world.mounts == [] && runner.world.mapper == None && WholeDisk(f)
      requires f.base.disk.size == runner.world.disk.size
      modifies runner
      ensures Ready() && Held(f) && runner.issued >= old(runner.issued)
      ensures runner.world.mounts == [] && runner.world.mapper == None
      ensures ok ==> Labelled(runner.world.disk, f.base.disk.size) && Built(runner.world, 0, 0)
                     && runner.world.disk.sector == old(runner.world.disk.sector) && old(DiskIdle(runner.world))
                     && runner.world.written == old(runner.world.written) + [f.scope[0], f.scope[0]]
      ensures !runner.Faulty(old(runner.issued), runner.issued) ==> (ok <==> old(DiskIdle(runner.world)))
    {
      ok := Do(WipeDisk, f);
      if ok {
        ok := Do(MakeLabel, f);
      }
    }

    /** A forced wipe succeeds even on a partition the live system has mounted. */
    method WipeOne(n: nat, ghost f: Frame) returns (ok: bool)
      requires Ready() && Held(f) && Has(runner.world.disk.partitions, n) && PartInside(runner.world, n, f.scope)
      requires !InUse(runner.world, n)
      requires runner.devices == Current
      modifies runner
      ensures runner.devices == Current
      ensures Ready() && Held(f) && runner.issued == old(runner.issued) + 1
      ensures runner.world.mounts == old(runner.world.mounts) && runner.world.mapper == old(runner.world.mapper)
      ensures Only(old(runner.world), runner.world, {n})
      ensures ok == !runner.fails(old(runner.issued))
      ensures ok ==> FsOf(runner.world, Part(n)) == Some(Unknown) && Renewed(old(runner.world), runner.world, n)
    {
      ghost var before := runner.world;
      ok := Do(Wipe(n), f);
      if ok {
        ReformatLookups(before, n, Unknown);
        ReformatRenews(before, n, Unknown);
      }
    }

    // -- encryption, filesystems, mounts ------------------------------------------------

    method FormatLuks(n: nat, ghost f: Frame) returns (ok: bool)
      requires Ready() && Held(f) && Has(runner.world.disk.partitions, n) && PartInside(runner.world, n, f.scope)
      requires runner.devices == Current
      modifies runner
      ensures runner.devices == Current
      ensures Ready() && Held(f) && runner.issued == old(runner.issued) + 1
      ensures runner.world.mounts == old(runner.world.mounts) && runner.world.mapper == old(runner.world.mapper)
      ensures Only(old(runner.world), runner.world, {n})
      ensures ok ==> FsOf(runner.world, Part(n)) == Some(Luks) && Renewed(old(runner.world), runner.world, n)
      ensures ok == (!runner.fails(old(runner.issued)) && !old(Busy(runner.world, n)))
    {
      ghost var before := runner.world;
      ok := Do(LuksFormat(n), f);
      if ok {
        ReformatLookups(before, n, Luks);
        ReformatRenews(before, n, Luks);
      }
    }

    method OpenLuks(n: nat, ghost f: Frame) returns (ok: bool)
      requires Ready() && Held(f) && FsOf(runner.world, Part(n)) == Some(Luks) && runner.world.mapper == None
      requires runner.devices == Current
      modifies runner, this`luksOpened
      ensures runner.devices == Current
      ensures Ready() && Held(f) && runner.issued == old(runner.issued) + 1
      ensures runner.world ==
              if ok then old(runner.world).(mapper := Some(n), mapperFs := Unknown) else old(runner.world)
      ensures ok == !runner.fails(old(runner.issued))
    {
      ghost var before := runner.world;
      EffectKeeps(f.base, before, LuksOpen(n), f.scope);
      ok := runner.Run(LuksOpen(n));
      if ok {
        luksOpened := true;
      }
    }

    method Encrypt(n: nat, ghost f: Frame) returns (ok: bool)
      requires Ready() && Held(f) && runner.world.mounts == [] && runner.world.mapper == None
      requires Has(runner.world.disk.partitions, n) && PartInside(runner.world, n, f.scope)
      requires runner.devices == Current
      modifies runner, this`luksOpened
      ensures runner.devices == Current
      ensures Ready() && Held(f) && runner.world.mounts == []
      ensures Only(old(runner.world), runner.world, {n})
      ensures runner.world.mapper == if ok then Some(n) else None
      ensures ok ==> Renewed(old(runner.world), runner.world, n)
      ensures runner.issued >= old(runner.issued)
      ensures !runner.Faulty(old(runner.issued), runner.issued) && !old(Busy(runner.world, n)) ==> ok
    {
      ok := FormatLuks(n, f);
      if ok {
        ok := OpenLuks(n, f);
      }
    }

    ghost predicate Formattable(device: Device)
      reads runner
    {
      match device
      case Part(n) => Has(runner.world.disk.partitions, n)
      case Mapper => runner.world.mapper.Some?
    }

    /** mkfs on a partition or on the open mapper. */
    method MakeFilesystem(device: Device, fs: FsType, ghost f: Frame) returns (ok: bool)
      requires Ready() && Held(f) && Formattable(device)
      requires device.Part? ==> PartInside(runner.world, device.number, f.scope)
      requires runner.devices == Current
      modifies runner
      ensures ok ==> runner.devices == Pending
      ensures Ready() && Held(f) && runner.issued == old(runner.issued) + 1
      ensures runner.world.mounts == old(runner.world.mounts) && runner.world.mapper == old(runner.world.mapper)
      ensures device.Part? ==> runner.world.mapperFs == old(runner.world.mapperFs)
      ensures Only(old(runner.world), runner.world, Touched(device))
      ensures ok ==> FsOf(runner.world, device) == Some(fs)
      ensures ok && device.Part? ==> Renewed(old(runner.world), runner.world, device.number)
      ensures ok && fs == Btrfs ==> runner.world.subvolumes == {}
      ensures ok || runner.fails(old(runner.issued))
              || (if device.Part? then old(Busy(runner.world, device.number)) else old(runner.world.mounts) != [])
    {
      ghost var w0 := runner.world;
      ok := Do(MakeFs(device, fs), f);
      if ok && device.Part? {
        ReformatLookups(w0, device.number, fs);
        ReformatRenews(w0, device.number, fs);
      }
    }

    method FormatRoot(fs: FsType, device: Device, ghost f: Frame) returns (ok: bool)
      requires Ready() && Held(f) && runner.world.mounts == [] && Formattable(device)
      requires device.Part? ==> PartInside(runner.world, device.number, f.scope)
      requires runner.devices == Current
      modifies runner
      ensures ok ==> runner.devices == Current
      ensures Ready() && Held(f) && runner.world.mounts == [] && runner.world.mapper == old(runner.world.mapper)
      ensures Only(old(runner.world), runner.world, Touched(device))
      ensures ok ==> FsOf(runner.world, device) == Some(fs)
      ensures ok && device.Part? ==> Renewed(old(runner.world), runner.world, device.number)
      ensures ok && fs == Btrfs ==> runner.world.subvolumes == {}
      ensures runner.issued >= old(runner.issued)
      ensures !runner.Faulty(old(runner.issued), runner.issued) ==>
                (device.Part? && old(Busy(runner.world, device.number))) || ok
    {
      ok := MakeFilesystem(device, fs, f);
      if ok {
        ok := Settled(f);
      }
    }

    method Settled(ghost f: Frame) returns (ok: bool)
      requires Ready() && Held(f)
      requires runner.devices != Unread
      modifies runner
      ensures runner.devices == if ok then Current else old(runner.devices)
      ensures Ready() && Held(f) && runner.issued == old(runner.issued) + 1
      ensures runner.world == old(runner.world) && ok == !runner.fails(old(runner.issued))
      ensures ok ==> runner.last == Some(Command.Settle)
    {
      ok := Do(Command.Settle, f);
    }

    method MountAt(device: Device, dir: seq<string>, fs: FsType, subvolume: Option<string>, ghost f: Frame)
      returns (ok: bool)
      requires Ready() && Held(f) && Mountable(runner.world, device, dir, fs, subvolume)
      requires runner.devices == Current
      modifies runner, this`mountAttempted
      ensures runner.devices == Current
      ensures Ready() && Held(f) && runner.issued == old(runner.issued) + 1
      ensures ok == !runner.fails(old(runner.issued))
      ensures runner.world ==
              if ok then old(runner.world).(mounts := old(runner.world.mounts) + [Mount(device, dir, fs, subvolume)])
              else old(runner.world)
    {
      mountAttempted := true;
      MountEffect(runner.world, device, dir, fs, subvolume, f.scope);
      ok := Do(MountFs(device, dir, fs, subvolume), f);
    }

    method CreateOne(name: string, ghost f: Frame) returns (ok: bool)
      requires Ready() && Held(f)
      requires runner.world.mounts != [] && runner.world.mounts[0].fs == Btrfs && name !in runner.world.subvolumes
      requires runner.devices == Current
      modifies runner
      ensures runner.devices == Current
      ensures Ready() && Held(f) && runner.issued == old(runner.issued) + 1
      ensures ok == !runner.fails(old(runner.issued))
      ensures runner.world == old(runner.world).(subvolumes :=
                old(runner.world.subvolumes) + if ok then {name} else {})
    {
      ok := Do(CreateSubvolume(name), f);
    }

    method UnmountRoot(ghost f: Frame) returns (ok: bool)
      requires Ready() && Held(f) && |runner.world.mounts| == 1
      requires runner.devices == Current
      modifies runner
      ensures runner.devices == Current
      ensures Ready() && Held(f) && runner.issued == old(runner.issued) + 1
      ensures ok == !runner.fails(old(runner.issued))
      ensures runner.world == if ok then old(runner.world).(mounts := []) else old(runner.world)
    {
      ok := Do(Umount, f);
    }

    method CreateSubvolumes(device: Device, ghost f: Frame) returns (ok: bool)
      requires Ready() && Held(f)
      requires runner.world.mounts == [Mount(device, [], Btrfs, None)] && runner.world.subvolumes == {}
      requires runner.devices == Current
      modifies runner
      ensures runner.devices == Current
      ensures Ready() && Held(f)
      ensures runner.world == old(runner.world).(subvolumes := runner.world.subvolumes)
      ensures ok ==> forall i | 0 <= i < |SUBVOLUMES| :: SUBVOLUMES[i].0 in runner.world.subvolumes
      ensures runner.issued >= old(runner.issued)
      ensures !runner.Faulty(old(runner.issued), runner.issued) ==> ok
    {
      for i := 0 to |SUBVOLUMES|
        invariant Ready() && Held(f)
        invariant runner.world == old(runner.world).(subvolumes := SubvolumeNames(i))
        invariant runner.issued >= old(runner.issued) && runner.devices == Current
      {
        NextName(i);
        ok := CreateOne(SUBVOLUMES[i].0, f);
        if !ok {
          return;
        }
      }
      ok := true;
      assert forall i | 0 <= i < |SUBVOLUMES| :: SUBVOLUMES[i].0 in SubvolumeNames(|SUBVOLUMES|);
    }

    method MountSubvolumes(device: Device, ghost f: Frame) returns (ok: bool)
      requires Ready() && Held(f)
      requires runner.world.mounts == [] && FsOf(runner.world, device) == Some(Btrfs)
      requires forall i | 0 <= i < |SUBVOLUMES| :: SUBVOLUMES[i].0 in runner.world.subvolumes
      requires runner.devices == Current
      modifies runner, this`mountAttempted
      ensures runner.devices == Current
      ensures Ready() && Held(f)
      ensures runner.world == old(runner.world).(mounts := runner.world.mounts)
      ensures ok ==> runner.world.mounts == SubvolumeMounts(device, |SUBVOLUMES|)
      ensures runner.issued >= old(runner.issued)
      ensures !runner.Faulty(old(runner.issued), runner.issued) ==> ok
    {
      for i := 0 to |SUBVOLUMES|
        invariant Ready() && Held(f)
        invariant runner.world == old(runner.world).(mounts := SubvolumeMounts(device, i))
        invariant runner.issued >= old(runner.issued) && runner.devices == Current
      {
        NextSubvolume(device, i);
        assert FsOf(runner.world, device) == Some(Btrfs);
        ok := MountAt(device, SUBVOLUMES[i].1, Btrfs, Some(SUBVOLUMES[i].0), f);
        if !ok {
          return;
        }
      }
      ok := true;
    }

    method MountRoot(fs: FsType, device: Device, subvolumes: bool, ghost f: Frame) returns (ok: bool)
      requires Ready() && Held(f) && runner.world.mounts == [] && FsOf(runner.world, device) == Some(fs)
      requires fs == Btrfs ==> runner.world.subvolumes == {}
      requires runner.devices == Current
      modifies runner, this`mountAttempted
      ensures runner.devices == Current
      ensures Ready() && Held(f)
      ensures runner.world ==
              old(runner.world).(mounts := runner.world.mounts, subvolumes := runner.world.subvolumes)
      ensures ok ==> runner.world.mounts == RootMounts(fs, device, subvolumes)
      ensures runner.issued >= old(runner.issued)
      ensures !runner.Faulty(old(runner.issued), runner.issued) ==> ok
    {
      ok := MountAt(device, [], fs, None, f);
      if !ok || fs != Btrfs || !subvolumes {
        return;
      }
      ok := CreateSubvolumes(device, f);
      if ok {
        ok := UnmountRoot(f);
      }
      if ok {
        ok := MountSubvolumes(device, f);
      }
    }

    method FormatBoot(n: nat, fs: FsType, ghost f: Frame) returns (ok: bool)
      requires Ready() && Held(f) && Has(runner.world.disk.partitions, n) && PartInside(runner.world, n, f.scope)
      requires runner.devices == Current
      modifies runner
      ensures ok ==> runner.devices == Current
      ensures Ready() && Held(f)
      ensures runner.world.mounts == old(runner.world.mounts) && runner.world.mapper == old(runner.world.mapper)
      ensures runner.world.mapperFs == old(runner.world.mapperFs)
      ensures Only(old(runner.world), runner.world, {n})
      ensures ok ==> FsOf(runner.world, Part(n)) == Some(fs) && Renewed(old(runner.world), runner.world, n)
      ensures runner.issued >= old(runner.issued)
      ensures !runner.Faulty(old(runner.issued), runner.issued) ==> ok || old(Busy(runner.world, n))
    {
      ok := MakeFilesystem(Part(n), fs, f);
      if ok {
        ok := Settled(f);
      }
    }

    /** An ESP is formatted on request and mounted as FAT; a BIOS boot partition is always formatted. */
    method PrepareBoot(n: nat, esp: bool, formatBoot: bool, ghost f: Frame) returns (ok: bool)
      requires Ready() && Held(f) && runner.world.mounts != []
      requires Has(runner.world.disk.partitions, n)
      requires forall m <- runner.world.mounts :: !(BOOT <= m.dir)
      requires formatBoot || !esp ==> PartInside(runner.world, n, f.scope)
      requires esp && !formatBoot ==> FsOf(runner.world, Part(n)) == Some(Vfat)
      requires runner.devices == Current
      modifies runner, this`mountAttempted
      ensures ok ==> runner.devices == Current
      ensures Ready() && Held(f) && runner.world.mapper == old(runner.world.mapper)
      ensures runner.world.mapperFs == old(runner.world.mapperFs)
      ensures Only(old(runner.world), runner.world, if formatBoot || !esp then {n} else {})
      ensures runner.world.mounts == old(runner.world.mounts) + BootMount(n, esp, ok)
      ensures ok && (formatBoot || !esp) ==> Renewed(old(runner.world), runner.world, n)
      ensures runner.issued >= old(runner.issued)
      ensures !runner.Faulty(old(runner.issued), runner.issued) ==> ok || old(Busy(runner.world, n))
    {
      var fs := if esp then Vfat else Ext4;
      if formatBoot || !esp {
        ok := FormatBoot(n, fs, f);
        if !ok {
          return;
        }
      }
      ghost var formatted := runner.world;
      ok := MountBoot(n, fs, f);
      OnlyThenMounts(old(runner.world), formatted, runner.world, if formatBoot || !esp then {n} else {});
    }

    method MountBoot(n: nat, fs: FsType, ghost f: Frame) returns (ok: bool)
      requires Ready() && Held(f) && runner.world.mounts != []
      requires forall m <- runner.world.mounts :: !(BOOT <= m.dir)
      requires FsOf(runner.world, Part(n)) == Some(fs)
      requires runner.devices == Current
      modifies runner, this`mountAttempted
      ensures runner.devices == Current
      ensures Ready() && Held(f) && runner.issued == old(runner.issued) + 1
      ensures runner.world == old(runner.world).(mounts := runner.world.mounts)
      ensures runner.world.mounts == old(runner.world.mounts) + if ok then [Mount(Part(n), BOOT, fs, None)] else []
      ensures ok == !runner.fails(old(runner.issued))
    {
      ok := MountAt(Part(n), BOOT, fs, None, f);
    }

    // -- the whole preparation -----------------------------------------------------------

    /** Opens the root: behind a fresh LUKS mapper when encryption is on. */
    method OpenRoot(c: Config, root: nat, ghost f: Frame) returns (ok: bool, device: Device)
      requires Ready() && Held(f) && runner.world.mounts == [] && runner.world.mapper == None
      requires Has(runner.world.disk.partitions, root) && PartInside(runner.world, root, f.scope)
      requires runner.devices == Current
      modifies runner, this
      ensures runner.devices == Current
      ensures Ready() && Held(f) && runner.issued >= old(runner.issued) && runner.world.mounts == []
      ensures Only(old(runner.world), runner.world, {root})
      ensures device == RootDevice(c, root)
      ensures ok ==> runner.world.mapper == if c.encrypt then Some(root) else None
      ensures !runner.Faulty(old(runner.issued), runner.issued) ==> ok || old(Busy(runner.world, root))
      ensures !c.encrypt ==> runner.world == old(runner.world)
      ensures ok && c.encrypt ==> Renewed(old(runner.world), runner.world, root)
      ensures ok && c.encrypt ==> runner.last == Some(Query)  // luksUUID is read
    {
      device := Part(root);
      ok := true;
      if c.encrypt {
        device := Mapper;
        ok := Encrypt(root, f);
        if ok {
          ok := Captured(f);
        }
      }
    }

    method PrepareRoot(c: Config, root: nat, ghost f: Frame) returns (ok: bool, device: Device)
      requires Ready() && Held(f) && runner.world.mounts == [] && runner.world.mapper == None
      requires Has(runner.world.disk.partitions, root) && PartInside(runner.world, root, f.scope)
      requires runner.devices == Current
      modifies runner, this
      ensures ok ==> runner.devices == Current
      ensures Ready() && Held(f) && runner.issued >= old(runner.issued)
      ensures Only(old(runner.world), runner.world, {root})
      ensures device == RootDevice(c, root)
      ensures ok ==> RootMounted(runner.world, c, root) && Renewed(old(runner.world), runner.world, root)
      ensures !runner.Faulty(old(runner.issued), runner.issued) ==> ok || old(Busy(runner.world, root))
    {
      ghost var w0 := runner.world;
      ok, device := OpenRoot(c, root, f);
      ghost var w1 := runner.world;
      if ok {
        OpenedInside(w0, w1, root, f.scope);
        ok := FormatRoot(c.filesystem, device, f);
        TouchedOnly(w0, w1, runner.world, root, device);
      }
      if ok {
        ok := MountRoot(c.filesystem, device, c.subvolumes, f);
      }
    }

    /** Everything after the layout: encryption, filesystems, mounts. */
    method Finish(c: Config, root: nat, boot: Option<nat>, formatBoot: bool, ghost f: Frame)
      returns (r: Outcome<Prepared>)
      requires Ready() && Held(f) && Laid(runner.world, c, root, boot, formatBoot, f.scope)
      requires runner.devices == Current
      modifies runner, this
      ensures r.Done? ==> runner.devices == Current
      ensures Ready() && Held(f) && runner.issued >= old(runner.issued)
      ensures Only(old(runner.world), runner.world, {root} + BootSet(boot))
      ensures !r.Refused?
      ensures r.Done? ==> Mounted(runner.world, c, root, boot)
                          && r.value == Prepared(root, RootDevice(c, root), boot, c.firmware == Uefi,
                                                 if c.firmware == Uefi then boot else None)
      ensures r.Done? ==> Renewed(old(runner.world), runner.world, root)
      ensures r.Done? && boot.Some? && (formatBoot || c.firmware == Bios) ==>
                Renewed(old(runner.world), runner.world, boot.value)
      ensures !runner.Faulty(old(runner.issued), runner.issued) ==>
                r.Done? || !old(Smooth(runner.world, root, boot))
      ensures r.Done? ==> runner.last == Some(Query)  // the root's UUID is read
    {
      var esp := c.firmware == Uefi;
      ghost var w0 := runner.world;
      var ok, device := PrepareRoot(c, root, f);
      OnlyMore(w0, runner.world, {root}, {root} + BootSet(boot));
      if !ok {
        return Failed;
      }
      if boot.Some? {
        ok := FinishBoot(c, root, boot.value, formatBoot, w0, f);
        if !ok {
          return Failed;
        }
      }
      ok := Captured(f);
      r := if ok then Done(Prepared(root, device, boot, esp, if esp then boot else None)) else Failed;
    }

    /** The boot partition, once the root is mounted. */
    method FinishBoot(c: Config, root: nat, boot: nat, formatBoot: bool, ghost w0: World, ghost f: Frame)
      returns (ok: bool)
      requires Ready() && Held(f) && Laid(w0, c, root, Some(boot), formatBoot, f.scope)
      requires Only(w0, runner.world, {root}) && RootMounted(runner.world, c, root)
      requires runner.devices == Current
      modifies runner, this`mountAttempted
      ensures ok ==> runner.devices == Current
      ensures Ready() && Held(f) && runner.issued >= old(runner.issued)
      ensures Only(w0, runner.world, {root} + {boot})
      ensures ok ==> Mounted(runner.world, c, root, Some(boot))
      ensures old(runner.world.written) <= runner.world.written
      ensures ok && (formatBoot || c.firmware == Bios) ==> Renewed(w0, runner.world, boot)
      ensures !runner.Faulty(old(runner.issued), runner.issued) ==> ok || Busy(w0, boot)
    {
      var esp := c.firmware == Uefi;
      ghost var w1 := runner.world;
      BootStays(w0, w1, c, root, boot, formatBoot, f.scope);
      ok := PrepareBoot(boot, esp, formatBoot, f);
      BootOnly(w0, w1, runner.world, root, boot, formatBoot || !esp);
      RootDeviceStays(c, root, boot, w1, runner.world);
      if ok && (formatBoot || c.firmware == Bios) {
        RenewedAfter(w0, w1, runner.world, boot, {root});
      }
    }

    method Captured(ghost f: Frame) returns (ok: bool)
      requires Ready() && Held(f)
      requires runner.devices == Current
      modifies runner
      ensures runner.devices == Current
      ensures Ready() && Held(f) && runner.issued == old(runner.issued) + 1
      ensures runner.world == old(runner.world) && ok == !runner.fails(old(runner.issued))
      ensures ok ==> runner.last == Some(Query)
    {
      ok := Do(Query, f);
    }

    method PrepareErase(c: Config) returns (r: Outcome<Prepared>)
      requires Ready() && Validated(c) && c.layout == Erase && Idle(runner.world, c)
      requires runner.devices == Current
      modifies runner, this
      ensures Ready() && runner.issued >= old(runner.issued)
      ensures r.Done? ==> Mounted(runner.world, c, r.value.rootPartition, r.value.boot)
                          && ErasedFor(runner.world, old(runner.world.disk), c, r.value.rootPartition, r.value.boot)
      ensures !r.Refused? && (r.Done? ==> old(DiskIdle(runner.world)))
      ensures !runner.Faulty(old(runner.issued), runner.issued) ==> (r.Done? <==> old(DiskIdle(runner.world)))
      ensures r.Done? ==> Describes(r.value, c)
    {
      var laid, f := EraseLayout(c);
      if !laid.Done? {
        return Failed;
      }
      var (root, boot) := laid.value;
      ghost var w1 := runner.world;
      ErasedIsLaid(w1, c, root, boot, f);
      r := Finish(c, root, boot, boot.Some?, f);
      OnlyKeepsTable(w1, runner.world, {root} + BootSet(boot), EraseBounds(c, f.base.disk));
    }

    method PrepareFree(c: Config) returns (r: Outcome<Prepared>)
      requires Ready() && c.layout == FreeSpace && c.firmware == Uefi
      requires runner.world.mounts == [] && runner.world.mapper == None
      requires runner.devices == Current
      modifies runner, this
      ensures Ready() && runner.issued >= old(runner.issued)
      ensures OldKept(old(runner.world), runner.world)
      ensures r.Done? ==> Mounted(runner.world, c, r.value.rootPartition, r.value.boot)
                          && r.value.boot.Some?
                          && Tiled(old(runner.world), runner.world, r.value.rootPartition, r.value.boot.value)
      ensures !runner.Faulty(old(runner.issued), runner.issued) ==>
                (r.Done? <==> old(runner.world.disk.table) == Some(Gpt) && old(Enough(runner.world.disk)))
                && !r.Failed?
      ensures r.Done? ==> Describes(r.value, c)
    {
      ghost var w0 := runner.world;
      var laid, f, region := FreeSpaceLayout();
      FrameIsClear(f, region);
      if !laid.Done? {
        KeptIsOldKept(f, runner.world);
        return if laid.Refused? then Refused(laid.reason) else Failed;
      }
      var (root, esp) := laid.value;
      ghost var w1 := runner.world;
      assert w1 == Adopted(w0, region) && w1.mounts == [] && w1.mapper == None && (esp, Esp) in w1.flags;
      PairIsLaid(f, region, w1, c, root, esp);
      r := Finish(c, root, Some(esp), true, f);
      KeptIsOldKept(f, runner.world);
      PairStaysTiled(f, region, w1, runner.world, root, esp);
    }

    method PrepareShrunk(c: Config) returns (r: Outcome<Prepared>)
      requires Ready() && c.layout == FreeSpace && c.firmware == Uefi && c.shrink.Some?
      requires runner.world.mounts == [] && runner.world.mapper == None
      requires runner.devices == Current
      modifies runner, this
      ensures Ready() && runner.issued >= old(runner.issued)
      ensures ShrunkKept(old(runner.world), runner.world, c.shrink.value, RoundedSize(c.shrinkSize))
      ensures r.Done? ==> Mounted(runner.world, c, r.value.rootPartition, r.value.boot)
                          && r.value.boot.Some?
                          && ShrinkChecks(old(runner.world.disk), c.shrink.value, c.shrinkSize)
                          && Tiled(TableShrunk(old(runner.world), c.shrink.value, RoundedSize(c.shrinkSize)),
                                   runner.world, r.value.rootPartition, r.value.boot.value)
      ensures !runner.Faulty(old(runner.issued), runner.issued) ==>
                (r.Done? <==> ShrunkEnough(old(runner.world), c.shrink.value, c.shrinkSize)) && !r.Failed?
      ensures r.Done? ==> Describes(r.value, c)
    {
      ghost var w0, bytes := runner.world, RoundedSize(c.shrinkSize);
      var n := c.shrink.value;
      var shrunk := ShrinkPartition(n, c.shrinkSize);
      ghost var w1 := runner.world;
      if !shrunk.Done? {
        StageKept(w0, w1, n, bytes);
        return if shrunk.Refused? then Refused(shrunk.reason) else Failed;
      }
      r := PrepareFree(c);
      InstalledKept(w0, runner.world, n, bytes);
    }

    method PrepareExisting(c: Config) returns (r: Outcome<Prepared>)
      requires Ready() && Validated(c) && c.layout == Partitions
      requires runner.world.mounts == [] && runner.world.mapper == None
      requires runner.devices == Current
      modifies runner, this
      ensures Ready() && runner.issued >= old(runner.issued)
      ensures Only(old(runner.world), runner.world, {c.root.value, c.boot.value})
      ensures Kept(old(runner.world), runner.world, ExistingFrame(old(runner.world), c).scope)
      ensures r.Done? ==> Mounted(runner.world, c, r.value.rootPartition, r.value.boot)
                          && r.value.rootPartition == c.root.value && r.value.boot == c.boot
                          && Renewed(old(runner.world), runner.world, c.root.value)
                          && (c.formatBoot ==> Renewed(old(runner.world), runner.world, c.boot.value)
                                               && (c.boot.value, Esp) in runner.world.flags)
      ensures !runner.Faulty(old(runner.issued), runner.issued) ==>
                (r.Done? <==> Installable(old(runner.world.disk), c)) && !r.Failed?
      ensures r.Done? ==> Describes(r.value, c)
    {
      ghost var w0 := runner.world;
      var laid, f := ExistingLayout(c);
      ghost var w1 := runner.world;
      if !laid.Done? {
        OnlyMore(w0, w1, {c.root.value}, {c.root.value, c.boot.value});
        return if laid.Refused? then Refused(laid.reason) else Failed;
      }
      var (root, boot) := laid.value;
      ExistingIsLaid(w0, w1, c, f);
      r := Finish(c, root, Some(boot), c.formatBoot, f);
      OnlyTrans(w0, w1, runner.world, {root}, {root} + BootSet(Some(boot)));
      OnlyMore(w0, runner.world, {root} + ({root} + BootSet(Some(boot))), {root, boot});
      if r.Done? {
        RenewedAfter(w0, w1, runner.world, root, {root});
        if c.formatBoot { RenewedAfter(w0, w1, runner.world, boot, {root}); }
      }
    }

    // -- teardown ---------------------------------------------------------------------------

    /** Unmounts everything and then closes the mapper, ignoring failures. The target ends unmounted
        unless that command itself fails, and the mapper ends closed unless its command fails or
        something on it is still mounted: unmounting comes first for that reason. */
    method Teardown()
      requires Ready()
      modifies runner
      ensures runner.Valid() && runner.world.disk == old(runner.world.disk)
      ensures runner.world.written == old(runner.world.written)
      ensures runner.issued == old(runner.issued) + (if mountAttempted then 1 else 0) + (if luksOpened then 1 else 0)
      ensures runner.world.mounts ==
              if runner.fails(old(runner.issued)) then old(runner.world.mounts) else []
      ensures runner.world.mapper == None <==>
              || old(runner.world.mapper) == None
              || (!runner.fails(old(runner.issued) + if mountAttempted then 1 else 0)
                  && forall m <- runner.world.mounts :: m.device != Mapper)
    {
      if mountAttempted {
        UnmountEverything();
      }
      if luksOpened {
        CloseMapper();
      }
    }

    method UnmountEverything()
      requires runner.Valid()
      modifies runner
      ensures runner.Valid() && runner.issued == old(runner.issued) + 1
      ensures runner.world ==
              if runner.fails(old(runner.issued)) then old(runner.world) else old(runner.world).(mounts := [])
    {
      var _ := runner.Run(UmountAll);
    }

    method CloseMapper()
      requires runner.Valid()
      modifies runner
      ensures runner.Valid() && runner.issued == old(runner.issued) + 1
      ensures runner.world == old(runner.world) || runner.world == old(runner.world).(mapper := None)
      ensures runner.world.mapper == None <==>
              || old(runner.world.mapper) == None
              || (!runner.fails(old(runner.issued)) && forall m <- old(runner.world.mounts) :: m.device != Mapper)
    {
      var _ := runner.Run(LuksClose);
    }

    /** Lays out, encrypts, formats and mounts. Whatever fails, everything mounted or opened is noted
        for teardown and no data outside the configuration's choice is lost; without a fault it
        succeeds exactly when the checks the configuration calls for hold, and a disk to be erased is
        not in use. */
    method Prepare(c: Config) returns (r: Outcome<Prepared>)
      requires Ready() && Validated(c) && Idle(runner.world, c)
      requires runner.devices == Current
      modifies runner, this
      ensures Ready() && runner.issued >= old(runner.issued)
      ensures DataSafe(old(runner.world), runner.world, c)
      ensures r.Done? ==> Mounted(runner.world, c, r.value.rootPartition, r.value.boot)
      ensures r.Done? && c.layout == Erase ==>
                ErasedFor(runner.world, old(runner.world.disk), c, r.value.rootPartition, r.value.boot)
      ensures r.Done? && c.layout == Partitions ==>
                && r.value.rootPartition == c.root.value && r.value.boot == c.boot
                && Renewed(old(runner.world), runner.world, c.root.value)
                && (c.formatBoot ==> Renewed(old(runner.world), runner.world, c.boot.value)
                                     && (c.boot.value, Esp) in runner.world.flags)
      ensures r.Done? && c.layout == FreeSpace ==>
                r.value.boot.Some? && Tiled(AfterShrink(old(runner.world), c), runner.world,
                                            r.value.rootPartition, r.value.boot.value)
      ensures !runner.Faulty(old(runner.issued), runner.issued) ==>
                && (r.Done? <==> Acceptable(old(runner.world), c))
                && (r.Failed? ==> c.layout == Erase && !old(DiskIdle(runner.world)))
      ensures r.Done? ==> Describes(r.value, c)
    {
      ghost var w0 := runner.world;
      match c.layout {
        case Erase =>
          r := PrepareErase(c);
        case FreeSpace =>
          if c.shrink.Some? {
            r := PrepareShrunk(c);
          } else {
            r := PrepareFree(c);
          }
        case Partitions =>
          r := PrepareExisting(c);
          ExistingBytesKept(w0, runner.world, c);
      }
    }

    /** Any later command, run inside the mounted target. */
    method RunInTarget() returns (ok: bool)
      requires Ready()
      modifies runner
      ensures Ready() && runner.world == old(runner.world) && runner.issued == old(runner.issued) + 1
      ensures ok == (!runner.fails(old(runner.issued)) && runner.world.mounts != [])
    {
      ok := runner.Run(InTarget);
    }

    /** Up to `later` commands, stopping at the first that fails. */
    method RunLater(later: nat) returns (ok: bool)
      requires Ready() && runner.world.mounts != []
      modifies runner
      ensures Ready() && runner.world == old(runner.world) && runner.issued >= old(runner.issued)
      ensures !runner.Faulty(old(runner.issued), runner.issued) ==> ok
    {
      ok := true;
      for i := 0 to later
        invariant Ready() && runner.world == old(runner.world) && runner.issued >= old(runner.issued)
        invariant ok
      {
        ok := RunInTarget();
        if !ok {
          return;
        }
      }
    }

    method RunInside(c: Config, prepared: Outcome<Prepared>, later: nat) returns (ok: bool)
      requires Ready()
      requires prepared.Done? ==> Mounted(runner.world, c, prepared.value.rootPartition, prepared.value.boot)
      modifies runner
      ensures Ready() && runner.world == old(runner.world) && runner.issued >= old(runner.issued)
      ensures ok ==> prepared.Done?
      ensures prepared.Done? && !runner.Faulty(old(runner.issued), runner.issued) ==> ok
    {
      ok := prepared.Done?;
      if ok {
        MountedSomething(runner.world, c, prepared.value.rootPartition, prepared.value.boot);
        ok := RunLater(later);
      }
    }

    /** The whole installation: preparation, then up to `later` commands inside the target, and the
        teardown whichever of them failed. `torn` is where the teardown's own commands begin. */
    method Install(c: Config, later: nat) returns (ok: bool, ghost torn: nat)
      requires Ready() && Validated(c) && Idle(runner.world, c)
      requires runner.devices == Current
      modifies runner, this
      ensures runner.Valid() && old(runner.issued) <= torn <= runner.issued
      ensures DataSafe(old(runner.world), runner.world, c)
      ensures !runner.Faulty(torn, runner.issued) ==> runner.world.mounts == [] && runner.world.mapper == None
      ensures !runner.Faulty(old(runner.issued), torn) ==> (ok <==> Acceptable(old(runner.world), c))
    {
      ghost var w0 := runner.world;
      var prepared := Prepare(c);
      ghost var w1 := runner.world;
      ok := RunInside(c, prepared, later);
      torn := runner.issued;
      Teardown();
      SafeAfterTeardown(w0, w1, runner.world, c);
    }
  }

  lemma SubvolumeNamesDistinct(i: nat)
    requires i < |SUBVOLUMES|
    ensures forall j | 0 <= j < i :: SUBVOLUMES[j].0 != SUBVOLUMES[i].0
  {
    assert |"@"| == 1 && |"@home"| == 5 && |"@log"| == 4 && |"@pkg"| == 4 && |"@snapshots"| == 10;
    assert "@log"[1] != "@pkg"[1];
  }

  /** A later mount point is never at or above an earlier one. */
  lemma SubvolumeDirsNest(i: nat)
    requires i < |SUBVOLUMES|
    ensures forall j | 0 <= j < i :: !(SUBVOLUMES[i].1 <= SUBVOLUMES[j].1)
    ensures SUBVOLUMES[i].1 == [] <==> i == 0
    ensures !(BOOT <= SUBVOLUMES[i].1)
  {
    assert |"home"| == 4 && |"var"| == 3 && |".snapshots"| == 10 && |"boot"| == 4;
    assert "home"[0] != "boot"[0];
    assert SUBVOLUMES[1].1[0] == "home" && SUBVOLUMES[2].1[0] == "var" && SUBVOLUMES[3].1[0] == "var";
    assert SUBVOLUMES[4].1[0] == ".snapshots" && BOOT[0] == "boot";
    forall j | 0 <= j < i ensures !(SUBVOLUMES[i].1 <= SUBVOLUMES[j].1) {
      NotPrefix(SUBVOLUMES[i].1, SUBVOLUMES[j].1);
    }
    NotPrefix(BOOT, SUBVOLUMES[i].1);
  }

  lemma NotPrefix(a: seq<string>, b: seq<string>)
    requires a != [] && (|b| < |a| || a[0] != b[0])
    ensures !(a <= b)
  {
  }
}
