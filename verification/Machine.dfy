/**
 What the storage commands do to the machine: partition table, filesystems, the LUKS mapper, the
 mounts under the target, and which bytes have been overwritten. A command either takes effect or
 fails without any; `Possible` says when it can succeed at all.
 */
module Machine {
  import opened Common
  import opened Disk
  import opened Intervals

  datatype Device = Part(number: nat) | Mapper

  // `dir` is the mount point's path below the target, component by component.
  datatype Mount = Mount(device: Device, dir: seq<string>, fs: FsType, subvolume: Option<string>)

  datatype Extent = Extent(start: int, end: int)

  datatype Flag = Esp | BiosGrub

  /** `mapper` is the partition behind the open LUKS mapper, `mapperFs` the filesystem inside it;
      `written` lists the byte ranges that wiping, formatting and labelling have overwritten, and
      `flags` says which partitions carry which flag in the table. */
  datatype World = World(
    disk: Disk,
    mapper: Option<nat>,
    mapperFs: FsType,
    subvolumes: set<string>,
    mounts: seq<Mount>,
    written: seq<Extent>,
    flags: set<(nat, Flag)>)

  datatype Command =
    | WipeDisk
    | MakeLabel
    | MakePartition(startSector: int, endSector: int)
    | SetFlag(number: nat, flag: Flag)
    | Partprobe
    | Settle
    | Wipe(number: nat)
    | NtfsTest(number: nat, bytes: int)
    | NtfsResize(number: nat, bytes: int)
    | Fsck(number: nat)
    | Resize2fs(number: nat, kib: int)
    | Sfdisk(number: nat, sectors: int)
    | LuksFormat(number: nat)
    | LuksOpen(number: nat)
    | LuksClose
    | MakeFs(device: Device, fs: FsType)
    | MountFs(device: Device, dir: seq<string>, fs: FsType, subvolume: Option<string>)
    | CreateSubvolume(name: string)
    | Umount
    | UmountAll
    | Query                 // blkid, luksUUID: read only
    | InTarget              // anything run later inside the mounted target

  // GPT keeps a protective MBR, a header and at least 16 KiB of entries at each end of the disk
  // (section 5.3 of the UEFI specification).
  const ENTRY_BYTES: int := 16384

  function PartitionStart(d: Disk, startSector: int): int {
    startSector * d.sector
  }

  function PartitionEnd(d: Disk, endSector: int): int {
    (endSector + 1) * d.sector - 1
  }

  function Numbers(parts: seq<Partition>): set<nat> {
    set p <- parts :: p.number
  }

  function AtLeast(used: set<nat>, from: nat): set<nat> {
    set x <- used | from <= x
  }

  /** parted numbers a new GPT partition with the lowest number not in use. */
  function FirstUnused(used: set<nat>, from: nat): (n: nat)
    ensures n !in used && from <= n
    decreases AtLeast(used, from)
  {
    if from !in used then from
    else
      assert AtLeast(used, from + 1) < AtLeast(used, from) by {
        assert from in AtLeast(used, from) && from !in AtLeast(used, from + 1);
      }
      FirstUnused(used, from + 1)
  }

  function Place(parts: seq<Partition>, start: int): (k: nat)
    ensures k <= |parts|
    ensures forall i | 0 <= i < k :: parts[i].start <= start
    ensures k < |parts| ==> start < parts[k].start
  {
    if parts == [] || start < parts[0].start then 0 else 1 + Place(parts[1..], start)
  }

  function Insert(parts: seq<Partition>, p: Partition): seq<Partition> {
    var k := Place(parts, p.start);
    parts[..k] + [p] + parts[k..]
  }

  function NewPartition(d: Disk, startSector: int, endSector: int): Partition {
    Partition(FirstUnused(Numbers(d.partitions), 1), PartitionStart(d, startSector), PartitionEnd(d, endSector),
              Unknown, 0, 0, false)
  }

  function FsOf(w: World, device: Device): Option<FsType> {
    match device
    case Part(n) => if Has(w.disk.partitions, n) then Some(Get(w.disk.partitions, n).fs) else None
    case Mapper => if w.mapper.Some? then Some(w.mapperFs) else None
  }

  /** In use by the live system, by a mount under the target or by the mapper. */
  predicate Busy(w: World, number: nat) {
    (Has(w.disk.partitions, number) && Get(w.disk.partitions, number).mounted) || InUse(w, number)
  }

  /** In use by a mount under the target or by the mapper. */
  predicate InUse(w: World, number: nat) {
    w.mapper == Some(number) || exists m <- w.mounts :: m.device == Part(number)
  }

  predicate DiskIdle(w: World) {
    w.mounts == [] && w.mapper == None && forall p <- w.disk.partitions :: !p.mounted
  }

  predicate Resizable(w: World, number: nat, fs: FsType, bytes: int) {
    && Has(w.disk.partitions, number)
    && !Busy(w, number)
    && var p := Get(w.disk.partitions, number);
       p.fs == fs && p.minimum <= bytes <= p.Size()
  }

  predicate FitsTable(d: Disk, start: int, end: int) {
    && d.lo <= start <= end <= d.hi
    && forall p <- d.partitions :: Apart(start, end, p.start, p.end)
  }

  /** The device really holds that filesystem, the target's root is mounted first, nothing already
      mounted would be hidden, and the subvolume exists. */
  predicate Mountable(w: World, device: Device, dir: seq<string>, fs: FsType, subvolume: Option<string>) {
    && FsOf(w, device) == Some(fs)
    && (dir == [] <==> w.mounts == [])
    && (forall m <- w.mounts :: !(dir <= m.dir))
    && (subvolume.Some? ==> fs == Btrfs && subvolume.value in w.subvolumes)
  }

  /** When a command can succeed. */
  predicate Possible(w: World, c: Command) {
    match c
    case WipeDisk => true  // both wipes are forced
    case MakeLabel => DiskIdle(w)
    case MakePartition(s, e) =>
      w.disk.table == Some(Gpt) && FitsTable(w.disk, PartitionStart(w.disk, s), PartitionEnd(w.disk, e))
    case SetFlag(n, _) => Has(w.disk.partitions, n)
    case Partprobe => true
    case Settle => true
    case Wipe(n) => Has(w.disk.partitions, n)
    case NtfsTest(n, bytes) => Resizable(w, n, Ntfs, bytes)
    case NtfsResize(n, bytes) => Resizable(w, n, Ntfs, bytes)
    case Fsck(n) => Has(w.disk.partitions, n) && !Busy(w, n) && Get(w.disk.partitions, n).fs == Ext4
    case Resize2fs(n, kib) => Resizable(w, n, Ext4, kib * 1024)
    case Sfdisk(n, sectors) =>
      && Has(w.disk.partitions, n) && 0 < sectors
      && var p := Get(w.disk.partitions, n);
         p.start + sectors * w.disk.sector - 1 <= p.end
    case LuksFormat(n) => Has(w.disk.partitions, n) && !Busy(w, n)
    case LuksOpen(n) => FsOf(w, Part(n)) == Some(Luks) && w.mapper == None
    case LuksClose => w.mapper.Some? && forall m <- w.mounts :: m.device != Mapper
    case MakeFs(device, _) =>
      match device {
        case Part(n) => Has(w.disk.partitions, n) && !Busy(w, n)
        case Mapper => w.mapper.Some? && forall m <- w.mounts :: m.device != Mapper
      }
    case MountFs(device, dir, fs, subvolume) => Mountable(w, device, dir, fs, subvolume)
    case CreateSubvolume(name) =>
      w.mounts != [] && w.mounts[0].fs == Btrfs && name !in w.subvolumes
    case Umount => |w.mounts| == 1
    case UmountAll => w.mounts != []
    case Query => true
    case InTarget => w.mounts != []
  }

  function Reformatted(w: World, number: nat, fs: FsType): World
    requires Has(w.disk.partitions, number)
  {
    var p := Get(w.disk.partitions, number);
    w.(disk := w.disk.(partitions := Put(w.disk.partitions, p.(fs := fs, fsBytes := p.Size(), minimum := 0))),
       written := w.written + [Extent(p.start, p.end)])
  }

  function FsResized(w: World, number: nat, bytes: int): World
    requires Has(w.disk.partitions, number)
  {
    w.(disk := w.disk.(partitions :=
         Put(w.disk.partitions, Get(w.disk.partitions, number).(fsBytes := bytes))))
  }

  function Flagged(w: World, number: nat, flag: Flag): World {
    w.(flags := w.flags + {(number, flag)})
  }

  /** What a command that succeeds does. */
  function Effect(w: World, c: Command): World
    requires Possible(w, c)
  {
    match c
    case WipeDisk => w.(written := w.written + [Extent(0, w.disk.size - 1)])
    case MakeLabel =>
      w.(disk := w.disk.(table := Some(Gpt), partitions := [],
                         lo := 2 * w.disk.sector + ENTRY_BYTES,
                         hi := w.disk.size - w.disk.sector - ENTRY_BYTES - 1),
         written := w.written + [Extent(0, w.disk.size - 1)], flags := {})
    case MakePartition(s, e) =>
      w.(disk := w.disk.(partitions := Insert(w.disk.partitions, NewPartition(w.disk, s, e))))
    case SetFlag(n, flag) => Flagged(w, n, flag)
    case Partprobe => w
    case Settle => w
    case Wipe(n) => Reformatted(w, n, Unknown)
    case NtfsTest(_, _) => w
    case NtfsResize(n, bytes) => FsResized(w, n, bytes)
    case Fsck(_) => w
    case Resize2fs(n, kib) => FsResized(w, n, kib * 1024)
    case Sfdisk(n, sectors) =>
      var p := Get(w.disk.partitions, n);
      w.(disk := w.disk.(partitions :=
           Put(w.disk.partitions, p.(end := p.start + sectors * w.disk.sector - 1))))
    case LuksFormat(n) => Reformatted(w, n, Luks)
    case LuksOpen(n) => w.(mapper := Some(n), mapperFs := Unknown)
    case LuksClose => w.(mapper := None)
    case MakeFs(device, fs) =>
      match device {
        case Part(n) => Reformatted(w, n, fs).(subvolumes := if fs == Btrfs then {} else w.subvolumes)
        case Mapper => w.(mapperFs := fs, subvolumes := if fs == Btrfs then {} else w.subvolumes)
      }
    case MountFs(device, dir, fs, subvolume) => w.(mounts := w.mounts + [Mount(device, dir, fs, subvolume)])
    case CreateSubvolume(name) => w.(subvolumes := w.subvolumes + {name})
    case Umount => w.(mounts := [])
    case UmountAll => w.(mounts := [])
    case Query => w
    case InTarget => w
  }

  /** What the device nodes show: the table as it is, a table the kernel has not read again, or one
      whose events udev has still to work off, as after a mkfs. */
  datatype Devices = Current | Pending | Unread

  function DevicesAfter(devices: Devices, c: Command): Devices {
    match c
    case MakeLabel => Unread
    case MakePartition(_, _) => Unread
    case Sfdisk(_, _) => Unread
    case MakeFs(_, _) => if devices == Unread then Unread else Pending
    case Partprobe => Pending
    case Settle => if devices == Unread then Unread else Current
    case _ => devices
  }

  predicate UsesDevices(c: Command) {
    || c.Wipe? || c.NtfsTest? || c.NtfsResize? || c.Fsck? || c.Resize2fs? || c.LuksFormat? || c.LuksOpen?
    || c.MakeFs? || c.MountFs? || c.Query?
  }

  /** What has to come before a command: devices are used only once udev has caught up, and a
      filesystem is resized only directly behind a rehearsal or check that went through. */
  predicate InTurn(last: Option<Command>, devices: Devices, c: Command) {
    && (UsesDevices(c) ==> devices == Current)
    && (c.NtfsResize? ==> last == Some(NtfsTest(c.number, c.bytes)))
    && (c.Resize2fs? ==> last == Some(Fsck(c.number)))
  }

  // -- what every command keeps ---------------------------------------------------

  /** No filesystem is larger than its partition. */
  ghost predicate FsFits(d: Disk) {
    forall p <- d.partitions :: p.fsBytes <= p.Size()
  }

  /** Mounts show the filesystem their device really has, parents come before children, and an
      open mapper sits on a LUKS partition. */
  ghost predicate MountsOk(w: World) {
    && (w.mapper.Some? ==> FsOf(w, Part(w.mapper.value)) == Some(Luks))
    && (forall m <- w.mounts :: FsOf(w, m.device) == Some(m.fs))
    && (w.mounts != [] ==> w.mounts[0].dir == [])
    && (forall i, j | 0 <= i < j < |w.mounts| :: !(w.mounts[j].dir <= w.mounts[i].dir))
  }

  ghost predicate WorldOk(w: World) {
    && DiskOk(w.disk)
    && FsFits(w.disk)
    && MountsOk(w)
    && MIB <= w.disk.size && w.disk.size % w.disk.sector == 0
    && ENTRY_BYTES % w.disk.sector == 0
  }

  const EMPTY_WORLD: World :=
    World(Disk(MIB, None, 512, 0, MIB - 1, []), None, Unknown, {}, [], [], {})

  /** A world in order. */
  type OrderlyWorld = w: World | WorldOk(w) ghost witness EMPTY_WORLD

  /** What a caller has to see to: a partition is shrunk only after its filesystem, and a forced wipe
      does not hit what the installation itself uses. */
  ghost predicate Careful(w: World, c: Command) {
    && (c.Sfdisk? && Possible(w, c) ==>
          Get(w.disk.partitions, c.number).fsBytes <= c.sectors * w.disk.sector)
    && (c.Wipe? ==> !InUse(w, c.number))
  }

  lemma PutFacts(parts: seq<Partition>, p: Partition)
    requires DistinctNumbers(parts) && Has(parts, p.number)
    ensures var q := Put(parts, p);
            && |q| == |parts| && DistinctNumbers(q)
            && Has(q, p.number) && Get(q, p.number) == p
            && (forall x | x in q :: x == p || (x in parts && x.number != p.number))
            && (forall x | x in parts && x.number != p.number :: x in q)
            && (forall n | n != p.number :: Has(q, n) == Has(parts, n))
            && (forall n | n != p.number && Has(parts, n) :: Get(q, n) == Get(parts, n))
  {
    var q := Put(parts, p);
    var k := IndexOf(parts, p.number);
    assert forall i | 0 <= i < |parts| && i != k :: q[i] == parts[i];
    assert q[k] == p;
    assert DistinctNumbers(q);
    assert Has(q, p.number);
    forall x | x in parts && x.number != p.number ensures x in q {
      var i :| 0 <= i < |parts| && parts[i] == x;
      assert q[i] == x;
    }
    forall n | n != p.number ensures Has(q, n) == Has(parts, n) {
      if i :| 0 <= i < |parts| && parts[i].number == n {
        assert q[i].number == n;
      }
      if i :| 0 <= i < |q| && q[i].number == n {
        assert parts[i].number == n;
      }
    }
    forall n | n != p.number && Has(parts, n) ensures Get(q, n) == Get(parts, n) {
      var i := IndexOf(parts, n);
      assert q[i] == parts[i];
    }
  }

  lemma InsertAt(parts: seq<Partition>, p: Partition, i: nat)
    requires i <= |parts|
    ensures var q, k := Insert(parts, p), Place(parts, p.start);
            && |q| == |parts| + 1
            && q[i] == if i < k then parts[i] else if i == k then p else parts[i - 1]
  {
  }

  lemma InsertDistinct(parts: seq<Partition>, p: Partition)
    requires DistinctNumbers(parts) && forall o <- parts :: o.number != p.number
    ensures DistinctNumbers(Insert(parts, p))
  {
    var q := Insert(parts, p);
    forall i, j | 0 <= i < j < |q| ensures q[i].number != q[j].number {
      InsertAt(parts, p, i);
      InsertAt(parts, p, j);
    }
  }

  lemma InsertMembers(parts: seq<Partition>, p: Partition)
    requires DistinctNumbers(parts) && p.number !in Numbers(parts)
    ensures var q := Insert(parts, p);
            && |q| == |parts| + 1 && DistinctNumbers(q)
            && (forall x :: x in q <==> x == p || x in parts)
  {
    forall o | o in parts ensures o.number != p.number {
      assert o.number in Numbers(parts);
    }
    InsertDistinct(parts, p);
    var k := Place(parts, p.start);
    assert parts == parts[..k] + parts[k..];
  }

  lemma InsertFacts(parts: seq<Partition>, p: Partition)
    requires DistinctNumbers(parts) && p.number !in Numbers(parts)
    ensures var q := Insert(parts, p);
            && |q| == |parts| + 1 && DistinctNumbers(q)
            && Has(q, p.number) && Get(q, p.number) == p
            && (forall x :: x in q <==> x == p || x in parts)
            && (forall n | n != p.number :: Has(q, n) == Has(parts, n))
            && (forall n | n != p.number && Has(parts, n) :: Get(q, n) == Get(parts, n))
  {
    InsertMembers(parts, p);
    SameLookups(parts, Insert(parts, p), p);
  }

  lemma SameLookups(parts: seq<Partition>, q: seq<Partition>, p: Partition)
    requires DistinctNumbers(parts) && DistinctNumbers(q)
    requires forall x :: x in q <==> x == p || x in parts
    ensures Has(q, p.number) && Get(q, p.number) == p
    ensures forall n | n != p.number :: Has(q, n) == Has(parts, n)
    ensures forall n | n != p.number && Has(parts, n) :: Get(q, n) == Get(parts, n)
  {
    GetUnique(q, p);
    forall n | n != p.number ensures Has(q, n) == Has(parts, n) && (Has(parts, n) ==> Get(q, n) == Get(parts, n)) {
      if Has(parts, n) {
        GetUnique(q, Get(parts, n));
      } else if Has(q, n) {
        GetUnique(parts, Get(q, n));
      }
    }
  }

  lemma InsertOrdered(d: Disk, p: Partition)
    requires DiskOk(d) && FitsTable(d, p.start, p.end)
    ensures Ordered(Insert(d.partitions, p))
  {
    var parts := d.partitions;
    var q := Insert(parts, p);
    var k := Place(parts, p.start);
    assert forall i | 0 <= i < |q| :: q[i] == if i < k then parts[i] else if i == k then p else parts[i - 1];
    forall i | 0 <= i < |parts| ensures PartOk(d, parts[i]) && Apart(p.start, p.end, parts[i].start, parts[i].end) {
      assert parts[i] in parts;
    }
    forall i | k <= i < |parts| ensures p.end < parts[i].start {
      assert parts[k].start <= parts[i].start;
    }
  }

  lemma SectorBounds(d: Disk, startSector: int, endSector: int)
    requires 0 < d.sector
    ensures PartitionStart(d, startSector) % d.sector == 0
    ensures (PartitionEnd(d, endSector) + 1) % d.sector == 0
  {
    MulMod(d.sector, startSector);
    MulMod(d.sector, endSector + 1);
    assert d.sector * startSector == startSector * d.sector;
    assert d.sector * (endSector + 1) == (endSector + 1) * d.sector;
  }

  lemma PutKeepsDiskOk(d: Disk, p: Partition)
    requires DiskOk(d) && Has(d.partitions, p.number) && PartOk(d, p)
    requires p.start == Get(d.partitions, p.number).start && p.end <= Get(d.partitions, p.number).end
    ensures DiskOk(d.(partitions := Put(d.partitions, p)))
  {
    PutFacts(d.partitions, p);
  }

  /** The mounts and the mapper stay right when the partitions they use keep their filesystems. */
  lemma SameUse(w: World, v: World)
    requires MountsOk(w) && v.mounts == w.mounts && v.mapper == w.mapper && v.mapperFs == w.mapperFs
    requires forall n | InUse(w, n) :: FsOf(v, Part(n)) == FsOf(w, Part(n))
    ensures MountsOk(v)
  {
    forall m | m in v.mounts ensures FsOf(v, m.device) == Some(m.fs) {
      assert FsOf(w, m.device) == Some(m.fs);
      assert m.device.Part? ==> InUse(w, m.device.number);
    }
    assert w.mapper.Some? ==> InUse(w, w.mapper.value);
  }

  lemma InsertedDiskOk(d: Disk, p: Partition)
    requires DiskOk(d) && p.number !in Numbers(d.partitions)
    requires FitsTable(d, p.start, p.end) && PartOk(d, p)
    ensures DiskOk(d.(partitions := Insert(d.partitions, p)))
  {
    InsertFacts(d.partitions, p);
    InsertOrdered(d, p);
    var e := d.(partitions := Insert(d.partitions, p));
    forall x | x in e.partitions ensures PartOk(e, x) {
      assert PartOk(d, x);
    }
  }

  lemma InsertKeepsOk(w: World, s: int, e: int)
    requires WorldOk(w) && Possible(w, MakePartition(s, e))
    ensures WorldOk(Effect(w, MakePartition(s, e)))
  {
    var p, v := NewPartition(w.disk, s, e), Effect(w, MakePartition(s, e));
    SectorBounds(w.disk, s, e);
    InsertedDiskOk(w.disk, p);
    InsertFacts(w.disk.partitions, p);
    assert FsFits(v.disk);
    forall n | InUse(w, n) ensures FsOf(v, Part(n)) == FsOf(w, Part(n)) {
      UsedIsThere(w, n);
      assert Get(w.disk.partitions, n).number in Numbers(w.disk.partitions);
    }
    SameUse(w, v);
  }

  lemma UsedIsThere(w: World, n: nat)
    requires MountsOk(w) && InUse(w, n)
    ensures Has(w.disk.partitions, n)
  {
    assert FsOf(w, Part(n)).Some?;
  }

  lemma ReformatKeepsOk(w: World, n: nat, fs: FsType, v: World)
    requires WorldOk(w) && Has(w.disk.partitions, n) && !InUse(w, n)
    requires v == Reformatted(w, n, fs).(subvolumes := v.subvolumes)
    ensures WorldOk(v)
  {
    var p := Get(w.disk.partitions, n).(fs := fs, fsBytes := Get(w.disk.partitions, n).Size(), minimum := 0);
    assert PartOk(w.disk, Get(w.disk.partitions, n));
    PutKeepsDiskOk(w.disk, p);
    PutFacts(w.disk.partitions, p);
    SameUse(w, v);
  }

  lemma ResizeKeepsOk(w: World, p: Partition, v: World)
    requires WorldOk(w) && Has(w.disk.partitions, p.number) && PartOk(w.disk, p)
    requires var q := Get(w.disk.partitions, p.number);
             p.start == q.start && p.end <= q.end && p.fs == q.fs && p.fsBytes <= p.Size()
    requires v == w.(disk := w.disk.(partitions := Put(w.disk.partitions, p)))
    ensures WorldOk(v)
  {
    PutKeepsDiskOk(w.disk, p);
    PutFacts(w.disk.partitions, p);
    SameUse(w, v);
  }

  lemma SectorMultiple(d: Disk, sectors: int)
    requires 0 < d.sector && 0 < sectors
    ensures sectors * d.sector % d.sector == 0 && sectors * d.sector >= d.sector
  {
    MulMod(d.sector, sectors);
    assert d.sector * sectors == sectors * d.sector;
    MulAtLeast(d.sector, sectors);
  }

  lemma ShortenedIsOk(d: Disk, q: Partition, bytes: int)
    requires PartOk(d, q) && bytes % d.sector == 0 && 0 < bytes && q.start + bytes - 1 <= q.end
    ensures PartOk(d, q.(end := q.start + bytes - 1))
  {
    SumMod(q.start, bytes, d.sector);
  }

  lemma SfdiskKeepsOk(w: World, n: nat, sectors: int)
    requires WorldOk(w) && Possible(w, Sfdisk(n, sectors)) && Careful(w, Sfdisk(n, sectors))
    ensures WorldOk(Effect(w, Sfdisk(n, sectors)))
  {
    var q := Get(w.disk.partitions, n);
    var bytes := sectors * w.disk.sector;
    assert PartOk(w.disk, q);
    SectorMultiple(w.disk, sectors);
    ShortenedIsOk(w.disk, q, bytes);
    var v := Effect(w, Sfdisk(n, sectors));
    ResizeKeepsOk(w, q.(end := q.start + bytes - 1), v);
  }

  lemma SumMod(a: int, b: int, m: int)
    requires 0 < m && a % m == 0 && b % m == 0
    ensures (a + b) % m == 0
  {
    var x, y := a / m, b / m;
    assert a == m * x && b == m * y;
    MulMod(m, x + y);
    assert m * (x + y) == m * x + m * y;
  }

  lemma MountedStaysOk(w: World, m: Mount)
    requires MountsOk(w) && FsOf(w, m.device) == Some(m.fs)
    requires m.dir == [] <==> w.mounts == []
    requires forall o <- w.mounts :: !(m.dir <= o.dir)
    ensures MountsOk(w.(mounts := w.mounts + [m]))
  {
    var v := w.(mounts := w.mounts + [m]);
    forall o | o in v.mounts ensures FsOf(v, o.device) == Some(o.fs) {
      assert o == m || o in w.mounts;
    }
    assert forall i | 0 <= i < |w.mounts| :: w.mounts[i] in w.mounts;
  }

  lemma MountKeepsOk(w: World, device: Device, dir: seq<string>, fs: FsType, subvolume: Option<string>)
    requires WorldOk(w) && Possible(w, MountFs(device, dir, fs, subvolume))
    ensures WorldOk(Effect(w, MountFs(device, dir, fs, subvolume)))
  {
    assert Mountable(w, device, dir, fs, subvolume);
    MountedStaysOk(w, Mount(device, dir, fs, subvolume));
  }

  lemma MapperKeepsOk(w: World, c: Command)
    requires WorldOk(w) && Possible(w, c)
    requires c.LuksOpen? || c.LuksClose? || (c.MakeFs? && c.device.Mapper?)
    ensures WorldOk(Effect(w, c))
  {
  }

  lemma FsResizeKeepsOk(w: World, c: Command)
    requires WorldOk(w) && Possible(w, c) && (c.NtfsResize? || c.Resize2fs?)
    ensures WorldOk(Effect(w, c))
  {
    assert PartOk(w.disk, Get(w.disk.partitions, c.number));
    var bytes := if c.NtfsResize? then c.bytes else c.kib * 1024;
    ResizeKeepsOk(w, Get(w.disk.partitions, c.number).(fsBytes := bytes), Effect(w, c));
  }

  /** Every command keeps the world in order, as long as a partition is only shrunk to no less
      than its filesystem. */
  lemma EffectKeepsOk(w: World, c: Command)
    requires WorldOk(w) && Possible(w, c) && Careful(w, c)
    ensures WorldOk(Effect(w, c))
  {
    match c
    case MakePartition(s, e) => InsertKeepsOk(w, s, e);
    case Wipe(_) => FormattingKeepsOk(w, c);
    case LuksFormat(_) => FormattingKeepsOk(w, c);
    case MakeFs(_, _) => FormattingKeepsOk(w, c);
    case LuksOpen(_) => MapperKeepsOk(w, c);
    case LuksClose => MapperKeepsOk(w, c);
    case NtfsResize(_, _) => FsResizeKeepsOk(w, c);
    case Resize2fs(_, _) => FsResizeKeepsOk(w, c);
    case Sfdisk(n, sectors) => SfdiskKeepsOk(w, n, sectors);
    case MountFs(device, dir, fs, subvolume) => MountKeepsOk(w, device, dir, fs, subvolume);
    case MakeLabel => LabelKeepsOk(w);
    case _ => TidyKeepsOk(w, c);
  }

  lemma FormattingKeepsOk(w: World, c: Command)
    requires WorldOk(w) && Possible(w, c) && Careful(w, c)
    requires c.Wipe? || c.LuksFormat? || c.MakeFs?
    ensures WorldOk(Effect(w, c))
  {
    match c
    case Wipe(n) => ReformatKeepsOk(w, n, Unknown, Effect(w, c));
    case LuksFormat(n) => ReformatKeepsOk(w, n, Luks, Effect(w, c));
    case MakeFs(device, fs) =>
      if device.Part? {
        ReformatKeepsOk(w, device.number, fs, Effect(w, c));
      } else {
        MapperKeepsOk(w, c);
      }
  }

  /** The commands that leave the table, the mapper and every filesystem alone. */
  lemma TidyKeepsOk(w: World, c: Command)
    requires WorldOk(w) && Possible(w, c)
    requires c.WipeDisk? || c.SetFlag? || c.Partprobe? || c.Settle? || c.NtfsTest? || c.Fsck?
             || c.CreateSubvolume? || c.Umount? || c.UmountAll? || c.Query? || c.InTarget?
    ensures WorldOk(Effect(w, c))
  {
    var v := Effect(w, c);
    assert v.disk == w.disk && v.mapper == w.mapper && (v.mounts == w.mounts || v.mounts == []);
    assert forall m <- w.mounts :: FsOf(v, m.device) == FsOf(w, m.device);
  }

  lemma LabelKeepsOk(w: World)
    requires WorldOk(w) && Possible(w, MakeLabel)
    ensures WorldOk(Effect(w, MakeLabel))
  {
  }

  // -- which bytes are touched ------------------------------------------------------------

  ghost predicate Inside(start: int, end: int, scope: seq<Extent>) {
    exists e <- scope :: e.start <= start && end <= e.end
  }

  ghost predicate Clear(start: int, end: int, scope: seq<Extent>) {
    forall e <- scope :: Apart(start, end, e.start, e.end)
  }

  /** Since `base`, commands have stayed inside `scope`: partitions clear of it are as they were,
      every other partition is in it, and so is every byte overwritten since. */
  ghost predicate Kept(base: World, w: World, scope: seq<Extent>) {
    && w.disk.size == base.disk.size && w.disk.sector == base.disk.sector
    && (forall p <- base.disk.partitions :: Clear(p.start, p.end, scope) ==> p in w.disk.partitions)
    && (forall p <- w.disk.partitions :: p in base.disk.partitions || Inside(p.start, p.end, scope))
    && base.written <= w.written
    && (forall i | |base.written| <= i < |w.written| :: Inside(w.written[i].start, w.written[i].end, scope))
  }

  ghost predicate PartInside(w: World, n: nat, scope: seq<Extent>) {
    Has(w.disk.partitions, n) ==>
      Inside(Get(w.disk.partitions, n).start, Get(w.disk.partitions, n).end, scope)
  }

  /** The command writes only inside `scope`. */
  ghost predicate InScope(w: World, c: Command, scope: seq<Extent>) {
    match c
    case WipeDisk => Extent(0, w.disk.size - 1) in scope
    case MakeLabel => Extent(0, w.disk.size - 1) in scope
    case MakePartition(s, e) => Inside(PartitionStart(w.disk, s), PartitionEnd(w.disk, e), scope)
    case Wipe(n) => PartInside(w, n, scope)
    case LuksFormat(n) => PartInside(w, n, scope)
    case MakeFs(device, _) => device.Part? ==> PartInside(w, device.number, scope)
    case NtfsResize(_, _) => false
    case Resize2fs(_, _) => false
    case Sfdisk(_, _) => false
    case _ => true
  }

  lemma InsideIsNotClear(start: int, end: int, scope: seq<Extent>)
    requires start <= end && Inside(start, end, scope)
    ensures !Clear(start, end, scope)
  {
    var e :| e in scope && e.start <= start && end <= e.end;
    assert !Apart(start, end, e.start, e.end);
  }

  lemma ReformatKeeps(base: World, w: World, n: nat, fs: FsType, scope: seq<Extent>)
    requires WorldOk(w) && Kept(base, w, scope)
    requires Has(w.disk.partitions, n) && PartInside(w, n, scope)
    ensures Kept(base, Reformatted(w, n, fs), scope)
  {
    var before := Get(w.disk.partitions, n);
    var p := before.(fs := fs, fsBytes := before.Size(), minimum := 0);
    var v := Reformatted(w, n, fs);
    PutFacts(w.disk.partitions, p);
    assert PartOk(w.disk, before);
    InsideIsNotClear(before.start, before.end, scope);
    forall x | x in base.disk.partitions && Clear(x.start, x.end, scope) ensures x in v.disk.partitions {
      assert x in w.disk.partitions;
      if x.number == n {
        GetUnique(w.disk.partitions, x);
      }
    }
    assert v.written[..|base.written|] == base.written;
  }

  lemma EffectKeeps(base: World, w: World, c: Command, scope: seq<Extent>)
    requires WorldOk(w) && Kept(base, w, scope) && Possible(w, c) && InScope(w, c, scope)
    requires DiskOk(base.disk)
    ensures Kept(base, Effect(w, c), scope)
  {
    var v := Effect(w, c);
    match c {
      case Wipe(n) => ReformatKeeps(base, w, n, Unknown, scope);
      case LuksFormat(n) => ReformatKeeps(base, w, n, Luks, scope);
      case MakeFs(device, fs) =>
        if device.Part? {
          ReformatKeeps(base, w, device.number, fs, scope);
        }
      case MakePartition(s, e) =>
        InsertFacts(w.disk.partitions, NewPartition(w.disk, s, e));
      case WipeDisk =>
        assert v.written[..|base.written|] == base.written;
      case MakeLabel =>
        assert v.written[..|base.written|] == base.written;
        forall p | p in base.disk.partitions ensures !Clear(p.start, p.end, scope) {
          assert PartOk(base.disk, p);
          assert !Apart(p.start, p.end, 0, w.disk.size - 1);
        }
      case _ =>
    }
  }

  /** Nothing overwritten since `base` touches a byte of a partition clear of the scope. */
  lemma KeptBytes(base: World, w: World, scope: seq<Extent>, p: Partition, b: int, i: nat)
    requires Kept(base, w, scope) && p in base.disk.partitions && Clear(p.start, p.end, scope)
    requires p.start <= b <= p.end
    requires |base.written| <= i < |w.written|
    ensures p in w.disk.partitions
    ensures !(w.written[i].start <= b <= w.written[i].end)
  {
    assert Inside(w.written[i].start, w.written[i].end, scope);
    var e :| e in scope && e.start <= w.written[i].start && w.written[i].end <= e.end;
    assert Apart(p.start, p.end, e.start, e.end);
  }

  /** Only sfdisk and a new label change where an existing partition lies. */
  lemma EffectKeepsExtent(w: World, c: Command, n: nat)
    requires WorldOk(w) && Possible(w, c) && Has(w.disk.partitions, n)
    requires !c.Sfdisk? && !c.MakeLabel?
    ensures var v := Effect(w, c);
            && Has(v.disk.partitions, n)
            && Get(v.disk.partitions, n).start == Get(w.disk.partitions, n).start
            && Get(v.disk.partitions, n).end == Get(w.disk.partitions, n).end
  {
    match c
    case MakePartition(s, e) => NewIsNew(w.disk, s, e, n);
    case Wipe(m) => ReformatLookups(w, m, Unknown);
    case LuksFormat(m) => ReformatLookups(w, m, Luks);
    case MakeFs(device, fs) =>
      if device.Part? {
        ReformatLookups(w, device.number, fs);
      }
    case NtfsResize(m, bytes) =>
      PutFacts(w.disk.partitions, Get(w.disk.partitions, m).(fsBytes := bytes));
    case Resize2fs(m, kib) =>
      PutFacts(w.disk.partitions, Get(w.disk.partitions, m).(fsBytes := kib * 1024));
    case _ =>
  }

  lemma NewIsNew(d: Disk, s: int, e: int, n: nat)
    requires DiskOk(d) && Has(d.partitions, n)
    ensures var p := NewPartition(d, s, e);
            var q := Insert(d.partitions, p);
            p.number != n && Has(q, n) && Get(q, n) == Get(d.partitions, n)
  {
    var p := NewPartition(d, s, e);
    assert Get(d.partitions, n).number in Numbers(d.partitions);
    InsertFacts(d.partitions, p);
  }

  lemma ReformatLookups(w: World, n: nat, fs: FsType)
    requires WorldOk(w) && Has(w.disk.partitions, n)
    ensures var v := Reformatted(w, n, fs);
            && Has(v.disk.partitions, n) && Get(v.disk.partitions, n).fs == fs
            && Get(v.disk.partitions, n).mounted == Get(w.disk.partitions, n).mounted
            && Get(v.disk.partitions, n).start == Get(w.disk.partitions, n).start
            && Get(v.disk.partitions, n).end == Get(w.disk.partitions, n).end
            && (forall m | m != n :: Has(v.disk.partitions, m) == Has(w.disk.partitions, m))
            && (forall m | m != n && Has(w.disk.partitions, m) ::
                  Get(v.disk.partitions, m) == Get(w.disk.partitions, m))
  {
    var p := Get(w.disk.partitions, n);
    PutFacts(w.disk.partitions, p.(fs := fs, fsBytes := p.Size(), minimum := 0));
  }
}
