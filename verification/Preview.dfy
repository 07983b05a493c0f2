/** The partition bar and the installer agree: what the bar shows as kept survives the installation. */
module Preview {
  import opened Common
  import Disk
  import Machine
  import PartitionBar
  import Shrink
  import Storage

  // How a listed partition reaches the bar; every partition number has a device path of its own.
  function Listed(p: Disk.Partition, path: nat -> string): PartitionBar.Part
    requires 0 <= p.start && 0 <= p.end
  {
    PartitionBar.Part(path(p.number), "", p.start, p.end)
  }

  ghost predicate Paths(path: nat -> string) {
    && (forall m, n :: path(m) == path(n) ==> m == n)
    && (forall n :: path(n) != "")
  }

  function PathOf(n: Option<nat>, path: nat -> string): string {
    if n.Some? then path(n.value) else ""
  }

  // The preview of an installation's configuration.
  function Previewed(c: Storage.Config, path: nat -> string): PartitionBar.Choice {
    PartitionBar.Choice(
      match c.layout {
        case Erase => PartitionBar.Erase
        case FreeSpace => PartitionBar.FreeSpace
        case Partitions => PartitionBar.Partitions
      },
      PathOf(c.root, path), PathOf(c.boot, path), c.formatBoot,
      if c.shrink.Some? then Some(PartitionBar.Shrink(path(c.shrink.value), Shrink.RoundedSize(c.shrinkSize)))
      else None)
  }

  // In the layout on existing partitions, the bar shows as kept exactly those the installer spares.
  lemma KeptIsSpared(c: Storage.Config, path: nat -> string, p: Disk.Partition)
    requires Paths(path) && c.layout == Storage.Partitions && 0 <= p.start && 0 <= p.end
    ensures PartitionBar.PartSegments(Previewed(c, path), Listed(p, path))[0].fate == PartitionBar.Kept
       <==> !Storage.Sacrificed(c, p.number)
  {
    assert forall n: Option<nat> :: PathOf(n, path) == path(p.number) <==> n == Some(p.number);
  }

  // There, exactly the chosen root is shown as new, and as lost exactly a boot partition to be formatted.
  lemma FatesAre(c: Storage.Config, path: nat -> string, p: Disk.Partition)
    requires Paths(path) && c.layout == Storage.Partitions && 0 <= p.start && 0 <= p.end
    ensures var fate := PartitionBar.PartSegments(Previewed(c, path), Listed(p, path))[0].fate;
            && (fate == PartitionBar.New <==> c.root == Some(p.number))
            && (fate == PartitionBar.Lost <==> c.root != Some(p.number) && c.formatBoot && c.boot == Some(p.number))
  {
    assert forall n: Option<nat> :: PathOf(n, path) == path(p.number) <==> n == Some(p.number);
  }

  // And so it comes about: what is shown as new or lost is written over, and in the prepared target the
  // one holds the root and the other is mounted as boot.
  lemma FatesComeTrue(
      w: Machine.World, v: Machine.World, c: Storage.Config, path: nat -> string, p: Disk.Partition)
    requires Paths(path) && c.layout == Storage.Partitions && 0 <= p.start && 0 <= p.end
    requires c.firmware == Storage.Uefi && c.root.Some? && c.boot.Some?
    requires Storage.Mounted(v, c, c.root.value, c.boot) && Storage.Renewed(w, v, c.root.value)
    requires c.formatBoot ==> Storage.Renewed(w, v, c.boot.value)
    ensures var fate := PartitionBar.PartSegments(Previewed(c, path), Listed(p, path))[0].fate;
            && (fate == PartitionBar.New ==>
                  && Storage.Renewed(w, v, p.number) && v.mounts != [] && v.mounts[0].dir == []
                  && v.mounts[0].device == (if c.encrypt then Machine.Mapper else Machine.Part(p.number))
                  && (c.encrypt ==> v.mapper == Some(p.number)))
            && (fate == PartitionBar.Lost ==>
                  && Storage.Renewed(w, v, p.number)
                  && Machine.Mount(Machine.Part(p.number), ["boot"], Disk.Vfat, None) in v.mounts)
  {
    FatesAre(c, path, p);
    var device := Storage.RootDevice(c, c.root.value);
    Storage.RootMountsAre(c.filesystem, device, c.subvolumes);
    var front := Storage.RootMounts(c.filesystem, device, c.subvolumes);
    assert v.mounts[0] == front[0];
    assert v.mounts[|front|] == Machine.Mount(Machine.Part(c.boot.value), ["boot"], Disk.Vfat, None);
  }

  // No byte shown as kept is overwritten by an installation, finished or failed at any command.
  lemma KeptBytesSurvive(
      w: Machine.World, v: Machine.World, c: Storage.Config, path: nat -> string,
      p: Disk.Partition, s: PartitionBar.Segment, b: int, i: nat)
    requires Paths(path) && Machine.WorldOk(w) && c.layout != Storage.Erase
    requires Storage.DataSafe(w, v, c)
    requires p in w.disk.partitions && 0 <= p.start && 0 <= p.end
    requires s in PartitionBar.PartSegments(Previewed(c, path), Listed(p, path))
    requires s.fate == PartitionBar.Kept && s.start <= b < s.End()
    requires b <= p.end && |w.written| <= i < |v.written|
    ensures !(v.written[i].start <= b <= v.written[i].end)
  {
    match c.layout
    case FreeSpace =>
      assert c.shrink.Some? ==> (path(p.number) == path(c.shrink.value) <==> p.number == c.shrink.value);
    case Partitions =>
      KeptIsSpared(c, path, p);
  }
}
