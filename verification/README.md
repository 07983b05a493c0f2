# Verified model of the protogenOS installer

This project models the parts of the protogenOS installer where several steps have to fit
together, and proves what they keep. `dafny verify dfyconfig.toml` checks all of it.

- **Background download** (`Packer`, `Prefetch`, `PrefetchSystem`, `PrefetchTheorems`,
  `PrefetchOutcomes`, `PrefetchTraces`). A plan's packages are downloaded while the user is still choosing. Callers,
  detached restart threads and workers share a few fields behind a lock and a generation counter.
  `Prefetcher` has one method for each block that holds the lock; the transition system lets
  unboundedly many threads take these blocks in any order, and the theorems hold in every
  interleaving. Which state a worker reports is settled by what it was told and how its own
  processes exited. The greedy packer that chooses what to download is proved within a factor two of
  the best choice, and that factor is tight.
- **Partitions and storage** (`Disk`, `Machine`, `Shrink`, `Storage`). A disk is a table of extents
  in bytes with a filesystem each, their flags, mounts, a LUKS mapper and the list of extents
  overwritten so far.
  Commands are specified transitions; an oracle decides which of them fail. `StorageManager` issues
  them as the installer does. For every failure point its contracts say which data is kept, what is
  mounted, and that the teardown undoes it; without a failure they say exactly when an
  installation goes through. GPT is section 5.3 of the UEFI specification.
- **Initramfs hooks and the kernel command line** (`Words`, `Folding`, `Placing`, `HookLists`,
  `HookText`, `KernelCmdline`). The edits of the HOOKS line commute, are idempotent, conserve the
  other hooks and leave the rest of the file alone, and the command line always names the unlock
  method the hooks provide.
- **Log** (`Ansi`, `Session`, `LogPolling`, with `Numerals` and `Sequences`). Coloured log lines
  become run-length segments whose meaning is given character by character (SGR is section 8.3.117
  of ECMA-48); a session's log reaches a polling browser exactly once and in order, and what the
  browser reports at the end is tied to the error the run ended with.
- **Preview, names, replay** (`PartitionBar`, `Preview`, `MarkedGap`, `FreedTail`, `Utf8`, `WifiNames`,
  `Documents`, `Profiles`, `PlanContents`, `Replay`). The partition bar is a true picture of the disk as it is, and
  what it shows as kept survives the installation; when the gap or the tail it marks is what the
  installer takes is settled exactly. Wi-Fi names and keyfiles decode back (UTF-8 is section 3 of
  RFC 3629); saved choices load to the same configuration and resolve to the same plan.

Where the code and what is said about it differ, the model follows the code:

- "Runs at most one background download" (prefetch.py:137) holds as long as restarts do not
  overlap; `OverlappingRestartsRunTwoDownloads` shows what happens when they do, and
  `StaleIffAbandoned` names the one step that causes it.
- `stop` can be followed by "downloading" (`StopCanLeaveDownloading`), exactly when a current worker
  is at work as it takes its first lock (`StopHoldsIffNobodyWorks`); a late restart can leave
  "preparing" for good (`LateRestartLeavesPreparing`). While a plan is requested and no thread is
  left, the status is the newest worker's last write (`SettledStatus`); once that worker has
  returned too, it is terminal exactly when no halt and no install fell into the worker's turn
  (`SettledIffTurnKept`).
- The 17 GiB that an accepted shrink must free can come out a MiB short of 17 aligned GiB
  (`AcceptedShrinkCanFallShort`); `EnoughAfterShrink` says exactly when they suffice.
- Plymouth is not always placed "before any encrypt hook" (bootloader.py:59), whether or not
  encryption is configured: an encrypt hook of either kind that stands before the anchor stays there.
  `PlymouthCanFollowEncrypt` gives two such lists, `SplashComesFirstIff` the exact condition for
  every list.
- A run that fails with an empty message is seen as done (`EmptyMessageIsSeenAsDone`);
  `OutcomeReportsError` says for every run what is seen.
- "The installer uses the largest unallocated region" (PartitionBar.tsx:83), but by whole MiB, while
  the bar compares bytes: `MarkedGapCanMissRegion` is a disk on which the marked gap is another one,
  `MarkedHoldsRegionIff` says exactly when it is the same.
- After a shrink "the rest of it goes to protogenOS" (PartitionBar.tsx:33) only if no other free
  region has more whole MiB: `TailCanStayUnused` is a disk on which the space just freed stays
  unused, `TailIsTakenIff` says exactly when it is taken.
- Two polls at once show lines twice (`OverlappingPollsRepeat`), which a component mounted twice by
  React's strict mode does in development.
- Keyfile values are written without quoting spaces; `TrimmedReadsBackIff` says for which SSIDs a
  reader that trims blanks still gets the name. That such a reader exists is an assumption.

## Model

| member | source | states |
|---|---|---|
| `Packer.ChooseDownloads` | installer/protogenos_installer/prefetch.py:107-114 | the loop over the downloads, largest first, yields exactly the greedy choice `Chosen` |
| `Packer.SortIsDescending` | installer/protogenos_installer/prefetch.py:110 | the order it visits is by falling size |
| `Packer.SortIsStable` | installer/protogenos_installer/prefetch.py:110 | downloads of equal size keep their order |
| `Packer.ChoiceFits` | installer/protogenos_installer/prefetch.py:107-114 | the choice is a sub-multiset of the downloads, within the budget, and nothing left out would fit in what remains |
| `Packer.ChoiceWithinFactorTwo` | installer/protogenos_installer/prefetch.py:107-114 | any selection that fits the budget has at most twice the bytes chosen |
| `Packer.FactorTwoIsTight` | installer/protogenos_installer/prefetch.py:107-114 | for every n a list on which n + 1 bytes are chosen where 2n fit: no smaller constant bounds all cases |
| `Packer.AllChosenIffFits` | installer/protogenos_installer/prefetch.py:107-114 | everything is chosen exactly when everything fits |
| `Packer.PartialMeansLeftOut` | installer/protogenos_installer/prefetch.py:317-335 | a download is "partial" exactly when a pending package was left out, which is exactly when the pending ones exceed a budget worth starting on |
| `Packer.NothingChosenIff` | installer/protogenos_installer/prefetch.py:322 | with something pending nothing is chosen exactly when the budget is below 64 MiB or no pending package fits it |
| `Packer.PlanAccounting` | installer/protogenos_installer/prefetch.py:315-331 | planned bytes are those already present plus those chosen, and never exceed the total |
| `Prefetch.Prefetcher.constructor` | installer/protogenos_installer/prefetch.py:139-166 | a new prefetcher is idle, at generation 0, with no request, process or thread |
| `Prefetch.Prefetcher.Start` | installer/protogenos_installer/prefetch.py:170-180 | the locked part of `start`: a repeated request is ignored unless it failed or was stopped, any other becomes the request with a fresh "preparing" status |
| `Prefetch.Prefetcher.Halt` | installer/protogenos_installer/prefetch.py:203-207 | one lock raises the generation and captures the process to terminate |
| `Prefetch.Prefetcher.Install` | installer/protogenos_installer/prefetch.py:184-193 | a restart whose request was replaced changes nothing; otherwise it raises the generation and installs its worker |
| `Prefetch.Prefetcher.Stop` | installer/protogenos_installer/prefetch.py:195-200 | the first lock of `stop`: no request, and a running status becomes "stopped" |
| `Prefetch.Prefetcher.Finish` | installer/protogenos_installer/prefetch.py:240-244 | only the current generation may write a state |
| `Prefetch.Prefetcher.Launch` | installer/protogenos_installer/prefetch.py:264-270 | only the current generation may start a process, which becomes the held one |
| `Prefetch.Prefetcher.Clear` | installer/protogenos_installer/prefetch.py:272-274 | a process that has ended is dropped only if it is still the held one |
| `Prefetch.Prefetcher.RecordPlan` | installer/protogenos_installer/prefetch.py:325-331 | only the current generation may record sizes and planned files |
| `Prefetch.Prefetcher.MarkDownloading` | installer/protogenos_installer/prefetch.py:338-341 | only the current generation may mark "downloading" |
| `PrefetchSystem.StepKeepsInv` | installer/protogenos_installer/prefetch.py:170-359 | every step of any thread keeps the invariant: worker generations strictly increase and never pass the counter, a current worker that runs a process is running the held one, writes follow the path |
| `PrefetchSystem.ReachableInv` | installer/protogenos_installer/prefetch.py:170-359 | the invariant holds after every interleaving of unboundedly many callers, restarts, workers and process exits |
| `PrefetchTheorems.RunExtends` | installer/protogenos_installer/prefetch.py:170-359 | runs only add threads, workers and processes; requests, generations and process owners never change, and a dead process stays dead |
| `PrefetchTheorems.OneWorkerPerGeneration` | installer/protogenos_installer/prefetch.py:182-193 | two workers never share a generation, and none is ahead of the counter |
| `PrefetchTheorems.StaleWorkerIsInert` | installer/protogenos_installer/prefetch.py:236-275 | once the generation has passed a worker, no step of it, however late, changes the status, the planned files, the request or the generation, launches a process or writes a state; of `_process` it can only drop a process of its own |
| `PrefetchTheorems.CurrentProcessIsHeld` | installer/protogenos_installer/prefetch.py:264-275 | the current worker's running process is the one in `_process` |
| `PrefetchTheorems.StaleWorkerLaunchesNothing` | installer/protogenos_installer/prefetch.py:264-270 | a superseded worker launches no process in any continuation |
| `PrefetchTheorems.HaltCapturesOrForestalls` | installer/protogenos_installer/prefetch.py:203-215 | a halt either captures the current worker's process, which is then signalled, or forestalls its launch for good |
| `PrefetchTheorems.HaltAfterStopIsQuiet` | installer/protogenos_installer/prefetch.py:195-206 | a halt with no request leaves no current worker |
| `PrefetchTheorems.QuietUntilNextStart` | installer/protogenos_installer/prefetch.py:182-215 | from then until the next `start`, whatever the older threads do, no worker is installed, no process launched and the status does not move |
| `PrefetchTheorems.StopHoldsIffNobodyWorks` | installer/protogenos_installer/prefetch.py:195-206 | when `stop` releases its first lock: the status stays "stopped" in every run without a new `start` or `stop` exactly when no still-current worker is at work |
| `PrefetchTheorems.StoppedStaysIffNoWorkerWrites` | installer/protogenos_installer/prefetch.py:195-206 | for each such run, the status still reads "stopped" exactly when no worker has written a state of its own in it |
| `PrefetchTheorems.WorkerCarriesHeldRequest` | installer/protogenos_installer/prefetch.py:182-193 | every worker was installed by a step at which its request was the one held in `_request` |
| `PrefetchTheorems.WritesFollowThePath` | installer/protogenos_installer/prefetch.py:277-359 | a worker writes nothing, one terminal state, or "downloading" and then "done" or "failed"; which terminal state is OutcomeIsDeserved |
| `PrefetchOutcomes.OutcomeIsDeserved` | installer/protogenos_installer/prefetch.py:277-359 | over every run, a worker that ended terminally wrote "failed" exactly when it met an error or a sync, size or fetch process of its own exited nonzero; "skipped" exactly when it was told it is offline, or something was pending and nothing fitted; "done" exactly when its sync and size exited 0 and its fetch did too or nothing was pending |
| `PrefetchOutcomes.OutcomeIsShown` | installer/protogenos_installer/prefetch.py:240-359 | the step that ends it puts that state into the status, with the reason that goes with it: the error met or the last line of the failed command, which limit or absence caused a skip, and whether packages were left out |
| `PrefetchTheorems.WorkMakesProgress` | installer/protogenos_installer/prefetch.py:277-359 | every step of a worker brings it closer to its end |
| `PrefetchTheorems.ReturnedCurrentEndsWell` | installer/protogenos_installer/prefetch.py:236-359 | in every reachable state a worker that is current and has returned wrote a terminal state last |
| `PrefetchTheorems.EndsWellIffTurnKept` | installer/protogenos_installer/prefetch.py:203-359 | a worker that was current and has returned wrote a terminal state last exactly when no halt and no install came between until it returned |
| `PrefetchTheorems.InstalledWorkerSettles` | installer/protogenos_installer/prefetch.py:182-193 | whatever runs beside it, an installed worker takes at most fifteen steps, is stuck only until its command exits, ends in a terminal state exactly when it kept its turn, and the status shows its last write while it is current |
| `PrefetchTheorems.LoneWorkerSettles` | installer/protogenos_installer/prefetch.py:182-193 | installed with no restart or `stop` outstanding and none called later, it ends with exactly one terminal state, its last write, which the status shows |
| `PrefetchTheorems.SettledStatus` | installer/protogenos_installer/prefetch.py:170-244 | once every thread has returned while a plan is requested, the status is the newest worker's last write: terminal exactly when that worker ended well, else "preparing" or "downloading", in which asking for the plan again is refused |
| `PrefetchTheorems.SettledIffTurnKept` | installer/protogenos_installer/prefetch.py:182-244 | along any run to such a state with the newest worker returned, the status is terminal exactly when no halt and no install fell into that worker's turn |
| `PrefetchTheorems.StaleIffAbandoned` | installer/protogenos_installer/prefetch.py:182-215 | a step leaves a process that nobody will ever signal exactly when it is an install replacing a running, uncaptured worker |
| `PrefetchTheorems.NeverStaleIffNeverAbandons` | installer/protogenos_installer/prefetch.py:182-215 | in every state of a run somebody will signal each running process, exactly when no step of the run is such an install |
| `PrefetchTheorems.SerialRestartsRunOneDownload` | installer/protogenos_installer/prefetch.py:136-137 | as long as restarts do not overlap, at most one unsignalled download runs, and it is the current worker's |
| `PrefetchTraces.StopCanLeaveDownloading` | installer/protogenos_installer/prefetch.py:195-206 | a run in which `stop` has returned and the status reads "downloading" |
| `PrefetchTraces.LateRestartLeavesPreparing` | installer/protogenos_installer/prefetch.py:182-193 | a run in which an older restart, halting late, ends the newest worker and leaves "preparing" for good |
| `PrefetchTraces.OverlappingRestartsRunTwoDownloads` | installer/protogenos_installer/prefetch.py:182-215 | a run in which two restarts of one request leave two live downloads, one of which no thread will signal |
| `Disk.ParseDiskLayout` | installer/protogenos_installer/storage.py:126-189 | the loop over the listing yields its partitions and the MiB-aligned interiors of its free lines |
| `Disk.PartsOfPrint` | installer/protogenos_installer/storage.py:126-189 | reading a disk's listing gives the disk's own partitions back, in order |
| `Disk.AlignFacts` | installer/protogenos_installer/storage.py:249-250 | rounding up and down to a MiB stays within a MiB, gives multiples, and fixes multiples |
| `Disk.MibIsSectors` | installer/protogenos_installer/storage.py:428-437 | dividing a multiple of a MiB by the sector size is exact |
| `Disk.RegionsAreFree` | installer/protogenos_installer/storage.py:164-171 | every region offered is aligned, inside the disk and clear of every partition |
| `Disk.FreeIsInRegion` | installer/protogenos_installer/storage.py:164-171 | every aligned free interval of at least a MiB lies inside some region offered |
| `Disk.LargestFreeIsExact` | installer/protogenos_installer/storage.py:104-106 | `largest_free` has room for a size exactly when that much aligned space is free somewhere on the disk |
| `Disk.TablelessOffers` | installer/protogenos_installer/storage.py:187-188 | a disk without a table is offered from the first MiB to a MiB before its last whole one |
| `Machine.EffectKeepsOk` | installer/protogenos_installer/storage.py:346-382 | every command that takes effect keeps the world in order: partitions disjoint and sector-aligned, no filesystem larger than its partition, mounts showing the filesystem their device has, parents before children, the mapper on a LUKS partition |
| `Machine.EffectKeeps` | installer/protogenos_installer/storage.py:346-382 | a command inside a set of extents leaves every partition clear of them, and all its bytes, alone |
| `Machine.KeptBytes` | installer/protogenos_installer/storage.py:346-382 | no byte of a partition clear of the extents is among those overwritten |
| `Machine.EffectKeepsExtent` | installer/protogenos_installer/storage.py:485-490 | only `sfdisk` and a new label move or resize an existing partition |
| `Shrink.ShrinkableIffSomeSizeAccepted` | installer/protogenos_installer/storage.py:226-235 | a partition reports `shrinkable` exactly when some `shrink_size` passes the checks |
| `Shrink.AcceptedKeepsHeadroom` | installer/protogenos_installer/storage.py:456-476 | an accepted size keeps the measured minimum plus 2 GiB, rounded up to a MiB, and frees at least 17 GiB |
| `Shrink.AcceptedIff` | installer/protogenos_installer/storage.py:456-476 | in numbers: a size is accepted exactly when the partition is NTFS or ext4 and unmounted, the size, rounded down to a MiB, keeps the reported minimum plus 2 GiB, and 17 GiB are freed |
| `Shrink.ProposedRoomIs` | installer-web/src/screens/DiskScreen.tsx:80-82 | the room proposed is the earlier choice where it can be had, else half of what can be freed in whole GiB, and always between what is needed and what can be freed |
| `Shrink.EnabledRoomIsAccepted` | installer-web/src/screens/DiskScreen.tsx:79-106 | every slider value the disk screen enables is a size the installer accepts |
| `Shrink.EnoughAfterShrink` | installer/protogenos_installer/storage.py:164-171 | after a shrink there is room exactly when there was before or when the whole MiB behind the partition's new end suffice |
| `Shrink.AlignedOrSlackIsEnough` | installer/protogenos_installer/storage.py:449-490 | they do whenever the partition starts on a MiB boundary, or frees a MiB more than required |
| `Shrink.AcceptedShrinkCanFallShort` | installer/protogenos_installer/storage.py:449-490 | without either, an accepted shrink can free too little: a concrete disk |
| `Storage.ShrinkThenInstall` | installer/protogenos_installer/storage.py:415-490 | once a shrink is accepted, the installation finds room exactly under that condition |
| `Storage.SizeRefusalIsExact` | installer/protogenos_installer/storage.py:465-476 | the chain of refusals passes a size exactly when it is accepted |
| `Storage.NtfsCommands` | installer/protogenos_installer/storage.py:478-481 | on an NTFS partition that can hold the size, the test run changes nothing and the resize gives the filesystem exactly the asked bytes |
| `Storage.Ext4Commands` | installer/protogenos_installer/storage.py:482-484 | the same on ext4, for the size in KiB |
| `Storage.SfdiskAfterResize` | installer/protogenos_installer/storage.py:485-489 | after the filesystem's resize, sectors times sector size is the rounded size, and the partition ends with its filesystem |
| `Storage.FoundByStart` | installer/protogenos_installer/storage.py:440-444 | the partitions found by their start offsets are the two just created |
| `Storage.PairFound` | installer/protogenos_installer/storage.py:440-444 | whatever part of the listing could be read, a partition found there is a new one, never an old one |
| `Storage.CarvedPair` | installer/protogenos_installer/storage.py:428-438 | the two partitions made are new, a 1 GiB ESP and a root of at least 16 GiB, tile the region sector by sector, and leave all others as they were |
| `Storage.ErasedIs` | installer/protogenos_installer/storage.py:393-413 | the table of an erased disk in numbers: 1 GiB ESP and root, or 2 MiB for GRUB, 1 GiB boot with encryption or f2fs, and root, up to the last whole MiB; the ESP flag or bios_grub on the first |
| `Storage.RootMountsAre` | installer/protogenos_installer/storage.py:23-29 | which of the five subvolumes is mounted where |
| `Storage.MountedMeans` | installer/protogenos_installer/storage.py:359-376 | what a prepared target is in terms of the machine: the root reached through the mapper or directly, its mounts, and boot at /boot as FAT with UEFI and ext4 with BIOS |
| `Storage.ShrinkChecksMean` | installer/protogenos_installer/storage.py:460-476 | the checks before a shrink in terms of the machine: a GPT with the partition on it, and a size that is accepted |
| `Storage.PassesMeans` | installer/protogenos_installer/storage.py:496-513 | the checks on existing partitions pass exactly when both exist, the root has 16 GiB, neither is mounted, and boot is FAT or is to be formatted |
| `Storage.BootContentsMatterIff` | installer/protogenos_installer/storage.py:511-512 | two disks that differ only in what is on the boot partition are installed to alike whenever it is to be formatted; otherwise only whether it is FAT matters |
| `Storage.RootMountsAvoidBoot` | installer/protogenos_installer/storage.py:565-577 | no mount of the root hides /boot |
| `Storage.SubvolumeDirsNest` | installer/protogenos_installer/storage.py:23-29 | a later subvolume mount point is never at or above an earlier one |
| `Storage.ExistingBytesKept` | installer/protogenos_installer/storage.py:492-517 | with existing partitions, every other partition and each of its bytes is untouched |
| `Storage.StageKept` | installer/protogenos_installer/storage.py:477-490 | at every stage of a shrink the partition keeps its start and never ends before its filesystem |
| `Storage.InstalledKept` | installer/protogenos_installer/storage.py:415-490 | installing behind a shrunk partition overwrites none of the bytes it keeps, nor any other partition |
| `Storage.Runner.Run` | installer/protogenos_installer/storage.py:346-382 | a command takes effect or, failing, has none; whichever commands fail, every world passed through is in order; no device is used before udev has caught up with the table, and no filesystem resized but directly behind its own rehearsal |
| `Storage.Runner.ReadDiskLayout` | installer/protogenos_installer/storage.py:192-212 | without parted's listing the layout is empty, without lsblk's it lacks filesystems and mount points |
| `Storage.StorageManager.ShrinkNtfs` | installer/protogenos_installer/storage.py:478-481 | the test run comes first; on success the filesystem has the asked size, otherwise nothing changed |
| `Storage.StorageManager.ShrinkExt4` | installer/protogenos_installer/storage.py:482-484 | the same for ext4, in KiB |
| `Storage.StorageManager.ApplyShrink` | installer/protogenos_installer/storage.py:477-490 | filesystem before partition: whatever fails, one of three stages is left, and the last on success |
| `Storage.StorageManager.FindShrinkable` | installer/protogenos_installer/storage.py:460-466 | the partition is taken from what could be read, and refused without a GPT or when it is missing |
| `Storage.StorageManager.CheckShrink` | installer/protogenos_installer/storage.py:460-476 | nothing is touched by the checks; without a fault they pass exactly when the size is acceptable |
| `Storage.StorageManager.ShrinkPartition` | installer/protogenos_installer/storage.py:449-490 | the disk changes only after every check passed; without a fault it succeeds exactly when they do |
| `Storage.StorageManager.MakePart` | installer/protogenos_installer/storage.py:431-438 | `mkpart` with exact sector bounds adds exactly that extent |
| `Storage.StorageManager.CarveRegion` | installer/protogenos_installer/storage.py:428-438 | the two partitions of the region, or as many as were made before a failure |
| `Storage.StorageManager.FindPair` | installer/protogenos_installer/storage.py:440-444 | the partitions listed at the two start offsets, as far as the listings could be read |
| `Storage.StorageManager.ChooseRegion` | installer/protogenos_installer/storage.py:420-427 | the largest free region, refused exactly when there is no GPT or not 17 GiB of aligned free space |
| `Storage.StorageManager.FreeSpaceLayout` | installer/protogenos_installer/storage.py:415-447 | the layout tiles the chosen region; it fails only by a fault or for lack of room |
| `Storage.StorageManager.CheckExisting` | installer/protogenos_installer/storage.py:496-513 | the checks on the named partitions; when both listings could be read they pass exactly when both exist, the root has 16 GiB, neither is mounted, and boot is FAT or to be formatted |
| `Storage.StorageManager.ExistingLayout` | installer/protogenos_installer/storage.py:492-517 | only the chosen root is wiped, whole, and only after the checks; a boot partition to be formatted is flagged as an ESP; without a fault it goes through exactly when the machine allows it |
| `Storage.StorageManager.EraseLayout` | installer/protogenos_installer/storage.py:393-413 | the new table holds exactly what the firmware needs, side by side from the first MiB to the end, with the ESP or bios_grub flag on the first; it fails only by a fault or because the disk is in use |
| `Storage.StorageManager.Encrypt` | installer/protogenos_installer/storage.py:521-542 | the root is a LUKS partition and the mapper is open on it, which is noted for teardown before anything else |
| `Storage.StorageManager.FormatRoot` | installer/protogenos_installer/storage.py:544-554 | the root device, mapped or not, then has the configured filesystem and udev has settled; a partition that is formatted directly was written over from end to end |
| `Storage.StorageManager.MountAt` | installer/protogenos_installer/storage.py:556-563 | a mount is noted for teardown before it is tried, and is made only with the filesystem its device has |
| `Storage.StorageManager.CreateSubvolumes` | installer/protogenos_installer/storage.py:572-574 | the five subvolumes, on the mounted root |
| `Storage.StorageManager.MountSubvolumes` | installer/protogenos_installer/storage.py:576-577 | the five subvolumes in their order, parents first |
| `Storage.StorageManager.MountRoot` | installer/protogenos_installer/storage.py:565-577 | exactly the mounts the filesystem and the subvolume choice call for |
| `Storage.StorageManager.PrepareBoot` | installer/protogenos_installer/storage.py:579-589 | formats the whole boot partition on request, always on BIOS, otherwise leaves it alone, and mounts it at /boot |
| `Storage.StorageManager.Finish` | installer/protogenos_installer/storage.py:359-376 | from a laid-out disk to a fully mounted target, changing only the root and boot partitions, each written over when it is to be formatted |
| `Storage.StorageManager.PrepareFree` | installer/protogenos_installer/storage.py:350-357 | the new partitions are exactly the largest free region, the first flagged as an ESP, all old partitions and bytes are kept, and without a fault it succeeds exactly when there is room |
| `Storage.StorageManager.PrepareShrunk` | installer/protogenos_installer/storage.py:350-357 | the same behind a shrink: the shrunk partition keeps its start and the bytes it was left |
| `Storage.StorageManager.PrepareExisting` | installer/protogenos_installer/storage.py:355-357 | only the named partitions change, the root and a boot to be formatted are written over; without a fault it succeeds exactly when both exist, the root has 16 GiB, neither is mounted, and boot is FAT or to be formatted |
| `Storage.StorageManager.PrepareErase` | installer/protogenos_installer/storage.py:347-349 | without a fault a disk is prepared, with exactly that table, if and only if it is not in use |
| `Storage.StorageManager.Prepare` | installer/protogenos_installer/storage.py:346-376 | for every layout and every failure point no data outside the configuration's choice is lost; without a fault it succeeds exactly when the machine meets what the layout asks and a disk to be erased is not in use; what it reports about root and ESP is so |
| `Storage.StorageManager.Teardown` | installer/protogenos_installer/storage.py:378-382 | unmounts, then closes: each is undone unless its own command fails or the mapper is still in use |
| `Storage.StorageManager.Install` | installer/protogenos_installer/backend.py:802-869 | whichever command of the preparation or of the rest fails, the teardown runs and, if it does not itself fail, leaves nothing mounted and the mapper closed, with the data promise kept; also for a disk in use whose listing could not be read |
| `Placing.InsertingBefore` | installer/protogenos_installer/bootloader.py:46-52 | `insert` at an anchor's index, or at the end, puts the name just before the first anchor |
| `Placing.InsertingAfter` | installer/protogenos_installer/bootloader.py:68-70 | `insert` at an anchor's index plus one puts the name just after the first anchor |
| `HookLists.PlymouthGrows` | installer/protogenos_installer/bootloader.py:58-74 | plymouth is added once or was there; all other hooks keep their order and number |
| `HookLists.EncryptGrows` | installer/protogenos_installer/bootloader.py:35-55 | keyboard and one encrypt hook are added once or were there; all other hooks keep their order and number |
| `HookLists.EncryptIsReady` | installer/protogenos_installer/bootloader.py:42-50 | a newly added encrypt hook stands before filesystems, and a newly added keyboard before autodetect |
| `HookLists.PlymouthStands` | installer/protogenos_installer/bootloader.py:58-74 | a newly placed plymouth stands directly behind the first systemd if there is one, else behind the first udev, else behind the first base, else first |
| `HookLists.EncryptStands` | installer/protogenos_installer/bootloader.py:41-50 | a new unlock hook, sd-encrypt exactly with systemd, stands directly before the first filesystems or last; a new keyboard directly before the first autodetect, or behind the other hooks |
| `HookLists.ConfiguredPlymouthStands` | installer/protogenos_installer/backend.py:1347-1368 | after the whole pipeline a new plymouth stands directly behind that same hook, whatever else was added and dropped |
| `HookLists.EditIsIdempotent` | installer/protogenos_installer/bootloader.py:35-86 | every edit made twice is made once |
| `HookLists.EditsCommute` | installer/protogenos_installer/bootloader.py:35-86 | any two of plymouth, encryption and dropping an unrelated hook give the same list in either order, for every list |
| `HookLists.ConfiguringConserves` | installer/protogenos_installer/backend.py:1347-1368 | the whole pipeline keeps every hook but kms, in order and number, and adds only plymouth, keyboard and one encrypt hook, each once and only if missing |
| `HookLists.PlymouthPrecedes` | installer/protogenos_installer/bootloader.py:58-74 | placed in a list, plymouth precedes an encrypt hook exactly when its anchor does or there is none |
| `HookLists.PlymouthPrecedesEncrypt` | installer/protogenos_installer/backend.py:1347-1368 | after the whole pipeline, with encryption or without, for each encrypt hook, old or added: plymouth stands before it exactly when it did already, or when the anchor it is placed after stands before it (before filesystems or the end for an added one) or there is none |
| `HookLists.SplashComesFirstIff` | installer/protogenos_installer/bootloader.py:58-60 | so plymouth comes before every encrypt hook exactly when that holds of each of them |
| `HookLists.PlymouthCanFollowEncrypt` | installer/protogenos_installer/bootloader.py:58-60 | two lists on which it does not: an encrypt hook of the other kind before systemd, and one before the only anchor |
| `HookText.ParseText` | installer/protogenos_installer/bootloader.py:27 | a file with its parts put together is split into the same parts by the search |
| `HookText.TextParse` | installer/protogenos_installer/bootloader.py:27 | the search splits a file into text that spells it again, at the first line that opens with HOOKS=( |
| `HookText.NoParse` | installer/protogenos_installer/bootloader.py:38-40 | when the search finds nothing there is no hooks line at all |
| `HookText.EditTextIs` | installer/protogenos_installer/bootloader.py:51-55 | editing a file edits its hook list and leaves every character outside the parentheses alone; it fails exactly when there is no hooks line |
| `HookText.OrderNeverMatters` | installer/protogenos_installer/backend.py:1347-1368 | edits made in any order and any number of times write the same file, character by character |
| `HookText.AddEncryptHook` | installer/protogenos_installer/bootloader.py:35-55 | the function edits the file by the encrypt edit; the hooks it adds stand directly before filesystems and autodetect |
| `HookText.AddPlymouthHook` | installer/protogenos_installer/bootloader.py:58-74 | the function edits the file by the plymouth edit: in the list of the file written a new plymouth stands directly behind systemd, else udev, else base, else first, and with plymouth there already the file is unchanged |
| `HookText.RemoveHook` | installer/protogenos_installer/bootloader.py:77-86 | the function drops every occurrence of the hook and no other |
| `HookText.ConfigureInitramfs` | installer/protogenos_installer/backend.py:1347-1368 | the pipeline's file is the one its edits write, with a new plymouth directly behind systemd, else udev, else base, else first; with nothing to do the file is not even read |
| `Words.SplitYieldsWords` | installer/protogenos_installer/bootloader.py:32-41 | splitting gives nonempty words without whitespace |
| `Words.SplitsAtSpace` | installer/protogenos_installer/bootloader.py:32-41 | any whitespace character separates: what stands before it and behind it is split as if alone |
| `Words.SplitJoin` | installer/protogenos_installer/bootloader.py:51-55 | joining words with spaces and splitting gives them back |
| `KernelCmdline.BuildCmdline` | installer/protogenos_installer/bootloader.py:95-134 | the parameter list grown step by step is unlock, root and extra parameters in this order, joined by spaces |
| `KernelCmdline.ParametersAre` | installer/protogenos_installer/bootloader.py:95-134 | exactly which parameters the line has for which settings: unlock, root, rootflags, rw and each extra; and ttyS0 is the last console named |
| `KernelCmdline.MissingConfNamesSystemd` | installer/protogenos_installer/backend.py:1380-1382 | without a mkinitcpio.conf an encrypted root is named as a systemd initramfs expects it |
| `KernelCmdline.HookDecides` | installer/protogenos_installer/bootloader.py:89-120 | with the right unlock hook in the file, the parameters name the same way to unlock |
| `KernelCmdline.CmdlineIsItsWords` | installer/protogenos_installer/bootloader.py:134 | the command line splits back into exactly its parameters |
| `KernelCmdline.UnlockAgrees` | installer/protogenos_installer/backend.py:1347-1394 | for every starting hook list: after configuring encryption, systemd with sd-encrypt and exactly one rd.luks.name=, or no systemd with encrypt and exactly one cryptdevice=, and never the other kind |
| `Ansi.ApplyCodes` | installer-web/src/lib/logFormat.ts:75-101 | the code loop ends on every list, malformed 38/48 included, in the style the codes leave one after the other |
| `Ansi.SgrMeans` | installer-web/src/lib/logFormat.ts:75-101 | for every list, cut into what each code takes: bold exactly when the last of 0, 1 and 22 is a 1, or it was and none occurs; the colour is the one of the last code that selects or clears one, with 30+k, 90+k, 38;5;n and 38;2;r;g;b selecting, 0 and 39 clearing, and 48 doing neither |
| `Ansi.ShownIsMeant` | installer-web/src/lib/logFormat.ts:54-104 | character by character: each is shown in the style that all codes before it mean in that sense |
| `Ansi.EscapesAre` | installer-web/src/lib/logFormat.ts:52 | what is cut out is exactly ESC [ parameters letter, and ESC ] text ended by BEL or ESC backslash, in its full extent; the parameters count when the letter is m |
| `Ansi.CodesReadBack` | installer-web/src/lib/logFormat.ts:75 | numbers joined by semicolons, empty ones for 0, are read back as these codes |
| `Ansi.Push` | installer-web/src/lib/logFormat.ts:60-68 | a chunk extends the last segment or starts one; the text is conserved and the segments stay a run-length form |
| `Ansi.ParseAnsi` | installer-web/src/lib/logFormat.ts:54-104 | the segments expand to exactly the escape-free characters, each with the colour and boldness that the codes before it mean, with no empty segment and neighbours that differ |
| `Ansi.RunLengthsAreUnique` | installer-web/src/lib/logFormat.ts:60-68 | a styled text has only one run-length form |
| `Ansi.ShownIsUnescaped` | installer-web/src/lib/logFormat.ts:106-110 | the characters shown are the line without its escape sequences |
| `Ansi.FormatLogLine` | installer-web/src/lib/logFormat.ts:106-110 | a line is classified by its escape-free text |
| `Session.InstallSession.constructor` | installer/protogenos_installer/webapi.py:71-77 | a new session is idle and empty |
| `Session.InstallSession.AppendLog` | installer/protogenos_installer/webapi.py:79-90 | a line is appended; a well-formed step line sets the step, a new warning is kept |
| `Session.InstallSession.Start` | installer/protogenos_installer/webapi.py:92-101 | a running session refuses; any other starts empty |
| `Session.InstallSession.Finish` | installer/protogenos_installer/webapi.py:103-106 | the run ends as failed for a nonempty message and as done otherwise |
| `Session.InstallSession.TakeSnapshot` | installer/protogenos_installer/webapi.py:108-118 | one consistent view of the state, with the lines from the cursor on |
| `Session.StateIsItsLog` | installer/protogenos_installer/webapi.py:79-101 | after a start the step is the last one the log announces and the warnings are the log's, each once, in order |
| `Session.SummaryRepeatsNothing` | installer/protogenos_installer/backend.py:852-853 | printing all warnings again at the end leaves the shown warnings as they were |
| `Session.StepLineReadsBack` | installer/protogenos_installer/backend.py:871-873 | a printed step line reads back as its index, total and title, whatever the title |
| `Session.ReadStepIff` | installer/protogenos_installer/webapi.py:82-86 | a line announces a step exactly when it is the prefix, digits, a slash, digits and a title behind the first colon and blank, or none |
| `Session.LastStepIs` | installer/protogenos_installer/webapi.py:79-90 | the step of a log is the one announced by the last line that announces any |
| `Session.SliceIsSuffix` | installer/protogenos_installer/webapi.py:110 | a reply holds the lines from the cursor on, and from a negative one that many from the end |
| `LogPolling.ProgressView.OnStatus` | installer-web/src/screens/ProgressScreen.tsx:27-43 | the poll callback moves the cursor, appends the lines and records the outcome |
| `LogPolling.StepIsCoherent` | installer/protogenos_installer/webapi.py:108-118 | however many polls overlap, every response on its way carries its part of the log, and the final log when it reports the end |
| `LogPolling.DeliveryKeepsStepIff` | installer-web/src/screens/ProgressScreen.tsx:27-31 | a response keeps the shown lines equal to the log up to the cursor exactly when it was asked for at the present cursor |
| `LogPolling.DeliveredExactlyOnce` | installer-web/src/screens/ProgressScreen.tsx:19-49 | with one poll at a time and any responses lost, the shown lines are the log up to the cursor, and the whole log, with the session's own outcome, once it is seen |
| `LogPolling.StepShownIsLogged` | installer-web/src/screens/ProgressScreen.tsx:27-43 | in every run, overlapping polls included, the step shown is the last one announced up to the cursor |
| `LogPolling.StepShownIsTheLinesLast` | installer-web/src/screens/ProgressScreen.tsx:27-43 | with one poll at a time it is the last one announced by the lines shown |
| `LogPolling.OutcomeReportsError` | installer-web/src/screens/ProgressScreen.tsx:33-43 | the outcome seen is success, with the warnings of the lines shown, exactly when the run gave `finish` no error or an empty message; otherwise it is the message given |
| `LogPolling.EmptyMessageIsSeenAsDone` | installer/protogenos_installer/webapi.py:103-106 | a run that fails with an empty message and is seen as done, from every session |
| `LogPolling.OutcomeIsFinal` | installer-web/src/screens/ProgressScreen.tsx:33-40 | once seen, nothing changes the lines, the outcome or the session |
| `LogPolling.OnePollCatchesUp` | installer-web/src/screens/ProgressScreen.tsx:21-45 | one undisturbed poll shows the whole log, and the outcome if there is one |
| `LogPolling.OverlappingPollsRepeat` | installer-web/src/screens/ProgressScreen.tsx:21-49 | two polls sent before either returns show a line twice |
| `PartitionBar.SegmentsFor` | installer-web/src/components/PartitionBar.tsx:37-93 | the bar is the whole disk when erased, else the drawn partitions and gaps with the chosen gap marked |
| `PartitionBar.SortedIsAscending` | installer-web/src/components/PartitionBar.tsx:50 | sorted by start, disjoint partitions follow one another |
| `PartitionBar.LargestFree` | installer-web/src/components/PartitionBar.tsx:84-86 | the reduce finds the first of the largest free segments |
| `PartitionBar.PreviewIsThePicture` | installer-web/src/components/PartitionBar.tsx:37-93 | for every layout of disjoint partitions: segments in order, disjoint and inside the disk, each partition covered exactly, only gaps under 16 MiB left out |
| `PartitionBar.PicturesInOrder` | installer-web/src/components/PartitionBar.tsx:37-93 | what that picture means segment by segment |
| `PartitionBar.GapsAvoidPartitions` | installer-web/src/components/PartitionBar.tsx:52-54 | no gap shown holds a byte of a partition, for every list of partitions, overlapping ones included |
| `PartitionBar.PartSegmentsAre` | installer-web/src/components/PartitionBar.tsx:55-76 | how each partition is drawn, labelled and coloured: kept and new halves for a shrink, new for the root, lost for a boot partition to be formatted, else kept |
| `PartitionBar.FirstLargestIsNew` | installer-web/src/components/PartitionBar.tsx:82-91 | without a shrink, exactly the first of the largest gaps shown is marked and labelled for the new system |
| `FreedTail.TakesFreedIff` | installer/protogenos_installer/storage.py:420-427 | after a shrink the largest region is the whole MiB behind the shrunk partition exactly when, before it, no free region had more of them and none in front as many |
| `FreedTail.MarkedIsTail` | installer-web/src/components/PartitionBar.tsx:57-69 | the segment shown as new for a shrink is the tail cut off the partition |
| `FreedTail.TailIsTakenIff` | installer-web/src/components/PartitionBar.tsx:31-35 | for an accepted shrink the installer takes bytes of that tail under exactly this condition, and otherwise none |
| `FreedTail.TailCanStayUnused` | installer-web/src/components/PartitionBar.tsx:31-35 | a disk on which the shrink is accepted, 17 GiB are cut off and marked, and the installer takes the space in front |
| `MarkedGap.RegionIsUsable` | installer-web/src/components/PartitionBar.tsx:52-54 | every region the installer is offered, if at least 16 MiB, is exactly the whole MiB of one gap shown |
| `MarkedGap.UsableIsRegion` | installer-web/src/components/PartitionBar.tsx:52-54 | and the whole MiB of a gap, if at least 16, are a region the installer is offered |
| `MarkedGap.MarkedHoldsRegionIff` | installer-web/src/components/PartitionBar.tsx:82-91 | the gap marked for the new system contains the region the installer takes exactly when no gap shown has more whole MiB and no earlier one as many |
| `MarkedGap.MarkedGapCanMissRegion` | installer-web/src/components/PartitionBar.tsx:82-91 | a disk on which the bar marks one gap and the installer takes the other |
| `Preview.KeptIsSpared` | installer-web/src/components/PartitionBar.tsx:55-76 | on existing partitions the bar shows as kept exactly the partitions the installer spares |
| `Preview.FatesAre` | installer-web/src/components/PartitionBar.tsx:55-76 | on existing partitions exactly the root is shown as new, and exactly a boot partition that is to be formatted as lost |
| `Preview.FatesComeTrue` | installer-web/src/components/PartitionBar.tsx:55-76 | once such an installation is done, a partition shown as new or lost has been written over from end to end, and the new one carries the root |
| `Preview.KeptBytesSurvive` | installer-web/src/components/PartitionBar.tsx:55-76 | no byte the bar shows as kept is overwritten by the installation it previews, finished or failed at any command |
| `Utf8.DecodeEncode` | installer/protogenos_installer/network.py:79 | strict UTF-8 decoding undoes encoding for every string |
| `Utf8.FromHexOfHex` | installer/protogenos_installer/network.py:83-86 | reading a hex text gives its bytes back |
| `WifiNames.NameReadsBack` | installer/protogenos_installer/network.py:74-89 | every SSID is read back from its file name, which is one path component with the security type as suffix |
| `WifiNames.FileNameIs` | installer/protogenos_installer/network.py:74-80 | a name stands for itself exactly when it is nonempty and made of letters, digits, blanks, - and _, and is spelled in hex otherwise |
| `WifiNames.NamesAreDistinct` | installer/protogenos_installer/network.py:74-80 | different networks never share a file name |
| `WifiNames.SsidValueReadsBack` | installer/protogenos_installer/network.py:120-127 | the plain and the byte-list form cannot be confused and each reads back |
| `WifiNames.SsidValueIs` | installer/protogenos_installer/network.py:123-127 | printable ASCII without semicolon and backslash is spelled as it is, anything else as its UTF-8 bytes |
| `WifiNames.TrimmedReadsBackIff` | installer/protogenos_installer/network.py:120-127 | a reader that trims values gets the SSID back exactly when it is not printable text with a space at an end |
| `WifiNames.RenderKeyfile` | installer/protogenos_installer/network.py:120-141 | the list of lines built step by step, joined |
| `WifiNames.KeyfileReadsBack` | installer/protogenos_installer/network.py:120-141 | the SSID reads back from the text of the whole keyfile |
| `WifiNames.SecretReadsBack` | installer/protogenos_installer/network.py:138-141 | for a passphrase without a line break, the text holds it, and asks for it, exactly for a psk network with one |
| `WifiNames.WifiSection` | installer/protogenos_installer/network.py:128-137 | the section [wifi] of the lines: mode and ssid |
| `WifiNames.SecuritySection` | installer/protogenos_installer/network.py:138-139 | the section [wifi-security], there exactly for a psk network with a passphrase |
| `WifiNames.AddressSection` | installer/protogenos_installer/network.py:140 | the sections [ipv4] and [ipv6]: automatic addresses |
| `Documents.ValidateNames` | installer/protogenos_installer/backend.py:375-384 | the loop over the users accepts exactly names that are new each time, and neither the main user's nor root |
| `Documents.ValidatedHaveOnePassword` | installer/protogenos_installer/backend.py:375-384 | validated users have one password per name |
| `Documents.UsersLoadIff` | installer/protogenos_installer/config_io.py:43-50 | the users load back exactly when users of one name share a password |
| `Documents.LaterPasswordIsSaved` | installer/protogenos_installer/config_io.py:49 | of two users with one name the later one's password is saved |
| `Replay.SaveConfig` | installer/protogenos_installer/config_io.py:27-40 | the exported document is the settings without the secrets, and the users without passwords |
| `Replay.TakeSecrets` | installer/protogenos_installer/config_io.py:68-72 | the secrets the credentials hold are assigned, and user_password defaults to empty |
| `Replay.LoadDocuments` | installer/protogenos_installer/config_io.py:53-86 | the loader, check by check |
| `Replay.LoadsIff` | installer/protogenos_installer/config_io.py:53-86 | exactly which documents load: version 1, a persona, selections that are lists, known settings, users with the known keys, and the required settings |
| `Replay.SettingsLoadAs` | installer/protogenos_installer/config_io.py:65-86 | what each setting loads as: a given secret, else what was saved, else its default, spelled out for every setting |
| `Replay.UsersLoadAs` | installer/protogenos_installer/config_io.py:73-77 | what each user loads as: name and consent as saved, the password of that name or none |
| `Replay.ChoicesLoadAs` | installer/protogenos_installer/config_io.py:53-86 | the persona, the selections and the AUR consent loaded |
| `Replay.ReplayIff` | installer/protogenos_installer/config_io.py:27-86 | after a JSON pass the two documents load to the same persona, selections, AUR consent and configuration exactly when no name has two passwords |
| `Replay.ValidatedReplays` | installer/protogenos_installer/config_io.py:27-86 | so every configuration with validated users replays |
| `Replay.LoadsWithoutSecrets` | installer/protogenos_installer/config_io.py:53-86 | without credentials the shared document loads to the same configuration, its passwords blank |
| `Replay.SharedHidesSecrets` | installer/protogenos_installer/config_io.py:27-40 | configurations that differ only in passwords export the same shared document |
| `Replay.SavedInstallReplays` | installer/protogenos_installer/config_io.py:53-86 | an unattended run from the saved documents uses the same configuration and resolves to the same plan |
| `Profiles.GroupsFor` | installer/protogenos_installer/profiles.py:97-107 | the dictionary filled in the loop gives the groups in first-seen order, each with its choices in order |
| `Profiles.ResolvePlan` | installer/protogenos_installer/profiles.py:109-165 | the nested loops yield the plan, or the error of the first group that fails |
| `PlanContents.PlanInOrder` | installer/protogenos_installer/profiles.py:109-165 | the plan's packages are the layers in their order and then the packages of the chosen options, group by group in the order of the groups and, within one, of the identifiers, each once |
| `PlanContents.PlanInstalls` | installer/protogenos_installer/profiles.py:149-165 | a package is in the plan exactly when a layer has it or a selected option is that package, and among the AUR packages exactly when a selected option from the AUR is |
| `PlanContents.SelectionsAre` | installer/protogenos_installer/profiles.py:131-136 | every group offered to the persona has a selection: what was asked, or else the options that are the persona's defaults; none twice |
| `PlanContents.GroupTakesAsItsFirst` | installer/protogenos_installer/profiles.py:104-107 | a group takes as many options as the first of its choices offered to the persona says |
| `PlanContents.ResolvesIff` | installer/protogenos_installer/profiles.py:109-155 | a request resolves exactly when the persona is known, it names only groups offered to it, and every group's selection is of the right number, known and installable |
| `Profiles.ResolveIsFixed` | installer/protogenos_installer/profiles.py:109-165 | resolving a plan's own persona and selections gives the plan again |
| `Profiles.PlanIsAllowed` | installer/protogenos_installer/profiles.py:134-155 | every offered group has a selection, of the right number, of its own installable choices, and of what was asked |
| `Profiles.PlanListsOnce` | installer/protogenos_installer/profiles.py:156-165 | every package is listed once |

## Left out

- Subprocesses, HTTP, React rendering, D-Bus, threads and files themselves: commands are modelled by their effect, requests and responses by their contents.
- The text of parted, lsblk, ntfsresize, resize2fs and pacman output: the model starts from records. Printed extents are taken to be disjoint and inside the disk, and the sector size to divide 1 MiB.
- Mount options, filesystem labels, passphrases and the UUIDs read back: a command is modelled by its device, directory, filesystem, subvolume and flag. The names of new partitions are not recorded.
- Device paths are partition numbers; choosing between "sda1" and "nvme0n1p1" spellings is not modelled.
- A command takes effect or fails without effect; a command that fails half-way is not modelled. The mapper is closed and nothing is mounted under the target when an installation begins.
- The minimum a filesystem reports is taken to be its real minimum, and "100%" and MiB bounds given to parted on an erased disk to fall on the bounds they name.
- Joins and waits with a timeout may return at any time, which is what the model allows them; what a killed process does to its files is not modelled.
- A pacman.conf without a multilib section when multilib is asked for, whose error the worker does not catch.
- The dry-run branches, which skip the checks the theorems rest on.
- Carriage returns: the program reads mkinitcpio.conf with its newlines translated, and the model starts from the translated text.
- `set_shell_variable`, the pacman.conf edits, boot artwork, systemd units, GRUB and fail2ban text, the shell scripts, hardware, locale and feature detection: short tables or fixed text.
- `classifyLine`: prefixes and regular expressions over the text that FormatLogLine proves to be the line without its escape sequences.
- Log characters are code points, where JavaScript counts UTF-16 units; escape sequences are plain ASCII either way. Numerals in SGR codes beyond 2^53 are not rounded.
- Step lines with digits outside ASCII, which Python's isdigit and int treat differently.
- The JSON documents' "install" member is an object or absent; a selection given as an object and user names that are not texts, which make the loader fail with another exception, are not modelled. Exceptions of the loader are one error result each.
- Reading the options and package manifest files: the model starts from their parsed records, and takes each persona's manifest to exist.
- `read_iwd_credentials`: only its file names, not the parsing of passphrase lines.
- Storage.StorageManager.EraseLayout: says what the new table is, and nothing about the old contents of the disk, because erasing keeps none.
- Shrink.AlignedOrSlackIsEnough: needs an aligned start or a MiB of slack, because without either the code's check is short by up to a MiB; Shrink.AcceptedShrinkCanFallShort is the input and Shrink.EnoughAfterShrink the exact condition.
- PrefetchTheorems.SerialRestartsRunOneDownload: needs restarts that do not overlap, because overlapping ones leave two downloads running; PrefetchTheorems.StaleIffAbandoned is the exact step at which that happens.
- PrefetchTheorems.LoneWorkerSettles: needs no other thread outstanding, because a late restart can end the worker; PrefetchTheorems.EndsWellIffTurnKept is the exact condition, and PrefetchTheorems.InstalledWorkerSettles what holds in every run.
- LogPolling.OutcomeReportsError: needs polls that do not overlap, as the delivery it rests on does.
- LogPolling.DeliveredExactlyOnce: needs polls that do not overlap, because two mounted effects can poll at once; LogPolling.DeliveryKeepsStepIff is the exact condition.
