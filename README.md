# imagebuilder: a Dafny model of the build session, its helpers, the model cache and the clone bindings

`imagebuilder` builds bootable disk images for conary-based systems. A build session
(`ImageBuilder`) allocates an image file, partitions it, attaches its partitions through
`kpartx`, makes and mounts a filesystem, installs into it, runs tag scripts inside a new PID
namespace, writes boot-loader files, and finally tears everything down best-effort in
`cleanUp`. `ModelCacheCache` keeps conary model-cache files keyed by the SHA-1 of the system
model. `clone.py` binds the raw `clone` and `getpid` system calls through a lazily loaded libc.

The Dafny modules:

- `Text`: the Python string operations the code relies on, namely `startswith`, `in`,
  `split`, `'\n'.join`, single-pass `replace`, whitespace `split()`, `os.path.basename`,
  and `os.path.dirname` for paths that end in a file name, with the lemmas about them that
  the rest uses.
- `ImageBuilder`: the session as a class `Builder` with the fields `mountDevice`,
  `loopDevices`, `rootdir` and `conaryDbMounted`.
  - Every external effect goes to a `Host` value. For each action it says whether the
    action raises, which paths exist and what a command prints.
  - A ghost `trace` records the issued actions in order.
  - Each release step has an outcome function, and the methods are proved against those.
  - The pure helpers are sector arithmetic, `kpartx` output parsing and mapper-to-loop
    device derivation.
- `ContainedProcess`: the `clone` method of the session as functions from the outcomes
  the operating system gives to the child's event trace and exit code and to the parent's
  classification of the wait status.
- `ImageFiles`: the text and byte rewrites that the session methods perform:
  - the `prefix:tarball` split;
  - the inittab rewrite (with `readlines` and `''.join` modelled exactly);
  - the tag-script filter;
  - the MBR path and short-write check;
  - the `menu.lst` rewrite.
- `ModelCache`: the filesystem as a class over a map from path to bytes plus a set of
  directories, and `ModelCacheCache` with `prime` and `store`. These are specified by
  functions on filesystem values, with lemmas about never overwriting, idempotence and
  round trips.
- `CloneSyscalls`: the `CLONE_*` flags as 32-bit vectors, the syscall-number tables,
  `hostbits` and the bind-once `LateBoundLibc`.

## Model

| member | source | states |
|---|---|---|
| ImageBuilder.Builder.constructor | imagebuilder/__init__.py:46-63 | a new session mounts through the image itself, has no attached devices, no root directory and no database tmpfs, and has issued nothing |
| ImageBuilder.Builder.CleanUp | imagebuilder/__init__.py:69-81 | runs the five release steps in the fixed order; each step's actions are issued whatever the earlier steps did, and no failure escapes |
| ImageBuilder.Builder.ReleaseInTurn | imagebuilder/__init__.py:73-81 | the loop of cleanUp over the release steps: each step's actions follow the previous ones' whatever they did |
| ImageBuilder.CleanUpActions | imagebuilder/__init__.py:73-81 | what cleanUp issues is the database unmount, then the pseudo-filesystem unmounts, the root unmount, the unloop and the root removal, concatenated |
| ImageBuilder.CleanUpUnmountsConarydbFirst | imagebuilder/__init__.py:73 | once a root exists, the first teardown action is the database unmount, whether or not the database was ever mounted |
| ImageBuilder.CleanUpRemovesRootdirLast | imagebuilder/__init__.py:65-67 | once a root exists, the last teardown action is removing it, whatever failed before |
| ImageBuilder.KpartxFailureStopsOnlyUnloop | imagebuilder/__init__.py:196-198 | a failing `kpartx -d` ends unloopImage with an error and issues nothing more of it, yet teardown still removes the root right after |
| ImageBuilder.FailedPseudoUnmountStopsStep | imagebuilder/__init__.py:349-355 | the first failing pseudo-filesystem unmount ends the step; the ones after it are not attempted |
| ImageBuilder.PseudoUnmountOrder | imagebuilder/__init__.py:250-256 | the pseudo-filesystems are unmounted in mount order with only the last two swapped, the same set, and not in reverse |
| ImageBuilder.TeardownBeforeMount | imagebuilder/__init__.py:69-81 | after a failure between attaching and mounting, with no root yet, teardown issues a bare `umount`, then `kpartx -d`, then, only when that succeeds, the attached device's release; when neither the mapping nor the loop device's backing file is left, that is all it issues |
| ImageBuilder.SequencedFailureSticks | imagebuilder/__init__.py:349-355 | in a step made of consecutive commands, the first failure decides the outcome and later commands are not run |
| ImageBuilder.RunAllSucceeds | imagebuilder/__init__.py:349-355 | when every command succeeds, all are issued and the step succeeds |
| ImageBuilder.RunAllStopsAt | imagebuilder/__init__.py:349-355 | the commands up to and including the first failing one are issued, and the step fails |
| ImageBuilder.RunAll | imagebuilder/__init__.py:349-355 | what a run of consecutive commands issues is a prefix of them, non-empty when they are; it succeeds exactly when every command does, and then issues all of them; every issued command but the last succeeded, and a failure is the last one's |
| ImageBuilder.UnmountConarydbOutcome | imagebuilder/__init__.py:346-347 | without a root the string concatenation raises before anything runs; otherwise exactly the unmount of the database directory under the root is issued |
| ImageBuilder.UnmountFilesystemsOutcome | imagebuilder/__init__.py:349-355 | without a root nothing runs and the step fails; otherwise a non-empty prefix of the six unmounts under the root is issued, stopping at the first failure, and the step succeeds exactly when all six unmounts do, in which case all six were issued in that order |
| ImageBuilder.UnmountFilesystemOutcome | imagebuilder/__init__.py:214-215 | exactly one `umount` is issued, with the root as its operand when there is a root |
| ImageBuilder.LoopDeviceOf | imagebuilder/__init__.py:203 | the loop device name is empty or at least two characters shorter than the mapper device |
| ImageBuilder.BackingFileOf | imagebuilder/__init__.py:204-205 | the backing file is `backing_file` in `/sys/block/<loop device name>/loop` |
| ImageBuilder.DeviceReleaseIssues | imagebuilder/__init__.py:200-207 | it issues only `dmsetup remove` of the device and `losetup -d` of its loop device; the first is issued exactly when the device exists, the second exactly when the backing file exists and no `dmsetup remove` failed before it; it stops at the first failure |
| ImageBuilder.DevicesReleaseOutcome | imagebuilder/__init__.py:199-207 | the loop over the devices stops at the first failing command, and a failure always issued something |
| ImageBuilder.DevicesReleaseInOrder | imagebuilder/__init__.py:199-207 | the loop returns normally exactly when every device's release does, and then it has issued each device's release in list order |
| ImageBuilder.DevicesReleaseStopsAt | imagebuilder/__init__.py:199-207 | when device k is the first whose release raises, the loop has issued the releases of devices 0 to k in list order, including k's partial release, and nothing after it, and it raises |
| ImageBuilder.UnloopImageOutcome | imagebuilder/__init__.py:196-207 | with no attached devices nothing is issued and the step succeeds; otherwise `kpartx -d` comes first, and when it fails it is the only action and the step fails; when it succeeds the device loop follows it, and the step succeeds exactly when every device's release does |
| ImageBuilder.UnloopReleasesEveryDevice | imagebuilder/__init__.py:196-207 | when `kpartx -d` and every device's release succeed, the step issues `kpartx -d` and then each device's release in list order, and succeeds |
| ImageBuilder.UnloopStopsAtDevice | imagebuilder/__init__.py:196-207 | when `kpartx -d` succeeds and device k is the first whose release raises, the step issues `kpartx -d` and the releases of devices 0 to k in order, then fails |
| ImageBuilder.RemoveRootdirOutcome | imagebuilder/__init__.py:65-67 | without a root nothing happens and the step succeeds; otherwise exactly the removal of the root directory is attempted |
| ImageBuilder.Builder.RemoveRootdir | imagebuilder/__init__.py:65-67 | removes the root directory when there is one, and raises when the removal does |
| ImageBuilder.Builder.UnmountConarydb | imagebuilder/__init__.py:346-347 | unmounts the database directory under the root unconditionally |
| ImageBuilder.Builder.UnmountFilesystems | imagebuilder/__init__.py:349-355 | unmounts the six pseudo-filesystems in source order, stopping at the first failure |
| ImageBuilder.Builder.UnmountFilesystem | imagebuilder/__init__.py:214-215 | unmounts the root, or runs `umount` with no operand when there is no root |
| ImageBuilder.Builder.ReleaseDevice | imagebuilder/__init__.py:200-208 | removes the mapping if the device exists, then detaches the derived loop device if its backing file exists |
| ImageBuilder.Builder.ReleaseDevices | imagebuilder/__init__.py:200-208 | releases the attached devices in order, stopping at the first failure |
| ImageBuilder.Builder.UnloopImage | imagebuilder/__init__.py:196-208 | does nothing without devices, otherwise `kpartx -d` and then each device's release |
| ImageBuilder.Builder.Release | imagebuilder/__init__.py:73-81 | one release step's actions and outcome, as its outcome function says |
| ImageBuilder.MapperToLoopDevice | imagebuilder/__init__.py:203-206 | `/dev/mapper/<name>` becomes `/dev/` plus the name without its last two characters, and the backing file is looked up under `/sys/block/` for that name |
| ImageBuilder.LoopZeroPartitionOne | imagebuilder/__init__.py:203-204 | `/dev/mapper/loop0p1` becomes `/dev/loop0` |
| ImageBuilder.FirstThirdField | imagebuilder/__init__.py:189-190 | there is a result exactly when some output line is non-empty and every non-empty line has three fields; the result is the first non-empty line's third field |
| ImageBuilder.MapperName | imagebuilder/__init__.py:187-190 | a mapper name taken from the kpartx output is a non-empty word with no whitespace, and empty output gives none, so `loopImage` raises |
| ImageBuilder.KpartxAddMapLine | imagebuilder/__init__.py:187-190 | a kpartx line `add map <name> ...` yields the mapper name `<name>` |
| ImageBuilder.Builder.LoopImage | imagebuilder/__init__.py:186-191 | runs `kpartx -a -v`; on success mountDevice is `/dev/mapper/` plus the parsed name and is appended to loopDevices, otherwise neither changes |
| ImageBuilder.PartitionBounds | imagebuilder/__init__.py:166-175 | the partition starts at sector 2048 (1 MiB); it ends at sectors-1 for `msdos` and at sectors-127 for any other label, leaving room for the 34-sector GPT backup; the first sector is at or before the last exactly when the image is at least 2 MiB, so for a 1 MiB image the code asks parted for a partition whose end precedes its start |
| ImageBuilder.Builder.PartitionImage | imagebuilder/__init__.py:176-184 | runs parted with the session's label, then sgdisk's legacy-boot attribute only for `gpt` and only when parted succeeded |
| ImageBuilder.Builder.MountFilesystem | imagebuilder/__init__.py:210-212 | the root is recorded before the mount runs, so teardown sees it even when the mount fails |
| ImageBuilder.Builder.MountConarydb | imagebuilder/__init__.py:262-266 | without a root it raises and issues nothing; otherwise it mounts the tmpfs and sets conaryDbMounted only on success |
| Text.Split | imagebuilder/__init__.py:434 | `split` on one character gives at least one part, and no part contains the separator |
| Text.JoinSplit | imagebuilder/__init__.py:434-450 | joining the parts of a split with the separator gives back the text |
| Text.SplitJoin | imagebuilder/__init__.py:434-450 | parts free of the separator, joined by it, split back into exactly those parts |
| Text.Fields | imagebuilder/__init__.py:190 | whitespace `split()` gives non-empty words with no whitespace, and none exactly when the text is all whitespace |
| Text.FieldsAppend | imagebuilder/__init__.py:190 | when the second text starts with whitespace, the fields of the joined text are those of the first followed by those of the second |
| Text.FieldsAtSpace | imagebuilder/__init__.py:190 | a whitespace character separates the fields on its two sides: the fields of `a + [c] + b` are those of `a` followed by those of `b` |
| Text.FieldsOfWord | imagebuilder/__init__.py:190 | a non-empty text holding no whitespace is a single field |
| Text.FieldsCons | imagebuilder/__init__.py:190 | a word followed by a space is the first field, followed by the fields of the rest |
| Text.Replace | imagebuilder/__init__.py:432 | `replace` never shortens the text when the replacement is at least as long as the pattern, never lengthens it when it is at most as long, and replacing a pattern by itself changes nothing |
| Text.ReplaceAtFirst | imagebuilder/__init__.py:432 | the first match is replaced, the text before it kept, and the scan resumes after the match |
| Text.ReplaceNoMatch | imagebuilder/__init__.py:485-488 | text with no match is left unchanged |
| ContainedProcess.LaunchFlagsLayout | imagebuilder/__init__.py:91 | the flags word is SIGCHLD in the exit-signal byte plus CLONE_NEWPID and nothing else |
| ContainedProcess.Child | imagebuilder/__init__.py:95-129 | every child path ends in `_exit` and only there; the command runs exactly when the namespace pid is 1 and logging it did not raise, and otherwise a non-1 pid exits with 0; for pid 1 the code is 1 exactly when the log writes or the command raised; SIGTERM follows the try block; the 2 s sleep and SIGKILL happen exactly when SIGTERM was delivered, in that order |
| ContainedProcess.ExitCodeIgnoresKills | imagebuilder/__init__.py:109-129 | whether the kills are delivered never changes the exit code |
| ContainedProcess.CloneCall | imagebuilder/__init__.py:88-138 | a negative clone result raises "clone failed"; in the parent, a status that is not a normal exit raises "killed", a nonzero exit raises "command failed", and exit 0 returns |
| ContainedProcess.ParentSeesChildExit | imagebuilder/__init__.py:95-138 | a child that runs to its exit is seen by the parent as an error exactly when it was pid 1 and its log writes or the command raised |
| ContainedProcess.KilledChildRaises | imagebuilder/__init__.py:132-136 | a child ended by a signal makes the parent raise "container killed" |
| ContainedProcess.ExitedStatusDecodes | imagebuilder/__init__.py:132-137 | an exit code's wait status decodes as a normal exit with that code modulo 256 |
| ImageFiles.SplitPrefix | imagebuilder/__init__.py:371-374 | without a colon the prefix is `/` and the argument is the tarball; with one, the prefix is the text before the first colon and the tarball the rest |
| ImageFiles.SplitPrefixOfJoined | imagebuilder/__init__.py:372-374 | a colon-free prefix joined with any tarball by `:` splits back into exactly the two |
| ImageFiles.ExtractIntoPrefix | imagebuilder/__init__.py:365-375 | `prefix:tarball` extracts that tarball under the root plus that prefix |
| ImageFiles.ExtractArgv | imagebuilder/__init__.py:365-375 | the tar command is `tar -C <dir> -x -z -f <tarball>`; without a colon the directory is the root plus `/` and the tarball is the argument; with one, the directory and tarball joined by `:` give back the root plus the argument, and the directory adds no colon to the root |
| ImageFiles.ReadLines | imagebuilder/__init__.py:421 | every line `readlines` gives ends in exactly one newline except possibly the last, which has none, and joined they give back the file |
| ImageFiles.ReadLinesConcat | imagebuilder/__init__.py:421-428 | lines that each end in one newline (the last may lack it) read back unchanged once joined |
| ImageFiles.SetInitlevel | imagebuilder/__init__.py:420-428 | the lines written are `Reinit` of the lines read: as many lines as were read, an `id:` line containing `initdefault` becomes `id:<level>:initdefault:`, every other line is kept; the file is their concatenation |
| ImageFiles.InittabLine | imagebuilder/__init__.py:423-427 | a written line is an initdefault line exactly when the read line was, and any other line is copied |
| ImageFiles.Reinit | imagebuilder/__init__.py:422-427 | as many lines are written as were read, the initdefault lines stay in their places, and with a level that holds no newline the lines keep the shape `readlines` gives |
| ImageFiles.InitdefaultLineIsInitdefault | imagebuilder/__init__.py:424-425 | the replacement line is itself matched by the rule |
| ImageFiles.LastLevelWins | imagebuilder/__init__.py:423-427 | rewriting a line twice is the same as rewriting it once with the second level |
| ImageFiles.NoInitdefaultKeepsFile | imagebuilder/__init__.py:420-428 | an inittab without an initdefault line is written back byte for byte |
| ImageFiles.SetInitlevelTwice | imagebuilder/__init__.py:420-428 | setting a level that holds no newline and then another gives the same file as setting only the second |
| ImageFiles.RewriteTagScript | imagebuilder/__init__.py:431-450 | the written lines are the filter state machine over the ldconfig-prefixed lines plus one empty line, joined by newlines |
| ImageFiles.TagLines | imagebuilder/__init__.py:432-434 | the lines the filter reads start with `/sbin/ldconfig`, number at least two, and hold no newline |
| ImageFiles.FilterTags | imagebuilder/__init__.py:436-448 | the filter keeps at most as many lines as it reads and only lines it read |
| ImageFiles.FilterKeepsPlainLines | imagebuilder/__init__.py:437-448 | lines before any tag header are kept in order |
| ImageFiles.FilterDropsBlock | imagebuilder/__init__.py:438-446 | a kernel/extlinux/udev `files update` header through the next `EOF` line inclusive is dropped |
| ImageFiles.FilterDropsUnterminatedBlock | imagebuilder/__init__.py:438-446 | a header with no later `EOF` drops everything after it |
| ImageFiles.RemoveLdconfigLines | imagebuilder/__init__.py:432 | when ldconfig appears only as whole lines, the replace deletes exactly those lines except the last line |
| ImageFiles.TagScriptStartsWithLdconfig | imagebuilder/__init__.py:432-449 | the rewritten script starts with the `/sbin/ldconfig` line and ends with an empty element |
| ImageFiles.TagScriptRunsLdconfigOnce | imagebuilder/__init__.py:432-449 | with whole ldconfig lines, `/sbin/ldconfig` is the first kept line and appears nowhere after it |
| ImageFiles.MbrBesideExtlinux | imagebuilder/__init__.py:313-316 | the MBR image is `gptmbr.bin` for the `gpt` label and `mbr.bin` for any other, in the root's `/boot/extlinux` |
| ImageFiles.WriteMbr | imagebuilder/__init__.py:338-344 | no or empty MBR leaves the image alone; otherwise it raises exactly when fewer bytes were written, and a full write puts the MBR at the start, keeping the rest of the image |
| ImageFiles.MenuLstAfter | imagebuilder/__init__.py:479-488 | an existing menu.lst is never overwritten; without grub.conf nothing is written; otherwise menu.lst is the rewritten grub.conf |
| ImageFiles.MenuLst | imagebuilder/__init__.py:483-488 | the rewrite never shortens grub.conf, and a grub.conf with no indented kernel line and no `timeout=5` is copied unchanged |
| ImageFiles.LowerOnlyTimeout | imagebuilder/__init__.py:486-487 | the single `timeout=5` becomes `timeout=1` and the rest is kept |
| ImageFiles.MenuLstForOneEntry | imagebuilder/__init__.py:483-488 | for one timeout and one kernel line, the timeout is lowered to 1 and `root (hd0)` is inserted before the kernel line, nothing else changing |
| ModelCache.TargetFileDir | imagebuilder/mcc.py:29 | the target file is `modelcache` in the root's `/var/lib/conarydb` |
| ModelCache.HashFileInCacheDir | imagebuilder/mcc.py:31 | a hex digest names a file directly inside the cache directory |
| ModelCache.HashFileKeyedByDigest | imagebuilder/mcc.py:30-31 | two entries are the same path exactly when their digests are equal |
| ModelCache.ModelCacheCache.constructor | imagebuilder/mcc.py:27-31 | keeps the directory, places the target file under the root and keys the entry by the SHA-1 of the model text |
| ModelCache.ModelCacheCache.Prime | imagebuilder/mcc.py:33-38 | the filesystem afterwards and whether it raised are those of the prime function |
| ModelCache.ModelCacheCache.Store | imagebuilder/mcc.py:40-44 | the filesystem afterwards and whether it raised are those of the store function |
| ModelCache.PrimeFs | imagebuilder/mcc.py:33-38 | without an entry nothing changes and nothing raises; otherwise only the target file and the target's directory can change, no directory disappears, and a raising copy changes no file |
| ModelCache.StoreFs | imagebuilder/mcc.py:40-44 | with an entry present nothing changes, so an entry is never overwritten; otherwise only the entry and the cache directory can change, no directory disappears, and a raising copy changes no file |
| ModelCache.StoreSavesTarget | imagebuilder/mcc.py:41-44 | without an entry but with a target file, store does not raise, saves the target's bytes as the entry, changes no other file, and the cache directory exists afterwards |
| ModelCache.FileSystem.Copy | imagebuilder/mcc.py:38 | copies a file's bytes to the destination, or raises and changes nothing when the source is not a file |
| ModelCache.PrimeInstallsEntry | imagebuilder/mcc.py:34-38 | with a cached file, the target gets its bytes, the target's directory exists afterwards, and no other file changes |
| ModelCache.PrimeOfDirectoryEntryRaises | imagebuilder/mcc.py:34-38 | an entry that is a directory makes prime raise without changing any file |
| ModelCache.StoreWithoutTargetRaises | imagebuilder/mcc.py:41-44 | without an entry or a target file, store raises after creating the cache directory |
| ModelCache.StoreIdempotent | imagebuilder/mcc.py:40-44 | a second store leaves the filesystem as the first left it |
| ModelCache.StoreThenPrime | imagebuilder/mcc.py:33-44 | storing one target and priming another from the entry gives the second exactly the first's bytes |
| ModelCache.StoredEntrySticks | imagebuilder/mcc.py:40-44 | a later store after the target changed leaves the stored entry as it was |
| CloneSyscalls.CloneFlagsAreDistinctBits | imagebuilder/clone.py:24-45 | every CLONE flag is one bit outside the exit-signal byte, no two overlap, and CLONE_NEWPID is 0x20000000 |
| CloneSyscalls.LookupSyscalls | imagebuilder/clone.py:50-63 | exactly the five listed (machine, bits) pairs have numbers: 56 and 39 for 64-bit keys, 120 and 20 for 32-bit keys |
| CloneSyscalls.UnsupportedHostFailsImport | imagebuilder/clone.py:47-63 | any other pair, such as x86_64 with 32 bits, has no entry |
| CloneSyscalls.Hostbits | imagebuilder/clone.py:48 | 64 exactly when some search-path entry contains `/lib64/`, 32 otherwise |
| CloneSyscalls.U32 | imagebuilder/clone.py:81-82 | the flags argument is reduced to an unsigned 32-bit value, leaving values already in range unchanged |
| CloneSyscalls.LateBoundLibc.constructor | imagebuilder/clone.py:65-68 | the library starts unbound |
| CloneSyscalls.LateBoundLibc.Bind | imagebuilder/clone.py:69-71 | the first bind loads the library, and later ones keep the one already bound |
| CloneSyscalls.LateBoundLibc.Syscall | imagebuilder/clone.py:73-75 | binds if needed and forwards the number and arguments to the bound library |
| CloneSyscalls.Clone | imagebuilder/clone.py:79-82 | forwards the clone number with the 32-bit flags and three null arguments |
| CloneSyscalls.GetPid | imagebuilder/clone.py:84-86 | forwards the getpid number with no arguments |
| CloneSyscalls.BindsOnce | imagebuilder/clone.py:65-75 | two calls offered different libraries both go to the first one |

## Left out

- Running external tools (parted, sgdisk, kpartx, dmsetup, losetup, mount, umount, tar, and the rest): each is an action whose success and output come from the `Host` value. The `Host`'s sets of existing paths and failing commands are fixed for a whole run, so no command changes them: a path cannot vanish between two checks (a device listed twice, for example, still exists after its first `dmsetup remove`).
- Real system calls and process control (`ctypes.CDLL`, `libc.syscall`, `os.kill`, `os.waitpid`, `os._exit`, `time.sleep`): foreign calls, represented as requests and trace events. `clone`'s fork is modelled by asking which side of it a process is on.
- SHA-1 internals: the digest is a function given to the constructor. That different model texts get different digests is not claimed.
- `os.makedirs` creating missing ancestors and its mode, `shutil.copy` onto a directory destination, and copying into a directory that does not exist: the filesystem model records the created directory itself and copies between file paths only.
- File reads and writes around the rewrites (`/etc/inittab`, `/tmp/tag-script`, `grub.conf`, `menu.lst`, the image's first bytes): each rewrite is a function from the text read to the text written.
- The rest of `finishFilesystem` (the extlinux run, the copy of the database off the tmpfs and the unmounts): only the MBR path and the short-write check are modelled.
- In `runTagScripts`, the final call through `clone` is modelled separately as `ContainedProcess.CloneCall`. In `runBootman`, the default root.conf and the bootman run are not modelled; only the menu.lst rewrite is.
- `installTarball` creating the extraction directory: only the tar argument vector is modelled.
- Allocation, filesystem creation, `prepareFilesystem`'s mknod/chmod/fstab, `writePostConfig`, `createBootloaderConf`, `createTarball`, `tuneConarydb`, `installSystem`, `removeRollbacks`, password handling, `createInitrd` and `runPostScript`: plumbing without decisions of their own.
- `rootShell` and the `inspectFailure` branch of `cleanUp`: interactive debugging.
- Log and error message text, including `raiseError`'s output.
- The level given to `setInitlevel` is taken as the text that `'%s' %` produces from it.
- TagScriptRunsLdconfigOnce: holds only when `/sbin/ldconfig` occurs in the tag script as whole lines and not as the last line, because the single-pass replace otherwise merges a line ending in `/sbin/ldconfig` with the next one.
- MenuLstForOneEntry: covers a config with one `timeout=5` before one indented kernel line and no `=` between them; configs with several entries rely on `MenuLst` itself.
- The unmount order of the pseudo-filesystems is stated as the code has it (only the last two swapped), not as the reverse of the mount order.
- A child whose namespace pid is not 1 exits with code 0, so the parent treats it as success. The model states this as written.
- Dirname: models `os.path.dirname` only for paths whose last component is a file name after a single slash; for `/x` it gives the empty string where Python gives `/`, and doubled slashes are not collapsed. Every path the model takes the directory of is a fixed name under a root or cache directory.
- Child: the writes to the error descriptor at `imagebuilder/__init__.py`:98, 107, 110, 121 and 127 are taken to return normally. If the write at 107 raised, the exit code would stay 0 and the parent would see success; if any of the others raised, the exception would leave the child without reaching `_exit`. Only the writes at 102-104 (logging the command) have a raising outcome.
- CloneCall: the parent's writes to the error descriptor at `imagebuilder/__init__.py`:131 and 133 are taken to return normally, so the parent always reaches `waitpid` and the classification of the status; if either raised, that exception would leave `clone` in place of the modelled result.
