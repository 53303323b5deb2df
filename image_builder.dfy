/**
 * One image-build session: the backing image, the device it is reached
 * through, the device-mapper devices attached to it, the temporary root
 * directory it is mounted on, and whether the package database sits on a
 * tmpfs. The acquiring steps modelled here are partitioning, attaching the
 * partitions through kpartx, mounting the root and mounting the database;
 * the releasing steps are the five that `cleanUp` runs.
 *
 * Every external effect goes through the host: a command either succeeds
 * (and yields its standard output) or raises, a directory removal either
 * succeeds or raises, and `os.path.exists` answers from the host's set of
 * present paths. The ghost field `trace` records every action issued, in
 * order.
 */
module ImageBuilder {
  import opened Wrappers
  import opened Text

  /**
   * Partition-table labels, as parted names them. A session's label is any
   * string its creator passes; only these two are tested for.
   */
  const DOS := "msdos"
  const GPT := "gpt"

  /** One external action: a command run with its argument vector, or `os.rmdir`. */
  datatype Action = Run(argv: seq<string>) | RemoveDir(path: string)

  /** The answers the host gives: which actions raise, which paths exist, what commands print. */
  datatype Host = Host(fails: set<Action>, present: set<string>, output: map<Action, string>) {
    predicate Succeeds(a: Action) {
      a !in fails
    }

    predicate Exists(path: string) {
      path in present
    }

    function Stdout(a: Action): string {
      if a in output then output[a] else ""
    }
  }

  /** The actions a step issued, in order, and whether it returned normally (false: it raised). */
  datatype Outcome = Outcome(actions: seq<Action>, ok: bool)

  /**
   * A step that raises at its first failing action: every action but the
   * last succeeded, all of them did when the step returned normally, and
   * the last one failed when the step raised after issuing something.
   */
  predicate StopsAtFirstFailure(o: Outcome, h: Host) {
    (forall i :: 0 <= i < |o.actions| - 1 ==> h.Succeeds(o.actions[i]))
    && (o.ok ==> forall i :: 0 <= i < |o.actions| ==> h.Succeeds(o.actions[i]))
    && (!o.ok && o.actions != [] ==> !h.Succeeds(o.actions[|o.actions| - 1]))
  }

  /** The fields of a session that the steps read. */
  datatype Session = Session(
    image: string,
    partType: string,
    fstype: string,
    mountDevice: string,
    loopDevices: seq<string>,
    rootdir: Option<string>,
    conaryDbMounted: bool)

  const ConarydbDir := "/var/lib/conarydb"

  /** The pseudo-filesystems `prepareFilesystem` mounts under the root, in mount order. */
  const PseudoMounts: seq<string> := ["/proc", "/dev/pts", "/sys", "/dev/shm", "/tmp", "/var/tmp"]

  /** The order `unmountFilesystems` unmounts them in. */
  const PseudoUnmounts: seq<string> := ["/proc", "/dev/pts", "/sys", "/dev/shm", "/var/tmp", "/tmp"]

  /**
   * The pseudo-filesystems are unmounted in nearly the order they were
   * mounted, not in reverse: the first one mounted is also the first one
   * unmounted, and only the last two are swapped.
   */
  lemma PseudoUnmountOrder()
    ensures PseudoUnmounts == PseudoMounts[..4] + [PseudoMounts[5], PseudoMounts[4]]
    ensures multiset(PseudoUnmounts) == multiset(PseudoMounts)
    ensures PseudoUnmounts[0] == PseudoMounts[0] == "/proc"
    ensures PseudoUnmounts[0] != PseudoMounts[|PseudoMounts| - 1]
  {
    var m := PseudoMounts;
    assert m == m[..4] + [m[4], m[5]];
    assert multiset(m[..4] + [m[5], m[4]]) == multiset(m[..4]) + multiset{m[5], m[4]};
    assert multiset(m[..4] + [m[4], m[5]]) == multiset(m[..4]) + multiset{m[4], m[5]};
  }

  function Umount(path: string): Action {
    Run(["umount", path])
  }

  /** Steps run one after another; the first that raises ends the run. */
  function Sequenced(steps: seq<Outcome>): Outcome
    decreases |steps|
  {
    if steps == [] then Outcome([], true)
    else
      var before := Sequenced(steps[..|steps| - 1]);
      if !before.ok then before
      else Outcome(before.actions + steps[|steps| - 1].actions, steps[|steps| - 1].ok)
  }

  /** One more step, after steps that all returned normally. */
  lemma SequencedStep(steps: seq<Outcome>, i: nat)
    requires i < |steps| && Sequenced(steps[..i]).ok
    ensures Sequenced(steps[..i + 1])
      == Outcome(Sequenced(steps[..i]).actions + steps[i].actions, steps[i].ok)
  {
    assert steps[..i + 1][..i] == steps[..i];
  }

  /** Once a step raises, the run has ended: later steps add nothing. */
  lemma {:induction false} SequencedFailureSticks(steps: seq<Outcome>, k: nat)
    requires k <= |steps| && !Sequenced(steps[..k]).ok
    ensures Sequenced(steps) == Sequenced(steps[..k])
    decreases |steps| - k
  {
    if k < |steps| {
      var n := |steps|;
      assert steps[..n - 1][..k] == steps[..k];
      SequencedFailureSticks(steps[..n - 1], k);
    } else {
      assert steps[..k] == steps;
    }
  }

  /** The actions of `steps`, one after another. */
  function ConcatActions(steps: seq<Outcome>): seq<Action>
    decreases |steps|
  {
    if steps == [] then [] else ConcatActions(steps[..|steps| - 1]) + steps[|steps| - 1].actions
  }

  /** A run returns normally exactly when each of its steps does, and then it has issued all of their actions. */
  lemma {:induction false} SequencedAllOk(steps: seq<Outcome>, k: nat)
    requires k <= |steps|
    ensures Sequenced(steps[..k]).ok <==> forall i :: 0 <= i < k ==> steps[i].ok
    ensures Sequenced(steps[..k]).ok ==> Sequenced(steps[..k]).actions == ConcatActions(steps[..k])
    decreases k
  {
    if k == 0 {
      assert steps[..0] == [];
    } else {
      SequencedAllOk(steps, k - 1);
      assert steps[..k][..k - 1] == steps[..k - 1];
    }
  }

  /** Steps that each stop at their first failure, run in sequence, stop at the first failure overall. */
  lemma {:induction false} SequencedStopsAtFirstFailure(steps: seq<Outcome>, h: Host)
    requires forall k :: 0 <= k < |steps| ==> StopsAtFirstFailure(steps[k], h)
    requires forall k :: 0 <= k < |steps| && !steps[k].ok ==> steps[k].actions != []
    ensures StopsAtFirstFailure(Sequenced(steps), h)
    ensures !Sequenced(steps).ok ==> Sequenced(steps).actions != []
    decreases |steps|
  {
    if steps != [] {
      var n := |steps|;
      SequencedStopsAtFirstFailure(steps[..n - 1], h);
      var before := Sequenced(steps[..n - 1]);
      if before.ok {
        var last := steps[n - 1];
        var a := before.actions + last.actions;
        assert forall i :: 0 <= i < |before.actions| ==> a[i] == before.actions[i];
        assert forall i :: |before.actions| <= i < |a| ==> a[i] == last.actions[i - |before.actions|];
      }
    }
  }

  /** One action as a step: it is issued, and the step raises when the action does. */
  function Attempt(a: Action, h: Host): Outcome {
    Outcome([a], h.Succeeds(a))
  }

  function Attempts(cmds: seq<Action>, h: Host): seq<Outcome> {
    seq(|cmds|, i requires 0 <= i < |cmds| => Attempt(cmds[i], h))
  }

  /**
   * Runs `cmds` in order; the first one that raises ends the step. What is
   * issued is a prefix of the commands, all of them exactly when none raises.
   */
  function RunAll(cmds: seq<Action>, h: Host): (r: Outcome)
    ensures r.actions <= cmds && (cmds != [] ==> r.actions != [])
    ensures r.ok <==> forall i :: 0 <= i < |cmds| ==> h.Succeeds(cmds[i])
    ensures r.ok ==> r.actions == cmds
    ensures StopsAtFirstFailure(r, h)
  {
    var steps := Attempts(cmds, h);
    RunAllIssuesPrefix(cmds, h, |cmds|);
    assert steps[..|cmds|] == steps && cmds[..|cmds|] == cmds;
    SequencedStopsAtFirstFailure(steps, h);
    Sequenced(steps)
  }

  lemma {:induction false} RunAllIssuesPrefix(cmds: seq<Action>, h: Host, k: nat)
    requires k <= |cmds|
    ensures var r := Sequenced(Attempts(cmds, h)[..k]);
      r.actions <= cmds[..k] && (k > 0 ==> r.actions != [])
      && (r.ok <==> forall i :: 0 <= i < k ==> h.Succeeds(cmds[i]))
      && (r.ok ==> r.actions == cmds[..k])
    decreases k
  {
    var steps := Attempts(cmds, h);
    if k == 0 {
      assert steps[..0] == [];
    } else {
      RunAllIssuesPrefix(cmds, h, k - 1);
      assert steps[..k][..k - 1] == steps[..k - 1];
      assert cmds[..k] == cmds[..k - 1] + [cmds[k - 1]];
      assert cmds[..k][..k - 1] == cmds[..k - 1];
    }
  }

  /** While every command succeeds, exactly the commands so far have been issued. */
  lemma {:induction false} RunAllPrefix(cmds: seq<Action>, h: Host, k: nat)
    requires k <= |cmds|
    requires forall i :: 0 <= i < k ==> h.Succeeds(cmds[i])
    ensures Sequenced(Attempts(cmds, h)[..k]) == Outcome(cmds[..k], true)
    decreases k
  {
    var steps := Attempts(cmds, h);
    if k == 0 {
      assert steps[..0] == [];
    } else {
      RunAllPrefix(cmds, h, k - 1);
      SequencedStep(steps, k - 1);
      assert cmds[..k] == cmds[..k - 1] + [cmds[k - 1]];
    }
  }

  /** When nothing raises, every command is issued and the step returns normally. */
  lemma RunAllSucceeds(cmds: seq<Action>, h: Host)
    requires forall i :: 0 <= i < |cmds| ==> h.Succeeds(cmds[i])
    ensures RunAll(cmds, h) == Outcome(cmds, true)
  {
    RunAllPrefix(cmds, h, |cmds|);
    assert Attempts(cmds, h)[..|cmds|] == Attempts(cmds, h);
    assert cmds[..|cmds|] == cmds;
  }

  /** Where `RunAll` stops: at the first command that raises, which is the last one issued. */
  lemma RunAllStopsAt(cmds: seq<Action>, h: Host, k: nat)
    requires k < |cmds| && !h.Succeeds(cmds[k])
    requires forall i :: 0 <= i < k ==> h.Succeeds(cmds[i])
    ensures RunAll(cmds, h) == Outcome(cmds[..k + 1], false)
  {
    var steps := Attempts(cmds, h);
    RunAllPrefix(cmds, h, k);
    SequencedStep(steps, k);
    assert cmds[..k + 1] == cmds[..k] + [cmds[k]];
    SequencedFailureSticks(steps, k + 1);
  }

  // ---------------------------------------------------------------------
  // The five release steps, as functions of the session and the host
  // ---------------------------------------------------------------------

  /** `unmountConarydb`: unmounts the database tmpfs whether or not it was mounted. */
  function UnmountConarydbOutcome(s: Session, h: Host): (r: Outcome)
    ensures StopsAtFirstFailure(r, h)
    ensures s.rootdir.None? ==> r == Outcome([], false)
    ensures s.rootdir.Some? ==> r.actions == [Umount(s.rootdir.value + ConarydbDir)]
  {
    match s.rootdir
    case None => Outcome([], false)  // None + str raises before anything runs
    case Some(root) =>
      var a := Umount(root + ConarydbDir);
      Outcome([a], h.Succeeds(a))
  }

  function PseudoUnmountCommands(root: string): seq<Action> {
    seq(|PseudoUnmounts|, i requires 0 <= i < |PseudoUnmounts| => Umount(root + PseudoUnmounts[i]))
  }

  /** `unmountFilesystems`: six unmounts; the first that raises stops the rest. */
  function UnmountFilesystemsOutcome(s: Session, h: Host): (r: Outcome)
    ensures StopsAtFirstFailure(r, h)
    ensures s.rootdir.None? ==> r == Outcome([], false)
    ensures s.rootdir.Some? ==> r.actions != [] && r.actions <= PseudoUnmountCommands(s.rootdir.value)
    ensures s.rootdir.Some? && r.ok ==> r.actions == PseudoUnmountCommands(s.rootdir.value)
    ensures s.rootdir.Some? ==>
      (r.ok <==> forall i :: 0 <= i < |PseudoUnmounts| ==> h.Succeeds(Umount(s.rootdir.value + PseudoUnmounts[i])))
  {
    match s.rootdir
    case None => Outcome([], false)
    case Some(root) =>
      var cmds := PseudoUnmountCommands(root);
      assert forall i :: 0 <= i < |PseudoUnmounts| ==> cmds[i] == Umount(root + PseudoUnmounts[i]);
      RunAll(cmds, h)
  }

  /** `unmountFilesystem`: `umount rootdir`; with no root the argument is dropped. */
  function UnmountFilesystemOutcome(s: Session, h: Host): (r: Outcome)
    ensures StopsAtFirstFailure(r, h)
    ensures |r.actions| == 1 && r.actions[0].Run? && r.actions[0].argv != [] && r.actions[0].argv[0] == "umount"
    ensures s.rootdir.Some? ==> r.actions == [Run(["umount", s.rootdir.value])]
  {
    var a := Run(["umount"] + (if s.rootdir.Some? then [s.rootdir.value] else []));
    assert s.rootdir.Some? ==> a == Run(["umount", s.rootdir.value]);
    Outcome([a], h.Succeeds(a))
  }

  function DropLastTwo(s: string): string {
    if |s| < 2 then "" else s[..|s| - 2]
  }

  /** The loop device behind a mapper partition: '/mapper' removed, then the last two characters. */
  function LoopDeviceOf(device: string): (r: string)
    ensures r == "" || |r| + 2 <= |device|
  {
    DropLastTwo(Replace(device, "/mapper", ""))
  }

  /** Where sysfs names the file behind a loop device: the device's own name under `/sys/block`. */
  function BackingFileOf(loopDevice: string): (r: string)
    ensures Dirname(r) == "/sys/block/" + Basename(loopDevice) + "/loop"
    ensures Basename(r) == "backing_file"
  {
    var dir := "/sys/block/" + Basename(loopDevice) + "/loop";
    DirnameOfChild(dir, "backing_file");
    BasenameAfterSlash(dir, "backing_file");
    dir + "/" + "backing_file"
  }

  /** One iteration of `unloopImage`'s loop: remove a stray mapping, then detach the loop device. */
  function DeviceReleaseOutcome(device: string, h: Host): Outcome {
    var remove := Run(["dmsetup", "remove", device]);
    if h.Exists(device) && !h.Succeeds(remove) then Outcome([remove], false)
    else
      var removed := if h.Exists(device) then [remove] else [];
      var base := LoopDeviceOf(device);
      var detach := Run(["losetup", "-d", base]);
      if h.Exists(BackingFileOf(base)) then Outcome(removed + [detach], h.Succeeds(detach))
      else Outcome(removed, true)
  }

  /**
   * Releasing one device issues only `dmsetup remove` of it and `losetup -d`
   * of its loop device: the first exactly when the device exists, the second
   * exactly when the backing file exists and no `dmsetup remove` failed
   * before it; it stops at the first failure.
   */
  lemma DeviceReleaseIssues(device: string, h: Host)
    ensures var r := DeviceReleaseOutcome(device, h);
      StopsAtFirstFailure(r, h) && (!r.ok ==> r.actions != [])
    ensures var r := DeviceReleaseOutcome(device, h);
      forall a :: a in r.actions ==>
        a == Run(["dmsetup", "remove", device]) || a == Run(["losetup", "-d", LoopDeviceOf(device)])
    ensures var r := DeviceReleaseOutcome(device, h);
      h.Exists(device) <==> r.actions != [] && r.actions[0] == Run(["dmsetup", "remove", device])
    ensures var r := DeviceReleaseOutcome(device, h);
      Run(["losetup", "-d", LoopDeviceOf(device)]) in r.actions <==>
        h.Exists(BackingFileOf(LoopDeviceOf(device))) && (h.Exists(device) ==> h.Succeeds(Run(["dmsetup", "remove", device])))
  {
  }

  /** The per-device steps of `unloopImage`'s loop. */
  function DeviceSteps(devices: seq<string>, h: Host): seq<Outcome> {
    seq(|devices|, k requires 0 <= k < |devices| => DeviceReleaseOutcome(devices[k], h))
  }

  /** What releasing each of `devices` in list order issues, when no release raises. */
  function ReleaseActions(devices: seq<string>, h: Host): seq<Action> {
    ConcatActions(DeviceSteps(devices, h))
  }

  /** The loop over `devices`, stopping at the first command that raises. */
  function DevicesReleaseOutcome(devices: seq<string>, h: Host): (r: Outcome)
    ensures StopsAtFirstFailure(r, h) && (!r.ok ==> r.actions != [])
  {
    var steps := DeviceSteps(devices, h);
    forall k | 0 <= k < |steps|
      ensures StopsAtFirstFailure(steps[k], h) && (!steps[k].ok ==> steps[k].actions != [])
    {
      DeviceReleaseIssues(devices[k], h);
    }
    SequencedStopsAtFirstFailure(steps, h);
    Sequenced(steps)
  }

  /**
   * The loop returns normally exactly when every device's release does, and
   * then it has issued every device's release, in list order.
   */
  lemma DevicesReleaseInOrder(devices: seq<string>, h: Host)
    ensures DevicesReleaseOutcome(devices, h).ok <==> forall i :: 0 <= i < |devices| ==> DeviceReleaseOutcome(devices[i], h).ok
    ensures DevicesReleaseOutcome(devices, h).ok ==> DevicesReleaseOutcome(devices, h).actions == ReleaseActions(devices, h)
  {
    var steps := DeviceSteps(devices, h);
    SequencedAllOk(steps, |steps|);
    assert steps[..|steps|] == steps;
    assert forall i :: 0 <= i < |devices| ==> steps[i] == DeviceReleaseOutcome(devices[i], h);
  }

  /** Where the loop stops: after the first device whose release raises, the devices before it all released. */
  lemma DevicesReleaseStopsAt(devices: seq<string>, h: Host, k: nat)
    requires k < |devices| && !DeviceReleaseOutcome(devices[k], h).ok
    requires forall i :: 0 <= i < k ==> DeviceReleaseOutcome(devices[i], h).ok
    ensures DevicesReleaseOutcome(devices, h) == Outcome(ReleaseActions(devices[..k + 1], h), false)
  {
    var steps := DeviceSteps(devices, h);
    SequencedAllOk(steps, k);
    SequencedStep(steps, k);
    assert steps[..k + 1][..k] == steps[..k];
    assert DeviceSteps(devices[..k + 1], h) == steps[..k + 1];
    SequencedFailureSticks(steps, k + 1);
  }

  function KpartxDelete(image: string): Action {
    Run(["kpartx", "-d", image])
  }

  /** `unloopImage`: nothing without devices; a failing `kpartx -d` ends the step. */
  function UnloopImageOutcome(s: Session, h: Host): (r: Outcome)
    ensures StopsAtFirstFailure(r, h)
    ensures s.loopDevices == [] ==> r == Outcome([], true)
    ensures s.loopDevices != [] ==> r.actions != [] && r.actions[0] == KpartxDelete(s.image)
    ensures s.loopDevices != [] && !h.Succeeds(KpartxDelete(s.image)) ==> r == Outcome([KpartxDelete(s.image)], false)
    ensures s.loopDevices != [] && h.Succeeds(KpartxDelete(s.image)) ==>
      r.actions == [KpartxDelete(s.image)] + DevicesReleaseOutcome(s.loopDevices, h).actions
      && (r.ok <==> forall i :: 0 <= i < |s.loopDevices| ==> DeviceReleaseOutcome(s.loopDevices[i], h).ok)
  {
    if s.loopDevices == [] then Outcome([], true)
    else
      var k := KpartxDelete(s.image);
      if !h.Succeeds(k) then Outcome([k], false)
      else
        var d := DevicesReleaseOutcome(s.loopDevices, h);
        DevicesReleaseInOrder(s.loopDevices, h);
        var a := [k] + d.actions;
        assert forall i :: 1 <= i < |a| ==> a[i] == d.actions[i - 1];
        Outcome(a, d.ok)
  }

  /** After `kpartx -d` works and no release raises, unloopImage has released every device, in list order. */
  lemma UnloopReleasesEveryDevice(s: Session, h: Host)
    requires s.loopDevices != [] && h.Succeeds(KpartxDelete(s.image))
    requires forall i :: 0 <= i < |s.loopDevices| ==> DeviceReleaseOutcome(s.loopDevices[i], h).ok
    ensures UnloopImageOutcome(s, h) == Outcome([KpartxDelete(s.image)] + ReleaseActions(s.loopDevices, h), true)
  {
    DevicesReleaseInOrder(s.loopDevices, h);
  }

  /**
   * After `kpartx -d` works, unloopImage releases the devices in list order
   * up to and including the first one whose release raises, and fails.
   */
  lemma UnloopStopsAtDevice(s: Session, h: Host, k: nat)
    requires h.Succeeds(KpartxDelete(s.image))
    requires k < |s.loopDevices| && !DeviceReleaseOutcome(s.loopDevices[k], h).ok
    requires forall i :: 0 <= i < k ==> DeviceReleaseOutcome(s.loopDevices[i], h).ok
    ensures UnloopImageOutcome(s, h) == Outcome([KpartxDelete(s.image)] + ReleaseActions(s.loopDevices[..k + 1], h), false)
  {
    DevicesReleaseStopsAt(s.loopDevices, h, k);
  }

  /** `removeRootdir`: `os.rmdir` of the root, when there is one. */
  function RemoveRootdirOutcome(s: Session, h: Host): (r: Outcome)
    ensures StopsAtFirstFailure(r, h)
    ensures s.rootdir.None? ==> r == Outcome([], true)
    ensures s.rootdir.Some? ==> r.actions == [RemoveDir(s.rootdir.value)]
  {
    match s.rootdir
    case None => Outcome([], true)
    case Some(root) => Outcome([RemoveDir(root)], h.Succeeds(RemoveDir(root)))
  }

  // ---------------------------------------------------------------------
  // cleanUp
  // ---------------------------------------------------------------------

  datatype ReleaseStep =
    | UnmountConarydbStep
    | UnmountFilesystemsStep
    | UnmountFilesystemStep
    | UnloopImageStep
    | RemoveRootdirStep

  /** The order `cleanUp` calls the release steps in. */
  const TeardownOrder: seq<ReleaseStep> :=
    [UnmountConarydbStep, UnmountFilesystemsStep, UnmountFilesystemStep, UnloopImageStep, RemoveRootdirStep]

  function ReleaseOutcome(step: ReleaseStep, s: Session, h: Host): Outcome {
    match step
    case UnmountConarydbStep => UnmountConarydbOutcome(s, h)
    case UnmountFilesystemsStep => UnmountFilesystemsOutcome(s, h)
    case UnmountFilesystemStep => UnmountFilesystemOutcome(s, h)
    case UnloopImageStep => UnloopImageOutcome(s, h)
    case RemoveRootdirStep => RemoveRootdirOutcome(s, h)
  }

  /** The actions of `steps` run one after another, each one's failure discarded. */
  function TeardownActions(steps: seq<ReleaseStep>, s: Session, h: Host): seq<Action>
    decreases |steps|
  {
    if steps == [] then []
    else TeardownActions(steps[..|steps| - 1], s, h) + ReleaseOutcome(steps[|steps| - 1], s, h).actions
  }

  lemma TeardownActionsStep(steps: seq<ReleaseStep>, i: nat, s: Session, h: Host)
    requires i < |steps|
    ensures TeardownActions(steps[..i + 1], s, h) == TeardownActions(steps[..i], s, h) + ReleaseOutcome(steps[i], s, h).actions
  {
    assert steps[..i + 1][..i] == steps[..i];
  }

  /**
   * What `cleanUp` issues: each of the five steps in turn, every one of them
   * whatever the steps before it did.
   */
  function CleanUpActions(s: Session, h: Host): (r: seq<Action>)
    ensures r == UnmountConarydbOutcome(s, h).actions + UnmountFilesystemsOutcome(s, h).actions
               + UnmountFilesystemOutcome(s, h).actions + UnloopImageOutcome(s, h).actions
               + RemoveRootdirOutcome(s, h).actions
  {
    var o := TeardownOrder;
    assert o[..0] == [];
    TeardownActionsStep(o, 0, s, h);
    TeardownActionsStep(o, 1, s, h);
    TeardownActionsStep(o, 2, s, h);
    TeardownActionsStep(o, 3, s, h);
    TeardownActionsStep(o, 4, s, h);
    assert o[..5] == o;
    TeardownActions(TeardownOrder, s, h)
  }

  /** The database unmount comes first as soon as there is a root, mounted or not. */
  lemma CleanUpUnmountsConarydbFirst(s: Session, h: Host, root: string)
    requires s.rootdir == Some(root)
    ensures |CleanUpActions(s, h)| >= 1 && CleanUpActions(s, h)[0] == Umount(root + ConarydbDir)
  {
  }

  /** The root directory is removed last, whatever every earlier command did. */
  lemma CleanUpRemovesRootdirLast(s: Session, h: Host, root: string)
    requires s.rootdir == Some(root)
    ensures var r := CleanUpActions(s, h); |r| >= 1 && r[|r| - 1] == RemoveDir(root)
  {
    assert RemoveRootdirOutcome(s, h).actions == [RemoveDir(root)];
  }

  /**
   * A failing `kpartx -d` ends the detach step before any per-device command,
   * yet `cleanUp` still goes on to remove the root directory.
   */
  lemma KpartxFailureStopsOnlyUnloop(s: Session, h: Host, root: string)
    requires s.loopDevices != [] && !h.Succeeds(KpartxDelete(s.image))
    requires s.rootdir == Some(root)
    ensures UnloopImageOutcome(s, h) == Outcome([KpartxDelete(s.image)], false)
    ensures var r := CleanUpActions(s, h);
      |r| >= 2 && r[|r| - 2] == KpartxDelete(s.image) && r[|r| - 1] == RemoveDir(root)
  {
  }

  /** A failing unmount of one pseudo-filesystem skips the ones after it. */
  lemma FailedPseudoUnmountStopsStep(s: Session, h: Host, root: string, k: nat)
    requires s.rootdir == Some(root) && k < |PseudoUnmounts|
    requires !h.Succeeds(Umount(root + PseudoUnmounts[k]))
    requires forall i :: 0 <= i < k ==> h.Succeeds(Umount(root + PseudoUnmounts[i]))
    ensures UnmountFilesystemsOutcome(s, h) == Outcome(PseudoUnmountCommands(root)[..k + 1], false)
  {
    RunAllStopsAt(PseudoUnmountCommands(root), h, k);
  }

  // ---------------------------------------------------------------------
  // Device names
  // ---------------------------------------------------------------------

  /** A string without '/' holds no occurrence of a pattern that begins with '/'. */
  lemma NoSlashNoMatch(s: string, pat: string)
    requires '/' !in s && pat != [] && pat[0] == '/'
    ensures NoMatchBefore(s, pat, |s| + 1)
  {
    forall i | 0 <= i < |s| + 1 && i <= |s|
      ensures !StartsWith(s[i..], pat)
    {
      if i < |s| {
        assert s[i..][0] == s[i];
      }
    }
  }

  /** No occurrence of '/mapper' starts inside the leading "/dev". */
  lemma DevPrefixNoMatch(rest: string)
    ensures NoMatchBefore("/dev" + rest, "/mapper", 4)
  {
    var s := "/dev" + rest;
    forall i | 0 <= i < 4 && i <= |s|
      ensures !StartsWith(s[i..], "/mapper")
    {
      assert s[i..][0] == s[i];
      if i == 0 && |s| >= 7 {
        assert s[..7][1] == 'd';
      }
    }
  }

  /** '/' followed by a name not starting with "mapper" is not an occurrence of '/mapper'. */
  lemma SlashNameNoMatch(name: string)
    requires !StartsWith(name, "mapper")
    ensures NoMatchBefore("/" + name, "/mapper", 1)
  {
    var pat := "/mapper";
    assert pat[1..] == "mapper";
    assert |name| >= 6 ==> ("/" + name)[..7][1..] == name[..6];
    assert ("/" + name)[0..] == "/" + name;
  }

  lemma MapperPathRegroup(name: string)
    ensures "/dev/mapper/" + name == "/dev" + ("/mapper" + ("/" + name))
    ensures "/dev" + ("/" + name) == "/dev/" + name
  {
  }

  /** Removing '/mapper' from a mapper path leaves the plain device path. */
  lemma ReplaceMapper(name: string)
    requires '/' !in name
    requires !StartsWith(name, "mapper")
    ensures Replace("/dev/mapper/" + name, "/mapper", "") == "/dev/" + name
  {
    var pat := "/mapper";
    var tail := "/" + name;
    MapperPathRegroup(name);
    DevPrefixNoMatch(pat + tail);
    ReplaceSkip("/dev", pat + tail, pat, "");
    assert (pat + tail)[|pat|..] == tail;
    assert StartsWith(pat + tail, pat);
    assert Replace(pat + tail, pat, "") == Replace(tail, pat, "");
    SlashNameNoMatch(name);
    ReplaceSkip("/", name, pat, "");
    NoSlashNoMatch(name, pat);
    ReplaceNoMatch(name, pat, "");
  }

  /** kpartx names partitions like `loop0p1`: '/mapper' goes, then the partition suffix. */
  lemma {:induction false} MapperToLoopDevice(name: string)
    requires '/' !in name && |name| >= 2
    requires !StartsWith(name, "mapper")
    ensures LoopDeviceOf("/dev/mapper/" + name) == "/dev/" + name[..|name| - 2]
    ensures BackingFileOf(LoopDeviceOf("/dev/mapper/" + name)) == "/sys/block/" + name[..|name| - 2] + "/loop/backing_file"
  {
    ReplaceMapper(name);
    var stem := name[..|name| - 2];
    assert ("/dev/" + name)[..|"/dev/" + name| - 2] == "/dev/" + stem;
    assert '/' !in stem by {
      assert forall k :: 0 <= k < |stem| ==> stem[k] == name[k];
    }
    BasenameAfterSlash("/dev", stem);
    assert "/dev" + "/" + stem == "/dev/" + stem;
  }

  /** `/dev/mapper/loop0p1` gives `/dev/loop0`. */
  lemma LoopZeroPartitionOne()
    ensures LoopDeviceOf("/dev/mapper/loop0p1") == "/dev/loop0"
  {
    assert "loop0p1"[0] != "mapper"[0];
    MapperToLoopDevice("loop0p1");
    assert "/dev/mapper/" + "loop0p1" == "/dev/mapper/loop0p1";
    assert "/dev/" + "loop0p1"[..5] == "/dev/loop0";
  }

  /** The non-empty lines all have at least three whitespace-separated fields. */
  predicate AllHaveThreeFields(lines: seq<string>) {
    forall i :: 0 <= i < |lines| && lines[i] != "" ==> |Fields(lines[i])| >= 3
  }

  /** Index of the first non-empty line, `|lines|` when there is none. */
  function FirstNonEmpty(lines: seq<string>): (k: nat)
    ensures k <= |lines|
    ensures forall j :: 0 <= j < k ==> lines[j] == ""
    ensures k < |lines| ==> lines[k] != ""
    decreases |lines|
  {
    if lines == [] || lines[0] != "" then 0
    else
      var k := FirstNonEmpty(lines[1..]);
      assert forall j :: 0 < j < |lines| ==> lines[j] == lines[1..][j - 1];
      1 + k
  }

  /**
   * `[x.split()[2] for x in lines if x][0]`: the third field of the first
   * non-empty line, and `None` (IndexError) when there is no non-empty line or
   * when any non-empty line has fewer than three fields.
   */
  function FirstThirdField(lines: seq<string>): (r: Option<string>)
    ensures r.Some? <==> (exists i :: 0 <= i < |lines| && lines[i] != "") && AllHaveThreeFields(lines)
    ensures r.Some? ==> exists i :: 0 <= i < |lines| && lines[i] != "" && (forall j :: 0 <= j < i ==> lines[j] == "")
                                 && r.value == Fields(lines[i])[2]
    ensures r.Some? ==> r.value != "" && NoSpace(r.value)
  {
    var k := FirstNonEmpty(lines);
    if k == |lines| || !AllHaveThreeFields(lines) then None
    else Some(Fields(lines[k])[2])
  }

  /** The mapper name `loopImage` takes from kpartx's verbose output. */
  function MapperName(kpartxOutput: string): (r: Option<string>)
    ensures r.Some? ==> r.value != "" && NoSpace(r.value)
    ensures kpartxOutput == "" ==> r.None?
  {
    assert kpartxOutput == "" ==> Split(kpartxOutput, '\n') == [""] by {
      if kpartxOutput == "" {
        SplitNoSep(kpartxOutput, '\n');
      }
    }
    FirstThirdField(Split(kpartxOutput, '\n'))
  }

  /** Three leading words, each followed by one space, are the first three fields. */
  lemma FieldsCons3(a: string, b: string, c: string, rest: string)
    requires a != "" && NoSpace(a) && b != "" && NoSpace(b) && c != "" && NoSpace(c)
    ensures Fields(a + " " + (b + " " + (c + " " + rest))) == [a, b, c] + Fields(rest)
  {
    FieldsCons(c, rest);
    FieldsCons(b, c + " " + rest);
    FieldsCons(a, b + " " + (c + " " + rest));
  }

  lemma AddMapRegroup(name: string, rest: string)
    ensures "add map " + name + " " + rest == "add" + " " + ("map" + " " + (name + " " + rest))
  {
  }

  lemma AddMapWords()
    ensures NoSpace("add") && NoSpace("map")
  {
  }

  /** The fields of kpartx's `add map NAME REST` line. */
  lemma AddMapFields(name: string, rest: string)
    requires name != "" && NoSpace(name)
    ensures Fields("add map " + name + " " + rest) == ["add", "map", name] + Fields(rest)
  {
    AddMapWords();
    FieldsCons3("add", "map", name, rest);
    AddMapRegroup(name, rest);
  }

  /** kpartx's verbose report `add map NAME ...` yields NAME. */
  lemma KpartxAddMapLine(name: string, rest: string)
    requires name != "" && NoSpace(name) && '\n' !in rest
    ensures MapperName("add map " + name + " " + rest + "\n") == Some(name)
  {
    var line := "add map " + name + " " + rest;
    assert '\n' !in name;
    assert '\n' !in line;
    SplitCons(line, '\n', "");
    assert line + "\n" == line + ['\n'] + "";
    AddMapFields(name, rest);
    var lines := Split(line + "\n", '\n');
    assert lines == [line, ""];
    assert line[0] == 'a';
    assert FirstNonEmpty(lines) == 0;
    assert AllHaveThreeFields(lines);
  }

  // ---------------------------------------------------------------------
  // Partitioning
  // ---------------------------------------------------------------------

  /**
   * First and last sector of the single partition on an image of `size` MiB
   * (512-byte sectors, 2048 per MiB).
   */
  function PartitionBounds(size: int, t: string): (r: (int, int))
    ensures r.0 == 2048 && r.0 * 512 == 0x10_0000
    ensures t == DOS ==> r.1 == size * 2048 - 1
    ensures t != DOS ==> r.1 == size * 2048 - 127 && r.1 + 34 < size * 2048
    ensures r.0 <= r.1 <==> size >= 2
  {
    var sectors := size * 2048;
    var first := 2048;
    var last := if t == DOS then sectors - 1 else sectors - 127;
    (first, last)
  }

  function PartedCommand(image: string, t: string, size: int): Action {
    var (first, last) := PartitionBounds(size, t);
    Run(["parted", "--script", image, "unit", "s", "mklabel", t,
         "mkpart", "primary", Decimal(first), Decimal(last), "set", "1", "boot", "on"])
  }

  /** sgdisk setting attribute bit 2 (legacy BIOS bootable) on partition 1. */
  function SgdiskLegacyBoot(image: string): Action {
    Run(["sgdisk", image, "--attributes=1:set:2"])
  }

  function MountCommand(device: string, fstype: string, root: string): Action {
    Run(["mount", device, "-o", "barrier=0,data=writeback", "-t", fstype, root])
  }

  function KpartxAdd(image: string): Action {
    Run(["kpartx", "-a", "-v", image])
  }

  // ---------------------------------------------------------------------
  // The session object
  // ---------------------------------------------------------------------

  class Builder {
    const image: string
    const partType: string
    const fstype: string
    var mountDevice: string
    var loopDevices: seq<string>
    var rootdir: Option<string>
    var conaryDbMounted: bool

    /** Every action issued to the host so far. */
    ghost var trace: seq<Action>

    function State(): Session
      reads this`mountDevice, this`loopDevices, this`rootdir, this`conaryDbMounted
    {
      Session(image, partType, fstype, mountDevice, loopDevices, rootdir, conaryDbMounted)
    }

    /** A new session: the raw image is the device, nothing attached, no root yet. */
    constructor (image: string, fstype: string, partType: string)
      ensures State() == Session(image, partType, fstype, image, [], None, false)
      ensures trace == []
    {
      this.image := image;
      this.fstype := fstype;
      this.partType := partType;
      mountDevice := image;
      loopDevices := [];
      rootdir := None;
      conaryDbMounted := false;
      trace := [];
    }

    /** `run`: issue one action; `ok` is false when it raised. */
    method Issue(h: Host, a: Action) returns (ok: bool)
      modifies this`trace
      ensures trace == old(trace) + [a]
      ensures ok == h.Succeeds(a)
    {
      trace := trace + [a];
      ok := h.Succeeds(a);
    }

    /** Consecutive `run` calls: the first one that raises ends the sequence. */
    method IssueAll(h: Host, cmds: seq<Action>) returns (ok: bool)
      modifies this`trace
      ensures trace == old(trace) + RunAll(cmds, h).actions
      ensures ok == RunAll(cmds, h).ok
    {
      ghost var steps := Attempts(cmds, h);
      var i := 0;
      while i < |cmds|
        invariant 0 <= i <= |cmds|
        invariant Sequenced(steps[..i]).ok
        invariant trace == old(trace) + Sequenced(steps[..i]).actions
      {
        SequencedStep(steps, i);
        ok := Issue(h, cmds[i]);
        if !ok {
          SequencedFailureSticks(steps, i + 1);
          return;
        }
        i := i + 1;
      }
      assert steps[..i] == steps;
      ok := true;
    }

    method RemoveRootdir(h: Host) returns (ok: bool)
      modifies this`trace
      ensures trace == old(trace) + RemoveRootdirOutcome(State(), h).actions
      ensures ok == RemoveRootdirOutcome(State(), h).ok
    {
      ok := true;
      if rootdir.Some? {
        ok := Issue(h, RemoveDir(rootdir.value));
      }
    }

    method UnmountConarydb(h: Host) returns (ok: bool)
      modifies this`trace
      ensures trace == old(trace) + UnmountConarydbOutcome(State(), h).actions
      ensures ok == UnmountConarydbOutcome(State(), h).ok
    {
      if rootdir.None? {
        return false;
      }
      ok := Issue(h, Umount(rootdir.value + ConarydbDir));
    }

    method UnmountFilesystems(h: Host) returns (ok: bool)
      modifies this`trace
      ensures trace == old(trace) + UnmountFilesystemsOutcome(State(), h).actions
      ensures ok == UnmountFilesystemsOutcome(State(), h).ok
    {
      if rootdir.None? {
        return false;
      }
      ok := IssueAll(h, PseudoUnmountCommands(rootdir.value));
    }

    method UnmountFilesystem(h: Host) returns (ok: bool)
      modifies this`trace
      ensures trace == old(trace) + UnmountFilesystemOutcome(State(), h).actions
      ensures ok == UnmountFilesystemOutcome(State(), h).ok
    {
      var argv := ["umount"] + (if rootdir.Some? then [rootdir.value] else []);
      ok := Issue(h, Run(argv));
    }

    /** The body of `unloopImage`'s loop, for one device. */
    method ReleaseDevice(h: Host, device: string) returns (ok: bool)
      modifies this`trace
      ensures trace == old(trace) + DeviceReleaseOutcome(device, h).actions
      ensures ok == DeviceReleaseOutcome(device, h).ok
    {
      if h.Exists(device) {
        ok := Issue(h, Run(["dmsetup", "remove", device]));
        if !ok {
          return;
        }
      }
      var base := LoopDeviceOf(device);
      ok := true;
      if h.Exists(BackingFileOf(base)) {
        ok := Issue(h, Run(["losetup", "-d", base]));
      }
    }

    /** The loop of `unloopImage` over the attached devices. */
    method ReleaseDevices(h: Host, devices: seq<string>) returns (ok: bool)
      modifies this`trace
      ensures trace == old(trace) + DevicesReleaseOutcome(devices, h).actions
      ensures ok == DevicesReleaseOutcome(devices, h).ok
    {
      ghost var steps := DeviceSteps(devices, h);
      var i := 0;
      while i < |devices|
        invariant 0 <= i <= |devices|
        invariant Sequenced(steps[..i]).ok
        invariant trace == old(trace) + Sequenced(steps[..i]).actions
      {
        SequencedStep(steps, i);
        ok := ReleaseDevice(h, devices[i]);
        if !ok {
          SequencedFailureSticks(steps, i + 1);
          return;
        }
        i := i + 1;
      }
      assert steps[..i] == steps;
      ok := true;
    }

    method UnloopImage(h: Host) returns (ok: bool)
      modifies this`trace
      ensures trace == old(trace) + UnloopImageOutcome(State(), h).actions
      ensures ok == UnloopImageOutcome(State(), h).ok
    {
      if loopDevices == [] {
        return true;
      }
      ok := Issue(h, KpartxDelete(image));
      if !ok {
        return;
      }
      ok := ReleaseDevices(h, loopDevices);
    }

    method Release(step: ReleaseStep, h: Host) returns (ok: bool)
      modifies this`trace
      ensures trace == old(trace) + ReleaseOutcome(step, State(), h).actions
      ensures ok == ReleaseOutcome(step, State(), h).ok
    {
      match step
      case UnmountConarydbStep => ok := UnmountConarydb(h);
      case UnmountFilesystemsStep => ok := UnmountFilesystems(h);
      case UnmountFilesystemStep => ok := UnmountFilesystem(h);
      case UnloopImageStep => ok := UnloopImage(h);
      case RemoveRootdirStep => ok := RemoveRootdir(h);
    }

    /**
     * `cleanUp`: every release step in turn, each step's failure discarded;
     * no error leaves it and no field of the session changes.
     */
    method CleanUp(h: Host)
      modifies this`trace
      ensures trace == old(trace) + TeardownActions(TeardownOrder, State(), h)
    {
      ReleaseInTurn(TeardownOrder, h);
    }

    /** Runs `steps` in turn, discarding each one's failure. */
    method ReleaseInTurn(steps: seq<ReleaseStep>, h: Host)
      modifies this`trace
      ensures trace == old(trace) + TeardownActions(steps, State(), h)
    {
      for i := 0 to |steps|
        invariant trace == old(trace) + TeardownActions(steps[..i], State(), h)
      {
        TeardownActionsStep(steps, i, State(), h);
        var _ := Release(steps[i], h);
      }
      assert steps[..|steps|] == steps;
    }

    // -------------------------------------------------------------------
    // Acquiring steps
    // -------------------------------------------------------------------

    /** `partitionImage`: one partition from sector 2048; GPT images also get the legacy-boot attribute. */
    method PartitionImage(h: Host, size: int) returns (ok: bool)
      modifies this`trace
      ensures var parted := PartedCommand(image, partType, size);
        trace == old(trace) + [parted] + (if h.Succeeds(parted) && partType == GPT then [SgdiskLegacyBoot(image)] else [])
      ensures ok == (h.Succeeds(PartedCommand(image, partType, size))
                     && (partType == GPT ==> h.Succeeds(SgdiskLegacyBoot(image))))
    {
      ok := Issue(h, PartedCommand(image, partType, size));
      if ok && partType == GPT {
        ok := Issue(h, SgdiskLegacyBoot(image));
      }
    }

    /**
     * `loopImage`: attach the image's partitions; the first mapper device
     * reported becomes the device to mount and joins the attached devices.
     */
    method LoopImage(h: Host) returns (ok: bool)
      modifies this`trace, this`mountDevice, this`loopDevices
      ensures trace == old(trace) + [KpartxAdd(image)]
      ensures var name := MapperName(h.Stdout(KpartxAdd(image)));
        ok == (h.Succeeds(KpartxAdd(image)) && name.Some?)
        && (ok ==> mountDevice == "/dev/mapper/" + name.value && loopDevices == old(loopDevices) + [mountDevice])
        && (!ok ==> mountDevice == old(mountDevice) && loopDevices == old(loopDevices))
    {
      ok := Issue(h, KpartxAdd(image));
      if !ok {
        return;
      }
      var name := MapperName(h.Stdout(KpartxAdd(image)));
      if name.None? {
        return false;
      }
      mountDevice := "/dev/mapper/" + name.value;
      loopDevices := loopDevices + [mountDevice];
    }

    /** `mountFilesystem`: the root is recorded before the mount runs, so teardown sees it even if the mount fails. */
    method MountFilesystem(h: Host, tempdir: string) returns (ok: bool)
      modifies this`trace, this`rootdir
      ensures rootdir == Some(tempdir)
      ensures trace == old(trace) + [MountCommand(mountDevice, fstype, tempdir)]
      ensures ok == h.Succeeds(MountCommand(mountDevice, fstype, tempdir))
    {
      rootdir := Some(tempdir);
      ok := Issue(h, MountCommand(mountDevice, fstype, tempdir));
    }

    /** `mountConarydb`: the database tmpfs; only a successful mount sets `conaryDbMounted`. */
    method MountConarydb(h: Host) returns (ok: bool)
      modifies this`trace, this`conaryDbMounted
      ensures rootdir.None? ==> !ok && trace == old(trace) && conaryDbMounted == old(conaryDbMounted)
      ensures rootdir.Some? ==>
        var a := Action.Run(["mount", "tmpfs", "-t", "tmpfs", rootdir.value + ConarydbDir]);
        trace == old(trace) + [a] && ok == h.Succeeds(a)
        && conaryDbMounted == (old(conaryDbMounted) || ok)
    {
      if rootdir.None? {
        return false;
      }
      ok := Issue(h, Run(["mount", "tmpfs", "-t", "tmpfs", rootdir.value + ConarydbDir]));
      if ok {
        conaryDbMounted := true;
      }
    }
  }

  /** Before a root exists, the unmount steps and the root removal issue only a bare `umount`. */
  lemma TeardownWithoutRoot(s: Session, h: Host)
    requires s.rootdir.None?
    ensures UnmountConarydbOutcome(s, h).actions == [] && UnmountFilesystemsOutcome(s, h).actions == []
    ensures UnmountFilesystemOutcome(s, h).actions == [Run(["umount"])]
    ensures RemoveRootdirOutcome(s, h).actions == []
  {
    assert ["umount"] + [] == ["umount"];
  }

  /** With one attached device, unloopImage is `kpartx -d` and, when that works, the device's release. */
  lemma UnloopOneDevice(s: Session, h: Host, device: string)
    requires s.loopDevices == [device]
    ensures UnloopImageOutcome(s, h).actions
      == [KpartxDelete(s.image)] + (if h.Succeeds(KpartxDelete(s.image)) then DeviceReleaseOutcome(device, h).actions else [])
  {
    var steps := DeviceSteps([device], h);
    assert steps[..0] == [] && steps[..1] == steps;
    assert steps[0] == DeviceReleaseOutcome(device, h);
    assert Sequenced(steps[..0]) == Outcome([], true);
    assert DevicesReleaseOutcome([device], h) == DeviceReleaseOutcome(device, h);
  }

  /** With neither the mapping nor the backing file left, releasing the device issues nothing. */
  lemma NothingLeftToRelease(device: string, h: Host)
    requires !h.Exists(device) && !h.Exists(BackingFileOf(LoopDeviceOf(device)))
    ensures DeviceReleaseOutcome(device, h).actions == []
  {
    DeviceReleaseIssues(device, h);
  }

  /**
   * A build that stops after attaching the image and before mounting it (say
   * mkfs fails): teardown issues a root unmount with no operand and the
   * kpartx detach, then, when the detach works, the release of the one
   * attached device, which is nothing when neither the mapping nor the
   * loop device's backing file is left.
   */
  lemma TeardownBeforeMount(image: string, t: string, fstype: string, name: string, h: Host)
    ensures var device := "/dev/mapper/" + name;
      var k := KpartxDelete(image);
      CleanUpActions(Session(image, t, fstype, device, [device], None, false), h)
        == [Run(["umount"]), k] + (if h.Succeeds(k) then DeviceReleaseOutcome(device, h).actions else [])
    ensures var device := "/dev/mapper/" + name;
      !h.Exists(device) && !h.Exists(BackingFileOf(LoopDeviceOf(device))) ==>
        CleanUpActions(Session(image, t, fstype, device, [device], None, false), h)
          == [Run(["umount"]), KpartxDelete(image)]
  {
    var device := "/dev/mapper/" + name;
    var s := Session(image, t, fstype, device, [device], None, false);
    TeardownWithoutRoot(s, h);
    UnloopOneDevice(s, h, device);
    if !h.Exists(device) && !h.Exists(BackingFileOf(LoopDeviceOf(device))) {
      NothingLeftToRelease(device, h);
    }
  }
}
