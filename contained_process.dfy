/**
 * `ImageBuilder.clone`: run one command in a fresh PID namespace.
 *
 * The calling process issues the raw clone system call. In the new process
 * (clone returned 0) the command runs only if the process sees itself as
 * pid 1 of its namespace; afterwards it signals every process it can see
 * with SIGTERM, waits a grace period, sends SIGKILL, and `_exit`s. The
 * original process (clone returned a pid) waits for the new one and turns
 * its wait status into a normal return or an error.
 *
 * Everything the operating system decides is an input: what clone returned,
 * the pid the new process observes, whether the command raised, whether each
 * kill found a process to signal, and the status `waitpid` reported. Time
 * passing is the `Sleep` event.
 */
module ContainedProcess {
  import CloneSyscalls

  const SIGKILL := 9
  const SIGTERM := 15
  const SIGCHLD: bv32 := 17

  /** Seconds the new process sleeps between SIGTERM and SIGKILL. */
  const GraceSeconds := 2

  /** The flags word passed to clone: exit signal SIGCHLD, new PID namespace. */
  const LaunchFlags: bv32 := SIGCHLD | CloneSyscalls.CLONE_NEWPID

  /** The exit signal sits in the low byte and the namespace flag is the only other bit. */
  lemma LaunchFlagsLayout()
    ensures LaunchFlags == 0x2000_0011
    ensures LaunchFlags & CloneSyscalls.CSIGNAL == SIGCHLD
    ensures LaunchFlags & !CloneSyscalls.CSIGNAL == CloneSyscalls.CLONE_NEWPID
  {
  }

  // ---------------------------------------------------------------------
  // The new process
  // ---------------------------------------------------------------------

  /** What the new process does, in order. */
  datatype ChildEvent =
    | RunCommand                             // the contained command is invoked
    | KillAll(signal: int, delivered: bool)  // kill(-1, signal); `delivered` is false when it raised OSError
    | Sleep(seconds: int)
    | Exit(code: int)                        // os._exit(code)

  /** The answers the operating system gives the new process. */
  datatype ChildOutcomes = ChildOutcomes(
    namespacePid: int,    // what SYS_getpid returns inside the namespace
    logRaises: bool,      // writing the log lines before the command raised, so the command was never invoked
    commandRaises: bool,  // the command itself raised
    termDelivered: bool,  // kill(-1, SIGTERM) returned normally
    killDelivered: bool)  // kill(-1, SIGKILL) returned normally

  datatype ChildRun = ChildRun(events: seq<ChildEvent>, exitCode: int)

  predicate IsKill(e: ChildEvent, signal: int) {
    e.KillAll? && e.signal == signal
  }

  /**
   * The new process. `retcode` starts at 0 and becomes 1 only when the
   * command raises; a wrong namespace pid makes the process exit at once
   * with that initial 0.
   */
  function Child(o: ChildOutcomes): (r: ChildRun)
    // every path ends in _exit, and _exit happens nowhere else
    ensures |r.events| >= 1 && r.events[|r.events| - 1] == Exit(r.exitCode)
    ensures forall i :: 0 <= i < |r.events| - 1 ==> !r.events[i].Exit?
    // the command runs exactly when the process is pid 1 of its namespace and logging it worked
    ensures RunCommand in r.events <==> o.namespacePid == 1 && !o.logRaises
    ensures o.namespacePid != 1 ==> r.exitCode == 0 && |r.events| == 1
    // exit code 1 exactly when the try block raised, in the logging or in the command
    ensures o.namespacePid == 1 ==>
      (r.exitCode == 1 <==> o.logRaises || o.commandRaises) && (r.exitCode == 0 <==> !o.logRaises && !o.commandRaises)
    // SIGTERM follows the try block whether it succeeded or not
    ensures o.namespacePid == 1 && !o.logRaises ==> r.events[0] == RunCommand && r.events[1] == KillAll(SIGTERM, o.termDelivered)
    ensures o.namespacePid == 1 && o.logRaises ==> r.events[0] == KillAll(SIGTERM, o.termDelivered)
    // the grace period and SIGKILL happen only after a delivered SIGTERM
    ensures Sleep(GraceSeconds) in r.events <==> o.namespacePid == 1 && o.termDelivered
    ensures (exists i :: 0 <= i < |r.events| && IsKill(r.events[i], SIGKILL)) <==> o.namespacePid == 1 && o.termDelivered
    ensures forall i :: 0 <= i < |r.events| && IsKill(r.events[i], SIGKILL) ==>
              i >= 2 && r.events[i - 1] == Sleep(GraceSeconds) && IsKill(r.events[i - 2], SIGTERM)
  {
    var retcode := 0;
    if o.namespacePid != 1 then ChildRun([Exit(retcode)], retcode)
    else
      var retcode := if o.logRaises || o.commandRaises then 1 else retcode;
      var term := KillAll(SIGTERM, o.termDelivered);
      var exit := Exit(retcode);
      if !o.termDelivered then
        ChildRun(if o.logRaises then [term, exit] else [RunCommand, term, exit], retcode)
      else
        var sleep := Sleep(GraceSeconds);
        var kill := KillAll(SIGKILL, o.killDelivered);
        if o.logRaises then
          assert IsKill([term, sleep, kill, exit][2], SIGKILL);
          ChildRun([term, sleep, kill, exit], retcode)
        else
          assert IsKill([RunCommand, term, sleep, kill, exit][3], SIGKILL);
          ChildRun([RunCommand, term, sleep, kill, exit], retcode)
  }

  /** Whether the kills found anything to signal never changes the exit code. */
  lemma ExitCodeIgnoresKills(o: ChildOutcomes, termDelivered: bool, killDelivered: bool)
    ensures Child(o.(termDelivered := termDelivered, killDelivered := killDelivered)).exitCode == Child(o).exitCode
  {
  }

  // ---------------------------------------------------------------------
  // Wait status, as the kernel encodes it
  // ---------------------------------------------------------------------

  /** `os.WIFEXITED`: no terminating signal in the low seven bits. */
  predicate WIfExited(status: bv32) {
    status & 0x7f == 0
  }

  /** `os.WEXITSTATUS`: the second byte. */
  function WExitStatus(status: bv32): bv32 {
    (status >> 8) & 0xff
  }

  /** The status `waitpid` reports for a process that called `_exit(code)`. */
  function ExitedStatus(code: int): bv32 {
    ((code % 256) as bv32) << 8
  }

  /** The status `waitpid` reports for a process killed by `signal` (no core dump). */
  function SignaledStatus(signal: int): bv32
    requires 1 <= signal < 0x7f
  {
    signal as bv32
  }

  lemma ShiftedByteDecodes(c: bv32)
    requires c < 256
    ensures WIfExited(c << 8) && WExitStatus(c << 8) == c
  {
  }

  /** An exit is classified as an exit, with its code modulo 256. */
  lemma ExitedStatusDecodes(code: int)
    ensures WIfExited(ExitedStatus(code))
    ensures WExitStatus(ExitedStatus(code)) == (code % 256) as bv32
  {
    var c: bv32 := (code % 256) as bv32;
    assert c < 256;
    ShiftedByteDecodes(c);
  }

  // ---------------------------------------------------------------------
  // The calling process
  // ---------------------------------------------------------------------

  datatype LaunchError =
    | CloneFailed              // clone returned a negative value
    | ContainerKilled(pid: int)// the new process did not exit normally
    | ContainedCommandFailed   // it exited with a nonzero code

  datatype ParentEvent = CallClone(flags: bv32) | WaitFor(pid: int)

  /** How the call ends for the process that made it. */
  datatype CloneReturn =
    | Returned
    | Raised(error: LaunchError)
    | ProcessExited(run: ChildRun)   // this process is the new one, and it ended in _exit

  datatype CloneCallResult = CloneCallResult(events: seq<ParentEvent>, ret: CloneReturn)

  /**
   * `clone(cmd)` seen from the process in which clone returned `cloneResult`:
   * negative is a failed clone, 0 is the new process, a positive value is the
   * new process's pid as seen by its parent, which waits for it and gets `status`.
   */
  function CloneCall(cloneResult: int, child: ChildOutcomes, status: bv32): (r: CloneCallResult)
    ensures |r.events| >= 1 && r.events[0] == CallClone(LaunchFlags)
    ensures cloneResult < 0 ==> r == CloneCallResult([CallClone(LaunchFlags)], Raised(CloneFailed))
    ensures cloneResult == 0 ==> r.ret == ProcessExited(Child(child)) && |r.events| == 1
    ensures cloneResult > 0 ==> r.events == [CallClone(LaunchFlags), WaitFor(cloneResult)]
    ensures cloneResult > 0 ==> (r.ret == Returned <==> WIfExited(status) && WExitStatus(status) == 0)
    ensures cloneResult > 0 && !WIfExited(status) ==> r.ret == Raised(ContainerKilled(cloneResult))
    ensures cloneResult > 0 && WIfExited(status) && WExitStatus(status) != 0 ==> r.ret == Raised(ContainedCommandFailed)
  {
    var launched := [CallClone(LaunchFlags)];
    if cloneResult < 0 then CloneCallResult(launched, Raised(CloneFailed))
    else if cloneResult == 0 then CloneCallResult(launched, ProcessExited(Child(child)))
    else
      var waited := launched + [WaitFor(cloneResult)];
      if !WIfExited(status) then CloneCallResult(waited, Raised(ContainerKilled(cloneResult)))
      else if WExitStatus(status) != 0 then CloneCallResult(waited, Raised(ContainedCommandFailed))
      else CloneCallResult(waited, Returned)
  }

  /**
   * Both processes together: the parent waits for the child, sees the status
   * its `_exit` left, and so fails only when the command or the logging before it raised. A
   * wrong namespace pid is reported as success, because the child exits with
   * the code it started with.
   */
  lemma {:induction false} ParentSeesChildExit(pid: int, o: ChildOutcomes)
    requires pid > 0
    ensures CloneCall(pid, o, ExitedStatus(Child(o).exitCode)).ret ==
            if o.namespacePid == 1 && (o.logRaises || o.commandRaises) then Raised(ContainedCommandFailed) else Returned
  {
    var code := Child(o).exitCode;
    ExitedStatusDecodes(code);
    assert code == 0 || code == 1;
    if code == 0 {
      assert (code % 256) as bv32 == 0;
    } else {
      assert (code % 256) as bv32 == 1;
    }
  }

  /** A child killed by a signal is always reported as killed, never as success. */
  lemma KilledChildRaises(pid: int, o: ChildOutcomes, signal: int)
    requires pid > 0 && 1 <= signal < 0x7f
    ensures CloneCall(pid, o, SignaledStatus(signal)).ret == Raised(ContainerKilled(pid))
  {
    var s := signal as bv32;
    assert 0 < s < 0x7f;
    assert s & 0x7f == s;
  }
}
