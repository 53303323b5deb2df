/**
 * The raw `clone` wrapper: the CLONE_* flag bits, the per-architecture
 * system-call numbers chosen when the module is imported, the host word
 * size guessed from the interpreter's search path, and the C library
 * handle that is loaded on first use and kept from then on.
 *
 * The foreign calls themselves (`ctypes.CDLL`, `libc.syscall`) are not
 * executed: a system call is represented by the request it forwards.
 */
module CloneSyscalls {
  import opened Wrappers
  import opened Text

  // ---------------------------------------------------------------------
  // Flag bits passed to clone(2)
  // ---------------------------------------------------------------------

  const CLONE_VM: bv32       := 0x0000_0100
  const CLONE_FS: bv32       := 0x0000_0200
  const CLONE_FILES: bv32    := 0x0000_0400
  const CLONE_SIGHAND: bv32  := 0x0000_0800
  const CLONE_PTRACE: bv32   := 0x0000_2000
  const CLONE_VFORK: bv32    := 0x0000_4000
  const CLONE_PARENT: bv32   := 0x0000_8000
  const CLONE_THREAD: bv32   := 0x0001_0000
  const CLONE_NEWNS: bv32    := 0x0002_0000
  const CLONE_SYSVSEM: bv32  := 0x0004_0000
  const CLONE_SETTLS: bv32   := 0x0008_0000
  const CLONE_DETACHED: bv32 := 0x0040_0000
  const CLONE_UNTRACED: bv32 := 0x0080_0000
  const CLONE_NEWUTS: bv32   := 0x0400_0000
  const CLONE_NEWIPC: bv32   := 0x0800_0000
  const CLONE_NEWUSER: bv32  := 0x1000_0000
  const CLONE_NEWPID: bv32   := 0x2000_0000
  const CLONE_NEWNET: bv32   := 0x4000_0000
  const CLONE_IO: bv32       := 0x8000_0000

  /** Every flag the module defines, in the order it defines them. */
  const CloneFlags: seq<bv32> := [
    CLONE_VM, CLONE_FS, CLONE_FILES, CLONE_SIGHAND, CLONE_PTRACE, CLONE_VFORK,
    CLONE_PARENT, CLONE_THREAD, CLONE_NEWNS, CLONE_SYSVSEM, CLONE_SETTLS,
    CLONE_DETACHED, CLONE_UNTRACED, CLONE_NEWUTS, CLONE_NEWIPC, CLONE_NEWUSER,
    CLONE_NEWPID, CLONE_NEWNET, CLONE_IO]

  /** The low byte of the flags word carries the signal sent to the parent on exit. */
  const CSIGNAL: bv32 := 0xff

  predicate SingleBit(x: bv32) {
    x != 0 && x & (x - 1) == 0
  }

  /** Two different single-bit words share no bit. */
  lemma SingleBitsDisjoint(x: bv32, y: bv32)
    requires SingleBit(x) && SingleBit(y) && x != y
    ensures x & y == 0
  {
  }

  /** A sequence whose neighbours ascend is strictly ascending throughout. */
  lemma {:induction false} AscendingPairs(s: seq<int>)
    requires forall i :: 0 <= i < |s| - 1 ==> s[i] < s[i + 1]
    ensures forall i, j :: 0 <= i < j < |s| ==> s[i] < s[j]
    decreases |s|
  {
    if |s| > 1 {
      AscendingPairs(s[1..]);
      forall i, j | 0 <= i < j < |s|
        ensures s[i] < s[j]
      {
        if i > 0 {
          assert s[i] == s[1..][i - 1] && s[j] == s[1..][j - 1];
        } else if j > 1 {
          assert s[1] == s[1..][0] && s[j] == s[1..][j - 1];
        }
      }
    }
  }

  /** The flags' numeric values, in definition order. */
  function FlagValues(): (vs: seq<int>)
    ensures |vs| == |CloneFlags|
    ensures forall i :: 0 <= i < |vs| ==> vs[i] == CloneFlags[i] as int
  {
    seq(|CloneFlags|, i requires 0 <= i < |CloneFlags| => CloneFlags[i] as int)
  }

  /** The flags are listed in increasing numeric order. */
  lemma FlagValuesAscend()
    ensures forall i, j :: 0 <= i < j < |FlagValues()| ==> FlagValues()[i] < FlagValues()[j]
  {
    var vs := FlagValues();
    forall i | 0 <= i < |vs| - 1
      ensures vs[i] < vs[i + 1]
    {
    }
    AscendingPairs(vs);
  }

  lemma LowFlagsSingleBits()
    ensures forall i :: 0 <= i < 10 ==> SingleBit(CloneFlags[i]) && CloneFlags[i] & CSIGNAL == 0
  {
  }

  lemma HighFlagsSingleBits()
    ensures forall i :: 10 <= i < |CloneFlags| ==> SingleBit(CloneFlags[i]) && CloneFlags[i] & CSIGNAL == 0
  {
  }

  /**
   * Each flag is one bit of its own, none lies in the exit-signal byte, and
   * no two flags share a bit, so OR-ing them with a signal number keeps every
   * part recoverable.
   */
  lemma CloneFlagsAreDistinctBits()
    ensures forall i :: 0 <= i < |CloneFlags| ==> SingleBit(CloneFlags[i]) && CloneFlags[i] & CSIGNAL == 0
    ensures forall i, j :: 0 <= i < j < |CloneFlags| ==> CloneFlags[i] & CloneFlags[j] == 0
    ensures CLONE_NEWPID == 0x2000_0000
  {
    var vs := FlagValues();
    FlagValuesAscend();
    LowFlagsSingleBits();
    HighFlagsSingleBits();
    forall i, j | 0 <= i < j < |CloneFlags|
      ensures CloneFlags[i] & CloneFlags[j] == 0
    {
      assert vs[i] < vs[j];
      SingleBitsDisjoint(CloneFlags[i], CloneFlags[j]);
    }
  }

  // ---------------------------------------------------------------------
  // System-call numbers, looked up once at import time
  // ---------------------------------------------------------------------

  /** The numbers of the two system calls the wrapper issues. */
  datatype SyscallNumbers = SyscallNumbers(clone: int, getpid: int)

  /** The five (machine, word size) pairs the tables have entries for. */
  const SupportedHosts: set<(string, int)> :=
    {("x86_64", 64), ("i686", 64), ("i386", 64), ("i686", 32), ("i386", 32)}

  const SysCloneTable: map<(string, int), int> :=
    map[("x86_64", 64) := 56, ("i686", 64) := 56, ("i386", 64) := 56,
        ("i686", 32) := 120, ("i386", 32) := 120]

  const SysGetpidTable: map<(string, int), int> :=
    map[("x86_64", 64) := 39, ("i686", 64) := 39, ("i386", 64) := 39,
        ("i686", 32) := 20, ("i386", 32) := 20]

  /**
   * The import-time lookup of both numbers; `None` is the KeyError that makes
   * the import fail on any other pair.
   */
  function LookupSyscalls(machine: string, bits: int): (r: Option<SyscallNumbers>)
    ensures r.Some? <==> (machine, bits) in SupportedHosts
    ensures r.Some? && bits == 64 ==> r.value == SyscallNumbers(56, 39)
    ensures r.Some? && bits != 64 ==> bits == 32 && r.value == SyscallNumbers(120, 20)
  {
    var key := (machine, bits);
    if key in SysCloneTable && key in SysGetpidTable then
      Some(SyscallNumbers(SysCloneTable[key], SysGetpidTable[key]))
    else None
  }

  /** A 64-bit machine name run as a 32-bit host has no table entry. */
  lemma UnsupportedHostFailsImport()
    ensures LookupSyscalls("x86_64", 32) == None
    ensures LookupSyscalls("armv7l", 32) == None && LookupSyscalls("aarch64", 64) == None
  {
  }

  /**
   * `hostbits`: 64 when some entry of the interpreter's search path names a
   * `/lib64/` directory, 32 otherwise.
   */
  function Hostbits(sysPath: seq<string>): (bits: int)
    ensures bits == 64 || bits == 32
    ensures bits == 64 <==> exists i :: 0 <= i < |sysPath| && Contains(sysPath[i], "/lib64/")
    decreases |sysPath|
  {
    if sysPath == [] then 32
    else if Contains(sysPath[0], "/lib64/") then 64
    else
      var r := Hostbits(sysPath[1..]);
      assert forall i :: 0 < i < |sysPath| ==> sysPath[i] == sysPath[1..][i - 1];
      r
  }

  // ---------------------------------------------------------------------
  // The lazily loaded C library
  // ---------------------------------------------------------------------

  /** A loaded shared library, the value `ctypes.CDLL('libc.so.6')` returns. */
  datatype Library = Library(handle: nat)

  /** One system call as forwarded to the library: which library, which number, which arguments. */
  datatype SyscallRequest = SyscallRequest(library: Library, number: int, args: seq<int>)

  /** `ctypes.c_uint32(x)`: the argument reduced to 32 bits. */
  function U32(x: int): (r: int)
    ensures 0 <= r < 0x1_0000_0000
    ensures 0 <= x < 0x1_0000_0000 ==> r == x
  {
    x % 0x1_0000_0000
  }

  class LateBoundLibc {
    /** The library once loaded, `None` before the first system call. */
    var libc: Option<Library>

    constructor ()
      ensures libc == None
    {
      libc := None;
    }

    /** Opens the library if it is not open yet; `loaded` is what opening it would give. */
    method Bind(loaded: Library)
      modifies this
      ensures old(libc).None? ==> libc == Some(loaded)
      ensures old(libc).Some? ==> libc == old(libc)
    {
      if libc == None {
        libc := Some(loaded);
      }
    }

    /** Binds, then forwards the call to the bound library. */
    method Syscall(loaded: Library, number: int, args: seq<int>) returns (req: SyscallRequest)
      modifies this
      ensures libc == if old(libc).None? then Some(loaded) else old(libc)
      ensures req == SyscallRequest(libc.value, number, args)
    {
      Bind(loaded);
      req := SyscallRequest(libc.value, number, args);
    }
  }

  /** `clone(flags)`: SYS_clone with the flags and three zero words, each as a 32-bit unsigned value. */
  method Clone(lib: LateBoundLibc, loaded: Library, nr: SyscallNumbers, flags: int)
    returns (req: SyscallRequest)
    modifies lib
    ensures lib.libc == if old(lib.libc).None? then Some(loaded) else old(lib.libc)
    ensures req == SyscallRequest(lib.libc.value, nr.clone, [U32(flags), 0, 0, 0])
  {
    req := lib.Syscall(loaded, nr.clone, [U32(flags), U32(0), U32(0), U32(0)]);
  }

  /** `getpid()`: SYS_getpid issued directly, since the C library caches the pid across a raw clone. */
  method GetPid(lib: LateBoundLibc, loaded: Library, nr: SyscallNumbers) returns (req: SyscallRequest)
    modifies lib
    ensures lib.libc == if old(lib.libc).None? then Some(loaded) else old(lib.libc)
    ensures req == SyscallRequest(lib.libc.value, nr.getpid, [])
  {
    req := lib.Syscall(loaded, nr.getpid, []);
  }

  /** The library is loaded by the first call and the same one serves every later call. */
  method BindsOnce(first: Library, second: Library, nr: SyscallNumbers)
    returns (a: SyscallRequest, b: SyscallRequest)
    ensures a.library == first && b.library == first
  {
    var lib := new LateBoundLibc();
    a := Clone(lib, first, nr, 0x2000_0011);
    b := GetPid(lib, second, nr);
  }
}
