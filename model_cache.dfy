/**
 * A cache of conary model-cache files, keyed by the SHA-1 of the system
 * model text they were computed for. `prime` copies a cached entry into a
 * target root before a build; `store` saves the target's file into the
 * cache afterwards, never replacing an entry that is already there.
 *
 * The host filesystem is a map from file path to contents plus a set of
 * directories; `os.path.exists` holds for either. SHA-1 is a parameter of
 * the constructor, uninterpreted.
 */
module ModelCache {
  import opened Text

  /** File contents by path, and the directories that exist. */
  datatype Fs = Fs(files: map<string, Bytes>, dirs: set<string>) {
    /** `os.path.exists(p)` */
    predicate Exists(p: string) {
      p in files || p in dirs
    }
  }

  /** The filesystem after an operation, and whether the operation raised. */
  datatype FsStep = FsStep(fs: Fs, raised: bool)

  /** `os.makedirs(p)`: `p` is a directory afterwards. */
  function MadeDirs(fs: Fs, p: string): Fs {
    fs.(dirs := fs.dirs + {p})
  }

  /** `shutil.copy(src, dst)` onto a file path: raises, changing nothing, when `src` is not a file. */
  function Copied(fs: Fs, src: string, dst: string): FsStep {
    if src in fs.files then FsStep(fs.(files := fs.files[dst := fs.files[src]]), false)
    else FsStep(fs, true)
  }

  /** Where the model cache lives under a target root. */
  function TargetFile(targetroot: string): string {
    targetroot + "/var/lib/conarydb/modelcache"
  }

  /** The cache entry for a digest: `'/'.join((dir, digest))`. */
  function HashFile(dir: string, digest: string): string {
    dir + "/" + digest
  }

  /**
   * `prime`: when the entry exists, create the target's directory if needed
   * and copy the entry there. Without an entry nothing changes and nothing
   * raises; otherwise only the target file and the target's directory can
   * change, and a raising copy changes no file.
   */
  function PrimeFs(fs: Fs, hashfile: string, targetfile: string): (r: FsStep)
    ensures !fs.Exists(hashfile) ==> r == FsStep(fs, false)
    ensures forall p :: p in fs.files && p != targetfile ==> p in r.fs.files && r.fs.files[p] == fs.files[p]
    ensures r.fs.files.Keys <= fs.files.Keys + {targetfile}
    ensures fs.dirs <= r.fs.dirs <= fs.dirs + {Dirname(targetfile)}
    ensures r.raised ==> r.fs.files == fs.files
  {
    if fs.Exists(hashfile) then
      var targetdir := Dirname(targetfile);
      var fs1 := if fs.Exists(targetdir) then fs else MadeDirs(fs, targetdir);
      Copied(fs1, hashfile, targetfile)
    else FsStep(fs, false)
  }

  /**
   * `store`: when the entry is absent, create the cache directory if needed
   * and copy the target there. It never overwrites: with an entry present
   * nothing changes. Only the entry and the cache directory can change.
   */
  function StoreFs(fs: Fs, dir: string, hashfile: string, targetfile: string): (r: FsStep)
    ensures fs.Exists(hashfile) ==> r == FsStep(fs, false)
    ensures forall p :: p in fs.files && p != hashfile ==> p in r.fs.files && r.fs.files[p] == fs.files[p]
    ensures r.fs.files.Keys <= fs.files.Keys + {hashfile}
    ensures fs.dirs <= r.fs.dirs <= fs.dirs + {dir}
    ensures r.raised ==> r.fs.files == fs.files
  {
    if !fs.Exists(hashfile) then
      var fs1 := if fs.Exists(dir) then fs else MadeDirs(fs, dir);
      Copied(fs1, targetfile, hashfile)
    else FsStep(fs, false)
  }

  /** The host filesystem, updated in place. */
  class FileSystem {
    var files: map<string, Bytes>
    var dirs: set<string>

    function State(): Fs
      reads this
    {
      Fs(files, dirs)
    }

    constructor(initial: Fs)
      ensures State() == initial
    {
      files := initial.files;
      dirs := initial.dirs;
    }

    function Exists(p: string): (b: bool)
      reads this
      ensures b <==> State().Exists(p)
    {
      p in files || p in dirs
    }

    method MakeDirs(p: string)
      modifies this
      ensures State() == MadeDirs(old(State()), p)
    {
      dirs := dirs + {p};
    }

    method Copy(src: string, dst: string) returns (raised: bool)
      modifies this
      ensures FsStep(State(), raised) == Copied(old(State()), src, dst)
    {
      if src in files {
        files := files[dst := files[src]];
        raised := false;
      } else {
        raised := true;
      }
    }
  }

  class ModelCacheCache {
    const dir: string
    const targetfile: string
    const hash: string
    const hashfile: string

    /** `sha1hex` stands for `hashlib.sha1(text).hexdigest()`. */
    constructor(directory: string, modeltext: string, targetroot: string, sha1hex: string -> string)
      ensures dir == directory && targetfile == TargetFile(targetroot)
      ensures hash == sha1hex(modeltext) && hashfile == HashFile(directory, hash)
    {
      dir := directory;
      targetfile := targetroot + "/var/lib/conarydb/modelcache";
      hash := sha1hex(modeltext);
      hashfile := directory + "/" + sha1hex(modeltext);
    }

    /** Copies the cached entry, if there is one, into the target root; `raised` when the copy raised. */
    method Prime(fs: FileSystem) returns (raised: bool)
      modifies fs
      ensures FsStep(fs.State(), raised) == PrimeFs(old(fs.State()), hashfile, targetfile)
    {
      raised := false;
      if fs.Exists(hashfile) {
        var targetdir := Dirname(targetfile);
        if !fs.Exists(targetdir) {
          fs.MakeDirs(targetdir);
        }
        raised := fs.Copy(hashfile, targetfile);
      }
    }

    /** Saves the target's file as the entry unless there already is one; `raised` when the copy raised. */
    method Store(fs: FileSystem) returns (raised: bool)
      modifies fs
      ensures FsStep(fs.State(), raised) == StoreFs(old(fs.State()), dir, hashfile, targetfile)
    {
      raised := false;
      if !fs.Exists(hashfile) {
        if !fs.Exists(dir) {
          fs.MakeDirs(dir);
        }
        raised := fs.Copy(targetfile, hashfile);
      }
    }
  }

  // ---------------------------------------------------------------------
  // Keys
  // ---------------------------------------------------------------------

  /** The target file sits in the target root's conary database directory. */
  lemma TargetFileDir(targetroot: string)
    ensures Dirname(TargetFile(targetroot)) == targetroot + "/var/lib/conarydb"
    ensures Basename(TargetFile(targetroot)) == "modelcache"
  {
    assert TargetFile(targetroot) == (targetroot + "/var/lib/conarydb") + "/" + "modelcache";
    DirnameOfChild(targetroot + "/var/lib/conarydb", "modelcache");
    BasenameAfterSlash(targetroot + "/var/lib/conarydb", "modelcache");
  }

  /** A hex digest names a file directly inside the cache directory. */
  lemma HashFileInCacheDir(dir: string, digest: string)
    requires '/' !in digest
    ensures Dirname(HashFile(dir, digest)) == dir
    ensures Basename(HashFile(dir, digest)) == digest
  {
    DirnameOfChild(dir, digest);
    BasenameAfterSlash(dir, digest);
  }

  /** Distinct digests give distinct entries, and equal ones the same entry. */
  lemma HashFileKeyedByDigest(dir: string, d1: string, d2: string)
    ensures HashFile(dir, d1) == HashFile(dir, d2) <==> d1 == d2
  {
    if HashFile(dir, d1) == HashFile(dir, d2) {
      assert d1 == HashFile(dir, d1)[|dir| + 1..];
      assert d2 == HashFile(dir, d2)[|dir| + 1..];
    }
  }

  // ---------------------------------------------------------------------
  // prime
  // ---------------------------------------------------------------------

  /**
   * With a cached file, `prime` gives the target the cached bytes, makes
   * sure the target's directory exists, leaves the entry as it was and
   * touches no other file.
   */
  lemma PrimeInstallsEntry(fs: Fs, hashfile: string, targetfile: string)
    requires hashfile in fs.files && targetfile != hashfile
    ensures var r := PrimeFs(fs, hashfile, targetfile);
      !r.raised
      && r.fs.files == fs.files[targetfile := fs.files[hashfile]]
      && r.fs.Exists(Dirname(targetfile))
      && fs.dirs <= r.fs.dirs
  {
  }

  /** An entry that is a directory rather than a file makes `prime` raise. */
  lemma PrimeOfDirectoryEntryRaises(fs: Fs, hashfile: string, targetfile: string)
    requires hashfile in fs.dirs && hashfile !in fs.files
    ensures PrimeFs(fs, hashfile, targetfile).raised
    ensures PrimeFs(fs, hashfile, targetfile).fs.files == fs.files
  {
  }

  // ---------------------------------------------------------------------
  // store
  // ---------------------------------------------------------------------

  /**
   * Without an entry, `store` makes sure the cache directory exists and
   * saves the target's bytes as the entry, leaving the target and every
   * other file as they were.
   */
  lemma StoreSavesTarget(fs: Fs, dir: string, hashfile: string, targetfile: string)
    requires !fs.Exists(hashfile) && targetfile in fs.files
    ensures var r := StoreFs(fs, dir, hashfile, targetfile);
      !r.raised
      && r.fs.files == fs.files[hashfile := fs.files[targetfile]]
      && r.fs.Exists(dir)
  {
  }

  /** Without an entry or a target file, `store` raises after creating the cache directory. */
  lemma StoreWithoutTargetRaises(fs: Fs, dir: string, hashfile: string, targetfile: string)
    requires !fs.Exists(hashfile) && targetfile !in fs.files
    ensures var r := StoreFs(fs, dir, hashfile, targetfile);
      r.raised && r.fs.files == fs.files && r.fs.Exists(dir)
  {
  }

  /** A second `store` leaves the filesystem as the first left it, whether or not the first raised. */
  lemma StoreIdempotent(fs: Fs, dir: string, hashfile: string, targetfile: string)
    ensures var once := StoreFs(fs, dir, hashfile, targetfile).fs;
      StoreFs(once, dir, hashfile, targetfile).fs == once
  {
    var once := StoreFs(fs, dir, hashfile, targetfile);
    if !fs.Exists(hashfile) && !once.raised {
      assert hashfile in once.fs.files;
    }
  }

  /**
   * Storing a target and priming another target from the same entry
   * gives the second target exactly the first target's bytes.
   */
  lemma StoreThenPrime(fs: Fs, dir: string, hashfile: string, source: string, target: string)
    requires !fs.Exists(hashfile) && source in fs.files && target != hashfile
    ensures var stored := StoreFs(fs, dir, hashfile, source).fs;
      var primed := PrimeFs(stored, hashfile, target);
      !primed.raised && primed.fs.files[target] == fs.files[source]
  {
    StoreSavesTarget(fs, dir, hashfile, source);
    var stored := StoreFs(fs, dir, hashfile, source).fs;
    PrimeInstallsEntry(stored, hashfile, target);
  }

  /** Once stored, the entry survives later changes to the target and later stores. */
  lemma StoredEntrySticks(fs: Fs, dir: string, hashfile: string, targetfile: string, later: Bytes)
    requires !fs.Exists(hashfile) && targetfile in fs.files && targetfile != hashfile
    ensures var stored := StoreFs(fs, dir, hashfile, targetfile).fs;
      var edited := stored.(files := stored.files[targetfile := later]);
      StoreFs(edited, dir, hashfile, targetfile).fs.files[hashfile] == fs.files[targetfile]
  {
    StoreSavesTarget(fs, dir, hashfile, targetfile);
    var stored := StoreFs(fs, dir, hashfile, targetfile).fs;
    var edited := stored.(files := stored.files[targetfile := later]);
  }
}
