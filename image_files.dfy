/**
 * The text and byte transformations the image builder applies to files
 * inside the image: the `prefix:tarball` argument split, the inittab
 * rewrite, the tag-script filter, the boot-sector copy and the menu.lst
 * derived from grub.conf. The files are read and written by the caller;
 * here each transformation is a function of the contents read, and the
 * two that the builder writes as loops are methods proved against those
 * functions.
 */
module ImageFiles {
  import opened Wrappers
  import opened Text
  import ImageBuilder

  // ---------------------------------------------------------------------
  // installTarballWithPrefix: "prefix:tarball"
  // ---------------------------------------------------------------------

  /** Where a tarball is unpacked (relative to the root) and which tarball. */
  datatype Extraction = Extraction(prefix: string, tarball: string)

  /**
   * `tarball.split(':', 1)` when the argument holds a colon, otherwise the
   * root prefix `/` and the whole argument.
   */
  function SplitPrefix(arg: string): (r: Extraction)
    ensures ':' !in arg ==> r == Extraction("/", arg)
    ensures ':' in arg ==> ':' !in r.prefix && r.prefix + ":" + r.tarball == arg
  {
    if ':' in arg then
      var k := IndexOf(arg, ':');
      assert arg == arg[..k] + [arg[k]] + arg[k + 1..];
      Extraction(arg[..k], arg[k + 1..])
    else Extraction("/", arg)
  }

  /** Splitting at the first colon recovers a colon-free prefix and everything after it. */
  lemma SplitPrefixOfJoined(prefix: string, tarball: string)
    requires ':' !in prefix
    ensures SplitPrefix(prefix + ":" + tarball) == Extraction(prefix, tarball)
  {
    var s := prefix + ":" + tarball;
    assert s[|prefix|] == ':';
    var k := IndexOf(s, ':');
    assert forall j :: 0 <= j < k ==> s[..k][j] == s[j];
    assert forall j :: 0 <= j < |prefix| ==> s[j] == prefix[j];
    assert s[..k] == prefix;
    assert s[k + 1..] == tarball;
  }

  /** The `tar` command `installTarball` runs for the argument, under root directory `root`. */
  function ExtractArgv(root: string, arg: string): (r: seq<string>)
    ensures |r| == 7 && r[..2] == ["tar", "-C"] && r[3..6] == ["-x", "-z", "-f"]
    ensures ':' !in arg ==> r[2] == root + "/" && r[6] == arg
    ensures ':' in arg ==> StartsWith(r[2], root) && ':' !in r[2][|root|..] && r[2] + ":" + r[6] == root + arg
  {
    var e := SplitPrefix(arg);
    assert (root + e.prefix)[|root|..] == e.prefix;
    assert (root + e.prefix) + ":" + e.tarball == root + (e.prefix + ":" + e.tarball);
    ["tar", "-C", root + e.prefix, "-x", "-z", "-f", e.tarball]
  }

  /** A `prefix:tarball` argument unpacks that tarball below `root + prefix`. */
  lemma ExtractIntoPrefix(root: string, prefix: string, tarball: string)
    requires ':' !in prefix
    ensures ExtractArgv(root, prefix + ":" + tarball)
      == ["tar", "-C", root + prefix, "-x", "-z", "-f", tarball]
  {
    SplitPrefixOfJoined(prefix, tarball);
  }

  // ---------------------------------------------------------------------
  // setInitlevel: /etc/inittab
  // ---------------------------------------------------------------------

  /**
   * `f.readlines()`: every line keeps its '\n'; only the last may lack one.
   * Joining the lines gives back the text read.
   */
  function ReadLines(s: string): (lines: seq<string>)
    ensures IsLines(lines)
    ensures Concat(lines) == s
    decreases |s|
  {
    if s == [] then []
    else if '\n' in s then
      var k := IndexOf(s, '\n');
      var rest := ReadLines(s[k + 1..]);
      var r := [s[..k + 1]] + rest;
      assert s[..k + 1][..k] == s[..k];
      assert s[..k + 1] + s[k + 1..] == s;
      assert r[1..] == rest;
      assert forall i :: 1 <= i < |r| ==> r[i] == rest[i - 1];
      r
    else [s]
  }

  /** `''.join(parts)` */
  function Concat(parts: seq<string>): string
    decreases |parts|
  {
    if parts == [] then "" else parts[0] + Concat(parts[1..])
  }

  /** What `readlines` can return: non-empty lines, '\n' only at their ends, and at the end of all but the last. */
  predicate IsLines(lines: seq<string>) {
    forall i :: 0 <= i < |lines| ==>
      lines[i] != [] && '\n' !in lines[i][..|lines[i]| - 1]
      && (i < |lines| - 1 ==> lines[i][|lines[i]| - 1] == '\n')
  }

  /** Reading back what was joined from well-shaped lines gives the same lines. */
  lemma {:induction false} ReadLinesConcat(lines: seq<string>)
    requires IsLines(lines)
    ensures ReadLines(Concat(lines)) == lines
    decreases |lines|
  {
    if lines != [] {
      var a := lines[0];
      var rest := Concat(lines[1..]);
      var s := a + rest;
      assert IsLines(lines[1..]) by {
        forall i | 0 <= i < |lines[1..]|
          ensures lines[1..][i] == lines[i + 1]
        {
        }
      }
      ReadLinesConcat(lines[1..]);
      assert a == a[..|a| - 1] + [a[|a| - 1]];
      if a[|a| - 1] == '\n' {
        assert s[|a| - 1] == '\n';
        var k := IndexOf(s, '\n');
        assert s[..|a| - 1] == a[..|a| - 1];
        assert k == |a| - 1;
        assert s[..k + 1] == a;
        assert s[k + 1..] == rest;
      } else {
        assert |lines| == 1;
        assert rest == "";
        assert s == a;
      }
    }
  }

  /** The inittab line that names the default runlevel. */
  predicate IsInitdefault(line: string) {
    StartsWith(line, "id:") && Contains(line, "initdefault")
  }

  /** `'id:%s:initdefault:\n' % level` */
  function InitdefaultLine(level: string): string {
    "id:" + level + ":initdefault:\n"
  }

  /** One line as `setInitlevel` writes it: initdefault lines stay initdefault lines, the others are copied. */
  function InittabLine(line: string, level: string): (r: string)
    ensures IsInitdefault(r) <==> IsInitdefault(line)
    ensures !IsInitdefault(line) ==> r == line
  {
    if IsInitdefault(line) then
      InitdefaultLineIsInitdefault(level);
      InitdefaultLine(level)
    else line
  }

  /**
   * The lines `setInitlevel` writes for the lines it read: as many, with the
   * initdefault lines where they were, and still shaped as `readlines`
   * returns them when the level holds no newline.
   */
  function Reinit(lines: seq<string>, level: string): (r: seq<string>)
    ensures |r| == |lines|
    ensures forall k :: 0 <= k < |r| ==> (IsInitdefault(r[k]) <==> IsInitdefault(lines[k]))
    ensures '\n' !in level && IsLines(lines) ==> IsLines(r)
  {
    var r := seq(|lines|, k requires 0 <= k < |lines| => InittabLine(lines[k], level));
    var d := InitdefaultLine(level);
    assert d[..|d| - 1] == "id:" + level + ":initdefault:";
    assert '\n' !in level ==> '\n' !in d[..|d| - 1];
    r
  }

  /** The line written for a level is itself an initdefault line. */
  lemma InitdefaultLineIsInitdefault(level: string)
    ensures IsInitdefault(InitdefaultLine(level))
  {
    var l := InitdefaultLine(level);
    assert l[..3] == "id:";
    assert l[|level| + 4..][..11] == "initdefault";
    ContainsAt(l, "initdefault", |level| + 4);
  }

  /** Setting level `a` then level `b` on a line is setting `b`. */
  lemma LastLevelWins(line: string, a: string, b: string)
    ensures InittabLine(InittabLine(line, a), b) == InittabLine(line, b)
  {
    if IsInitdefault(line) {
      InitdefaultLineIsInitdefault(a);
    }
  }

  /**
   * Reads the inittab text, rewrites every initdefault line to name
   * `level`, copies every other line, and returns the lines and the text
   * written back.
   */
  method SetInitlevel(inittab: string, level: string) returns (written: seq<string>, text: string)
    ensures var lines := ReadLines(inittab);
      |written| == |lines|
      && (forall k :: 0 <= k < |lines| && IsInitdefault(lines[k]) ==> written[k] == InitdefaultLine(level))
      && (forall k :: 0 <= k < |lines| && !IsInitdefault(lines[k]) ==> written[k] == lines[k])
    ensures written == Reinit(ReadLines(inittab), level)
    ensures text == Concat(written)
  {
    var lines := ReadLines(inittab);
    written := [];
    for n := 0 to |lines|
      invariant |written| == n
      invariant forall k :: 0 <= k < n ==> written[k] == InittabLine(lines[k], level)
    {
      if StartsWith(lines[n], "id:") && Contains(lines[n], "initdefault") {
        written := written + [InitdefaultLine(level)];
      } else {
        written := written + [lines[n]];
      }
    }
    text := Concat(written);
  }

  /** An inittab without an initdefault line is written back unchanged. */
  lemma NoInitdefaultKeepsFile(inittab: string, level: string)
    requires forall k :: 0 <= k < |ReadLines(inittab)| ==> !IsInitdefault(ReadLines(inittab)[k])
    ensures Concat(Reinit(ReadLines(inittab), level)) == inittab
  {
    assert Reinit(ReadLines(inittab), level) == ReadLines(inittab);
  }

  /**
   * Rewriting the file for level `a` and then, reading it again, for level
   * `b` gives the file rewritten for `b` alone.
   */
  lemma SetInitlevelTwice(inittab: string, a: string, b: string)
    requires '\n' !in a
    ensures Concat(Reinit(ReadLines(Concat(Reinit(ReadLines(inittab), a))), b))
      == Concat(Reinit(ReadLines(inittab), b))
  {
    var lines := ReadLines(inittab);
    var once := Reinit(lines, a);
    ReadLinesConcat(once);
    forall k | 0 <= k < |lines|
      ensures Reinit(once, b)[k] == Reinit(lines, b)[k]
    {
      LastLevelWins(lines[k], a, b);
    }
    assert Reinit(once, b) == Reinit(lines, b);
  }

  // ---------------------------------------------------------------------
  // runTagScripts: /tmp/tag-script
  // ---------------------------------------------------------------------

  const Ldconfig := "/sbin/ldconfig"
  const LdconfigNl := "/sbin/ldconfig\n"

  /** A tag-handler call whose here-document block is dropped from the script. */
  predicate IsSkippedHeader(line: string) {
    StartsWith(line, "/usr/libexec/conary/tags/kernel files update ")
    || StartsWith(line, "/usr/libexec/conary/tags/extlinux files update ")
    || StartsWith(line, "/usr/libexec/conary/tags/udev files update ")
  }

  /**
   * The filter over the script's lines, with `ignore` the state carried
   * from line to line: a skipped header turns it on, and while it is on
   * each line is dropped, a line equal to `EOF` turning it off.
   */
  function FilterTags(lines: seq<string>, ignore: bool): (r: seq<string>)
    ensures |r| <= |lines|
    ensures forall x :: x in r ==> x in lines
    decreases |lines|
  {
    if lines == [] then []
    else if ignore || IsSkippedHeader(lines[0]) then FilterTags(lines[1..], lines[0] != "EOF")
    else [lines[0]] + FilterTags(lines[1..], false)
  }

  /** The lines the filter reads: every `/sbin/ldconfig\n` removed, one put first, split at '\n'. */
  function TagLines(tags: string): (r: seq<string>)
    ensures |r| >= 2 && r[0] == Ldconfig
    ensures forall i :: 0 <= i < |r| ==> '\n' !in r[i]
  {
    SplitCons(Ldconfig, '\n', Replace(tags, LdconfigNl, ""));
    Split(Ldconfig + "\n" + Replace(tags, LdconfigNl, ""), '\n')
  }

  /** Rewrites the tag script; returns the kept lines (with the final empty one) and the text written back. */
  method RewriteTagScript(tags: string) returns (t: seq<string>, script: string)
    ensures t == FilterTags(TagLines(tags), false) + [""]
    ensures script == Join("\n", t)
  {
    var lines := Split(Ldconfig + "\n" + Replace(tags, LdconfigNl, ""), '\n');
    t := [];
    var ignore := false;
    for i := 0 to |lines|
      invariant t + FilterTags(lines[i..], ignore) == FilterTags(lines, false)
    {
      var line := lines[i];
      assert lines[i..][1..] == lines[i + 1..];
      if StartsWith(line, "/usr/libexec/conary/tags/kernel files update ") {
        ignore := true;
      }
      if StartsWith(line, "/usr/libexec/conary/tags/extlinux files update ") {
        ignore := true;
      }
      if StartsWith(line, "/usr/libexec/conary/tags/udev files update ") {
        ignore := true;
      }
      if ignore {
        if line == "EOF" {
          ignore := false;
        }
      } else {
        t := t + [line];
      }
    }
    t := t + [""];
    script := Join("\n", t);
  }

  /** Lines that are not skipped headers pass through in order. */
  lemma {:induction false} FilterKeepsPlainLines(a: seq<string>, b: seq<string>)
    requires forall i :: 0 <= i < |a| ==> !IsSkippedHeader(a[i])
    ensures FilterTags(a + b, false) == a + FilterTags(b, false)
    decreases |a|
  {
    if a != [] {
      assert (a + b)[0] == a[0];
      assert (a + b)[1..] == a[1..] + b;
      assert forall i :: 0 <= i < |a[1..]| ==> a[1..][i] == a[i + 1];
      assert !IsSkippedHeader(a[0]);
      assert FilterTags(a + b, false) == [a[0]] + FilterTags(a[1..] + b, false);
      FilterKeepsPlainLines(a[1..], b);
      assert [a[0]] + a[1..] == a;
    } else {
      assert a + b == b;
    }
  }

  /** While ignoring, everything up to and including the next `EOF` is dropped. */
  lemma {:induction false} FilterIgnoresToEof(body: seq<string>, rest: seq<string>)
    requires "EOF" !in body
    ensures FilterTags(body + ["EOF"] + rest, true) == FilterTags(rest, false)
    decreases |body|
  {
    var s := body + ["EOF"] + rest;
    if body == [] {
      assert s[1..] == rest;
    } else {
      assert s[1..] == body[1..] + ["EOF"] + rest;
      FilterIgnoresToEof(body[1..], rest);
    }
  }

  /** While ignoring with no `EOF` ahead, nothing more is kept. */
  lemma {:induction false} FilterIgnoresToEnd(rest: seq<string>)
    requires "EOF" !in rest
    ensures FilterTags(rest, true) == []
    decreases |rest|
  {
    if rest != [] {
      FilterIgnoresToEnd(rest[1..]);
    }
  }

  lemma HeaderIsNotEof(h: string)
    requires IsSkippedHeader(h)
    ensures h != "EOF"
  {
    assert !IsSkippedHeader("EOF");
  }

  /** A kernel, extlinux or udev block, header through `EOF`, is dropped. */
  lemma FilterDropsBlock(h: string, body: seq<string>, rest: seq<string>)
    requires IsSkippedHeader(h) && "EOF" !in body
    ensures FilterTags([h] + body + ["EOF"] + rest, false) == FilterTags(rest, false)
  {
    HeaderIsNotEof(h);
    assert ([h] + body + ["EOF"] + rest)[1..] == body + ["EOF"] + rest;
    FilterIgnoresToEof(body, rest);
  }

  /** A block with no closing `EOF` drops the rest of the script. */
  lemma FilterDropsUnterminatedBlock(h: string, rest: seq<string>)
    requires IsSkippedHeader(h) && "EOF" !in rest
    ensures FilterTags([h] + rest, false) == []
  {
    HeaderIsNotEof(h);
    assert ([h] + rest)[1..] == rest;
    FilterIgnoresToEnd(rest);
  }

  /** The lines left once each `/sbin/ldconfig\n` is removed: every line that is exactly the command, except the last. */
  function DropLdconfigLines(p: seq<string>): (r: seq<string>)
    requires |p| >= 1
    ensures |r| >= 1 && r[|r| - 1] == p[|p| - 1]
    ensures forall x :: x in r ==> x in p
    decreases |p|
  {
    if |p| == 1 then p
    else if p[0] == Ldconfig then DropLdconfigLines(p[1..])
    else [p[0]] + DropLdconfigLines(p[1..])
  }

  /** Every line that ends in `/sbin/ldconfig` is that command alone. */
  predicate LdconfigLinesWhole(p: seq<string>) {
    forall i :: 0 <= i < |p| ==> EndsWith(p[i], Ldconfig) ==> p[i] == Ldconfig
  }

  /** No `/sbin/ldconfig\n` starts within a line other than the command, nor at its end. */
  lemma NoLdconfigWithin(a: string, rest: string)
    requires '\n' !in a && a != Ldconfig && !EndsWith(a, Ldconfig)
    ensures NoMatchBefore(a + "\n" + rest, LdconfigNl, |a| + 1)
  {
    var s := a + "\n" + rest;
    forall i | 0 <= i < |a| + 1 && i <= |s|
      ensures !StartsWith(s[i..], LdconfigNl)
    {
      var j := |a| - i;
      if j < 14 {
        assert s[i..][j] == '\n';
        MismatchAt(s[i..], LdconfigNl, j);
      } else if j == 14 {
        assert a[i..] != Ldconfig;
        var m :| 0 <= m < 14 && a[i..][m] != Ldconfig[m];
        assert s[i..][m] == a[i..][m];
        MismatchAt(s[i..], LdconfigNl, m);
      } else {
        assert s[i..][14] == a[i + 14];
        MismatchAt(s[i..], LdconfigNl, 14);
      }
    }
  }

  /** A line without '\n' holds no `/sbin/ldconfig\n`. */
  lemma NoLdconfigInLine(a: string)
    requires '\n' !in a
    ensures Replace(a, LdconfigNl, "") == a
  {
    forall i | 0 <= i < |a| + 1 && i <= |a|
      ensures !StartsWith(a[i..], LdconfigNl)
    {
      MismatchAt(a[i..], LdconfigNl, 14);
    }
    ReplaceNoMatch(a, LdconfigNl, "");
  }

  /**
   * On whole lines, removing every `/sbin/ldconfig\n` drops each line
   * that is exactly the command and is followed by a newline.
   */
  lemma {:induction false} RemoveLdconfigLines(p: seq<string>)
    requires |p| >= 1
    requires forall i :: 0 <= i < |p| ==> '\n' !in p[i]
    requires LdconfigLinesWhole(p)
    ensures Replace(Join("\n", p), LdconfigNl, "") == Join("\n", DropLdconfigLines(p))
    decreases |p|
  {
    if |p| == 1 {
      NoLdconfigInLine(p[0]);
    } else {
      var a := p[0];
      var rest := Join("\n", p[1..]);
      assert Join("\n", p) == a + "\n" + rest;
      assert forall i :: 0 <= i < |p[1..]| ==> p[1..][i] == p[i + 1];
      RemoveLdconfigLines(p[1..]);
      if a == Ldconfig {
        assert a + "\n" + rest == LdconfigNl + rest;
        ReplaceAtFirst("", rest, LdconfigNl, "");
        assert "" + LdconfigNl + rest == LdconfigNl + rest;
      } else {
        assert !EndsWith(p[0], Ldconfig);
        NoLdconfigWithin(a, rest);
        assert a + "\n" + rest == (a + "\n") + rest;
        ReplaceSkip(a + "\n", rest, LdconfigNl, "");
        var d := DropLdconfigLines(p[1..]);
        assert DropLdconfigLines(p) == [a] + d;
        assert ([a] + d)[1..] == d;
      }
    }
  }

  /** Whatever the script, the rewritten one starts with the line `/sbin/ldconfig`. */
  lemma TagScriptStartsWithLdconfig(tags: string)
    ensures var t := FilterTags(TagLines(tags), false) + [""];
      t[0] == Ldconfig && StartsWith(Join("\n", t), LdconfigNl)
  {
    var rest := Split(Replace(tags, LdconfigNl, ""), '\n');
    SplitCons(Ldconfig, '\n', Replace(tags, LdconfigNl, ""));
    assert TagLines(tags) == [Ldconfig] + rest;
    assert !IsSkippedHeader(Ldconfig);
    assert ([Ldconfig] + rest)[1..] == rest;
    var f := FilterTags(rest, false);
    assert FilterTags(TagLines(tags), false) == [Ldconfig] + f;
    var t := [Ldconfig] + (f + [""]);
    assert FilterTags(TagLines(tags), false) + [""] == t;
    assert t[1..] == f + [""];
    assert Join("\n", t) == Ldconfig + "\n" + Join("\n", f + [""]);
  }

  /** The leading `/sbin/ldconfig` line is kept and the filter goes on from the next line unchanged. */
  lemma FilterAfterLdconfig(d: seq<string>)
    ensures FilterTags([Ldconfig] + d, false) == [Ldconfig] + FilterTags(d, false)
  {
    assert !IsSkippedHeader(Ldconfig);
    assert ([Ldconfig] + d)[1..] == d;
  }

  /** The lines kept by `DropLdconfigLines` hold no '\n' when the input lines hold none. */
  lemma DropKeepsLines(p: seq<string>)
    requires |p| >= 1 && forall i :: 0 <= i < |p| ==> '\n' !in p[i]
    ensures forall i :: 0 <= i < |DropLdconfigLines(p)| ==> '\n' !in DropLdconfigLines(p)[i]
  {
    var d := DropLdconfigLines(p);
    forall i | 0 <= i < |d|
      ensures '\n' !in d[i]
    {
      assert d[i] in p;
      var j :| 0 <= j < |p| && p[j] == d[i];
    }
  }

  /** On whole lines, the filter reads the command first and then the script's other lines. */
  lemma TagLinesOfWholeLines(tags: string)
    requires LdconfigLinesWhole(Split(tags, '\n'))
    ensures TagLines(tags) == [Ldconfig] + DropLdconfigLines(Split(tags, '\n'))
  {
    var p := Split(tags, '\n');
    JoinSplit(tags, '\n');
    RemoveLdconfigLines(p);
    var d := DropLdconfigLines(p);
    DropKeepsLines(p);
    SplitJoin(d, '\n');
    SplitCons(Ldconfig, '\n', Join("\n", d));
  }

  /** When the last line is not the command, no line left by `DropLdconfigLines` is. */
  lemma {:induction false} DropLeavesNoLdconfig(p: seq<string>)
    requires |p| >= 1 && p[|p| - 1] != Ldconfig
    ensures Ldconfig !in DropLdconfigLines(p)
    decreases |p|
  {
    if |p| > 1 {
      assert p[1..][|p| - 2] == p[|p| - 1];
      DropLeavesNoLdconfig(p[1..]);
    }
  }

  /** A filtered script behind one leading `/sbin/ldconfig` holds no other when its input held none. */
  lemma LdconfigKeptOnce(d: seq<string>)
    requires Ldconfig !in d
    ensures var t := [Ldconfig] + FilterTags(d, false);
      t[0] == Ldconfig && Ldconfig !in t[1..]
  {
    var f := FilterTags(d, false);
    assert ([Ldconfig] + f)[1..] == f;
  }

  /**
   * When no line merely ends in `/sbin/ldconfig` and the script's last
   * line is not the command, the rewritten script runs it exactly once,
   * as its first line.
   */
  lemma TagScriptRunsLdconfigOnce(tags: string)
    requires LdconfigLinesWhole(Split(tags, '\n'))
    requires Split(tags, '\n')[|Split(tags, '\n')| - 1] != Ldconfig
    ensures var t := FilterTags(TagLines(tags), false);
      t != [] && t[0] == Ldconfig && Ldconfig !in t[1..]
  {
    var p := Split(tags, '\n');
    DropLeavesNoLdconfig(p);
    TagLinesOfWholeLines(tags);
    FilterAfterLdconfig(DropLdconfigLines(p));
    LdconfigKeptOnce(DropLdconfigLines(p));
  }

  // ---------------------------------------------------------------------
  // finishFilesystem: the boot sector
  // ---------------------------------------------------------------------

  /** Where `finishFilesystem` looks for the boot code, by partition-table kind. */
  function MbrPath(root: string, t: string): string {
    if t == ImageBuilder.GPT then root + "/boot/extlinux/gptmbr.bin" else root + "/boot/extlinux/mbr.bin"
  }

  /** The boot code is taken from the directory `extlinux -i` installs into, and differs by kind. */
  lemma MbrBesideExtlinux(root: string, t: string)
    ensures Dirname(MbrPath(root, t)) == root + "/boot/extlinux"
    ensures Basename(MbrPath(root, t)) == if t == ImageBuilder.GPT then "gptmbr.bin" else "mbr.bin"
  {
    var name := if t == ImageBuilder.GPT then "gptmbr.bin" else "mbr.bin";
    assert MbrPath(root, t) == (root + "/boot/extlinux") + "/" + name;
    DirnameOfChild(root + "/boot/extlinux", name);
    BasenameAfterSlash(root + "/boot/extlinux", name);
  }

  /** The image after the boot-sector write, and whether a short write raised. */
  datatype MbrWrite = MbrWrite(image: Bytes, raised: bool)

  /**
   * The end of `finishFilesystem`: boot code that was read and is not
   * empty is written over the start of the image, the write reporting
   * `written` bytes; a count short of the whole raises.
   */
  function WriteMbr(image: Bytes, mbr: Option<Bytes>, written: nat): (r: MbrWrite)
    requires mbr.Some? ==> written <= |mbr.value|
    ensures r.raised <==> mbr.Some? && mbr.value != [] && written != |mbr.value|
    ensures mbr.None? || mbr.value == [] ==> r.image == image
    ensures mbr.Some? && !r.raised ==>
      |mbr.value| <= |r.image| && r.image[..|mbr.value|] == mbr.value
    ensures mbr.Some? && mbr.value != [] ==>
      |r.image| == (if written <= |image| then |image| else written)
      && r.image[..written] == mbr.value[..written]
      && (written <= |image| ==> r.image[written..] == image[written..])
  {
    if mbr.Some? && mbr.value != [] then
      var m := mbr.value;
      var img := if written <= |image| then m[..written] + image[written..] else m[..written];
      MbrWrite(img, written != |m|)
    else MbrWrite(image, false)
  }

  // ---------------------------------------------------------------------
  // runBootman: /boot/grub/menu.lst
  // ---------------------------------------------------------------------

  const KernelLine := "    kernel"
  const RootedKernelLine := "    root (hd0)\n    kernel"
  const SlowTimeout := "timeout=5"
  const FastTimeout := "timeout=1"

  /**
   * The menu.lst text derived from grub.conf: it only ever grows, and a
   * grub.conf with neither an indented kernel line nor `timeout=5` is
   * copied as it is.
   */
  function MenuLst(grub: string): (r: string)
    ensures |r| >= |grub|
    ensures NoMatchBefore(grub, KernelLine, |grub| + 1) && NoMatchBefore(grub, SlowTimeout, |grub| + 1) ==> r == grub
  {
    var r := Replace(Replace(grub, KernelLine, RootedKernelLine), SlowTimeout, FastTimeout);
    if NoMatchBefore(grub, KernelLine, |grub| + 1) && NoMatchBefore(grub, SlowTimeout, |grub| + 1) then
      ReplaceNoMatch(grub, KernelLine, RootedKernelLine);
      ReplaceNoMatch(grub, SlowTimeout, FastTimeout);
      r
    else r
  }

  /**
   * menu.lst after `runBootman`: derived from grub.conf when that exists
   * and menu.lst does not, otherwise as it was.
   */
  function MenuLstAfter(grubConf: Option<string>, menuLst: Option<string>): (r: Option<string>)
    ensures menuLst.Some? ==> r == menuLst
    ensures menuLst.None? && grubConf.None? ==> r.None?
    ensures menuLst.None? && grubConf.Some? ==> r == Some(MenuLst(grubConf.value))
  {
    if grubConf.Some? && menuLst.None? then Some(MenuLst(grubConf.value)) else menuLst
  }

  /** After the inserted root line, no `timeout=5` can start before the text that follows it. */
  lemma NoTimeoutAcrossRoot(b: string, c: string)
    requires '=' !in b
    requires NoMatchBefore(c, SlowTimeout, |c| + 1)
    ensures NoMatchBefore(b + RootedKernelLine + c, SlowTimeout, |b + RootedKernelLine + c| + 1)
  {
    var r := RootedKernelLine;
    var s := b + r + c;
    assert '=' !in r;
    forall i | 0 <= i <= |s|
      ensures !StartsWith(s[i..], SlowTimeout)
    {
      if i + 7 < |b| + |r| {
        assert s[i..][7] == s[i + 7];
        MismatchAt(s[i..], SlowTimeout, 7);
      } else if i < |b| + |r| {
        assert s[i] == r[i - |b|];
        assert s[i..][0] == s[i];
        MismatchAt(s[i..], SlowTimeout, 0);
      } else {
        assert s[i..] == c[i - |b| - |r|..];
      }
    }
  }

  /** A `timeout=5` that is the first in `a + timeout=5` stays the first whatever follows. */
  lemma FirstTimeoutStaysFirst(a: string, tail: string)
    requires NoMatchBefore(a + SlowTimeout, SlowTimeout, |a|)
    ensures NoMatchBefore(a + SlowTimeout + tail, SlowTimeout, |a|)
  {
    var s := a + SlowTimeout + tail;
    forall i | 0 <= i < |a| && i <= |s|
      ensures !StartsWith(s[i..], SlowTimeout)
    {
      assert s[i..][..9] == (a + SlowTimeout)[i..][..9];
    }
  }

  /** The first pass inserts the root line before the only indented kernel line. */
  lemma RootBeforeOnlyKernel(a: string, b: string, c: string)
    requires NoMatchBefore(a + SlowTimeout + b + KernelLine + c, KernelLine, |a + SlowTimeout + b|)
    requires NoMatchBefore(c, KernelLine, |c| + 1)
    ensures Replace(a + SlowTimeout + b + KernelLine + c, KernelLine, RootedKernelLine)
      == a + SlowTimeout + b + RootedKernelLine + c
  {
    ReplaceOnly(a + SlowTimeout + b, c, KernelLine, RootedKernelLine);
  }

  lemma Regroup(a: string, x: string, b: string, y: string, c: string)
    ensures a + x + b + y + c == a + x + (b + y + c)
  {
  }

  /** The second pass lowers the only `timeout=5`. */
  lemma LowerOnlyTimeout(a: string, tail: string)
    requires NoMatchBefore(a + SlowTimeout, SlowTimeout, |a|)
    requires NoMatchBefore(tail, SlowTimeout, |tail| + 1)
    ensures Replace(a + SlowTimeout + tail, SlowTimeout, FastTimeout) == a + FastTimeout + tail
  {
    FirstTimeoutStaysFirst(a, tail);
    ReplaceAtFirst(a, tail, SlowTimeout, FastTimeout);
    ReplaceNoMatch(tail, SlowTimeout, FastTimeout);
  }

  /**
   * For a grub.conf whose first `timeout=5` and first indented kernel line
   * are the only ones, menu.lst lowers the timeout and puts a `root (hd0)`
   * line before the kernel line, copying the rest.
   */
  lemma MenuLstForOneEntry(a: string, b: string, c: string)
    requires NoMatchBefore(a + SlowTimeout, SlowTimeout, |a|)
    requires NoMatchBefore(a + SlowTimeout + b + KernelLine + c, KernelLine, |a + SlowTimeout + b|)
    requires NoMatchBefore(c, KernelLine, |c| + 1) && NoMatchBefore(c, SlowTimeout, |c| + 1)
    requires '=' !in b
    ensures MenuLst(a + SlowTimeout + b + KernelLine + c)
      == a + FastTimeout + b + RootedKernelLine + c
  {
    RootBeforeOnlyKernel(a, b, c);
    Regroup(a, SlowTimeout, b, RootedKernelLine, c);
    NoTimeoutAcrossRoot(b, c);
    LowerOnlyTimeout(a, b + RootedKernelLine + c);
    Regroup(a, FastTimeout, b, RootedKernelLine, c);
  }
}
