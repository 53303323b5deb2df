/**
 * The Python string operations the image builder relies on, as functions on
 * `seq<char>`: `startswith`, `in`, `split('\n')`, `split()`, `'\n'.join`,
 * `replace`, `os.path.basename`, `os.path.dirname` and `'%d' %`.
 */
module Text {

  /** Binary file contents (a Python 2 `str` read from a binary file). */
  type Bytes = seq<bv8>

  /** `s.startswith(p)` */
  predicate StartsWith(s: string, p: string) {
    |p| <= |s| && s[..|p|] == p
  }

  /** `s.endswith(p)` */
  predicate EndsWith(s: string, p: string) {
    |p| <= |s| && s[|s| - |p|..] == p
  }

  /** `sub in s`: some suffix of `s` starts with `sub`. */
  predicate Contains(s: string, sub: string)
    decreases |s|
  {
    StartsWith(s, sub) || (s != [] && Contains(s[1..], sub))
  }

  lemma {:induction false} ContainsAt(s: string, sub: string, i: nat)
    requires i <= |s| && StartsWith(s[i..], sub)
    ensures Contains(s, sub)
    decreases i
  {
    if i > 0 {
      assert s[1..][i - 1..] == s[i..];
      ContainsAt(s[1..], sub, i - 1);
    }
  }

  /** Position of the first `c` in `s`, as `s.find(c)` when it is not -1. */
  function IndexOf(s: string, c: char): (r: nat)
    requires c in s
    ensures r < |s| && s[r] == c && c !in s[..r]
  {
    if s[0] == c then 0 else 1 + IndexOf(s[1..], c)
  }

  // ---------------------------------------------------------------------
  // s.split('\n') and '\n'.join(parts)
  // ---------------------------------------------------------------------

  /** `s.split(sep)` for a one-character separator: always at least one part. */
  function Split(s: string, sep: char): (parts: seq<string>)
    ensures |parts| >= 1
    ensures forall i :: 0 <= i < |parts| ==> sep !in parts[i]
    decreases |s|
  {
    if s == [] then [""]
    else
      var rest := Split(s[1..], sep);
      if s[0] == sep then [""] + rest
      else [[s[0]] + rest[0]] + rest[1..]
  }

  /** `sep.join(parts)` */
  function Join(sep: string, parts: seq<string>): string
    decreases |parts|
  {
    if |parts| == 0 then ""
    else if |parts| == 1 then parts[0]
    else parts[0] + sep + Join(sep, parts[1..])
  }

  /** Joining the parts of a split gives back the string. */
  lemma {:induction false} JoinSplit(s: string, sep: char)
    ensures Join([sep], Split(s, sep)) == s
    decreases |s|
  {
    if s != [] {
      var rest := Split(s[1..], sep);
      JoinSplit(s[1..], sep);
      if s[0] != sep && |rest| > 1 {
        assert Split(s, sep)[1..] == rest[1..];
        assert Join([sep], rest) == rest[0] + [sep] + Join([sep], rest[1..]);
      }
    }
  }

  /** A string without the separator is a single part. */
  lemma {:induction false} SplitNoSep(a: string, sep: char)
    requires sep !in a
    ensures Split(a, sep) == [a]
    decreases |a|
  {
    if a != [] {
      assert sep !in a[1..];
      SplitNoSep(a[1..], sep);
      assert [a[0]] + a[1..] == a;
    }
  }

  /** Splitting `a + sep + b`, with no separator in `a`, yields `a` first. */
  lemma {:induction false} SplitCons(a: string, sep: char, b: string)
    requires sep !in a
    ensures Split(a + [sep] + b, sep) == [a] + Split(b, sep)
    decreases |a|
  {
    var s := a + [sep] + b;
    if a == [] {
      assert s[1..] == b;
    } else {
      assert s[1..] == a[1..] + [sep] + b;
      assert sep !in a[1..];
      SplitCons(a[1..], sep, b);
      assert [a[0]] + a[1..] == a;
    }
  }

  /** Splitting what was joined gives back the parts, when no part holds the separator. */
  lemma {:induction false} SplitJoin(parts: seq<string>, sep: char)
    requires |parts| >= 1
    requires forall i :: 0 <= i < |parts| ==> sep !in parts[i]
    ensures Split(Join([sep], parts), sep) == parts
    decreases |parts|
  {
    if |parts| == 1 {
      SplitNoSep(parts[0], sep);
    } else {
      SplitJoin(parts[1..], sep);
      SplitCons(parts[0], sep, Join([sep], parts[1..]));
      assert [parts[0]] + parts[1..] == parts;
    }
  }

  // ---------------------------------------------------------------------
  // s.split() with no argument: whitespace-separated fields
  // ---------------------------------------------------------------------

  /** The characters Python 2's `str.split()` treats as whitespace. */
  predicate IsSpace(c: char) {
    c == ' ' || c == '\t' || c == '\n' || c == '\r' || c == '\U{000B}' || c == '\U{000C}'
  }

  predicate NoSpace(w: string) {
    forall i :: 0 <= i < |w| ==> !IsSpace(w[i])
  }

  /** The longest prefix of `s` holding no whitespace. */
  function Word(s: string): (w: string)
    ensures |w| <= |s| && w == s[..|w|] && NoSpace(w)
    ensures |w| < |s| ==> IsSpace(s[|w|])
    decreases |s|
  {
    if s == [] || IsSpace(s[0]) then "" else [s[0]] + Word(s[1..])
  }

  /** `s.split()`: the maximal runs of non-whitespace, in order. */
  function Fields(s: string): (fs: seq<string>)
    ensures forall i :: 0 <= i < |fs| ==> fs[i] != "" && NoSpace(fs[i])
    ensures fs == [] <==> forall i :: 0 <= i < |s| ==> IsSpace(s[i])
    decreases |s|
  {
    if s == [] then []
    else if IsSpace(s[0]) then
      var r := Fields(s[1..]);
      assert forall i :: 0 < i < |s| ==> s[i] == s[1..][i - 1];
      r
    else
      var w := Word(s);
      [w] + Fields(s[|w|..])
  }

  /** A word already cut short inside `a`, or stopped by whitespace right after it, does not grow when `t` follows. */
  lemma {:induction false} WordAppend(a: string, t: string)
    requires |Word(a)| < |a| || (t != [] && IsSpace(t[0]))
    ensures Word(a + t) == Word(a)
    decreases |a|
  {
    if a != [] && !IsSpace(a[0]) {
      assert (a + t)[1..] == a[1..] + t;
      WordAppend(a[1..], t);
    }
  }

  /** A string holding no whitespace is its own first word. */
  lemma {:induction false} WordOfNoSpace(w: string)
    requires NoSpace(w)
    ensures Word(w) == w
    decreases |w|
  {
    if w != [] {
      WordOfNoSpace(w[1..]);
      assert [w[0]] + w[1..] == w;
    }
  }

  /** A single run of non-whitespace is one field. */
  lemma FieldsOfWord(w: string)
    requires w != "" && NoSpace(w)
    ensures Fields(w) == [w]
  {
    WordOfNoSpace(w);
    assert !IsSpace(w[0]);
    assert w[|w|..] == [];
    assert Fields(w) == [w] + Fields(w[|w|..]);
  }

  lemma FieldsSkipSpace(s: string)
    requires s != [] && IsSpace(s[0])
    ensures Fields(s) == Fields(s[1..])
  {
  }

  lemma FieldsTakeWord(s: string)
    requires s != [] && !IsSpace(s[0])
    ensures Fields(s) == [Word(s)] + Fields(s[|Word(s)|..])
  {
  }

  /** Whitespace at the head of `t` ends the last field of `a`. */
  lemma {:induction false} FieldsAppend(a: string, t: string)
    requires t != [] && IsSpace(t[0])
    ensures Fields(a + t) == Fields(a) + Fields(t)
    decreases |a|
  {
    if a == [] {
      assert a + t == t;
    } else if IsSpace(a[0]) {
      assert (a + t)[1..] == a[1..] + t;
      FieldsSkipSpace(a + t);
      FieldsSkipSpace(a);
      FieldsAppend(a[1..], t);
    } else {
      var w := Word(a);
      WordAppend(a, t);
      assert (a + t)[|w|..] == a[|w|..] + t;
      FieldsTakeWord(a + t);
      FieldsTakeWord(a);
      FieldsAppend(a[|w|..], t);
    }
  }

  /** A whitespace character separates the fields on its two sides. */
  lemma FieldsAtSpace(a: string, c: char, b: string)
    requires IsSpace(c)
    ensures Fields(a + [c] + b) == Fields(a) + Fields(b)
  {
    assert a + [c] + b == a + ([c] + b);
    FieldsAppend(a, [c] + b);
    assert ([c] + b)[1..] == b;
    FieldsSkipSpace([c] + b);
  }

  /** A word followed by one space is the first field of what follows. */
  lemma FieldsCons(w: string, s: string)
    requires w != "" && NoSpace(w)
    ensures Fields(w + " " + s) == [w] + Fields(s)
  {
    FieldsAtSpace(w, ' ', s);
    FieldsOfWord(w);
  }

  // ---------------------------------------------------------------------
  // s.replace(pat, rep)
  // ---------------------------------------------------------------------

  /**
   * `s.replace(pat, rep)`: a single left-to-right pass that replaces each
   * non-overlapping occurrence of `pat`; replaced text is not scanned again.
   */
  function Replace(s: string, pat: string, rep: string): (r: string)
    requires pat != []
    ensures |rep| <= |pat| ==> |r| <= |s|
    ensures |rep| >= |pat| ==> |r| >= |s|
    ensures rep == pat ==> r == s
    decreases |s|
  {
    if |s| < |pat| then s
    else if StartsWith(s, pat) then rep + Replace(s[|pat|..], pat, rep)
    else [s[0]] + Replace(s[1..], pat, rep)
  }

  /** No occurrence of `pat` starts at any of the first `k` positions of `s`. */
  predicate NoMatchBefore(s: string, pat: string, k: nat) {
    forall i :: 0 <= i < k && i <= |s| ==> !StartsWith(s[i..], pat)
  }

  /** Where no occurrence starts, the first character is copied through. */
  lemma ReplaceCons(s: string, pat: string, rep: string)
    requires pat != [] && s != [] && !StartsWith(s, pat)
    ensures Replace(s, pat, rep) == [s[0]] + Replace(s[1..], pat, rep)
  {
    if |s| < |pat| {
      assert Replace(s[1..], pat, rep) == s[1..];
    }
  }

  /** A prefix in which no occurrence starts is copied through unchanged. */
  lemma {:induction false} ReplaceSkip(a: string, b: string, pat: string, rep: string)
    requires pat != []
    requires NoMatchBefore(a + b, pat, |a|)
    ensures Replace(a + b, pat, rep) == a + Replace(b, pat, rep)
    decreases |a|
  {
    if a == [] {
      assert a + b == b;
    } else {
      var s := a + b;
      assert s[0..] == s;
      ReplaceCons(s, pat, rep);
      assert s[1..] == a[1..] + b;
      forall i | 0 <= i < |a| - 1 && i <= |s[1..]|
        ensures !StartsWith((a[1..] + b)[i..], pat)
      {
        assert s[i + 1..] == (a[1..] + b)[i..];
      }
      ReplaceSkip(a[1..], b, pat, rep);
      assert [a[0]] + a[1..] == a;
    }
  }

  /** A string that differs from `p` at position `j`, or is too short to reach it, does not start with `p`. */
  lemma MismatchAt(s: string, p: string, j: nat)
    requires j < |p| && (j < |s| ==> s[j] != p[j])
    ensures !StartsWith(s, p)
  {
    if |p| <= |s| {
      assert s[..|p|][j] == s[j];
    }
  }

  /** Up to the first occurrence nothing changes; the occurrence is replaced. */
  lemma ReplaceAtFirst(a: string, b: string, pat: string, rep: string)
    requires pat != []
    requires NoMatchBefore(a + pat + b, pat, |a|)
    ensures Replace(a + pat + b, pat, rep) == a + rep + Replace(b, pat, rep)
  {
    assert a + pat + b == a + (pat + b);
    ReplaceSkip(a, pat + b, pat, rep);
    assert (pat + b)[..|pat|] == pat;
    assert (pat + b)[|pat|..] == b;
  }

  /** Text in which `pat` never occurs is left as it is. */
  lemma ReplaceNoMatch(s: string, pat: string, rep: string)
    requires pat != [] && NoMatchBefore(s, pat, |s| + 1)
    ensures Replace(s, pat, rep) == s
  {
    assert s + "" == s;
    ReplaceSkip(s, "", pat, rep);
  }

  /** A single occurrence of `pat` is the only change. */
  lemma ReplaceOnly(a: string, b: string, pat: string, rep: string)
    requires pat != []
    requires NoMatchBefore(a + pat + b, pat, |a|) && NoMatchBefore(b, pat, |b| + 1)
    ensures Replace(a + pat + b, pat, rep) == a + rep + b
  {
    ReplaceAtFirst(a, b, pat, rep);
    ReplaceNoMatch(b, pat, rep);
  }

  // ---------------------------------------------------------------------
  // Paths and numbers
  // ---------------------------------------------------------------------

  /** `os.path.basename(p)`: everything after the last '/'. */
  function Basename(p: string): string
    decreases |p|
  {
    if p == [] || p[|p| - 1] == '/' then ""
    else Basename(p[..|p| - 1]) + [p[|p| - 1]]
  }

  /** The base name is the slash-free tail of the path, preceded by '/' when shorter than it. */
  lemma {:induction false} BasenameIsLastComponent(p: string)
    ensures var b := Basename(p);
      '/' !in b && EndsWith(p, b) && (|b| < |p| ==> p[|p| - |b| - 1] == '/')
    decreases |p|
  {
    if p != [] && p[|p| - 1] != '/' {
      var q := p[..|p| - 1];
      BasenameIsLastComponent(q);
      var b := Basename(q);
      assert p[|p| - |b| - 1..] == q[|q| - |b|..] + [p[|p| - 1]];
    }
  }

  lemma {:induction false} BasenameAfterSlash(a: string, b: string)
    requires '/' !in b
    ensures Basename(a + "/" + b) == b
    decreases |b|
  {
    var p := a + "/" + b;
    if b != [] {
      assert p[..|p| - 1] == a + "/" + b[..|b| - 1];
      assert '/' !in b[..|b| - 1] by {
        assert forall k :: 0 <= k < |b| - 1 ==> b[..|b| - 1][k] == b[k];
      }
      BasenameAfterSlash(a, b[..|b| - 1]);
      assert b[..|b| - 1] + [b[|b| - 1]] == b;
    }
  }

  /** `os.path.dirname(p)` for a path whose last '/' is single: everything before it. */
  function Dirname(p: string): string {
    var b := Basename(p);
    if |b| < |p| then p[..|p| - |b| - 1] else ""
  }

  lemma DirnameOfChild(a: string, b: string)
    requires '/' !in b
    ensures Dirname(a + "/" + b) == a
  {
    BasenameAfterSlash(a, b);
    assert (a + "/" + b)[..|a|] == a;
  }

  function DigitChar(d: nat): char
    requires d < 10
  {
    "0123456789"[d]
  }

  function NatDecimal(n: nat): string
    decreases n
  {
    if n < 10 then [DigitChar(n)] else NatDecimal(n / 10) + [DigitChar(n % 10)]
  }

  /** `'%d' % n` */
  function Decimal(n: int): string {
    if n < 0 then "-" + NatDecimal(-n) else NatDecimal(n)
  }
}
