/**
 * The path handling the batch runner relies on: POSIX `os.path.split`
 * (as `Dirname`/`Basename`), `os.path.join`, `os.path.splitext`, `str.lower`
 * and `str.endswith` against the table of supported extensions.
 */
module Paths {

  const Sep: char := '/'

  /** The extensions the runner accepts, compared against lower-cased names. */
  const SupportedExts: seq<string> := [".png", ".jpg", ".jpeg", ".bmp", ".gif", ".tiff", ".webp"]

  /** The name of the sub-directory every output is written into. */
  const RemakeDir: string := "Remake"

  function LowerChar(c: char): char
  {
    if 'A' <= c <= 'Z' then (c as int + 32) as char else c
  }

  /** `str.lower`, on ASCII letters. */
  function Lower(s: string): string
  {
    seq(|s|, i requires 0 <= i < |s| => LowerChar(s[i]))
  }

  predicate IsSuffix(suffix: string, s: string)
  {
    |suffix| <= |s| && s[|s| - |suffix|..] == suffix
  }

  /** `name.lower().endswith(SUPPORTED_EXTS)`. */
  predicate HasSupportedExt(name: string)
  {
    exists e :: e in SupportedExts && IsSuffix(e, Lower(name))
  }

  /** `str.rfind`: the index of the last `c` in `s`, or -1. */
  function RFind(s: string, c: char): (i: int)
    ensures -1 <= i < |s|
    ensures i >= 0 ==> s[i] == c
    ensures forall j :: i < j < |s| ==> s[j] != c
  {
    if s == [] then -1
    else if s[|s| - 1] == c then |s| - 1
    else RFind(s[..|s| - 1], c)
  }

  predicate AllSep(s: string)
  {
    forall i :: 0 <= i < |s| ==> s[i] == Sep
  }

  /** `s.rstrip('/')`. */
  function RStripSep(s: string): (r: string)
    ensures r <= s
    ensures r == [] || r[|r| - 1] != Sep
    ensures forall i :: |r| <= i < |s| ==> s[i] == Sep
  {
    if s != [] && s[|s| - 1] == Sep then RStripSep(s[..|s| - 1]) else s
  }

  /** `os.path.basename`: everything after the last separator. */
  function Basename(p: string): (b: string)
    ensures forall i :: 0 <= i < |b| ==> b[i] != Sep
  {
    p[RFind(p, Sep) + 1..]
  }

  /**
   * `os.path.dirname`: everything up to the last separator, with trailing
   * separators removed unless the head consists of separators only.
   */
  function Dirname(p: string): (d: string)
    ensures d == [] || d[|d| - 1] != Sep || AllSep(d)
  {
    var head := p[..RFind(p, Sep) + 1];
    var stripped := RStripSep(head);
    if stripped != [] then stripped else head
  }

  /** `os.path.join(a, b)` for two components. */
  function Join(a: string, b: string): string
  {
    if |b| > 0 && b[0] == Sep then b
    else if a == [] || a[|a| - 1] == Sep then a + b
    else a + [Sep] + b
  }

  /**
   * The extension part of `os.path.splitext` on a single path component:
   * from the last dot on, provided that some character before that dot is
   * not itself a dot (leading dots belong to the stem).
   */
  function ExtOf(name: string): string
  {
    var d := RFind(name, '.');
    if d >= 0 && exists j :: 0 <= j < d && name[j] != '.' then name[d..] else []
  }

  /**
   * `os.path.splitext(p)[1]`. The dot it looks for must come after the last
   * separator, so it is the extension of the last component.
   */
  function Extension(p: string): string
  {
    ExtOf(Basename(p))
  }

  /** `os.path.join(os.path.dirname(src), "Remake", os.path.basename(src))`. */
  function OutputPath(src: string): string
  {
    Join(Join(Dirname(src), RemakeDir), Basename(src))
  }

  /**
   * `splitext` finds an extension exactly when a dot follows some character
   * that is not a dot; the extension is then the name's suffix from its last
   * dot, with no further dot in it.
   */
  lemma ExtOfShape(name: string)
    ensures ExtOf(name) != [] <==> exists i, j :: 0 <= i < j < |name| && name[i] != '.' && name[j] == '.'
    ensures ExtOf(name) != [] ==>
              && ExtOf(name)[0] == '.' && IsSuffix(ExtOf(name), name)
              && forall k :: 0 < k < |ExtOf(name)| ==> ExtOf(name)[k] != '.'
  {
    var d := RFind(name, '.');
    if exists i, j :: 0 <= i < j < |name| && name[i] != '.' && name[j] == '.' {
      var i, j :| 0 <= i < j < |name| && name[i] != '.' && name[j] == '.';
      assert j <= d;
      assert 0 <= i < d && name[i] != '.';
    }
    if ExtOf(name) != [] {
      var e := ExtOf(name);
      assert e == name[d..];
      assert name[|name| - |e|..] == e;
      forall k | 0 < k < |e| ensures e[k] != '.' {
        assert e[k] == name[d + k];
      }
    }
  }

  lemma RFindIs(s: string, c: char, k: int)
    requires 0 <= k < |s| && s[k] == c
    requires forall j :: k < j < |s| ==> s[j] != c
    ensures RFind(s, c) == k
  {
  }

  lemma RStripOne(x: string)
    requires x != [] && x[|x| - 1] != Sep
    ensures RStripSep(x + [Sep]) == x
  {
    var r := RStripSep(x + [Sep]);
    assert (x + [Sep])[|x| - 1] != Sep;
  }

  /** Basename and Dirname of `x + "/" + b` when `x` does not end in a separator and `b` holds none. */
  lemma SplitAtSep(x: string, b: string)
    requires x != [] && x[|x| - 1] != Sep
    requires forall i :: 0 <= i < |b| ==> b[i] != Sep
    ensures Basename(x + [Sep] + b) == b
    ensures Dirname(x + [Sep] + b) == x
  {
    var p := x + [Sep] + b;
    RFindIs(p, Sep, |x|);
    assert p[..|x| + 1] == x + [Sep];
    assert p[|x| + 1..] == b;
    assert (x + [Sep])[|x| - 1] != Sep;
    RStripOne(x);
  }

  lemma NoSepSplit(x: string)
    requires forall i :: 0 <= i < |x| ==> x[i] != Sep
    ensures Basename(x) == x && Dirname(x) == []
  {
    assert RFind(x, Sep) == -1;
  }

  lemma AllSepHeadSplit(d: string, b: string)
    requires d != [] && AllSep(d)
    requires forall i :: 0 <= i < |b| ==> b[i] != Sep
    ensures Basename(d + b) == b && Dirname(d + b) == d
  {
    var x := d + b;
    RFindIs(x, Sep, |d| - 1);
    assert x[..|d|] == d;
    assert x[|d|..] == b;
  }

  /** The sibling `Remake` directory of a source directory. */
  lemma RemakeDirLayout(d: string)
    requires d == [] || d[|d| - 1] != Sep || AllSep(d)
    ensures Basename(Join(d, RemakeDir)) == RemakeDir
    ensures Dirname(Join(d, RemakeDir)) == d
  {
    var r := RemakeDir;
    assert forall i :: 0 <= i < |r| ==> r[i] != Sep;
    if d == [] {
      assert Join(d, r) == r;
      NoSepSplit(r);
    } else if d[|d| - 1] == Sep {
      assert Join(d, r) == d + r;
      AllSepHeadSplit(d, r);
    } else {
      assert Join(d, r) == d + [Sep] + r;
      SplitAtSep(d, r);
    }
  }

  /**
   * The output of a source file keeps its base name, and therefore its
   * extension, and sits in the `Remake` sub-directory of the source's
   * directory.
   */
  lemma OutputPathLayout(src: string)
    ensures Basename(OutputPath(src)) == Basename(src)
    ensures Extension(OutputPath(src)) == Extension(src)
    ensures Dirname(OutputPath(src)) == Join(Dirname(src), RemakeDir)
    ensures Basename(Dirname(OutputPath(src))) == RemakeDir
    ensures Dirname(Dirname(OutputPath(src))) == Dirname(src)
  {
    var d := Dirname(src);
    var x := Join(d, RemakeDir);
    var b := Basename(src);
    assert x != [] && x[|x| - 1] == 'e';
    assert OutputPath(src) == x + [Sep] + b;
    SplitAtSep(x, b);
    RemakeDirLayout(d);
  }

  lemma LowerAppend(a: string, b: string)
    ensures Lower(a + b) == Lower(a) + Lower(b)
  {
    assert forall i :: 0 <= i < |a + b| ==> Lower(a + b)[i] == (Lower(a) + Lower(b))[i];
  }

  /** A joined path ends with its last component. */
  lemma JoinEndsWith(a: string, b: string)
    ensures IsSuffix(b, Join(a, b))
  {
    var j := Join(a, b);
    if !(|b| > 0 && b[0] == Sep) {
      if a == [] || a[|a| - 1] == Sep {
        assert j == a + b;
        assert j[|a|..] == b;
      } else {
        assert j == (a + [Sep]) + b;
        assert j[|a| + 1..] == b;
      }
    }
  }

  /** A suffix of a lower-cased name is a suffix of the lower-cased name with anything in front. */
  lemma SuffixOfLowerAppend(prefix: string, name: string, e: string)
    requires IsSuffix(e, Lower(name))
    ensures IsSuffix(e, Lower(prefix + name))
  {
    var lp, ln := Lower(prefix), Lower(name);
    LowerAppend(prefix, name);
    assert (lp + ln)[|lp| + |ln| - |e|..] == ln[|ln| - |e|..];
  }

  /** A supported name keeps its supported extension when joined under a directory. */
  lemma {:induction false} JoinKeepsSupportedExt(root: string, name: string)
    requires HasSupportedExt(name)
    ensures HasSupportedExt(Join(root, name))
  {
    var e :| e in SupportedExts && IsSuffix(e, Lower(name));
    var j := Join(root, name);
    JoinEndsWith(root, name);
    var prefix := j[..|j| - |name|];
    assert j == prefix + name;
    SuffixOfLowerAppend(prefix, name, e);
    assert e in SupportedExts && IsSuffix(e, Lower(j));
  }
}
