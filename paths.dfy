/** POSIX path manipulation as Python's `os.path` does it: `join`, `split` and
    `splitext` on `/`-separated strings. */
module Paths {
  import Text

  /** The index of the last occurrence of `c` in `p`, or -1 (`str.rfind`). */
  function RFind(p: string, c: char): (i: int)
    ensures -1 <= i < |p|
    ensures i >= 0 ==> p[i] == c
    ensures forall j :: i < j < |p| ==> p[j] != c
  {
    if p == [] then -1 else if p[|p| - 1] == c then |p| - 1 else RFind(p[..|p| - 1], c)
  }

  /** `os.path.join(a, b)`. */
  function Join(a: string, b: string): string {
    if b != [] && b[0] == '/' then b
    else if a == [] || a[|a| - 1] == '/' then a + b
    else a + "/" + b
  }

  predicate AllSlashes(s: string) {
    forall i :: 0 <= i < |s| ==> s[i] == '/'
  }

  /** `os.path.split(p)`: the directory part (without trailing slashes unless
      it is only slashes) and the last component. */
  function Split(p: string): (string, string) {
    var i := RFind(p, '/') + 1;
    var head := p[..i];
    var tail := p[i..];
    if head != [] && !AllSlashes(head) then (Text.RStrip(head, Text.Chars({'/'})), tail)
    else (head, tail)
  }

  /** The directory part of `os.path.split`. */
  function DirName(p: string): string {
    Split(p).0
  }

  /** The last component of `os.path.split`. */
  function BaseName(p: string): string {
    Split(p).1
  }

  /** `os.path.splitext(p)`: the extension starts at the last dot of the last
      component, provided a character other than a dot precedes it in that
      component; otherwise there is no extension. */
  function SplitExt(p: string): (string, string) {
    var sep := RFind(p, '/');
    var dot := RFind(p, '.');
    if dot > sep && exists k :: sep + 1 <= k < dot && p[k] != '.' then (p[..dot], p[dot..])
    else (p, "")
  }

  /** The extension part of `os.path.splitext`. */
  function Ext(p: string): string {
    SplitExt(p).1
  }

  /** `splitext` only cuts: the two parts give back the path, and a non-empty
      extension is one dot followed by no dot and no slash. */
  lemma SplitExtParts(p: string)
    ensures SplitExt(p).0 + SplitExt(p).1 == p
    ensures var e := SplitExt(p).1;
      e == [] || (e[0] == '.' && forall i :: 1 <= i < |e| ==> e[i] != '.' && e[i] != '/')
  {
    var sep := RFind(p, '/');
    var dot := RFind(p, '.');
    if dot > sep && exists k :: sep + 1 <= k < dot && p[k] != '.' {
      assert p[..dot] + p[dot..] == p;
    }
  }

  /** The last component of `r` has a character other than a dot. */
  predicate NamedStem(r: string) {
    exists k :: 0 <= k < |r| && r[k] != '.' && r[k] != '/' && (forall j :: k < j < |r| ==> r[j] != '/')
  }

  /** `p` ends with `e` and the rest of its last component is not made of
      dots alone. */
  predicate EndsInExt(p: string, e: string) {
    |e| <= |p| && p[|p| - |e|..] == e && NamedStem(p[..|p| - |e|])
  }

  /** For an extension `e` (a dot and then neither dots nor slashes),
      `splitext(p)` yields `e` exactly when `p` ends with `e` and the rest of
      the last component is not made of dots alone. */
  lemma ExtIs(p: string, e: string)
    requires |e| >= 2 && e[0] == '.'
    requires forall i :: 1 <= i < |e| ==> e[i] != '.' && e[i] != '/'
    ensures Ext(p) == e <==> EndsInExt(p, e)
  {
    var sep := RFind(p, '/');
    var dot := RFind(p, '.');
    var cut := |p| - |e|;
    if Ext(p) == e {
      assert dot > sep && exists k :: sep + 1 <= k < dot && p[k] != '.';
      assert |p[dot..]| == |e| && dot == cut;
      var k :| sep + 1 <= k < dot && p[k] != '.';
      assert p[..cut][k] == p[k];
      assert forall j :: k < j < cut ==> p[..cut][j] == p[j];
    }
    if |e| <= |p| && p[cut..] == e && NamedStem(p[..cut]) {
      var r := p[..cut];
      var k :| 0 <= k < |r| && r[k] != '.' && r[k] != '/' && (forall j :: k < j < |r| ==> r[j] != '/');
      assert p[cut] == '.';
      assert forall j :: cut < j < |p| ==> p[j] == e[j - cut];
      assert dot == cut;
      assert sep < k;
      assert p[k] == r[k];
    }
  }

  /** A proper stem followed by an extension has that extension. */
  lemma ExtOfAppended(stem: string, e: string)
    requires NamedStem(stem)
    requires |e| >= 2 && e[0] == '.'
    requires forall i :: 1 <= i < |e| ==> e[i] != '.' && e[i] != '/'
    ensures Ext(stem + e) == e
  {
    var p := stem + e;
    assert p[|p| - |e|..] == e && p[..|p| - |e|] == stem;
    ExtIs(p, e);
  }

  /** Joining a directory that does not end in a slash with a name that has no
      slash, and splitting again, gives both back. */
  lemma SplitJoin(d: string, n: string)
    requires d == [] || d[|d| - 1] != '/'
    requires forall i :: 0 <= i < |n| ==> n[i] != '/'
    ensures Split(Join(d, n)) == (d, n)
  {
    var p := Join(d, n);
    if d == [] {
      assert p == n;
      assert RFind(p, '/') == -1;
    } else {
      assert p == d + "/" + n;
      assert p[|d|] == '/';
      assert forall j :: |d| < j < |p| ==> p[j] == n[j - |d| - 1];
      assert RFind(p, '/') == |d|;
      var head := p[..|d| + 1];
      assert head == d + "/";
      assert !AllSlashes(head) by { assert head[|d| - 1] != '/'; }
      var h := Text.RStrip(head, Text.Chars({'/'}));
      assert h == Text.RStrip(d, Text.Chars({'/'}));
      assert h == d;
    }
  }

  /** The same for two names without any slash. */
  lemma SplitJoinNoSlash(d: string, n: string)
    requires '/' !in d && '/' !in n
    ensures Split(Join(d, n)) == (d, n)
  {
    assert d != [] ==> d[|d| - 1] in d;
    assert forall i :: 0 <= i < |n| ==> n[i] in n;
    SplitJoin(d, n);
  }
}
