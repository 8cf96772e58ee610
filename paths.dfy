// POSIX path helpers with the semantics of Python's `posixpath` and `pathlib`,
// and `str.strip(c)` / `str.split(c)` for a single separator character.

module Paths {
  import opened Text

  /** `s.rfind(c)`: the last index holding c, or -1. */
  function RFind(s: String, c: char): (r: int)
    ensures -1 <= r < |s|
    ensures r >= 0 ==> s[r] == c
    ensures forall k :: r < k < |s| ==> s[k] != c
    decreases |s|
  {
    if s == [] then -1
    else if s[|s| - 1] == c then |s| - 1
    else RFind(s[..|s| - 1], c)
  }

  predicate AllDots(s: String)
  {
    forall k :: 0 <= k < |s| ==> s[k] == '.'
  }

  predicate Excludes(s: String, c: char)
  {
    forall k :: 0 <= k < |s| ==> s[k] != c
  }

  /** `os.path.splitext(p)`: the extension starts at the last '.' of the last
      path component, unless everything before that dot in the component is
      dots (so ".bashrc" and "..x" have no extension). */
  function Splitext(p: String): (r: (String, String))
    ensures r.0 + r.1 == p
  {
    var sep := RFind(p, '/');
    var dot := RFind(p, '.');
    if dot > sep && !AllDots(p[sep + 1..dot]) then (p[..dot], p[dot..]) else (p, [])
  }

  function Ext(p: String): String { Splitext(p).1 }

  function Root(p: String): String { Splitext(p).0 }

  /** An extension is empty or a dot followed by neither dots nor slashes. */
  lemma ExtShape(p: String)
    ensures Ext(p) == [] || (Ext(p)[0] == '.' && Excludes(Ext(p)[1..], '.') && Excludes(Ext(p), '/'))
  {
    var sep := RFind(p, '/');
    var dot := RFind(p, '.');
    if dot > sep && !AllDots(p[sep + 1..dot]) {
      var e := p[dot..];
      assert forall k :: 0 <= k < |e| ==> e[k] == p[dot + k];
    }
  }

  /** Splitting a name built from a root and a one-dot extension gives them
      back, provided the root's last component is not all dots. */
  lemma SplitextOfRootExt(root: String, x: String)
    requires Excludes(x, '.') && Excludes(x, '/')
    requires !AllDots(root[RFind(root, '/') + 1..])
    ensures Splitext(root + (['.'] + x)) == (root, ['.'] + x)
  {
    var e := ['.'] + x;
    LastDotOfExt(root, x, e);
    LastSlashOfExt(root, x, e);
    SplitextAt(root, e, RFind(root, '/'));
  }

  lemma LastDotOfExt(root: String, x: String, e: String)
    requires Excludes(x, '.') && e == ['.'] + x
    ensures RFind(root + e, '.') == |root|
  {
    assert RFind(x, '.') < 0;
    RFindPrefix(['.'], x, '.');
    assert RFind(['.'], '.') == 0;
    RFindSuffix(root, e, '.');
  }

  lemma LastSlashOfExt(root: String, x: String, e: String)
    requires Excludes(x, '/') && e == ['.'] + x
    ensures RFind(root + e, '/') == RFind(root, '/')
  {
    assert RFind(x, '/') < 0;
    RFindPrefix(['.'], x, '/');
    assert RFind(['.'], '/') == -1;
    RFindPrefix(root, e, '/');
  }

  lemma SplitextAt(root: String, e: String, sep: int)
    requires e != [] && RFind(root + e, '.') == |root|
    requires RFind(root + e, '/') == sep == RFind(root, '/')
    requires !AllDots(root[sep + 1..])
    ensures Splitext(root + e) == (root, e)
  {
    var p := root + e;
    assert p[..|root|] == root;
    assert p[sep + 1..|root|] == root[sep + 1..];
    assert p[|root|..] == e;
  }

  /** The last c of a + b lies in b when b has one. */
  lemma RFindSuffix(a: String, b: String, c: char)
    requires RFind(b, c) >= 0
    ensures RFind(a + b, c) == |a| + RFind(b, c)
    decreases |b|
  {
    assert (a + b)[..|a + b| - 1] == a + b[..|b| - 1];
    if b[|b| - 1] != c {
      RFindSuffix(a, b[..|b| - 1], c);
    }
  }

  /** The last c of a + b lies in a when b has no c. */
  lemma RFindPrefix(a: String, b: String, c: char)
    requires RFind(b, c) < 0
    ensures RFind(a + b, c) == RFind(a, c)
    decreases |b|
  {
    if b != [] {
      assert (a + b)[..|a + b| - 1] == a + b[..|b| - 1];
      RFindPrefix(a, b[..|b| - 1], c);
    } else {
      assert a + b == a;
    }
  }

  /** Two strings of one length with '.' and '/' in the same places. */
  predicate SameSeparators(p: String, q: String)
  {
    |p| == |q| && forall k :: 0 <= k < |p| ==> (p[k] == '.' <==> q[k] == '.') && (p[k] == '/' <==> q[k] == '/')
  }

  lemma {:induction false} RFindSame(p: String, q: String, c: char)
    requires SameSeparators(p, q) && (c == '.' || c == '/')
    ensures RFind(p, c) == RFind(q, c)
    decreases |p|
  {
    if p != [] {
      RFindSame(p[..|p| - 1], q[..|q| - 1], c);
    }
  }

  /** Where `Splitext` cuts depends only on where the dots and slashes are. */
  lemma SplitextSame(p: String, q: String)
    requires SameSeparators(p, q)
    ensures |Root(p)| == |Root(q)|
  {
    RFindSame(p, q, '/');
    RFindSame(p, q, '.');
    var sep := RFind(p, '/');
    var dot := RFind(p, '.');
    if dot > sep {
      var ps, qs := p[sep + 1..dot], q[sep + 1..dot];
      forall j | 0 <= j < |ps| ensures (ps[j] == '.') == (qs[j] == '.') {
        assert ps[j] == p[sep + 1 + j] && qs[j] == q[sep + 1 + j];
      }
      assert AllDots(ps) <==> AllDots(qs);
    }
  }

  /** Lower-casing and path splitting commute: '.' and '/' are not letters. */
  lemma SplitextLower(p: String)
    ensures Ext(Lower(p)) == Lower(Ext(p)) && Root(Lower(p)) == Lower(Root(p))
  {
    var q := Lower(p);
    LowerSameSeparators(p, q);
    SplitextSame(p, q);
    var n := |Root(p)|;
    RootExtSlices(p, n);
    RootExtSlices(q, n);
    LowerCut(p, q, n);
  }

  lemma LowerSameSeparators(p: String, q: String)
    requires q == Lower(p)
    ensures SameSeparators(p, q)
  {
  }

  lemma RootExtSlices(p: String, n: nat)
    requires n == |Root(p)|
    ensures n <= |p| && Root(p) == p[..n] && Ext(p) == p[n..]
  {
    assert Root(p) + Ext(p) == p;
  }

  lemma LowerCut(p: String, q: String, n: nat)
    requires q == Lower(p) && n <= |p|
    ensures q[..n] == Lower(p[..n]) && q[n..] == Lower(p[n..])
  {
  }

  /** A hidden name: `name.startswith(".")`. */
  predicate Hidden(name: String)
  {
    name != [] && name[0] == '.'
  }

  /** `os.path.basename(p)`: everything after the last '/'. */
  function Basename(p: String): (r: String)
    ensures Excludes(r, '/') && |r| <= |p| && r == p[|p| - |r|..]
  {
    p[RFind(p, '/') + 1..]
  }

  /** `os.path.join(a, b)` for two components. */
  function Join(a: String, b: String): String
  {
    if b != [] && b[0] == '/' then b
    else if a == [] || a[|a| - 1] == '/' then a + b
    else a + "/" + b
  }

  /** `str.rstrip(c)` for one character. */
  function RStripChar(s: String, c: char): (r: String)
    ensures |r| <= |s| && r == s[..|r|] && (r == [] || r[|r| - 1] != c)
    ensures forall k :: |r| <= k < |s| ==> s[k] == c
    decreases |s|
  {
    if s != [] && s[|s| - 1] == c then RStripChar(s[..|s| - 1], c) else s
  }

  /** `str.lstrip(c)` for one character. */
  function LStripChar(s: String, c: char): (r: String)
    ensures |r| <= |s| && r == s[|s| - |r|..] && (r == [] || r[0] != c)
    ensures forall k :: 0 <= k < |s| - |r| ==> s[k] == c
    decreases |s|
  {
    if s != [] && s[0] == c then LStripChar(s[1..], c) else s
  }

  /** `str.strip(c)` for one character. */
  function StripChar(s: String, c: char): (r: String)
    ensures r == [] || (r[0] != c && r[|r| - 1] != c)
  {
    RStripChar(LStripChar(s, c), c)
  }

  /** `os.path.dirname(p)`: everything up to the last '/', without trailing
      slashes unless it is made of slashes only. */
  function Dirname(p: String): String
  {
    var head := p[..RFind(p, '/') + 1];
    if head != [] && RStripChar(head, '/') != [] then RStripChar(head, '/') else head
  }

  /** Joining a folder and a plain name: the name is the basename and the
      folder the dirname. */
  lemma JoinSplits(dir: String, name: String)
    requires Excludes(name, '/')
    requires dir != [] && dir[|dir| - 1] != '/'
    ensures Join(dir, name) == dir + "/" + name
    ensures Basename(Join(dir, name)) == name
    ensures Dirname(Join(dir, name)) == dir
  {
    var p := dir + "/" + name;
    assert p == (dir + "/") + name;
    RFindPrefix(dir + "/", name, '/');
    assert RFind(dir + "/", '/') == |dir|;
    assert p[..|dir| + 1] == dir + "/";
    assert (dir + "/")[..|dir|] == dir;
  }

  /** pathlib's `PurePath.stem` of a name: drop the suffix that starts at the
      last '.', when that dot is neither the first nor the last character. */
  function Stem(name: String): (r: String)
    ensures |r| <= |name| && r == name[..|r|]
  {
    var i := RFind(name, '.');
    if 0 < i < |name| - 1 then name[..i] else name
  }

  /** `s.split(c)`: the pieces between occurrences of c, empty ones included. */
  function SplitOn(s: String, c: char): (r: seq<String>)
    ensures |r| >= 1
    ensures forall k :: 0 <= k < |r| ==> Excludes(r[k], c)
    decreases |s|
  {
    var i := RFind(s, c);
    if i < 0 then [s] else SplitOn(s[..i], c) + [s[i + 1..]]
  }

  /** Joining the pieces with the separator gives the string back. */
  lemma {:induction false} SplitOnJoin(s: String, c: char)
    ensures JoinWith(SplitOn(s, c), [c]) == s
    decreases |s|
  {
    var i := RFind(s, c);
    if i >= 0 {
      var init := SplitOn(s[..i], c);
      SplitOnJoin(s[..i], c);
      var r := init + [s[i + 1..]];
      assert r[..|r| - 1] == init;
      assert s == s[..i] + [c] + s[i + 1..];
    }
  }

  /** A string without the separator is one piece. */
  lemma SplitOnNone(s: String, c: char)
    requires Excludes(s, c)
    ensures SplitOn(s, c) == [s]
  {
  }

  /** Splitting after one more separator adds the last piece. */
  lemma SplitOnSnoc(x: String, y: String, c: char)
    requires Excludes(y, c)
    ensures SplitOn(x + [c] + y, c) == SplitOn(x, c) + [y]
  {
    var s := x + [c] + y;
    assert RFind(y, c) < 0;
    assert RFind(x + [c], c) == |x|;
    RFindPrefix(x + [c], y, c);
    assert s[..|x|] == x;
    assert s[|x| + 1..] == y;
  }

  /** A joined path ends with its last component. */
  lemma JoinEndsWith(a: String, b: String)
    ensures EndsWith(Join(a, b), b)
  {
    var j := Join(a, b);
    assert j[|j| - |b|..] == b;
  }
}
