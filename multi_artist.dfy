// Multi-artist normalisation: only the first artist stays in ARTIST and the
// others are appended to TITLE as "(feat. ...)".

module MultiArtist {
  import opened Text
  import Paths

  // ---------------------------------------------------------------------------
  // Splitting on delimiters:
  // re.split(r';\s*|,\s*|\s/\s|\s&\s|\sfeat\.?\s|\sft\.?\s', raw, flags=re.IGNORECASE)

  /** The number of whitespace characters starting at i (`\s*`, greedy). */
  function SpaceRun(s: String, i: nat): (n: nat)
    requires i <= |s|
    ensures i + n <= |s| && AllSpace(s[i..i + n]) && (i + n == |s| || !IsSpace(s[i + n]))
    decreases |s| - i
  {
    if i < |s| && IsSpace(s[i]) then
      var m := SpaceRun(s, i + 1);
      assert s[i..i + 1 + m] == [s[i]] + s[i + 1..i + 1 + m];
      1 + m
    else 0
  }

  /** `\.?\s` after the `base` characters of a keyword matched at p; the
      optional dot is tried first. */
  function DotSpaceTail(s: String, p: nat, base: nat): (r: Option<nat>)
    ensures r.Some? ==> r.value > base && p + r.value <= |s|
  {
    var q := p + base;
    if q + 1 < |s| && s[q] == '.' && IsSpace(s[q + 1]) then Some(base + 2)
    else if q < |s| && IsSpace(s[q]) then Some(base + 1)
    else None
  }

  /** The length of the delimiter match at p, the alternatives tried in order. */
  function MatchDelim(s: String, p: nat): (r: Option<nat>)
    ensures r.Some? ==> 1 <= r.value && p + r.value <= |s|
    ensures r.Some? ==> s[p] == ';' || s[p] == ',' || (IsSpace(s[p]) && p + 1 < |s| && s[p + 1] in "/&fF")
  {
    if p >= |s| then None
    else if s[p] == ';' || s[p] == ',' then Some(1 + SpaceRun(s, p + 1))
    else if !IsSpace(s[p]) || p + 3 > |s| then None
    else if (s[p + 1] == '/' || s[p + 1] == '&') && IsSpace(s[p + 2]) then Some(3)
    else if p + 5 <= |s| && Lower(s[p + 1..p + 5]) == "feat" then DotSpaceTail(s, p, 5)
    else if Lower(s[p + 1..p + 3]) == "ft" then DotSpaceTail(s, p, 3)
    else None
  }

  /** The pieces of s[start..] between delimiter matches, scanning from p. */
  function SplitFrom(s: String, start: nat, p: nat): (r: seq<String>)
    requires start <= p <= |s|
    ensures |r| >= 1
    decreases |s| - p
  {
    if p == |s| then [s[start..]]
    else match MatchDelim(s, p)
      case Some(n) => [s[start..p]] + SplitFrom(s, p + n, p + n)
      case None => SplitFrom(s, start, p + 1)
  }

  /** `re.split` semantics, stated by positions: the pieces lie back to back
      in s from `start`, each one free of any delimiter match, consecutive
      pieces separated by exactly the delimiter matched right after the
      earlier one, and the last piece running to the end of s. */
  ghost predicate CutsAt(s: String, start: nat, pieces: seq<String>)
    decreases |pieces|
  {
    && |pieces| >= 1
    && start + |pieces[0]| <= |s|
    && var b := start + |pieces[0]|;
       && s[start..b] == pieces[0]
       && (forall q :: start <= q < b ==> MatchDelim(s, q).None?)
       && if |pieces| == 1 then b == |s|
          else MatchDelim(s, b).Some? && CutsAt(s, b + MatchDelim(s, b).value, pieces[1..])
  }

  /** The scan cuts s exactly as `CutsAt` describes, from any point p up to
      which no delimiter has matched. */
  lemma SplitFromCuts(s: String, start: nat, p: nat)
    requires start <= p <= |s|
    requires forall q :: start <= q < p ==> MatchDelim(s, q).None?
    ensures CutsAt(s, start, SplitFrom(s, start, p))
  {
    ScanCuts(s, start, p);
  }

  /** The pieces the scan from p produces are cut as `CutsAt` describes. */
  ghost predicate ScanIsCut(s: String, start: nat, p: nat)
    requires start <= p <= |s|
  {
    CutsAt(s, start, SplitFrom(s, start, p))
  }

  lemma {:induction false} ScanCuts(s: String, start: nat, p: nat)
    requires start <= p <= |s|
    requires forall q :: start <= q < p ==> MatchDelim(s, q).None?
    ensures ScanIsCut(s, start, p)
    decreases |s| - p, 1
  {
    if p == |s| {
      CutsLast(s, start);
    } else if MatchDelim(s, p).Some? {
      ScanCutsAtMatch(s, start, p);
    } else {
      ScanCutsPast(s, start, p);
    }
  }

  /** A match at p closes the first piece; the rest is scanned after it. */
  lemma {:induction false} ScanCutsAtMatch(s: String, start: nat, p: nat)
    requires start <= p < |s| && MatchDelim(s, p).Some?
    requires forall q :: start <= q < p ==> MatchDelim(s, q).None?
    ensures ScanIsCut(s, start, p)
    decreases |s| - p, 0
  {
    var n := MatchDelim(s, p).value;
    ScanCuts(s, p + n, p + n);
    CutsCons(s, start, p, n, SplitFrom(s, p + n, p + n));
  }

  /** No match at p: the scan moves on, the first piece growing by one. */
  lemma {:induction false} ScanCutsPast(s: String, start: nat, p: nat)
    requires start <= p < |s| && MatchDelim(s, p).None?
    requires forall q :: start <= q < p ==> MatchDelim(s, q).None?
    ensures ScanIsCut(s, start, p)
    decreases |s| - p, 0
  {
    NoMatchUpTo(s, start, p);
    ScanCuts(s, start, p + 1);
  }

  lemma NoMatchUpTo(s: String, start: nat, p: nat)
    requires forall q :: start <= q < p ==> MatchDelim(s, q).None?
    requires MatchDelim(s, p).None?
    ensures forall q :: start <= q < p + 1 ==> MatchDelim(s, q).None?
  {
  }

  lemma CutsLast(s: String, start: nat)
    requires start <= |s|
    requires forall q :: start <= q < |s| ==> MatchDelim(s, q).None?
    ensures CutsAt(s, start, [s[start..]])
  {
  }

  lemma CutsCons(s: String, start: nat, b: nat, n: nat, rest: seq<String>)
    requires start <= b < |s| && MatchDelim(s, b) == Some(n)
    requires forall q :: start <= q < b ==> MatchDelim(s, q).None?
    requires CutsAt(s, b + n, rest)
    ensures CutsAt(s, start, [s[start..b]] + rest)
  {
    var pieces := [s[start..b]] + rest;
    assert pieces[0] == s[start..b] && pieces[1..] == rest;
  }

  /** Scanning over positions without a match changes nothing. */
  lemma {:induction false} SplitFromSkip(s: String, start: nat, p: nat, b: nat)
    requires start <= p <= b <= |s|
    requires forall q :: p <= q < b ==> MatchDelim(s, q).None?
    ensures SplitFrom(s, start, p) == SplitFrom(s, start, b)
    decreases b - p
  {
    if p < b {
      SplitFromSkip(s, start, p + 1, b);
    }
  }

  /** The only cutting with the `CutsAt` properties is the scan's: the split
      is determined by the delimiter matches. */
  lemma CutsAtIsSplit(s: String, start: nat, pieces: seq<String>)
    requires CutsAt(s, start, pieces)
    ensures SplitFrom(s, start, start) == pieces
  {
    CutIsScan(s, start, pieces);
  }

  /** Scanning from start produces the given pieces. */
  ghost predicate ScanGives(s: String, start: nat, pieces: seq<String>)
    requires start <= |s|
  {
    SplitFrom(s, start, start) == pieces
  }

  lemma {:induction false} CutIsScan(s: String, start: nat, pieces: seq<String>)
    requires CutsAt(s, start, pieces)
    ensures ScanGives(s, start, pieces)
    decreases |pieces|
  {
    var b := start + |pieces[0]|;
    SplitFromSkip(s, start, start, b);
    if |pieces| == 1 {
      assert s[start..b] == s[start..];
    } else {
      var n := MatchDelim(s, b).value;
      CutIsScan(s, b + n, pieces[1..]);
      assert SplitFrom(s, start, b) == [s[start..b]] + SplitFrom(s, b + n, b + n);
      assert pieces == [pieces[0]] + pieces[1..];
    }
  }

  /** `re.split` on the whole input: its pieces are exactly the cutting of
      `raw` at the leftmost delimiter matches. */
  lemma SplitIsCutting(raw: String, pieces: seq<String>)
    ensures SplitFrom(raw, 0, 0) == pieces <==> CutsAt(raw, 0, pieces)
  {
    SplitFromCuts(raw, 0, 0);
    if CutsAt(raw, 0, pieces) {
      CutsAtIsSplit(raw, 0, pieces);
    }
  }

  /** Non-empty, with no whitespace at either end. */
  predicate IsTrimmed(t: String)
  {
    t != [] && !IsSpace(t[0]) && !IsSpace(t[|t| - 1])
  }

  predicate AllTrimmed(ts: seq<String>)
  {
    forall k :: 0 <= k < |ts| ==> IsTrimmed(ts[k])
  }

  /** A trimmed name is its own `strip()`. */
  lemma TrimmedIsStripped(ts: seq<String>)
    requires AllTrimmed(ts)
    ensures forall k :: 0 <= k < |ts| ==> Strip(ts[k]) == ts[k]
  {
    forall k | 0 <= k < |ts| ensures Strip(ts[k]) == ts[k] {
      StripNoEdges(ts[k]);
    }
  }

  /** `[t.strip() for t in tokens if t.strip()]`. */
  function Trimmed(tokens: seq<String>): seq<String>
    decreases |tokens|
  {
    if tokens == [] then []
    else
      var t := Strip(tokens[|tokens| - 1]);
      Trimmed(tokens[..|tokens| - 1]) + (if t != [] then [t] else [])
  }

  lemma {:induction false} TrimmedAreTrimmed(tokens: seq<String>)
    ensures AllTrimmed(Trimmed(tokens))
    decreases |tokens|
  {
    if tokens != [] {
      TrimmedAreTrimmed(tokens[..|tokens| - 1]);
      AppendTrimmed(Trimmed(tokens[..|tokens| - 1]), Strip(tokens[|tokens| - 1]));
    }
  }

  lemma AppendTrimmed(init: seq<String>, t: String)
    requires AllTrimmed(init) && (t == [] || IsTrimmed(t))
    ensures AllTrimmed(init + (if t != [] then [t] else []))
  {
    var r := init + (if t != [] then [t] else []);
    forall k | 0 <= k < |r| ensures IsTrimmed(r[k]) {
      if k < |init| {
        assert r[k] == init[k];
      }
    }
  }

  /** The tokens before de-duplication: the trimmed pieces, or the whole
      stripped input when every piece is blank. */
  function Candidates(raw: String): (r: seq<String>)
    ensures AllTrimmed(r)
  {
    TrimmedAreTrimmed(SplitFrom(raw, 0, 0));
    var tokens := Trimmed(SplitFrom(raw, 0, 0));
    if tokens == [] && Strip(raw) != [] then [Strip(raw)] else tokens
  }

  /** What `split_artists` returns. */
  function Artists(raw: String): seq<String>
  {
    if raw == [] then [] else UniqueCI(Candidates(raw))
  }

  /** `split_artists`: split, trim, then the order-preserving case-insensitive
      de-duplication loop. */
  method SplitArtists(raw: String) returns (out: seq<String>)
    ensures out == Artists(raw)
  {
    if raw == [] {
      return [];
    }
    var tokens := Candidates(raw);
    var seen: set<String> := {};
    out := [];
    var i := 0;
    while i < |tokens|
      invariant i <= |tokens|
      invariant out == UniqueCI(tokens[..i]) && seen == Keys(tokens[..i])
    {
      var t := tokens[i];
      var key := Lower(t);
      assert tokens[..i + 1][..i] == tokens[..i];
      if key !in seen {
        seen := seen + {key};
        out := out + [t];
      }
      i := i + 1;
    }
    assert tokens[..i] == tokens;
  }

  /** With no delimiter anywhere from p on, the rest is one piece. */
  lemma {:induction false} SplitFromNoMatch(s: String, start: nat, p: nat)
    requires start <= p <= |s|
    requires forall q :: p <= q < |s| ==> MatchDelim(s, q).None?
    ensures SplitFrom(s, start, p) == [s[start..]]
    decreases |s| - p
  {
    if p < |s| {
      SplitFromNoMatch(s, start, p + 1);
    }
  }

  lemma AllSpaceConcat(a: String, b: String)
    requires AllSpace(a) && AllSpace(b)
    ensures AllSpace(a + b)
  {
    forall k | 0 <= k < |a + b| ensures IsSpace((a + b)[k]) {
      if k >= |a| {
        assert (a + b)[k] == b[k - |a|];
      }
    }
  }

  /** A string strips to nothing exactly when it is all whitespace. */
  lemma AllSpaceNotStripped(s: String)
    ensures Strip(s) == [] <==> AllSpace(s)
  {
    if AllSpace(s) {
      StripAllSpace(s);
    }
    if Strip(s) == [] {
      StrippedAllSpace(s);
    }
  }

  /** Nothing is left after the left strip, since its first character would
      be a non-space the right strip keeps. */
  lemma StrippedAllSpace(s: String)
    requires Strip(s) == []
    ensures AllSpace(s)
  {
    var l := LStrip(s);
    assert l[|RStrip(l)|..] == l;
    assert l == [];
    assert s[..|s| - |l|] == s;
  }

  /** Blank input (the empty string included) splits to no artists. */
  lemma ArtistsOfBlank(raw: String)
    requires AllSpace(raw)
    ensures Artists(raw) == []
  {
    if raw != [] {
      BlankHasOnePiece(raw);
      assert Trimmed([raw]) == [] by {
        assert [raw][..0] == [];
        StripAllSpace(raw);
      }
      StripAllSpace(raw);
    }
  }

  /** Input that is not blank always yields an artist, the first candidate. */
  lemma ArtistsOfNonBlank(raw: String)
    requires !AllSpace(raw)
    ensures Artists(raw) != [] && Candidates(raw) != [] && Artists(raw)[0] == Candidates(raw)[0]
  {
    AllSpaceNotStripped(raw);
    UniqueCIHead(Candidates(raw));
  }

  /** `split_artists` returns trimmed, non-empty names in input order, with no
      two equal ignoring case, keeping the first spelling of each key. */
  lemma ArtistsShape(raw: String)
    ensures var r, c := Artists(raw), Candidates(raw);
            && AllTrimmed(r) && (forall k :: 0 <= k < |r| ==> Strip(r[k]) == r[k])
            && NoCIDup(r)
            && Subseq(r, c) && Keys(r) == Keys(c)
            && (forall i :: 0 <= i < |c| && Lower(c[i]) !in Keys(c[..i]) ==> c[i] in r)
  {
    var c := Candidates(raw);
    if raw == [] {
      ArtistsOfBlank(raw);
      assert c == [] by {
        assert SplitFrom(raw, 0, 0) == [[]];
        assert Trimmed([[]]) == [];
      }
    } else {
      UniqueCIProperties(c);
      SubseqMembers(UniqueCI(c), c);
      var r := UniqueCI(c);
      assert AllTrimmed(r) by {
        forall k | 0 <= k < |r| ensures IsTrimmed(r[k]) {
          assert r[k] in c;
        }
      }
      TrimmedIsStripped(r);
      forall i | 0 <= i < |c| && Lower(c[i]) !in Keys(c[..i]) ensures c[i] in r {
        UniqueCIKeepsFirst(c, i);
      }
    }
  }

  /** When every piece between delimiters is blank but the input is not, the
      one artist is the whole stripped input. */
  lemma ArtistsOfDelimitersOnly(raw: String)
    requires Trimmed(SplitFrom(raw, 0, 0)) == [] && !AllSpace(raw)
    ensures Artists(raw) == [Strip(raw)]
  {
    AllSpaceNotStripped(raw);
    UniqueCIOfUnique([Strip(raw)]);
  }

  /** Blank input contains no delimiter. */
  lemma BlankHasOnePiece(s: String)
    requires AllSpace(s)
    ensures SplitFrom(s, 0, 0) == [s]
  {
    SplitFromNoMatch(s, 0, 0);
  }

  /** A non-empty name with no whitespace, ';' or ',' is one artist, so "AC/DC"
      is never split. */
  lemma SingleArtist(raw: String)
    requires raw != [] && NoSpace(raw)
    requires forall k :: 0 <= k < |raw| ==> raw[k] != ';' && raw[k] != ','
    ensures Artists(raw) == [raw]
  {
    SplitFromNoMatch(raw, 0, 0);
    assert raw[0..] == raw;
    StripNoEdges(raw);
    assert Trimmed([raw]) == [raw] by {
      assert [raw][..0] == [];
    }
    UniqueCIOfUnique([raw]);
  }

  lemma AcDcIsOneArtist()
    ensures Artists("AC/DC") == ["AC/DC"]
  {
    SingleArtist("AC/DC");
  }

  // ---------------------------------------------------------------------------
  // "(feat. ...)"

  /** `format_feat`. */
  function FormatFeat(additional: seq<String>): String
  {
    if additional == [] then ""
    else if |additional| == 1 then "(feat. " + additional[0] + ")"
    else if |additional| == 2 then "(feat. " + additional[0] + " & " + additional[1] + ")"
    else "(feat. " + JoinWith(additional[..|additional| - 1], ", ") + " & " + additional[|additional| - 1] + ")"
  }

  /** The two-artist form is the general form with a one-element head. */
  lemma FormatFeatUniform(additional: seq<String>)
    requires |additional| >= 2
    ensures var n := |additional|;
            FormatFeat(additional) == "(feat. " + JoinWith(additional[..n - 1], ", ") + " & " + additional[n - 1] + ")"
  {
  }

  /** `re.search(r'\(feat\.?[^)]*\)', t, re.IGNORECASE)` matching at p, with the
      optional dot ending at k and the closing parenthesis at j. */
  predicate FeatMatchAt(t: String, p: int, k: int, j: int)
  {
    0 <= p && p + 5 <= k <= j < |t| && t[p] == '(' && Lower(t[p + 1..p + 5]) == "feat"
    && (k == p + 5 || (k == p + 6 && t[p + 5] == '.'))
    && Paths.Excludes(t[k..j], ')') && t[j] == ')'
  }

  /** `title_has_feat`. */
  predicate TitleHasFeat(title: String)
  {
    title != [] && exists p, k, j | 0 <= p <= k <= j < |title| :: FeatMatchAt(title, p, k, j)
  }

  /** "(feat" opens at p. */
  predicate OpensFeat(t: String, p: int)
  {
    0 <= p && p + 5 <= |t| && t[p] == '(' && Lower(t[p + 1..p + 5]) == "feat"
  }

  /** "(feat" opens at p and a ')' follows at j. */
  predicate FeatCloses(t: String, p: int, j: int)
  {
    OpensFeat(t, p) && p + 5 <= j < |t| && t[j] == ')'
  }

  /** The first ')' at or after i, if any. */
  function NextClose(t: String, i: nat): (r: Option<nat>)
    ensures r.Some? ==> i <= r.value < |t| && t[r.value] == ')' && Paths.Excludes(t[i..r.value], ')')
    ensures r.None? ==> forall m :: i <= m < |t| ==> t[m] != ')'
    decreases |t| - i
  {
    if i >= |t| then None
    else if t[i] == ')' then Some(i)
    else
      var r := NextClose(t, i + 1);
      if r.Some? then
        assert t[i..r.value] == [t[i]] + t[i + 1..r.value];
        r
      else r
  }

  /** Since `[^)]*` may swallow the optional dot, a feat tag is just an opening
      "(feat" (any case) with a ')' somewhere after it. */
  lemma TitleHasFeatIff(t: String)
    ensures TitleHasFeat(t) <==> exists p, j | 0 <= p <= j < |t| :: FeatCloses(t, p, j)
  {
    if TitleHasFeat(t) {
      var p, k, j :| 0 <= p <= k <= j < |t| && FeatMatchAt(t, p, k, j);
      assert FeatCloses(t, p, j);
    }
    if exists p, j | 0 <= p <= j < |t| :: FeatCloses(t, p, j) {
      var p, j :| 0 <= p <= j < |t| && FeatCloses(t, p, j);
      var c := NextClose(t, p + 5);
      assert FeatMatchAt(t, p, p + 5, c.value);
    }
  }

  /** Appending the formatted feat tag to any title gives a title that has one,
      so a second run never appends again. */
  lemma FormatFeatHasFeat(title: String, additional: seq<String>)
    requires additional != []
    ensures TitleHasFeat(title + " " + FormatFeat(additional))
  {
    var f := FormatFeat(additional);
    var t := title + " " + f;
    assert f[..7] == "(feat. " && f[|f| - 1] == ')';
    var p := |title| + 1;
    assert t[p + 1..p + 5] == f[1..5];
    assert FeatCloses(t, p, |t| - 1);
    TitleHasFeatIff(t);
  }

  /** The formatted tag names every artist it is given. */
  lemma FormatFeatMentions(additional: seq<String>, i: nat)
    requires i < |additional|
    ensures Contains(FormatFeat(additional), additional[i])
  {
    var n := |additional|;
    if n == 1 {
      ContainsIn("(feat. ", additional[0], ")");
    } else if n == 2 {
      if i == 0 {
        ContainsIn("(feat. ", additional[0], " & " + additional[1] + ")");
        assert "(feat. " + additional[0] + " & " + additional[1] + ")"
            == "(feat. " + additional[0] + (" & " + additional[1] + ")");
      } else {
        ContainsIn("(feat. " + additional[0] + " & ", additional[1], ")");
      }
    } else if i == n - 1 {
      ContainsIn("(feat. " + JoinWith(additional[..n - 1], ", ") + " & ", additional[n - 1], ")");
    } else {
      var head := JoinWith(additional[..n - 1], ", ");
      JoinWithContains(additional[..n - 1], ", ", i);
      ContainsWithin("(feat. ", head, " & " + additional[n - 1] + ")", additional[i]);
      assert "(feat. " + head + " & " + additional[n - 1] + ")"
          == "(feat. " + head + (" & " + additional[n - 1] + ")");
    }
  }

  lemma ContainsIn(a: String, w: String, b: String)
    ensures Contains(a + w + b, w)
  {
    assert (a + w + b)[|a|..|a| + |w|] == w;
    assert OccursAt(a + w + b, w, |a|);
  }

  lemma ContainsWithin(a: String, x: String, b: String, w: String)
    requires Contains(x, w)
    ensures Contains(a + x + b, w)
  {
    var p :| 0 <= p <= |x| - |w| && OccursAt(x, w, p);
    assert (a + x + b)[|a| + p..|a| + p + |w|] == x[p..p + |w|];
    assert OccursAt(a + x + b, w, |a| + p);
  }

  lemma {:induction false} JoinWithContains(xs: seq<String>, sep: String, i: nat)
    requires i < |xs|
    ensures Contains(JoinWith(xs, sep), xs[i])
    decreases |xs|
  {
    if |xs| == 1 {
      ContainsSelf(xs[0]);
    } else {
      var init := xs[..|xs| - 1];
      if i == |xs| - 1 {
        ContainsIn(JoinWith(init, sep) + sep, xs[i], []);
        assert JoinWith(init, sep) + sep + xs[i] + [] == JoinWith(xs, sep);
      } else {
        JoinWithContains(init, sep, i);
        assert init[i] == xs[i];
        ContainsWithin([], JoinWith(init, sep), sep + xs[|xs| - 1], xs[i]);
        assert [] + JoinWith(init, sep) + (sep + xs[|xs| - 1]) == JoinWith(xs, sep);
      }
    }
  }

  // ---------------------------------------------------------------------------
  // The decision part of `normalize_metadata`

  /** `re.search(r"\b" + re.escape(a) + r"\b", title, re.IGNORECASE)`: the
      artist occurs in the title as a whole word, ignoring case. */
  predicate InTitle(title: String, a: String)
  {
    WholeWordIn(Lower(title), Lower(a))
  }

  /** `[a for a in artists[1:] if a.lower() != primary.lower()]`. */
  function AdditionalArtists(rest: seq<String>, primary: String): (r: seq<String>)
    decreases |rest|
  {
    if rest == [] then []
    else
      var a := rest[|rest| - 1];
      AdditionalArtists(rest[..|rest| - 1], primary) + (if Lower(a) != Lower(primary) then [a] else [])
  }

  /** The additional artists not already named in the title. */
  function MissingFromTitle(additional: seq<String>, title: String): seq<String>
    decreases |additional|
  {
    if additional == [] then []
    else
      var a := additional[|additional| - 1];
      MissingFromTitle(additional[..|additional| - 1], title) + (if !InTitle(title, a) then [a] else [])
  }

  /** How the tags were read: unreadable (any error other than a missing
      header), or the first ARTIST and TITLE frames, each possibly absent. */
  datatype TagRead = Unreadable | Frames(artist: Option<String>, title: Option<String>)

  datatype Reason = NoReason | NoArtistTag | UpdateFailed | ReadError

  /** The result record of `normalize_metadata`. */
  datatype Outcome = Outcome(beforeArtist: String, afterArtist: String,
                             beforeTitle: String, afterTitle: String,
                             changed: bool, reason: Reason)

  /** The artists to append: those after the primary one, not equal to it
      ignoring case, and not already named in the title. */
  function ToAdd(artists: seq<String>, title: String): seq<String>
  {
    if artists == [] then [] else MissingFromTitle(AdditionalArtists(artists[1..], artists[0]), title)
  }

  /** The title `normalize_metadata` would write. */
  function NewTitle(title: String, toAdd: seq<String>): String
  {
    if toAdd != [] && !TitleHasFeat(title) then title + " " + FormatFeat(toAdd) else title
  }

  /** The outcome once the new values are known: a real run whose write
      fails reverts them. */
  function Update(beforeArtist: String, beforeTitle: String, afterArtist: String, afterTitle: String,
                  dryRun: bool, writeOk: bool): Outcome
  {
    var changed := afterArtist != beforeArtist || afterTitle != beforeTitle;
    if changed && !dryRun && !writeOk then
      Outcome(beforeArtist, beforeArtist, beforeTitle, beforeTitle, false, UpdateFailed)
    else Outcome(beforeArtist, afterArtist, beforeTitle, afterTitle, changed, NoReason)
  }

  /** The outcome for the ARTIST and TITLE values read. */
  function Decide(beforeArtist: String, beforeTitle: String, dryRun: bool, writeOk: bool): Outcome
  {
    var artists := Artists(beforeArtist);
    if artists == [] then Outcome(beforeArtist, [], beforeTitle, [], false, NoArtistTag)
    else Update(beforeArtist, beforeTitle, artists[0], NewTitle(beforeTitle, ToAdd(artists, beforeTitle)), dryRun, writeOk)
  }

  function FrameOr(frame: Option<String>, default: String): String
  {
    if frame.Some? then frame.value else default
  }

  /** The outcome of `normalize_metadata` for a file at `path` whose tags read
      as `tags`; a missing TITLE falls back to the file name's stem, and
      `writeOk` says whether saving the tags would succeed. */
  function Plan(tags: TagRead, path: String, dryRun: bool, writeOk: bool): Outcome
  {
    match tags
    case Unreadable => Outcome([], [], [], [], false, ReadError)
    case Frames(artistFrame, titleFrame) =>
      Decide(FrameOr(artistFrame, []), FrameOr(titleFrame, Paths.Stem(Paths.Basename(path))), dryRun, writeOk)
  }

  /** `normalize_metadata` on tags already read. `written` holds the ARTIST and
      TITLE values saved to the file, if any. */
  method NormalizeMetadata(tags: TagRead, path: String, dryRun: bool, writeOk: bool)
    returns (result: Outcome, written: Option<(String, String)>)
    ensures result == Plan(tags, path, dryRun, writeOk)
    ensures written.Some? <==> result.changed && !dryRun
    ensures written.Some? ==> written.value == (result.afterArtist, result.afterTitle)
  {
    if tags.Unreadable? {
      return Outcome([], [], [], [], false, ReadError), None;
    }
    var beforeArtist := FrameOr(tags.artist, []);
    var beforeTitle := FrameOr(tags.title, Paths.Stem(Paths.Basename(path)));
    var artists := SplitArtists(beforeArtist);
    if artists == [] {
      return Outcome(beforeArtist, [], beforeTitle, [], false, NoArtistTag), None;
    }
    var additional := AdditionalArtists(artists[1..], artists[0]);
    var toAdd := MissingArtists(additional, beforeTitle);
    var afterTitle := beforeTitle;
    if toAdd != [] && !TitleHasFeat(beforeTitle) {
      afterTitle := beforeTitle + " " + FormatFeat(toAdd);
    }
    assert afterTitle == NewTitle(beforeTitle, ToAdd(artists, beforeTitle));
    result, written := SaveTags(beforeArtist, beforeTitle, artists[0], afterTitle, dryRun, writeOk);
  }

  /** The loop collecting the additional artists the title does not name. */
  method MissingArtists(additional: seq<String>, title: String) returns (toAdd: seq<String>)
    ensures toAdd == MissingFromTitle(additional, title)
  {
    toAdd := [];
    var i := 0;
    while i < |additional|
      invariant i <= |additional|
      invariant toAdd == MissingFromTitle(additional[..i], title)
    {
      var a := additional[i];
      assert additional[..i + 1][..i] == additional[..i];
      if !InTitle(title, a) {
        toAdd := toAdd + [a];
      }
      i := i + 1;
    }
    assert additional[..i] == additional;
  }

  /** Saving the new values when they differ and the run is real; a failed
      save reverts the result to the old values. */
  method SaveTags(beforeArtist: String, beforeTitle: String, afterArtist: String, afterTitle: String,
                  dryRun: bool, writeOk: bool)
    returns (result: Outcome, written: Option<(String, String)>)
    ensures result == Update(beforeArtist, beforeTitle, afterArtist, afterTitle, dryRun, writeOk)
    ensures written.Some? <==> result.changed && !dryRun
    ensures written.Some? ==> written.value == (afterArtist, afterTitle)
  {
    var changed := afterArtist != beforeArtist || afterTitle != beforeTitle;
    result := Outcome(beforeArtist, afterArtist, beforeTitle, afterTitle, changed, NoReason);
    written := None;
    if changed && !dryRun {
      if writeOk {
        written := Some((afterArtist, afterTitle));
      } else {
        result := Outcome(beforeArtist, beforeArtist, beforeTitle, beforeTitle, false, UpdateFailed);
      }
    }
  }

  // ---------------------------------------------------------------------------
  // Properties of the plan

  /** Artists other than the primary one survive the primary filter unchanged,
      because split names are already distinct ignoring case. */
  lemma AdditionalOfDistinct(artists: seq<String>)
    requires artists != [] && NoCIDup(artists)
    ensures AdditionalArtists(artists[1..], artists[0]) == artists[1..]
  {
    AdditionalOfDistinctFrom(artists, |artists|);
    assert artists[1..|artists|] == artists[1..];
  }

  lemma {:induction false} AdditionalOfDistinctFrom(artists: seq<String>, n: nat)
    requires 1 <= n <= |artists| && NoCIDup(artists)
    ensures AdditionalArtists(artists[1..n], artists[0]) == artists[1..n]
    decreases n
  {
    if n > 1 {
      var rest, init, x := artists[1..n], artists[1..n - 1], artists[n - 1];
      assert rest[..|rest| - 1] == init && rest[|rest| - 1] == x;
      AdditionalOfDistinctFrom(artists, n - 1);
      assert Lower(x) != Lower(artists[0]);
      assert AdditionalArtists(rest, artists[0]) == AdditionalArtists(init, artists[0]) + [x];
      assert rest == init + [x];
    }
  }

  /** An artist is appended exactly when it is one of the given artists and
      the title does not already name it as a whole word. */
  lemma {:induction false} MissingFromTitleMembers(additional: seq<String>, title: String)
    ensures forall a :: a in MissingFromTitle(additional, title) <==> a in additional && !InTitle(title, a)
    ensures Subseq(MissingFromTitle(additional, title), additional)
    decreases |additional|
  {
    if additional != [] {
      var init := additional[..|additional| - 1];
      var a := additional[|additional| - 1];
      MissingFromTitleMembers(init, title);
      assert additional == init + [a];
      SubseqAppend(MissingFromTitle(init, title), init, a, !InTitle(title, a));
    }
  }

  /** The artists appended to the title are exactly the split names after the
      first that the title does not already name as whole words. */
  lemma ToAddMembers(raw: String, title: String)
    requires Artists(raw) != []
    ensures var artists := Artists(raw);
            forall a :: a in ToAdd(artists, title) <==> a in artists[1..] && !InTitle(title, a)
  {
    ArtistsShape(raw);
    AdditionalOfDistinct(Artists(raw));
    MissingFromTitleMembers(Artists(raw)[1..], title);
  }

  /** Why a file is left alone: its tags cannot be read, or its ARTIST splits
      to nothing, or a real run failed to write; in all three cases nothing
      counts as changed, and after a failed write the values are the old ones. */
  lemma PlanReasons(tags: TagRead, path: String, dryRun: bool, writeOk: bool)
    ensures var o := Plan(tags, path, dryRun, writeOk);
            && (o.reason == ReadError <==> tags.Unreadable?)
            && (o.reason == NoArtistTag <==> tags.Frames? && Artists(o.beforeArtist) == [])
            && (o.reason == UpdateFailed ==> !dryRun && !writeOk)
            && (o.reason != NoReason ==> !o.changed)
            && (o.reason == UpdateFailed ==> o.afterArtist == o.beforeArtist && o.afterTitle == o.beforeTitle)
  {
    if tags.Frames? {
      var beforeArtist := FrameOr(tags.artist, []);
      var beforeTitle := FrameOr(tags.title, Paths.Stem(Paths.Basename(path)));
      var artists := Artists(beforeArtist);
      if artists != [] {
        var afterTitle := NewTitle(beforeTitle, ToAdd(artists, beforeTitle));
        UpdateReasons(beforeArtist, beforeTitle, artists[0], afterTitle, dryRun, writeOk);
      }
    }
  }

  lemma UpdateReasons(beforeArtist: String, beforeTitle: String, afterArtist: String, afterTitle: String,
                      dryRun: bool, writeOk: bool)
    ensures var o := Update(beforeArtist, beforeTitle, afterArtist, afterTitle, dryRun, writeOk);
            && o.beforeArtist == beforeArtist && o.beforeTitle == beforeTitle
            && (o.reason == NoReason || o.reason == UpdateFailed)
            && (o.reason == UpdateFailed ==> !dryRun && !writeOk && !o.changed
                                              && o.afterArtist == beforeArtist && o.afterTitle == beforeTitle)
  {
  }

  /** On success the new ARTIST is the first split name, the new TITLE is the
      old one, or the old one with " (feat. ...)" of the missing artists
      appended exactly when some are missing and it has no feat tag yet, and
      `changed` says whether either value differs. */
  lemma PlanSuccess(tags: TagRead, path: String, dryRun: bool, writeOk: bool)
    requires Plan(tags, path, dryRun, writeOk).reason == NoReason
    ensures var o := Plan(tags, path, dryRun, writeOk);
            var artists := Artists(o.beforeArtist);
            var toAdd := ToAdd(artists, o.beforeTitle);
            && artists != []
            && o.afterArtist == artists[0]
            && (o.afterTitle == o.beforeTitle || o.afterTitle == o.beforeTitle + " " + FormatFeat(toAdd))
            && (o.afterTitle != o.beforeTitle <==> toAdd != [] && !TitleHasFeat(o.beforeTitle))
            && (o.changed <==> o.afterArtist != o.beforeArtist || o.afterTitle != o.beforeTitle)
  {
    if tags.Frames? {
      var beforeArtist := FrameOr(tags.artist, []);
      var beforeTitle := FrameOr(tags.title, Paths.Stem(Paths.Basename(path)));
      var artists := Artists(beforeArtist);
      assert Plan(tags, path, dryRun, writeOk) == Decide(beforeArtist, beforeTitle, dryRun, writeOk);
      if artists != [] {
        var toAdd := ToAdd(artists, beforeTitle);
        var afterTitle := NewTitle(beforeTitle, toAdd);
        assert Decide(beforeArtist, beforeTitle, dryRun, writeOk)
            == Update(beforeArtist, beforeTitle, artists[0], afterTitle, dryRun, writeOk);
        UpdateSuccess(beforeArtist, beforeTitle, artists[0], afterTitle, dryRun, writeOk);
        NewTitleChanges(beforeTitle, toAdd);
      }
    }
  }

  lemma UpdateSuccess(beforeArtist: String, beforeTitle: String, afterArtist: String, afterTitle: String,
                      dryRun: bool, writeOk: bool)
    requires Update(beforeArtist, beforeTitle, afterArtist, afterTitle, dryRun, writeOk).reason == NoReason
    ensures Update(beforeArtist, beforeTitle, afterArtist, afterTitle, dryRun, writeOk)
         == Outcome(beforeArtist, afterArtist, beforeTitle, afterTitle,
                    afterArtist != beforeArtist || afterTitle != beforeTitle, NoReason)
  {
  }

  /** The title changes exactly when a feat tag is appended. */
  lemma NewTitleChanges(title: String, toAdd: seq<String>)
    ensures NewTitle(title, toAdd) == title || NewTitle(title, toAdd) == title + " " + FormatFeat(toAdd)
    ensures NewTitle(title, toAdd) != title <==> toAdd != [] && !TitleHasFeat(title)
  {
    if toAdd != [] && !TitleHasFeat(title) {
      assert |NewTitle(title, toAdd)| > |title|;
    }
  }

  /** A title that already has a feat tag is never extended. */
  lemma PlanKeepsFeatTitle(tags: TagRead, path: String, dryRun: bool, writeOk: bool)
    requires tags.Frames? && tags.title.Some? && TitleHasFeat(tags.title.value)
    requires Plan(tags, path, dryRun, writeOk).reason == NoReason
    ensures Plan(tags, path, dryRun, writeOk).afterTitle == tags.title.value
  {
  }

  /** Whenever a feat tag is appended the new title has one, so a second run
      over the written tags leaves the title alone. */
  lemma PlanAppendedTitleHasFeat(tags: TagRead, path: String, dryRun: bool, writeOk: bool)
    requires var o := Plan(tags, path, dryRun, writeOk); o.reason == NoReason && o.afterTitle != o.beforeTitle
    ensures TitleHasFeat(Plan(tags, path, dryRun, writeOk).afterTitle)
  {
    var o := Plan(tags, path, dryRun, writeOk);
    PlanSuccess(tags, path, dryRun, writeOk);
    FormatFeatHasFeat(o.beforeTitle, ToAdd(Artists(o.beforeArtist), o.beforeTitle));
  }
}
