/** Strings as sequences of characters, with the ASCII reading of Python's
    `str.lower`, `str.strip`, `str.split`, the regex classes `\s`, `\w`, `\b`,
    and the text operations the archive scripts share. */
module Text {

  type String = seq<char>

  datatype Option<T> = None | Some(value: T)

  // ---------------------------------------------------------------------------
  // Character classes (ASCII narrowing of Python's Unicode classes)

  predicate IsUpperLetter(c: char) { 'A' <= c <= 'Z' }
  predicate IsLowerLetter(c: char) { 'a' <= c <= 'z' }
  predicate IsDigit(c: char) { '0' <= c <= '9' }
  predicate IsLetter(c: char) { IsUpperLetter(c) || IsLowerLetter(c) }

  /** `\w`: letters, digits and underscore. */
  predicate IsWordChar(c: char) { IsLetter(c) || IsDigit(c) || c == '_' }

  /** `\s` and `str.isspace` on ASCII: \t \n \v \f \r, \x1c-\x1f and the space. */
  predicate IsSpace(c: char) { 9 <= c as int <= 13 || 28 <= c as int <= 32 }

  function LowerChar(c: char): char
  {
    if IsUpperLetter(c) then (c as int + 32) as char else c
  }

  function UpperChar(c: char): char
  {
    if IsLowerLetter(c) then (c as int - 32) as char else c
  }

  function Lower(s: String): (r: String)
    ensures |r| == |s|
    ensures forall i :: 0 <= i < |s| ==> r[i] == LowerChar(s[i])
  {
    seq(|s|, i requires 0 <= i < |s| => LowerChar(s[i]))
  }

  predicate IsLowercase(s: String)
  {
    forall i :: 0 <= i < |s| ==> !IsUpperLetter(s[i])
  }

  lemma LowerIsLowercase(s: String)
    ensures IsLowercase(Lower(s))
    ensures Lower(Lower(s)) == Lower(s)
  {
  }

  lemma LowercaseFixed(s: String)
    requires IsLowercase(s)
    ensures Lower(s) == s
  {
  }

  lemma LowerAppend(a: String, b: String)
    ensures Lower(a + b) == Lower(a) + Lower(b)
  {
  }

  lemma LowerSlice(s: String, i: nat, j: nat)
    requires i <= j <= |s|
    ensures Lower(s[i..j]) == Lower(s)[i..j]
  {
  }

  // ---------------------------------------------------------------------------
  // Whitespace: strip, collapse, split

  predicate AllSpace(s: String)
  {
    forall i :: 0 <= i < |s| ==> IsSpace(s[i])
  }

  predicate NoSpace(s: String)
  {
    forall i :: 0 <= i < |s| ==> !IsSpace(s[i])
  }

  /** `str.lstrip()`. */
  function LStrip(s: String): (r: String)
    ensures |r| <= |s| && r == s[|s| - |r|..]
    ensures AllSpace(s[..|s| - |r|])
    ensures r == [] || !IsSpace(r[0])
    ensures s != [] && IsSpace(s[0]) ==> |r| < |s|
    decreases |s|
  {
    if s != [] && IsSpace(s[0]) then LStrip(s[1..]) else s
  }

  /** `str.rstrip()`. */
  function RStrip(s: String): (r: String)
    ensures |r| <= |s| && r == s[..|r|]
    ensures AllSpace(s[|r|..])
    ensures r == [] || !IsSpace(r[|r| - 1])
    decreases |s|
  {
    if s != [] && IsSpace(s[|s| - 1]) then
      var r := RStrip(s[..|s| - 1]);
      assert forall k :: |r| <= k < |s| - 1 ==> s[k] == s[..|s| - 1][k];
      r
    else s
  }

  /** `str.strip()`. */
  function Strip(s: String): (r: String)
    ensures |r| <= |s|
    ensures r == [] || (!IsSpace(r[0]) && !IsSpace(r[|r| - 1]))
  {
    RStrip(LStrip(s))
  }

  /** The stripped string is a slice of the input. */
  lemma StripSlice(s: String) returns (i: nat)
    ensures i + |Strip(s)| <= |s| && Strip(s) == s[i..i + |Strip(s)|]
  {
    var l := LStrip(s);
    var r := RStrip(l);
    i := |s| - |l|;
    SliceOfSuffix(s, l, i, |r|);
  }

  lemma SliceOfSuffix(s: String, l: String, i: nat, n: nat)
    requires i <= |s| && l == s[i..] && n <= |l|
    ensures s[i..i + n] == l[..n]
  {
  }

  lemma StripNoEdges(s: String)
    requires s == [] || (!IsSpace(s[0]) && !IsSpace(s[|s| - 1]))
    ensures Strip(s) == s
  {
  }

  lemma LStripAllSpace(s: String)
    requires AllSpace(s)
    ensures LStrip(s) == []
    decreases |s|
  {
    if s != [] {
      LStripAllSpace(s[1..]);
    }
  }

  lemma StripAllSpace(s: String)
    requires AllSpace(s)
    ensures Strip(s) == []
  {
    LStripAllSpace(s);
  }

  lemma StripLower(s: String)
    ensures Strip(Lower(s)) == Lower(Strip(s))
  {
    LStripLower(s);
    RStripLower(LStrip(s));
  }

  lemma LStripLower(s: String)
    ensures LStrip(Lower(s)) == Lower(LStrip(s))
    decreases |s|
  {
    var l := Lower(s);
    if s != [] {
      assert l[0] == LowerChar(s[0]);
      if IsSpace(s[0]) {
        assert IsSpace(l[0]);
        assert l[1..] == Lower(s[1..]);
        LStripLower(s[1..]);
      } else {
        assert !IsSpace(l[0]);
        assert LStrip(l) == l;
      }
    }
  }

  lemma RStripLower(s: String)
    ensures RStrip(Lower(s)) == Lower(RStrip(s))
    decreases |s|
  {
    var l := Lower(s);
    if s != [] {
      var n := |s| - 1;
      assert l[n] == LowerChar(s[n]);
      if IsSpace(s[n]) {
        assert IsSpace(l[n]);
        assert RStrip(l) == RStrip(l[..n]);
        assert RStrip(s) == RStrip(s[..n]);
        LowerSlice(s, 0, n);
        assert s[0..n] == s[..n] && l[0..n] == l[..n];
        RStripLower(s[..n]);
      } else {
        assert !IsSpace(l[n]);
        assert RStrip(l) == l;
      }
    }
  }

  /** Every whitespace character is a plain space and no two are adjacent. */
  predicate SingleSpaced(s: String)
  {
    && (forall i :: 0 <= i < |s| && IsSpace(s[i]) ==> s[i] == ' ')
    && (forall i :: 0 < i < |s| ==> SpacedAt(s, i))
  }

  /** No whitespace at i right after whitespace. */
  predicate SpacedAt(s: String, i: nat)
    requires 0 < i < |s|
  {
    IsSpace(s[i]) ==> !IsSpace(s[i - 1])
  }

  /** The whitespace shape of a canonical label: single spaces, trimmed ends. */
  predicate Tidy(s: String)
  {
    SingleSpaced(s) && (s == [] || (!IsSpace(s[0]) && !IsSpace(s[|s| - 1])))
  }

  /** An upper-case letter never directly follows a word character. */
  predicate NoUpperAfterWord(s: String)
  {
    forall i :: 0 < i < |s| ==> StartCasedAt(s, i)
  }

  /** An upper-case letter at i does not follow a word character. */
  predicate StartCasedAt(s: String, i: nat)
    requires 0 < i < |s|
  {
    IsUpperLetter(s[i]) ==> !IsWordChar(s[i - 1])
  }

  lemma SliceKeepsShape(s: String, i: nat, j: nat, t: String)
    requires i <= j <= |s| && t == s[i..j]
    ensures SingleSpaced(s) ==> SingleSpaced(t)
    ensures NoUpperAfterWord(s) ==> NoUpperAfterWord(t)
  {
    if SingleSpaced(s) {
      forall k | 0 < k < |t| ensures SpacedAt(t, k) {
        assert SpacedAt(s, i + k);
        assert t[k] == s[i + k] && t[k - 1] == s[i + k - 1];
      }
    }
    if NoUpperAfterWord(s) {
      forall k | 0 < k < |t| ensures StartCasedAt(t, k) {
        assert StartCasedAt(s, i + k);
        assert t[k] == s[i + k] && t[k - 1] == s[i + k - 1];
      }
    }
  }

  lemma StripKeepsShape(s: String)
    ensures SingleSpaced(s) ==> Tidy(Strip(s))
    ensures NoUpperAfterWord(s) ==> NoUpperAfterWord(Strip(s))
  {
    var t := Strip(s);
    var i := StripSlice(s);
    SliceKeepsShape(s, i, i + |t|, t);
  }

  /** `re.sub(r"\s+", " ", s)`: every maximal run of whitespace becomes one space. */
  function Collapse(s: String): (r: String)
    ensures |r| <= |s|
    ensures s != [] ==> r != [] && r[0] == (if IsSpace(s[0]) then ' ' else s[0])
    decreases |s|
  {
    if s == [] then []
    else if IsSpace(s[0]) then [' '] + Collapse(LStrip(s))
    else [s[0]] + Collapse(s[1..])
  }

  /** Collapsing leaves single spaces only. */
  lemma {:induction false} CollapseSingleSpacedResult(s: String)
    ensures SingleSpaced(Collapse(s))
    decreases |s|
  {
    if s != [] {
      var t := if IsSpace(s[0]) then LStrip(s) else s[1..];
      CollapseSingleSpacedResult(t);
      var x := if IsSpace(s[0]) then ' ' else s[0];
      assert Collapse(s) == [x] + Collapse(t);
      ConsSingleSpaced(x, Collapse(t));
    }
  }

  lemma ConsSingleSpaced(x: char, c: String)
    requires SingleSpaced(c)
    requires IsSpace(x) ==> x == ' ' && (c == [] || !IsSpace(c[0]))
    ensures SingleSpaced([x] + c)
  {
    var r := [x] + c;
    forall i | 0 < i < |r| ensures (IsSpace(r[i]) ==> r[i] == ' ') && SpacedAt(r, i) {
      assert r[i] == c[i - 1];
      if i > 1 {
        assert SpacedAt(c, i - 1);
        assert r[i - 1] == c[i - 2];
      }
    }
  }

  /** Collapsing never puts a capital after a word character. */
  lemma {:induction false} CollapseNoUpperAfterWord(s: String)
    requires NoUpperAfterWord(s)
    ensures NoUpperAfterWord(Collapse(s))
    decreases |s|
  {
    if s != [] {
      var r := Collapse(s);
      if IsSpace(s[0]) {
        var t := LStrip(s);
        SliceKeepsShape(s, |s| - |t|, |s|, t);
        CollapseNoUpperAfterWord(t);
        NoUpperAfterCons(' ', Collapse(t));
      } else {
        var t := s[1..];
        SliceKeepsShape(s, 1, |s|, t);
        CollapseNoUpperAfterWord(t);
        if t != [] && IsUpperLetter(Collapse(t)[0]) {
          assert Collapse(t)[0] == s[1];
          assert StartCasedAt(s, 1);
        }
        NoUpperAfterCons(s[0], Collapse(t));
      }
    }
  }

  lemma NoUpperAfterCons(c: char, t: String)
    requires NoUpperAfterWord(t)
    requires t != [] && IsUpperLetter(t[0]) ==> !IsWordChar(c)
    ensures NoUpperAfterWord([c] + t)
  {
    var r := [c] + t;
    forall i | 0 < i < |r| ensures StartCasedAt(r, i) {
      assert r[i] == t[i - 1];
      if i > 1 {
        assert StartCasedAt(t, i - 1);
        assert r[i - 1] == t[i - 2];
      }
    }
  }

  lemma {:induction false} CollapseSingleSpaced(s: String)
    requires SingleSpaced(s)
    ensures Collapse(s) == s
    decreases |s|
  {
    if s != [] {
      var t := s[1..];
      SliceKeepsShape(s, 1, |s|, t);
      SpacedHead(s, t);
      CollapseSingleSpaced(t);
      CollapseCons(s, t);
      ConsTail(s, t);
    }
  }

  lemma ConsTail(s: String, t: String)
    requires s != [] && t == s[1..]
    ensures [s[0]] + t == s
  {
  }

  /** A leading space of a single-spaced string is ' ' and is followed by no space. */
  lemma SpacedHead(s: String, t: String)
    requires SingleSpaced(s) && s != [] && t == s[1..]
    ensures IsSpace(s[0]) ==> s[0] == ' ' && (t == [] || !IsSpace(t[0]))
  {
    if t != [] {
      assert SpacedAt(s, 1) && t[0] == s[1];
    }
  }

  /** Collapsing a string whose first character is kept or is a lone space. */
  lemma CollapseCons(s: String, t: String)
    requires s != [] && t == s[1..]
    requires IsSpace(s[0]) ==> s[0] == ' ' && (t == [] || !IsSpace(t[0]))
    ensures Collapse(s) == [s[0]] + Collapse(t)
  {
    if IsSpace(s[0]) {
      assert LStrip(s) == LStrip(t);
    }
  }

  lemma {:induction false} CollapseLower(s: String)
    ensures Collapse(Lower(s)) == Lower(Collapse(s))
    decreases |s|
  {
    if s != [] {
      var ls := Lower(s);
      assert ls[0] == LowerChar(s[0]);
      if IsSpace(s[0]) {
        var t := LStrip(s);
        LStripLower(s);
        CollapseLower(t);
        LowerAppend([' '], Collapse(t));
        assert Lower([' ']) == [' '];
        assert Collapse(ls) == [' '] + Collapse(Lower(t));
      } else {
        var t := s[1..];
        assert ls[1..] == Lower(t);
        CollapseLower(t);
        LowerAppend([s[0]], Collapse(t));
        assert Lower([s[0]]) == [ls[0]];
        assert Collapse(ls) == [ls[0]] + Collapse(Lower(t));
      }
    }
  }

  /** End of the run of non-space characters that starts at `i`. */
  function WordEnd(s: String, i: nat): (n: nat)
    requires i <= |s|
    ensures i <= n <= |s|
    ensures forall k :: i <= k < n ==> !IsSpace(s[k])
    ensures n == |s| || IsSpace(s[n])
    decreases |s| - i
  {
    if i < |s| && !IsSpace(s[i]) then WordEnd(s, i + 1) else i
  }

  /** `s.split()`: the maximal runs of non-whitespace characters, in order. */
  function Words(s: String): (ws: seq<String>)
    ensures forall k :: 0 <= k < |ws| ==> ws[k] != [] && NoSpace(ws[k])
    decreases |s|
  {
    if s == [] then []
    else if IsSpace(s[0]) then Words(s[1..])
    else
      var n := WordEnd(s, 0);
      [s[..n]] + Words(s[n..])
  }

  lemma WordsOfSingleWord(s: String)
    requires s != [] && NoSpace(s)
    ensures Words(s) == [s]
  {
    WordEndRun(s, 0, |s|);
    assert s[..|s|] == s;
    assert s[|s|..] == [];
  }

  lemma WordsOfTwoWords(a: String, b: String)
    requires a != [] && NoSpace(a) && b != [] && NoSpace(b)
    ensures Words(a + " " + b) == [a, b]
  {
    var s := a + " " + b;
    assert WordEnd(s, 0) == |a| by {
      WordEndRun(s, 0, |a|);
    }
    assert s[..|a|] == a;
    assert s[|a|..] == " " + b;
    assert (" " + b)[0] == ' ';
    assert (" " + b)[1..] == b;
    WordsOfSingleWord(b);
    assert Words(" " + b) == Words(b);
  }

  lemma WordEndRun(s: String, i: nat, n: nat)
    requires i <= n <= |s|
    requires forall k :: i <= k < n ==> !IsSpace(s[k])
    requires n == |s| || IsSpace(s[n])
    ensures WordEnd(s, i) == n
    decreases n - i
  {
    if i < n {
      WordEndRun(s, i + 1, n);
    }
  }

  // ---------------------------------------------------------------------------
  // `re.sub(r"\b([a-z])([a-z0-9'&]*)\b", upper-first, s)`

  /** Characters the word tail `[a-z0-9'&]` accepts. */
  predicate InWordTail(c: char) { IsLowerLetter(c) || IsDigit(c) || c == '\'' || c == '&' }

  predicate WordCharAt(s: String, k: int) { 0 <= k < |s| && IsWordChar(s[k]) }

  /** `\b` at position k: a word character on exactly one side. */
  predicate BoundaryAt(s: String, k: int) { WordCharAt(s, k - 1) != WordCharAt(s, k) }

  function TailEnd(s: String, i: nat): (m: nat)
    requires i <= |s|
    ensures i <= m <= |s|
    ensures forall k :: i <= k < m ==> InWordTail(s[k])
    ensures m == |s| || !InWordTail(s[m])
    decreases |s| - i
  {
    if i < |s| && InWordTail(s[i]) then TailEnd(s, i + 1) else i
  }

  /** The largest boundary in [lo, k]: the greedy tail backing off to a `\b`. */
  function LastBoundary(s: String, lo: nat, k: nat): (r: Option<nat>)
    requires lo <= k <= |s|
    ensures r.Some? ==> lo <= r.value <= k && BoundaryAt(s, r.value)
                        && forall y :: r.value < y <= k ==> !BoundaryAt(s, y)
    ensures r.None? ==> forall y :: lo <= y <= k ==> !BoundaryAt(s, y)
    decreases k - lo
  {
    if BoundaryAt(s, k) then Some(k)
    else if k == lo then None
    else LastBoundary(s, lo, k - 1)
  }

  /** End of the match of the word pattern at p, if it matches there. */
  function WordMatchEnd(s: String, p: nat): (r: Option<nat>)
    requires p <= |s|
    ensures r.Some? ==> p < r.value <= |s|
  {
    if p < |s| && IsLowerLetter(s[p]) && BoundaryAt(s, p) then
      LastBoundary(s, p + 1, TailEnd(s, p + 1))
    else None
  }

  /** Where the scan goes after p: past the match there, or one character on. */
  function NextScan(s: String, p: nat): (k: nat)
    requires p < |s|
    ensures p < k <= |s|
  {
    var m := WordMatchEnd(s, p);
    if m.Some? then m.value else p + 1
  }

  /** What the scan emits at p before moving on to `NextScan(s, p)`. */
  function ScanPiece(s: String, p: nat): String
    requires p < |s|
  {
    var m := WordMatchEnd(s, p);
    if m.Some? then [UpperChar(s[p])] + s[p + 1..m.value] else [s[p]]
  }

  /** The substitution, scanning from p: a match upper-cases its first letter
      and the scan resumes after it; otherwise one character is copied. */
  function Capitalize(s: String, p: nat): (r: String)
    requires p <= |s|
    ensures |r| == |s| - p
    decreases |s| - p
  {
    if p == |s| then [] else ScanPiece(s, p) + Capitalize(s, NextScan(s, p))
  }

  /** Every character of the result is the input's, or a lower-case letter
      after a non-word character, upper-cased. */
  lemma {:induction false} CapitalizeCased(s: String, p: nat)
    requires p <= |s|
    ensures forall i :: 0 <= i < |s| - p ==> CasedAt(s, p, Capitalize(s, p), i)
    decreases |s| - p
  {
    if p < |s| {
      match WordMatchEnd(s, p)
      case Some(k) =>
        var h := [UpperChar(s[p])] + s[p + 1..k];
        assert CasedAt(s, p, h, 0);
        assert forall i :: 0 < i < |h| ==> h[i] == s[p + i];
        CapitalizeCased(s, k);
        CasedConcat(s, p, h, k, Capitalize(s, k));
      case None =>
        assert CasedAt(s, p, [s[p]], 0);
        CapitalizeCased(s, p + 1);
        CasedConcat(s, p, [s[p]], p + 1, Capitalize(s, p + 1));
    }
  }

  lemma CasedConcat(s: String, p: nat, h: String, q: nat, rest: String)
    requires q == p + |h| <= |s|
    requires forall i :: 0 <= i < |h| ==> CasedAt(s, p, h, i)
    requires forall i :: 0 <= i < |rest| ==> CasedAt(s, q, rest, i)
    ensures forall i :: 0 <= i < |h + rest| ==> CasedAt(s, p, h + rest, i)
  {
    forall i | 0 <= i < |h + rest| ensures CasedAt(s, p, h + rest, i) {
      if i < |h| {
        assert CasedAt(s, p, h, i);
      } else {
        assert CasedAt(s, q, rest, i - |h|);
      }
    }
  }

  /** Position i of r, read against position q + i of s: the character is kept,
      or it is a lower-case letter upper-cased after a non-word character. */
  predicate CasedAt(s: String, q: nat, r: String, i: nat)
  {
    && i < |r| && q + i < |s|
    && (r[i] == s[q + i]
        || (IsLowerLetter(s[q + i]) && r[i] == UpperChar(s[q + i]) && !WordCharAt(s, q + i - 1)))
  }

  /** Once the scan reaches p and the pattern matches there, the letter at p is capitalised. */
  lemma CapitalizeReaches(s: String, q: nat, p: nat)
    requires q <= p < |s|
    requires WordMatchEnd(s, p).Some?
    requires forall x :: q <= x < p && WordMatchEnd(s, x).Some? ==> WordMatchEnd(s, x).value <= p
    ensures Capitalize(s, q)[p - q] == UpperChar(s[p])
    decreases p - q
  {
    if q == p {
      CapitalizeHere(s, p);
    } else {
      match WordMatchEnd(s, q)
      case Some(k) =>
        if k < p {
          CapitalizeReaches(s, k, p);
          CapitalizeShift(s, q, k, p);
        } else {
          CapitalizeHere(s, p);
          CapitalizeShift(s, q, k, p);
        }
      case None =>
        CapitalizeReaches(s, q + 1, p);
        CapitalizeShift(s, q, q + 1, p);
    }
  }

  lemma CapitalizeHere(s: String, p: nat)
    requires p < |s| && WordMatchEnd(s, p).Some?
    ensures Capitalize(s, p)[0] == UpperChar(s[p])
  {
  }

  /** The scan from q reaches k, after the match at q or the character at q. */
  lemma CapitalizeShift(s: String, q: nat, k: nat, j: nat)
    requires q < k <= j < |s|
    requires WordMatchEnd(s, q) == Some(k) || (WordMatchEnd(s, q).None? && k == q + 1)
    ensures Capitalize(s, q)[j - q] == Capitalize(s, k)[j - k]
  {
    CapitalizeStep(s, q);
    assert NextScan(s, q) == k && |ScanPiece(s, q)| == k - q;
  }

  /** A letter at the start of the string or right after a space, where the word
      pattern matches, comes out upper-cased. */
  lemma CapitalizeWordStart(s: String, p: nat)
    requires p < |s| && (p == 0 || s[p - 1] == ' ')
    requires WordMatchEnd(s, p).Some?
    ensures Capitalize(s, 0)[p] == UpperChar(s[p])
  {
    forall x | 0 <= x < p && WordMatchEnd(s, x).Some?
      ensures WordMatchEnd(s, x).value <= p
    {
      MatchStopsAtSpace(s, x, p);
    }
    CapitalizeReaches(s, 0, p);
  }

  /** A match never runs past a space. */
  lemma MatchStopsAtSpace(s: String, x: nat, p: nat)
    requires x < p <= |s| && s[p - 1] == ' ' && WordMatchEnd(s, x).Some?
    ensures WordMatchEnd(s, x).value <= p
  {
    var m := TailEnd(s, x + 1);
    assert !InWordTail(s[p - 1]);
    assert m <= p - 1;
  }

  /** On a lower-case string the substitution only changes case: a character is
      kept, or it is a letter upper-cased after a non-word character. */
  lemma CapitalizeShape(s: String)
    requires IsLowercase(s)
    ensures Lower(Capitalize(s, 0)) == s
    ensures NoUpperAfterWord(Capitalize(s, 0))
    ensures SingleSpaced(s) ==> SingleSpaced(Capitalize(s, 0))
    ensures forall i :: 0 <= i < |s| ==> (IsSpace(Capitalize(s, 0)[i]) <==> IsSpace(s[i]))
  {
    var r := Capitalize(s, 0);
    CapitalizeLower(s, r);
    CapitalizeNoUpperAfterWord(s, r);
    CapitalizeSpaces(s, r);
  }

  lemma CapitalizeLower(s: String, r: String)
    requires IsLowercase(s) && r == Capitalize(s, 0)
    ensures Lower(r) == s
  {
    CapitalizeCased(s, 0);
    forall i | 0 <= i < |s| ensures Lower(r)[i] == s[i] {
      assert CasedAt(s, 0, r, i);
    }
  }

  lemma CapitalizeNoUpperAfterWord(s: String, r: String)
    requires IsLowercase(s) && r == Capitalize(s, 0)
    ensures NoUpperAfterWord(r)
  {
    CapitalizeCased(s, 0);
    forall i | 0 < i < |r| ensures StartCasedAt(r, i) {
      assert CasedAt(s, 0, r, i) && CasedAt(s, 0, r, i - 1);
      if IsUpperLetter(r[i]) {
        assert r[i] != s[i];
        assert !WordCharAt(s, i - 1);
      }
    }
  }

  lemma CapitalizeSpaces(s: String, r: String)
    requires IsLowercase(s) && r == Capitalize(s, 0)
    ensures forall i :: 0 <= i < |s| ==> (IsSpace(r[i]) <==> IsSpace(s[i]))
    ensures forall i :: 0 <= i < |s| && IsSpace(r[i]) ==> r[i] == s[i]
    ensures SingleSpaced(s) ==> SingleSpaced(r)
  {
    CapitalizeCased(s, 0);
    forall i | 0 <= i < |s| ensures (IsSpace(r[i]) <==> IsSpace(s[i])) && (IsSpace(r[i]) ==> r[i] == s[i]) {
      assert CasedAt(s, 0, r, i);
    }
    if SingleSpaced(s) {
      forall i | 0 < i < |r| ensures SpacedAt(r, i) {
        assert SpacedAt(s, i);
        assert (IsSpace(r[i]) <==> IsSpace(s[i])) && (IsSpace(r[i - 1]) <==> IsSpace(s[i - 1]));
      }
    }
  }

  // ---------------------------------------------------------------------------
  // Locality: the substitution never looks across whitespace

  lemma CapitalizeStep(s: String, p: nat)
    requires p < |s|
    ensures Capitalize(s, p) == ScanPiece(s, p) + Capitalize(s, NextScan(s, p))
  {
  }

  /** Text that opens with whitespace leaves the boundaries inside `a` alone. */
  lemma BoundaryBeforeSpace(a: String, b: String, y: int)
    requires b != [] && IsSpace(b[0]) && y <= |a|
    ensures BoundaryAt(a + b, y) == BoundaryAt(a, y)
  {
    if 0 <= y == |a| {
      assert (a + b)[y] == b[0];
    }
  }

  lemma {:induction false} TailEndBeforeSpace(a: String, b: String, i: nat)
    requires b != [] && IsSpace(b[0]) && i <= |a|
    ensures TailEnd(a + b, i) == TailEnd(a, i)
    decreases |a| - i
  {
    if i < |a| {
      assert (a + b)[i] == a[i];
      TailEndBeforeSpace(a, b, i + 1);
    } else {
      assert (a + b)[i] == b[0];
    }
  }

  lemma {:induction false} LastBoundaryBeforeSpace(a: String, b: String, lo: nat, k: nat)
    requires b != [] && IsSpace(b[0]) && lo <= k <= |a|
    ensures LastBoundary(a + b, lo, k) == LastBoundary(a, lo, k)
    decreases k - lo
  {
    BoundaryBeforeSpace(a, b, k);
    if k > lo {
      LastBoundaryBeforeSpace(a, b, lo, k - 1);
    }
  }

  lemma MatchBeforeSpace(a: String, b: String, p: nat)
    requires b != [] && IsSpace(b[0]) && p < |a|
    ensures WordMatchEnd(a + b, p) == WordMatchEnd(a, p)
  {
    BoundaryBeforeSpace(a, b, p);
    assert (a + b)[p] == a[p];
    TailEndBeforeSpace(a, b, p + 1);
    LastBoundaryBeforeSpace(a, b, p + 1, TailEnd(a, p + 1));
  }

  lemma StepBeforeSpace(a: String, b: String, p: nat)
    requires b != [] && IsSpace(b[0]) && p < |a|
    ensures NextScan(a + b, p) == NextScan(a, p)
    ensures ScanPiece(a + b, p) == ScanPiece(a, p)
  {
    MatchBeforeSpace(a, b, p);
    assert (a + b)[p] == a[p];
    if WordMatchEnd(a, p).Some? {
      var k := WordMatchEnd(a, p).value;
      assert (a + b)[p + 1..k] == a[p + 1..k];
    }
  }

  /** The scan of `a + b` runs through `a` as the scan of `a` does. */
  lemma CapitalizeBeforeSpace(a: String, b: String, p: nat)
    requires b != [] && IsSpace(b[0]) && p <= |a|
    ensures Capitalize(a + b, p) == Capitalize(a, p) + Capitalize(a + b, |a|)
  {
    forall x | p <= x < |a|
      ensures NextScan(a + b, x) == NextScan(a, x)
      ensures ScanPiece(a + b, x) == ScanPiece(a, x)
    {
      StepBeforeSpace(a, b, x);
    }
    CapitalizeOfPrefix(a + b, a, p);
  }

  /** The scan of s from p runs as that of t up to the end of t when, from
      p on, every step of t is a step of s. */
  lemma {:induction false} CapitalizeOfPrefix(s: String, t: String, p: nat)
    requires |t| <= |s| && p <= |t|
    requires forall x :: p <= x < |t| ==> NextScan(s, x) == NextScan(t, x) && ScanPiece(s, x) == ScanPiece(t, x)
    ensures Capitalize(s, p) == Capitalize(t, p) + Capitalize(s, |t|)
    decreases |t| - p
  {
    if p < |t| {
      CapitalizeOfPrefix(s, t, NextScan(t, p));
    }
  }

  /** t is the text of s from position d on. */
  predicate SuffixAt(s: String, t: String, d: nat)
  {
    |s| == d + |t| && forall i :: 0 <= i < |t| ==> t[i] == s[d + i]
  }

  /** Scanning s from d + q looks back no further than d, or than a
      non-word character just before d. */
  predicate LooksOnlyFrom(s: String, d: nat, q: nat)
    requires d <= |s|
  {
    q > 0 || d == 0 || !IsWordChar(s[d - 1])
  }

  lemma BoundaryFrom(s: String, t: String, d: nat, y: nat)
    requires SuffixAt(s, t, d) && y <= |t| && LooksOnlyFrom(s, d, y)
    ensures BoundaryAt(s, d + y) == BoundaryAt(t, y)
  {
    if y < |t| {
      assert t[y] == s[d + y];
    }
    if y > 0 {
      assert t[y - 1] == s[d + y - 1];
    }
  }

  lemma {:induction false} TailEndFrom(s: String, t: String, d: nat, i: nat)
    requires SuffixAt(s, t, d) && i <= |t|
    ensures TailEnd(s, d + i) == d + TailEnd(t, i)
    decreases |t| - i
  {
    if i < |t| {
      assert t[i] == s[d + i];
      TailEndFrom(s, t, d, i + 1);
    }
  }

  /** An optional position moved right by d. */
  function ShiftBy(r: Option<nat>, d: nat): (o: Option<nat>)
    ensures o.Some? <==> r.Some?
    ensures o.Some? ==> o.value == r.value + d
  {
    if r.Some? then Some(r.value + d) else None
  }

  lemma {:induction false} LastBoundaryFrom(s: String, t: String, d: nat, lo: nat, k: nat)
    requires SuffixAt(s, t, d) && 1 <= lo <= k <= |t|
    ensures LastBoundary(s, d + lo, d + k) == ShiftBy(LastBoundary(t, lo, k), d)
    decreases k - lo
  {
    BoundaryFrom(s, t, d, k);
    if k > lo {
      LastBoundaryFrom(s, t, d, lo, k - 1);
    }
  }

  lemma MatchFrom(s: String, t: String, d: nat, q: nat)
    requires SuffixAt(s, t, d) && q <= |t| && LooksOnlyFrom(s, d, q)
    ensures WordMatchEnd(s, d + q) == ShiftBy(WordMatchEnd(t, q), d)
  {
    if q < |t| {
      BoundaryFrom(s, t, d, q);
      assert t[q] == s[d + q];
      var m := TailEnd(t, q + 1);
      TailEndFrom(s, t, d, q + 1);
      LastBoundaryFrom(s, t, d, q + 1, m);
    }
  }

  lemma StepFrom(s: String, t: String, d: nat, q: nat)
    requires SuffixAt(s, t, d) && q < |t| && LooksOnlyFrom(s, d, q)
    ensures NextScan(s, d + q) == d + NextScan(t, q)
    ensures ScanPiece(s, d + q) == ScanPiece(t, q)
  {
    MatchFrom(s, t, d, q);
    assert t[q] == s[d + q];
    if WordMatchEnd(t, q).Some? {
      var k := WordMatchEnd(t, q).value;
      assert s[d + q + 1..d + k] == t[q + 1..k];
    }
  }

  /** The scan of s from d + q is the scan of the text from d from q. */
  lemma CapitalizeFrom(s: String, t: String, d: nat, q: nat)
    requires SuffixAt(s, t, d) && q <= |t| && LooksOnlyFrom(s, d, q)
    ensures Capitalize(s, d + q) == Capitalize(t, q)
  {
    ScanFrom(s, t, d, q);
  }

  /** The scans of s from d + q and of t from q produce the same text. */
  predicate ScansAgree(s: String, t: String, d: nat, q: nat)
    requires d + |t| == |s| && q <= |t|
  {
    Capitalize(s, d + q) == Capitalize(t, q)
  }

  lemma {:induction false} ScanFrom(s: String, t: String, d: nat, q: nat)
    requires SuffixAt(s, t, d) && q <= |t| && LooksOnlyFrom(s, d, q)
    ensures ScansAgree(s, t, d, q)
    decreases |t| - q
  {
    if q < |t| {
      StepFrom(s, t, d, q);
      ScanFrom(s, t, d, NextScan(t, q));
    }
  }

  /** A leading whitespace character is copied and the rest is scanned on its own. */
  lemma CapitalizeSpaceHead(s: String)
    requires s != [] && IsSpace(s[0])
    ensures Capitalize(s, 0) == [s[0]] + Capitalize(s[1..], 0)
  {
    assert SuffixAt(s, s[1..], 1);
    CapitalizeFrom(s, s[1..], 1, 0);
  }

  /** Text that opens with whitespace is scanned independently of what precedes it. */
  lemma CapitalizeSplit(a: String, b: String)
    requires b != [] && IsSpace(b[0])
    ensures Capitalize(a + b, 0) == Capitalize(a, 0) + Capitalize(b, 0)
  {
    CapitalizeBeforeSpace(a, b, 0);
    assert (a + b)[|a|] == b[0];
    assert SuffixAt(a + b, b, |a|);
    CapitalizeFrom(a + b, b, |a|, 1);
  }

  /** The substitution keeps every whitespace character where it is. */
  lemma CapitalizeKeepsSpaces(s: String, i: nat)
    requires i < |s|
    ensures IsSpace(Capitalize(s, 0)[i]) <==> IsSpace(s[i])
    ensures IsSpace(s[i]) ==> Capitalize(s, 0)[i] == s[i]
  {
    CapitalizeCased(s, 0);
    assert CasedAt(s, 0, Capitalize(s, 0), i);
  }

  lemma CapitalizeNoSpace(s: String)
    requires NoSpace(s)
    ensures NoSpace(Capitalize(s, 0))
  {
    forall i | 0 <= i < |s| ensures !IsSpace(Capitalize(s, 0)[i]) {
      CapitalizeKeepsSpaces(s, i);
    }
  }

  lemma {:induction false} CapitalizeLStrip(s: String)
    ensures LStrip(Capitalize(s, 0)) == Capitalize(LStrip(s), 0)
    decreases |s|
  {
    if s != [] {
      if IsSpace(s[0]) {
        var x := Capitalize(s[1..], 0);
        CapitalizeSpaceHead(s);
        assert ([s[0]] + x)[1..] == x;
        assert LStrip([s[0]] + x) == LStrip(x);
        assert LStrip(s) == LStrip(s[1..]);
        CapitalizeLStrip(s[1..]);
      } else {
        CapitalizeKeepsSpaces(s, 0);
        assert LStrip(s) == s;
      }
    }
  }

  /** A run of non-space characters passes through collapsing untouched. */
  lemma NoSpaceTail(w: String)
    requires w != [] && NoSpace(w)
    ensures NoSpace(w[1..])
  {
    forall i | 0 <= i < |w| - 1 ensures !IsSpace(w[1..][i]) {
      assert w[1..][i] == w[i + 1];
    }
  }

  lemma {:induction false} CollapseWordPrefix(w: String, t: String)
    requires NoSpace(w)
    ensures Collapse(w + t) == w + Collapse(t)
    decreases |w|
  {
    if w == [] {
      assert w + t == t;
    } else {
      NoSpaceTail(w);
      CollapseWordStep(w, t);
      CollapseWordPrefix(w[1..], t);
      assert [w[0]] + (w[1..] + Collapse(t)) == w + Collapse(t);
    }
  }

  lemma CollapseWordStep(w: String, t: String)
    requires w != [] && !IsSpace(w[0])
    ensures Collapse(w + t) == [w[0]] + Collapse(w[1..] + t)
  {
    var s := w + t;
    assert s[0] == w[0] && s[1..] == w[1..] + t;
    CollapseCons(s, w[1..] + t);
  }

  lemma {:induction false} LStripKeepsLast(s: String)
    requires s != [] && !IsSpace(s[|s| - 1])
    ensures LStrip(s) != [] && LStrip(s)[|LStrip(s)| - 1] == s[|s| - 1]
    decreases |s|
  {
    if IsSpace(s[0]) {
      assert s[1..][|s| - 2] == s[|s| - 1];
      LStripKeepsLast(s[1..]);
    }
  }

  /** Collapsing keeps a non-space last character last. */
  lemma {:induction false} CollapseLastKept(s: String)
    requires s != [] && !IsSpace(s[|s| - 1])
    ensures Collapse(s) != [] && Collapse(s)[|Collapse(s)| - 1] == s[|s| - 1]
    decreases |s|
  {
    if IsSpace(s[0]) {
      var t := LStrip(s);
      LStripKeepsLast(s);
      CollapseLastKept(t);
      assert Collapse(s) == [' '] + Collapse(t);
    } else if |s| > 1 {
      var t := s[1..];
      assert t[|t| - 1] == s[|s| - 1];
      CollapseLastKept(t);
      assert Collapse(s) == [s[0]] + Collapse(t);
    } else {
      assert Collapse(s) == [s[0]] + Collapse([]);
    }
  }

  /** Collapsing whitespace commutes with the substitution: the word pattern never
      spans whitespace, and `\b` does not depend on which whitespace character
      follows a word. */
  lemma {:induction false} CollapseCapitalize(s: String)
    ensures Collapse(Capitalize(s, 0)) == Capitalize(Collapse(s), 0)
    decreases |s|
  {
    if s != [] {
      if IsSpace(s[0]) {
        var t := LStrip(s);
        CollapseCapitalize(t);
        CapitalizeKeepsSpaces(s, 0);
        CapitalizeLStrip(s);
        var c := Collapse(t);
        CapitalizeSpaceHead([' '] + c);
        assert ([' '] + c)[1..] == c;
      } else {
        var n := WordEnd(s, 0);
        var w, t := s[..n], s[n..];
        assert s == w + t;
        if t == [] {
          CapitalizeNoSpace(s);
          CollapseWordPrefix(s, []);
          CollapseWordPrefix(Capitalize(s, 0), []);
          assert s + [] == s && Capitalize(s, 0) + [] == Capitalize(s, 0);
        } else {
          CapitalizeNoSpace(w);
          CollapseCapitalize(t);
          CapitalizeSplit(w, t);
          CollapseWordPrefix(w, t);
          CapitalizeSplit(w, Collapse(t));
          CollapseWordPrefix(Capitalize(w, 0), Capitalize(t, 0));
        }
      }
    }
  }

  /** Python's `to_mixed_case`: lower-case and strip, capitalise each word, collapse
      whitespace, strip. */
  function ToMixedCase(tag: String): (r: String)
    ensures tag == [] ==> r == []
    ensures |r| <= |tag|
  {
    if tag == [] then []
    else
      MixedCaseShort(tag);
      Strip(Collapse(Capitalize(Strip(Lower(tag)), 0)))
  }

  lemma MixedCaseShort(tag: String)
    ensures |Strip(Collapse(Capitalize(Strip(Lower(tag)), 0)))| <= |tag|
  {
    var lower := Strip(Lower(tag));
    var cased := Capitalize(lower, 0);
    assert |cased| == |lower| <= |tag|;
    assert |Collapse(cased)| <= |cased|;
  }

  /** Ignoring case the result is the trimmed input with its whitespace runs
      collapsed; it is tidy and has capitals only at word starts. */
  lemma MixedCaseShape(tag: String)
    ensures Tidy(ToMixedCase(tag))
    ensures IsLowercase(Lower(ToMixedCase(tag))) && NoUpperAfterWord(ToMixedCase(tag))
    ensures Lower(ToMixedCase(tag)) == Strip(Collapse(Strip(Lower(tag))))
  {
    if tag != [] {
      MixedCaseSteps(tag);
    } else {
      assert Lower([]) == [];
      assert Collapse([]) == [];
    }
  }

  /** The shape facts of `ToMixedCase`, step by step through its pipeline. */
  lemma MixedCaseSteps(tag: String)
    ensures IsLowercase(Strip(Lower(tag)))
    ensures Tidy(Strip(Collapse(Capitalize(Strip(Lower(tag)), 0))))
    ensures NoUpperAfterWord(Strip(Collapse(Capitalize(Strip(Lower(tag)), 0))))
    ensures Lower(Strip(Collapse(Capitalize(Strip(Lower(tag)), 0)))) == Strip(Collapse(Strip(Lower(tag))))
    ensures IsLowercase(Lower(Strip(Collapse(Capitalize(Strip(Lower(tag)), 0)))))
  {
    var lower := Strip(Lower(tag));
    StrippedLowerIsLowercase(tag, lower);
    var cased := Capitalize(lower, 0);
    CapitalizeLower(lower, cased);
    CapitalizeNoUpperAfterWord(lower, cased);
    var collapsed := Collapse(cased);
    CollapseShape(cased, collapsed);
    StripKeepsShape(collapsed);
    CollapsedLower(lower, cased, collapsed);
  }

  lemma StrippedLowerIsLowercase(tag: String, lower: String)
    requires lower == Strip(Lower(tag))
    ensures IsLowercase(lower) && Lower(lower) == lower
  {
    LowerIsLowercase(tag);
    StripLower(Lower(tag));
    LowerIsLowercase(lower);
  }

  lemma CollapseShape(cased: String, collapsed: String)
    requires collapsed == Collapse(cased) && NoUpperAfterWord(cased)
    ensures SingleSpaced(collapsed) && NoUpperAfterWord(collapsed)
  {
    CollapseSingleSpacedResult(cased);
    CollapseNoUpperAfterWord(cased);
  }

  lemma CollapsedLower(lower: String, cased: String, collapsed: String)
    requires Lower(cased) == lower && collapsed == Collapse(cased)
    ensures Lower(Strip(collapsed)) == Strip(Collapse(lower))
    ensures IsLowercase(Lower(Strip(collapsed)))
  {
    CollapseLower(cased);
    StripLower(collapsed);
    LowerIsLowercase(Strip(collapsed));
  }

  /** Every letter of the trimmed, collapsed lower-case tag that opens a word and
      matches the word pattern comes out upper-cased, whatever the case and the
      spacing of the tag. */
  lemma MixedCaseCapitalizesWords(tag: String, p: nat)
    requires p < |Strip(Collapse(Strip(Lower(tag))))|
    requires var t := Strip(Collapse(Strip(Lower(tag))));
             (p == 0 || t[p - 1] == ' ') && WordMatchEnd(t, p).Some?
    ensures p < |ToMixedCase(tag)|
    ensures ToMixedCase(tag)[p] == UpperChar(Strip(Collapse(Strip(Lower(tag))))[p])
  {
    MixedCaseIsCapitalized(tag);
    CapitalizeWordStart(Strip(Collapse(Strip(Lower(tag)))), p);
  }

  /** The pipeline is the substitution applied to the trimmed, collapsed
      lower-case tag: collapsing after capitalising changes nothing it would not
      change before. */
  lemma MixedCaseIsCapitalized(tag: String)
    ensures ToMixedCase(tag) == Capitalize(Strip(Collapse(Strip(Lower(tag)))), 0)
  {
    if tag == [] {
      assert Lower(tag) == [];
      assert Collapse([]) == [];
    } else {
      CollapseCapitalizeTrimmed(Strip(Lower(tag)));
    }
  }

  /** On text without edge whitespace the final strip removes nothing, so
      the collapse and the substitution may be swapped. */
  lemma CollapseCapitalizeTrimmed(l: String)
    requires l == [] || (!IsSpace(l[0]) && !IsSpace(l[|l| - 1]))
    ensures Strip(Collapse(Capitalize(l, 0))) == Capitalize(Strip(Collapse(l)), 0)
  {
    CollapseCapitalize(l);
    var c := Collapse(l);
    if l != [] {
      CollapseLastKept(l);
    }
    StripNoEdges(c);
    var r := Capitalize(c, 0);
    if c != [] {
      CapitalizeKeepsSpaces(c, 0);
      CapitalizeKeepsSpaces(c, |c| - 1);
    }
    StripNoEdges(r);
  }

  /** `to_mixed_case` depends only on the trimmed lower-case tag. */
  lemma MixedCaseIgnoresCase(g: String, h: String)
    requires Strip(Lower(g)) == Strip(Lower(h))
    ensures ToMixedCase(g) == ToMixedCase(h)
  {
    if g == [] {
      MixedCaseOfBlank(h);
    } else if h == [] {
      MixedCaseOfBlank(g);
    } else {
      MixedCaseSameLower(g, h);
    }
  }

  lemma MixedCaseSameLower(g: String, h: String)
    requires Strip(Lower(g)) == Strip(Lower(h)) && g != [] && h != []
    ensures ToMixedCase(g) == ToMixedCase(h)
  {
  }

  /** A tag that is empty once trimmed gives the empty string. */
  lemma MixedCaseOfBlank(h: String)
    requires Strip(Lower(h)) == []
    ensures ToMixedCase(h) == []
  {
    assert Capitalize([], 0) == [];
    assert Collapse([]) == [];
  }

  // ---------------------------------------------------------------------------
  // Searching

  predicate OccursAt(t: String, w: String, p: int)
  {
    0 <= p && p + |w| <= |t| && t[p..p + |w|] == w
  }

  /** `s.startswith(p)`. */
  predicate StartsWith(s: String, p: String)
  {
    |p| <= |s| && s[..|p|] == p
  }

  /** `s.endswith(x)`. */
  predicate EndsWith(s: String, x: String)
  {
    |x| <= |s| && s[|s| - |x|..] == x
  }

  /** Python's `w in t` for strings. */
  predicate Contains(t: String, w: String)
  {
    exists p :: 0 <= p <= |t| - |w| && OccursAt(t, w, p)
  }

  /** `re.search(r"\b" + re.escape(w) + r"\b", t)`. */
  predicate WholeWordIn(t: String, w: String)
  {
    exists p :: 0 <= p <= |t| - |w| && OccursAt(t, w, p) && BoundaryAt(t, p) && BoundaryAt(t, p + |w|)
  }

  /** `re.search(r"(^|\s)" + re.escape(w) + r"(\s|$)", t)`. */
  predicate WholePhraseIn(t: String, w: String)
  {
    exists p :: 0 <= p <= |t| - |w| && OccursAt(t, w, p)
                && (p == 0 || IsSpace(t[p - 1]))
                && (p + |w| == |t| || IsSpace(t[p + |w|]))
  }

  lemma ContainsSelf(t: String)
    ensures Contains(t, t)
  {
    assert OccursAt(t, t, 0);
  }

  /** `[g.lower() for g in s]`. */
  function LowerAll(s: seq<String>): (r: seq<String>)
    ensures |r| == |s| && forall i :: 0 <= i < |s| ==> r[i] == Lower(s[i])
  {
    seq(|s|, i requires 0 <= i < |s| => Lower(s[i]))
  }

  // ---------------------------------------------------------------------------
  // Joining

  /** `sep.join(xs)`. */
  function JoinWith(xs: seq<String>, sep: String): (r: String)
    ensures xs == [] ==> r == []
    ensures |xs| == 1 ==> r == xs[0]
    decreases |xs|
  {
    if xs == [] then []
    else if |xs| == 1 then xs[0]
    else JoinWith(xs[..|xs| - 1], sep) + sep + xs[|xs| - 1]
  }

  function TotalLength(xs: seq<String>): nat
    decreases |xs|
  {
    if xs == [] then 0 else TotalLength(xs[..|xs| - 1]) + |xs[|xs| - 1]|
  }

  lemma {:induction false} JoinWithLength(xs: seq<String>, sep: String)
    requires xs != []
    ensures |JoinWith(xs, sep)| == TotalLength(xs) + (|xs| - 1) * |sep|
    decreases |xs|
  {
    if |xs| > 1 {
      var n := |xs|;
      JoinWithLength(xs[..n - 1], sep);
      assert xs[..n - 1][..n - 2] == xs[..n - 2];
      assert |JoinWith(xs, sep)| == |JoinWith(xs[..n - 1], sep)| + |sep| + |xs[n - 1]|;
      assert TotalLength(xs) == TotalLength(xs[..n - 1]) + |xs[n - 1]|;
      assert (n - 1) * |sep| == (n - 2) * |sep| + |sep|;
    } else {
      assert xs[..0] == [];
    }
  }

  // ---------------------------------------------------------------------------
  // Case-insensitive de-duplication (`unique_case_insensitive`)

  /** The lower-case keys of a list. */
  function Keys(s: seq<String>): set<String>
    decreases |s|
  {
    if s == [] then {} else Keys(s[..|s| - 1]) + {Lower(s[|s| - 1])}
  }

  lemma KeysMembers(s: seq<String>)
    ensures forall k :: k in Keys(s) <==> exists i :: 0 <= i < |s| && Lower(s[i]) == k
    decreases |s|
  {
    if s != [] {
      KeysMembers(s[..|s| - 1]);
      forall k | k in Keys(s) ensures exists i :: 0 <= i < |s| && Lower(s[i]) == k {
        if k in Keys(s[..|s| - 1]) {
          var i :| 0 <= i < |s| - 1 && Lower(s[..|s| - 1][i]) == k;
          assert Lower(s[i]) == k;
        } else {
          assert Lower(s[|s| - 1]) == k;
        }
      }
      forall k | exists i :: 0 <= i < |s| && Lower(s[i]) == k ensures k in Keys(s) {
        var i :| 0 <= i < |s| && Lower(s[i]) == k;
        if i < |s| - 1 {
          assert Lower(s[..|s| - 1][i]) == k;
        }
      }
    }
  }

  lemma KeysAppend(a: seq<String>, b: seq<String>)
    ensures Keys(a + b) == Keys(a) + Keys(b)
    decreases |b|
  {
    if b == [] {
      assert a + b == a;
    } else {
      assert (a + b)[..|a + b| - 1] == a + b[..|b| - 1];
      KeysAppend(a, b[..|b| - 1]);
    }
  }

  /** No two elements are equal ignoring case. */
  predicate NoCIDup(s: seq<String>)
  {
    forall i, j :: 0 <= i < j < |s| ==> Lower(s[i]) != Lower(s[j])
  }

  /** `r` is a subsequence of `s` (greedy match from the back). */
  predicate Subseq<T(==)>(r: seq<T>, s: seq<T>)
    decreases |s|
  {
    if r == [] then true
    else if s == [] then false
    else if r[|r| - 1] == s[|s| - 1] then Subseq(r[..|r| - 1], s[..|s| - 1])
    else Subseq(r, s[..|s| - 1])
  }

  lemma {:induction false} SubseqMembers<T>(r: seq<T>, s: seq<T>)
    requires Subseq(r, s)
    ensures forall x :: x in r ==> x in s
    decreases |s|
  {
    if r != [] {
      if r[|r| - 1] == s[|s| - 1] {
        SubseqMembers(r[..|r| - 1], s[..|s| - 1]);
        forall x | x in r ensures x in s {
          if x != r[|r| - 1] {
            assert x in r[..|r| - 1];
            assert x in s[..|s| - 1];
          }
        }
      } else {
        SubseqMembers(r, s[..|s| - 1]);
        forall x | x in r ensures x in s {
          assert x in s[..|s| - 1];
        }
      }
    }
  }

  lemma {:induction false} SubseqAppend<T>(r: seq<T>, s: seq<T>, x: T, keep: bool)
    requires Subseq(r, s)
    ensures Subseq(r + (if keep then [x] else []), s + [x])
  {
    var s' := s + [x];
    assert s'[..|s'| - 1] == s;
    if keep {
      var r' := r + [x];
      assert r'[..|r'| - 1] == r;
    } else {
      SubseqExtend(r, s, x);
      assert r + [] == r;
    }
  }

  lemma {:induction false} SubseqExtend<T>(r: seq<T>, s: seq<T>, x: T)
    requires Subseq(r, s)
    ensures Subseq(r, s + [x])
    decreases |s|, 1
  {
    var s' := s + [x];
    assert s'[..|s'| - 1] == s;
    if r != [] && r[|r| - 1] == x {
      // Matching x at the back leaves r's prefix against s, which is a subsequence too.
      SubseqInit(r, s);
    }
  }

  lemma {:induction false} SubseqInit<T>(r: seq<T>, s: seq<T>)
    requires r != [] && Subseq(r, s)
    ensures Subseq(r[..|r| - 1], s)
    decreases |s|, 0
  {
    if r[|r| - 1] == s[|s| - 1] {
      SubseqExtend(r[..|r| - 1], s[..|s| - 1], s[|s| - 1]);
      assert s[..|s| - 1] + [s[|s| - 1]] == s;
    } else {
      SubseqInit(r, s[..|s| - 1]);
      SubseqExtend(r[..|r| - 1], s[..|s| - 1], s[|s| - 1]);
      assert s[..|s| - 1] + [s[|s| - 1]] == s;
    }
  }

  lemma {:induction false} SubseqNoCIDup(r: seq<String>, s: seq<String>)
    requires Subseq(r, s) && NoCIDup(s)
    ensures NoCIDup(r)
    decreases |s|
  {
    if r != [] {
      var s0 := s[..|s| - 1];
      assert NoCIDup(s0);
      if r[|r| - 1] == s[|s| - 1] {
        var r0 := r[..|r| - 1];
        SubseqNoCIDup(r0, s0);
        SubseqMembers(r0, s0);
        forall i, j | 0 <= i < j < |r| ensures Lower(r[i]) != Lower(r[j]) {
          if j == |r| - 1 {
            assert r[i] in r0;
            var k :| 0 <= k < |s0| && s0[k] == r[i];
          } else {
            assert r[i] == r0[i] && r[j] == r0[j];
          }
        }
      } else {
        SubseqNoCIDup(r, s0);
      }
    }
  }

  /** Keep an element exactly when no earlier element has its lower-case key:
      the first spelling of every key survives, in input order. */
  function UniqueCI(s: seq<String>): seq<String>
    decreases |s|
  {
    if s == [] then []
    else
      var init := s[..|s| - 1];
      UniqueCI(init) + (if Lower(s[|s| - 1]) in Keys(init) then [] else [s[|s| - 1]])
  }

  /** The de-duplicated list is a subsequence of the input, has the same keys, and
      has no two elements equal ignoring case. */
  lemma UniqueCIProperties(s: seq<String>)
    ensures Subseq(UniqueCI(s), s)
    ensures Keys(UniqueCI(s)) == Keys(s)
    ensures NoCIDup(UniqueCI(s))
  {
    UniqueCISubseq(s);
    UniqueCIKeys(s);
    UniqueCINoDup(s);
  }

  lemma {:induction false} UniqueCISubseq(s: seq<String>)
    ensures Subseq(UniqueCI(s), s)
    decreases |s|
  {
    if s != [] {
      var init := s[..|s| - 1];
      var x := s[|s| - 1];
      UniqueCISubseq(init);
      SubseqAppend(UniqueCI(init), init, x, Lower(x) !in Keys(init));
      assert init + [x] == s;
    }
  }

  lemma {:induction false} UniqueCIKeys(s: seq<String>)
    ensures Keys(UniqueCI(s)) == Keys(s)
    decreases |s|
  {
    if s != [] {
      var init := s[..|s| - 1];
      var x := s[|s| - 1];
      UniqueCIKeys(init);
      var u := UniqueCI(init);
      if Lower(x) in Keys(init) {
        assert UniqueCI(s) == u;
      } else {
        KeysAppend(u, [x]);
        assert UniqueCI(s) == u + [x];
        assert Keys([x]) == {Lower(x)};
      }
    }
  }

  lemma {:induction false} UniqueCINoDup(s: seq<String>)
    ensures NoCIDup(UniqueCI(s))
    decreases |s|
  {
    if s != [] {
      var init := s[..|s| - 1];
      var x := s[|s| - 1];
      UniqueCINoDup(init);
      var u := UniqueCI(init);
      if Lower(x) !in Keys(init) {
        UniqueCIKeys(init);
        var r := u + [x];
        assert UniqueCI(s) == r;
        forall i, j | 0 <= i < j < |r| ensures Lower(r[i]) != Lower(r[j]) {
          assert r[i] == u[i];
          if j == |u| {
            KeysMembers(u);
            assert Lower(u[i]) in Keys(u);
          } else {
            assert r[j] == u[j];
          }
        }
      } else {
        assert UniqueCI(s) == u;
      }
    }
  }

  /** Every element whose key does not occur earlier is kept. */
  lemma {:induction false} UniqueCIKeepsFirst(s: seq<String>, i: nat)
    requires i < |s| && Lower(s[i]) !in Keys(s[..i])
    ensures s[i] in UniqueCI(s)
    decreases |s|
  {
    var init := s[..|s| - 1];
    if i == |s| - 1 {
      assert s[..i] == init;
    } else {
      assert init[..i] == s[..i];
      UniqueCIKeepsFirst(init, i);
    }
  }

  /** The first element always survives. */
  lemma {:induction false} UniqueCIHead(s: seq<String>)
    requires s != []
    ensures UniqueCI(s) != [] && UniqueCI(s)[0] == s[0]
    decreases |s|
  {
    if |s| > 1 {
      var init := s[..|s| - 1];
      UniqueCIHead(init);
      assert init[0] == s[0];
    } else {
      assert s[..0] == [];
    }
  }

  /** A list with no case-insensitive duplicates is returned unchanged. */
  lemma {:induction false} UniqueCIOfUnique(s: seq<String>)
    requires NoCIDup(s)
    ensures UniqueCI(s) == s
    decreases |s|
  {
    if s != [] {
      var init := s[..|s| - 1];
      assert NoCIDup(init);
      UniqueCIOfUnique(init);
      var x := s[|s| - 1];
      assert Lower(x) !in Keys(init) by {
        KeysMembers(init);
        forall i | 0 <= i < |init| ensures Lower(init[i]) != Lower(x) {
          assert init[i] == s[i];
        }
      }
      assert s == init + [x];
    }
  }

  lemma UniqueCIIdempotent(s: seq<String>)
    ensures UniqueCI(UniqueCI(s)) == UniqueCI(s)
  {
    UniqueCIProperties(s);
    UniqueCIOfUnique(UniqueCI(s));
  }

  /** De-duplicating a pair keeps the second element only when it differs by key. */
  lemma UniqueCIPair(a: String, b: String)
    ensures UniqueCI([a, b]) == if Lower(a) == Lower(b) then [a] else [a, b]
  {
    assert [a, b][..1] == [a];
    assert [a][..0] == [];
    assert UniqueCI([a]) == [a];
    assert Keys([a]) == {Lower(a)};
  }
}
