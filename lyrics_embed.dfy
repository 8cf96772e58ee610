// Embedding `.lrc` lyrics into audio files (`lyrics_embed.py`): the timestamp
// stripping, the `.lrc` lookup order, the folder description and the counters
// of the archive scan. Tag reading and writing are given as sets of paths.

module LyricsEmbed {
  import opened Text
  import Paths

  // ---------------------------------------------------------------------------
  // `strip_timestamps`: the tags `[m:ss]`, `[mm:ss]`, `[mm:ss.f]`, `[mm:ss.ff]`

  predicate Digits(x: String)
  {
    forall k :: 0 <= k < |x| ==> IsDigit(x[k])
  }

  /** The fractional part: empty, or a dot and one or two digits. */
  predicate Fraction(f: String)
  {
    f == [] || (2 <= |f| <= 3 && f[0] == '.' && Digits(f[1..]))
  }

  /** A tag whose ':' sits at index c, that is with c - 1 minute digits. */
  predicate TagWithColonAt(t: String, c: nat)
  {
    2 <= c <= 3 && c + 4 <= |t| && t[0] == '[' && Digits(t[1..c]) && t[c] == ':'
    && Digits(t[c + 1..c + 3]) && Fraction(t[c + 3..|t| - 1]) && t[|t| - 1] == ']'
  }

  /** A whole match of `\[\d{1,2}:\d{2}(?:\.\d{1,2})?\]`. */
  predicate IsTag(t: String)
  {
    TagWithColonAt(t, 2) || TagWithColonAt(t, 3)
  }

  /** The length of the match of the pattern at the start of s, if any. The
      greedy `\d{1,2}` never has to give a digit back: what follows it is a
      ':' or a ']', never a digit. */
  function MatchTag(s: String): Option<nat>
  {
    if |s| < 2 || s[0] != '[' || !IsDigit(s[1]) then None
    else
      var c := if |s| > 2 && IsDigit(s[2]) then 3 else 2;
      if !(c + 2 < |s| && s[c] == ':' && IsDigit(s[c + 1]) && IsDigit(s[c + 2])) then None
      else CloseAt(s, c + 3)
  }

  /** After the seconds: the optional `\.\d{1,2}` (two digits tried first)
      and the closing ']'. */
  function CloseAt(s: String, k: nat): (r: Option<nat>)
    requires k <= |s|
  {
    if k < |s| && s[k] == ']' then Some(k + 1)
    else if k + 1 < |s| && s[k] == '.' && IsDigit(s[k + 1]) then
      if k + 2 < |s| && IsDigit(s[k + 2]) then
        if k + 3 < |s| && s[k + 3] == ']' then Some(k + 4) else None
      else if k + 2 < |s| && s[k + 2] == ']' then Some(k + 3)
      else None
    else None
  }

  /** The closing part matches exactly a fraction followed by ']'. */
  lemma CloseAtIff(s: String, k: nat, n: nat)
    requires k <= |s|
    ensures CloseAt(s, k) == Some(n) <==> k < n <= |s| && Fraction(s[k..n - 1]) && s[n - 1] == ']'
  {
    if k < n <= |s| && Fraction(s[k..n - 1]) && s[n - 1] == ']' {
      var f := s[k..n - 1];
      if |f| > 0 {
        assert f[0] == s[k] && f[1..][0] == s[k + 1];
        if |f| == 3 {
          assert f[1..][1] == s[k + 2];
        }
      }
    }
    if CloseAt(s, k) == Some(n) {
      var f := s[k..n - 1];
      if |f| > 0 {
        assert f[0] == s[k];
        assert forall j :: 0 <= j < |f| - 1 ==> f[1..][j] == s[k + 1 + j];
      }
    }
  }

  lemma PrefixSlice(s: String, n: nat, a: nat, b: nat)
    requires a <= b <= n <= |s|
    ensures s[..n][a..b] == s[a..b]
  {
  }

  /** The matcher finds exactly the tag a prefix of s forms: there is at most one. */
  lemma MatchTagIsTag(s: String, n: nat)
    ensures MatchTag(s) == Some(n) <==> n <= |s| && IsTag(s[..n])
  {
    if n <= |s| && IsTag(s[..n]) {
      if TagWithColonAt(s[..n], 2) {
        TagIsMatched(s, n, 2);
      } else {
        TagIsMatched(s, n, 3);
      }
    }
    if MatchTag(s) == Some(n) {
      MatchedIsTag(s, n);
    }
  }

  lemma TagIsMatched(s: String, n: nat, c: nat)
    requires n <= |s| && TagWithColonAt(s[..n], c)
    ensures MatchTag(s) == Some(n)
  {
    var t := s[..n];
    PrefixSlice(s, n, 1, c);
    PrefixSlice(s, n, c + 1, c + 3);
    PrefixSlice(s, n, c + 3, n - 1);
    assert t[0] == s[0] && t[c] == s[c] && t[n - 1] == s[n - 1];
    assert s[1..c][0] == s[1] && s[c + 1..c + 3][0] == s[c + 1] && s[c + 1..c + 3][1] == s[c + 2];
    if c == 3 {
      assert s[1..c][1] == s[2];
    }
    CloseAtIff(s, c + 3, n);
  }

  lemma MatchedIsTag(s: String, n: nat)
    requires MatchTag(s) == Some(n)
    ensures n <= |s| && IsTag(s[..n])
  {
    var c := if |s| > 2 && IsDigit(s[2]) then 3 else 2;
    CloseAtIff(s, c + 3, n);
    var t := s[..n];
    PrefixSlice(s, n, 1, c);
    PrefixSlice(s, n, c + 1, c + 3);
    PrefixSlice(s, n, c + 3, n - 1);
    assert forall k :: 0 <= k < c - 1 ==> s[1..c][k] == s[1 + k];
    assert s[c + 1..c + 3][0] == s[c + 1] && s[c + 1..c + 3][1] == s[c + 2];
    assert TagWithColonAt(t, c);
  }

  /** `re.sub(pattern, "", text)`: scanning from the left, each match is cut
      out and the scan resumes after it. */
  function RemoveTags(s: String): (r: String)
    ensures |r| <= |s|
    decreases |s|
  {
    if s == [] then []
    else
      match MatchTag(s)
      case Some(n) => RemoveTags(s[n..])
      case None => [s[0]] + RemoveTags(s[1..])
  }

  /** `strip_timestamps`: the text without its timestamp tags, then stripped. */
  function StripTimestamps(text: String): (r: String)
    ensures r == [] || (!IsSpace(r[0]) && !IsSpace(r[|r| - 1]))
  {
    Strip(RemoveTags(text))
  }

  /** No tag starts anywhere in s. */
  predicate NoTag(s: String)
  {
    forall i :: 0 <= i <= |s| ==> MatchTag(s[i..]) == None
  }

  /** Text holding no tag is only stripped. */
  lemma {:induction false} RemoveTagsOfNoTag(s: String)
    requires NoTag(s)
    ensures RemoveTags(s) == s
    ensures StripTimestamps(s) == Strip(s)
    decreases |s|
  {
    if s != [] {
      NoTagTail(s);
      RemoveTagsOfNoTag(s[1..]);
      KeepLeadingChar(s[0], s[1..]);
      ConsTail(s, s[1..]);
    }
  }

  lemma NoTagTail(s: String)
    requires NoTag(s) && s != []
    ensures MatchTag([s[0]] + s[1..]) == None && NoTag(s[1..])
  {
    assert s[0..] == s;
    ConsTail(s, s[1..]);
    forall i | 0 <= i <= |s[1..]| ensures MatchTag(s[1..][i..]) == None {
      assert s[1..][i..] == s[i + 1..];
    }
  }

  /** A tag at the front disappears, whatever follows it. */
  lemma RemoveLeadingTag(t: String, s: String)
    requires IsTag(t)
    ensures RemoveTags(t + s) == RemoveTags(s)
  {
    assert (t + s)[..|t|] == t;
    MatchTagIsTag(t + s, |t|);
    assert (t + s)[|t|..] == s;
  }

  /** A character that starts no tag is kept, and the scan goes on after it. */
  lemma KeepLeadingChar(c: char, s: String)
    requires MatchTag([c] + s) == None
    ensures RemoveTags([c] + s) == [c] + RemoveTags(s)
  {
    assert ([c] + s)[1..] == s;
  }

  /** A timed lyric line loses its tag. */
  lemma StripTaggedLine(t: String, line: String)
    requires IsTag(t) && NoTag(line)
    ensures StripTimestamps(t + line) == Strip(line)
  {
    RemoveLeadingTag(t, line);
    RemoveTagsOfNoTag(line);
  }

  // ---------------------------------------------------------------------------
  // `find_lrc`

  /** The two places an audio file's lyrics may be: beside it, then in a
      "Lyrics" sub-folder, both named after the file's stem. */
  function LrcCandidates(audioPath: String): seq<String>
  {
    var base := Paths.Root(Paths.Basename(audioPath));
    var folder := Paths.Dirname(audioPath);
    [Paths.Join(folder, base + ".lrc"), Paths.Join(Paths.Join(folder, "Lyrics"), base + ".lrc")]
  }

  /** For "dir/stem.ext" the candidates are "dir/stem.lrc" and "dir/Lyrics/stem.lrc". */
  lemma LrcCandidatesOf(dir: String, stem: String, x: String)
    requires dir != [] && dir[|dir| - 1] != '/'
    requires Paths.Excludes(stem, '/') && !Paths.AllDots(stem)
    requires Paths.Excludes(x, '.') && Paths.Excludes(x, '/')
    ensures LrcCandidates(dir + "/" + (stem + (['.'] + x)))
            == [dir + "/" + (stem + ".lrc"), dir + "/Lyrics/" + (stem + ".lrc")]
  {
    var name := stem + (['.'] + x);
    NameOfStemExt(stem, x, name);
    Paths.JoinSplits(dir, name);
    LrcJoins(dir, stem);
  }

  lemma NameOfStemExt(stem: String, x: String, name: String)
    requires Paths.Excludes(stem, '/') && !Paths.AllDots(stem)
    requires Paths.Excludes(x, '.') && Paths.Excludes(x, '/')
    requires name == stem + (['.'] + x)
    ensures Paths.Excludes(name, '/') && Paths.Root(name) == stem
  {
    assert forall k :: 0 <= k < |name| ==> name[k] == (if k < |stem| then stem[k] else (['.'] + x)[k - |stem|]);
    assert Paths.RFind(stem, '/') < 0;
    assert stem[Paths.RFind(stem, '/') + 1..] == stem;
    Paths.SplitextOfRootExt(stem, x);
  }

  lemma LrcJoins(dir: String, stem: String)
    requires dir != [] && dir[|dir| - 1] != '/'
    requires Paths.Excludes(stem, '/') && !Paths.AllDots(stem)
    ensures Paths.Join(dir, stem + ".lrc") == dir + "/" + (stem + ".lrc")
    ensures Paths.Join(Paths.Join(dir, "Lyrics"), stem + ".lrc") == dir + "/Lyrics/" + (stem + ".lrc")
  {
    assert stem != [] && (stem + ".lrc")[0] == stem[0];
    var lyrics := Paths.Join(dir, "Lyrics");
    assert lyrics == dir + "/Lyrics";
    assert lyrics[|lyrics| - 1] == 's';
    assert lyrics + "/" + (stem + ".lrc") == dir + "/Lyrics/" + (stem + ".lrc");
  }

  /** The first candidate that is an existing file. */
  function FirstExisting(candidates: seq<String>, files: set<String>): (r: Option<String>)
    ensures r.Some? ==> r.value in files
    decreases |candidates|
  {
    if candidates == [] then None
    else if candidates[0] in files then Some(candidates[0])
    else FirstExisting(candidates[1..], files)
  }

  /** Candidate i exists and none before it does. */
  predicate FirstAt(candidates: seq<String>, files: set<String>, i: int)
  {
    0 <= i < |candidates| && candidates[i] in files && forall j :: 0 <= j < i ==> candidates[j] !in files
  }

  /** The search yields the earliest existing candidate, and nothing only when
      no candidate exists. */
  lemma {:induction false} FirstExistingIsFirst(candidates: seq<String>, files: set<String>)
    ensures FirstExisting(candidates, files).None? <==> forall k :: 0 <= k < |candidates| ==> candidates[k] !in files
    ensures FirstExisting(candidates, files).Some? ==>
      exists i :: FirstAt(candidates, files, i) && candidates[i] == FirstExisting(candidates, files).value
    decreases |candidates|
  {
    if candidates != [] && candidates[0] !in files {
      var rest := candidates[1..];
      FirstExistingIsFirst(rest, files);
      assert forall k :: 1 <= k < |candidates| ==> candidates[k] == rest[k - 1];
      if FirstExisting(rest, files).Some? {
        var i :| FirstAt(rest, files, i) && rest[i] == FirstExisting(rest, files).value;
        assert FirstAt(candidates, files, i + 1);
      }
    } else if candidates != [] {
      assert FirstAt(candidates, files, 0);
    }
  }

  /** `find_lrc`: the lyrics beside the file win over those in "Lyrics";
      None when neither exists. */
  lemma LrcPreference(audioPath: String, files: set<String>)
    ensures var c := LrcCandidates(audioPath);
            && (c[0] in files ==> FirstExisting(c, files) == Some(c[0]))
            && (c[0] !in files && c[1] in files ==> FirstExisting(c, files) == Some(c[1]))
            && (c[0] !in files && c[1] !in files ==> FirstExisting(c, files) == None)
  {
    var c := LrcCandidates(audioPath);
    var rest := c[1..];
    assert rest[0] == c[1] && rest[1..] == [];
    assert FirstExisting(c, files) == if c[0] in files then Some(c[0]) else FirstExisting(rest, files);
    assert FirstExisting(rest, files) == if c[1] in files then Some(c[1]) else FirstExisting(rest[1..], files);
  }

  /** `find_lrc` over the set of existing files. */
  method FindLrc(audioPath: String, files: set<String>) returns (r: Option<String>)
    ensures r == FirstExisting(LrcCandidates(audioPath), files)
  {
    r := FindFirst(LrcCandidates(audioPath), files);
  }

  /** The loop of `find_lrc`: the first candidate that exists. */
  method FindFirst(candidates: seq<String>, files: set<String>) returns (r: Option<String>)
    ensures r == FirstExisting(candidates, files)
  {
    var i := 0;
    while i < |candidates|
      invariant i <= |candidates|
      invariant FirstExisting(candidates[i..], files) == FirstExisting(candidates, files)
    {
      if candidates[i] in files {
        return Some(candidates[i]);
      }
      assert candidates[i..][1..] == candidates[i + 1..];
      i := i + 1;
    }
    return None;
  }

  // ---------------------------------------------------------------------------
  // `describe_folder`: letter, artist and album from the last path parts

  function DescribeFolder(folder: String): (r: (String, String, String))
    ensures Paths.Excludes(r.0, '/') && Paths.Excludes(r.1, '/') && Paths.Excludes(r.2, '/')
  {
    var parts := Paths.SplitOn(Paths.StripChar(folder, '/'), '/');
    var n := |parts|;
    if n >= 3 then (parts[n - 3], parts[n - 2], parts[n - 1])
    else if n >= 2 then (parts[n - 2], parts[n - 1], "")
    else ("", parts[n - 1], "")
  }

  /** ".../letter/artist/album" is described by its last three components,
      whatever comes before them. */
  lemma DescribeAlbumPath(d: String, l: String, a: String, b: String)
    requires l != [] && a != [] && b != []
    requires Paths.Excludes(l, '/') && Paths.Excludes(a, '/') && Paths.Excludes(b, '/')
    ensures DescribeFolder(d + "/" + l + "/" + a + "/" + b) == (l, a, b)
  {
    var tail := l + "/" + a + "/" + b;
    var p := d + "/" + l + "/" + a + "/" + b;
    Regroup(d, [], l, a, b);
    var pre := StripBeforeTail(p, d, tail);
    var init := PartsOf(pre, tail, l, a, b);
    var q := Paths.StripChar(p, '/');
    assert q == pre + tail;
    assert Paths.SplitOn(q, '/') == Paths.SplitOn(pre + tail, '/');
    DescribeFromParts(p, init, l, a, b);
  }

  lemma DescribeFromParts(p: String, init: seq<String>, l: String, a: String, b: String)
    requires init != [] && init[|init| - 1] == l
    requires Paths.SplitOn(Paths.StripChar(p, '/'), '/') == init + [a] + [b]
    ensures DescribeFolder(p) == (l, a, b)
  {
  }

  /** The pieces of pre + "l/a/b" end with l, a and b. */
  lemma PartsOf(pre: String, tail: String, l: String, a: String, b: String) returns (init: seq<String>)
    requires tail == l + "/" + a + "/" + b
    requires Paths.Excludes(l, '/') && Paths.Excludes(a, '/') && Paths.Excludes(b, '/')
    requires pre == [] || pre[|pre| - 1] == '/'
    ensures init != [] && init[|init| - 1] == l
    ensures Paths.SplitOn(pre + tail, '/') == init + [a] + [b]
  {
    var x := pre + l;
    var y := x + "/" + a;
    Regroup([], pre, l, a, b);
    Paths.SplitOnSnoc(y, b, '/');
    Paths.SplitOnSnoc(x, a, '/');
    SplitOnAfterSeparator(pre, l);
    init := Paths.SplitOn(x, '/');
  }

  lemma Regroup(d: String, pre: String, l: String, a: String, b: String)
    ensures d + "/" + l + "/" + a + "/" + b == d + "/" + (l + "/" + a + "/" + b)
    ensures pre + (l + "/" + a + "/" + b) == ((pre + l) + "/" + a) + ['/'] + b
    ensures (pre + l) + "/" + a == (pre + l) + ['/'] + a
  {
  }

  /** Stripping the slashes of d + "/" + tail, when tail neither starts nor
      ends with one, leaves tail behind nothing or behind a '/'. */
  lemma StripBeforeTail(p: String, d: String, tail: String) returns (pre: String)
    requires p == d + "/" + tail
    requires tail != [] && tail[0] != '/' && tail[|tail| - 1] != '/'
    ensures Paths.StripChar(p, '/') == pre + tail
    ensures pre == [] || pre[|pre| - 1] == '/'
  {
    var q := Paths.LStripChar(p, '/');
    var m := |p| - |q|;
    assert p[|d| + 1] == tail[0];
    assert m <= |d| + 1;
    pre := p[m..|d| + 1];
    assert p[m..] == p[m..|d| + 1] + p[|d| + 1..];
    assert p[|d| + 1..] == tail;
    assert q == pre + tail;
    assert q[|q| - 1] == tail[|tail| - 1];
  }

  /** The last piece of pre + l is l when pre is empty or ends with '/'. */
  lemma SplitOnAfterSeparator(pre: String, l: String)
    requires Paths.Excludes(l, '/')
    requires pre == [] || pre[|pre| - 1] == '/'
    ensures var r := Paths.SplitOn(pre + l, '/'); r[|r| - 1] == l
  {
    if pre == [] {
      assert pre + l == l;
      Paths.SplitOnNone(l, '/');
    } else {
      var pre' := pre[..|pre| - 1];
      assert pre + l == pre' + ['/'] + l;
      Paths.SplitOnSnoc(pre', l, '/');
    }
  }

  /** "artist/album" has no letter part. */
  lemma DescribeTwoParts(a: String, b: String)
    requires a != [] && b != [] && Paths.Excludes(a, '/') && Paths.Excludes(b, '/')
    ensures DescribeFolder(a + "/" + b) == (a, b, "")
  {
    var p := a + "/" + b;
    assert p[0] == a[0] && p[|p| - 1] == b[|b| - 1];
    StripUnslashed(p);
    assert p == a + ['/'] + b;
    Paths.SplitOnSnoc(a, b, '/');
    Paths.SplitOnNone(a, '/');
    assert Paths.SplitOn(p, '/') == [a] + [b];
    DescribeFromTwo(p, a, b);
  }

  lemma StripUnslashed(p: String)
    requires p == [] || (p[0] != '/' && p[|p| - 1] != '/')
    ensures Paths.StripChar(p, '/') == p
  {
  }

  lemma DescribeFromTwo(p: String, a: String, b: String)
    requires Paths.StripChar(p, '/') == p && Paths.SplitOn(p, '/') == [a] + [b]
    ensures DescribeFolder(p) == (a, b, "")
  {
  }

  /** A single name is the artist part. */
  lemma DescribeOnePart(b: String)
    requires Paths.Excludes(b, '/')
    ensures DescribeFolder(b) == ("", b, "")
  {
    assert Paths.StripChar(b, '/') == b;
    Paths.SplitOnNone(b, '/');
  }

  // ---------------------------------------------------------------------------
  // The counters of `scan_archive`

  /** `AUDIO_EXTS`, compared on the lower-cased name. */
  predicate IsAudio(name: String)
  {
    EndsWith(Lower(name), ".flac") || EndsWith(Lower(name), ".mp3")
  }

  /** What the tag library and the file system answer, as given sets of
      paths: audio files that already carry lyrics, `.lrc` files that cannot
      be read, audio files whose tags cannot be saved, `.lrc` files that
      cannot be removed, and "Lyrics" folders that cannot be removed. */
  datatype World = World(tagged: set<String>, unreadable: set<String>, unwritable: set<String>,
                         undeletable: set<String>, stuck: set<String>)

  /** The counters, the files named by the "Embedded lyrics into" lines, and
      the existing files and folders. */
  datatype Run = Run(total: nat, embedded: nat, already: nat, lrcDeleted: nat,
                     embeddedFiles: seq<String>, files: set<String>, dirs: set<String>)

  /** `embed_lyrics`: reading the `.lrc` may fail; a dry run stops there with
      success; otherwise writing the tags may fail. */
  predicate EmbedSucceeds(audio: String, lrc: String, dryRun: bool, w: World)
  {
    lrc !in w.unreadable && (dryRun || audio !in w.unwritable)
  }

  /** One audio file, given the `.lrc` file `find_lrc` found for it. */
  function AudioStep(r: Run, audio: String, lrc: Option<String>, dryRun: bool, w: World): Run
  {
    if audio in w.tagged then
      Run(r.total + 1, r.embedded, r.already + 1, r.lrcDeleted, r.embeddedFiles, r.files, r.dirs)
    else if lrc.None? || !EmbedSucceeds(audio, lrc.value, dryRun, w) then
      Run(r.total + 1, r.embedded, r.already, r.lrcDeleted, r.embeddedFiles, r.files, r.dirs)
    else if dryRun || lrc.value in w.undeletable then
      Run(r.total + 1, r.embedded + 1, r.already, r.lrcDeleted, r.embeddedFiles + [audio], r.files, r.dirs)
    else
      Run(r.total + 1, r.embedded + 1, r.already, r.lrcDeleted + 1, r.embeddedFiles + [audio], r.files - {lrc.value}, r.dirs)
  }

  /** One name of a folder's listing. */
  function FileStep(r: Run, folder: String, name: String, dryRun: bool, w: World): Run
  {
    if !IsAudio(name) then r
    else
      var audio := Paths.Join(folder, name);
      AudioStep(r, audio, FirstExisting(LrcCandidates(audio), r.files), dryRun, w)
  }

  function FilesRun(r: Run, folder: String, names: seq<String>, dryRun: bool, w: World): Run
    decreases |names|
  {
    if names == [] then r
    else FileStep(FilesRun(r, folder, names[..|names| - 1], dryRun, w), folder, names[|names| - 1], dryRun, w)
  }

  lemma FilesRunSnoc(r: Run, folder: String, names: seq<String>, i: nat, dryRun: bool, w: World)
    requires i < |names|
    ensures FilesRun(r, folder, names[..i + 1], dryRun, w)
            == FileStep(FilesRun(r, folder, names[..i], dryRun, w), folder, names[i], dryRun, w)
  {
    assert names[..i + 1][..i] == names[..i];
  }

  /** Nothing is left in folder d. */
  predicate EmptyDir(d: String, r: Run)
  {
    (forall f :: f in r.files ==> Paths.Dirname(f) != d) && (forall e :: e in r.dirs ==> Paths.Dirname(e) != d)
  }

  /** After the files: an existing, empty "Lyrics" folder is removed, unless
      this is a dry run. */
  function LyricsStep(r: Run, folder: String, dryRun: bool, w: World): Run
  {
    var lyrics := Paths.Join(folder, "Lyrics");
    if lyrics in r.dirs && EmptyDir(lyrics, r) && !dryRun && lyrics !in w.stuck then r.(dirs := r.dirs - {lyrics})
    else r
  }

  // ---------------------------------------------------------------------------
  // `sorted`: Python orders strings by comparing their code points in turn

  /** a sorts before b or equals it. */
  predicate NameLe(a: String, b: String)
    decreases |a|
  {
    a == [] || (b != [] && (a[0] < b[0] || (a[0] == b[0] && NameLe(a[1..], b[1..]))))
  }

  /** Any two names are ordered one way or the other. */
  lemma {:induction false} NameLeTotal(a: String, b: String)
    ensures NameLe(a, b) || NameLe(b, a)
    decreases |a|
  {
    if a != [] && b != [] && a[0] == b[0] {
      NameLeTotal(a[1..], b[1..]);
    }
  }

  /** Names ordered one way and the other are equal. */
  lemma {:induction false} NameLeAntisymmetric(a: String, b: String)
    requires NameLe(a, b) && NameLe(b, a)
    ensures a == b
    decreases |a|
  {
    if a != [] {
      NameLeAntisymmetric(a[1..], b[1..]);
      assert a == [a[0]] + a[1..] && b == [b[0]] + b[1..];
    }
  }

  predicate Ascending(names: seq<String>)
  {
    forall i :: 0 < i < |names| ==> NameLe(names[i - 1], names[i])
  }

  /** x put before the first name it sorts before. */
  function Insert(x: String, names: seq<String>): (r: seq<String>)
    ensures |r| == |names| + 1
    ensures r[0] == x || (names != [] && r[0] == names[0])
    decreases |names|
  {
    if names == [] || NameLe(x, names[0]) then [x] + names
    else [names[0]] + Insert(x, names[1..])
  }

  /** `sorted(names)`. */
  function SortNames(names: seq<String>): seq<String>
    decreases |names|
  {
    if names == [] then [] else Insert(names[0], SortNames(names[1..]))
  }

  lemma {:induction false} InsertProperties(x: String, names: seq<String>)
    requires Ascending(names)
    ensures Ascending(Insert(x, names)) && multiset(Insert(x, names)) == multiset(names) + multiset{x}
    decreases |names|
  {
    if names != [] && !NameLe(x, names[0]) {
      var rest := Insert(x, names[1..]);
      InsertProperties(x, names[1..]);
      NameLeTotal(x, names[0]);
      assert names == [names[0]] + names[1..];
      var r := [names[0]] + rest;
      forall i | 0 < i < |r| ensures NameLe(r[i - 1], r[i]) {
        if i > 1 {
          assert r[i - 1] == rest[i - 2] && r[i] == rest[i - 1];
        }
      }
    }
  }

  /** The sorted listing holds the same names, in ascending order. */
  lemma {:induction false} SortNamesProperties(names: seq<String>)
    ensures Ascending(SortNames(names)) && multiset(SortNames(names)) == multiset(names)
    decreases |names|
  {
    if names != [] {
      SortNamesProperties(names[1..]);
      InsertProperties(names[0], SortNames(names[1..]));
      assert names == [names[0]] + names[1..];
    }
  }

  /** The listing is walked in code-point order: "x.flac" is done before
      "x.mp3" whatever order the listing gives. */
  lemma SortedListingExample()
    ensures SortNames(["x.mp3", "x.flac"]) == ["x.flac", "x.mp3"]
  {
    assert !NameLe("x.mp3", "x.flac") by {
      assert "x.mp3"[1..] == ".mp3" && "x.flac"[1..] == ".flac";
      assert ".mp3"[1..] == "mp3" && ".flac"[1..] == "flac";
    }
    assert NameLe("x.flac", "x.mp3") by {
      assert "x.flac"[1..] == ".flac" && "x.mp3"[1..] == ".mp3";
      assert ".flac"[1..] == "flac" && ".mp3"[1..] == "mp3";
    }
  }

  /** A folder of the walk: its path, the names of the regular files the walk
      reports in it, and what listing it returns (sub-folders included, in no
      particular order). */
  datatype WalkDir = WalkDir(path: String, filenames: seq<String>, listing: seq<String>)

  predicate HasAudio(d: WalkDir)
  {
    exists k :: 0 <= k < |d.filenames| && IsAudio(d.filenames[k])
  }

  /** The folders the scan visits, in walk order. */
  function AudioFolders(walk: seq<WalkDir>): (r: seq<WalkDir>)
    ensures forall d :: d in r <==> d in walk && HasAudio(d)
    decreases |walk|
  {
    if walk == [] then []
    else
      var init := AudioFolders(walk[..|walk| - 1]);
      var d := walk[|walk| - 1];
      assert walk == walk[..|walk| - 1] + [d];
      init + (if HasAudio(d) then [d] else [])
  }

  function FoldersRun(r: Run, folders: seq<WalkDir>, dryRun: bool, w: World): Run
    decreases |folders|
  {
    if folders == [] then r
    else
      var d := folders[|folders| - 1];
      LyricsStep(FilesRun(FoldersRun(r, folders[..|folders| - 1], dryRun, w), d.path, SortNames(d.listing), dryRun, w), d.path, dryRun, w)
  }

  lemma FoldersRunSnoc(r: Run, folders: seq<WalkDir>, j: nat, dryRun: bool, w: World)
    requires j < |folders|
    ensures var d := folders[j];
            FoldersRun(r, folders[..j + 1], dryRun, w)
            == LyricsStep(FilesRun(FoldersRun(r, folders[..j], dryRun, w), d.path, SortNames(d.listing), dryRun, w), d.path, dryRun, w)
  {
    assert folders[..j + 1][..j] == folders[..j];
  }

  function Start(files: set<String>, dirs: set<String>): Run
  {
    Run(0, 0, 0, 0, [], files, dirs)
  }

  function ScanRun(walk: seq<WalkDir>, dryRun: bool, w: World, files: set<String>, dirs: set<String>): Run
  {
    FoldersRun(Start(files, dirs), AudioFolders(walk), dryRun, w)
  }

  /** The body of the per-file loop. */
  method ProcessFile(r0: Run, folder: String, name: String, dryRun: bool, w: World) returns (r: Run)
    ensures r == FileStep(r0, folder, name, dryRun, w)
  {
    if !IsAudio(name) {
      return r0;
    }
    var audio := Paths.Join(folder, name);
    var lrc := FindLrc(audio, r0.files);
    r := ProcessAudio(r0, audio, lrc, dryRun, w);
  }

  /** One audio file with the `.lrc` file found for it. */
  method ProcessAudio(r0: Run, audio: String, lrc: Option<String>, dryRun: bool, w: World) returns (r: Run)
    ensures r == AudioStep(r0, audio, lrc, dryRun, w)
  {
    var Run(total, embedded, already, lrcDeleted, embeddedFiles, files, dirs) := r0;
    total := total + 1;
    if audio in w.tagged {
      already := already + 1;
    } else if lrc.Some? && EmbedSucceeds(audio, lrc.value, dryRun, w) {
      embedded := embedded + 1;
      embeddedFiles := embeddedFiles + [audio];
      if !dryRun && lrc.value !in w.undeletable {
        lrcDeleted := lrcDeleted + 1;
        files := files - {lrc.value};
      }
    }
    r := Run(total, embedded, already, lrcDeleted, embeddedFiles, files, dirs);
  }

  /** The per-file loop of one folder, over its sorted listing. */
  method ProcessFolder(r0: Run, folder: String, listing: seq<String>, dryRun: bool, w: World) returns (r: Run)
    ensures r == FilesRun(r0, folder, SortNames(listing), dryRun, w)
  {
    var names := SortNames(listing);
    r := r0;
    var i := 0;
    while i < |names|
      invariant i <= |names|
      invariant r == FilesRun(r0, folder, names[..i], dryRun, w)
    {
      FilesRunSnoc(r0, folder, names, i, dryRun, w);
      r := ProcessFile(r, folder, names[i], dryRun, w);
      i := i + 1;
    }
    assert names[..i] == names;
  }

  /** `scan_archive`: collect the folders holding audio files, then process
      each and remove its emptied "Lyrics" folder. */
  method ScanArchive(walk: seq<WalkDir>, dryRun: bool, w: World, files: set<String>, dirs: set<String>) returns (r: Run)
    ensures r == ScanRun(walk, dryRun, w, files, dirs)
  {
    var folders := CollectFolders(walk);
    r := Start(files, dirs);
    var j := 0;
    while j < |folders|
      invariant j <= |folders|
      invariant r == FoldersRun(Start(files, dirs), folders[..j], dryRun, w)
    {
      FoldersRunSnoc(Start(files, dirs), folders, j, dryRun, w);
      var d := folders[j];
      r := ProcessFolder(r, d.path, d.listing, dryRun, w);
      r := RemoveEmptyLyrics(r, d.path, dryRun, w);
      j := j + 1;
    }
    assert folders[..j] == folders;
  }

  /** The first pass of the walk: the folders holding an audio file. */
  method CollectFolders(walk: seq<WalkDir>) returns (folders: seq<WalkDir>)
    ensures folders == AudioFolders(walk)
  {
    folders := [];
    var i := 0;
    while i < |walk|
      invariant i <= |walk|
      invariant folders == AudioFolders(walk[..i])
    {
      assert walk[..i + 1][..i] == walk[..i];
      var audio := FolderHasAudio(walk[i]);
      if audio {
        folders := folders + [walk[i]];
      }
      i := i + 1;
    }
    assert walk[..i] == walk;
  }

  /** `any(is_audio_file(f) for f in files)`. */
  method FolderHasAudio(d: WalkDir) returns (audio: bool)
    ensures audio == HasAudio(d)
  {
    audio := false;
    var k := 0;
    while k < |d.filenames|
      invariant k <= |d.filenames|
      invariant audio <==> exists j :: 0 <= j < k && IsAudio(d.filenames[j])
    {
      audio := audio || IsAudio(d.filenames[k]);
      k := k + 1;
    }
  }

  /** Removing the folder's "Lyrics" sub-folder once it is empty. */
  method RemoveEmptyLyrics(r0: Run, folder: String, dryRun: bool, w: World) returns (r: Run)
    ensures r == LyricsStep(r0, folder, dryRun, w)
  {
    r := r0;
    var lyrics := Paths.Join(folder, "Lyrics");
    if lyrics in r.dirs && EmptyDir(lyrics, r) && !dryRun && lyrics !in w.stuck {
      r := r.(dirs := r.dirs - {lyrics});
    }
  }

  // ---------------------------------------------------------------------------
  // What the scan keeps true

  /** What holds of a run that started from the given files and folders:
      the counters are consistent, no file that already had lyrics was
      embedded into, only `.lrc` files and "Lyrics" folders disappear, each
      deleted `.lrc` file counted once, and a dry run changes nothing. */
  predicate Keeps(r: Run, files0: set<String>, dirs0: set<String>, dryRun: bool, w: World)
  {
    && r.lrcDeleted <= r.embedded && r.embedded + r.already <= r.total && r.embedded == |r.embeddedFiles|
    && (forall f :: f in r.embeddedFiles ==> f !in w.tagged)
    && r.files <= files0 && r.dirs <= dirs0 && |r.files| + r.lrcDeleted == |files0|
    && (forall f :: f in files0 && f !in r.files ==> EndsWith(f, ".lrc"))
    && (forall d :: d in dirs0 && d !in r.dirs ==> EndsWith(d, "Lyrics"))
    && (dryRun ==> r.lrcDeleted == 0 && r.files == files0 && r.dirs == dirs0)
  }

  lemma EndsWithTail(s: String, x: String, y: String)
    requires EndsWith(s, x + y)
    ensures EndsWith(s, y)
  {
    assert s[|s| - |y|..] == s[|s| - |x + y|..][|x|..];
  }

  /** Both candidates are `.lrc` files. */
  lemma CandidatesAreLrc(audioPath: String)
    ensures forall c :: c in LrcCandidates(audioPath) ==> EndsWith(c, ".lrc")
  {
    var base := Paths.Root(Paths.Basename(audioPath));
    var folder := Paths.Dirname(audioPath);
    Paths.JoinEndsWith(folder, base + ".lrc");
    EndsWithTail(Paths.Join(folder, base + ".lrc"), base, ".lrc");
    Paths.JoinEndsWith(Paths.Join(folder, "Lyrics"), base + ".lrc");
    EndsWithTail(Paths.Join(Paths.Join(folder, "Lyrics"), base + ".lrc"), base, ".lrc");
  }

  lemma {:induction false} FirstExistingIn(candidates: seq<String>, files: set<String>)
    ensures FirstExisting(candidates, files).Some? ==> FirstExisting(candidates, files).value in candidates
    decreases |candidates|
  {
    if candidates != [] && candidates[0] !in files {
      FirstExistingIn(candidates[1..], files);
    }
  }

  lemma AudioStepKeeps(r: Run, audio: String, lrc: Option<String>, files0: set<String>, dirs0: set<String>, dryRun: bool, w: World)
    requires Keeps(r, files0, dirs0, dryRun, w)
    requires lrc.Some? ==> lrc.value in r.files && EndsWith(lrc.value, ".lrc")
    ensures Keeps(AudioStep(r, audio, lrc, dryRun, w), files0, dirs0, dryRun, w)
  {
    var r' := AudioStep(r, audio, lrc, dryRun, w);
    if r'.files != r.files {
      assert r'.files == r.files - {lrc.value};
      assert |r'.files| == |r.files| - 1;
    }
  }

  lemma FileStepKeeps(r: Run, folder: String, name: String, files0: set<String>, dirs0: set<String>, dryRun: bool, w: World)
    requires Keeps(r, files0, dirs0, dryRun, w)
    ensures Keeps(FileStep(r, folder, name, dryRun, w), files0, dirs0, dryRun, w)
  {
    if IsAudio(name) {
      var audio := Paths.Join(folder, name);
      var lrc := FirstExisting(LrcCandidates(audio), r.files);
      FirstExistingIn(LrcCandidates(audio), r.files);
      CandidatesAreLrc(audio);
      AudioStepKeeps(r, audio, lrc, files0, dirs0, dryRun, w);
    }
  }

  lemma {:induction false} FilesRunKeeps(r: Run, folder: String, names: seq<String>, files0: set<String>, dirs0: set<String>, dryRun: bool, w: World)
    requires Keeps(r, files0, dirs0, dryRun, w)
    ensures Keeps(FilesRun(r, folder, names, dryRun, w), files0, dirs0, dryRun, w)
    decreases |names|
  {
    if names != [] {
      FilesRunKeeps(r, folder, names[..|names| - 1], files0, dirs0, dryRun, w);
      FileStepKeeps(FilesRun(r, folder, names[..|names| - 1], dryRun, w), folder, names[|names| - 1], files0, dirs0, dryRun, w);
    }
  }

  lemma LyricsStepKeeps(r: Run, folder: String, files0: set<String>, dirs0: set<String>, dryRun: bool, w: World)
    requires Keeps(r, files0, dirs0, dryRun, w)
    ensures Keeps(LyricsStep(r, folder, dryRun, w), files0, dirs0, dryRun, w)
  {
    Paths.JoinEndsWith(folder, "Lyrics");
  }

  lemma {:induction false} FoldersRunKeeps(r: Run, folders: seq<WalkDir>, files0: set<String>, dirs0: set<String>, dryRun: bool, w: World)
    requires Keeps(r, files0, dirs0, dryRun, w)
    ensures Keeps(FoldersRun(r, folders, dryRun, w), files0, dirs0, dryRun, w)
    decreases |folders|
  {
    if folders != [] {
      var d := folders[|folders| - 1];
      var r1 := FoldersRun(r, folders[..|folders| - 1], dryRun, w);
      FoldersRunKeeps(r, folders[..|folders| - 1], files0, dirs0, dryRun, w);
      FilesRunKeeps(r1, d.path, SortNames(d.listing), files0, dirs0, dryRun, w);
      LyricsStepKeeps(FilesRun(r1, d.path, SortNames(d.listing), dryRun, w), d.path, files0, dirs0, dryRun, w);
    }
  }

  /** The scan's promises: `lrc_deleted <= embedded`; files that already had
      lyrics are counted as such and never embedded into; only `.lrc` files
      (one per deletion counted) and "Lyrics" folders are removed; a dry run
      removes nothing. */
  lemma ScanProperties(walk: seq<WalkDir>, dryRun: bool, w: World, files: set<String>, dirs: set<String>)
    ensures var r := ScanRun(walk, dryRun, w, files, dirs);
            && r.lrcDeleted <= r.embedded && r.embedded + r.already <= r.total
            && r.embedded == |r.embeddedFiles| && (forall f :: f in r.embeddedFiles ==> f !in w.tagged)
            && r.files <= files && |files - r.files| == r.lrcDeleted
            && (forall f :: f in files - r.files ==> EndsWith(f, ".lrc"))
            && r.dirs <= dirs && (forall d :: d in dirs - r.dirs ==> EndsWith(d, "Lyrics"))
            && (dryRun ==> r.lrcDeleted == 0 && r.files == files && r.dirs == dirs)
  {
    FoldersRunKeeps(Start(files, dirs), AudioFolders(walk), files, dirs, dryRun, w);
    var r := ScanRun(walk, dryRun, w, files, dirs);
    assert files == r.files + (files - r.files) && r.files !! (files - r.files);
  }

  function CountAudio(names: seq<String>): nat
    decreases |names|
  {
    if names == [] then 0 else CountAudio(names[..|names| - 1]) + (if IsAudio(names[|names| - 1]) then 1 else 0)
  }

  function AudioInFolders(folders: seq<WalkDir>): nat
    decreases |folders|
  {
    if folders == [] then 0 else AudioInFolders(folders[..|folders| - 1]) + CountAudio(folders[|folders| - 1].listing)
  }

  lemma FileStepTotal(r: Run, folder: String, name: String, dryRun: bool, w: World)
    ensures FileStep(r, folder, name, dryRun, w).total == r.total + (if IsAudio(name) then 1 else 0)
  {
    if IsAudio(name) {
      var audio := Paths.Join(folder, name);
      AudioStepTotal(r, audio, FirstExisting(LrcCandidates(audio), r.files), dryRun, w);
    }
  }

  lemma AudioStepTotal(r: Run, audio: String, lrc: Option<String>, dryRun: bool, w: World)
    ensures AudioStep(r, audio, lrc, dryRun, w).total == r.total + 1
  {
  }

  lemma {:induction false} FilesRunTotal(r: Run, folder: String, names: seq<String>, dryRun: bool, w: World)
    ensures FilesRun(r, folder, names, dryRun, w).total == r.total + CountAudio(names)
    decreases |names|
  {
    if names != [] {
      FilesRunTotal(r, folder, names[..|names| - 1], dryRun, w);
      FileStepTotal(FilesRun(r, folder, names[..|names| - 1], dryRun, w), folder, names[|names| - 1], dryRun, w);
    }
  }

  lemma {:induction false} FoldersRunTotal(r: Run, folders: seq<WalkDir>, dryRun: bool, w: World)
    ensures FoldersRun(r, folders, dryRun, w).total == r.total + AudioInFolders(folders)
    decreases |folders|
  {
    if folders != [] {
      var d := folders[|folders| - 1];
      FoldersRunTotal(r, folders[..|folders| - 1], dryRun, w);
      FilesRunTotal(FoldersRun(r, folders[..|folders| - 1], dryRun, w), d.path, SortNames(d.listing), dryRun, w);
      CountAudioSorted(d.listing);
    }
  }

  /** Sorting keeps the number of audio names. */
  lemma {:induction false} CountAudioSorted(names: seq<String>)
    ensures CountAudio(SortNames(names)) == CountAudio(names)
    decreases |names|
  {
    if names != [] {
      CountAudioSorted(names[1..]);
      CountAudioInsert(names[0], SortNames(names[1..]));
      CountAudioConcat([names[0]], names[1..]);
      assert names == [names[0]] + names[1..];
    }
  }

  lemma {:induction false} CountAudioInsert(x: String, names: seq<String>)
    ensures CountAudio(Insert(x, names)) == CountAudio([x]) + CountAudio(names)
    decreases |names|
  {
    if names == [] || NameLe(x, names[0]) {
      CountAudioConcat([x], names);
    } else {
      CountAudioInsert(x, names[1..]);
      CountAudioConcat([names[0]], Insert(x, names[1..]));
      CountAudioConcat([names[0]], names[1..]);
      assert names == [names[0]] + names[1..];
    }
  }

  lemma {:induction false} CountAudioConcat(a: seq<String>, b: seq<String>)
    ensures CountAudio(a + b) == CountAudio(a) + CountAudio(b)
    decreases |b|
  {
    if b != [] {
      var init := b[..|b| - 1];
      CountAudioConcat(a, init);
      assert (a + b)[..|a + b| - 1] == a + init;
    } else {
      assert a + b == a;
    }
  }

  /** "Audio files scanned" counts every audio name of every visited folder. */
  lemma ScanTotal(walk: seq<WalkDir>, dryRun: bool, w: World, files: set<String>, dirs: set<String>)
    ensures ScanRun(walk, dryRun, w, files, dirs).total == AudioInFolders(AudioFolders(walk))
  {
    FoldersRunTotal(Start(files, dirs), AudioFolders(walk), dryRun, w);
  }
}
