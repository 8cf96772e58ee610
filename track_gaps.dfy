// Track-number gap analysis of album folders (`TrackGapChecker`).

module TrackGaps {
  import opened Text
  import Paths

  // ---------------------------------------------------------------------------
  // `extract_track_number`: re.match(r"^(\d{1,2})[.\-_\s]", filename)

  predicate IsTrackSep(c: char)
  {
    c == '.' || c == '-' || c == '_' || IsSpace(c)
  }

  function DigitValue(c: char): nat
    requires IsDigit(c)
    ensures DigitValue(c) < 10
  {
    c as int - '0' as int
  }

  function DigitChar(d: nat): (c: char)
    requires d < 10
    ensures IsDigit(c) && DigitValue(c) == d
  {
    ('0' as int + d) as char
  }

  /** One or two leading digits followed by a separator; the greedy `\d{1,2}`
      takes two digits whenever the third character is a separator, and with
      one digit the second character must be the separator. */
  function ExtractTrackNumber(name: String): (r: Option<nat>)
    ensures r.Some? ==> r.value < 100
  {
    if |name| >= 3 && IsDigit(name[0]) && IsDigit(name[1]) && IsTrackSep(name[2]) then
      Some(10 * DigitValue(name[0]) + DigitValue(name[1]))
    else if |name| >= 2 && IsDigit(name[0]) && IsTrackSep(name[1]) then
      Some(DigitValue(name[0]))
    else None
  }

  /** The two-digit form "%02d" of a number below 100. */
  function TwoDigits(n: nat): String
    requires n < 100
  {
    [DigitChar(n / 10), DigitChar(n % 10)]
  }

  /** A name numbered "NN<sep>..." or "N<sep>..." reads back as that number. */
  lemma ExtractOfNumbered(n: nat, sep: char, rest: String)
    requires n < 100 && IsTrackSep(sep)
    ensures ExtractTrackNumber(TwoDigits(n) + [sep] + rest) == Some(n)
    ensures n < 10 ==> ExtractTrackNumber([DigitChar(n), sep] + rest) == Some(n)
  {
    var name := TwoDigits(n) + [sep] + rest;
    assert name[0] == DigitChar(n / 10) && name[1] == DigitChar(n % 10) && name[2] == sep;
    if n < 10 {
      var short := [DigitChar(n), sep] + rest;
      assert short[0] == DigitChar(n) && short[1] == sep;
      assert !IsDigit(sep);
    }
  }

  /** Conversely, a number is read only from such a prefix. */
  lemma ExtractIsNumbered(name: String)
    requires ExtractTrackNumber(name).Some?
    ensures var n := ExtractTrackNumber(name).value;
            (|name| >= 3 && name[..2] == TwoDigits(n) && IsTrackSep(name[2]))
            || (n < 10 && |name| >= 2 && name[0] == DigitChar(n) && IsTrackSep(name[1]))
  {
    var n := ExtractTrackNumber(name).value;
    if |name| >= 3 && IsDigit(name[0]) && IsDigit(name[1]) && IsTrackSep(name[2]) {
      assert n / 10 == DigitValue(name[0]) && n % 10 == DigitValue(name[1]);
      assert name[..2] == [name[0], name[1]];
    }
  }

  // ---------------------------------------------------------------------------
  // `check_album_folder`

  /** A directory entry: its name and whether it is a regular file. */
  datatype Entry = Entry(name: String, isFile: bool)

  /** The track numbers of the regular, non-hidden files, in listing order. */
  function Numbers(entries: seq<Entry>): seq<nat>
    decreases |entries|
  {
    if entries == [] then []
    else
      var e := entries[|entries| - 1];
      var n := ExtractTrackNumber(e.name);
      Numbers(entries[..|entries| - 1]) + (if e.isFile && !Paths.Hidden(e.name) && n.Some? then [n.value] else [])
  }

  lemma {:induction false} NumbersMembers(entries: seq<Entry>)
    ensures forall n :: n in Numbers(entries) <==>
      exists i :: 0 <= i < |entries| && NumberedFile(entries[i], n)
    decreases |entries|
  {
    if entries != [] {
      var init := entries[..|entries| - 1];
      NumbersMembers(init);
      forall n ensures n in Numbers(entries) <==> exists i :: 0 <= i < |entries| && NumberedFile(entries[i], n) {
        if n in Numbers(init) {
          var i :| 0 <= i < |init| && NumberedFile(init[i], n);
          assert entries[i] == init[i];
        }
        if exists i :: 0 <= i < |entries| && NumberedFile(entries[i], n) {
          var i :| 0 <= i < |entries| && NumberedFile(entries[i], n);
          if i < |init| {
            assert init[i] == entries[i];
          }
        }
      }
    }
  }

  /** A regular, non-hidden file numbered n. */
  predicate NumberedFile(e: Entry, n: nat)
  {
    e.isFile && !Paths.Hidden(e.name) && ExtractTrackNumber(e.name) == Some(n)
  }

  /** The numbers in [lo, hi) that occur in s (keep = true) or do not (keep =
      false), in increasing order. */
  function Select(s: seq<nat>, lo: nat, hi: nat, keep: bool): seq<nat>
    decreases hi - lo
  {
    if lo >= hi then [] else (if (lo in s) == keep then [lo] else []) + Select(s, lo + 1, hi, keep)
  }

  predicate StrictlyAscending(xs: seq<nat>)
  {
    forall i, j :: 0 <= i < j < |xs| ==> xs[i] < xs[j]
  }

  lemma {:induction false} SelectProperties(s: seq<nat>, lo: nat, hi: nat, keep: bool)
    ensures forall x :: x in Select(s, lo, hi, keep) <==> lo <= x < hi && (x in s) == keep
    ensures StrictlyAscending(Select(s, lo, hi, keep))
    decreases hi - lo
  {
    if lo < hi {
      SelectProperties(s, lo + 1, hi, keep);
      var rest := Select(s, lo + 1, hi, keep);
      var r := (if (lo in s) == keep then [lo] else []) + rest;
      forall i, j | 0 <= i < j < |r| ensures r[i] < r[j] {
        if (lo in s) == keep {
          assert r[j] == rest[j - 1] && r[j] in rest;
          if i > 0 {
            assert r[i] == rest[i - 1];
          }
        } else {
          assert r == rest;
        }
      }
    }
  }

  /** The largest number of xs, or 0. */
  function MaxOf(xs: seq<nat>): (m: nat)
    ensures forall n :: n in xs ==> n <= m
  {
    if xs == [] then 0
    else
      var m := MaxOf(xs[..|xs| - 1]);
      assert xs == xs[..|xs| - 1] + [xs[|xs| - 1]];
      if xs[|xs| - 1] > m then xs[|xs| - 1] else m
  }

  /** `sorted(set(numbers))`. */
  function Tracks(numbers: seq<nat>): seq<nat>
  {
    Select(numbers, 0, MaxOf(numbers) + 1, true)
  }

  /** The sorted tracks list the distinct numbers found, smallest first. */
  lemma TracksProperties(numbers: seq<nat>)
    ensures StrictlyAscending(Tracks(numbers))
    ensures forall n :: n in Tracks(numbers) <==> n in numbers
    ensures numbers != [] <==> Tracks(numbers) != []
  {
    SelectProperties(numbers, 0, MaxOf(numbers) + 1, true);
    if numbers != [] {
      assert numbers[0] in numbers;
      assert numbers[0] in Tracks(numbers);
    } else {
      SelectOfEmpty(0, 1, true);
    }
  }

  lemma {:induction false} SelectOfEmpty(lo: nat, hi: nat, keep: bool)
    requires keep
    ensures Select([], lo, hi, keep) == []
    decreases hi - lo
  {
    if lo < hi {
      SelectOfEmpty(lo + 1, hi, keep);
    }
  }

  datatype Warning = DoesNotStartAtOne(first: nat) | OutOfOrder | Jump(from: nat, to: nat)

  /** The report of one album folder. */
  datatype Report = Report(folder: String, tracks: seq<nat>, missing: seq<nat>, warnings: seq<Warning>)

  predicate NonDecreasing(xs: seq<nat>)
  {
    forall i :: 0 < i < |xs| ==> xs[i - 1] <= xs[i]
  }

  /** One "Jump" warning per consecutive pair of xs[..n] more than 2 apart. */
  function JumpsUpTo(xs: seq<nat>, n: nat): seq<Warning>
    requires n <= |xs|
  {
    if n < 2 then []
    else JumpsUpTo(xs, n - 1) + (if xs[n - 1] > xs[n - 2] + 2 then [Jump(xs[n - 2], xs[n - 1])] else [])
  }

  /** The strict-mode warnings for the sorted track list. */
  function StrictWarnings(tracks: seq<nat>): seq<Warning>
  {
    (if tracks != [] && tracks[0] != 1 then [DoesNotStartAtOne(tracks[0])] else [])
    + (if !NonDecreasing(tracks) then [OutOfOrder] else [])
    + JumpsUpTo(tracks, |tracks|)
  }

  /** The numbers from the first track to the last that are not tracks. */
  function Missing(tracks: seq<nat>): seq<nat>
  {
    if tracks == [] then [] else Select(tracks, tracks[0], tracks[|tracks| - 1] + 1, false)
  }

  /** What `check_album_folder` reports for a folder with these entries. */
  function AlbumReport(folder: String, entries: seq<Entry>, strict: bool): Report
  {
    var numbers := Numbers(entries);
    if numbers == [] then Report(folder, [], [], [])
    else
      var tracks := Tracks(numbers);
      Report(folder, tracks, Missing(tracks), if strict then StrictWarnings(tracks) else [])
  }

  lemma {:induction false} NumbersBelow100(entries: seq<Entry>)
    ensures forall n :: n in Numbers(entries) ==> n < 100
    decreases |entries|
  {
    if entries != [] {
      NumbersBelow100(entries[..|entries| - 1]);
    }
  }

  /** The track numbers of the listing, in listing order. */
  method CollectNumbers(entries: seq<Entry>) returns (found: seq<nat>)
    ensures found == Numbers(entries)
  {
    found := [];
    var i := 0;
    while i < |entries|
      invariant i <= |entries|
      invariant found == Numbers(entries[..i])
    {
      var f := entries[i];
      assert entries[..i + 1][..i] == entries[..i];
      if f.isFile && !Paths.Hidden(f.name) {
        var num := ExtractTrackNumber(f.name);
        if num.Some? {
          found := found + [num.value];
        }
      }
      i := i + 1;
    }
    assert entries[..i] == entries;
  }

  /** The strict-mode checks over the sorted track list. */
  method CheckStrict(tracks: seq<nat>) returns (warnings: seq<Warning>)
    ensures warnings == StrictWarnings(tracks)
  {
    warnings := [];
    if tracks != [] && tracks[0] != 1 {
      warnings := warnings + [DoesNotStartAtOne(tracks[0])];
    }
    if !NonDecreasing(tracks) {
      warnings := warnings + [OutOfOrder];
    }
    var prefix := warnings;
    var k := 1;
    while k < |tracks|
      invariant 1 <= k <= |tracks| || (tracks == [] && k == 1)
      invariant warnings == prefix + JumpsUpTo(tracks, if tracks == [] then 0 else k)
    {
      if tracks[k] > tracks[k - 1] + 2 {
        warnings := warnings + [Jump(tracks[k - 1], tracks[k])];
      }
      k := k + 1;
    }
  }

  /** `check_album_folder` over a given listing. */
  method CheckAlbumFolder(folder: String, entries: seq<Entry>, strict: bool) returns (report: Report)
    ensures report == AlbumReport(folder, entries, strict)
  {
    var found := CollectNumbers(entries);
    if found == [] {
      return Report(folder, [], [], []);
    }
    var tracks := Tracks(found);
    var missing := Missing(tracks);
    var warnings: seq<Warning> := [];
    if strict {
      warnings := CheckStrict(tracks);
    }
    report := Report(folder, tracks, missing, warnings);
  }

  // ---------------------------------------------------------------------------
  // Properties of a folder report

  lemma {:induction false} NumbersOfUnnumbered(entries: seq<Entry>)
    requires forall i, n :: 0 <= i < |entries| ==> !NumberedFile(entries[i], n)
    ensures Numbers(entries) == []
    decreases |entries|
  {
    if entries != [] {
      var init := entries[..|entries| - 1];
      var e := entries[|entries| - 1];
      assert forall i :: 0 <= i < |init| ==> init[i] == entries[i];
      NumbersOfUnnumbered(init);
      if ExtractTrackNumber(e.name).Some? {
        assert !NumberedFile(e, ExtractTrackNumber(e.name).value);
      }
    }
  }

  /** A folder with no numbered regular, non-hidden file reports nothing. */
  lemma ReportOfUnnumbered(folder: String, entries: seq<Entry>, strict: bool)
    requires forall i, n :: 0 <= i < |entries| ==> !NumberedFile(entries[i], n)
    ensures AlbumReport(folder, entries, strict) == Report(folder, [], [], [])
  {
    NumbersOfUnnumbered(entries);
  }

  /** The tracks are the distinct numbers of the regular, non-hidden files,
      strictly ascending, and there are some exactly when such a file exists. */
  lemma ReportTracks(folder: String, entries: seq<Entry>, strict: bool)
    ensures var t := AlbumReport(folder, entries, strict).tracks;
            && StrictlyAscending(t)
            && forall n :: n in t <==> exists i :: 0 <= i < |entries| && NumberedFile(entries[i], n)
  {
    NumbersMembers(entries);
    TracksProperties(Numbers(entries));
  }

  /** The missing numbers are exactly those strictly between the first and
      last track that are not tracks: ascending, disjoint from the tracks, and
      together with them covering the whole range. */
  lemma MissingProperties(tracks: seq<nat>)
    requires tracks != [] && StrictlyAscending(tracks)
    ensures StrictlyAscending(Missing(tracks))
    ensures forall n :: n in Missing(tracks) <==> tracks[0] < n < tracks[|tracks| - 1] && n !in tracks
    ensures forall n :: tracks[0] <= n <= tracks[|tracks| - 1] <==> n in tracks || n in Missing(tracks)
  {
    SelectProperties(tracks, tracks[0], tracks[|tracks| - 1] + 1, false);
    forall n | n in tracks ensures tracks[0] <= n <= tracks[|tracks| - 1] {
      var i :| 0 <= i < |tracks| && tracks[i] == n;
    }
  }

  /** The report's missing list is that of its tracks. */
  lemma ReportMissing(folder: String, entries: seq<Entry>, strict: bool)
    ensures var r := AlbumReport(folder, entries, strict);
            r.missing == Missing(r.tracks) && (r.tracks == [] ==> r.missing == [])
  {
  }

  /** Every jump warning names two consecutive tracks more than 2 apart, and
      every such pair has its warning. */
  lemma {:induction false} JumpsAreJumps(xs: seq<nat>, n: nat)
    requires n <= |xs|
    ensures OutOfOrder !in JumpsUpTo(xs, n)
    ensures forall w :: w in JumpsUpTo(xs, n) <==>
      exists i :: 1 <= i < n && xs[i] > xs[i - 1] + 2 && w == Jump(xs[i - 1], xs[i])
    decreases n
  {
    if n >= 2 {
      JumpsAreJumps(xs, n - 1);
    }
  }

  /** Warnings appear only in strict mode: "does not start at 01" exactly when
      the first track is not 1, "out of order" never because the tracks are
      sorted, and then one jump per consecutive pair more than 2 apart. */
  lemma ReportWarnings(folder: String, entries: seq<Entry>, strict: bool)
    ensures var r := AlbumReport(folder, entries, strict);
            && (!strict ==> r.warnings == [])
            && (strict ==> r.warnings == (if r.tracks != [] && r.tracks[0] != 1 then [DoesNotStartAtOne(r.tracks[0])] else [])
                                        + JumpsUpTo(r.tracks, |r.tracks|))
  {
    if strict && Numbers(entries) != [] {
      TracksNonDecreasing(entries);
    }
  }

  /** So no report ever says "out of order". */
  lemma ReportNeverOutOfOrder(folder: String, entries: seq<Entry>, strict: bool)
    ensures OutOfOrder !in AlbumReport(folder, entries, strict).warnings
  {
    ReportWarnings(folder, entries, strict);
    var t := AlbumReport(folder, entries, strict).tracks;
    JumpsAreJumps(t, |t|);
  }

  lemma TracksNonDecreasing(entries: seq<Entry>)
    ensures NonDecreasing(Tracks(Numbers(entries)))
  {
    TracksProperties(Numbers(entries));
    AscendingNonDecreasing(Tracks(Numbers(entries)));
  }

  lemma AscendingNonDecreasing(xs: seq<nat>)
    requires StrictlyAscending(xs)
    ensures NonDecreasing(xs)
  {
    forall i | 0 < i < |xs| ensures xs[i - 1] <= xs[i] {
      assert xs[i - 1] < xs[i];
    }
  }

  // ---------------------------------------------------------------------------
  // `scan_archive`

  /** A folder from the walk: its path and its listing. */
  datatype Folder = Folder(path: String, entries: seq<Entry>)

  /** `any(self.extract_track_number(f) for f in filenames)`: a track number of
      0 is falsy, so "00 ..." alone does not make a folder an album. */
  predicate IsAlbum(f: Folder)
  {
    exists i :: 0 <= i < |f.entries| && f.entries[i].isFile && TruthyNumber(f.entries[i].name)
  }

  predicate TruthyNumber(name: String)
  {
    ExtractTrackNumber(name).Some? && ExtractTrackNumber(name).value != 0
  }

  /** "00 ..." carries the track number 0, yet a folder with no other
      numbered file is not scanned. */
  lemma ZeroTrackNotAlbum(path: String, rest: String)
    ensures var name := "00 " + rest;
            ExtractTrackNumber(name) == Some(0) && !IsAlbum(Folder(path, [Entry(name, true)]))
  {
    var name := "00 " + rest;
    assert name[0] == '0' && name[1] == '0' && name[2] == ' ';
  }

  datatype Results = Results(albums: seq<Report>, albumsWithGaps: nat, clean: nat,
                             missingTracks: seq<Report>, strictIssues: seq<Report>, totalAlbums: nat)

  predicate HasIssues(r: Report)
  {
    r.missing != [] || r.warnings != []
  }

  /** The effect of one folder on the results. */
  function ScanStep(res: Results, f: Folder, strict: bool): Results
  {
    if !IsAlbum(f) then res else Step(res, AlbumReport(f.path, f.entries, strict))
  }

  /** The effect of one album's report on the results. */
  function Step(res: Results, r: Report): Results
  {
    if HasIssues(r) then
      res.(albums := res.albums + [r], albumsWithGaps := res.albumsWithGaps + 1,
           missingTracks := res.missingTracks + (if r.missing != [] then [r] else []),
           strictIssues := res.strictIssues + (if r.warnings != [] then [r] else []),
           totalAlbums := res.totalAlbums + 1)
    else res.(clean := res.clean + 1, totalAlbums := res.totalAlbums + 1)
  }

  /** The results of scanning the folders in walk order. */
  function ScanResults(folders: seq<Folder>, strict: bool): Results
    decreases |folders|
  {
    if folders == [] then Results([], 0, 0, [], [], 0)
    else ScanStep(ScanResults(folders[..|folders| - 1], strict), folders[|folders| - 1], strict)
  }

  /** `scan_archive` over the folders of a walk. */
  method ScanArchive(folders: seq<Folder>, strict: bool) returns (results: Results)
    ensures results == ScanResults(folders, strict)
  {
    results := Results([], 0, 0, [], [], 0);
    var i := 0;
    while i < |folders|
      invariant i <= |folders|
      invariant results == ScanResults(folders[..i], strict)
    {
      var folder := folders[i];
      assert folders[..i + 1][..i] == folders[..i];
      if IsAlbum(folder) {
        var report := CheckAlbumFolder(folder.path, folder.entries, strict);
        results := RecordAlbum(results, report);
      }
      assert ScanResults(folders[..i + 1], strict) == ScanStep(ScanResults(folders[..i], strict), folder, strict);
      i := i + 1;
    }
    assert folders[..i] == folders;
  }

  /** One album's report entered into the results. */
  method RecordAlbum(prev: Results, report: Report) returns (results: Results)
    ensures results == Step(prev, report)
  {
    results := prev;
    if HasIssues(report) {
      var missingTracks := results.missingTracks;
      if report.missing != [] {
        missingTracks := missingTracks + [report];
      }
      var strictIssues := results.strictIssues;
      if report.warnings != [] {
        strictIssues := strictIssues + [report];
      }
      results := Results(results.albums + [report], results.albumsWithGaps + 1, results.clean,
                         missingTracks, strictIssues, results.totalAlbums + 1);
    } else {
      results := results.(clean := results.clean + 1, totalAlbums := results.totalAlbums + 1);
    }
  }

  function CountAlbums(folders: seq<Folder>): nat
    decreases |folders|
  {
    if folders == [] then 0
    else CountAlbums(folders[..|folders| - 1]) + (if IsAlbum(folders[|folders| - 1]) then 1 else 0)
  }

  function WithMissing(rs: seq<Report>): seq<Report>
    decreases |rs|
  {
    if rs == [] then [] else WithMissing(rs[..|rs| - 1]) + (if rs[|rs| - 1].missing != [] then [rs[|rs| - 1]] else [])
  }

  function WithWarnings(rs: seq<Report>): seq<Report>
    decreases |rs|
  {
    if rs == [] then [] else WithWarnings(rs[..|rs| - 1]) + (if rs[|rs| - 1].warnings != [] then [rs[|rs| - 1]] else [])
  }

  /** Every album is counted once, as clean or as having issues. */
  lemma {:induction false} ScanCounts(folders: seq<Folder>, strict: bool)
    ensures var res := ScanResults(folders, strict);
            && res.totalAlbums == CountAlbums(folders)
            && res.totalAlbums == res.clean + res.albumsWithGaps
            && |res.albums| == res.albumsWithGaps
    decreases |folders|
  {
    if folders != [] {
      ScanCounts(folders[..|folders| - 1], strict);
    }
  }

  /** The albums listed are exactly those with issues, and the missing-track
      and strict-issue lists pick out those with missing numbers and those
      with warnings. */
  lemma {:induction false} ScanLists(folders: seq<Folder>, strict: bool)
    ensures var res := ScanResults(folders, strict);
            && (forall k :: 0 <= k < |res.albums| ==> HasIssues(res.albums[k]))
            && res.missingTracks == WithMissing(res.albums)
            && res.strictIssues == WithWarnings(res.albums)
    decreases |folders|
  {
    if folders != [] {
      var init := folders[..|folders| - 1];
      var f := folders[|folders| - 1];
      ScanLists(init, strict);
      var prev := ScanResults(init, strict);
      if IsAlbum(f) {
        var r := AlbumReport(f.path, f.entries, strict);
        if HasIssues(r) {
          var albums := prev.albums + [r];
          assert albums[..|albums| - 1] == prev.albums;
          forall k | 0 <= k < |albums| ensures HasIssues(albums[k]) {
            if k < |prev.albums| {
              assert albums[k] == prev.albums[k];
            }
          }
        }
      }
    }
  }

  /** Without strict mode no album has warnings, so every album listed is
      listed for missing tracks. */
  lemma {:induction false} ScanNonStrict(folders: seq<Folder>)
    ensures var res := ScanResults(folders, false);
            res.strictIssues == [] && res.missingTracks == res.albums
    decreases |folders|
  {
    if folders != [] {
      var f := folders[|folders| - 1];
      ScanNonStrict(folders[..|folders| - 1]);
      ReportWarnings(f.path, f.entries, false);
    }
  }
}
