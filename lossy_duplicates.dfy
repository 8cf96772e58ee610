// Archiving lossy copies of tracks that also exist as FLAC.

module LossyDuplicates {
  import opened Text
  import Paths

  /** `LOSSY_EXTS`, the default extensions. */
  const LossyExts: set<String> := {".mp3", ".aac", ".ogg", ".m4a", ".wav"}

  // ---------------------------------------------------------------------------
  // `find_matching_lossy`

  predicate IsFlac(f: String)
  {
    EndsWith(Lower(f), ".flac")
  }

  /** The stems of the FLAC files of a listing. */
  function FlacStems(listing: seq<String>): set<String>
  {
    set f | f in listing && IsFlac(f) :: Paths.Root(f)
  }

  predicate PairsWith(f: String, exts: set<String>, stems: set<String>)
  {
    Lower(Paths.Ext(f)) in exts && Paths.Root(f) in stems
  }

  /** The names of the listing with a lossy extension and a FLAC stem, in order. */
  function Pairable(listing: seq<String>, exts: set<String>, stems: set<String>): seq<String>
    decreases |listing|
  {
    if listing == [] then []
    else
      var f := listing[|listing| - 1];
      Pairable(listing[..|listing| - 1], exts, stems) + (if PairsWith(f, exts, stems) then [f] else [])
  }

  function FindMatchingLossy(listing: seq<String>, exts: set<String>): seq<String>
  {
    var stems := FlacStems(listing);
    if stems == {} then [] else Pairable(listing, exts, stems)
  }

  lemma {:induction false} PairableMembers(listing: seq<String>, exts: set<String>, stems: set<String>)
    ensures Subseq(Pairable(listing, exts, stems), listing)
    ensures forall f :: f in Pairable(listing, exts, stems) <==> f in listing && PairsWith(f, exts, stems)
    decreases |listing|
  {
    if listing != [] {
      var init := listing[..|listing| - 1];
      var f := listing[|listing| - 1];
      PairableMembers(init, exts, stems);
      SubseqAppend(Pairable(init, exts, stems), init, f, PairsWith(f, exts, stems));
      assert listing == init + [f];
    }
  }

  /** A folder without FLAC files yields nothing; otherwise the result keeps
      listing order and holds exactly the names with a lossy extension whose
      stem is the stem of some FLAC name. */
  lemma FindMatchingLossyProperties(listing: seq<String>, exts: set<String>)
    ensures (forall i :: 0 <= i < |listing| ==> !IsFlac(listing[i])) ==> FindMatchingLossy(listing, exts) == []
    ensures Subseq(FindMatchingLossy(listing, exts), listing)
    ensures forall f :: f in FindMatchingLossy(listing, exts) <==>
      f in listing && Lower(Paths.Ext(f)) in exts && exists g :: g in listing && IsFlac(g) && Paths.Root(g) == Paths.Root(f)
  {
    var stems := FlacStems(listing);
    PairableMembers(listing, exts, stems);
    forall g | g in listing && IsFlac(g) ensures Paths.Root(g) in stems {
    }
    if forall i :: 0 <= i < |listing| ==> !IsFlac(listing[i]) {
      assert stems == {};
    }
    if stems == {} {
      SubseqOfEmpty(listing);
    }
  }

  lemma {:induction false} SubseqOfEmpty(s: seq<String>)
    ensures Subseq([], s)
    decreases |s|
  {
    if s != [] {
      SubseqOfEmpty(s[..|s| - 1]);
      SubseqAppend([], s[..|s| - 1], s[|s| - 1], false);
      assert s[..|s| - 1] + [s[|s| - 1]] == s;
    }
  }

  // ---------------------------------------------------------------------------
  // `get_archive_command_and_extension`

  const Formats: map<String, (seq<String>, String)> :=
    map["7z" := (["7zz", "a"], ".7z"),
        "zip" := (["7zz", "a"], ".zip"),
        "tar.gz" := (["tar", "-czf"], ".tar.gz"),
        "tar.xz" := (["tar", "-cJf"], ".tar.xz"),
        "tar.bz2" := (["tar", "-cjf"], ".tar.bz2"),
        "xz" := (["xz", "-z"], ".xz"),
        "gzip" := (["gzip"], ".gz"),
        "bzip2" := (["bzip2"], ".bz2")]

  const DefaultFormat: (seq<String>, String) := (["7zz", "a"], ".7z")

  /** The command and archive extension of a format, looked up case-insensitively. */
  function ArchiveCommand(archiveType: String): (seq<String>, String)
  {
    if Lower(archiveType) in Formats then Formats[Lower(archiveType)] else DefaultFormat
  }

  /** The name of the archive created in a folder. */
  function ArchiveBase(archiveType: String): String
  {
    "Lossy" + ArchiveCommand(archiveType).1
  }

  /** The lookup ignores case, falls back to 7-Zip, and every extension is a
      dotted suffix the folder's archive name ends with. */
  lemma ArchiveCommandProperties(archiveType: String)
    ensures ArchiveCommand(archiveType) == ArchiveCommand(Lower(archiveType))
    ensures Lower(archiveType) !in Formats ==> ArchiveCommand(archiveType) == (["7zz", "a"], ".7z")
    ensures StartsWith(ArchiveBase(archiveType), "Lossy.")
    ensures ArchiveCommand(archiveType).1 in ArchiveExts
  {
    LowerIsLowercase(archiveType);
    var ext := ArchiveCommand(archiveType).1;
    assert ext in ArchiveExts && ext[0] == '.';
    assert ArchiveBase(archiveType)[..6] == "Lossy" + [ext[0]];
  }

  // ---------------------------------------------------------------------------
  // `get_archive_contents`

  /** Archives listed with `tar -tf`; everything else is listed by 7-Zip. */
  predicate IsTarPath(path: String)
  {
    var p := Lower(path);
    EndsWith(p, ".tar.gz") || EndsWith(p, ".tar.xz") || EndsWith(p, ".tar.bz2") || EndsWith(p, ".tar")
  }

  function ListCommand(path: String): seq<String>
  {
    if IsTarPath(path) then ["tar", "-tf", path] else ["7zz", "l", path]
  }

  /** The archived lossy file named by one line of the listing, if any. */
  function LineFile(tar: bool, line: String, exts: set<String>): Option<String>
  {
    if tar then
      var filename := Strip(line);
      if Paths.Ext(Lower(filename)) in exts then Some(Paths.Basename(filename)) else None
    else
      var parts := Words(Strip(line));
      if |parts| > 3 && Paths.Ext(Lower(parts[|parts| - 1])) in exts then Some(Paths.Basename(parts[|parts| - 1])) else None
  }

  /** The values `pick` gives the lines, in order. */
  function Collect(lines: seq<String>, pick: String -> Option<String>): seq<String>
    decreases |lines|
  {
    if lines == [] then []
    else
      var f := pick(lines[|lines| - 1]);
      Collect(lines[..|lines| - 1], pick) + (if f.Some? then [f.value] else [])
  }

  lemma {:induction false} CollectMembers(lines: seq<String>, pick: String -> Option<String>)
    ensures forall f :: f in Collect(lines, pick) <==> exists i :: 0 <= i < |lines| && pick(lines[i]) == Some(f)
    decreases |lines|
  {
    if lines != [] {
      var init := lines[..|lines| - 1];
      CollectMembers(init, pick);
      forall f ensures f in Collect(lines, pick) <==> exists i :: 0 <= i < |lines| && pick(lines[i]) == Some(f) {
        if f in Collect(init, pick) {
          var i :| 0 <= i < |init| && pick(init[i]) == Some(f);
          assert lines[i] == init[i];
        }
        if exists i :: 0 <= i < |lines| && pick(lines[i]) == Some(f) {
          var i :| 0 <= i < |lines| && pick(lines[i]) == Some(f);
          if i < |init| {
            assert init[i] == lines[i];
          }
        }
      }
    }
  }

  /** The lossy files inside an archive, given the lines its listing command
      prints (None when the command cannot be run). */
  function ArchiveContentsOf(path: String, output: Option<seq<String>>, exts: set<String>): set<String>
  {
    if output.None? then {} else set f | f in ListedFiles(IsTarPath(path), output.value, exts)
  }

  /** The names the listing's lines contribute, in order. */
  function ListedFiles(tar: bool, lines: seq<String>, exts: set<String>): seq<String>
  {
    Collect(lines, line => LineFile(tar, line, exts))
  }

  lemma ListedFilesStep(tar: bool, xs: seq<String>, line: String, exts: set<String>)
    ensures var f := LineFile(tar, line, exts);
            ListedFiles(tar, xs + [line], exts) == ListedFiles(tar, xs, exts) + (if f.Some? then [f.value] else [])
  {
    assert (xs + [line])[..|xs|] == xs;
  }

  /** `get_archive_contents` over the listing's lines. */
  method ArchiveContents(path: String, output: Option<seq<String>>, exts: set<String>) returns (files: set<String>)
    ensures files == ArchiveContentsOf(path, output, exts)
  {
    if output.None? {
      return {};
    }
    var lines := output.value;
    var tar := IsTarPath(path);
    var found: seq<String> := [];
    var i := 0;
    while i < |lines|
      invariant i <= |lines|
      invariant found == ListedFiles(tar, lines[..i], exts)
    {
      assert lines[..i + 1] == lines[..i] + [lines[i]];
      ListedFilesStep(tar, lines[..i], lines[i], exts);
      var f := LineFile(tar, lines[i], exts);
      if f.Some? {
        found := found + [f.value];
      }
      i := i + 1;
    }
    assert lines[..i] == lines;
    files := set f | f in found;
  }

  /** A file is in the archive exactly when some line of the listing names
      it: a tar line by its stripped text, a 7-Zip line with more than three
      fields by its last field. */
  lemma ArchiveContentsMembers(path: String, lines: seq<String>, exts: set<String>)
    ensures forall f :: f in ArchiveContentsOf(path, Some(lines), exts) <==>
      exists i :: 0 <= i < |lines| && LineFile(IsTarPath(path), lines[i], exts) == Some(f)
  {
    var tar := IsTarPath(path);
    CollectMembers(lines, line => LineFile(tar, line, exts));
  }

  // ---------------------------------------------------------------------------
  // `archive_and_delete`

  /** Names the loop accepts as an existing archive. */
  predicate IsArchiveName(f: String, exts: set<String>)
  {
    (StartsWith(f, "MP3.") || StartsWith(f, "Lossy.")) && Lower(Paths.Ext(f)) !in exts
  }

  /** The first archive name of the listing. */
  function FirstArchive(listing: seq<String>, exts: set<String>): (r: Option<String>)
    ensures r.Some? ==> r.value in listing && IsArchiveName(r.value, exts)
    ensures r.None? <==> forall i :: 0 <= i < |listing| ==> !IsArchiveName(listing[i], exts)
    decreases |listing|
  {
    if listing == [] then None
    else if IsArchiveName(listing[0], exts) then Some(listing[0])
    else FirstArchive(listing[1..], exts)
  }

  /** The first archive is the earliest name that qualifies. */
  lemma {:induction false} FirstArchiveIsFirst(listing: seq<String>, exts: set<String>)
    requires FirstArchive(listing, exts).Some?
    ensures exists i :: 0 <= i < |listing| && listing[i] == FirstArchive(listing, exts).value
                        && forall j :: 0 <= j < i ==> !IsArchiveName(listing[j], exts)
    decreases |listing|
  {
    if !IsArchiveName(listing[0], exts) {
      FirstArchiveIsFirst(listing[1..], exts);
      var i :| 0 <= i < |listing[1..]| && listing[1..][i] == FirstArchive(listing[1..], exts).value
               && forall j :: 0 <= j < i ==> !IsArchiveName(listing[1..][j], exts);
      assert listing[i + 1] == listing[1..][i];
      forall j | 0 <= j < i + 1 ensures !IsArchiveName(listing[j], exts) {
        if j > 0 {
          assert listing[j] == listing[1..][j - 1];
        }
      }
    } else {
      assert listing[0] == FirstArchive(listing, exts).value;
    }
  }

  /** The loop over the listing that looks for an existing archive. */
  method FindArchive(folder: String, listing: seq<String>, exts: set<String>) returns (archive: Option<String>)
    ensures archive == if FirstArchive(listing, exts).Some? then Some(Paths.Join(folder, FirstArchive(listing, exts).value)) else None
  {
    archive := None;
    var i := 0;
    while i < |listing|
      invariant i <= |listing|
      invariant FirstArchive(listing, exts) == FirstArchive(listing[i..], exts)
    {
      var f := listing[i];
      if StartsWith(f, "MP3.") || StartsWith(f, "Lossy.") {
        if Lower(Paths.Ext(f)) !in exts {
          archive := Some(Paths.Join(folder, f));
          return;
        }
      }
      assert listing[i..][1..] == listing[i + 1..];
      i := i + 1;
    }
  }

  /** A recorded effect on the folder. */
  datatype Effect =
    | Remove(path: String)                       // `os.remove`, of a lossy file
    | Run(argv: seq<String>)                     // a subprocess, run in the folder
    | RenameIfExists(from: String, to: String)   // `os.rename` behind `os.path.exists`
    | RemoveIfExists(path: String)               // `os.remove` behind `os.path.exists`

  /** The names of xs in s (keep) or not in s (not keep), in order. */
  function Keep(xs: seq<String>, s: set<String>, keep: bool): seq<String>
    decreases |xs|
  {
    if xs == [] then []
    else Keep(xs[..|xs| - 1], s, keep) + (if (xs[|xs| - 1] in s) == keep then [xs[|xs| - 1]] else [])
  }

  /** The two halves partition the list. */
  lemma {:induction false} KeepPartition(xs: seq<String>, s: set<String>)
    ensures multiset(Keep(xs, s, true)) + multiset(Keep(xs, s, false)) == multiset(xs)
    decreases |xs|
  {
    if xs != [] {
      var init, f := xs[..|xs| - 1], xs[|xs| - 1];
      KeepPartition(init, s);
      assert xs == init + [f];
    }
  }

  /** Each half keeps order; the kept half lies in the set and the other avoids it. */
  lemma {:induction false} KeepMembers(xs: seq<String>, s: set<String>, keep: bool)
    ensures forall f :: f in Keep(xs, s, keep) <==> f in xs && (f in s) == keep
    ensures Subseq(Keep(xs, s, keep), xs)
    decreases |xs|
  {
    if xs != [] {
      var init, f := xs[..|xs| - 1], xs[|xs| - 1];
      KeepMembers(init, s, keep);
      assert xs == init + [f];
      SubseqAppend(Keep(init, s, keep), init, f, (f in s) == keep);
    }
  }

  function RemoveAll(folder: String, files: seq<String>): (r: seq<Effect>)
    ensures |r| == |files|
  {
    seq(|files|, i requires 0 <= i < |files| => Remove(Paths.Join(folder, files[i])))
  }

  /** The subprocess calls (and clean-up) that build the archive. */
  function ArchiveEffects(folder: String, files: seq<String>, archiveType: String): seq<Effect>
  {
    var (cmd, ext) := ArchiveCommand(archiveType);
    var archivePath := Paths.Join(folder, "Lossy" + ext);
    var t := Lower(archiveType);
    if t == "tar.gz" || t == "tar.xz" || t == "tar.bz2" then [Run(cmd + [archivePath] + files)]
    else if t == "xz" || t == "gzip" || t == "bzip2" then
      var temp := Paths.Join(folder, "temp.tar");
      [Run(["tar", "-cf", temp] + files), Run(cmd + [temp]), RenameIfExists(temp + ext, archivePath), RemoveIfExists(temp)]
    else [Run(cmd + [archivePath] + files)]
  }

  /** Where archiving a folder raises: `deleteAt` is the index of the
      deletion of an already archived file that fails, and `tryAt` the index
      of the first step of the `try` block that fails (a subprocess, the
      clean-up after it, or a deletion once archived). */
  datatype Faults = Faults(deleteAt: Option<nat>, tryAt: Option<nat>)

  const NoFaults: Faults := Faults(None, None)

  /** What archiving one folder comes to: the count returned, the effects in
      order (on failure the last one is the step that raised), and whether an
      exception escaped and ended the whole run. */
  datatype Outcome = Outcome(archived: nat, effects: seq<Effect>, aborted: bool)

  /** A failing step index that falls among the first n steps. */
  predicate FailsWithin(at: Option<nat>, n: nat)
  {
    at.Some? && at.value < n
  }

  /** The files of an existing archive, or none. */
  function ArchivedSet(folder: String, listing: seq<String>, exts: set<String>, output: Option<seq<String>>): set<String>
  {
    var existing := FirstArchive(listing, exts);
    if existing.Some? then ArchiveContentsOf(Paths.Join(folder, existing.value), output, exts) else {}
  }

  /** Deleting the files in order, up to and including the one at index
      `failAt`, which raises. */
  function RemoveUpTo(folder: String, files: seq<String>, failAt: Option<nat>): seq<Effect>
  {
    if FailsWithin(failAt, |files|) then RemoveAll(folder, files[..failAt.value + 1]) else RemoveAll(folder, files)
  }

  /** One of the deletions at line 82 raises; no `try` surrounds them, so the run ends. */
  predicate DeleteAborts(toDelete: seq<String>, dryRun: bool, keep: bool, deleteAt: Option<nat>)
  {
    !(dryRun || keep) && FailsWithin(deleteAt, |toDelete|)
  }

  /** The deletions of files already archived, up to the one that raises. */
  function AlreadyArchivedEffects(folder: String, toDelete: seq<String>, dryRun: bool, keep: bool, deleteAt: Option<nat>): seq<Effect>
  {
    if dryRun || keep then [] else RemoveUpTo(folder, toDelete, deleteAt)
  }

  /** The steps of the `try` block: the subprocess calls and their clean-up,
      then the deletions unless the originals are kept. */
  function TrySteps(folder: String, remaining: seq<String>, archiveType: String, keep: bool): seq<Effect>
  {
    ArchiveEffects(folder, remaining, archiveType) + (if keep then [] else RemoveAll(folder, remaining))
  }

  /** What archiving the remaining files does: the steps of the `try` block
      up to the first that raises, which reports 0, or all of them. */
  function ArchiveRemaining(folder: String, remaining: seq<String>, archiveType: String,
                            dryRun: bool, keep: bool, tryAt: Option<nat>): Outcome
  {
    if remaining == [] || dryRun then Outcome(0, [], false)
    else
      var steps := TrySteps(folder, remaining, archiveType, keep);
      if FailsWithin(tryAt, |steps|) then Outcome(0, steps[..tryAt.value + 1], false)
      else Outcome(|remaining|, steps, false)
  }

  /** `archive_and_delete` for a folder with this listing: `output` is what
      listing an existing archive prints. */
  function ArchiveAndDeletePlan(folder: String, listing: seq<String>, lossy: seq<String>, exts: set<String>,
                                archiveType: String, dryRun: bool, keep: bool,
                                output: Option<seq<String>>, faults: Faults): Outcome
  {
    var archived := ArchivedSet(folder, listing, exts, output);
    var toDelete := Keep(lossy, archived, true);
    var first := AlreadyArchivedEffects(folder, toDelete, dryRun, keep, faults.deleteAt);
    if DeleteAborts(toDelete, dryRun, keep, faults.deleteAt) then Outcome(0, first, true)
    else
      var rest := ArchiveRemaining(folder, Keep(lossy, archived, false), archiveType, dryRun, keep, faults.tryAt);
      Outcome(rest.archived, first + rest.effects, false)
  }

  /** The loop over the files already archived. */
  method DeleteAlreadyArchived(folder: String, toDelete: seq<String>, dryRun: bool, keep: bool, deleteAt: Option<nat>)
    returns (effects: seq<Effect>, aborted: bool)
    ensures effects == AlreadyArchivedEffects(folder, toDelete, dryRun, keep, deleteAt)
    ensures aborted == DeleteAborts(toDelete, dryRun, keep, deleteAt)
  {
    if dryRun || keep {
      return [], false;
    }
    effects, aborted := RemoveFiles(folder, toDelete, deleteAt);
  }

  /** `os.remove` on each file in order; the one at index `failAt` raises,
      which ends the loop. */
  method RemoveFiles(folder: String, files: seq<String>, failAt: Option<nat>)
    returns (effects: seq<Effect>, failed: bool)
    ensures effects == RemoveUpTo(folder, files, failAt)
    ensures failed == FailsWithin(failAt, |files|)
  {
    effects := [];
    failed := false;
    var i := 0;
    while i < |files| && !failed
      invariant i <= |files|
      invariant effects == RemoveAll(folder, files[..i])
      invariant failed <==> 0 < i && failAt == Some(i - 1)
      invariant !failed ==> !FailsWithin(failAt, i)
    {
      RemoveAllSnoc(folder, files, i);
      effects := effects + [Remove(Paths.Join(folder, files[i]))];
      failed := failAt == Some(i);
      i := i + 1;
    }
    if !failed {
      assert files[..i] == files;
    }
  }

  lemma RemoveAllSnoc(folder: String, files: seq<String>, i: nat)
    requires i < |files|
    ensures RemoveAll(folder, files[..i + 1]) == RemoveAll(folder, files[..i]) + [Remove(Paths.Join(folder, files[i]))]
  {
    var a, b := RemoveAll(folder, files[..i + 1]), RemoveAll(folder, files[..i]) + [Remove(Paths.Join(folder, files[i]))];
    forall k | 0 <= k < |a| ensures a[k] == b[k] {
      assert files[..i + 1][k] == files[k];
      if k < i {
        assert files[..i][k] == files[k];
      }
    }
  }

  lemma RemoveAllPrefix(folder: String, files: seq<String>, n: nat)
    requires n <= |files|
    ensures RemoveAll(folder, files)[..n] == RemoveAll(folder, files[..n])
  {
    var a, b := RemoveAll(folder, files)[..n], RemoveAll(folder, files[..n]);
    forall k | 0 <= k < n ensures a[k] == b[k] {
      assert files[..n][k] == files[k];
    }
  }

  /** The `try` block begins with the subprocess calls... */
  lemma TryStepsPrefix(folder: String, remaining: seq<String>, archiveType: String, keep: bool, n: nat)
    requires n <= |ArchiveEffects(folder, remaining, archiveType)|
    ensures TrySteps(folder, remaining, archiveType, keep)[..n] == ArchiveEffects(folder, remaining, archiveType)[..n]
  {
  }

  /** ...and goes on with the deletions, in file order. */
  lemma TryStepsRemovals(folder: String, remaining: seq<String>, archiveType: String, i: nat)
    requires i <= |remaining|
    ensures var runs := ArchiveEffects(folder, remaining, archiveType);
            TrySteps(folder, remaining, archiveType, false)[..|runs| + i] == runs + RemoveAll(folder, remaining[..i])
  {
    var runs := ArchiveEffects(folder, remaining, archiveType);
    RemoveAllPrefix(folder, remaining, i);
    assert (runs + RemoveAll(folder, remaining))[..|runs| + i] == runs + RemoveAll(folder, remaining)[..i];
  }

  /** The index among the deletions of a failing step of the `try` block
      that has `offset` steps before them. */
  function Shift(at: Option<nat>, offset: nat): Option<nat>
  {
    if at.Some? && at.value >= offset then Some(at.value - offset) else None
  }

  /** Once the subprocesses have succeeded, archiving comes down to the
      deletions: a failing one reports 0, after the deletions before it. */
  lemma TryStepsAfterRuns(folder: String, remaining: seq<String>, archiveType: String, tryAt: Option<nat>)
    requires remaining != [] && !FailsWithin(tryAt, |ArchiveEffects(folder, remaining, archiveType)|)
    ensures var runs := ArchiveEffects(folder, remaining, archiveType);
            var at := Shift(tryAt, |runs|);
            ArchiveRemaining(folder, remaining, archiveType, false, false, tryAt)
            == Outcome(if FailsWithin(at, |remaining|) then 0 else |remaining|, runs + RemoveUpTo(folder, remaining, at), false)
  {
    var runs := ArchiveEffects(folder, remaining, archiveType);
    var at := Shift(tryAt, |runs|);
    if FailsWithin(at, |remaining|) {
      TryStepsRemovals(folder, remaining, archiveType, at.value + 1);
    }
  }

  /** Archiving the remaining files, then deleting them unless kept; the
      first step that raises ends the `try` block with a count of 0. */
  method ArchiveFiles(folder: String, lossy: seq<String>, archiveType: String,
                      dryRun: bool, keep: bool, tryAt: Option<nat>)
    returns (archived: nat, effects: seq<Effect>)
    ensures Outcome(archived, effects, false) == ArchiveRemaining(folder, lossy, archiveType, dryRun, keep, tryAt)
  {
    if lossy == [] || dryRun {
      return 0, [];
    }
    var runs := ArchiveEffects(folder, lossy, archiveType);
    if FailsWithin(tryAt, |runs|) {
      TryStepsPrefix(folder, lossy, archiveType, keep, tryAt.value + 1);
      return 0, runs[..tryAt.value + 1];
    }
    if keep {
      return |lossy|, runs;
    }
    var removals, failed := RemoveFiles(folder, lossy, Shift(tryAt, |runs|));
    TryStepsAfterRuns(folder, lossy, archiveType, tryAt);
    archived := if failed then 0 else |lossy|;
    effects := runs + removals;
  }

  method ArchiveAndDelete(folder: String, listing: seq<String>, lossyFiles: seq<String>, exts: set<String>,
                          archiveType: String, dryRun: bool, keep: bool,
                          output: Option<seq<String>>, faults: Faults)
    returns (archived: nat, effects: seq<Effect>, aborted: bool)
    ensures Outcome(archived, effects, aborted) == ArchiveAndDeletePlan(folder, listing, lossyFiles, exts, archiveType, dryRun, keep, output, faults)
  {
    ghost var archivedSet := ArchivedSet(folder, listing, exts, output);
    var archiveFile := FindArchive(folder, listing, exts);
    var lossy := lossyFiles;
    var first: seq<Effect> := [];
    if archiveFile.Some? {
      var inArchive := ArchiveContents(archiveFile.value, output, exts);
      assert inArchive == archivedSet;
      var toDelete := Keep(lossy, inArchive, true);
      first, aborted := DeleteAlreadyArchived(folder, toDelete, dryRun, keep, faults.deleteAt);
      if aborted {
        return 0, first, true;
      }
      lossy := Keep(lossy, inArchive, false);
    } else {
      KeepNone(lossy);
    }
    var rest;
    archived, rest := ArchiveFiles(folder, lossy, archiveType, dryRun, keep, faults.tryAt);
    effects, aborted := first + rest, false;
  }

  /** A dry run touches nothing, reports 0 and cannot fail. */
  lemma PlanDryRun(folder: String, listing: seq<String>, lossy: seq<String>, exts: set<String>,
                   archiveType: String, keep: bool, output: Option<seq<String>>, faults: Faults)
    ensures ArchiveAndDeletePlan(folder, listing, lossy, exts, archiveType, true, keep, output, faults) == Outcome(0, [], false)
  {
  }

  /** The files not yet archived are the lossy files outside the existing
      archive, in order; the run ends exactly when deleting an already
      archived file raises; the count is the number of remaining files after
      a real archiving run in which nothing raises, and 0 otherwise. */
  lemma PlanCount(folder: String, listing: seq<String>, lossy: seq<String>, exts: set<String>,
                  archiveType: String, dryRun: bool, keep: bool, output: Option<seq<String>>, faults: Faults)
    ensures var archived := ArchivedSet(folder, listing, exts, output);
            var toDelete, remaining := Keep(lossy, archived, true), Keep(lossy, archived, false);
            var plan := ArchiveAndDeletePlan(folder, listing, lossy, exts, archiveType, dryRun, keep, output, faults);
            var aborts := !dryRun && !keep && FailsWithin(faults.deleteAt, |toDelete|);
            && Subseq(remaining, lossy)
            && (forall f :: f in remaining <==> f in lossy && f !in archived)
            && plan.aborted == aborts
            && plan.archived
               == if !dryRun && !aborts && remaining != []
                     && !FailsWithin(faults.tryAt, |TrySteps(folder, remaining, archiveType, keep)|)
                  then |remaining| else 0
  {
    KeepMembers(lossy, ArchivedSet(folder, listing, exts, output), false);
  }

  /** Faults only cut the trace short: whatever raises, the effects are a
      prefix of those of the same run without faults, and the count is that
      run's or 0; an escaped exception always leaves 0. */
  lemma PlanFaultsTruncate(folder: String, listing: seq<String>, lossy: seq<String>, exts: set<String>,
                           archiveType: String, dryRun: bool, keep: bool, output: Option<seq<String>>, faults: Faults)
    ensures var plan := ArchiveAndDeletePlan(folder, listing, lossy, exts, archiveType, dryRun, keep, output, faults);
            var clean := ArchiveAndDeletePlan(folder, listing, lossy, exts, archiveType, dryRun, keep, output, NoFaults);
            && !clean.aborted
            && plan.effects <= clean.effects
            && (plan.archived == clean.archived || plan.archived == 0)
            && (plan.aborted ==> plan.archived == 0)
  {
    var archived := ArchivedSet(folder, listing, exts, output);
    var toDelete, remaining := Keep(lossy, archived, true), Keep(lossy, archived, false);
    var first := AlreadyArchivedEffects(folder, toDelete, dryRun, keep, faults.deleteAt);
    if FailsWithin(faults.deleteAt, |toDelete|) {
      RemoveAllPrefix(folder, toDelete, faults.deleteAt.value + 1);
    }
    var rest := ArchiveRemaining(folder, remaining, archiveType, dryRun, keep, faults.tryAt);
    var cleanRest := ArchiveRemaining(folder, remaining, archiveType, dryRun, keep, None);
    assert rest.effects <= cleanRest.effects;
  }

  /** A run of the single-file compressors whose `tar -cf` raises performs
      that call and nothing else. */
  lemma TarFailureStopsCompression(folder: String, remaining: seq<String>, keep: bool)
    requires remaining != []
    ensures ArchiveRemaining(folder, remaining, "xz", false, keep, Some(0))
            == Outcome(0, [Run(["tar", "-cf", Paths.Join(folder, "temp.tar")] + remaining)], false)
  {
    LowercaseFixed("xz");
    var steps := TrySteps(folder, remaining, "xz", keep);
    assert steps[0] == Run(["tar", "-cf", Paths.Join(folder, "temp.tar")] + remaining);
  }

  /** A deletion that raises after archiving leaves the archive built and
      the earlier files deleted, yet reports 0. */
  lemma RemovalFailureAfterArchive(folder: String, remaining: seq<String>, archiveType: String, j: nat)
    requires j < |remaining|
    ensures var runs := ArchiveEffects(folder, remaining, archiveType);
            ArchiveRemaining(folder, remaining, archiveType, false, false, Some(|runs| + j))
            == Outcome(0, runs + RemoveAll(folder, remaining[..j + 1]), false)
  {
    TryStepsRemovals(folder, remaining, archiveType, j + 1);
  }

  /** A removal of one of the lossy files of the folder. */
  predicate RemovesLossy(e: Effect, folder: String, lossy: seq<String>)
  {
    e.Remove? ==> exists f :: f in lossy && e.path == Paths.Join(folder, f)
  }

  /** Only lossy files of the folder are removed, and only when neither a dry
      run nor `keep` is asked for, whatever raises. */
  lemma PlanRemovals(folder: String, listing: seq<String>, lossy: seq<String>, exts: set<String>,
                     archiveType: String, dryRun: bool, keep: bool, output: Option<seq<String>>, faults: Faults)
    ensures RemovalsOk(ArchiveAndDeletePlan(folder, listing, lossy, exts, archiveType, dryRun, keep, output, faults).effects,
                       folder, lossy, dryRun, keep)
  {
    var archived := ArchivedSet(folder, listing, exts, output);
    var toDelete, remaining := Keep(lossy, archived, true), Keep(lossy, archived, false);
    KeepMembers(lossy, archived, true);
    KeepMembers(lossy, archived, false);
    var first := AlreadyArchivedEffects(folder, toDelete, dryRun, keep, faults.deleteAt);
    var rest := ArchiveRemaining(folder, remaining, archiveType, dryRun, keep, faults.tryAt).effects;
    AlreadyArchivedRemovals(folder, toDelete, dryRun, keep, faults.deleteAt, lossy);
    RemainingRemovals(folder, remaining, archiveType, dryRun, keep, faults.tryAt, lossy);
    RemovalsConcat(first, rest, folder, lossy, dryRun, keep);
  }

  /** Every removal is of a lossy file and happens in a real run without `keep`. */
  predicate RemovalsOk(effects: seq<Effect>, folder: String, lossy: seq<String>, dryRun: bool, keep: bool)
  {
    forall k :: 0 <= k < |effects| ==> RemovesLossy(effects[k], folder, lossy) && (effects[k].Remove? ==> !dryRun && !keep)
  }

  lemma RemovalsConcat(first: seq<Effect>, rest: seq<Effect>, folder: String, lossy: seq<String>, dryRun: bool, keep: bool)
    requires RemovalsOk(first, folder, lossy, dryRun, keep) && RemovalsOk(rest, folder, lossy, dryRun, keep)
    ensures RemovalsOk(first + rest, folder, lossy, dryRun, keep)
  {
    var effects := first + rest;
    forall k | 0 <= k < |effects| ensures RemovesLossy(effects[k], folder, lossy) && (effects[k].Remove? ==> !dryRun && !keep) {
      if k >= |first| {
        assert effects[k] == rest[k - |first|];
      } else {
        assert effects[k] == first[k];
      }
    }
  }

  lemma RemovalsPrefix(effects: seq<Effect>, n: nat, folder: String, lossy: seq<String>, dryRun: bool, keep: bool)
    requires n <= |effects| && RemovalsOk(effects, folder, lossy, dryRun, keep)
    ensures RemovalsOk(effects[..n], folder, lossy, dryRun, keep)
  {
    forall k | 0 <= k < n ensures effects[..n][k] == effects[k] {
    }
  }

  lemma AlreadyArchivedRemovals(folder: String, toDelete: seq<String>, dryRun: bool, keep: bool, deleteAt: Option<nat>, lossy: seq<String>)
    requires forall f :: f in toDelete ==> f in lossy
    ensures RemovalsOk(AlreadyArchivedEffects(folder, toDelete, dryRun, keep, deleteAt), folder, lossy, dryRun, keep)
  {
    if !(dryRun || keep) {
      var steps := RemoveAll(folder, toDelete);
      forall k | 0 <= k < |toDelete| ensures RemovesLossy(steps[k], folder, lossy) {
        assert toDelete[k] in lossy;
      }
      if FailsWithin(deleteAt, |toDelete|) {
        RemoveAllPrefix(folder, toDelete, deleteAt.value + 1);
        RemovalsPrefix(steps, deleteAt.value + 1, folder, lossy, dryRun, keep);
      }
    }
  }

  lemma RemainingRemovals(folder: String, remaining: seq<String>, archiveType: String,
                          dryRun: bool, keep: bool, tryAt: Option<nat>, lossy: seq<String>)
    requires forall f :: f in remaining ==> f in lossy
    ensures RemovalsOk(ArchiveRemaining(folder, remaining, archiveType, dryRun, keep, tryAt).effects, folder, lossy, dryRun, keep)
  {
    if remaining != [] && !dryRun {
      var runs := ArchiveEffects(folder, remaining, archiveType);
      var tail := if keep then [] else RemoveAll(folder, remaining);
      assert forall k :: 0 <= k < |runs| ==> !runs[k].Remove?;
      forall k | 0 <= k < |tail| ensures RemovesLossy(tail[k], folder, lossy) && (tail[k].Remove? ==> !dryRun && !keep) {
        assert remaining[k] in lossy;
      }
      RemovalsConcat(runs, tail, folder, lossy, dryRun, keep);
      var steps := TrySteps(folder, remaining, archiveType, keep);
      if FailsWithin(tryAt, |steps|) {
        RemovalsPrefix(steps, tryAt.value + 1, folder, lossy, dryRun, keep);
      }
    }
  }

  /** After a real run in which nothing raises and nothing is kept, every
      lossy file of the folder is removed: the already archived ones and the
      newly archived ones. */
  lemma PlanRemovesAll(folder: String, listing: seq<String>, lossy: seq<String>, exts: set<String>,
                       archiveType: String, output: Option<seq<String>>)
    ensures var effects := ArchiveAndDeletePlan(folder, listing, lossy, exts, archiveType, false, false, output, NoFaults).effects;
            forall f :: f in lossy ==> Remove(Paths.Join(folder, f)) in effects
  {
    var archived := ArchivedSet(folder, listing, exts, output);
    var toDelete, remaining := Keep(lossy, archived, true), Keep(lossy, archived, false);
    KeepMembers(lossy, archived, true);
    KeepMembers(lossy, archived, false);
    var first := RemoveAll(folder, toDelete);
    var rest := ArchiveRemaining(folder, remaining, archiveType, false, false, None).effects;
    assert ArchiveAndDeletePlan(folder, listing, lossy, exts, archiveType, false, false, output, NoFaults).effects == first + rest;
    forall f | f in lossy ensures Remove(Paths.Join(folder, f)) in first + rest {
      if f in archived {
        RemoveAllHas(folder, toDelete, f);
      } else {
        RemainingRemoved(folder, remaining, archiveType, f);
      }
    }
  }

  lemma RemoveAllHas(folder: String, files: seq<String>, f: String)
    requires f in files
    ensures Remove(Paths.Join(folder, f)) in RemoveAll(folder, files)
  {
    var k :| 0 <= k < |files| && files[k] == f;
    assert RemoveAll(folder, files)[k] == Remove(Paths.Join(folder, f));
  }

  lemma RemainingRemoved(folder: String, remaining: seq<String>, archiveType: String, f: String)
    requires f in remaining
    ensures Remove(Paths.Join(folder, f)) in ArchiveRemaining(folder, remaining, archiveType, false, false, None).effects
  {
    RemoveAllHas(folder, remaining, f);
    assert ArchiveRemaining(folder, remaining, archiveType, false, false, None).effects
        == ArchiveEffects(folder, remaining, archiveType) + RemoveAll(folder, remaining);
  }

  const ArchiveExts: set<String> := {".7z", ".zip", ".tar.gz", ".tar.xz", ".tar.bz2", ".xz", ".gz", ".bz2"}

  /** The archive a run creates is recognised as the existing archive by the
      next run with the default extensions. */
  lemma OwnArchiveRecognised(archiveType: String)
    ensures IsArchiveName(ArchiveBase(archiveType), LossyExts)
  {
    ArchiveCommandProperties(archiveType);
    RecognisedExt(ArchiveCommand(archiveType).1);
  }

  lemma RecognisedExt(ext: String)
    requires ext in ArchiveExts
    ensures Lower(Paths.Ext("Lossy" + ext)) !in LossyExts
  {
    if ext == ".7z" || ext == ".zip" || ext == ".xz" || ext == ".gz" || ext == ".bz2" {
      RecognisedPlainExt(ext);
    } else {
      RecognisedTarExt(ext);
    }
  }

  lemma RecognisedPlainExt(ext: String)
    requires ext == ".7z" || ext == ".zip" || ext == ".xz" || ext == ".gz" || ext == ".bz2"
    ensures Lower(Paths.Ext("Lossy" + ext)) !in LossyExts
  {
    var x := ext[1..];
    assert ext == ['.'] + x;
    var e := DottedExt("Lossy", x, ext);
  }

  lemma RecognisedTarExt(ext: String)
    requires ext == ".tar.gz" || ext == ".tar.xz" || ext == ".tar.bz2"
    ensures Lower(Paths.Ext("Lossy" + ext)) !in LossyExts
  {
    if ext == ".tar.gz" {
      TarExt(ext, "gz");
    } else if ext == ".tar.xz" {
      TarExt(ext, "xz");
    } else {
      TarExt(ext, "bz2");
    }
  }

  lemma TarExt(ext: String, x: String)
    requires x == "gz" || x == "xz" || x == "bz2"
    requires ext == ".tar" + (['.'] + x)
    ensures Lower(Paths.Ext("Lossy" + ext)) !in LossyExts
  {
    LossyTarRoot();
    CompressionSuffix(x);
    LossyTarName(['.'] + x);
    var e := DottedExt("Lossy.tar", x, ['.'] + x);
  }

  lemma LossyTarName(y: String)
    ensures "Lossy" + (".tar" + y) == "Lossy.tar" + y
  {
    assert "Lossy" + ".tar" == "Lossy.tar";
    assert "Lossy" + (".tar" + y) == ("Lossy" + ".tar") + y;
  }

  lemma LossyTarRoot()
    ensures "Lossy.tar" != [] && "Lossy.tar"[0] != '.' && Paths.Excludes("Lossy.tar", '/')
  {
  }

  lemma CompressionSuffix(x: String)
    requires x == "gz" || x == "xz" || x == "bz2"
    ensures Paths.Excludes(x, '.') && Paths.Excludes(x, '/') && IsLowercase(x) && ['.'] + x !in LossyExts
  {
    var e := ['.'] + x;
    assert |e| == 3 || e[1] == 'b';
    LossyExtsShape();
  }

  lemma LossyExtsShape()
    ensures forall e :: e in LossyExts ==> |e| == 4 && e[1] != 'b'
  {
  }

  /** The name "<root>.<x>" of a plain root and a lower-case x, whose
      extension ".<x>" is no lossy one. */
  lemma DottedExt(root: String, x: String, ext: String) returns (name: String)
    requires root != [] && root[0] != '.' && Paths.Excludes(root, '/')
    requires Paths.Excludes(x, '.') && Paths.Excludes(x, '/') && IsLowercase(x)
    requires ext == ['.'] + x && ext !in LossyExts
    ensures name == root + ext
    ensures Lower(Paths.Ext(name)) !in LossyExts
  {
    name := root + (['.'] + x);
    assert Paths.RFind(root, '/') == -1;
    assert root[0..] == root;
    Paths.SplitextOfRootExt(root, x);
    LowerDotted(x);
  }

  lemma LowerDotted(x: String)
    requires IsLowercase(x)
    ensures Lower(['.'] + x) == ['.'] + x
  {
    LowercaseFixed(['.'] + x);
  }

  lemma {:induction false} KeepNone(xs: seq<String>)
    ensures Keep(xs, {}, true) == [] && Keep(xs, {}, false) == xs
    decreases |xs|
  {
    if xs != [] {
      KeepNone(xs[..|xs| - 1]);
      assert xs[..|xs| - 1] + [xs[|xs| - 1]] == xs;
    }
  }

  // ---------------------------------------------------------------------------
  // `scan_archive`

  /** A folder of the walk: its path, its listing, what listing its existing
      archive prints, and where archiving in it raises. */
  datatype Folder = Folder(path: String, listing: seq<String>, output: Option<seq<String>>, faults: Faults)

  /** The folders holding lossy duplicates, each with its lossy files. */
  function Pending(folders: seq<Folder>, exts: set<String>): seq<(Folder, seq<String>)>
    decreases |folders|
  {
    if folders == [] then []
    else
      var f := folders[|folders| - 1];
      var lossy := FindMatchingLossy(f.listing, exts);
      Pending(folders[..|folders| - 1], exts) + (if lossy != [] then [(f, lossy)] else [])
  }

  function FolderOutcome(p: (Folder, seq<String>), exts: set<String>, archiveType: String, dryRun: bool, keep: bool): Outcome
  {
    ArchiveAndDeletePlan(p.0.path, p.0.listing, p.1, exts, archiveType, dryRun, keep, p.0.output, p.0.faults)
  }

  /** The outcome of archiving each pending folder on its own. */
  function Outcomes(pending: seq<(Folder, seq<String>)>, exts: set<String>, archiveType: String, dryRun: bool, keep: bool): (r: seq<Outcome>)
    ensures |r| == |pending|
  {
    seq(|pending|, i requires 0 <= i < |pending| => FolderOutcome(pending[i], exts, archiveType, dryRun, keep))
  }

  /** The second pass over the folders' outcomes: the total archived so far,
      and whether an exception escaped; no folder after that one counts. */
  function Tally(outcomes: seq<Outcome>): (nat, bool)
    decreases |outcomes|
  {
    if outcomes == [] then (0, false)
    else
      var prev := Tally(outcomes[..|outcomes| - 1]);
      if prev.1 then prev
      else
        var o := outcomes[|outcomes| - 1];
        (prev.0 + o.archived, o.aborted)
  }

  function ArchiveRun(pending: seq<(Folder, seq<String>)>, exts: set<String>, archiveType: String, dryRun: bool, keep: bool): (nat, bool)
  {
    Tally(Outcomes(pending, exts, archiveType, dryRun, keep))
  }

  /** `scan_archive`: first collect the folders with lossy duplicates, then
      archive each; returns the folders, the total number archived, and
      whether the run ended on an escaped exception (then no summary is
      printed). */
  method ScanArchive(folders: seq<Folder>, exts: set<String>, archiveType: String, dryRun: bool, keep: bool)
    returns (pending: seq<(Folder, seq<String>)>, total: nat, aborted: bool)
    ensures pending == Pending(folders, exts)
    ensures (total, aborted) == ArchiveRun(pending, exts, archiveType, dryRun, keep)
  {
    pending := CollectPending(folders, exts);
    total, aborted := ArchiveAll(pending, exts, archiveType, dryRun, keep);
  }

  /** The second pass: archive each pending folder and add up the counts,
      until an exception escapes. */
  method ArchiveAll(pending: seq<(Folder, seq<String>)>, exts: set<String>, archiveType: String, dryRun: bool, keep: bool)
    returns (total: nat, aborted: bool)
    ensures (total, aborted) == ArchiveRun(pending, exts, archiveType, dryRun, keep)
  {
    ghost var outcomes := Outcomes(pending, exts, archiveType, dryRun, keep);
    total, aborted := 0, false;
    var k := 0;
    while k < |pending| && !aborted
      invariant k <= |pending|
      invariant (total, aborted) == Tally(outcomes[..k])
    {
      TallySnoc(outcomes, k);
      var o := ArchivePending(pending[k], exts, archiveType, dryRun, keep);
      OutcomeAt(pending, k, exts, archiveType, dryRun, keep, o);
      total, aborted := total + o.archived, o.aborted;
      k := k + 1;
    }
    TallyStops(outcomes, k);
  }

  lemma OutcomeAt(pending: seq<(Folder, seq<String>)>, k: nat, exts: set<String>, archiveType: String, dryRun: bool, keep: bool, o: Outcome)
    requires k < |pending| && o == FolderOutcome(pending[k], exts, archiveType, dryRun, keep)
    ensures Outcomes(pending, exts, archiveType, dryRun, keep)[k] == o
  {
  }

  lemma TallySnoc(outcomes: seq<Outcome>, k: nat)
    requires k < |outcomes| && !Tally(outcomes[..k]).1
    ensures Tally(outcomes[..k + 1]) == (Tally(outcomes[..k]).0 + outcomes[k].archived, outcomes[k].aborted)
  {
    assert outcomes[..k + 1][..k] == outcomes[..k];
  }

  /** Once an exception has escaped, later folders change nothing. */
  lemma {:induction false} TallyStops(outcomes: seq<Outcome>, k: nat)
    requires k <= |outcomes| && (k == |outcomes| || Tally(outcomes[..k]).1)
    ensures Tally(outcomes) == Tally(outcomes[..k])
    decreases |outcomes|
  {
    if k < |outcomes| {
      var init := outcomes[..|outcomes| - 1];
      assert init[..k] == outcomes[..k];
      TallyStops(init, k);
    } else {
      assert outcomes[..k] == outcomes;
    }
  }

  /** The first pass: the folders with lossy duplicates, each with them. */
  method CollectPending(folders: seq<Folder>, exts: set<String>) returns (pending: seq<(Folder, seq<String>)>)
    ensures pending == Pending(folders, exts)
  {
    pending := [];
    var i := 0;
    while i < |folders|
      invariant i <= |folders|
      invariant pending == Pending(folders[..i], exts)
    {
      assert folders[..i + 1][..i] == folders[..i];
      var lossy := FindMatchingLossy(folders[i].listing, exts);
      if lossy != [] {
        pending := pending + [(folders[i], lossy)];
      }
      i := i + 1;
    }
    assert folders[..i] == folders;
  }

  /** `archive_and_delete` on one pending folder. */
  method ArchivePending(p: (Folder, seq<String>), exts: set<String>, archiveType: String, dryRun: bool, keep: bool)
    returns (o: Outcome)
    ensures o == FolderOutcome(p, exts, archiveType, dryRun, keep)
  {
    var (folder, lossy) := p;
    var archived, effects, aborted := ArchiveAndDelete(folder.path, folder.listing, lossy, exts, archiveType,
                                                       dryRun, keep, folder.output, folder.faults);
    o := Outcome(archived, effects, aborted);
  }

  function TotalLossy(pending: seq<(Folder, seq<String>)>): nat
    decreases |pending|
  {
    if pending == [] then 0 else TotalLossy(pending[..|pending| - 1]) + |pending[|pending| - 1].1|
  }

  /** A dry run archives nothing and always completes; no run archives more
      files than the lossy duplicates it found; and a run ends early only
      when it deletes for real and some folder's deletion of an already
      archived file raises. */
  lemma ArchiveRunBounds(pending: seq<(Folder, seq<String>)>, exts: set<String>, archiveType: String, dryRun: bool, keep: bool)
    ensures dryRun ==> ArchiveRun(pending, exts, archiveType, dryRun, keep) == (0, false)
    ensures ArchiveRun(pending, exts, archiveType, dryRun, keep).0 <= TotalLossy(pending)
    ensures ArchiveRun(pending, exts, archiveType, dryRun, keep).1 ==>
              !dryRun && !keep && exists k :: 0 <= k < |pending| && pending[k].0.faults.deleteAt.Some?
  {
    var outcomes := Outcomes(pending, exts, archiveType, dryRun, keep);
    forall i | 0 <= i < |pending|
      ensures OutcomeWithin(outcomes[i], pending[i], dryRun, keep)
    {
      FolderOutcomeBounds(pending[i], exts, archiveType, dryRun, keep);
    }
    TallyBounds(outcomes, pending, dryRun, keep);
  }

  /** An outcome as one pending folder allows it. */
  predicate OutcomeWithin(o: Outcome, p: (Folder, seq<String>), dryRun: bool, keep: bool)
  {
    && (dryRun ==> o.archived == 0 && !o.aborted)
    && o.archived <= |p.1|
    && (o.aborted ==> !dryRun && !keep && p.0.faults.deleteAt.Some?)
  }

  lemma {:induction false} TallyBounds(outcomes: seq<Outcome>, pending: seq<(Folder, seq<String>)>, dryRun: bool, keep: bool)
    requires |outcomes| == |pending|
    requires forall i :: 0 <= i < |pending| ==> OutcomeWithin(outcomes[i], pending[i], dryRun, keep)
    ensures dryRun ==> Tally(outcomes) == (0, false)
    ensures Tally(outcomes).0 <= TotalLossy(pending)
    ensures Tally(outcomes).1 ==> !dryRun && !keep && exists k :: 0 <= k < |pending| && pending[k].0.faults.deleteAt.Some?
    decreases |pending|
  {
    if pending != [] {
      var n := |pending| - 1;
      var init, p := pending[..n], pending[n];
      assert forall i :: 0 <= i < n ==> outcomes[..n][i] == outcomes[i] && init[i] == pending[i];
      TallyBounds(outcomes[..n], init, dryRun, keep);
      assert OutcomeWithin(outcomes[n], p, dryRun, keep);
      if Tally(outcomes[..n]).1 {
        var k :| 0 <= k < n && init[k].0.faults.deleteAt.Some?;
        assert pending[k] == init[k];
      }
    }
  }

  /** One folder: nothing in a dry run, at most its lossy duplicates, and an
      escaped exception only from a real deletion that was asked to fail. */
  lemma FolderOutcomeBounds(p: (Folder, seq<String>), exts: set<String>, archiveType: String, dryRun: bool, keep: bool)
    ensures OutcomeWithin(FolderOutcome(p, exts, archiveType, dryRun, keep), p, dryRun, keep)
  {
    PlanCount(p.0.path, p.0.listing, p.1, exts, archiveType, dryRun, keep, p.0.output, p.0.faults);
    KeepLength(p.1, ArchivedSet(p.0.path, p.0.listing, exts, p.0.output), false);
  }

  lemma {:induction false} KeepLength(xs: seq<String>, s: set<String>, keep: bool)
    ensures |Keep(xs, s, keep)| <= |xs|
    decreases |xs|
  {
    if xs != [] {
      KeepLength(xs[..|xs| - 1], s, keep);
    }
  }

  /** A folder with lossy duplicates, paired with them. */
  predicate PendingEntry(p: (Folder, seq<String>), exts: set<String>)
  {
    p.1 != [] && p.1 == FindMatchingLossy(p.0.listing, exts)
  }

  /** Exactly the folders with lossy duplicates are pending, each with its duplicates. */
  lemma {:induction false} PendingMembers(folders: seq<Folder>, exts: set<String>)
    ensures forall p :: p in Pending(folders, exts) <==> p.0 in folders && PendingEntry(p, exts)
    decreases |folders|
  {
    if folders != [] {
      var init := folders[..|folders| - 1];
      PendingMembers(init, exts);
      var f := folders[|folders| - 1];
      assert folders == init + [f];
      var lossy := FindMatchingLossy(f.listing, exts);
      assert Pending(folders, exts) == Pending(init, exts) + (if lossy != [] then [(f, lossy)] else []);
    }
  }
}
