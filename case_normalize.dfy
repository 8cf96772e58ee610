// Uniform lower-case names for the key archive images (`CaseNormalizer`).

module CaseNormalize {
  import opened Text
  import Paths

  const CoverVariants: set<String> :=
    {"cover.jpg", "cover.jpeg", "folder.jpg", "folder.jpeg",
     "album cover.jpg", "album cover.jpeg", "albumartsmall.jpg"}

  const ArtistVariants: set<String> := {"artist.jpg", "folder.jpg"}

  /** `TARGET_NAMES` in its insertion order: "cover.jpg" is tried first. */
  const TargetNames: seq<(String, set<String>)> :=
    [("cover.jpg", CoverVariants), ("artist.jpg", ArtistVariants)]

  /** The table scan of `check_file` from entry k on: the first target whose
      variants hold the lower-cased name and which differs from the name. */
  function CheckFrom(name: String, lower: String, k: nat): (bool, String)
    requires k <= |TargetNames|
    decreases |TargetNames| - k
  {
    if k == |TargetNames| then (false, "")
    else
      var (target, variants) := TargetNames[k];
      if lower in variants && name != target then (true, target)
      else CheckFrom(name, lower, k + 1)
  }

  /** `check_file`: a fix is needed exactly when the lower-cased name is a
      variant of a target it does not already equal; the suggestion is then
      that target, "cover.jpg" taking precedence, and otherwise "". */
  function CheckFile(name: String): (r: (bool, String))
    ensures r.0 <==>
      (Lower(name) in CoverVariants && name != "cover.jpg") || (Lower(name) in ArtistVariants && name != "artist.jpg")
    ensures r.0 ==> r.1 == if Lower(name) in CoverVariants && name != "cover.jpg" then "cover.jpg" else "artist.jpg"
    ensures !r.0 ==> r.1 == ""
  {
    CheckFrom(name, Lower(name), 0)
  }

  /** The targets themselves need no fix. */
  lemma CheckFileOfTargets()
    ensures CheckFile("cover.jpg") == (false, "")
    ensures CheckFile("artist.jpg") == (false, "")
  {
    LowercaseFixed("cover.jpg");
    LowercaseFixed("artist.jpg");
  }

  /** Whatever its case, "folder.jpg" becomes "cover.jpg", never "artist.jpg". */
  lemma FolderBecomesCover(name: String)
    requires Lower(name) == "folder.jpg"
    ensures CheckFile(name) == (true, "cover.jpg")
  {
    LowercaseFixed("cover.jpg");
  }

  // ---------------------------------------------------------------------------
  // `scan_archive`

  /** A file system entry from the recursive listing. */
  datatype Entry = Entry(dir: String, name: String, isFile: bool)

  function PathOf(e: Entry): String { Paths.Join(e.dir, e.name) }

  datatype FixLine = WouldRename(file: String, dest: String) | Renamed(file: String, dest: String)

  datatype Results = Results(fixed: seq<FixLine>, skipped: seq<String>, clean: nat, errors: seq<String>)

  /** The results together with the set of paths that exist. */
  datatype State = State(results: Results, paths: set<String>)

  predicate Considered(e: Entry)
  {
    e.isFile && !Paths.Hidden(e.name)
  }

  /** One file of the scan; renaming the paths in `failing` raises. */
  function ScanStep(st: State, e: Entry, dryRun: bool, failing: set<String>): State
  {
    if !Considered(e) then st
    else
      var (needsFix, suggested) := CheckFile(e.name);
      var res := st.results;
      if !needsFix then State(res.(clean := res.clean + 1), st.paths)
      else
        var file := PathOf(e);
        var dest := Paths.Join(e.dir, suggested);
        if dest in st.paths then State(res.(skipped := res.skipped + [file]), st.paths)
        else if dryRun then State(res.(fixed := res.fixed + [WouldRename(file, dest)]), st.paths)
        else if file in failing then State(res.(errors := res.errors + [file]), st.paths)
        else State(res.(fixed := res.fixed + [Renamed(file, dest)]), st.paths - {file} + {dest})
  }

  function Scan(entries: seq<Entry>, dryRun: bool, failing: set<String>, paths: set<String>): State
    decreases |entries|
  {
    if entries == [] then State(Results([], [], 0, []), paths)
    else ScanStep(Scan(entries[..|entries| - 1], dryRun, failing, paths), entries[|entries| - 1], dryRun, failing)
  }

  /** `scan_archive` over the recursive listing, starting from the existing
      paths; returns the results and the paths that exist afterwards. */
  method ScanArchive(entries: seq<Entry>, dryRun: bool, failing: set<String>, paths: set<String>)
    returns (results: Results, after: set<String>)
    ensures State(results, after) == Scan(entries, dryRun, failing, paths)
  {
    results := Results([], [], 0, []);
    after := paths;
    var i := 0;
    while i < |entries|
      invariant i <= |entries|
      invariant State(results, after) == Scan(entries[..i], dryRun, failing, paths)
    {
      var e := entries[i];
      assert entries[..i + 1][..i] == entries[..i];
      if Considered(e) {
        var (needsFix, suggested) := CheckFile(e.name);
        if needsFix {
          var file := PathOf(e);
          var dest := Paths.Join(e.dir, suggested);
          if dest in after {
            results := results.(skipped := results.skipped + [file]);
          } else if dryRun {
            results := results.(fixed := results.fixed + [WouldRename(file, dest)]);
          } else if file in failing {
            results := results.(errors := results.errors + [file]);
          } else {
            after := after - {file} + {dest};
            results := results.(fixed := results.fixed + [Renamed(file, dest)]);
          }
        } else {
          results := results.(clean := results.clean + 1);
        }
      }
      i := i + 1;
    }
    assert entries[..i] == entries;
  }

  function CountConsidered(entries: seq<Entry>): nat
    decreases |entries|
  {
    if entries == [] then 0
    else CountConsidered(entries[..|entries| - 1]) + (if Considered(entries[|entries| - 1]) then 1 else 0)
  }

  /** Each regular, non-hidden file lands in exactly one of the four buckets;
      other entries in none. */
  lemma {:induction false} ScanPartition(entries: seq<Entry>, dryRun: bool, failing: set<String>, paths: set<String>)
    ensures var r := Scan(entries, dryRun, failing, paths).results;
            |r.fixed| + |r.skipped| + r.clean + |r.errors| == CountConsidered(entries)
    decreases |entries|
  {
    if entries != [] {
      ScanPartition(entries[..|entries| - 1], dryRun, failing, paths);
    }
  }

  /** A dry run renames nothing, raises nothing, and only says what it would do. */
  lemma {:induction false} ScanDryRun(entries: seq<Entry>, failing: set<String>, paths: set<String>)
    ensures var st := Scan(entries, true, failing, paths);
            && st.paths == paths && st.results.errors == []
            && forall k :: 0 <= k < |st.results.fixed| ==> st.results.fixed[k].WouldRename?
    decreases |entries|
  {
    if entries != [] {
      var prev := Scan(entries[..|entries| - 1], true, failing, paths);
      ScanDryRun(entries[..|entries| - 1], failing, paths);
      var st := Scan(entries, true, failing, paths);
      forall k | 0 <= k < |st.results.fixed| ensures st.results.fixed[k].WouldRename? {
        if k < |prev.results.fixed| {
          assert st.results.fixed[k] == prev.results.fixed[k];
        }
      }
    }
  }

  function Sources(lines: seq<FixLine>): set<String>
  {
    set k | 0 <= k < |lines| && lines[k].Renamed? :: lines[k].file
  }

  function Dests(lines: seq<FixLine>): set<String>
  {
    set k | 0 <= k < |lines| && lines[k].Renamed? :: lines[k].dest
  }

  /** Nothing is lost: a path disappears only as the source of a rename,
      and a path appears only as the destination of one. */
  lemma {:induction false} ScanNeverOverwrites(entries: seq<Entry>, dryRun: bool, failing: set<String>, paths: set<String>)
    ensures var st := Scan(entries, dryRun, failing, paths);
            && paths - Sources(st.results.fixed) <= st.paths
            && st.paths <= paths + Dests(st.results.fixed)
    decreases |entries|
  {
    if entries != [] {
      var prev := Scan(entries[..|entries| - 1], dryRun, failing, paths);
      ScanNeverOverwrites(entries[..|entries| - 1], dryRun, failing, paths);
      var st := Scan(entries, dryRun, failing, paths);
      assert st == ScanStep(prev, entries[|entries| - 1], dryRun, failing);
      StepMoves(prev, entries[|entries| - 1], dryRun, failing, st);
      var pf, sf := prev.results.fixed, st.results.fixed;
      if |sf| > |pf| {
        SourcesDestsSnoc(pf, sf[|pf|], sf);
      }
    }
  }

  /** One step keeps the earlier lines, adds at most one, and changes the
      paths only by the rename that line records; the line it adds names a
      destination that did not exist before the step. */
  lemma StepMoves(st: State, e: Entry, dryRun: bool, failing: set<String>, next: State)
    requires next == ScanStep(st, e, dryRun, failing)
    ensures var f, g := st.results.fixed, next.results.fixed;
            || (g == f && next.paths == st.paths)
            || (|g| == |f| + 1 && g == f + [g[|f|]] && g[|f|].dest !in st.paths
                && (next.paths == st.paths
                    || (g[|f|].Renamed? && next.paths == st.paths - {g[|f|].file} + {g[|f|].dest})))
  {
  }

  /** No rename lands on an existing name: the fix line written while
      processing entry j names a destination absent from the paths as they
      were before that entry, and a real rename only moves that one file. */
  lemma ScanRenamesOntoFreshNames(entries: seq<Entry>, dryRun: bool, failing: set<String>, paths: set<String>, j: nat)
    requires j < |entries|
    ensures var before, after := Scan(entries[..j], dryRun, failing, paths), Scan(entries[..j + 1], dryRun, failing, paths);
            var f := before.results.fixed;
            |after.results.fixed| > |f| ==>
              && after.results.fixed[|f|].dest !in before.paths
              && (after.results.fixed[|f|].Renamed? ==>
                    after.paths == before.paths - {after.results.fixed[|f|].file} + {after.results.fixed[|f|].dest})
              && (after.results.fixed[|f|].WouldRename? ==> after.paths == before.paths)
  {
    var before := Scan(entries[..j], dryRun, failing, paths);
    assert entries[..j + 1][..j] == entries[..j];
    var after := ScanStep(before, entries[j], dryRun, failing);
    assert Scan(entries[..j + 1], dryRun, failing, paths) == after;
    StepMoves(before, entries[j], dryRun, failing, after);
  }

  lemma SourcesDestsSnoc(lines: seq<FixLine>, line: FixLine, all: seq<FixLine>)
    requires all == lines + [line]
    ensures Sources(all) == Sources(lines) + (if line.Renamed? then {line.file} else {})
    ensures Dests(all) == Dests(lines) + (if line.Renamed? then {line.dest} else {})
  {
    assert forall k :: 0 <= k < |lines| ==> all[k] == lines[k];
    assert all[|lines|] == line;
  }

  /** The line of a file that needs a fix: its path and the suggested name
      in the same folder. */
  predicate FixOf(e: Entry, line: FixLine)
  {
    NeedsFix(e, line.file) && line.dest == Paths.Join(e.dir, CheckFile(e.name).1)
  }

  /** A listed file that needs a fix, at this path. */
  predicate NeedsFix(e: Entry, path: String)
  {
    Considered(e) && CheckFile(e.name).0 && PathOf(e) == path
  }

  predicate FromListing(entries: seq<Entry>, line: FixLine)
  {
    exists i :: 0 <= i < |entries| && FixOf(entries[i], line)
  }

  predicate NeedsFixAt(entries: seq<Entry>, path: String)
  {
    exists i :: 0 <= i < |entries| && NeedsFix(entries[i], path)
  }

  /** Every fix line renames a listed file that needs a fix to its suggested
      name, and every skipped path is a listed file that needs one. */
  lemma ScanLinesFromListing(entries: seq<Entry>, dryRun: bool, failing: set<String>, paths: set<String>)
    ensures var r := Scan(entries, dryRun, failing, paths).results;
            && (forall k :: 0 <= k < |r.fixed| ==> FromListing(entries, r.fixed[k]))
            && (forall k :: 0 <= k < |r.skipped| ==> NeedsFixAt(entries, r.skipped[k]))
  {
    FixedFromListing(entries, dryRun, failing, paths);
    SkippedFromListing(entries, dryRun, failing, paths);
  }

  predicate FixedListed(entries: seq<Entry>, lines: seq<FixLine>)
  {
    forall k :: 0 <= k < |lines| ==> FromListing(entries, lines[k])
  }

  predicate SkippedListed(entries: seq<Entry>, skipped: seq<String>)
  {
    forall k :: 0 <= k < |skipped| ==> NeedsFixAt(entries, skipped[k])
  }

  lemma {:induction false} FixedFromListing(entries: seq<Entry>, dryRun: bool, failing: set<String>, paths: set<String>)
    ensures FixedListed(entries, Scan(entries, dryRun, failing, paths).results.fixed)
    decreases |entries|
  {
    if entries != [] {
      var init, e := entries[..|entries| - 1], entries[|entries| - 1];
      FixedFromListing(init, dryRun, failing, paths);
      var prev := Scan(init, dryRun, failing, paths);
      var st := Scan(entries, dryRun, failing, paths);
      assert st == ScanStep(prev, e, dryRun, failing);
      StepFixes(prev, e, dryRun, failing, st);
      var p, r := prev.results.fixed, st.results.fixed;
      forall k | 0 <= k < |r| ensures FromListing(entries, r[k]) {
        if k < |p| {
          assert r[k] == p[k];
          FromListingGrows(init, entries, p[k]);
        } else {
          assert entries[|entries| - 1] == e;
        }
      }
    }
  }

  lemma {:induction false} SkippedFromListing(entries: seq<Entry>, dryRun: bool, failing: set<String>, paths: set<String>)
    ensures SkippedListed(entries, Scan(entries, dryRun, failing, paths).results.skipped)
    decreases |entries|
  {
    if entries != [] {
      var init, e := entries[..|entries| - 1], entries[|entries| - 1];
      SkippedFromListing(init, dryRun, failing, paths);
      var prev := Scan(init, dryRun, failing, paths);
      var st := Scan(entries, dryRun, failing, paths);
      assert st == ScanStep(prev, e, dryRun, failing);
      StepSkips(prev, e, dryRun, failing, st);
      var p, r := prev.results.skipped, st.results.skipped;
      forall k | 0 <= k < |r| ensures NeedsFixAt(entries, r[k]) {
        if k < |p| {
          assert r[k] == p[k];
          NeedsFixAtGrows(init, entries, p[k]);
        } else {
          assert entries[|entries| - 1] == e;
        }
      }
    }
  }

  /** One step keeps the earlier fix lines and adds at most one, for its entry. */
  lemma StepFixes(st: State, e: Entry, dryRun: bool, failing: set<String>, next: State)
    requires next == ScanStep(st, e, dryRun, failing)
    ensures var f, g := st.results.fixed, next.results.fixed;
            g == f || (|g| == |f| + 1 && g[..|f|] == f && FixOf(e, g[|f|]))
  {
  }

  /** One step keeps the earlier skipped paths and adds at most one, its entry's. */
  lemma StepSkips(st: State, e: Entry, dryRun: bool, failing: set<String>, next: State)
    requires next == ScanStep(st, e, dryRun, failing)
    ensures var f, g := st.results.skipped, next.results.skipped;
            g == f || (|g| == |f| + 1 && g[..|f|] == f && NeedsFix(e, g[|f|]))
  {
  }

  lemma FromListingGrows(init: seq<Entry>, entries: seq<Entry>, line: FixLine)
    requires |entries| > 0 && init == entries[..|entries| - 1] && FromListing(init, line)
    ensures FromListing(entries, line)
  {
    var i :| 0 <= i < |init| && FixOf(init[i], line);
    assert entries[i] == init[i];
  }

  lemma NeedsFixAtGrows(init: seq<Entry>, entries: seq<Entry>, path: String)
    requires |entries| > 0 && init == entries[..|entries| - 1] && NeedsFixAt(init, path)
    ensures NeedsFixAt(entries, path)
  {
    var i :| 0 <= i < |init| && NeedsFix(init[i], path);
    assert entries[i] == init[i];
  }
}
