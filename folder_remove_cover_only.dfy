// Finding and removing folders that are empty or hold nothing but cover
// images (`folder_remove_cover_only.py`). The walk's listings are given; the
// disk is a set of file paths and a set of folder paths.

module CoverOnlyFolders {
  import opened Text
  import Paths

  const CoverNames: set<String> :=
    {"cover.jpg", "cover.jpeg", "cover.png", "cover.webp",
     "folder.jpg", "folder.jpeg", "folder.png", "folder.webp",
     "album cover.jpg", "album cover.jpeg", "albumartsmall.jpg", "artist.jpg"}

  /** `is_cover_file`: case-insensitive membership in `COVER_NAMES`. */
  predicate IsCoverFile(name: String)
  {
    Lower(name) in CoverNames
  }

  /** Spellings that differ only in case are covers alike, and a cover name
      is one in every spelling. */
  lemma CoverIgnoresCase(a: String, b: String)
    requires Lower(a) == Lower(b)
    ensures IsCoverFile(a) <==> IsCoverFile(b)
    ensures IsCoverFile(a) <==> IsCoverFile(Lower(a))
  {
    LowerIsLowercase(a);
  }

  // ---------------------------------------------------------------------------
  // `is_empty_or_cover_only`

  datatype Item = Item(name: String, isDir: bool)

  /** A folder's listing, or the permission error raised by reading it. */
  datatype Listing = Denied | Listed(items: seq<Item>)

  /** "Skip", or whether the folder counts as empty and the names it holds. */
  datatype Verdict = Unreadable | Verdict(emptyish: bool, contents: seq<String>)

  function Names(items: seq<Item>): (r: seq<String>)
    ensures |r| == |items| && forall i :: 0 <= i < |items| ==> r[i] == items[i].name
  {
    seq(|items|, i requires 0 <= i < |items| => items[i].name)
  }

  predicate HasDir(items: seq<Item>)
  {
    exists i :: 0 <= i < |items| && items[i].isDir
  }

  predicate AllCovers(items: seq<Item>)
  {
    forall i :: 0 <= i < |items| ==> IsCoverFile(items[i].name)
  }

  /** What the folder is: unreadable; empty; not empty because it has a
      sub-folder; or, holding only files, empty exactly when every file is a
      cover. */
  function Classify(l: Listing): Verdict
  {
    if l.Denied? then Unreadable
    else if l.items == [] then Verdict(true, [])
    else if HasDir(l.items) then Verdict(false, Names(l.items))
    else Verdict(AllCovers(l.items), Names(l.items))
  }

  /** `is_empty_or_cover_only`: the loop stops at the first sub-folder and
      otherwise collects the names that are not covers. */
  method IsEmptyOrCoverOnly(l: Listing) returns (v: Verdict)
    ensures v == Classify(l)
  {
    if l.Denied? {
      return Unreadable;
    }
    var items := l.items;
    if items == [] {
      return Verdict(true, []);
    }
    var nonCover: seq<String> := [];
    var i := 0;
    while i < |items|
      invariant i <= |items|
      invariant forall j :: 0 <= j < i ==> !items[j].isDir
      invariant nonCover == [] <==> forall j :: 0 <= j < i ==> IsCoverFile(items[j].name)
    {
      if items[i].isDir {
        return Verdict(false, Names(items));
      }
      if !IsCoverFile(items[i].name) {
        nonCover := nonCover + [items[i].name];
      }
      i := i + 1;
    }
    return Verdict(|nonCover| == 0, Names(items));
  }

  /** A folder counts as empty only when it is readable, has no sub-folder
      and holds covers only, which the contents then name; its contents are
      empty exactly when the folder is. */
  lemma ClassifyEmptyish(l: Listing)
    ensures Classify(l).Verdict? && Classify(l).emptyish ==>
      l.Listed? && !HasDir(l.items) && AllCovers(l.items) && Classify(l).contents == Names(l.items)
    ensures Classify(l) == Verdict(true, []) <==> l == Listed([])
    ensures l.Listed? && HasDir(l.items) ==> Classify(l).Verdict? && !Classify(l).emptyish
  {
    if l.Listed? && l.items != [] {
      assert |Names(l.items)| > 0;
    }
  }

  // ---------------------------------------------------------------------------
  // `scan_and_clean`, first phase: classify every folder of the walk

  datatype WalkEntry = WalkEntry(path: String, listing: Listing)

  /** The folders found empty and those found to hold only covers. */
  datatype Found = Found(empty: seq<String>, coverOnly: seq<(String, seq<String>)>)

  function FoundStep(f: Found, e: WalkEntry, root: String): Found
  {
    if e.path == root then f
    else
      match Classify(e.listing)
      case Unreadable => f
      case Verdict(emptyish, contents) =>
        if !emptyish then f
        else if contents == [] then f.(empty := f.empty + [e.path])
        else f.(coverOnly := f.coverOnly + [(e.path, contents)])
  }

  /** The walk is bottom-up, and listed before anything is deleted. */
  function Classified(walk: seq<WalkEntry>, root: String): Found
    decreases |walk|
  {
    if walk == [] then Found([], [])
    else FoundStep(Classified(walk[..|walk| - 1], root), walk[|walk| - 1], root)
  }

  predicate EmptyEntry(walk: seq<WalkEntry>, root: String, p: String)
  {
    exists i :: 0 <= i < |walk| && walk[i].path == p && p != root && walk[i].listing == Listed([])
  }

  predicate CoverOnlyEntry(walk: seq<WalkEntry>, root: String, p: (String, seq<String>))
  {
    exists i :: 0 <= i < |walk| && walk[i].path == p.0 && p.0 != root
      && Classify(walk[i].listing) == Verdict(true, p.1) && p.1 != []
  }

  /** The empty folders are exactly the readable, empty, non-root folders of
      the walk; the cover-only folders exactly the non-root folders made of
      covers only, each with its names. */
  lemma {:induction false} ClassifiedMembers(walk: seq<WalkEntry>, root: String)
    ensures forall p :: p in Classified(walk, root).empty <==> EmptyEntry(walk, root, p)
    ensures forall p :: p in Classified(walk, root).coverOnly <==> CoverOnlyEntry(walk, root, p)
    decreases |walk|
  {
    if walk != [] {
      var init := walk[..|walk| - 1];
      var e := walk[|walk| - 1];
      ClassifiedMembers(init, root);
      ClassifyEmptyish(e.listing);
      forall p ensures EmptyEntry(walk, root, p) <==> EmptyEntry(init, root, p) || (p == e.path && p != root && e.listing == Listed([])) {
        if EmptyEntry(walk, root, p) {
          var i :| 0 <= i < |walk| && walk[i].path == p && p != root && walk[i].listing == Listed([]);
          if i < |init| {
            assert init[i] == walk[i];
          }
        }
        if EmptyEntry(init, root, p) {
          var i :| 0 <= i < |init| && init[i].path == p && p != root && init[i].listing == Listed([]);
          assert walk[i] == init[i];
        }
      }
      forall p ensures CoverOnlyEntry(walk, root, p) <==>
        (CoverOnlyEntry(init, root, p) || (p.0 == e.path && p.0 != root && Classify(e.listing) == Verdict(true, p.1) && p.1 != []))
      {
        if CoverOnlyEntry(walk, root, p) {
          var i :| 0 <= i < |walk| && walk[i].path == p.0 && p.0 != root && Classify(walk[i].listing) == Verdict(true, p.1) && p.1 != [];
          if i < |init| {
            assert init[i] == walk[i];
          }
        }
        if CoverOnlyEntry(init, root, p) {
          var i :| 0 <= i < |init| && init[i].path == p.0 && p.0 != root && Classify(init[i].listing) == Verdict(true, p.1) && p.1 != [];
          assert walk[i] == init[i];
        }
      }
    }
  }

  /** A folder holding a sub-folder is never flagged, even when that
      sub-folder is itself empty: nothing is deleted during the walk. */
  lemma ParentNotFlagged(f: Found, e: WalkEntry, root: String)
    requires e.listing.Listed? && HasDir(e.listing.items)
    ensures FoundStep(f, e, root) == f
  {
    ClassifyEmptyish(e.listing);
  }

  // ---------------------------------------------------------------------------
  // Second phase: deletion

  datatype Disk = Disk(files: set<String>, dirs: set<String>)

  /** Failures the disk may raise besides a non-empty folder: folders that
      cannot be removed and files that cannot be deleted. */
  datatype World = World(stuck: set<String>, undeletable: set<String>)

  /** The disk and the counters `deleted_empty`, `deleted_cover_only` and
      `deleted_covers`. */
  datatype Clean = Clean(disk: Disk, deletedEmpty: nat, deletedCoverOnly: nat, deletedCovers: nat)

  /** `os.rmdir` succeeds on an existing folder with nothing in it. */
  predicate CanRmdir(d: Disk, path: String, w: World)
  {
    path in d.dirs && path !in w.stuck
    && (forall f :: f in d.files ==> Paths.Dirname(f) != path)
    && (forall e :: e in d.dirs ==> Paths.Dirname(e) != path)
  }

  function EmptyStep(c: Clean, path: String, dryRun: bool, w: World): Clean
  {
    if !dryRun && CanRmdir(c.disk, path, w) then
      Clean(Disk(c.disk.files, c.disk.dirs - {path}), c.deletedEmpty + 1, c.deletedCoverOnly, c.deletedCovers)
    else c
  }

  function DeleteEmpty(c: Clean, paths: seq<String>, dryRun: bool, w: World): Clean
    decreases |paths|
  {
    if paths == [] then c
    else EmptyStep(DeleteEmpty(c, paths[..|paths| - 1], dryRun, w), paths[|paths| - 1], dryRun, w)
  }

  function CoverFileStep(c: Clean, path: String, cover: String, w: World): Clean
  {
    var file := Paths.Join(path, cover);
    if file in c.disk.files && file !in w.undeletable then
      Clean(Disk(c.disk.files - {file}, c.disk.dirs), c.deletedEmpty, c.deletedCoverOnly, c.deletedCovers + 1)
    else c
  }

  function RemoveCovers(c: Clean, path: String, covers: seq<String>, w: World): Clean
    decreases |covers|
  {
    if covers == [] then c
    else CoverFileStep(RemoveCovers(c, path, covers[..|covers| - 1], w), path, covers[|covers| - 1], w)
  }

  function CoverFolderStep(c: Clean, p: (String, seq<String>), dryRun: bool, deleteCovers: bool, w: World): Clean
  {
    if dryRun then c
    else
      var c1 := if deleteCovers then RemoveCovers(c, p.0, p.1, w) else c;
      if CanRmdir(c1.disk, p.0, w) then
        Clean(Disk(c1.disk.files, c1.disk.dirs - {p.0}), c1.deletedEmpty, c1.deletedCoverOnly + 1, c1.deletedCovers)
      else c1
  }

  function DeleteCoverOnly(c: Clean, folders: seq<(String, seq<String>)>, dryRun: bool, deleteCovers: bool, w: World): Clean
    decreases |folders|
  {
    if folders == [] then c
    else CoverFolderStep(DeleteCoverOnly(c, folders[..|folders| - 1], dryRun, deleteCovers, w), folders[|folders| - 1], dryRun, deleteCovers, w)
  }

  /** Empty folders first, then the cover-only ones. */
  function Cleaned(f: Found, disk: Disk, dryRun: bool, deleteCovers: bool, w: World): Clean
  {
    DeleteCoverOnly(DeleteEmpty(Clean(disk, 0, 0, 0), f.empty, dryRun, w), f.coverOnly, dryRun, deleteCovers, w)
  }

  /** Every cover file the cover-only folders name. */
  predicate ListedCover(folders: seq<(String, seq<String>)>, file: String)
  {
    exists k, j :: 0 <= k < |folders| && 0 <= j < |folders[k].1| && file == Paths.Join(folders[k].0, folders[k].1[j])
  }

  function TotalCovers(folders: seq<(String, seq<String>)>): nat
    decreases |folders|
  {
    if folders == [] then 0 else TotalCovers(folders[..|folders| - 1]) + |folders[|folders| - 1].1|
  }

  /** Deleting the empty folders removes some of them and nothing else. */
  lemma {:induction false} DeleteEmptyEffect(c: Clean, paths: seq<String>, dryRun: bool, w: World)
    ensures var r := DeleteEmpty(c, paths, dryRun, w);
            && r.disk.files == c.disk.files && r.disk.dirs <= c.disk.dirs
            && r.deletedCoverOnly == c.deletedCoverOnly && r.deletedCovers == c.deletedCovers
            && c.deletedEmpty <= r.deletedEmpty <= c.deletedEmpty + |paths|
            && |c.disk.dirs| == |r.disk.dirs| + (r.deletedEmpty - c.deletedEmpty)
            && (forall d :: d in c.disk.dirs && d !in r.disk.dirs ==> d in paths)
            && (dryRun ==> r == c)
    decreases |paths|
  {
    if paths != [] {
      var init := paths[..|paths| - 1];
      DeleteEmptyEffect(c, init, dryRun, w);
      var r1 := DeleteEmpty(c, init, dryRun, w);
      var path := paths[|paths| - 1];
      if !dryRun && CanRmdir(r1.disk, path, w) {
        assert |r1.disk.dirs - {path}| == |r1.disk.dirs| - 1;
      }
      assert forall d :: d in init ==> d in paths;
    }
  }

  /** Deleting a folder's covers removes some of its listed cover files and nothing else. */
  lemma {:induction false} RemoveCoversEffect(c: Clean, path: String, covers: seq<String>, w: World)
    ensures var r := RemoveCovers(c, path, covers, w);
            && r.disk.dirs == c.disk.dirs && r.disk.files <= c.disk.files
            && r.deletedEmpty == c.deletedEmpty && r.deletedCoverOnly == c.deletedCoverOnly
            && c.deletedCovers <= r.deletedCovers <= c.deletedCovers + |covers|
            && |c.disk.files| == |r.disk.files| + (r.deletedCovers - c.deletedCovers)
            && (forall f :: f in c.disk.files && f !in r.disk.files ==>
                  exists j :: 0 <= j < |covers| && f == Paths.Join(path, covers[j]))
    decreases |covers|
  {
    if covers != [] {
      var init := covers[..|covers| - 1];
      RemoveCoversEffect(c, path, init, w);
      var r1 := RemoveCovers(c, path, init, w);
      var file := Paths.Join(path, covers[|covers| - 1]);
      if file in r1.disk.files && file !in w.undeletable {
        assert |r1.disk.files - {file}| == |r1.disk.files| - 1;
      }
      var r := RemoveCovers(c, path, covers, w);
      forall f | f in c.disk.files && f !in r.disk.files
        ensures exists j :: 0 <= j < |covers| && f == Paths.Join(path, covers[j])
      {
        if f in r1.disk.files {
          assert f == Paths.Join(path, covers[|covers| - 1]);
        } else {
          var j :| 0 <= j < |init| && f == Paths.Join(path, init[j]);
          assert covers[j] == init[j];
        }
      }
    }
  }

  lemma CoverFolderStepEffect(c: Clean, p: (String, seq<String>), dryRun: bool, deleteCovers: bool, w: World)
    ensures var r := CoverFolderStep(c, p, dryRun, deleteCovers, w);
            && r.disk.files <= c.disk.files && r.disk.dirs <= c.disk.dirs
            && r.deletedEmpty == c.deletedEmpty
            && c.deletedCoverOnly <= r.deletedCoverOnly <= c.deletedCoverOnly + 1
            && c.deletedCovers <= r.deletedCovers <= c.deletedCovers + |p.1|
            && |c.disk.files| == |r.disk.files| + (r.deletedCovers - c.deletedCovers)
            && |c.disk.dirs| == |r.disk.dirs| + (r.deletedCoverOnly - c.deletedCoverOnly)
            && (forall d :: d in c.disk.dirs && d !in r.disk.dirs ==> d == p.0)
            && (forall f :: f in c.disk.files && f !in r.disk.files ==>
                  exists j :: 0 <= j < |p.1| && f == Paths.Join(p.0, p.1[j]))
            && (!deleteCovers ==> r.disk.files == c.disk.files && r.deletedCovers == c.deletedCovers)
            && (dryRun ==> r == c)
  {
    if !dryRun {
      RemoveCoversEffect(c, p.0, p.1, w);
      var c1 := if deleteCovers then RemoveCovers(c, p.0, p.1, w) else c;
      if CanRmdir(c1.disk, p.0, w) {
        assert |c1.disk.dirs - {p.0}| == |c1.disk.dirs| - 1;
      }
    }
  }

  /** Deleting the cover-only folders removes some of them and some of the
      covers they list, and nothing else. */
  lemma {:induction false} DeleteCoverOnlyEffect(c: Clean, folders: seq<(String, seq<String>)>, dryRun: bool, deleteCovers: bool, w: World)
    ensures var r := DeleteCoverOnly(c, folders, dryRun, deleteCovers, w);
            && r.disk.files <= c.disk.files && r.disk.dirs <= c.disk.dirs
            && r.deletedEmpty == c.deletedEmpty
            && c.deletedCoverOnly <= r.deletedCoverOnly <= c.deletedCoverOnly + |folders|
            && c.deletedCovers <= r.deletedCovers <= c.deletedCovers + TotalCovers(folders)
            && |c.disk.files| == |r.disk.files| + (r.deletedCovers - c.deletedCovers)
            && |c.disk.dirs| == |r.disk.dirs| + (r.deletedCoverOnly - c.deletedCoverOnly)
            && (forall d :: d in c.disk.dirs && d !in r.disk.dirs ==> exists k :: 0 <= k < |folders| && folders[k].0 == d)
            && (forall f :: f in c.disk.files && f !in r.disk.files ==> ListedCover(folders, f))
            && (!deleteCovers ==> r.disk.files == c.disk.files && r.deletedCovers == c.deletedCovers)
            && (dryRun ==> r == c)
    decreases |folders|
  {
    if folders != [] {
      var init := folders[..|folders| - 1];
      var p := folders[|folders| - 1];
      DeleteCoverOnlyEffect(c, init, dryRun, deleteCovers, w);
      var r1 := DeleteCoverOnly(c, init, dryRun, deleteCovers, w);
      CoverFolderStepEffect(r1, p, dryRun, deleteCovers, w);
      var r := DeleteCoverOnly(c, folders, dryRun, deleteCovers, w);
      forall d | d in c.disk.dirs && d !in r.disk.dirs ensures exists k :: 0 <= k < |folders| && folders[k].0 == d {
        if d in r1.disk.dirs {
          assert folders[|folders| - 1].0 == d;
        } else {
          var k :| 0 <= k < |init| && init[k].0 == d;
          assert folders[k] == init[k];
        }
      }
      forall f | f in c.disk.files && f !in r.disk.files ensures ListedCover(folders, f) {
        if f in r1.disk.files {
          var j :| 0 <= j < |p.1| && f == Paths.Join(p.0, p.1[j]);
          assert folders[|folders| - 1] == p;
        } else {
          assert ListedCover(init, f);
          var k, j :| 0 <= k < |init| && 0 <= j < |init[k].1| && f == Paths.Join(init[k].0, init[k].1[j]);
          assert folders[k] == init[k];
        }
      }
    }
  }

  /** What the deletion phase promises: a dry run deletes nothing and counts
      nothing; otherwise it removes only flagged folders and the covers that
      the cover-only folders list (these only with `delete_covers`), each
      removal counted once and no counter above what was found. */
  lemma CleanedProperties(f: Found, disk: Disk, dryRun: bool, deleteCovers: bool, w: World)
    ensures var r := Cleaned(f, disk, dryRun, deleteCovers, w);
            && (dryRun ==> r == Clean(disk, 0, 0, 0))
            && r.deletedEmpty <= |f.empty| && r.deletedCoverOnly <= |f.coverOnly|
            && r.deletedCovers <= TotalCovers(f.coverOnly)
            && r.disk.files <= disk.files && r.disk.dirs <= disk.dirs
            && |disk.files| == |r.disk.files| + r.deletedCovers
            && |disk.dirs| == |r.disk.dirs| + r.deletedEmpty + r.deletedCoverOnly
            && (forall d :: d in disk.dirs && d !in r.disk.dirs ==>
                  d in f.empty || exists k :: 0 <= k < |f.coverOnly| && f.coverOnly[k].0 == d)
            && (forall x :: x in disk.files && x !in r.disk.files ==> ListedCover(f.coverOnly, x))
            && (!deleteCovers ==> r.disk.files == disk.files && r.deletedCovers == 0)
  {
    var c0 := Clean(disk, 0, 0, 0);
    DeleteEmptyEffect(c0, f.empty, dryRun, w);
    DeleteCoverOnlyEffect(DeleteEmpty(c0, f.empty, dryRun, w), f.coverOnly, dryRun, deleteCovers, w);
  }

  /** Without `delete_covers` a cover-only folder whose covers are still on
      disk cannot be removed: `os.rmdir` refuses a folder that is not empty. */
  lemma CoverOnlyKeptWithoutDeleteCovers(f: Found, disk: Disk, dryRun: bool, w: World)
    requires forall k :: 0 <= k < |f.coverOnly| ==> HoldsFile(disk.files, f.coverOnly[k].0)
    ensures Cleaned(f, disk, dryRun, false, w).deletedCoverOnly == 0
  {
    var c0 := Clean(disk, 0, 0, 0);
    DeleteEmptyEffect(c0, f.empty, dryRun, w);
    KeptFolders(DeleteEmpty(c0, f.empty, dryRun, w), f.coverOnly, dryRun, w);
  }

  /** Some file lies directly in folder path. */
  predicate HoldsFile(files: set<String>, path: String)
  {
    exists x :: x in files && Paths.Dirname(x) == path
  }

  lemma {:induction false} KeptFolders(c: Clean, folders: seq<(String, seq<String>)>, dryRun: bool, w: World)
    requires forall k :: 0 <= k < |folders| ==> HoldsFile(c.disk.files, folders[k].0)
    ensures DeleteCoverOnly(c, folders, dryRun, false, w).deletedCoverOnly == c.deletedCoverOnly
    ensures DeleteCoverOnly(c, folders, dryRun, false, w).disk.files == c.disk.files
    decreases |folders|
  {
    if folders != [] {
      var init := folders[..|folders| - 1];
      assert forall k :: 0 <= k < |init| ==> init[k] == folders[k];
      KeptFolders(c, init, dryRun, w);
      var r1 := DeleteCoverOnly(c, init, dryRun, false, w);
      var p := folders[|folders| - 1];
      assert HoldsFile(c.disk.files, p.0);
      var x :| x in c.disk.files && Paths.Dirname(x) == p.0;
      assert !CanRmdir(r1.disk, p.0, w);
    }
  }

  // ---------------------------------------------------------------------------
  // The methods

  /** The first phase: every folder of the walk is counted, the root is
      skipped, and so are unreadable folders. */
  method ClassifyWalk(walk: seq<WalkEntry>, root: String) returns (found: Found, scanned: nat)
    ensures found == Classified(walk, root) && scanned == |walk|
  {
    found := Found([], []);
    scanned := 0;
    var i := 0;
    while i < |walk|
      invariant i <= |walk| && scanned == i
      invariant found == Classified(walk[..i], root)
    {
      assert walk[..i + 1][..i] == walk[..i];
      var e := walk[i];
      scanned := scanned + 1;
      if e.path != root {
        var v := IsEmptyOrCoverOnly(e.listing);
        if v.Verdict? && v.emptyish {
          if v.contents == [] {
            found := found.(empty := found.empty + [e.path]);
          } else {
            found := found.(coverOnly := found.coverOnly + [(e.path, v.contents)]);
          }
        }
      }
      i := i + 1;
    }
    assert walk[..i] == walk;
  }

  method DeleteEmptyFolders(c0: Clean, paths: seq<String>, dryRun: bool, w: World) returns (c: Clean)
    ensures c == DeleteEmpty(c0, paths, dryRun, w)
  {
    c := c0;
    var i := 0;
    while i < |paths|
      invariant i <= |paths|
      invariant c == DeleteEmpty(c0, paths[..i], dryRun, w)
    {
      assert paths[..i + 1][..i] == paths[..i];
      if !dryRun && CanRmdir(c.disk, paths[i], w) {
        c := Clean(Disk(c.disk.files, c.disk.dirs - {paths[i]}), c.deletedEmpty + 1, c.deletedCoverOnly, c.deletedCovers);
      }
      i := i + 1;
    }
    assert paths[..i] == paths;
  }

  method RemoveCoverFiles(c0: Clean, path: String, covers: seq<String>, w: World) returns (c: Clean)
    ensures c == RemoveCovers(c0, path, covers, w)
  {
    c := c0;
    var i := 0;
    while i < |covers|
      invariant i <= |covers|
      invariant c == RemoveCovers(c0, path, covers[..i], w)
    {
      assert covers[..i + 1][..i] == covers[..i];
      var file := Paths.Join(path, covers[i]);
      if file in c.disk.files && file !in w.undeletable {
        c := Clean(Disk(c.disk.files - {file}, c.disk.dirs), c.deletedEmpty, c.deletedCoverOnly, c.deletedCovers + 1);
      }
      i := i + 1;
    }
    assert covers[..i] == covers;
  }

  method DeleteCoverOnlyFolders(c0: Clean, folders: seq<(String, seq<String>)>, dryRun: bool, deleteCovers: bool, w: World)
    returns (c: Clean)
    ensures c == DeleteCoverOnly(c0, folders, dryRun, deleteCovers, w)
  {
    c := c0;
    var i := 0;
    while i < |folders|
      invariant i <= |folders|
      invariant c == DeleteCoverOnly(c0, folders[..i], dryRun, deleteCovers, w)
    {
      assert folders[..i + 1][..i] == folders[..i];
      var (path, contents) := folders[i];
      if !dryRun {
        if deleteCovers {
          c := RemoveCoverFiles(c, path, contents, w);
        }
        if CanRmdir(c.disk, path, w) {
          c := Clean(Disk(c.disk.files, c.disk.dirs - {path}), c.deletedEmpty, c.deletedCoverOnly + 1, c.deletedCovers);
        }
      }
      i := i + 1;
    }
    assert folders[..i] == folders;
  }

  /** `scan_and_clean`: classify the whole walk, then delete. */
  method ScanAndClean(walk: seq<WalkEntry>, root: String, dryRun: bool, deleteCovers: bool, w: World, disk: Disk)
    returns (found: Found, scanned: nat, c: Clean)
    ensures found == Classified(walk, root) && scanned == |walk|
    ensures c == Cleaned(found, disk, dryRun, deleteCovers, w)
  {
    found, scanned := ClassifyWalk(walk, root);
    c := DeleteEmptyFolders(Clean(disk, 0, 0, 0), found.empty, dryRun, w);
    c := DeleteCoverOnlyFolders(c, found.coverOnly, dryRun, deleteCovers, w);
  }
}
