// Cover image clean-up (`cover_normalize.py`): the rule cascade applied to
// each file of an album folder, the artist image rename, and the folder
// classification of the archive scan. The disk is the set of existing file
// paths; image conversion and failing operations are given.

module CoverNormalize {
  import opened Text
  import Paths

  const AudioExtensions: set<String> := {".flac", ".mp3", ".wav", ".m4a", ".aac", ".ogg", ".aif", ".aiff"}

  const ImageExtensions: set<String> := {".jpg", ".jpeg", ".png"}

  /** `is_audio_file`: the lower-cased `splitext` extension is an audio one. */
  predicate IsAudioFile(name: String)
  {
    Lower(Paths.Ext(name)) in AudioExtensions
  }

  /** `is_image_file`. */
  predicate IsImageFile(name: String)
  {
    Lower(Paths.Ext(name)) in ImageExtensions
  }

  /** Both tests ignore case. */
  lemma FileKindIgnoresCase(name: String)
    ensures IsAudioFile(name) <==> IsAudioFile(Lower(name))
    ensures IsImageFile(name) <==> IsImageFile(Lower(name))
  {
    Paths.SplitextLower(name);
    LowerIsLowercase(Paths.Ext(name));
  }

  /** A hidden name with no other dot, such as ".flac", has no extension,
      so it is neither an audio file nor an image. */
  lemma HiddenNameHasNoKind(name: String)
    requires Paths.Hidden(name) && Paths.Excludes(name[1..], '.') && Paths.Excludes(name, '/')
    ensures Paths.Ext(name) == [] && !IsAudioFile(name) && !IsImageFile(name)
  {
    assert forall k :: 1 <= k < |name| ==> name[k] == name[1..][k - 1];
    var sep, dot := Paths.RFind(name, '/'), Paths.RFind(name, '.');
    assert sep == -1;
    assert dot == 0;
    assert Paths.AllDots(name[sep + 1..dot]);
    assert Paths.Splitext(name) == (name, []);
    assert Lower([]) == [];
  }

  // ---------------------------------------------------------------------------
  // The rule cascade of `normalize_album_folder`

  const RenameNames: set<String> := {"folder.jpg", "folder.jpeg", "album cover.jpg", "album cover.jpeg", "albumartsmall.jpg"}

  datatype Rule = DeleteCdart | Convert | RenameToCover | NoRule

  /** The first rule that applies to a file name: CD-art images are
      deleted; "logo.png" (exactly) is left alone; other PNG files are
      converted; the alternative cover names and any JPEG are renamed to
      "cover.jpg". */
  function RuleOf(name: String): (r: Rule)
    ensures r == DeleteCdart <==> StartsWith(Lower(name), "cdart.") && IsImageFile(name)
    ensures r == Convert <==>
      !(StartsWith(Lower(name), "cdart.") && IsImageFile(name)) && name != "logo.png" && EndsWith(Lower(name), ".png")
    ensures r == RenameToCover <==>
      !(StartsWith(Lower(name), "cdart.") && IsImageFile(name)) && name != "logo.png" && !EndsWith(Lower(name), ".png")
      && (Lower(name) in RenameNames || EndsWith(Lower(name), ".jpeg"))
  {
    var lower := Lower(name);
    if StartsWith(lower, "cdart.") && IsImageFile(name) then DeleteCdart
    else if name == "logo.png" then NoRule
    else if EndsWith(lower, ".png") then Convert
    else if lower in RenameNames || EndsWith(lower, ".jpeg") then RenameToCover
    else NoRule
  }

  /** "logo.png" is kept as it is; "Logo.png" is converted like any PNG. */
  lemma LogoRules()
    ensures RuleOf("logo.png") == NoRule
    ensures RuleOf("Logo.png") == Convert
  {
    LowerLogo();
    assert "logo.png"[..6][0] == 'l';
    assert "logo.png"[|"logo.png"| - 4..] == ".png";
  }

  lemma LowerLogo()
    ensures Lower("Logo.png") == "logo.png"
    ensures Lower("logo.png") == "logo.png"
  {
    var l := Lower("Logo.png");
    assert l[0] == 'l' && l[1] == 'o' && l[2] == 'g' && l[3] == 'o';
    assert l[4] == '.' && l[5] == 'p' && l[6] == 'n' && l[7] == 'g';
    LowercaseFixed("logo.png");
  }

  /** "cover.jpg" itself matches no rule. */
  lemma CoverMatchesNoRule()
    ensures RuleOf("cover.jpg") == NoRule
  {
    LowercaseFixed("cover.jpg");
    CoverNotCdart();
    CoverNotPng();
    CoverNotJpeg();
  }

  lemma CoverNotCdart()
    ensures !StartsWith("cover.jpg", "cdart.")
  {
    assert "cover.jpg"[..6][1] == 'o';
  }

  lemma CoverNotPng()
    ensures !EndsWith("cover.jpg", ".png")
  {
    assert "cover.jpg"[5..][1] == 'j';
  }

  lemma CoverNotJpeg()
    ensures !EndsWith("cover.jpg", ".jpeg")
  {
    assert "cover.jpg"[4..][0] == 'r';
  }

  /** One line of the report. */
  datatype Action =
    | WouldDeleteCdart(path: String) | DeletedCdart(path: String) | ErrorDeletingCdart(path: String)
    | WouldConvert | Converted(newPath: String) | ErrorConverting(path: String)
    | WouldRename(name: String) | Renamed(name: String) | SkippedRename
    | WouldRenameArtist | RenamedArtist | ErrorRenamingArtist

  /** The files whose removal, conversion or rename raises, and the PNG
      files whose conversion is saved but whose removal then raises. */
  datatype World = World(failing: set<String>, removeFailing: set<String>)

  /** A folder's files and the report lines so far. */
  datatype Album = Album(files: set<String>, actions: seq<Action>)

  /** `convert_to_jpg`: the JPEG copy replaces the PNG. When the removal of
      the PNG raises, the JPEG is already saved: both stay and the line is
      the error line. */
  function ConvertOf(path: String, files: set<String>, dryRun: bool, w: World): (Action, set<String>)
  {
    if dryRun then (WouldConvert, files)
    else if path in w.failing then (ErrorConverting(path), files)
    else
      var newPath := Paths.Root(path) + ".jpg";
      if path in w.removeFailing then (ErrorConverting(path), files + {newPath})
      else (Converted(newPath), files - {path} + {newPath})
  }

  /** `safe_rename`: never overwrites an existing "cover.jpg". */
  function SafeRenameOf(src: String, folder: String, files: set<String>, dryRun: bool): (Action, set<String>)
  {
    var dest := Paths.Join(folder, "cover.jpg");
    if dest in files then (SkippedRename, files)
    else if dryRun then (WouldRename(Paths.Basename(src)), files)
    else (Renamed(Paths.Basename(src)), files - {src} + {dest})
  }

  /** The cascade applied to one name of the listing. */
  function AlbumStep(a: Album, folder: String, name: String, dryRun: bool, w: World): Album
  {
    var full := Paths.Join(folder, name);
    match RuleOf(name)
    case DeleteCdart =>
      if dryRun then Album(a.files, a.actions + [WouldDeleteCdart(full)])
      else if full in w.failing then Album(a.files, a.actions + [ErrorDeletingCdart(full)])
      else Album(a.files - {full}, a.actions + [DeletedCdart(full)])
    case Convert =>
      var (line, files) := ConvertOf(full, a.files, dryRun, w);
      Album(files, a.actions + [line])
    case RenameToCover =>
      var (line, files) := SafeRenameOf(full, folder, a.files, dryRun);
      Album(files, a.actions + [line])
    case NoRule => a
  }

  /** `normalize_album_folder` over the listing taken when it starts. */
  function AlbumRun(a: Album, folder: String, names: seq<String>, dryRun: bool, w: World): Album
    decreases |names|
  {
    if names == [] then a
    else AlbumStep(AlbumRun(a, folder, names[..|names| - 1], dryRun, w), folder, names[|names| - 1], dryRun, w)
  }

  method ConvertToJpg(path: String, files: set<String>, dryRun: bool, w: World) returns (line: Action, after: set<String>)
    ensures (line, after) == ConvertOf(path, files, dryRun, w)
  {
    if dryRun {
      return WouldConvert, files;
    }
    if path in w.failing {
      return ErrorConverting(path), files;
    }
    var newPath := Paths.Root(path) + ".jpg";
    if path in w.removeFailing {
      return ErrorConverting(path), files + {newPath};
    }
    after := files - {path} + {newPath};
    line := Converted(newPath);
  }

  method SafeRename(src: String, folder: String, files: set<String>, dryRun: bool) returns (line: Action, after: set<String>)
    ensures (line, after) == SafeRenameOf(src, folder, files, dryRun)
  {
    var dest := Paths.Join(folder, "cover.jpg");
    if dest !in files {
      if dryRun {
        return WouldRename(Paths.Basename(src)), files;
      }
      return Renamed(Paths.Basename(src)), files - {src} + {dest};
    }
    return SkippedRename, files;
  }

  method NormalizeAlbumFolder(folder: String, names: seq<String>, files: set<String>, dryRun: bool, w: World)
    returns (actions: seq<Action>, after: set<String>)
    ensures Album(after, actions) == AlbumRun(Album(files, []), folder, names, dryRun, w)
  {
    actions := [];
    after := files;
    var i := 0;
    while i < |names|
      invariant i <= |names|
      invariant Album(after, actions) == AlbumRun(Album(files, []), folder, names[..i], dryRun, w)
    {
      assert names[..i + 1][..i] == names[..i];
      var f := names[i];
      var fullPath := Paths.Join(folder, f);
      var rule := RuleOf(f);
      if rule == DeleteCdart {
        if dryRun {
          actions := actions + [WouldDeleteCdart(fullPath)];
        } else if fullPath in w.failing {
          actions := actions + [ErrorDeletingCdart(fullPath)];
        } else {
          after := after - {fullPath};
          actions := actions + [DeletedCdart(fullPath)];
        }
      } else if rule == Convert {
        var line;
        line, after := ConvertToJpg(fullPath, after, dryRun, w);
        actions := actions + [line];
      } else if rule == RenameToCover {
        var line;
        line, after := SafeRename(fullPath, folder, after, dryRun);
        actions := actions + [line];
      }
      i := i + 1;
    }
    assert names[..i] == names;
  }

  // ---------------------------------------------------------------------------
  // What an album folder run promises

  /** The names some rule applies to. */
  function Ruled(names: seq<String>): nat
    decreases |names|
  {
    if names == [] then 0 else Ruled(names[..|names| - 1]) + (if RuleOf(names[|names| - 1]) != NoRule then 1 else 0)
  }

  /** Every name a rule applies to gives exactly one report line, in listing
      order; the others give none. */
  lemma {:induction false} OneLinePerRuledName(a: Album, folder: String, names: seq<String>, dryRun: bool, w: World)
    ensures |AlbumRun(a, folder, names, dryRun, w).actions| == |a.actions| + Ruled(names)
    decreases |names|
  {
    if names != [] {
      OneLinePerRuledName(a, folder, names[..|names| - 1], dryRun, w);
    }
  }

  predicate IsDryLine(x: Action)
  {
    x.WouldDeleteCdart? || x.WouldConvert? || x.WouldRename? || x.SkippedRename?
  }

  /** No line about an existing "cover.jpg" can be "Would rename", and no
      line about a missing one "Skipped". */
  predicate DryLineFor(x: Action, coverExists: bool)
  {
    IsDryLine(x) && (coverExists ==> !x.WouldRename?) && (!coverExists ==> !x.SkippedRename?)
  }

  lemma DryStep(a: Album, folder: String, name: String, w: World)
    ensures var r := AlbumStep(a, folder, name, true, w);
            && r.files == a.files
            && |a.actions| <= |r.actions| && r.actions[..|a.actions|] == a.actions
            && forall k :: |a.actions| <= k < |r.actions| ==> DryLineFor(r.actions[k], Paths.Join(folder, "cover.jpg") in a.files)
  {
    var r := AlbumStep(a, folder, name, true, w);
    assert r.actions[..|a.actions|] == a.actions;
  }

  /** A dry run changes no file and only says what it would do. As
      "cover.jpg" never appears, every rename candidate says "Would rename"
      when it is absent, and every one is skipped when it exists. */
  lemma {:induction false} AlbumDryRun(files: set<String>, folder: String, names: seq<String>, w: World)
    ensures var r := AlbumRun(Album(files, []), folder, names, true, w);
            && r.files == files
            && forall k :: 0 <= k < |r.actions| ==> DryLineFor(r.actions[k], Paths.Join(folder, "cover.jpg") in files)
    decreases |names|
  {
    if names != [] {
      var init := names[..|names| - 1];
      AlbumDryRun(files, folder, init, w);
      var r1 := AlbumRun(Album(files, []), folder, init, true, w);
      DryStep(r1, folder, names[|names| - 1], w);
      var r := AlbumRun(Album(files, []), folder, names, true, w);
      forall k | 0 <= k < |r.actions|
        ensures DryLineFor(r.actions[k], Paths.Join(folder, "cover.jpg") in files)
      {
        if k < |r1.actions| {
          assert r.actions[k] == r.actions[..|r1.actions|][k] == r1.actions[k];
        }
      }
    }
  }

  /** Joining one folder with two relative names gives two paths unless the
      names are equal. */
  lemma JoinInjective(folder: String, x: String, y: String)
    requires x != [] && x[0] != '/' && y != [] && y[0] != '/'
    requires Paths.Join(folder, x) == Paths.Join(folder, y)
    ensures x == y
  {
    var p := Paths.Join(folder, x);
    if folder == [] || folder[|folder| - 1] == '/' {
      assert x == p[|folder|..] == y;
    } else {
      assert x == p[|folder| + 1..] == y;
    }
  }

  function CountRenamed(actions: seq<Action>): nat
    decreases |actions|
  {
    if actions == [] then 0 else CountRenamed(actions[..|actions| - 1]) + (if actions[|actions| - 1].Renamed? then 1 else 0)
  }

  /** Names as a listing gives them: non-empty and relative. */
  predicate PlainNames(names: seq<String>)
  {
    forall k :: 0 <= k < |names| ==> names[k] != [] && names[k][0] != '/'
  }

  /** No rule removes "cover.jpg" once it exists. */
  lemma StepKeepsCover(a: Album, folder: String, name: String, w: World)
    requires name != [] && name[0] != '/'
    requires Paths.Join(folder, "cover.jpg") in a.files
    ensures Paths.Join(folder, "cover.jpg") in AlbumStep(a, folder, name, false, w).files
  {
    var dest := Paths.Join(folder, "cover.jpg");
    var full := Paths.Join(folder, name);
    StepRemovesOnlyItself(a, folder, name, w);
    if RuleOf(name) != NoRule && full == dest {
      JoinInjective(folder, name, "cover.jpg");
      CoverMatchesNoRule();
    }
  }

  /** A step removes no file but the one it is about. */
  lemma StepRemovesOnlyItself(a: Album, folder: String, name: String, w: World)
    ensures RuleOf(name) != NoRule ==> a.files - {Paths.Join(folder, name)} <= AlbumStep(a, folder, name, false, w).files
    ensures RuleOf(name) == NoRule ==> AlbumStep(a, folder, name, false, w) == a
  {
    match RuleOf(name)
    case DeleteCdart =>
    case Convert =>
    case RenameToCover =>
    case NoRule =>
  }

  /** One name renames at most one file, only onto a missing "cover.jpg",
      and creates it. */
  lemma StepRenames(a: Album, folder: String, name: String, w: World)
    requires name != [] && name[0] != '/'
    ensures var r := AlbumStep(a, folder, name, false, w);
            && CountRenamed(r.actions) <= CountRenamed(a.actions) + (if Paths.Join(folder, "cover.jpg") in a.files then 0 else 1)
            && (CountRenamed(r.actions) > CountRenamed(a.actions) ==> Paths.Join(folder, "cover.jpg") in r.files)
            && (Paths.Join(folder, "cover.jpg") in a.files ==> Paths.Join(folder, "cover.jpg") in r.files)
  {
    var r := AlbumStep(a, folder, name, false, w);
    if Paths.Join(folder, "cover.jpg") in a.files {
      StepKeepsCover(a, folder, name, w);
    }
    StepLine(a, folder, name, w);
    if r.actions != a.actions {
      CountRenamedSnoc(a.actions, r.actions[|a.actions|], r.actions);
    }
  }

  /** A step adds at most one line, and a rename line means "cover.jpg" was
      missing and now exists. */
  lemma StepLine(a: Album, folder: String, name: String, w: World)
    ensures var r := AlbumStep(a, folder, name, false, w);
            || r.actions == a.actions
            || (&& |r.actions| == |a.actions| + 1 && r.actions == a.actions + [r.actions[|a.actions|]]
                && (r.actions[|a.actions|].Renamed? ==>
                      Paths.Join(folder, "cover.jpg") !in a.files && Paths.Join(folder, "cover.jpg") in r.files))
  {
  }

  lemma CountRenamedSnoc(actions: seq<Action>, line: Action, all: seq<Action>)
    requires all == actions + [line]
    ensures CountRenamed(all) == CountRenamed(actions) + (if line.Renamed? then 1 else 0)
  {
    assert all[..|actions|] == actions;
  }

  /** In a real run the first rename creates "cover.jpg", so at most one file
      is renamed to it, none when it already existed, and it exists
      afterwards whenever one was. */
  lemma {:induction false} AtMostOneRename(a: Album, folder: String, names: seq<String>, w: World)
    requires PlainNames(names)
    requires CountRenamed(a.actions) <= (if Paths.Join(folder, "cover.jpg") in a.files then 1 else 0)
    ensures var r := AlbumRun(a, folder, names, false, w);
            && CountRenamed(r.actions) <= CountRenamed(a.actions) + (if Paths.Join(folder, "cover.jpg") in a.files then 0 else 1)
            && CountRenamed(r.actions) <= (if Paths.Join(folder, "cover.jpg") in r.files then 1 else 0)
            && (Paths.Join(folder, "cover.jpg") in a.files ==> Paths.Join(folder, "cover.jpg") in r.files)
    decreases |names|
  {
    if names != [] {
      var init := names[..|names| - 1];
      var name := names[|names| - 1];
      assert PlainNames(init);
      AtMostOneRename(a, folder, init, w);
      var r1 := AlbumRun(a, folder, init, false, w);
      assert AlbumRun(a, folder, names, false, w) == AlbumStep(r1, folder, name, false, w);
      StepRenames(r1, folder, name, w);
    }
  }

  /** Later steps never take back a rename line. */
  lemma {:induction false} RenamedGrows(a: Album, folder: String, names: seq<String>, w: World, j: nat)
    requires j <= |names|
    ensures CountRenamed(AlbumRun(a, folder, names[..j], false, w).actions)
            <= CountRenamed(AlbumRun(a, folder, names, false, w).actions)
    decreases |names|
  {
    if j < |names| {
      var init := names[..|names| - 1];
      assert init[..j] == names[..j];
      RenamedGrows(a, folder, init, w, j);
      var r1 := AlbumRun(a, folder, init, false, w);
      StepLine(r1, folder, names[|names| - 1], w);
      var r := AlbumRun(a, folder, names, false, w);
      if r.actions != r1.actions {
        CountRenamedSnoc(r1.actions, r.actions[|r1.actions|], r.actions);
      }
    } else {
      assert names[..j] == names;
    }
  }

  /** The converse of `AtMostOneRename`: once a rename candidate is reached
      while "cover.jpg" is still missing, a real run renames exactly one
      file. (An earlier conversion of "cover.png" can create "cover.jpg"
      first, so merely having a candidate is not enough.) */
  lemma RenameWhenCoverMissing(files: set<String>, folder: String, names: seq<String>, w: World, k: nat)
    requires PlainNames(names)
    requires k < |names| && RuleOf(names[k]) == RenameToCover
    requires Paths.Join(folder, "cover.jpg") !in AlbumRun(Album(files, []), folder, names[..k], false, w).files
    ensures Paths.Join(folder, "cover.jpg") !in files
    ensures CountRenamed(AlbumRun(Album(files, []), folder, names, false, w).actions) == 1
  {
    var a := Album(files, []);
    assert PlainNames(names[..k]);
    AtMostOneRename(a, folder, names[..k], w);
    AtMostOneRename(a, folder, names, w);
    RunSnoc(a, folder, names, w, k);
    RenameStep(AlbumRun(a, folder, names[..k], false, w), folder, names[k], w);
    RenamedGrows(a, folder, names, w, k + 1);
  }

  lemma RunSnoc(a: Album, folder: String, names: seq<String>, w: World, k: nat)
    requires k < |names|
    ensures AlbumRun(a, folder, names[..k + 1], false, w) == AlbumStep(AlbumRun(a, folder, names[..k], false, w), folder, names[k], false, w)
  {
    assert names[..k + 1][..k] == names[..k];
  }

  /** A rename candidate met while "cover.jpg" is missing adds a rename line. */
  lemma RenameStep(a: Album, folder: String, name: String, w: World)
    requires RuleOf(name) == RenameToCover
    requires Paths.Join(folder, "cover.jpg") !in a.files
    ensures CountRenamed(AlbumStep(a, folder, name, false, w).actions) == CountRenamed(a.actions) + 1
  {
    var line := Renamed(Paths.Basename(Paths.Join(folder, name)));
    assert AlbumStep(a, folder, name, false, w).actions == a.actions + [line];
    CountRenamedSnoc(a.actions, line, a.actions + [line]);
  }

  // ---------------------------------------------------------------------------
  // `normalize_artist_folder`

  /** The artist image "folder.jpg" becomes "artist.jpg" exactly when it
      exists; a dry run, a failing rename or a missing image changes nothing. */
  function ArtistOf(folder: String, files: set<String>, dryRun: bool, w: World): (r: Album)
    ensures r.actions != [] <==> Paths.Join(folder, "folder.jpg") in files
    ensures !dryRun && Paths.Join(folder, "folder.jpg") in files && Paths.Join(folder, "folder.jpg") !in w.failing
            ==> && r.actions == [RenamedArtist]
                && r.files == files - {Paths.Join(folder, "folder.jpg")} + {Paths.Join(folder, "artist.jpg")}
    ensures dryRun || Paths.Join(folder, "folder.jpg") !in files || Paths.Join(folder, "folder.jpg") in w.failing
            ==> r.files == files
  {
    var src := Paths.Join(folder, "folder.jpg");
    var dest := Paths.Join(folder, "artist.jpg");
    if src !in files then Album(files, [])
    else if dryRun then Album(files, [WouldRenameArtist])
    else if src in w.failing then Album(files, [ErrorRenamingArtist])
    else Album(files - {src} + {dest}, [RenamedArtist])
  }

  method NormalizeArtistFolder(folder: String, files: set<String>, dryRun: bool, w: World)
    returns (actions: seq<Action>, after: set<String>)
    ensures Album(after, actions) == ArtistOf(folder, files, dryRun, w)
  {
    var artistImage := Paths.Join(folder, "folder.jpg");
    var destPath := Paths.Join(folder, "artist.jpg");
    if artistImage in files {
      if dryRun {
        return [WouldRenameArtist], files;
      }
      if artistImage in w.failing {
        return [ErrorRenamingArtist], files;
      }
      return [RenamedArtist], files - {artistImage} + {destPath};
    }
    return [], files;
  }

  // ---------------------------------------------------------------------------
  // `scan_archive`

  /** A folder of the walk: its path, the regular files `os.walk` reports
      for it, and its `os.listdir` listing, sub-folders included. */
  datatype WalkDir = WalkDir(path: String, filenames: seq<String>, listing: seq<String>)

  datatype Kind = AlbumFolder | ArtistFolder | Ignored

  predicate HasAudio(names: seq<String>)
  {
    exists k :: 0 <= k < |names| && IsAudioFile(names[k])
  }

  predicate HasFolderJpg(names: seq<String>)
  {
    exists k :: 0 <= k < |names| && IsFolderJpg(names[k])
  }

  predicate IsFolderJpg(name: String)
  {
    Lower(name) == "folder.jpg"
  }

  /** Any audio file makes an album folder; otherwise a "folder.jpg" in any
      case makes an artist folder. */
  function KindOf(names: seq<String>): Kind
  {
    if HasAudio(names) then AlbumFolder else if HasFolderJpg(names) then ArtistFolder else Ignored
  }

  lemma PrefixStep(names: seq<String>, k: nat)
    requires k < |names|
    ensures HasAudio(names[..k + 1]) == (HasAudio(names[..k]) || IsAudioFile(names[k]))
    ensures HasFolderJpg(names[..k + 1]) == (HasFolderJpg(names[..k]) || IsFolderJpg(names[k]))
  {
    var p := names[..k + 1];
    assert p == names[..k] + [names[k]];
    AppendHas(names[..k], names[k]);
  }

  lemma AppendHas(init: seq<String>, x: String)
    ensures HasAudio(init + [x]) == (HasAudio(init) || IsAudioFile(x))
    ensures HasFolderJpg(init + [x]) == (HasFolderJpg(init) || IsFolderJpg(x))
  {
    var p := init + [x];
    assert p[|init|] == x;
    assert forall j :: 0 <= j < |init| ==> p[j] == init[j];
    if HasFolderJpg(p) {
      var j :| 0 <= j < |p| && IsFolderJpg(p[j]);
      if j < |init| {
        assert IsFolderJpg(init[j]);
      }
    }
    if HasFolderJpg(init) {
      var j :| 0 <= j < |init| && IsFolderJpg(init[j]);
      assert IsFolderJpg(p[j]);
    }
  }

  /** The classification of one folder from its file names. */
  method FolderKind(names: seq<String>) returns (kind: Kind)
    ensures kind == KindOf(names)
  {
    var audio, folderJpg := false, false;
    var k := 0;
    while k < |names|
      invariant k <= |names|
      invariant audio == HasAudio(names[..k])
      invariant folderJpg == HasFolderJpg(names[..k])
    {
      PrefixStep(names, k);
      if IsAudioFile(names[k]) {
        audio := true;
      }
      if IsFolderJpg(names[k]) {
        folderJpg := true;
      }
      k := k + 1;
    }
    assert names[..k] == names;
    kind := if audio then AlbumFolder else if folderJpg then ArtistFolder else Ignored;
  }

  /** The folders the scan visits, with whether each is an album folder. */
  function Selected(walk: seq<WalkDir>): seq<(WalkDir, bool)>
    decreases |walk|
  {
    if walk == [] then []
    else
      var d := walk[|walk| - 1];
      Selected(walk[..|walk| - 1]) + (if KindOf(d.filenames) != Ignored then [(d, KindOf(d.filenames) == AlbumFolder)] else [])
  }

  predicate SelectedEntry(p: (WalkDir, bool))
  {
    KindOf(p.0.filenames) != Ignored && p.1 == (KindOf(p.0.filenames) == AlbumFolder)
  }

  /** Every album and every artist folder of the walk is visited, each with
      its own kind, and nothing else. */
  lemma {:induction false} SelectedMembers(walk: seq<WalkDir>)
    ensures forall p :: p in Selected(walk) <==> p.0 in walk && SelectedEntry(p)
    decreases |walk|
  {
    if walk != [] {
      var init := walk[..|walk| - 1];
      SelectedMembers(init);
      assert walk == init + [walk[|walk| - 1]];
    }
  }

  function FolderActions(p: (WalkDir, bool), files: set<String>, dryRun: bool, w: World): Album
  {
    if p.1 then AlbumRun(Album(files, []), p.0.path, p.0.listing, dryRun, w)
    else ArtistOf(p.0.path, files, dryRun, w)
  }

  /** The files and the number of folders with at least one report line. */
  datatype Scan = Scan(files: set<String>, cleaned: nat)

  function ScanStep(s: Scan, p: (WalkDir, bool), dryRun: bool, w: World): Scan
  {
    var a := FolderActions(p, s.files, dryRun, w);
    Scan(a.files, s.cleaned + (if a.actions != [] then 1 else 0))
  }

  function ScanRun(folders: seq<(WalkDir, bool)>, files: set<String>, dryRun: bool, w: World): Scan
    decreases |folders|
  {
    if folders == [] then Scan(files, 0)
    else ScanStep(ScanRun(folders[..|folders| - 1], files, dryRun, w), folders[|folders| - 1], dryRun, w)
  }

  method SelectFolders(walk: seq<WalkDir>) returns (folders: seq<(WalkDir, bool)>)
    ensures folders == Selected(walk)
  {
    folders := [];
    var i := 0;
    while i < |walk|
      invariant i <= |walk|
      invariant folders == Selected(walk[..i])
    {
      SelectedSnoc(walk, i);
      var d := walk[i];
      var kind := FolderKind(d.filenames);
      if kind != Ignored {
        folders := folders + [(d, kind == AlbumFolder)];
      }
      i := i + 1;
    }
    assert walk[..i] == walk;
  }

  lemma SelectedSnoc(walk: seq<WalkDir>, i: nat)
    requires i < |walk|
    ensures var d := walk[i];
            Selected(walk[..i + 1]) == Selected(walk[..i]) + (if KindOf(d.filenames) != Ignored then [(d, KindOf(d.filenames) == AlbumFolder)] else [])
  {
    assert walk[..i + 1][..i] == walk[..i];
  }

  /** `scan_archive`: returns "Folders scanned" and "Folders cleaned". */
  method ScanArchive(walk: seq<WalkDir>, files: set<String>, dryRun: bool, w: World)
    returns (total: nat, cleaned: nat, after: set<String>)
    ensures total == |Selected(walk)|
    ensures Scan(after, cleaned) == ScanRun(Selected(walk), files, dryRun, w)
  {
    var folders := SelectFolders(walk);
    total := |folders|;
    cleaned := 0;
    after := files;
    var j := 0;
    while j < |folders|
      invariant j <= |folders|
      invariant Scan(after, cleaned) == ScanRun(folders[..j], files, dryRun, w)
    {
      ScanRunSnoc(folders, j, files, dryRun, w);
      var actions;
      actions, after := NormalizeFolder(folders[j], after, dryRun, w);
      if actions != [] {
        cleaned := cleaned + 1;
      }
      j := j + 1;
    }
    assert folders[..j] == folders;
  }

  lemma ScanRunSnoc(folders: seq<(WalkDir, bool)>, j: nat, files: set<String>, dryRun: bool, w: World)
    requires j < |folders|
    ensures ScanRun(folders[..j + 1], files, dryRun, w) == ScanStep(ScanRun(folders[..j], files, dryRun, w), folders[j], dryRun, w)
  {
    assert folders[..j + 1][..j] == folders[..j];
  }

  /** One visited folder: an album folder or an artist folder. */
  method NormalizeFolder(p: (WalkDir, bool), files: set<String>, dryRun: bool, w: World)
    returns (actions: seq<Action>, after: set<String>)
    ensures Album(after, actions) == FolderActions(p, files, dryRun, w)
  {
    var (d, isAlbum) := p;
    if isAlbum {
      actions, after := NormalizeAlbumFolder(d.path, d.listing, files, dryRun, w);
    } else {
      actions, after := NormalizeArtistFolder(d.path, files, dryRun, w);
    }
  }

  /** "Folders cleaned" counts the visited folders with a report line, so it
      never exceeds "Folders scanned"; a dry run changes no file. */
  lemma {:induction false} ScanCounts(folders: seq<(WalkDir, bool)>, files: set<String>, dryRun: bool, w: World)
    ensures ScanRun(folders, files, dryRun, w).cleaned <= |folders|
    ensures dryRun ==> ScanRun(folders, files, true, w).files == files
    decreases |folders|
  {
    if folders != [] {
      var init := folders[..|folders| - 1];
      ScanCounts(init, files, dryRun, w);
      var p := folders[|folders| - 1];
      if dryRun && p.1 {
        AlbumDryRun(ScanRun(init, files, true, w).files, p.0.path, p.0.listing, w);
      }
    }
  }
}
