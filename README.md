# Music archive maintenance scripts, modelled in Dafny

The repository is a set of command-line scripts that tidy a music archive laid
out as `Artist/Album/tracks`. This project models the decision logic of eight of
them and proves what each one promises about its effects:

- **Genre expansion** (`archive/metadata_fetch_genres_lastfm.py`). Last.fm top
  tags are cleaned, sorted by count and mixed-cased. Each tag becomes one or more
  canonical genres through lookup tables, the first-slash rule, the two-word rule
  and a fallback. The list is de-duplicated ignoring case, gets the combined
  black/death/thrash/doom labels, and loses labels that a longer label subsumes.
  Module `Genres`, with the shared text helpers in `Text`.
- **Multi-artist normalisation** (`archive/metadata_normalize_multi_artist.py`).
  The artist tag is split on `;`, `,`, `/`, `&`, `feat.` and `ft.`. Only the
  primary artist is kept, and the other artists are appended to the title as
  `(feat. A, B & C)` unless it already names them. Module `MultiArtist`.
- **Track gap checker** (`track_gap_checker.py`). It reads leading track numbers,
  reports missing numbers between the first and the last, and in strict mode
  reports a start other than 1 or a jump of more than two. Module `TrackGaps`.
- **Case normaliser** (`case_normalize.py`). It renames case variants of
  `cover.jpg` / `folder.jpg` / `artist.jpg` to the canonical name, never
  overwriting. Module `CaseNormalize`.
- **Lossy duplicate archiver** (`archive_lossy_duplicates.py`). It finds lossy
  files that have a FLAC twin, skips those already inside an existing `Lossy.*`
  archive, archives the rest and deletes them. Module `LossyDuplicates`.
- **Lyrics embedder** (`lyrics_embed.py`). It finds the `.lrc` next to a track or
  under `Lyrics/` and strips the `[mm:ss.xx]` tags. It embeds the lyrics when the
  track has none, deletes the `.lrc`, and removes `Lyrics/` folders that end up
  empty. Module `LyricsEmbed`.
- **Cover-only folder remover** (`folder_remove_cover_only.py`). It classifies
  folders as empty or holding only cover images, then deletes them, optionally
  deleting the covers first. Module `CoverOnlyFolders`.
- **Cover normaliser** (`cover_normalize.py`). In album folders it deletes cdart
  images, converts PNGs and renames the first JPEG alias to `cover.jpg`. In artist
  folders it renames `folder.jpg` to `artist.jpg`. Module `CoverNormalize`.

`Paths` models the parts of `os.path` / `pathlib` the scripts rely on: splitext,
basename, dirname, join, stem, and `str.split` / `str.strip` with one character.

Every operation whose source loops over a list is a `method` with a loop. It is
proved equal to a fold or filter function over that list, and the properties are
lemmas about the function. The filesystem is a set of paths, or a listing
given as a sequence. Actions are recorded as a sequence of effect or report
values. A call whose outcome depends on the outside world is a parameter. This
covers a tag read, a tag write, an image conversion, an archiver run and a
removal that may fail (`World`, `writeOk`, `Faults`, `output`, `failing`).
A step that raises outside any `try` ends the whole script, and the model
records that as an aborted run.

Where a prose description of the scripts and the code differ, the model follows
the code:

- The generic slash rule matches `^(.+?)/(.+)$`. It splits at the first `/`
  that has a non-empty part on both sides. The second part may hold more
  slashes and is expanded recursively, so it is not limited to a single slash.
- The two-word rule passes the pair through `unique_case_insensitive`
  (`metadata_fetch_genres_lastfm.py:149`), so `first == second` by key gives one
  label.
- Mixed case only upper-cases a word matched by `\b[a-z][a-z0-9'&]*\b`
  (`metadata_fetch_genres_lastfm.py:104`). A word that starts with a digit keeps
  its case, and so does a letter after an apostrophe inside a word.
- Slash expansion has no recursion cap. It terminates because each part is
  shorter than the tag.

## Model

| member | source | states |
|---|---|---|
| Text.ToMixedCase | archive/metadata_fetch_genres_lastfm.py:101-106 | An empty tag gives the empty string; the result is never longer than the tag (its shape is stated by MixedCaseShape) |
| Text.MixedCaseShape | archive/metadata_fetch_genres_lastfm.py:99-106 | The result is trimmed and single-spaced; no capital follows a word character; lower-casing it gives the stripped, collapsed, lower-cased tag |
| Text.MixedCaseIsCapitalized | archive/metadata_fetch_genres_lastfm.py:99-106 | For every tag, the result is the word-capitalising substitution applied to the stripped, collapsed, lower-cased tag |
| Text.CollapseCapitalize | archive/metadata_fetch_genres_lastfm.py:104-105 | Collapsing whitespace after the substitution gives the same string as collapsing before it |
| Text.CapitalizeSplit | archive/metadata_fetch_genres_lastfm.py:104 | Text that starts with whitespace is substituted independently of what comes before it |
| Text.CapitalizeLStrip | archive/metadata_fetch_genres_lastfm.py:101-104 | Stripping leading whitespace commutes with the substitution |
| Text.MixedCaseCapitalizesWords | archive/metadata_fetch_genres_lastfm.py:104 | For every tag: a letter of the stripped, collapsed, lower-cased tag at the start or after a space, where the word pattern matches, is upper-cased in the result |
| Text.MixedCaseIgnoresCase | archive/metadata_fetch_genres_lastfm.py:99-106 | Tags equal after strip and lower-casing get the same mixed case |
| Text.MixedCaseOfBlank | archive/metadata_fetch_genres_lastfm.py:101-106 | A blank tag gives the empty string |
| Text.CapitalizeShape | archive/metadata_fetch_genres_lastfm.py:104 | On lower-case input the substitution only changes case, only at word starts, and keeps every space where it was |
| Text.CollapseSingleSpacedResult | archive/metadata_fetch_genres_lastfm.py:105 | `re.sub(r"\s+", " ")` leaves only single plain spaces |
| Text.CollapseLower | archive/metadata_fetch_genres_lastfm.py:105 | Collapsing whitespace commutes with lower-casing |
| Text.StripLower | archive/metadata_fetch_genres_lastfm.py:101 | Stripping commutes with lower-casing |
| Text.UniqueCIProperties | archive/metadata_fetch_genres_lastfm.py:159-168 | The de-duplicated list is a subsequence of the input with the same lower-case keys and no two elements equal ignoring case |
| Text.UniqueCIKeepsFirst | archive/metadata_fetch_genres_lastfm.py:163-167 | An element whose key does not occur earlier survives |
| Text.UniqueCIHead | archive/metadata_fetch_genres_lastfm.py:163-167 | The first element always survives and stays first |
| Text.UniqueCIOfUnique | archive/metadata_fetch_genres_lastfm.py:159-168 | A list with no case-insensitive duplicates is unchanged |
| Text.UniqueCIIdempotent | archive/metadata_fetch_genres_lastfm.py:159-168 | De-duplicating twice is de-duplicating once |
| Text.UniqueCIPair | archive/metadata_fetch_genres_lastfm.py:149 | A pair keeps its second element iff it differs by key from the first |
| Text.WordsOfTwoWords | archive/metadata_fetch_genres_lastfm.py:141-142 | `split()` of two words joined by one space gives the two words |
| Text.JoinWithLength | archive/metadata_fetch_genres_lastfm.py:415 | The length of a joined list is the total length plus one separator per gap |
| Genres.SlashEntryNonEmpty | archive/metadata_fetch_genres_lastfm.py:19-96 | Every slash-table entry expands to at least one genre |
| Genres.CompoundEntryNonEmpty | archive/metadata_fetch_genres_lastfm.py:19-96 | Every compound-table entry expands to at least one genre |
| Genres.FirstSlash | archive/metadata_fetch_genres_lastfm.py:123-124 | The lazy regex match: the first position where a slash splits the tag into two non-empty parts, or none when no position does |
| Genres.FirstSlashIsFirst | archive/metadata_fetch_genres_lastfm.py:123-124 | The split position holds '/' and no earlier position after the first character does |
| Genres.ExpandGenre | archive/metadata_fetch_genres_lastfm.py:109-156 | Expansion never yields an empty list |
| Genres.ExpandGenreSlashTable | archive/metadata_fetch_genres_lastfm.py:115-116 | A tag in the slash table expands to its entry |
| Genres.ExpandGenreCompoundTable | archive/metadata_fetch_genres_lastfm.py:119-120 | A tag in the compound table and not the slash table expands to its entry |
| Genres.ExpandGenreSlashRule | archive/metadata_fetch_genres_lastfm.py:123-138 | The slash rule gives exactly the case-insensitive de-duplication of the combined label followed by the labels of both parts; so it starts with the combined label, has no duplicates, and keeps the candidates' keys |
| Genres.ExpandGenreTwoWord | archive/metadata_fetch_genres_lastfm.py:141-149 | Two words ending in a common genre word give the mixed-cased first word and the mapped second word, de-duplicated by key |
| Genres.ExpandGenreFallback | archive/metadata_fetch_genres_lastfm.py:152-156 | Otherwise a single-word table hit gives its entry, and anything else gives the mixed-cased tag |
| Genres.ExpandGenreIgnoresCase | archive/metadata_fetch_genres_lastfm.py:109-156 | Tags equal after strip and lower-casing expand alike |
| Genres.UniqueCaseInsensitive | archive/metadata_fetch_genres_lastfm.py:159-168 | The loop computes the first-spelling-wins de-duplication |
| Genres.RemoveRedundantGenres | archive/metadata_fetch_genres_lastfm.py:171-216 | The loop keeps exactly the survivors of the subsumption test |
| Genres.RedundantAt | archive/metadata_fetch_genres_lastfm.py:180-210 | The inner loop decides whether another label subsumes this one |
| Genres.RemoveRedundantProperties | archive/metadata_fetch_genres_lastfm.py:171-216 | Lists of at most one are returned as is; the result is a subsequence; slash labels always stay; otherwise a label stays iff it survives |
| Genres.RemoveRedundantNonEmpty | archive/metadata_fetch_genres_lastfm.py:171-216 | The longest label is never subsumed, so a non-empty list stays non-empty |
| Genres.RemoveRedundantIdempotent | archive/metadata_fetch_genres_lastfm.py:171-216 | Removing redundant labels a second time changes nothing |
| Genres.PairPrefixOrder | archive/metadata_fetch_genres_lastfm.py:233-255 | The inserted front is Black/Death, Black/Thrash, Death/Thrash, Death/Doom, each present iff its rule fires |
| Genres.ApplyPairRulesPrefix | archive/metadata_fetch_genres_lastfm.py:233-255 | Successive `insert(0, …)` calls put the fired labels in front of the list in reverse rule order |
| Genres.PairPrefixFired | archive/metadata_fetch_genres_lastfm.py:233-255 | Every inserted label comes from a rule that fired |
| Genres.PrefixAvoidsExisting | archive/metadata_fetch_genres_lastfm.py:233-255 | No inserted label equals an existing one ignoring case |
| Genres.InsertPairsNoDup | archive/metadata_fetch_genres_lastfm.py:233-255 | Inserting the combined labels keeps the list free of case-insensitive duplicates |
| Genres.InsertPairLabels | archive/metadata_fetch_genres_lastfm.py:233-255 | The method performs the four checks and insertions in source order |
| Genres.ExpandGenres | archive/metadata_fetch_genres_lastfm.py:219-257 | The method computes expand, de-duplicate, insert pairs, remove redundant |
| Genres.ExpandedGenresEmpty | archive/metadata_fetch_genres_lastfm.py:219-257 | No tags give no genres |
| Genres.ExpandedGenresNonEmpty | archive/metadata_fetch_genres_lastfm.py:219-257 | At least one tag gives at least one genre |
| Genres.ExpandedGenresProperties | archive/metadata_fetch_genres_lastfm.py:219-257 | The final list has no case-insensitive duplicates and is a fixpoint of redundancy removal |
| Genres.GenreField | archive/metadata_fetch_genres_lastfm.py:414-415 | No tags give an empty field, and a single genre is the field itself |
| Genres.GenreFieldLength | archive/metadata_fetch_genres_lastfm.py:414-415 | The field is as long as all genres together plus two characters per `"; "` gap |
| Genres.SortByCountProperties | archive/metadata_fetch_genres_lastfm.py:299-300 | Sorting by count is descending, a permutation, and stable: the tags of each count keep their order |
| Genres.CleanTags | archive/metadata_fetch_genres_lastfm.py:290-303 | The loop filters, sorts, truncates and mixed-cases as the function does |
| Genres.TopTagNamesProperties | archive/metadata_fetch_genres_lastfm.py:290-303 | The result holds min(max_tags, kept) names; each is the mixed case of an unblocked, named tag; every one has a count at least that of every tag cut off |
| Genres.UnblockedUsable | archive/metadata_fetch_genres_lastfm.py:292-298 | A tag is kept iff it has a name whose lower case is not blocked |
| MultiArtist.MatchDelim | archive/metadata_normalize_multi_artist.py:24 | A delimiter match is non-empty and starts with `;`, `,` or whitespace before `/`, `&` or `f` |
| MultiArtist.SplitIsCutting | archive/metadata_normalize_multi_artist.py:24 | The split yields exactly the pieces that cut the string at the leftmost delimiter matches: back to back, none containing a match, separated by the matched delimiters, the last running to the end |
| MultiArtist.SplitFromCuts | archive/metadata_normalize_multi_artist.py:24 | The split scan produces such a cutting |
| MultiArtist.CutsAtIsSplit | archive/metadata_normalize_multi_artist.py:24 | Such a cutting is unique: it is the split scan's |
| MultiArtist.SplitArtists | archive/metadata_normalize_multi_artist.py:18-40 | The loop computes the split, trim, fallback and de-duplication |
| MultiArtist.ArtistsOfBlank | archive/metadata_normalize_multi_artist.py:20-29 | A blank artist string gives no artists |
| MultiArtist.ArtistsOfNonBlank | archive/metadata_normalize_multi_artist.py:24-38 | A non-blank string gives at least one artist, the first candidate |
| MultiArtist.ArtistsShape | archive/metadata_normalize_multi_artist.py:24-38 | Artists are trimmed, have no case-insensitive duplicates, and are a subsequence of the candidates with the same keys; every candidate whose key does not occur earlier is kept |
| MultiArtist.ArtistsOfDelimitersOnly | archive/metadata_normalize_multi_artist.py:28-29 | When splitting leaves nothing, the stripped string is the one artist |
| MultiArtist.SingleArtist | archive/metadata_normalize_multi_artist.py:18-40 | A name without spaces, `;` or `,` is one artist |
| MultiArtist.AcDcIsOneArtist | archive/metadata_normalize_multi_artist.py:24 | "AC/DC" is not split, since `/` needs whitespace before it |
| MultiArtist.FormatFeatUniform | archive/metadata_normalize_multi_artist.py:43-54 | Two or more artists give `(feat. A, B & C)` |
| MultiArtist.FormatFeatMentions | archive/metadata_normalize_multi_artist.py:43-54 | The formatted suffix mentions every additional artist |
| MultiArtist.TitleHasFeatIff | archive/metadata_normalize_multi_artist.py:57-61 | The title test holds iff some `(feat`, in any case, is followed later by a `)` |
| MultiArtist.FormatFeatHasFeat | archive/metadata_normalize_multi_artist.py:43-61 | A title with the suffix appended passes the feat test |
| MultiArtist.MissingArtists | archive/metadata_normalize_multi_artist.py:118-123 | The loop keeps exactly the additional artists the title does not mention |
| MultiArtist.MissingFromTitleMembers | archive/metadata_normalize_multi_artist.py:118-123 | An artist is added iff it is additional and not mentioned in the title, in order |
| MultiArtist.ToAddMembers | archive/metadata_normalize_multi_artist.py:109-123 | The artists to add are the non-primary artists absent from the title |
| MultiArtist.AdditionalOfDistinct | archive/metadata_normalize_multi_artist.py:112-115 | With distinct artists, the additional ones are all but the first |
| MultiArtist.NormalizeMetadata | archive/metadata_normalize_multi_artist.py:69-160 | The outcome is the plan, and tags are written iff something changed and this is not a dry run |
| MultiArtist.SaveTags | archive/metadata_normalize_multi_artist.py:140-158 | The write outcome is the update, and the values written are the new artist and title |
| MultiArtist.PlanReasons | archive/metadata_normalize_multi_artist.py:83-158 | A read error iff unreadable; no artist iff no artist splits out; a failed update only on a failed write; any failure changes nothing |
| MultiArtist.UpdateReasons | archive/metadata_normalize_multi_artist.py:140-158 | The update keeps the before values and fails only on a failed real write, leaving the tags as they were |
| MultiArtist.PlanSuccess | archive/metadata_normalize_multi_artist.py:103-155 | On success the artist is the primary and the title gains the suffix iff artists are missing and it has no feat; changed iff artist or title differ |
| MultiArtist.NewTitleChanges | archive/metadata_normalize_multi_artist.py:126-129 | The new title is the old one or the old one plus the suffix, the latter iff artists are missing and no feat is present |
| MultiArtist.PlanKeepsFeatTitle | archive/metadata_normalize_multi_artist.py:126-129 | A title that already has a feat part is never changed |
| MultiArtist.PlanAppendedTitleHasFeat | archive/metadata_normalize_multi_artist.py:126-129 | A changed title has a feat part, so a second run leaves it alone |
| TrackGaps.ExtractTrackNumber | track_gap_checker.py:13-26 | A track number is below 100 |
| TrackGaps.ExtractOfNumbered | track_gap_checker.py:13-26 | Two digits, or one digit, followed by a space, '.', '-' or '_' give that number |
| TrackGaps.ExtractIsNumbered | track_gap_checker.py:13-26 | A number is found only on names of that shape |
| TrackGaps.NumbersMembers | track_gap_checker.py:29-34 | The collected numbers are those of the visible numbered files |
| TrackGaps.CollectNumbers | track_gap_checker.py:29-34 | The loop collects those numbers |
| TrackGaps.TracksProperties | track_gap_checker.py:39 | `sorted(set(…))` is strictly ascending, has the same members, and is empty iff the input is |
| TrackGaps.MissingProperties | track_gap_checker.py:40-41 | Missing numbers are ascending and are exactly those strictly between first and last and not present; together with the tracks they cover the range |
| TrackGaps.CheckStrict | track_gap_checker.py:43-52 | The loop computes the strict warnings |
| TrackGaps.JumpsAreJumps | track_gap_checker.py:47-52 | The jump warnings are exactly the steps larger than two, and no out-of-order warning occurs |
| TrackGaps.CheckAlbumFolder | track_gap_checker.py:28-54 | The method returns the folder report |
| TrackGaps.ReportOfUnnumbered | track_gap_checker.py:36-37 | A folder without numbered files gives an empty report |
| TrackGaps.ReportTracks | track_gap_checker.py:29-39 | Report tracks are ascending and are exactly the numbers found |
| TrackGaps.ReportMissing | track_gap_checker.py:40-41 | The report's missing list is that of its tracks |
| TrackGaps.ReportWarnings | track_gap_checker.py:43-52 | No warnings unless strict; in strict mode a start other than 1, then the jumps |
| TrackGaps.ReportNeverOutOfOrder | track_gap_checker.py:47-48 | The out-of-order warning is unreachable, since the tracks are sorted |
| TrackGaps.ZeroTrackNotAlbum | track_gap_checker.py:68 | A folder whose only track is numbered 00 is not counted as an album |
| TrackGaps.ScanArchive | track_gap_checker.py:56-83 | The loop computes the scan results |
| TrackGaps.RecordAlbum | track_gap_checker.py:69-81 | One album counts towards the total; a report with missing tracks or strict warnings is listed under albums with gaps and under each kind of issue it has, any other counts as clean |
| TrackGaps.ScanCounts | track_gap_checker.py:56-83 | Albums counted equal clean plus with issues, and one entry per album with issues |
| TrackGaps.ScanLists | track_gap_checker.py:69-81 | Every listed album has an issue; the missing and strict lists are the albums with each |
| TrackGaps.ScanNonStrict | track_gap_checker.py:69-81 | Without strict mode there are no strict issues, and every listed album has missing tracks |
| CaseNormalize.CheckFile | case_normalize.py:12-31 | A fix is needed iff the lower-case name is a cover or artist variant other than the canonical name itself, and then the target is that canonical name |
| CaseNormalize.CheckFileOfTargets | case_normalize.py:21-31 | The canonical names need no fix |
| CaseNormalize.FolderBecomesCover | case_normalize.py:12-31 | Every case of folder.jpg becomes cover.jpg |
| CaseNormalize.ScanArchive | case_normalize.py:33-60 | The loop computes the scan results and the new set of paths |
| CaseNormalize.ScanPartition | case_normalize.py:40-58 | Every considered file is fixed, skipped, clean or an error, exactly once |
| CaseNormalize.ScanDryRun | case_normalize.py:43-56 | A dry run leaves the files as they are, has no errors, and reports only would-renames |
| CaseNormalize.ScanNeverOverwrites | case_normalize.py:43-56 | Only renamed sources disappear and only rename targets appear |
| CaseNormalize.StepMoves | case_normalize.py:43-56 | One file adds at most one line, whose destination did not exist, and moves at most its own path |
| CaseNormalize.ScanRenamesOntoFreshNames | case_normalize.py:43-56 | The fix line of each entry names a destination absent before that entry; a real rename moves exactly its source to it, and a would-rename changes nothing |
| CaseNormalize.ScanLinesFromListing | case_normalize.py:40-56 | Every fixed or skipped line comes from a listed file that needs the fix |
| LossyDuplicates.FindMatchingLossyProperties | archive_lossy_duplicates.py:9-16 | A lossy file is picked iff some FLAC has the same path root; no FLAC means none |
| LossyDuplicates.PairableMembers | archive_lossy_duplicates.py:11-16 | The filter keeps exactly the listed lossy files with a FLAC twin, in order |
| LossyDuplicates.ArchiveCommandProperties | archive_lossy_duplicates.py:18-30 | The type is case-insensitive, unknown types fall back to 7z, the archive name starts with `Lossy.`, and its extension is recognised |
| LossyDuplicates.OwnArchiveRecognised | archive_lossy_duplicates.py:64-72 | An archive this script writes is found by the existing-archive search |
| LossyDuplicates.ArchiveContents | archive_lossy_duplicates.py:32-60 | The listing loop computes the lossy names in the archive, and none when listing fails |
| LossyDuplicates.ArchiveContentsMembers | archive_lossy_duplicates.py:44-57 | A name is in the archive iff some listing line yields it |
| LossyDuplicates.FirstArchive | archive_lossy_duplicates.py:67-72 | The chosen archive is a listed archive name, and none exists iff no listed name is one |
| LossyDuplicates.FirstArchiveIsFirst | archive_lossy_duplicates.py:67-72 | The first such name in listing order is chosen |
| LossyDuplicates.FindArchive | archive_lossy_duplicates.py:67-72 | The loop returns the joined path of the first archive |
| LossyDuplicates.KeepPartition | archive_lossy_duplicates.py:75-85 | Already archived and remaining files partition the lossy files |
| LossyDuplicates.KeepMembers | archive_lossy_duplicates.py:75-85 | The keep filter keeps exactly the members on one side, in order |
| LossyDuplicates.DeleteAlreadyArchived | archive_lossy_duplicates.py:75-85 | The loop deletes the already archived files unless this is a dry run or keep is set, stopping at the deletion that raises, which ends the run |
| LossyDuplicates.RemoveFiles | archive_lossy_duplicates.py:78-82 | The deletions happen in order up to and including the one that raises, and the loop reports whether one did |
| LossyDuplicates.ArchiveFiles | archive_lossy_duplicates.py:87-125 | The method runs the `try` block's steps up to the first that raises, reporting 0 then and the number of files otherwise |
| LossyDuplicates.ArchiveAndDelete | archive_lossy_duplicates.py:62-125 | The method follows the plan, including the faults |
| LossyDuplicates.PlanDryRun | archive_lossy_duplicates.py:62-125 | A dry run archives nothing and changes nothing |
| LossyDuplicates.PlanCount | archive_lossy_duplicates.py:75-125 | The remaining files are the lossy files not in the archive; the run aborts iff a real deletion of an archived file raises; the count is the remaining files' number iff a real run reaches the `try` block and no step in it raises, 0 otherwise |
| LossyDuplicates.PlanFaultsTruncate | archive_lossy_duplicates.py:78-124 | A fault only cuts the trace short: the effects are a prefix of the fault-free run's, the count is that run's or 0, and an aborted run reports 0 |
| LossyDuplicates.TarFailureStopsCompression | archive_lossy_duplicates.py:98-102 | When `tar -cf` raises for a single-file compressor, that call is the only effect and the count is 0 |
| LossyDuplicates.RemovalFailureAfterArchive | archive_lossy_duplicates.py:113-124 | A deletion that raises after archiving leaves the archive built and the earlier files deleted, yet reports 0 |
| LossyDuplicates.PlanRemovals | archive_lossy_duplicates.py:75-125 | Only lossy files of this folder are removed, never in a dry run or with keep |
| LossyDuplicates.PlanRemovesAll | archive_lossy_duplicates.py:75-125 | A successful real run without keep removes every lossy duplicate |
| LossyDuplicates.CollectPending | archive_lossy_duplicates.py:127-134 | The walk loop collects the folders with lossy duplicates |
| LossyDuplicates.PendingMembers | archive_lossy_duplicates.py:131-134 | A folder is pending iff it has a lossy duplicate |
| LossyDuplicates.ArchivePending | archive_lossy_duplicates.py:136-139 | One pending folder is archived per the plan |
| LossyDuplicates.ArchiveAll | archive_lossy_duplicates.py:136-139 | The loop sums the per-folder counts and stops at the first folder whose exception escapes |
| LossyDuplicates.TallyStops | archive_lossy_duplicates.py:136-139 | Once a folder aborts, later folders change neither the total nor the verdict |
| LossyDuplicates.ScanArchive | archive_lossy_duplicates.py:127-146 | The scan returns the pending folders, the total archived and whether the run ended early |
| LossyDuplicates.ArchiveRunBounds | archive_lossy_duplicates.py:127-146 | A dry run gives 0 and completes; the total never exceeds the lossy files found; an early end needs a real run without keep and a failing deletion of an archived file |
| LossyDuplicates.FolderOutcomeBounds | archive_lossy_duplicates.py:62-125 | One folder's count is 0 in a dry run and at most its lossy files, and it aborts only on a real run without keep with a failing deletion |
| LyricsEmbed.MatchTagIsTag | lyrics_embed.py:11-12 | The tag matcher matches exactly a prefix of the form `[digits:digits(.digits)]` |
| LyricsEmbed.CloseAtIff | lyrics_embed.py:12 | The closing matcher ends exactly at a `]` after a fraction |
| LyricsEmbed.StripTimestamps | lyrics_embed.py:11-12 | The result has no leading or trailing whitespace |
| LyricsEmbed.RemoveTagsOfNoTag | lyrics_embed.py:11-12 | Text without tags is only stripped |
| LyricsEmbed.RemoveLeadingTag | lyrics_embed.py:12 | A leading tag is removed |
| LyricsEmbed.KeepLeadingChar | lyrics_embed.py:12 | A character that starts no tag is kept |
| LyricsEmbed.StripTaggedLine | lyrics_embed.py:11-12 | A tagged line loses its tag and its surrounding whitespace |
| LyricsEmbed.LrcCandidatesOf | lyrics_embed.py:14-24 | A track's candidates are the sibling `.lrc` and then `Lyrics/<stem>.lrc` |
| LyricsEmbed.CandidatesAreLrc | lyrics_embed.py:14-24 | Every candidate ends in `.lrc` |
| LyricsEmbed.FirstExistingIsFirst | lyrics_embed.py:20-24 | The first existing candidate is chosen, and none iff none exists |
| LyricsEmbed.LrcPreference | lyrics_embed.py:20-24 | The sibling file wins over the one under `Lyrics/` |
| LyricsEmbed.FindLrc | lyrics_embed.py:14-24 | The loop returns the first existing candidate |
| LyricsEmbed.FindFirst | lyrics_embed.py:21-24 | Walking the candidates in order returns the first one that exists as a file, and none when no candidate exists |
| LyricsEmbed.DescribeFolder | lyrics_embed.py:61-68 | Each returned part is one path component |
| LyricsEmbed.DescribeAlbumPath | lyrics_embed.py:61-68 | A path ending in `label/artist/album` gives those three |
| LyricsEmbed.DescribeTwoParts | lyrics_embed.py:61-68 | `artist/album` gives the artist, the album and no label |
| LyricsEmbed.DescribeOnePart | lyrics_embed.py:61-68 | One component is the artist |
| LyricsEmbed.AudioFolders | lyrics_embed.py:77-79 | A folder is processed iff one of its walked file names is an audio file |
| LyricsEmbed.CollectFolders | lyrics_embed.py:77-79 | The loop selects those folders |
| LyricsEmbed.FolderHasAudio | lyrics_embed.py:77-79 | The loop decides whether a folder has audio |
| LyricsEmbed.ProcessFile | lyrics_embed.py:85-113 | One file takes one step of the scan |
| LyricsEmbed.ProcessAudio | lyrics_embed.py:88-113 | An audio file is embedded or counted as having lyrics, and its `.lrc` deleted after embedding |
| LyricsEmbed.ProcessFolder | lyrics_embed.py:85-113 | The loop runs every name of the folder's listing, in sorted order |
| LyricsEmbed.SortNamesProperties | lyrics_embed.py:85 | `sorted` gives an ascending permutation of the listing |
| LyricsEmbed.InsertProperties | lyrics_embed.py:85 | Inserting into an ascending list keeps it ascending and adds exactly that name |
| LyricsEmbed.NameLeTotal | lyrics_embed.py:85 | Any two names are ordered, in code-point order |
| LyricsEmbed.NameLeAntisymmetric | lyrics_embed.py:85 | Two names ordered both ways are equal |
| LyricsEmbed.SortedListingExample | lyrics_embed.py:85 | `x.flac` is processed before `x.mp3`, whatever order the listing gives |
| LyricsEmbed.RemoveEmptyLyrics | lyrics_embed.py:115-125 | An empty `Lyrics` folder is removed after the scan of its album |
| LyricsEmbed.ScanArchive | lyrics_embed.py:70-125 | The method computes the scan run |
| LyricsEmbed.ScanProperties | lyrics_embed.py:85-125 | Deleted `.lrc` files number at most the embeds; embeds plus already-tagged fit the total; only untagged tracks are embedded; only `.lrc` files and `Lyrics` folders disappear; a dry run deletes nothing |
| LyricsEmbed.ScanTotal | lyrics_embed.py:85-113 | The total counts the audio names in the listings of the processed folders |
| LyricsEmbed.CountAudioSorted | lyrics_embed.py:85-88 | Sorting the listing keeps the number of audio names |
| CoverOnlyFolders.CoverIgnoresCase | folder_remove_cover_only.py:15-24 | Cover names match ignoring case |
| CoverOnlyFolders.IsEmptyOrCoverOnly | folder_remove_cover_only.py:26-48 | The loop classifies a listing |
| CoverOnlyFolders.ClassifyEmptyish | folder_remove_cover_only.py:26-48 | Flagged only without subfolders and with covers only, returning the names; empty with no contents iff the listing is empty; a subfolder prevents flagging |
| CoverOnlyFolders.ClassifiedMembers | folder_remove_cover_only.py:60-83 | A folder is listed as empty, or as cover-only, iff the walk classifies it so |
| CoverOnlyFolders.ParentNotFlagged | folder_remove_cover_only.py:60-83 | A folder with a subfolder is never flagged |
| CoverOnlyFolders.ClassifyWalk | folder_remove_cover_only.py:60-83 | The walk loop computes the classification and the scan count |
| CoverOnlyFolders.DeleteEmptyFolders | folder_remove_cover_only.py:90-101 | The loop deletes the empty folders |
| CoverOnlyFolders.DeleteEmptyEffect | folder_remove_cover_only.py:90-101 | Files are untouched; only listed folders go, one count each; a dry run changes nothing |
| CoverOnlyFolders.RemoveCoverFiles | folder_remove_cover_only.py:108-116 | The loop removes the cover files of one folder |
| CoverOnlyFolders.RemoveCoversEffect | folder_remove_cover_only.py:108-116 | Only this folder's listed covers go, one count each |
| CoverOnlyFolders.DeleteCoverOnlyFolders | folder_remove_cover_only.py:104-131 | The loop processes the cover-only folders |
| CoverOnlyFolders.DeleteCoverOnlyEffect | folder_remove_cover_only.py:104-131 | Only flagged folders and their listed covers go, counted exactly; without the covers flag no file goes; a dry run changes nothing |
| CoverOnlyFolders.CleanedProperties | folder_remove_cover_only.py:50-131 | Counts are bounded by what was flagged and match what disappeared; only flagged folders and listed covers disappear |
| CoverOnlyFolders.CoverOnlyKeptWithoutDeleteCovers | folder_remove_cover_only.py:104-131 | Without the covers flag a folder still holding its covers is not removed |
| CoverOnlyFolders.ScanAndClean | folder_remove_cover_only.py:50-131 | The method classifies and then cleans |
| CoverNormalize.FileKindIgnoresCase | cover_normalize.py:8-15 | Audio and image detection ignore case |
| CoverNormalize.HiddenNameHasNoKind | cover_normalize.py:11-15 | A hidden name with no other dot has no extension and no kind |
| CoverNormalize.RuleOf | cover_normalize.py:46-65 | cdart images are deleted, PNGs other than `logo.png` converted, JPEG aliases renamed, each iff its condition holds in source order |
| CoverNormalize.LogoRules | cover_normalize.py:57-62 | `logo.png` is left alone, but `Logo.png` is converted |
| CoverNormalize.CoverMatchesNoRule | cover_normalize.py:46-65 | `cover.jpg` itself matches no rule |
| CoverNormalize.ConvertToJpg | cover_normalize.py:17-28 | The conversion writes the JPEG and removes the PNG. A failing open or save changes nothing. A failing removal leaves both files. Both failures give the error line |
| CoverNormalize.SafeRename | cover_normalize.py:30-38 | A rename happens only when `cover.jpg` is absent |
| CoverNormalize.NormalizeAlbumFolder | cover_normalize.py:40-66 | The loop applies each name's rule in listing order |
| CoverNormalize.OneLinePerRuledName | cover_normalize.py:40-66 | There is one action line per name that matches a rule |
| CoverNormalize.AlbumDryRun | cover_normalize.py:40-66 | A dry run changes no file, and every line is a would-do line |
| CoverNormalize.StepKeepsCover | cover_normalize.py:40-66 | An existing `cover.jpg` survives every step |
| CoverNormalize.StepRemovesOnlyItself | cover_normalize.py:46-65 | A step removes at most its own file, and a name with no rule changes nothing |
| CoverNormalize.StepRenames | cover_normalize.py:64-65 | A step renames only when `cover.jpg` is absent, and the rename makes it present |
| CoverNormalize.AtMostOneRename | cover_normalize.py:40-66 | At most one file is renamed to `cover.jpg`, and only when none existed |
| CoverNormalize.RenameWhenCoverMissing | cover_normalize.py:30-36 | Conversely, a real run that reaches a rename candidate while `cover.jpg` is missing renames exactly one file |
| CoverNormalize.ArtistOf | cover_normalize.py:68-79 | An action line iff `folder.jpg` exists. A successful real run moves `folder.jpg` to `artist.jpg` and changes nothing else. A dry run, a failing rename or a missing image changes nothing |
| CoverNormalize.NormalizeArtistFolder | cover_normalize.py:68-79 | The method follows that decision |
| CoverNormalize.FolderKind | cover_normalize.py:91-96 | The loop classifies a folder by the regular files the walk reports for it |
| CoverNormalize.SelectedMembers | cover_normalize.py:91-96 | A folder is processed iff it is an album or artist folder |
| CoverNormalize.SelectFolders | cover_normalize.py:91-96 | The loop selects those folders |
| CoverNormalize.NormalizeFolder | cover_normalize.py:98-111 | A folder is normalised as an album folder, over its `os.listdir` listing, or as an artist folder |
| CoverNormalize.ScanArchive | cover_normalize.py:90-116 | The total is the number of selected folders and the run follows the scan |
| CoverNormalize.ScanCounts | cover_normalize.py:98-111 | Cleaned folders never exceed the selected ones, and a dry run changes no file |
| Paths.Splitext | lyrics_embed.py:15 | Root plus extension is the path |
| Paths.ExtShape | archive_lossy_duplicates.py:13 | An extension is empty, or a dot followed by no dot or slash |
| Paths.SplitextLower | archive_lossy_duplicates.py:13-16 | Splitting commutes with lower-casing |
| Paths.Basename | lyrics_embed.py:15 | The basename is the slash-free tail |
| Paths.JoinSplits | lyrics_embed.py:15-19 | Joining a folder and a plain name splits back into dirname and basename |
| Paths.SplitOnJoin | lyrics_embed.py:62 | Joining the split pieces gives the string back |
| Paths.StripChar | lyrics_embed.py:62 | The stripped string neither starts nor ends with the character |
| Paths.Stem | lyrics_embed.py:16 | The stem is a prefix of the name |

## Left out

- HTTP requests, retries, rate limiting and caching of Last.fm in `fetch_top_tags`: the decoded response comes in as a parameter.
- Genres.CleanTags: the `int()` failure on a non-numeric count is not modelled; counts arrive as integers.
- Tag reading and writing (mutagen): modelled as the `TagRead` value, the `World` sets of tagged and failing files, and `writeOk`.
- Image conversion (PIL): the image data is not modelled. A conversion fails before saving when the path is in `failing`. When the path is in `removeFailing`, the JPEG is saved but removing the PNG raises, so both files remain.
- The `tar` / `7zz` subprocesses: modelled as an `Effect` list, the `Faults` indices of the step that raises, and the listing `output`; their command lines are only shaped, not run.
- Console output, progress bars, colours, `print_report` and verbose flags: the model returns the counts and lists shown.
- Unicode: characters are narrowed to ASCII; `lower()` maps only A-Z, and whitespace is the ASCII set `str.isspace` accepts.
- Case-insensitive filesystems: `exists` is exact membership in the set of paths.
- `os.walk` order and directory timing: the walk is a given sequence of folders.
- The scripts `lossy_archive.py`, `mp3_archive.py`, `archive_mp3_duplicates.py` and the other copies of `describe_folder` duplicate modelled logic and are not part of this model.
- `menu.py`, the scrapers and fetchers, `folder_remove_empty.py`, `folder_prune.py`, `lyrics_purge.py`, `cover_purge.py`, `archive/cover_remove_deprecated.py`, `nfo_generate.py` and `cover_extract.py` are not part of this model.
- Concurrency and interruption: each script is modelled as one sequential run.
- CoverNormalize.NormalizeAlbumFolder: the rules run over the folder's `os.listdir` listing (cover_normalize.py:42), sub-folders included, while the classification reads only the regular files of the walk (cover_normalize.py:92-95). A sub-folder is a path like any other in the model. Whether `os.remove` or `Image.open` raises on it is given by `failing`, as for a file, and a sub-folder renamed to `cover.jpg` moves like a file. The model also treats the `os.rename` in `safe_rename` (cover_normalize.py:35) as always succeeding, although it is outside any `try` and a failing rename would end the script.
- LyricsEmbed.ProcessFolder: a sub-folder whose name ends in an audio extension is in the listing and is processed as an audio file, as the source does (lyrics_embed.py:85-88); whether its tags read as embedded or fail to save is a `World` answer like any file's.
- LyricsEmbed.ScanArchive: each folder's listing is input as it stands when the folder is processed; the deletions made earlier in the scan do not change it.
