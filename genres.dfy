/** The genre-tag expansion engine of the Last.fm genre fetcher: constant
    expansion tables, the per-tag rule cascade, case-insensitive de-duplication,
    synthesis of combined "A/B" labels and removal of redundant labels. */
module Genres {
  import opened Text

  // ---------------------------------------------------------------------------
  // Expansion tables

  /** Single genre words and the label they stand for. */
  const GenreExpansions: map<String, String> := map[
    "thrash" := "Thrash Metal",
    "death" := "Death Metal",
    "black" := "Black Metal",
    "doom" := "Doom Metal",
    "heavy" := "Heavy Metal",
    "hardcore" := "Hardcore",
    "punk" := "Punk Rock",
    "folk" := "Folk Metal",
    "progressive" := "Progressive Metal",
    "power" := "Power Metal",
    "symphonic" := "Symphonic Metal",
    "sludge" := "Sludge Metal",
    "stoner" := "Stoner Rock",
    "speed" := "Speed Metal",
    "gothic" := "Gothic Metal",
    "groove" := "Groove Metal",
    "funk" := "Funk Metal",
    "alternative" := "Alternative Rock",
    "indie" := "Indie Rock",
    "industrial" := "Industrial",
    "math" := "Mathcore",
    "horror" := "Horror Punk"
  ]

  /** Known "a/b" tags and their full expansions. */
  const SlashExpansions: map<String, seq<String>> := map[
    "death/thrash" := ["Death/Thrash", "Death Metal", "Thrash Metal"],
    "thrash/death" := ["Thrash/Death", "Thrash Metal", "Death Metal"],
    "death/doom" := ["Death/Doom", "Death Metal", "Doom Metal"],
    "doom/death" := ["Doom/Death", "Doom Metal", "Death Metal"],
    "black/death" := ["Black/Death", "Black Metal", "Death Metal"],
    "death/black" := ["Death/Black", "Death Metal", "Black Metal"],
    "black/thrash" := ["Black/Thrash", "Black Metal", "Thrash Metal"],
    "thrash/black" := ["Thrash/Black", "Thrash Metal", "Black Metal"],
    "progressive death/thrash" := ["Progressive Death/Thrash", "Progressive Metal", "Death Metal", "Thrash Metal"],
    "blackened death/thrash" := ["Blackened Death/Thrash", "Black Metal", "Death Metal", "Thrash Metal"]
  ]

  /** Known multi-word tags and their expansions. */
  const CompoundExpansions: map<String, seq<String>> := map[
    "crossover thrash" := ["Crossover", "Thrash Metal"],
    "thrash crossover" := ["Thrash Metal", "Crossover"],
    "beatdown hardcore" := ["Beatdown", "Hardcore"],
    "hardcore beatdown" := ["Hardcore", "Beatdown"],
    "sludge metal" := ["Sludge Metal"],
    "stoner metal" := ["Stoner Metal"],
    "stoner rock" := ["Stoner Rock"],
    "death metal" := ["Death Metal"],
    "thrash metal" := ["Thrash Metal"],
    "black metal" := ["Black Metal"],
    "doom metal" := ["Doom Metal"],
    "heavy metal" := ["Heavy Metal"],
    "hard rock" := ["Hard Rock"],
    "classic rock" := ["Classic Rock"],
    "punk rock" := ["Punk Rock"],
    "alternative rock" := ["Alternative Rock"],
    "progressive metal" := ["Progressive Metal"],
    "power metal" := ["Power Metal"],
    "folk metal" := ["Folk Metal"],
    "symphonic metal" := ["Symphonic Metal"],
    "gothic metal" := ["Gothic Metal"],
    "groove metal" := ["Groove Metal"],
    "speed metal" := ["Speed Metal"],
    "funk metal" := ["Funk Metal"],
    "indie rock" := ["Indie Rock"],
    "hardcore punk" := ["Hardcore Punk"]
  ]

  /** Words that, as the second of exactly two words, trigger the two-word rule. */
  const CommonGenreWords: set<String> := {
    "metal", "rock", "punk", "hardcore", "core", "thrash", "death",
    "black", "doom", "folk", "progressive", "power", "symphonic",
    "alternative", "classic", "heavy", "beatdown", "crossover",
    "sludge", "stoner", "speed", "gothic", "groove", "funk", "indie",
    "industrial", "math", "horror", "grindcore", "deathcore", "mathcore",
    "post", "new", "nu", "glam", "technical", "brutal", "slamming",
    "viking", "war", "atmospheric", "avantgarde", "blackened"
  }

  /** Tags dropped before expansion (compared lower-cased). */
  const BlockedTags: set<String> := {"seen live"}

  lemma SlashEntryNonEmpty(k: String)
    requires k in SlashExpansions
    ensures SlashExpansions[k] != []
  {
  }

  lemma CompoundEntryNonEmpty(k: String)
    requires k in CompoundExpansions
    ensures CompoundExpansions[k] != []
  {
  }

  // ---------------------------------------------------------------------------
  // `re.match(r"^(.+?)/(.+)$", s)`

  predicate NoNewline(t: String)
  {
    forall i :: 0 <= i < |t| ==> t[i] != '\n'
  }

  /** Where `$` matches: the end, or just before a final newline. */
  function LineEnd(s: String): (e: nat)
    ensures e <= |s|
  {
    if s != [] && s[|s| - 1] == '\n' then |s| - 1 else |s|
  }

  /** The pattern matches with its `/` at position i: a non-empty first group
      and a non-empty second group, neither holding a newline. */
  predicate SlashSplitsAt(s: String, i: int)
  {
    && 1 <= i && i + 1 < LineEnd(s) && s[i] == '/'
    && NoNewline(s[..i]) && NoNewline(s[i + 1..LineEnd(s)])
  }

  /** The lazy first group stops at the first `/` that lets the match succeed. */
  function FirstSlash(s: String): (r: Option<nat>)
    ensures r.Some? ==> SlashSplitsAt(s, r.value) && forall k :: 0 <= k < r.value ==> !SlashSplitsAt(s, k)
    ensures r.None? ==> forall k :: !SlashSplitsAt(s, k)
  {
    if s == [] || s[0] == '\n' then None else FirstSlashFrom(s, 1)
  }

  function FirstSlashFrom(s: String, j: nat): (r: Option<nat>)
    requires 1 <= j <= |s| && NoNewline(s[..j])
    ensures r.Some? ==> j <= r.value && SlashSplitsAt(s, r.value)
                        && forall k :: j <= k < r.value ==> !SlashSplitsAt(s, k)
    ensures r.None? ==> forall k :: j <= k ==> !SlashSplitsAt(s, k)
    decreases |s| - j
  {
    if j + 1 >= LineEnd(s) then None
    else if s[j] == '/' && NoNewline(s[j + 1..LineEnd(s)]) then Some(j)
    else if s[j] == '\n' then
      assert forall k :: j < k <= |s| ==> s[..k][j] == '\n';
      None
    else
      assert s[..j + 1] == s[..j] + [s[j]];
      FirstSlashFrom(s, j + 1)
  }

  // ---------------------------------------------------------------------------
  // `expand_genre`

  /** `expand_genre`: the cascade runs on the trimmed lower-case tag; only the
      last rule uses the tag as given, through `to_mixed_case`. */
  function ExpandGenre(genre: String): (r: seq<String>)
    ensures r != []
    decreases |genre|, 2
  {
    ExpandLower(Strip(Lower(genre)), ToMixedCase(genre))
  }

  /** The rule cascade, in priority order: slash table, compound table, generic
      "a/b" split expanded recursively, two-word rule, single-word table, and
      finally `asIs`, the mixed-cased tag. The list is never empty. */
  function ExpandLower(lower: String, asIs: String): (r: seq<String>)
    ensures r != []
    decreases |lower|, 1
  {
    if lower in SlashExpansions then
      SlashEntryNonEmpty(lower);
      SlashExpansions[lower]
    else if lower in CompoundExpansions then
      CompoundEntryNonEmpty(lower);
      CompoundExpansions[lower]
    else match FirstSlash(lower)
      case Some(i) => ExpandSlash(lower, i)
      case None =>
        var words := Words(lower);
        if |words| == 2 && words[1] in CommonGenreWords then
          var second := if words[1] in GenreExpansions then GenreExpansions[words[1]] else ToMixedCase(words[1]);
          UniqueCIHead([ToMixedCase(words[0]), second]);
          UniqueCI([ToMixedCase(words[0]), second])
        else if lower in GenreExpansions then [GenreExpansions[lower]]
        else [asIs]
  }

  /** The candidates of the generic split: the whole "part1/part2" mixed-cased,
      then the expansions of each part. */
  function SlashCandidates(lower: String, i: nat): (r: seq<String>)
    requires SlashSplitsAt(lower, i)
    ensures |r| >= 1
    decreases |lower|, 0, 1
  {
    var part1 := Strip(lower[..i]);
    var part2 := Strip(lower[i + 1..LineEnd(lower)]);
    var genre1 := ToMixedCase(part1);
    var genre2 := ToMixedCase(part2);
    assert |genre1| <= |part1| <= i < |lower|;
    assert |genre2| <= |part2| < |lower|;
    [ToMixedCase(part1 + "/" + part2)] + ExpandGenre(genre1) + ExpandGenre(genre2)
  }

  function ExpandSlash(lower: String, i: nat): (r: seq<String>)
    requires SlashSplitsAt(lower, i)
    ensures r != []
    decreases |lower|, 0
  {
    var all := SlashCandidates(lower, i);
    UniqueCIHead(all);
    UniqueCI(all)
  }

  // Facts about the slash pattern

  /** The split position is the first `/` after the first character. */
  lemma FirstSlashIsFirst(s: String, i: nat)
    requires FirstSlash(s) == Some(i)
    ensures s[i] == '/' && forall k :: 1 <= k < i ==> s[k] != '/'
  {
    forall k | 1 <= k < i ensures s[k] != '/' {
      EarlierSlashSplits(s, i, k);
    }
  }

  /** Any earlier `/` would already let the match succeed. */
  lemma EarlierSlashSplits(s: String, i: nat, k: nat)
    requires SlashSplitsAt(s, i) && 1 <= k < i
    ensures s[k] == '/' ==> SlashSplitsAt(s, k)
  {
    if s[k] == '/' {
      assert NoNewline(s[..k]) by {
        assert forall m :: 0 <= m < k ==> s[..k][m] == s[..i][m];
      }
      assert NoNewline(s[k + 1..LineEnd(s)]) by {
        forall m | k + 1 <= m < LineEnd(s) ensures s[m] != '\n' {
          if m < i {
            assert s[..i][m] == s[m];
          } else if m > i {
            assert s[i + 1..LineEnd(s)][m - i - 1] == s[m];
          }
        }
      }
    }
  }

  /** On a one-line string the pattern matches as soon as some `/` has a
      character on each side. */
  lemma SlashMatchesOneLine(s: String, k: nat)
    requires NoNewline(s) && 1 <= k && k + 1 < |s| && s[k] == '/'
    ensures FirstSlash(s).Some?
  {
    assert LineEnd(s) == |s|;
    assert SlashSplitsAt(s, k);
  }

  // ---------------------------------------------------------------------------
  // The rules of `expand_genre`, one by one

  /** An exact slash-table key is answered from the table, before anything else. */
  lemma ExpandGenreSlashTable(genre: String)
    requires Strip(Lower(genre)) in SlashExpansions
    ensures ExpandGenre(genre) == SlashExpansions[Strip(Lower(genre))]
  {
  }

  /** An exact compound-table key that is not a slash key is answered from the compound table. */
  lemma ExpandGenreCompoundTable(genre: String)
    requires Strip(Lower(genre)) !in SlashExpansions && Strip(Lower(genre)) in CompoundExpansions
    ensures ExpandGenre(genre) == CompoundExpansions[Strip(Lower(genre))]
  {
  }

  /** The generic slash rule: the result is the combined label followed by both
      parts' expansions with case-insensitive duplicates removed; so it opens
      with the mixed-cased combined label, holds no two labels equal ignoring
      case, keeps their order, and loses none of their case-insensitive keys. */
  lemma ExpandGenreSlashRule(genre: String, i: nat)
    requires Strip(Lower(genre)) !in SlashExpansions && Strip(Lower(genre)) !in CompoundExpansions
    requires FirstSlash(Strip(Lower(genre))) == Some(i)
    ensures var all := SlashCandidates(Strip(Lower(genre)), i);
            && ExpandGenre(genre) == UniqueCI(all)
            && ExpandGenre(genre)[0] == all[0]
            && NoCIDup(ExpandGenre(genre))
            && Subseq(ExpandGenre(genre), all)
            && Keys(ExpandGenre(genre)) == Keys(all)
  {
    var all := SlashCandidates(Strip(Lower(genre)), i);
    ExpandGenreIsSlash(genre, i);
    UniqueCIHead(all);
    UniqueCIProperties(all);
  }

  lemma ExpandGenreIsSlash(genre: String, i: nat)
    requires Strip(Lower(genre)) !in SlashExpansions && Strip(Lower(genre)) !in CompoundExpansions
    requires FirstSlash(Strip(Lower(genre))) == Some(i)
    ensures ExpandGenre(genre) == ExpandSlash(Strip(Lower(genre)), i)
  {
  }

  /** The two-word rule: exactly two words whose second is a common genre word
      give the mixed-cased first word and the second word's expansion (its
      table entry, else its mixed-cased form), the latter dropped when the two
      are equal ignoring case. */
  lemma ExpandGenreTwoWord(genre: String)
    requires Strip(Lower(genre)) !in SlashExpansions && Strip(Lower(genre)) !in CompoundExpansions
    requires FirstSlash(Strip(Lower(genre))).None?
    requires |Words(Strip(Lower(genre)))| == 2 && Words(Strip(Lower(genre)))[1] in CommonGenreWords
    ensures var words := Words(Strip(Lower(genre)));
            var first := ToMixedCase(words[0]);
            var second := if words[1] in GenreExpansions then GenreExpansions[words[1]] else ToMixedCase(words[1]);
            ExpandGenre(genre) == if Lower(first) == Lower(second) then [first] else [first, second]
  {
    var words := Words(Strip(Lower(genre)));
    var first := ToMixedCase(words[0]);
    var second := if words[1] in GenreExpansions then GenreExpansions[words[1]] else ToMixedCase(words[1]);
    UniqueCIPair(first, second);
  }

  /** Failing every earlier rule, a single-word table key gives its entry, and
      anything else gives the mixed-cased tag alone. */
  lemma ExpandGenreFallback(genre: String)
    requires Strip(Lower(genre)) !in SlashExpansions && Strip(Lower(genre)) !in CompoundExpansions
    requires FirstSlash(Strip(Lower(genre))).None?
    requires !(|Words(Strip(Lower(genre)))| == 2 && Words(Strip(Lower(genre)))[1] in CommonGenreWords)
    ensures Strip(Lower(genre)) in GenreExpansions ==> ExpandGenre(genre) == [GenreExpansions[Strip(Lower(genre))]]
    ensures Strip(Lower(genre)) !in GenreExpansions ==> ExpandGenre(genre) == [ToMixedCase(genre)]
  {
  }

  /** The expansion depends only on the trimmed lower-case tag. */
  lemma ExpandGenreIgnoresCase(g: String, h: String)
    requires Strip(Lower(g)) == Strip(Lower(h))
    ensures ExpandGenre(g) == ExpandGenre(h)
  {
    MixedCaseIgnoresCase(g, h);
  }

  // ---------------------------------------------------------------------------
  // `unique_case_insensitive`

  /** The loop with a `seen` set of keys; it computes `UniqueCI`. */
  method UniqueCaseInsensitive(arr: seq<String>) returns (out: seq<String>)
    ensures out == UniqueCI(arr)
  {
    var seen: set<String> := {};
    out := [];
    var i := 0;
    while i < |arr|
      invariant i <= |arr|
      invariant out == UniqueCI(arr[..i])
      invariant seen == Keys(arr[..i])
    {
      var v := arr[i];
      var key := Lower(v);
      assert arr[..i + 1][..i] == arr[..i];
      if key !in seen {
        seen := seen + {key};
        out := out + [v];
      }
      i := i + 1;
    }
    assert arr[..i] == arr;
  }

  // ---------------------------------------------------------------------------
  // `remove_redundant_genres`

  /** `other` makes `current` redundant: it has no `/`, it is strictly longer,
      and, ignoring case, it holds `current` as a whole phrase (when `current`
      has a space) or as a whole word. */
  predicate Subsumes(other: String, current: String)
  {
    && '/' !in other
    && |other| > |current|
    && if ' ' in Lower(current) then WholePhraseIn(Lower(other), Lower(current))
       else WholeWordIn(Lower(other), Lower(current))
  }

  /** Some element of the list makes `current` redundant. The index test
      `i == j` of the loop is implied: no string is longer than itself. */
  predicate Redundant(genres: seq<String>, current: String)
  {
    exists j :: 0 <= j < |genres| && Subsumes(genres[j], current)
  }

  /** A label survives when it holds a `/` or nothing makes it redundant. */
  predicate Survives(genres: seq<String>, current: String)
  {
    '/' in current || !Redundant(genres, current)
  }

  /** The surviving elements of s, judged against the whole list `genres`. */
  function Survivors(genres: seq<String>, s: seq<String>): seq<String>
    decreases |s|
  {
    if s == [] then []
    else
      var last := s[|s| - 1];
      Survivors(genres, s[..|s| - 1]) + (if Survives(genres, last) then [last] else [])
  }

  function RemoveRedundant(genres: seq<String>): seq<String>
  {
    if |genres| <= 1 then genres else Survivors(genres, genres)
  }

  /** The nested loops of `remove_redundant_genres`, which compute `RemoveRedundant`. */
  method RemoveRedundantGenres(genres: seq<String>) returns (filtered: seq<String>)
    ensures filtered == RemoveRedundant(genres)
  {
    if |genres| <= 1 {
      return genres;
    }
    filtered := [];
    var lowerGenres := LowerAll(genres);
    var i := 0;
    while i < |genres|
      invariant i <= |genres|
      invariant filtered == Survivors(genres, genres[..i])
    {
      var current := genres[i];
      var currentLower := lowerGenres[i];
      assert genres[..i + 1][..i] == genres[..i];
      if '/' in current {
        filtered := filtered + [current];
      } else {
        var isRedundant := RedundantAt(genres, lowerGenres, i);
        if !isRedundant {
          filtered := filtered + [current];
        }
      }
      i := i + 1;
    }
    assert genres[..i] == genres;
  }

  /** The inner loop of `remove_redundant_genres`: does another element make
      element i redundant? */
  method RedundantAt(genres: seq<String>, lowerGenres: seq<String>, i: nat) returns (isRedundant: bool)
    requires i < |genres| && lowerGenres == LowerAll(genres)
    ensures isRedundant == Redundant(genres, genres[i])
  {
    var current := genres[i];
    var currentLower := lowerGenres[i];
    isRedundant := false;
    var j := 0;
    while j < |genres|
      invariant j <= |genres|
      invariant !isRedundant ==> forall k :: 0 <= k < j ==> !Subsumes(genres[k], current)
      invariant isRedundant ==> Redundant(genres, current)
    {
      if i != j {
        var other := genres[j];
        var otherLower := lowerGenres[j];
        if '/' !in other && |other| > |current| {
          var found;
          if ' ' in currentLower {
            found := WholePhraseIn(otherLower, currentLower);
          } else {
            found := WholeWordIn(otherLower, currentLower);
          }
          if found {
            isRedundant := true;
            assert Subsumes(genres[j], current);
            break;
          }
        }
      }
      j := j + 1;
    }
  }

  /** Exactly the listed elements that survive are kept. */
  lemma {:induction false} SurvivorsMembers(genres: seq<String>, s: seq<String>)
    ensures forall x :: x in Survivors(genres, s) <==> x in s && Survives(genres, x)
    decreases |s|
  {
    if s != [] {
      var init := s[..|s| - 1];
      SurvivorsMembers(genres, init);
      assert s == init + [s[|s| - 1]];
    }
  }

  lemma {:induction false} SurvivorsSubseq(genres: seq<String>, s: seq<String>)
    ensures Subseq(Survivors(genres, s), s)
    decreases |s|
  {
    if s != [] {
      var init := s[..|s| - 1];
      var last := s[|s| - 1];
      SurvivorsSubseq(genres, init);
      SubseqAppend(Survivors(genres, init), init, last, Survives(genres, last));
      assert init + [last] == s;
    }
  }

  /** When every element survives, nothing is dropped. */
  lemma {:induction false} SurvivorsAll(genres: seq<String>, s: seq<String>)
    requires forall k :: 0 <= k < |s| ==> Survives(genres, s[k])
    ensures Survivors(genres, s) == s
    decreases |s|
  {
    if s != [] {
      var init := s[..|s| - 1];
      SurvivorsAll(genres, init);
      assert init + [s[|s| - 1]] == s;
    }
  }

  /** `remove_redundant_genres`: a short list comes back unchanged; otherwise the
      result keeps input order, keeps every label with a `/`, and holds exactly
      the labels that no longer co-occurring label subsumes. */
  lemma RemoveRedundantProperties(genres: seq<String>)
    ensures |genres| <= 1 ==> RemoveRedundant(genres) == genres
    ensures Subseq(RemoveRedundant(genres), genres)
    ensures forall x :: x in genres && '/' in x ==> x in RemoveRedundant(genres)
    ensures |genres| >= 2 ==>
              forall x :: x in RemoveRedundant(genres) <==> x in genres && Survives(genres, x)
  {
    if |genres| >= 2 {
      SurvivorsMembers(genres, genres);
      SurvivorsSubseq(genres, genres);
    } else {
      SubseqRefl(genres);
    }
  }

  lemma {:induction false} SubseqRefl<T>(s: seq<T>)
    ensures Subseq(s, s)
    decreases |s|
  {
    if s != [] {
      SubseqRefl(s[..|s| - 1]);
    }
  }

  /** Some element is at least as long as every other. */
  lemma {:induction false} LongestElement(s: seq<String>) returns (m: nat)
    requires s != []
    ensures m < |s| && forall k :: 0 <= k < |s| ==> |s[k]| <= |s[m]|
    decreases |s|
  {
    if |s| == 1 {
      m := 0;
    } else {
      var m0 := LongestElement(s[..|s| - 1]);
      assert forall k :: 0 <= k < |s| - 1 ==> s[k] == s[..|s| - 1][k];
      m := if |s[|s| - 1]| > |s[m0]| then |s| - 1 else m0;
    }
  }

  /** A non-empty list keeps at least one label: a longest one is never subsumed. */
  lemma RemoveRedundantNonEmpty(genres: seq<String>)
    requires genres != []
    ensures RemoveRedundant(genres) != []
  {
    if |genres| >= 2 {
      var m := LongestElement(genres);
      assert !Redundant(genres, genres[m]);
      RemoveRedundantProperties(genres);
      assert genres[m] in RemoveRedundant(genres);
    }
  }

  /** Removing redundant labels twice removes nothing more: what survives the
      full list also survives among the survivors. */
  lemma RemoveRedundantIdempotent(genres: seq<String>)
    ensures RemoveRedundant(RemoveRedundant(genres)) == RemoveRedundant(genres)
  {
    var r := RemoveRedundant(genres);
    if |genres| >= 2 && |r| >= 2 {
      RemoveRedundantProperties(genres);
      forall k | 0 <= k < |r| ensures Survives(r, r[k]) {
        assert r[k] in r;
        assert Survives(genres, r[k]);
        forall j | 0 <= j < |r| ensures !Subsumes(r[j], r[k]) || '/' in r[k] {
          assert r[j] in r;
          var j' :| 0 <= j' < |genres| && genres[j'] == r[j];
        }
      }
      SurvivorsAll(r, r);
    }
  }

  // ---------------------------------------------------------------------------
  // Pair synthesis in `expand_genres`

  /** Insert `name` when both `first` and `second` are present and no label
      already holds `slash` or `reversed`. */
  datatype PairRule = PairRule(name: String, first: String, second: String, slash: String, reversed: String)

  /** The four rules in the order the source checks them. */
  const PairRules: seq<PairRule> := [
    PairRule("Death/Doom", "death metal", "doom metal", "death/doom", "doom/death"),
    PairRule("Death/Thrash", "thrash metal", "death metal", "death/thrash", "thrash/death"),
    PairRule("Black/Thrash", "black metal", "thrash metal", "black/thrash", "thrash/black"),
    PairRule("Black/Death", "black metal", "death metal", "black/death", "death/black")
  ]

  /** `any(a in g or b in g for g in low)`. */
  predicate AnyContainsEither(low: seq<String>, a: String, b: String)
  {
    exists k :: 0 <= k < |low| && (Contains(low[k], a) || Contains(low[k], b))
  }

  predicate HasSlashPair(low: seq<String>, rule: PairRule)
  {
    AnyContainsEither(low, rule.slash, rule.reversed)
  }

  /** A rule fires on the lower-cased list taken before any insertion. */
  predicate Fires(low: seq<String>, rule: PairRule)
  {
    rule.first in low && rule.second in low && !HasSlashPair(low, rule)
  }

  /** The labels inserted at the front: each rule's insertion lands before the
      earlier ones, so the last rule's label comes first. */
  function PairPrefix(low: seq<String>, rules: seq<PairRule>): seq<String>
    decreases |rules|
  {
    if rules == [] then []
    else PairPrefix(low, rules[1..]) + (if Fires(low, rules[0]) then [rules[0].name] else [])
  }

  /** The rules applied in order, each inserting its name at the front of `acc`. */
  function ApplyPairRules(low: seq<String>, rules: seq<PairRule>, acc: seq<String>): seq<String>
    decreases |rules|
  {
    if rules == [] then acc
    else ApplyPairRules(low, rules[1..], if Fires(low, rules[0]) then [rules[0].name] + acc else acc)
  }

  function InsertPairs(unique: seq<String>): seq<String>
  {
    ApplyPairRules(LowerAll(unique), PairRules, unique)
  }

  /** Inserting one by one at the front puts the fired names, latest first,
      before the original list. */
  lemma {:induction false} ApplyPairRulesPrefix(low: seq<String>, rules: seq<PairRule>, acc: seq<String>)
    ensures ApplyPairRules(low, rules, acc) == PairPrefix(low, rules) + acc
    decreases |rules|
  {
    if rules != [] {
      var head := if Fires(low, rules[0]) then [rules[0].name] else [];
      assert (if Fires(low, rules[0]) then [rules[0].name] + acc else acc) == head + acc;
      ApplyPairRulesPrefix(low, rules[1..], head + acc);
      assert PairPrefix(low, rules[1..]) + (head + acc) == PairPrefix(low, rules[1..]) + head + acc;
    } else {
      assert [] + acc == acc;
    }
  }

  /** The front of the list reads Black/Death, Black/Thrash, Death/Thrash,
      Death/Doom, each present exactly when its rule fires. */
  lemma PairPrefixOrder(low: seq<String>)
    ensures PairPrefix(low, PairRules)
            == (if Fires(low, PairRules[3]) then ["Black/Death"] else [])
               + (if Fires(low, PairRules[2]) then ["Black/Thrash"] else [])
               + (if Fires(low, PairRules[1]) then ["Death/Thrash"] else [])
               + (if Fires(low, PairRules[0]) then ["Death/Doom"] else [])
  {
    var r := PairRules;
    assert r[1..][0] == r[1] && r[1..][1..][0] == r[2] && r[1..][1..][1..][0] == r[3];
    assert r[1..][1..][1..][1..] == [];
  }

  /** Every inserted label comes from a rule that fired. */
  lemma {:induction false} PairPrefixFired(low: seq<String>, rules: seq<PairRule>)
    ensures forall x :: x in PairPrefix(low, rules) ==>
              exists k :: 0 <= k < |rules| && rules[k].name == x && Fires(low, rules[k])
    decreases |rules|
  {
    if rules != [] {
      PairPrefixFired(low, rules[1..]);
      forall x | x in PairPrefix(low, rules)
        ensures exists k :: 0 <= k < |rules| && rules[k].name == x && Fires(low, rules[k])
      {
        if x in PairPrefix(low, rules[1..]) {
          var k :| 0 <= k < |rules[1..]| && rules[1..][k].name == x && Fires(low, rules[1..][k]);
          assert rules[k + 1] == rules[1..][k];
        } else {
          assert rules[0].name == x && Fires(low, rules[0]);
        }
      }
    }
  }

  /** Each rule's label, lower-cased, is the slash form it looks for. */
  lemma PairLabelsLower()
    ensures forall k :: 0 <= k < |PairRules| ==> Lower(PairRules[k].name) == PairRules[k].slash
  {
    assert Lower("Death/Doom") == "death/doom";
    assert Lower("Death/Thrash") == "death/thrash";
    assert Lower("Black/Thrash") == "black/thrash";
    assert Lower("Black/Death") == "black/death";
  }

  lemma NoCIDupConcat(a: seq<String>, b: seq<String>)
    requires NoCIDup(a) && NoCIDup(b)
    requires forall i, j :: 0 <= i < |a| && 0 <= j < |b| ==> Lower(a[i]) != Lower(b[j])
    ensures NoCIDup(a + b)
  {
    var c := a + b;
    forall i, j | 0 <= i < j < |c| ensures Lower(c[i]) != Lower(c[j]) {
      if j < |a| {
        assert c[i] == a[i] && c[j] == a[j];
      } else if i >= |a| {
        assert c[i] == b[i - |a|] && c[j] == b[j - |a|];
      } else {
        assert c[i] == a[i] && c[j] == b[j - |a|];
      }
    }
  }

  /** An inserted label never duplicates an existing one ignoring case: the
      existing one would itself contain the slash form. */
  lemma InsertPairsNoDup(unique: seq<String>)
    requires NoCIDup(unique)
    ensures NoCIDup(InsertPairs(unique))
  {
    var low := LowerAll(unique);
    var prefix := PairPrefix(low, PairRules);
    ApplyPairRulesPrefix(low, PairRules, unique);
    PrefixNoDup(low);
    PrefixAvoidsExisting(unique, low);
    NoCIDupConcat(prefix, unique);
  }

  /** The four labels differ ignoring case. */
  lemma PrefixNoDup(low: seq<String>)
    ensures NoCIDup(PairPrefix(low, PairRules))
  {
    PairNamesDistinct();
    PairPrefixNoDup(low, PairRules);
  }

  lemma PairNamesDistinct()
    ensures forall a, b :: 0 <= a < b < |PairRules| ==> Lower(PairRules[a].name) != Lower(PairRules[b].name)
  {
    PairLabelsLower();
    assert PairRules[1].slash[0] != PairRules[2].slash[0];
  }

  /** Rules with labels distinct ignoring case insert no two equal labels. */
  lemma {:induction false} PairPrefixNoDup(low: seq<String>, rules: seq<PairRule>)
    requires forall a, b :: 0 <= a < b < |rules| ==> Lower(rules[a].name) != Lower(rules[b].name)
    ensures NoCIDup(PairPrefix(low, rules))
    decreases |rules|
  {
    if rules != [] {
      var tail := rules[1..];
      forall a, b | 0 <= a < b < |tail| ensures Lower(tail[a].name) != Lower(tail[b].name) {
        assert tail[a] == rules[a + 1] && tail[b] == rules[b + 1];
      }
      PairPrefixNoDup(low, tail);
      var pre := PairPrefix(low, tail);
      if Fires(low, rules[0]) {
        var x := rules[0].name;
        PairPrefixFired(low, tail);
        forall i, j | 0 <= i < |pre| && 0 <= j < |[x]| ensures Lower(pre[i]) != Lower([x][j]) {
          assert pre[i] in pre;
          var k :| 0 <= k < |tail| && tail[k].name == pre[i] && Fires(low, tail[k]);
          assert tail[k] == rules[k + 1];
        }
        NoCIDupConcat(pre, [x]);
      } else {
        assert PairPrefix(low, rules) == pre + [];
      }
    }
  }

  lemma PrefixAvoidsExisting(unique: seq<String>, low: seq<String>)
    requires low == LowerAll(unique)
    ensures var prefix := PairPrefix(low, PairRules);
            forall i, j :: 0 <= i < |prefix| && 0 <= j < |unique| ==> Lower(prefix[i]) != Lower(unique[j])
  {
    var prefix := PairPrefix(low, PairRules);
    PairLabelsLower();
    PairPrefixFired(low, PairRules);
    forall i, j | 0 <= i < |prefix| && 0 <= j < |unique| ensures Lower(prefix[i]) != Lower(unique[j]) {
      assert prefix[i] in prefix;
      var k :| 0 <= k < |PairRules| && PairRules[k].name == prefix[i] && Fires(low, PairRules[k]);
      ContainsSelf(low[j]);
    }
  }

  // ---------------------------------------------------------------------------
  // `expand_genres`

  /** Every tag's expansion, concatenated in order. */
  function ExpandAll(genres: seq<String>): seq<String>
    decreases |genres|
  {
    if genres == [] then []
    else ExpandAll(genres[..|genres| - 1]) + ExpandGenre(genres[|genres| - 1])
  }

  lemma ExpandAllStep(genres: seq<String>, i: nat)
    requires i < |genres|
    ensures ExpandAll(genres[..i + 1]) == ExpandAll(genres[..i]) + ExpandGenre(genres[i])
  {
    assert genres[..i + 1][..i] == genres[..i];
  }

  /** Expand every tag, de-duplicate, insert the combined pair labels, remove
      redundant labels. */
  function ExpandedGenres(genres: seq<String>): seq<String>
  {
    RemoveRedundant(InsertPairs(UniqueCI(ExpandAll(genres))))
  }

  /** The loop and the four pair checks of `expand_genres`; it computes `ExpandedGenres`. */
  method ExpandGenres(genres: seq<String>) returns (result: seq<String>)
    ensures result == ExpandedGenres(genres)
  {
    var allExpanded: seq<String> := [];
    var i := 0;
    while i < |genres|
      invariant i <= |genres|
      invariant allExpanded == ExpandAll(genres[..i])
    {
      var expanded := ExpandGenre(genres[i]);
      ExpandAllStep(genres, i);
      allExpanded := allExpanded + expanded;
      i := i + 1;
    }
    assert genres[..i] == genres;

    var uniqueExpanded := UniqueCaseInsensitive(allExpanded);
    uniqueExpanded := InsertPairLabels(uniqueExpanded);
    result := RemoveRedundantGenres(uniqueExpanded);
  }

  /** The four presence checks and front insertions of `expand_genres`, all
      judged on the lower-cased list taken before the first insertion. */
  method InsertPairLabels(unique: seq<String>) returns (withPairs: seq<String>)
    ensures withPairs == InsertPairs(unique)
  {
    withPairs := unique;
    var lowerExpanded := LowerAll(unique);
    ghost var r := PairRules;
    assert r[1..][1..][1..][1..] == [];

    var hasDeathMetal := "death metal" in lowerExpanded;
    var hasDoomMetal := "doom metal" in lowerExpanded;
    var hasDeathDoomSlash := AnyContainsEither(lowerExpanded, "death/doom", "doom/death");
    if hasDeathMetal && hasDoomMetal && !hasDeathDoomSlash {
      withPairs := ["Death/Doom"] + withPairs;
    }
    assert ApplyPairRules(lowerExpanded, r, unique) == ApplyPairRules(lowerExpanded, r[1..], withPairs);

    var hasThrashMetal := "thrash metal" in lowerExpanded;
    var hasDeathMetal2 := "death metal" in lowerExpanded;
    var hasDeathThrashSlash := AnyContainsEither(lowerExpanded, "death/thrash", "thrash/death");
    if hasThrashMetal && hasDeathMetal2 && !hasDeathThrashSlash {
      withPairs := ["Death/Thrash"] + withPairs;
    }
    assert ApplyPairRules(lowerExpanded, r, unique) == ApplyPairRules(lowerExpanded, r[1..][1..], withPairs);

    var hasBlackMetal := "black metal" in lowerExpanded;
    var hasThrashMetal2 := "thrash metal" in lowerExpanded;
    var hasBlackThrashSlash := AnyContainsEither(lowerExpanded, "black/thrash", "thrash/black");
    if hasBlackMetal && hasThrashMetal2 && !hasBlackThrashSlash {
      withPairs := ["Black/Thrash"] + withPairs;
    }
    assert ApplyPairRules(lowerExpanded, r, unique) == ApplyPairRules(lowerExpanded, r[1..][1..][1..], withPairs);

    var hasBlackMetal2 := "black metal" in lowerExpanded;
    var hasDeathMetal3 := "death metal" in lowerExpanded;
    var hasBlackDeathSlash := AnyContainsEither(lowerExpanded, "black/death", "death/black");
    if hasBlackMetal2 && hasDeathMetal3 && !hasBlackDeathSlash {
      withPairs := ["Black/Death"] + withPairs;
    }
    assert ApplyPairRules(lowerExpanded, r, unique) == ApplyPairRules(lowerExpanded, r[1..][1..][1..][1..], withPairs);
  }

  /** No tags give no genres. */
  lemma ExpandedGenresEmpty()
    ensures ExpandedGenres([]) == []
  {
    PairPrefixOrder([]);
  }

  /** At least one tag gives at least one genre. */
  lemma ExpandAllNonEmpty(genres: seq<String>)
    requires genres != []
    ensures ExpandAll(genres) != []
  {
    var e := ExpandGenre(genres[|genres| - 1]);
    assert ExpandAll(genres) == ExpandAll(genres[..|genres| - 1]) + e;
  }

  lemma ExpandedGenresNonEmpty(genres: seq<String>)
    requires genres != []
    ensures ExpandedGenres(genres) != []
  {
    var all := ExpandAll(genres);
    ExpandAllNonEmpty(genres);
    UniqueCIHead(all);
    RemoveRedundantNonEmpty(InsertPairs(UniqueCI(all)));
  }

  /** The genres written hold no two labels equal ignoring case, and another
      pass of redundancy removal would change nothing. */
  lemma ExpandedGenresProperties(genres: seq<String>)
    ensures NoCIDup(ExpandedGenres(genres))
    ensures RemoveRedundant(ExpandedGenres(genres)) == ExpandedGenres(genres)
  {
    var u := UniqueCI(ExpandAll(genres));
    UniqueCIProperties(ExpandAll(genres));
    InsertPairsNoDup(u);
    RemoveRedundantProperties(InsertPairs(u));
    SubseqNoCIDup(ExpandedGenres(genres), InsertPairs(u));
    RemoveRedundantIdempotent(InsertPairs(u));
  }

  /** The Genre field written to a file: the expanded genres joined by "; ". */
  function GenreField(tags: seq<String>): (field: String)
    ensures tags == [] ==> field == []
    ensures |ExpandedGenres(tags)| == 1 ==> field == ExpandedGenres(tags)[0]
  {
    ExpandedGenresEmpty();
    JoinWith(ExpandedGenres(tags), "; ")
  }

  /** The field holds every genre once, separated by "; ": its length is the
      genres' total length plus two characters per gap. */
  lemma GenreFieldLength(tags: seq<String>)
    requires tags != []
    ensures |GenreField(tags)| == TotalLength(ExpandedGenres(tags)) + 2 * (|ExpandedGenres(tags)| - 1)
  {
    var genres := ExpandedGenres(tags);
    ExpandedGenresNonEmpty(tags);
    assert GenreField(tags) == JoinWith(genres, "; ");
    JoinWithLength(genres, "; ");
  }

  // ---------------------------------------------------------------------------
  // Tag selection in `fetch_top_tags`, on an already decoded tag list

  /** A Last.fm tag: its name ("" when absent) and its decoded count. */
  datatype RawTag = RawTag(name: String, count: int)

  predicate Usable(t: RawTag)
  {
    t.name != [] && Lower(t.name) !in BlockedTags
  }

  /** The tags with a name that is not blocked, in input order. */
  function Unblocked(tags: seq<RawTag>): seq<RawTag>
    decreases |tags|
  {
    if tags == [] then []
    else Unblocked(tags[..|tags| - 1]) + (if Usable(tags[|tags| - 1]) then [tags[|tags| - 1]] else [])
  }

  /** Insert x before the first element whose count is not larger: x goes after
      every larger count and before every equal one. */
  function InsertByCount(x: RawTag, s: seq<RawTag>): (r: seq<RawTag>)
    ensures |r| == |s| + 1
    decreases |s|
  {
    if s == [] || s[0].count <= x.count then [x] + s
    else [s[0]] + InsertByCount(x, s[1..])
  }

  /** `sort(key=count, reverse=True)`, which is stable. */
  function SortByCount(s: seq<RawTag>): (r: seq<RawTag>)
    ensures |r| == |s|
    decreases |s|
  {
    if s == [] then [] else InsertByCount(s[0], SortByCount(s[1..]))
  }

  predicate SortedByCountDesc(s: seq<RawTag>)
  {
    forall i, j :: 0 <= i < j < |s| ==> s[i].count >= s[j].count
  }

  /** The elements with count c, in order. */
  function WithCount(s: seq<RawTag>, c: int): seq<RawTag>
    decreases |s|
  {
    if s == [] then [] else (if s[0].count == c then [s[0]] else []) + WithCount(s[1..], c)
  }

  lemma {:induction false} InsertByCountMultiset(x: RawTag, s: seq<RawTag>)
    ensures multiset(InsertByCount(x, s)) == multiset{x} + multiset(s)
    decreases |s|
  {
    if !(s == [] || s[0].count <= x.count) {
      InsertByCountMultiset(x, s[1..]);
      assert s == [s[0]] + s[1..];
    }
  }

  lemma {:induction false} InsertByCountWithCount(x: RawTag, s: seq<RawTag>, c: int)
    ensures WithCount(InsertByCount(x, s), c) == (if x.count == c then [x] else []) + WithCount(s, c)
    decreases |s|
  {
    if !(s == [] || s[0].count <= x.count) {
      var t := InsertByCount(x, s[1..]);
      InsertByCountWithCount(x, s[1..], c);
      assert ([s[0]] + t)[1..] == t;
    }
  }

  /** Everything in the sorted list `s` counts no more than its head. */
  lemma SortedTail(s: seq<RawTag>)
    requires s != [] && SortedByCountDesc(s)
    ensures SortedByCountDesc(s[1..])
    ensures forall y :: y in multiset(s[1..]) ==> s[0].count >= y.count
  {
    forall i, j | 0 <= i < j < |s[1..]| ensures s[1..][i].count >= s[1..][j].count {
      assert s[1..][i] == s[i + 1] && s[1..][j] == s[j + 1];
    }
    forall y | y in multiset(s[1..]) ensures s[0].count >= y.count {
      var k :| 0 <= k < |s[1..]| && s[1..][k] == y;
      assert s[k + 1] == y;
    }
  }

  /** Prepending an element that counts at least as much as everything after it
      keeps a list sorted. */
  lemma ConsSorted(x: RawTag, s: seq<RawTag>)
    requires SortedByCountDesc(s)
    requires forall y :: y in multiset(s) ==> x.count >= y.count
    ensures SortedByCountDesc([x] + s)
  {
    var r := [x] + s;
    forall i, j | 0 <= i < j < |r| ensures r[i].count >= r[j].count {
      assert r[j] == s[j - 1];
      if i > 0 {
        assert r[i] == s[i - 1];
      } else {
        assert s[j - 1] in multiset(s);
      }
    }
  }

  lemma {:induction false} InsertByCountSorted(x: RawTag, s: seq<RawTag>)
    requires SortedByCountDesc(s)
    ensures SortedByCountDesc(InsertByCount(x, s))
    decreases |s|
  {
    if s == [] {
      ConsSorted(x, s);
    } else if s[0].count <= x.count {
      forall y | y in multiset(s) ensures x.count >= y.count {
        SortedTail(s);
        assert s == [s[0]] + s[1..];
      }
      ConsSorted(x, s);
    } else {
      SortedTail(s);
      InsertByCountSorted(x, s[1..]);
      InsertByCountMultiset(x, s[1..]);
      ConsSorted(s[0], InsertByCount(x, s[1..]));
    }
  }

  /** The sort orders by count, descending, loses and adds nothing, and keeps the
      input order among equal counts. */
  lemma {:induction false} SortByCountProperties(s: seq<RawTag>, c: int)
    ensures SortedByCountDesc(SortByCount(s))
    ensures multiset(SortByCount(s)) == multiset(s)
    ensures WithCount(SortByCount(s), c) == WithCount(s, c)
    decreases |s|
  {
    if s != [] {
      SortByCountProperties(s[1..], c);
      InsertByCountMultiset(s[0], SortByCount(s[1..]));
      InsertByCountSorted(s[0], SortByCount(s[1..]));
      InsertByCountWithCount(s[0], SortByCount(s[1..]), c);
      assert s == [s[0]] + s[1..];
    }
  }

  /** The tag names `fetch_top_tags` returns: at most `maxTags` of the usable
      tags with the largest counts, mixed-cased. */
  function TopTagNames(tags: seq<RawTag>, maxTags: nat): seq<String>
  {
    var sorted := SortByCount(Unblocked(tags));
    var n := if maxTags < |sorted| then maxTags else |sorted|;
    seq(n, k requires 0 <= k < n => ToMixedCase(sorted[k].name))
  }

  /** The filtering loop, the sort and the slice of `fetch_top_tags`. */
  method CleanTags(tags: seq<RawTag>, maxTags: nat) returns (names: seq<String>)
    ensures names == TopTagNames(tags, maxTags)
  {
    var cleaned: seq<RawTag> := [];
    var i := 0;
    while i < |tags|
      invariant i <= |tags|
      invariant cleaned == Unblocked(tags[..i])
    {
      var t := tags[i];
      assert tags[..i + 1][..i] == tags[..i];
      if t.name != [] && Lower(t.name) !in BlockedTags {
        cleaned := cleaned + [RawTag(t.name, t.count)];
      }
      i := i + 1;
    }
    assert tags[..i] == tags;
    var sorted := SortByCount(cleaned);
    var n := if maxTags < |sorted| then maxTags else |sorted|;
    names := seq(n, k requires 0 <= k < n => ToMixedCase(sorted[k].name));
  }

  /** The names returned: as many as allowed, no blocked or nameless tag among
      them, and every chosen tag counts at least as much as every tag left out. */
  lemma TopTagNamesProperties(tags: seq<RawTag>, maxTags: nat)
    ensures var u := Unblocked(tags);
            |TopTagNames(tags, maxTags)| == (if maxTags < |u| then maxTags else |u|)
    ensures var sorted := SortByCount(Unblocked(tags));
            && (forall k :: 0 <= k < |TopTagNames(tags, maxTags)| ==>
                  sorted[k] in Unblocked(tags) && Usable(sorted[k])
                  && TopTagNames(tags, maxTags)[k] == ToMixedCase(sorted[k].name))
            && (forall i, j :: 0 <= i < |TopTagNames(tags, maxTags)| <= j < |sorted| ==>
                  sorted[i].count >= sorted[j].count)
  {
    var u := Unblocked(tags);
    SortByCountProperties(u, 0);
    UnblockedUsable(tags);
    var sorted := SortByCount(u);
    forall k | 0 <= k < |sorted| ensures sorted[k] in u {
      assert sorted[k] in multiset(sorted);
    }
  }

  lemma {:induction false} UnblockedUsable(tags: seq<RawTag>)
    ensures forall t :: t in Unblocked(tags) <==> t in tags && Usable(t)
    decreases |tags|
  {
    if tags != [] {
      UnblockedUsable(tags[..|tags| - 1]);
      assert tags == tags[..|tags| - 1] + [tags[|tags| - 1]];
    }
  }
}
