/**
 * `GitChangelogAction` (actions/git_changelog.rb): the commit range it reads,
 * the merge-commit filter it passes to git, the title annotation and key section
 * of `build_changelog`, and the replacements applied to the result.
 *
 * git is a parameter: `gitLog` stands for `git_log_last_commits`/`git_log_between`
 * (the text git prints for a format, a range and a merge filter), `changes` for
 * the files `git diff --name-only <hash>^!` lists, and `matches` for Ruby's
 * `String#match` of a changed file against one path pattern.
 */
module GitChangelog {
  import opened Wrappers
  import opened RubyText

  // ---------------------------------------------------------------------------
  // Options
  // ---------------------------------------------------------------------------

  /** The `:between` option: a `from,to` string or a list of revisions. */
  datatype BetweenOption = BetweenText(text: string) | BetweenList(items: seq<Option<string>>)

  /** The commits git is asked for. */
  datatype Range = LastCommits(count: int) | Between(from: Option<string>, to: Option<string>)

  /** `from, to = s.split(",", 2)` for a string holding a comma: the text around the first comma. */
  function SplitAtFirstComma(s: string): (r: (string, string))
    requires ',' in s
    ensures s == r.0 + "," + r.1
    ensures ',' !in r.0
  {
    if s[0] == ',' then ("", s[1..])
    else
      var rest := SplitAtFirstComma(s[1..]);
      assert s == [s[0]] + s[1..];
      ([s[0]] + rest.0, rest.1)
  }

  /**
   * The range `run` collects: the last `commits_count` commits when that is given;
   * otherwise the `:between` revisions, or the latest tag up to `HEAD` without it.
   * A string without a comma matches neither branch and leaves both ends nil.
   */
  function ResolveRange(commitsCount: Option<int>, between: Option<BetweenOption>, latestTag: string): (r: Range)
    ensures commitsCount.Some? ==> r == LastCommits(commitsCount.value)
    ensures commitsCount.None? && between.None? ==> r == Between(Some(latestTag), Some("HEAD"))
    ensures commitsCount.None? && between.Some? && between.value.BetweenText? && ',' in between.value.text ==>
      r.Between? && r.from.Some? && r.to.Some? && between.value.text == r.from.value + "," + r.to.value &&
      ',' !in r.from.value
    ensures commitsCount.None? && between.Some? && between.value.BetweenText? && ',' !in between.value.text ==>
      r == Between(None, None)
    ensures commitsCount.None? && between.Some? && between.value.BetweenList? ==>
      r == Between(Item(between.value.items, 0), Item(between.value.items, 1))
  {
    if commitsCount.Some? then LastCommits(commitsCount.value)
    else match between
      case None => Between(Some(latestTag), Some("HEAD"))
      case Some(BetweenText(s)) =>
        if ',' in s then
          var (from, to) := SplitAtFirstComma(s);
          Between(Some(from), Some(to))
        else Between(None, None)
      case Some(BetweenList(items)) => Between(Item(items, 0), Item(items, 1))
  }

  /** Ruby's `array[i]`: nil past the end. */
  function Item(items: seq<Option<string>>, i: nat): Option<string> {
    if i < |items| then items[i] else None
  }

  const MergeFilteringOptions: seq<string> := ["include_merges", "exclude_merges", "only_include_merges"]

  /** `include_merges: false` forces `exclude_merges`; anything else keeps the filter given. */
  function MergeFiltering(mergeCommitFiltering: string, includeMerges: Option<bool>): (r: string)
    ensures includeMerges == Some(false) ==> r == "exclude_merges"
    ensures includeMerges != Some(false) ==> r == mergeCommitFiltering
  {
    if includeMerges == Some(false) then "exclude_merges" else mergeCommitFiltering
  }

  /** The verify block of `:between`: no nil revision, and exactly two of them. */
  function VerifyBetween(items: seq<Option<string>>): (r: Option<string>)
    ensures r.None? <==> |items| == 2 && items[0].Some? && items[1].Some?
    ensures (exists i | 0 <= i < |items| :: items[i].None?) ==> r == Some(":between must not contain nil values")
  {
    if exists i | 0 <= i < |items| :: items[i].None? then Some(":between must not contain nil values")
    else if |items| != 2 then Some(":between must be an array of size 2")
    else None
  }

  /** The verify block of `:commits_count`. */
  function VerifyCommitsCount(count: int): (r: Option<string>)
    ensures r.None? <==> count >= 1
  {
    if count < 1 then Some(":commits_count must be >= 1") else None
  }

  /** The verify block of `:merge_commit_filtering`. */
  function VerifyMergeFiltering(value: string): (r: Option<string>)
    ensures r.None? <==> value in MergeFilteringOptions
  {
    if value in MergeFilteringOptions then None
    else Some("Valid values for :merge_commit_filtering are 'include_merges', 'exclude_merges', 'only_include_merges'")
  }

  // ---------------------------------------------------------------------------
  // build_changelog
  // ---------------------------------------------------------------------------

  /** One entry of `file_key_patterns`: `[title, patterns] => symbol`. */
  datatype FileKey = FileKey(title: string, patterns: seq<string>, symbol: string)

  /** Some changed file matches some pattern of the key. */
  predicate AnyMatch(files: seq<string>, patterns: seq<string>, matches: (string, string) -> bool) {
    exists i, j | 0 <= i < |files| && 0 <= j < |patterns| :: matches(files[i], patterns[j])
  }

  /** The symbols of the keys some changed file matches, in the keys' order. */
  function KeySymbols(files: seq<string>, keys: seq<FileKey>, matches: (string, string) -> bool): (r: seq<string>)
    ensures |r| <= |keys|
    decreases |keys|
  {
    if keys == [] then []
    else
      var k := keys[|keys| - 1];
      KeySymbols(files, keys[..|keys| - 1], matches) + (if AnyMatch(files, k.patterns, matches) then [k.symbol] else [])
  }

  /** A commit gets no symbol exactly when none of its files matches any key. */
  lemma {:induction false} KeySymbolsEmpty(files: seq<string>, keys: seq<FileKey>, matches: (string, string) -> bool)
    ensures KeySymbols(files, keys, matches) == [] <==>
            forall j | 0 <= j < |keys| :: !AnyMatch(files, keys[j].patterns, matches)
    decreases |keys|
  {
    if keys != [] {
      var init := keys[..|keys| - 1];
      KeySymbolsEmpty(files, init, matches);
      assert forall j | 0 <= j < |init| :: init[j] == keys[j];
    }
  }

  /** Every symbol of a commit belongs to a key some changed file matches. */
  lemma {:induction false} KeySymbolsMatched(files: seq<string>, keys: seq<FileKey>, matches: (string, string) -> bool)
    ensures forall s | s in KeySymbols(files, keys, matches) ::
      exists j | 0 <= j < |keys| :: keys[j].symbol == s && AnyMatch(files, keys[j].patterns, matches)
    decreases |keys|
  {
    if keys != [] {
      var init := keys[..|keys| - 1];
      KeySymbolsMatched(files, init, matches);
      forall s | s in KeySymbols(files, keys, matches)
        ensures exists j | 0 <= j < |keys| :: keys[j].symbol == s && AnyMatch(files, keys[j].patterns, matches)
      {
        if s in KeySymbols(files, init, matches) {
          var j :| 0 <= j < |init| && init[j].symbol == s && AnyMatch(files, init[j].patterns, matches);
          assert keys[j] == init[j];
        } else {
          assert keys[|keys| - 1].symbol == s;
        }
      }
    }
  }

  /** The indices of the keys some changed file matches, in increasing order. */
  ghost function MatchingKeys(files: seq<string>, keys: seq<FileKey>, matches: (string, string) -> bool): (r: seq<nat>)
    ensures forall t | 0 <= t < |r| :: r[t] < |keys| && AnyMatch(files, keys[r[t]].patterns, matches)
    ensures forall j | 0 <= j < |keys| && AnyMatch(files, keys[j].patterns, matches) :: j in r
    ensures forall s, t | 0 <= s < t < |r| :: r[s] < r[t]
    decreases |keys|
  {
    if keys == [] then []
    else
      var init := keys[..|keys| - 1];
      assert forall j | 0 <= j < |init| :: init[j] == keys[j];
      var m := MatchingKeys(files, init, matches);
      if AnyMatch(files, keys[|keys| - 1].patterns, matches) then m + [|keys| - 1] else m
  }

  /** The symbols of a commit are the symbols of the matching keys, one each, in the order of `file_key_patterns`. */
  lemma {:induction false} KeySymbolsInKeyOrder(files: seq<string>, keys: seq<FileKey>, matches: (string, string) -> bool)
    ensures |KeySymbols(files, keys, matches)| == |MatchingKeys(files, keys, matches)|
    ensures forall t | 0 <= t < |MatchingKeys(files, keys, matches)| ::
      KeySymbols(files, keys, matches)[t] == keys[MatchingKeys(files, keys, matches)[t]].symbol
    decreases |keys|
  {
    if keys != [] {
      var init := keys[..|keys| - 1];
      var k := keys[|keys| - 1];
      KeySymbolsInKeyOrder(files, init, matches);
      var r0, m0 := KeySymbols(files, init, matches), MatchingKeys(files, init, matches);
      if AnyMatch(files, k.patterns, matches) {
        assert KeySymbols(files, keys, matches) == r0 + [k.symbol];
        assert MatchingKeys(files, keys, matches) == m0 + [|keys| - 1];
      } else {
        assert KeySymbols(files, keys, matches) == r0;
        assert MatchingKeys(files, keys, matches) == m0;
      }
    }
  }

  /** A key some changed file matches always contributes its symbol. */
  lemma KeySymbolsComplete(files: seq<string>, keys: seq<FileKey>, matches: (string, string) -> bool)
    ensures forall j | 0 <= j < |keys| && AnyMatch(files, keys[j].patterns, matches) ::
      keys[j].symbol in KeySymbols(files, keys, matches)
  {
    var r := KeySymbols(files, keys, matches);
    var idx := MatchingKeys(files, keys, matches);
    KeySymbolsInKeyOrder(files, keys, matches);
    forall j | 0 <= j < |keys| && AnyMatch(files, keys[j].patterns, matches)
      ensures keys[j].symbol in r
    {
      var t :| 0 <= t < |idx| && idx[t] == j;
      assert r[t] == keys[j].symbol;
    }
  }

  /** A title with its symbols: ` [symbols]` appended when there is any. */
  function Annotate(title: string, symbols: seq<string>): (r: string)
    ensures symbols == [] ==> r == title
    ensures symbols != [] ==> r == title + " [" + Join(symbols, "") + "]"
  {
    if symbols == [] then title else title + " [" + Join(symbols, "") + "]"
  }

  /** Ruby's `titles[i]` on the split titles, nil reading as the empty string. */
  function TitleAt(titles: seq<string>, i: nat): string {
    if i < |titles| then titles[i] else ""
  }

  /**
   * The titles after the loop over the commit hashes: title i annotated with the
   * symbols of commit i; titles past the last hash kept; a hash past the last
   * title adds a line of its own.
   */
  function AnnotatedTitles(titles: seq<string>, hashes: seq<string>, keys: seq<FileKey>,
                           changes: string -> seq<string>, matches: (string, string) -> bool): (r: seq<string>)
    ensures |r| == if |titles| < |hashes| then |hashes| else |titles|
    ensures forall i | 0 <= i < |hashes| :: r[i] == Annotate(TitleAt(titles, i), KeySymbols(changes(hashes[i]), keys, matches))
    ensures forall i | |hashes| <= i < |titles| :: r[i] == titles[i]
  {
    var n := if |titles| < |hashes| then |hashes| else |titles|;
    seq(n, i requires 0 <= i < n =>
      if i < |hashes| then Annotate(TitleAt(titles, i), KeySymbols(changes(hashes[i]), keys, matches)) else titles[i])
  }

  /** The key section: nil without keys, else one `symbol title` per key after `Key:`. */
  function KeyText(keys: seq<FileKey>): (r: Option<string>)
    ensures r.None? <==> keys == []
    ensures r.Some? ==> StartsWith(r.value, "\n\n\nKey:\n")
  {
    if keys == [] then None
    else Some("\n\n\nKey:\n" + Join(seq(|keys|, i requires 0 <= i < |keys| => keys[i].symbol + " " + keys[i].title), ", "))
  }

  /** The result of `build_changelog`: the annotated titles, then the key section when there is one, one per line. */
  function Changelog(titlesText: string, hashesText: string, keys: seq<FileKey>,
                     changes: string -> seq<string>, matches: (string, string) -> bool): string
  {
    var lines := AnnotatedTitles(Split(titlesText, '\n'), Split(hashesText, '\n'), keys, changes, matches);
    var key := KeyText(keys);
    Join(lines + (if key.Some? then [key.value] else []), "\n")
  }

  /** The symbols of one commit: the inner loop over `file_key_patterns`. */
  method CommitSymbols(files: seq<string>, keys: seq<FileKey>, matches: (string, string) -> bool)
    returns (symbols: seq<string>)
    ensures symbols == KeySymbols(files, keys, matches)
  {
    symbols := [];
    var j := 0;
    while j < |keys|
      invariant 0 <= j <= |keys|
      invariant symbols == KeySymbols(files, keys[..j], matches)
    {
      if AnyMatch(files, keys[j].patterns, matches) {
        symbols := symbols + [keys[j].symbol];
      }
      assert keys[..j + 1][..j] == keys[..j];
      j := j + 1;
    }
    assert keys[..j] == keys;
  }

  /** The annotated title of each commit, in commit order. */
  function Annotations(titles: seq<string>, hashes: seq<string>, keys: seq<FileKey>,
                       changes: string -> seq<string>, matches: (string, string) -> bool): (r: seq<string>)
    ensures |r| == |hashes|
    ensures forall i | 0 <= i < |hashes| :: r[i] == Annotate(TitleAt(titles, i), KeySymbols(changes(hashes[i]), keys, matches))
  {
    seq(|hashes|, i requires 0 <= i < |hashes| => Annotate(TitleAt(titles, i), KeySymbols(changes(hashes[i]), keys, matches)))
  }

  /**
   * The titles after the first `index` rounds of the loop: those lines replaced
   * by their annotations, the rest as split, and one line per round past the
   * last title.
   */
  predicate AnnotatedUpTo(lines: seq<string>, titles: seq<string>, annotations: seq<string>, index: nat) {
    && index <= |annotations|
    && |lines| == (if |titles| < index then index else |titles|)
    && (forall i | 0 <= i < index :: lines[i] == annotations[i])
    && (forall i | index <= i < |lines| :: lines[i] == titles[i])
  }

  /** One round of the loop: the title at `index` (nil past the end) is replaced in place or appended. */
  lemma AnnotateNext(lines: seq<string>, titles: seq<string>, annotations: seq<string>, index: nat)
    requires AnnotatedUpTo(lines, titles, annotations, index) && index < |annotations|
    ensures index < |lines| ==> lines[index] == TitleAt(titles, index)
    ensures index >= |lines| ==> index == |lines| && TitleAt(titles, index) == ""
    ensures AnnotatedUpTo(if index < |lines| then lines[index := annotations[index]] else lines + [annotations[index]],
                          titles, annotations, index + 1)
  {
    var a := annotations[index];
    if index < |lines| {
      var next := lines[index := a];
      assert forall i | 0 <= i < index + 1 :: next[i] == annotations[i];
      assert forall i | index + 1 <= i < |next| :: next[i] == titles[i];
    } else {
      var next := lines + [a];
      assert forall i | 0 <= i < index + 1 :: next[i] == annotations[i];
    }
  }

  /** After the last commit the lines are the annotated titles. */
  lemma AnnotatedAll(lines: seq<string>, titles: seq<string>, hashes: seq<string>,
                     keys: seq<FileKey>, changes: string -> seq<string>, matches: (string, string) -> bool)
    requires AnnotatedUpTo(lines, titles, Annotations(titles, hashes, keys, changes, matches), |hashes|)
    ensures lines == AnnotatedTitles(titles, hashes, keys, changes, matches)
  {
  }

  /** `build_changelog`: annotates the titles commit by commit, then adds the key section. */
  method BuildChangelog(titlesText: string, hashesText: string, keys: seq<FileKey>,
                        changes: string -> seq<string>, matches: (string, string) -> bool)
    returns (changelog: string)
    ensures changelog == Changelog(titlesText, hashesText, keys, changes, matches)
  {
    var titles := Split(titlesText, '\n');
    var hashes := Split(hashesText, '\n');
    ghost var annotations := Annotations(titles, hashes, keys, changes, matches);
    var lines := titles;
    var index := 0;
    while index < |hashes|
      invariant AnnotatedUpTo(lines, titles, annotations, index)
      decreases |hashes| - index
    {
      var symbols := CommitSymbols(changes(hashes[index]), keys, matches);
      var title := if index < |lines| then lines[index] else "";
      var annotated := if symbols == [] then title else title + " [" + Join(symbols, "") + "]";
      AnnotateNext(lines, titles, annotations, index);
      assert annotated == annotations[index];
      if index < |lines| {
        lines := lines[index := annotated];
      } else {
        lines := lines + [annotated];
      }
      index := index + 1;
    }
    AnnotatedAll(lines, titles, hashes, keys, changes, matches);
    var keyText := KeyText(keys);
    var texts := lines + (if keyText.Some? then [keyText.value] else []);
    changelog := Join(texts, "\n");
  }

  /** Without keys the changelog is the annotated titles alone, with no symbols at all. */
  lemma NoKeysPlainTitles(titlesText: string, hashesText: string, changes: string -> seq<string>,
                          matches: (string, string) -> bool)
    requires |Split(hashesText, '\n')| <= |Split(titlesText, '\n')|
    ensures Changelog(titlesText, hashesText, [], changes, matches) == Join(Split(titlesText, '\n'), "\n")
  {
    var titles := Split(titlesText, '\n');
    var hashes := Split(hashesText, '\n');
    var lines := AnnotatedTitles(titles, hashes, [], changes, matches);
    assert lines == titles;
    assert lines + [] == titles;
  }

  // ---------------------------------------------------------------------------
  // Post-processing
  // ---------------------------------------------------------------------------

  /** Each replace pattern applied in order, as a literal `gsub` of its key by its value. */
  function Replaced(changelog: string, patterns: seq<(string, string)>): string
    decreases |patterns|
  {
    if patterns == [] then changelog
    else
      var last := patterns[|patterns| - 1];
      ReplaceAll(Replaced(changelog, patterns[..|patterns| - 1]), last.0, last.1)
  }

  /** The patterns apply one after another: a split list applies its parts in turn. */
  lemma {:induction false} ReplacedAppend(changelog: string, p: seq<(string, string)>, q: seq<(string, string)>)
    ensures Replaced(changelog, p + q) == Replaced(Replaced(changelog, p), q)
    decreases |q|
  {
    if q == [] {
      assert p + q == p;
    } else {
      var q' := q[..|q| - 1];
      assert (p + q)[..|p + q| - 1] == p + q';
      ReplacedAppend(changelog, p, q');
    }
  }

  /** Patterns that occur nowhere leave the changelog as it is. */
  lemma {:induction false} ReplacedAbsent(changelog: string, patterns: seq<(string, string)>)
    requires forall k | 0 <= k < |patterns| :: patterns[k].0 != [] && !Contains(changelog, patterns[k].0)
    ensures Replaced(changelog, patterns) == changelog
    decreases |patterns|
  {
    if patterns != [] {
      var init := patterns[..|patterns| - 1];
      assert forall k | 0 <= k < |init| :: init[k] == patterns[k];
      ReplacedAbsent(changelog, init);
      ReplaceAllAbsent(changelog, patterns[|patterns| - 1].0, patterns[|patterns| - 1].1);
    }
  }

  /** The replace loop of `run`. */
  method ApplyReplacePatterns(changelog: string, patterns: seq<(string, string)>) returns (r: string)
    ensures r == Replaced(changelog, patterns)
  {
    r := changelog;
    var k := 0;
    while k < |patterns|
      invariant 0 <= k <= |patterns|
      invariant r == Replaced(changelog, patterns[..k])
    {
      assert patterns[..k + 1][..k] == patterns[..k];
      r := ReplaceAll(r, patterns[k].0, patterns[k].1);
      k := k + 1;
    }
    assert patterns[..k] == patterns;
  }

  /** Collapsing is a single left-to-right pass: three newlines become two, not one. */
  lemma CollapseOnce()
    ensures ReplaceAll("\n\n\n", "\n\n", "\n") == "\n\n"
  {
    assert "\n\n" <= "\n\n\n";
    assert "\n\n\n"[2..] == "\n";
    assert !("\n\n" <= "\n");
    assert "\n"[1..] == "";
  }

  /** The text git prints for a format, a range and a merge filter. */
  type GitLog = (string, Range, string) -> string

  /**
   * `run` after option checking: the titles and hashes git prints for the
   * resolved range and filter, built into the changelog, blank lines collapsed,
   * then the replace patterns applied.
   */
  method Run(commitsCount: Option<int>, between: Option<BetweenOption>, latestTag: string, pretty: string,
             mergeCommitFiltering: string, includeMerges: Option<bool>, keys: seq<FileKey>,
             replacePatterns: seq<(string, string)>, gitLog: GitLog, changes: string -> seq<string>,
             matches: (string, string) -> bool)
    returns (changelog: string)
    ensures var range := ResolveRange(commitsCount, between, latestTag);
            var filter := MergeFiltering(mergeCommitFiltering, includeMerges);
            changelog == Replaced(ReplaceAll(Changelog(gitLog(pretty, range, filter), gitLog("%h", range, filter),
                                                       keys, changes, matches), "\n\n", "\n"), replacePatterns)
  {
    var range := ResolveRange(commitsCount, between, latestTag);
    var filter := MergeFiltering(mergeCommitFiltering, includeMerges);
    var titles := gitLog(pretty, range, filter);
    var hashes := gitLog("%h", range, filter);
    changelog := BuildChangelog(titles, hashes, keys, changes, matches);
    changelog := ReplaceAll(changelog, "\n\n", "\n");
    changelog := ApplyReplacePatterns(changelog, replacePatterns);
  }
}
