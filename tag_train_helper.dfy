/**
 * The tag helpers of the tag train (helper/tag_train_helper.rb): the version read
 * from the latest tag of the branch. The `git describe` call is a parameter: the
 * tag it printed, already stripped, or nothing when the command failed.
 */
module TagTrainHelper {
  import opened Wrappers
  import opened RubyText

  /** What calling `gsub` on the nil tag of a failed lookup raises. */
  const NoTag: string := "NoMethodError: undefined method `gsub' for nil"

  /** `tag.gsub(/v/, "")`: every `v` removed, wherever it is. */
  function StripV(tag: string): (r: string)
    ensures 'v' !in r
  {
    ReplaceCharAbsent(tag, 'v', "", 'v');
    ReplaceChar(tag, 'v', "")
  }

  /** `get_latest_version_from_branch`: the version of the latest tag; a failed lookup is not guarded against. */
  function LatestVersionFromBranch(tag: Option<string>): (r: Result<string>)
    ensures tag.None? <==> r.Err?
    ensures tag.Some? ==> r == Ok(StripV(tag.value))
  {
    match tag
    case None => Err(NoTag)
    case Some(t) => Ok(StripV(t))
  }

  /** Occurrences of `c` in `s`. */
  function Count(s: string, c: char): (n: nat)
    ensures n <= |s|
    ensures n == 0 <==> c !in s
    decreases |s|
  {
    if s == [] then 0 else (if s[0] == c then 1 else 0) + Count(s[1..], c)
  }

  /** The version is as long as the tag less its `v`s. */
  lemma {:induction false} StripVLength(tag: string)
    ensures |StripV(tag)| == |tag| - Count(tag, 'v')
    decreases |tag|
  {
    if tag != [] {
      StripVLength(tag[1..]);
      assert tag == [tag[0]] + tag[1..];
      ReplaceCharAppend([tag[0]], tag[1..], 'v', "");
    }
  }

  /** Stripping splits over concatenation, and keeps every other character: the characters left keep their order. */
  lemma StripVKeeps(a: string, b: string, c: char)
    requires c != 'v'
    ensures StripV(a + b) == StripV(a) + StripV(b)
    ensures StripV([c]) == [c]
    ensures StripV(['v']) == []
  {
    ReplaceCharAppend(a, b, 'v', "");
    assert [c][1..] == [];
    assert ReplaceChar([c], 'v', "") == [c] + ReplaceChar([], 'v', "");
    assert ['v'][1..] == [];
  }

  /** Stripping twice is stripping once. */
  lemma StripVIdempotent(tag: string)
    ensures StripV(StripV(tag)) == StripV(tag)
  {
    ReplaceCharKeeps(StripV(tag), 'v', "");
  }

  /** A tag `v<version>` whose version has no `v` gives that version back. */
  lemma StripLeadingV(version: string)
    requires 'v' !in version
    ensures StripV("v" + version) == version
  {
    StripVKeeps("v", version, 'x');
    ReplaceCharKeeps(version, 'v', "");
  }
}
