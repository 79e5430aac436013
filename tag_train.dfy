/**
 * `TagTrainAction` (actions/tag_train.rb): whether the branch needs this week's tag,
 * and the values the action reports.
 *
 * git and the clock are parameters: the version of the branch's latest tag, the tag
 * of HEAD (empty when it has none), the ISO week-based two-digit year and week of
 * today, and the commit count. Creating the commit and the tag is reported as
 * flags rather than done.
 */
module TagTrain {
  import opened Wrappers
  import opened RubyText

  // ---------------------------------------------------------------------------
  // Versions
  // ---------------------------------------------------------------------------

  /** `get_weekly_version`: `year.week.0`, with no zero padding. */
  function WeeklyVersion(year: nat, week: nat): string {
    Decimal(year) + "." + Decimal(week) + ".0"
  }

  /** A field of a dotted version: one digit or more. */
  predicate NumericField(field: string) {
    field != "" && AllDigits(field)
  }

  /** Every field of a split version is numeric. */
  predicate AllNumeric(fields: seq<string>) {
    forall i | 0 <= i < |fields| :: NumericField(fields[i])
  }

  /**
   * The numeric segments of a dotted version; nothing for any other shape, an
   * empty field (a leading, trailing or doubled dot) included. The empty version
   * has no segments, which compares as 0.
   */
  function Segments(version: string): (r: Option<seq<nat>>)
    ensures version == "" ==> r == Some([])
    ensures version != "" ==>
      (r.Some? <==> AllNumeric(SplitAll(version, '.')))
    ensures version != "" && r.Some? ==> |r.value| == |SplitAll(version, '.')|
  {
    if version == "" then Some([])
    else
      var fields := SplitAll(version, '.');
      if AllNumeric(fields) then
        Some(seq(|fields|, i requires 0 <= i < |fields| => DigitsValue(fields[i])))
      else None
  }

  /** A version ending in a dot is malformed, as `Gem::Version.new` rejects it. */
  lemma TrailingDotMalformed(version: string)
    ensures Segments(version + ".") == None
  {
    SplitAllTrailingSep(version, '.');
    var fields := SplitAll(version + ".", '.');
    assert !NumericField(fields[|fields| - 1]);
  }

  /** A version starting with a dot is malformed too. */
  lemma LeadingDotMalformed(version: string)
    ensures Segments("." + version) == None
  {
    var v := "." + version;
    assert v[0] == '.' && v[1..] == version;
    assert !NumericField(SplitAll(v, '.')[0]);
  }

  /** Segment-wise comparison, a missing segment counting as 0, as `Gem::Version#<=>` does for numeric versions. */
  function SegmentsLess(a: seq<nat>, b: seq<nat>): bool
    decreases |a| + |b|
  {
    if a == [] && b == [] then false
    else
      var x := if a == [] then 0 else a[0];
      var y := if b == [] then 0 else b[0];
      if x != y then x < y
      else SegmentsLess(if a == [] then [] else a[1..], if b == [] then [] else b[1..])
  }

  /** No version is below itself. */
  lemma {:induction false} SegmentsLessIrreflexive(a: seq<nat>)
    ensures !SegmentsLess(a, a)
    decreases |a|
  {
    if a != [] {
      SegmentsLessIrreflexive(a[1..]);
    }
  }

  /** What `Gem::Version.new` raises for a version that is not numeric and dotted. */
  const Malformed: string := "ArgumentError: Malformed version number string"

  /** `Gem::Version.new(a) < Gem::Version.new(b)` for numeric dotted versions. */
  function VersionLess(a: string, b: string): (r: Result<bool>)
    ensures r.Err? <==> Segments(a).None? || Segments(b).None?
    ensures r.Ok? ==> r.value == SegmentsLess(Segments(a).value, Segments(b).value)
  {
    match (Segments(a), Segments(b))
    case (Some(x), Some(y)) => Ok(SegmentsLess(x, y))
    case _ => Err(Malformed)
  }

  /** The weekly version splits at its dots into year, week and `0`. */
  lemma WeeklyFields(year: nat, week: nat)
    ensures SplitAll(WeeklyVersion(year, week), '.') == [Decimal(year), Decimal(week), "0"]
  {
    var parts := [Decimal(year), Decimal(week), "0"];
    assert Join(parts, ".") == WeeklyVersion(year, week) by {
      assert Join(["0"], ".") == "0";
      assert Join([Decimal(week), "0"], ".") == Decimal(week) + ".0";
    }
    assert forall i | 0 <= i < 3 :: '.' !in parts[i];
    SplitAllJoin(parts, '.');
  }

  /** The weekly version reads back as the segments year, week, 0. */
  lemma WeeklySegments(year: nat, week: nat)
    ensures Segments(WeeklyVersion(year, week)) == Some([year, week, 0])
  {
    var parts := [Decimal(year), Decimal(week), "0"];
    WeeklyFields(year, week);
    DecimalRoundTrip(year);
    DecimalRoundTrip(week);
    assert "0"[..0] == "";
    assert DigitsValue("0") == 0;
    assert AllNumeric(parts);
    var values := seq(|parts|, i requires 0 <= i < |parts| => DigitsValue(parts[i]));
    assert values == [year, week, 0];
  }

  /** Weekly versions are ordered by year, then by week. */
  lemma WeeklyOrder(y1: nat, w1: nat, y2: nat, w2: nat)
    ensures VersionLess(WeeklyVersion(y1, w1), WeeklyVersion(y2, w2)) == Ok(y1 < y2 || (y1 == y2 && w1 < w2))
  {
    WeeklySegments(y1, w1);
    WeeklySegments(y2, w2);
    var a: seq<nat> := [y1, w1, 0];
    var b: seq<nat> := [y2, w2, 0];
    assert a[1..] == [w1, 0] && b[1..] == [w2, 0];
    assert [w1, 0][1..] == [0] && [w2, 0][1..] == [0];
    var zero: seq<nat> := [0];
    var none: seq<nat> := [];
    assert zero[1..] == none;
    assert !SegmentsLess(none, none);
    assert !SegmentsLess(zero, zero);
    assert SegmentsLess([w1, 0], [w2, 0]) == (w1 < w2);
    assert SegmentsLess(a, b) == (y1 < y2 || (y1 == y2 && w1 < w2));
  }

  // ---------------------------------------------------------------------------
  // The decision
  // ---------------------------------------------------------------------------

  /** The values `run` reports, and the git steps it asks for. */
  datatype Outcome = Outcome(
    headAlreadyTagged: bool, newTagCreated: bool, latestVersion: string, latestTag: string,
    commitCount: nat, year: Option<nat>, weekOfYear: Option<nat>, emptyCommit: bool)

  /**
   * `run`: a tagged HEAD is kept unless a new commit is wanted; otherwise a version
   * older than this week's gets the weekly tag (on a new empty commit when asked);
   * else the train is current and its tag is `v` + the version.
   */
  function Run(createNewCommit: bool, latestVersion: string, headTag: string, year: nat, week: nat,
               commitCount: nat): (r: Result<Outcome>)
    ensures headTag != "" && !createNewCommit ==>
      r == Ok(Outcome(true, false, latestVersion, headTag, commitCount, None, None, false))
    ensures !(headTag != "" && !createNewCommit) ==>
      (r.Err? <==> VersionLess(latestVersion, WeeklyVersion(year, week)).Err?)
    ensures !(headTag != "" && !createNewCommit) && VersionLess(latestVersion, WeeklyVersion(year, week)) == Ok(true) ==>
      r == Ok(Outcome(false, true, WeeklyVersion(year, week), "v" + WeeklyVersion(year, week), commitCount,
                      Some(year), Some(week), createNewCommit))
    ensures !(headTag != "" && !createNewCommit) && VersionLess(latestVersion, WeeklyVersion(year, week)) == Ok(false) ==>
      r == Ok(Outcome(false, false, latestVersion, "v" + latestVersion, commitCount, None, None, false))
  {
    var weekly := WeeklyVersion(year, week);
    if headTag != "" && !createNewCommit then
      Ok(Outcome(true, false, latestVersion, headTag, commitCount, None, None, false))
    else match VersionLess(latestVersion, weekly)
      case Err(e) => Err(e)
      case Ok(true) => Ok(Outcome(false, true, weekly, "v" + weekly, commitCount, Some(year), Some(week), createNewCommit))
      case Ok(false) => Ok(Outcome(false, false, latestVersion, "v" + latestVersion, commitCount, None, None, false))
  }

  /**
   * The body of `run` as written: the reported locals start out false, empty and
   * nil, and the branch taken overwrites some of them.
   */
  method Analyse(createNewCommit: bool, latestVersion: string, headTag: string, year: nat, week: nat,
                 commitCount: nat) returns (r: Result<Outcome>)
    ensures r == Run(createNewCommit, latestVersion, headTag, year, week, commitCount)
  {
    var weeklyVersion := WeeklyVersion(year, week);
    var version := latestVersion;
    var headAlreadyTagged := false;
    var newTagCreated := false;
    var latestTag := "";
    var outputYear: Option<nat> := None;
    var outputWeek: Option<nat> := None;
    var emptyCommit := false;
    if headTag != "" && !createNewCommit {
      headAlreadyTagged := true;
      latestTag := headTag;
    } else {
      var less := VersionLess(version, weeklyVersion);
      if less.Err? {
        return Err(less.message);
      }
      if less.value {
        newTagCreated := true;
        latestTag := "v" + weeklyVersion;
        version := weeklyVersion;
        outputYear := Some(year);
        outputWeek := Some(week);
        if createNewCommit {
          emptyCommit := true;
        }
      } else {
        latestTag := "v" + version;
      }
    }
    r := Ok(Outcome(headAlreadyTagged, newTagCreated, version, latestTag, commitCount, outputYear, outputWeek, emptyCommit));
  }

  /**
   * What every outcome satisfies: HEAD already tagged and a new tag exclude each
   * other; year and week are reported exactly when a tag is created; an empty
   * commit is made only for a new tag, and only when asked.
   */
  lemma OutcomeInvariants(createNewCommit: bool, latestVersion: string, headTag: string, year: nat, week: nat,
                          commitCount: nat)
    requires Run(createNewCommit, latestVersion, headTag, year, week, commitCount).Ok?
    ensures var o := Run(createNewCommit, latestVersion, headTag, year, week, commitCount).value;
      && !(o.headAlreadyTagged && o.newTagCreated)
      && (o.year.Some? <==> o.newTagCreated) && (o.weekOfYear.Some? <==> o.newTagCreated)
      && (o.emptyCommit <==> o.newTagCreated && createNewCommit)
      && (o.newTagCreated ==> o.latestTag == "v" + WeeklyVersion(year, week))
  {
  }

  /** Once this week's tag exists, a second run in the same week creates none. */
  lemma SameWeekNoNewTag(createNewCommit: bool, headTag: string, year: nat, week: nat, commitCount: nat)
    ensures Run(createNewCommit, WeeklyVersion(year, week), headTag, year, week, commitCount).Ok?
    ensures !Run(createNewCommit, WeeklyVersion(year, week), headTag, year, week, commitCount).value.newTagCreated
  {
    WeeklyOrder(year, week, year, week);
  }

  /** A branch whose latest tag is from an earlier week of the same year gets this week's tag. */
  lemma EarlierWeekNewTag(createNewCommit: bool, headTag: string, year: nat, before: nat, week: nat, commitCount: nat)
    requires before < week
    requires headTag == "" || createNewCommit
    ensures Run(createNewCommit, WeeklyVersion(year, before), headTag, year, week, commitCount) ==
      Ok(Outcome(false, true, WeeklyVersion(year, week), "v" + WeeklyVersion(year, week), commitCount,
                 Some(year), Some(week), createNewCommit))
  {
    WeeklyOrder(year, before, year, week);
  }
}
