/**
 * `GithubUsersAndMentionsHelper.parse_github_users_and_mentions`: a text of
 * `login:mention` elements separated by commas becomes a map from GitHub login to
 * the chat mention to write for that user.
 */
module GithubUsersAndMentionsHelper {
  import opened Wrappers
  import opened RubyText

  /** The first colon at index `k` or later that still has a character after it. */
  function ColonFrom(line: string, k: nat): (r: Option<nat>)
    ensures r.Some? ==> k <= r.value && r.value + 1 < |line| && line[r.value] == ':'
    ensures r.Some? ==> forall j | k <= j < r.value :: line[j] != ':'
    ensures r.None? ==> forall j | k <= j && j + 1 < |line| :: line[j] != ':'
    decreases |line| - k
  {
    if k + 1 >= |line| then None
    else if line[k] == ':' then Some(k)
    else ColonFrom(line, k + 1)
  }

  /**
   * One line against `^(.+?):(.+?)$`: the user is the shortest non-empty prefix
   * followed by a colon and by a non-empty rest, and the mention is that rest.
   */
  function MatchLine(line: string): (r: Option<(string, string)>)
    ensures r.Some? ==> r.value.0 != [] && r.value.1 != [] && line == r.value.0 + ":" + r.value.1
    ensures r.Some? ==> ':' !in r.value.0[1..]
    ensures r.None? <==> forall j | 1 <= j && j + 1 < |line| :: line[j] != ':'
  {
    match ColonFrom(line, 1)
    case None => None
    case Some(k) =>
      var user, mention := line[..k], line[k + 1..];
      assert line == user + ":" + mention;
      assert forall c | c in user[1..] :: c != ':' by {
        forall c | c in user[1..] ensures c != ':' {
          var j :| 0 <= j < |user[1..]| && user[1..][j] == c;
          assert c == line[j + 1];
        }
      }
      Some((user, mention))
  }

  /** `scan` over the lines of one element: the pair of every line that matches, in order. */
  function LinePairs(lines: seq<string>): (r: seq<(string, string)>)
    decreases |lines|
  {
    if lines == [] then []
    else
      (match MatchLine(lines[0]) case Some(p) => [p] case None => []) + LinePairs(lines[1..])
  }

  /** `flat_map` over the comma-separated elements. */
  function ElementPairs(elements: seq<string>): (r: seq<(string, string)>)
    decreases |elements|
  {
    if elements == [] then [] else LinePairs(Lines(elements[0])) + ElementPairs(elements[1..])
  }

  /** `reduce({}, :merge)`: the pairs in order, a later pair overriding an earlier one. */
  function Merge(ps: seq<(string, string)>): map<string, string>
    decreases |ps|
  {
    if ps == [] then map[] else Merge(ps[..|ps| - 1])[ps[|ps| - 1].0 := ps[|ps| - 1].1]
  }

  /** The pairs the text holds, before merging. */
  function Pairs(s: string): seq<(string, string)> {
    ElementPairs(Split(s, ','))
  }

  /** `parse_github_users_and_mentions`, `nil` passing through as `nil`. */
  function ParseMentions(input: Option<string>): (r: Option<map<string, string>>)
    ensures input.None? <==> r.None?
    ensures input == Some("") ==> r == Some(map[])
  {
    match input
    case None => None
    case Some(s) => Some(Merge(Pairs(s)))
  }

  /** Each pair's user and mention are non-empty. */
  predicate NonEmptyPairs(ps: seq<(string, string)>) {
    forall i | 0 <= i < |ps| :: ps[i].0 != [] && ps[i].1 != []
  }

  lemma {:induction false} LinePairsNonEmpty(lines: seq<string>)
    ensures NonEmptyPairs(LinePairs(lines))
    decreases |lines|
  {
    if lines != [] {
      LinePairsNonEmpty(lines[1..]);
    }
  }

  lemma {:induction false} ElementPairsNonEmpty(elements: seq<string>)
    ensures NonEmptyPairs(ElementPairs(elements))
    decreases |elements|
  {
    if elements != [] {
      LinePairsNonEmpty(Lines(elements[0]));
      ElementPairsNonEmpty(elements[1..]);
    }
  }

  /** The merged map holds a user exactly when some pair names it. */
  lemma {:induction false} MergeDomain(ps: seq<(string, string)>)
    ensures forall u :: u in Merge(ps) <==> exists i | 0 <= i < |ps| :: ps[i].0 == u
    decreases |ps|
  {
    if ps != [] {
      var n := |ps|;
      var init := ps[..n - 1];
      MergeDomain(init);
      assert Merge(ps) == Merge(init)[ps[n - 1].0 := ps[n - 1].1];
      forall u ensures u in Merge(ps) <==> exists i | 0 <= i < n :: ps[i].0 == u {
        if u in Merge(ps) && u != ps[n - 1].0 {
          assert u in Merge(init);
          var i :| 0 <= i < |init| && init[i].0 == u;
          assert ps[i] == init[i];
        }
        if exists i | 0 <= i < n :: ps[i].0 == u {
          var i :| 0 <= i < n && ps[i].0 == u;
          if i < n - 1 {
            assert init[i] == ps[i];
          }
        }
      }
    }
  }

  /** A user of the merged map is mapped to the mention of the last pair naming it. */
  lemma {:induction false} MergeValue(ps: seq<(string, string)>)
    ensures forall u | u in Merge(ps) :: exists i | 0 <= i < |ps| ::
      ps[i] == (u, Merge(ps)[u]) && forall j | i < j < |ps| :: ps[j].0 != u
    decreases |ps|
  {
    if ps != [] {
      var n := |ps|;
      var init := ps[..n - 1];
      MergeValue(init);
      assert Merge(ps) == Merge(init)[ps[n - 1].0 := ps[n - 1].1];
      forall u | u in Merge(ps) ensures exists i | 0 <= i < n ::
        ps[i] == (u, Merge(ps)[u]) && forall j | i < j < n :: ps[j].0 != u
      {
        if u == ps[n - 1].0 {
          assert ps[n - 1] == (u, Merge(ps)[u]);
        } else {
          assert u in Merge(init);
          var i :| 0 <= i < |init| && init[i] == (u, Merge(init)[u]) && forall j | i < j < |init| :: init[j].0 != u;
          assert ps[i] == init[i];
          forall j | i < j < n ensures ps[j].0 != u {
            if j < n - 1 {
              assert ps[j] == init[j];
            }
          }
        }
      }
    }
  }

  /**
   * The merged map holds a user exactly when some pair names it, and then maps it
   * to the mention of the last such pair.
   */
  lemma {:induction false} MergeLastWins(ps: seq<(string, string)>)
    ensures forall u :: u in Merge(ps) <==> exists i | 0 <= i < |ps| :: ps[i].0 == u
    ensures forall u | u in Merge(ps) :: exists i | 0 <= i < |ps| ::
      ps[i] == (u, Merge(ps)[u]) && forall j | i < j < |ps| :: ps[j].0 != u
  {
    MergeDomain(ps);
    MergeValue(ps);
  }

  /** Every user and every mention in the result is non-empty. */
  lemma ParsedNonEmpty(s: string)
    ensures forall u | u in ParseMentions(Some(s)).value :: u != [] && ParseMentions(Some(s)).value[u] != []
  {
    var ps := Pairs(s);
    ElementPairsNonEmpty(Split(s, ','));
    MergeLastWins(ps);
    forall u | u in Merge(ps) ensures u != [] && Merge(ps)[u] != [] {
      var i :| 0 <= i < |ps| && ps[i] == (u, Merge(ps)[u]) && forall j | i < j < |ps| :: ps[j].0 != u;
    }
  }

  /** A `login:mention` element the parser reads back as that one pair. */
  predicate WellFormedEntry(login: string, mention: string) {
    login != [] && mention != [] &&
    ':' !in login && ',' !in login && '\n' !in login &&
    ',' !in mention && '\n' !in mention
  }

  function Entry(p: (string, string)): string {
    p.0 + ":" + p.1
  }

  function Entries(ps: seq<(string, string)>): (r: seq<string>)
    ensures |r| == |ps|
    ensures forall i | 0 <= i < |ps| :: r[i] == Entry(ps[i])
    decreases |ps|
  {
    if ps == [] then [] else [Entry(ps[0])] + Entries(ps[1..])
  }

  /** A well-formed element is one line that matches, with its own login and mention. */
  lemma EntryMatches(login: string, mention: string)
    requires WellFormedEntry(login, mention)
    ensures Lines(Entry((login, mention))) == [Entry((login, mention))]
    ensures MatchLine(Entry((login, mention))) == Some((login, mention))
    ensures ',' !in Entry((login, mention)) && Entry((login, mention)) != []
  {
    var e := Entry((login, mention));
    SplitAllPrefix(e, "", '\n');
    assert e + "" == e;
    var r := MatchLine(e);
    assert e[|login|] == ':';
    assert r.Some? by {
      assert 1 <= |login| && |login| + 1 < |e|;
    }
    var (u, m) := r.value;
    assert u == e[..|u|] == login;
    assert m == e[|u| + 1..] == mention;
  }

  /**
   * Well-formed elements joined by commas parse to the merge of their pairs:
   * each login maps to the mention of its last element.
   */
  lemma {:induction false} ParseJoinedEntries(ps: seq<(string, string)>)
    requires forall i | 0 <= i < |ps| :: WellFormedEntry(ps[i].0, ps[i].1)
    ensures ParseMentions(Some(Join(Entries(ps), ","))) == Some(Merge(ps))
  {
    var es := Entries(ps);
    if ps == [] {
      assert Join(es, ",") == "";
    } else {
      forall i | 0 <= i < |es| ensures ',' !in es[i] && es[i] != [] {
        EntryMatches(ps[i].0, ps[i].1);
      }
      SplitAllJoin(es, ',');
      assert DropTrailingEmpty(es) == es;
      ElementPairsOfEntries(ps);
    }
  }

  lemma {:induction false} ElementPairsOfEntries(ps: seq<(string, string)>)
    requires forall i | 0 <= i < |ps| :: WellFormedEntry(ps[i].0, ps[i].1)
    ensures ElementPairs(Entries(ps)) == ps
    decreases |ps|
  {
    if ps != [] {
      var es := Entries(ps);
      EntryMatches(ps[0].0, ps[0].1);
      assert es[0] == Entry(ps[0]);
      assert LinePairs([es[0]]) == [ps[0]] + LinePairs([]);
      assert es[1..] == Entries(ps[1..]);
      ElementPairsOfEntries(ps[1..]);
    }
  }

  /** A single well-formed element maps its login to its mention. */
  lemma ParseSingleEntry(login: string, mention: string)
    requires WellFormedEntry(login, mention)
    ensures ParseMentions(Some(login + ":" + mention)) == Some(map[login := mention])
  {
    var ps := [(login, mention)];
    ParseJoinedEntries(ps);
    assert Entries(ps) == [Entry((login, mention))];
    assert ps[..0] == [];
  }
}
