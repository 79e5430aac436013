/**
 * `GithubPullRequestReminderAction` (actions/github_pull_request_reminder.rb): the
 * open pull requests that still wait for a reviewer become one reminder line per
 * requested reviewer or team. The GitHub API call is replaced by its result.
 */
module GithubPullRequestReminder {
  import opened Wrappers
  import opened RubyText
  import opened GithubUsersAndMentionsHelper

  /** The parts of a pull request the reminder reads: reviewer logins and team slugs requested. */
  datatype PullRequest = PullRequest(url: string, title: string, reviewers: seq<string>, teams: seq<string>)

  /** One reviewer (or team) still to review one pull request. */
  datatype ReviewRequest = ReviewRequest(url: string, title: string, login: string)

  const NoPendingReviews: string := "No PRs require reviews. Good job!"

  predicate AwaitsReview(pr: PullRequest) {
    pr.reviewers != [] || pr.teams != []
  }

  /** The filter in `get_prs_with_pending_reviews`: order kept. */
  function PendingPullRequests(prs: seq<PullRequest>): (r: seq<PullRequest>)
    ensures |r| <= |prs|
    ensures forall pr | pr in r :: pr in prs && AwaitsReview(pr)
    ensures forall pr | pr in prs && AwaitsReview(pr) :: pr in r
    ensures Subsequence(r, prs)
    ensures forall pr :: multiset(r)[pr] == if AwaitsReview(pr) then multiset(prs)[pr] else 0
    decreases |prs|
  {
    if prs == [] then []
    else
      var rest := PendingPullRequests(prs[1..]);
      assert prs == [prs[0]] + prs[1..];
      if AwaitsReview(prs[0]) then
        assert ([prs[0]] + rest)[1..] == rest;
        [prs[0]] + rest
      else rest
  }

  /** The records of one pull request: its reviewers, then its teams by slug, each with the PR's url and title. */
  function RequestsOf(pr: PullRequest): (r: seq<ReviewRequest>)
    ensures |r| == |pr.reviewers| + |pr.teams|
    ensures forall i | 0 <= i < |pr.reviewers| :: r[i] == ReviewRequest(pr.url, pr.title, pr.reviewers[i])
    ensures forall j | 0 <= j < |pr.teams| :: r[|pr.reviewers| + j] == ReviewRequest(pr.url, pr.title, pr.teams[j])
  {
    seq(|pr.reviewers|, i requires 0 <= i < |pr.reviewers| => ReviewRequest(pr.url, pr.title, pr.reviewers[i])) +
    seq(|pr.teams|, j requires 0 <= j < |pr.teams| => ReviewRequest(pr.url, pr.title, pr.teams[j]))
  }

  /** `map_prs_with_pending_reviewers`: the records of every pull request, in pull-request order. */
  function Requests(prs: seq<PullRequest>): (r: seq<ReviewRequest>)
    decreases |prs|
  {
    if prs == [] then [] else Requests(prs[..|prs| - 1]) + RequestsOf(prs[|prs| - 1])
  }

  /** One more pull request adds its own records at the end. */
  lemma RequestsSnoc(prs: seq<PullRequest>, pr: PullRequest)
    ensures Requests(prs + [pr]) == Requests(prs) + RequestsOf(pr)
  {
    var s := prs + [pr];
    assert s[..|s| - 1] == prs && s[|s| - 1] == pr;
  }

  lemma ConcatAssoc(x: seq<ReviewRequest>, y: seq<ReviewRequest>, z: seq<ReviewRequest>)
    ensures x + y + z == x + (y + z)
  {
  }

  lemma {:induction false} RequestsAppend(a: seq<PullRequest>, b: seq<PullRequest>)
    ensures Requests(a + b) == Requests(a) + Requests(b)
    decreases |b|
  {
    if b == [] {
      assert a + b == a;
    } else {
      var init := b[..|b| - 1];
      var pr := b[|b| - 1];
      assert b == init + [pr];
      assert a + b == (a + init) + [pr];
      RequestsSnoc(a + init, pr);
      RequestsSnoc(init, pr);
      RequestsAppend(a, init);
      ConcatAssoc(Requests(a), Requests(init), RequestsOf(pr));
    }
  }

  /** Every pull request that awaits review gives at least one record, so there are at least as many records as such PRs. */
  lemma {:induction false} RequestsAtLeastPending(prs: seq<PullRequest>)
    requires forall i | 0 <= i < |prs| :: AwaitsReview(prs[i])
    ensures |Requests(prs)| >= |prs|
    decreases |prs|
  {
    if prs != [] {
      RequestsAtLeastPending(prs[..|prs| - 1]);
    }
  }

  lemma {:induction false} PendingAllAwait(prs: seq<PullRequest>)
    ensures forall i | 0 <= i < |PendingPullRequests(prs)| :: AwaitsReview(PendingPullRequests(prs)[i])
  {
    var r := PendingPullRequests(prs);
    forall i | 0 <= i < |r| ensures AwaitsReview(r[i]) {
      assert r[i] in r;
    }
  }

  /** `(map && map[login]) || login`: the mapped mention, or the login when there is no map or no entry. */
  function MentionFor(mentions: Option<map<string, string>>, login: string): (r: string)
    ensures mentions.Some? && login in mentions.value ==> r == mentions.value[login]
    ensures !(mentions.Some? && login in mentions.value) ==> r == login
  {
    if mentions.Some? && login in mentions.value then mentions.value[login] else login
  }

  function ReminderLine(req: ReviewRequest, mentions: Option<map<string, string>>): string {
    "Hey " + MentionFor(mentions, req.login) + "! The PR [" + req.title + "](" + req.url + ") awaits your review!"
  }

  function ReminderLines(reqs: seq<ReviewRequest>, mentions: Option<map<string, string>>): (r: seq<string>)
    ensures |r| == |reqs|
    ensures forall i | 0 <= i < |reqs| :: r[i] == ReminderLine(reqs[i], mentions)
  {
    seq(|reqs|, i requires 0 <= i < |reqs| => ReminderLine(reqs[i], mentions))
  }

  /** `generate_markdown`: one line per record, joined by newlines. */
  function GenerateMarkdown(reqs: seq<ReviewRequest>, mentions: Option<map<string, string>>): string {
    Join(ReminderLines(reqs, mentions), "\n")
  }

  /** No newline of its own in the text that goes into a reminder line. */
  predicate SingleLine(req: ReviewRequest, mentions: Option<map<string, string>>) {
    '\n' !in req.url && '\n' !in req.title && '\n' !in MentionFor(mentions, req.login)
  }

  lemma ReminderLineShape(req: ReviewRequest, mentions: Option<map<string, string>>)
    requires SingleLine(req, mentions)
    ensures var l := ReminderLine(req, mentions); '\n' !in l && l != [] && l[|l| - 1] == '!'
  {
  }

  /** With single-line fields, the message's lines are exactly the reminder lines, one per record, in order. */
  lemma MarkdownLines(reqs: seq<ReviewRequest>, mentions: Option<map<string, string>>)
    requires reqs != []
    requires forall i | 0 <= i < |reqs| :: SingleLine(reqs[i], mentions)
    ensures Lines(GenerateMarkdown(reqs, mentions)) == ReminderLines(reqs, mentions)
  {
    var ls := ReminderLines(reqs, mentions);
    forall i | 0 <= i < |ls| ensures '\n' !in ls[i] {
      ReminderLineShape(reqs[i], mentions);
    }
    SplitAllJoin(ls, '\n');
  }

  /** The message ends with the last reminder's `!`, not with a newline. */
  lemma MarkdownEnd(reqs: seq<ReviewRequest>, mentions: Option<map<string, string>>)
    requires reqs != []
    requires SingleLine(reqs[|reqs| - 1], mentions)
    ensures var m := GenerateMarkdown(reqs, mentions); m != [] && m[|m| - 1] == '!'
  {
    var ls := ReminderLines(reqs, mentions);
    var n := |ls|;
    ReminderLineShape(reqs[n - 1], mentions);
    JoinEndsWithLast(ls, "\n");
  }

  /** What `run` returns and stores: the message, and the number of pull requests awaiting review. */
  datatype Reminder = Reminder(message: string, awaiting: nat)

  /**
   * `run`: the count is the number of pull requests awaiting review (not of
   * records); with none the message is the fixed congratulation.
   */
  function Run(prs: seq<PullRequest>, mentionsText: Option<string>): (r: Reminder)
    ensures r.awaiting == |PendingPullRequests(prs)|
    ensures r.awaiting == 0 ==> r.message == NoPendingReviews
    ensures r.awaiting > 0 ==>
      r.message == GenerateMarkdown(Requests(PendingPullRequests(prs)), ParseMentions(mentionsText))
  {
    var pending := PendingPullRequests(prs);
    var message :=
      if |pending| > 0 then GenerateMarkdown(Requests(pending), ParseMentions(mentionsText))
      else NoPendingReviews;
    Reminder(message, |pending|)
  }

  /** Each pending pull request has at least one reminder line, so the count never exceeds the lines. */
  lemma AwaitingAtMostLines(prs: seq<PullRequest>, mentionsText: Option<string>)
    ensures Run(prs, mentionsText).awaiting <= |Requests(PendingPullRequests(prs))|
  {
    PendingAllAwait(prs);
    RequestsAtLeastPending(PendingPullRequests(prs));
  }
}
