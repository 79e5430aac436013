/**
 * `GithubPullRequestNotifierAction` (actions/github_pull_request_notifier.rb): a
 * GitHub Actions pull-request event becomes a Markdown message and a payload.
 *
 * The JSON context is given already parsed, as the fields the action reads, and
 * `GithubUtilsHelper.compose_github_url` is a parameter.
 */
module GithubPullRequestNotifier {
  import opened Wrappers
  import opened RubyText
  import opened GithubUsersAndMentionsHelper

  const UnhandledEvent: string := "The GitHub context does not match a pull request event."

  /** What `reviewer["slug"]` raises inside the teams block: `reviewer` is not defined there. */
  const UndefinedReviewer: string := "NameError: undefined local variable or method `reviewer'"

  function UnhandledAction(action: string): string {
    "PR event \"" + action + "\" can not be handled"
  }

  /** The pull request fields of the event. */
  datatype PullRequest = PullRequest(
    number: nat, title: string, body: Option<string>, owner: string, relativeUrl: string, merged: bool,
    sourceBranch: string, targetBranch: string, changedFiles: Option<nat>,
    reviewers: seq<string>, teams: seq<string>, assignees: seq<string>, labels: seq<string>)

  /** The review fields of a `pull_request_review` event. */
  datatype Review = Review(state: string, body: Option<string>, relativeUrl: string, user: string)

  datatype Context = Context(eventName: string, action: string, repositoryName: string, pr: PullRequest, review: Review)

  /** The hash `run` returns. */
  datatype Notification = Notification(message: string, payload: seq<(string, string)>)

  /** `get_user_mention`: the mention the mapping text gives the login, or the login itself. */
  function UserMention(mentionsText: string, login: string): (r: string)
    ensures login in ParseMentions(Some(mentionsText)).value ==> r == ParseMentions(Some(mentionsText)).value[login]
    ensures login !in ParseMentions(Some(mentionsText)).value ==> r == login
  {
    var m := ParseMentions(Some(mentionsText)).value;
    if login in m then m[login] else login
  }

  /** `[#number title](url)`. */
  function PrLink(number: nat, title: string, url: string): string {
    "[#" + Decimal(number) + " " + title + "](" + url + ")"
  }

  function OpenedMessage(repositoryName: string, pr: PullRequest, compose: string -> string): string {
    "[" + repositoryName + "] Pull request opened by " + pr.owner + "\n" +
    PrLink(pr.number, pr.title, compose(pr.relativeUrl)) + "\n\n" + pr.body.GetOr("")
  }

  /** `merged` when the pull request was merged, `closed` otherwise. */
  function ClosedVerb(merged: bool): (r: string)
    ensures r == "merged" <==> merged
    ensures r == "closed" <==> !merged
  {
    if merged then "merged" else "closed"
  }

  function ClosedMessage(repositoryName: string, pr: PullRequest, compose: string -> string): string {
    "[" + repositoryName + "] Pull request " + PrLink(pr.number, pr.title, compose(pr.relativeUrl)) +
    " " + ClosedVerb(pr.merged) + " by " + pr.owner + "\n"
  }

  /** `filter { |_k, v| !v.to_s.empty? }`. */
  function NonEmptyEntries(entries: seq<(string, string)>): (r: seq<(string, string)>)
    ensures forall e :: e in r <==> e in entries && e.1 != ""
    ensures Subsequence(r, entries)
    ensures forall e :: multiset(r)[e] == if e.1 != "" then multiset(entries)[e] else 0
    decreases |entries|
  {
    if entries == [] then []
    else
      assert entries == [entries[0]] + entries[1..];
      if entries[0].1 == "" then NonEmptyEntries(entries[1..])
      else
        var rest := NonEmptyEntries(entries[1..]);
        assert [entries[0]] + rest != [] && ([entries[0]] + rest)[1..] == rest;
        [entries[0]] + rest
  }

  /** `Integer#to_s`, `nil.to_s` being empty. */
  function CountText(n: Option<nat>): string {
    match n
    case None => ""
    case Some(k) => Decimal(k)
  }

  const OpenedPayloadKeys: seq<string> :=
    ["Source branch", "Target branch", "Changed files", "Reviewers", "Assignees", "Labels"]

  function MentionsOf(mentionsText: string, logins: seq<string>): (r: seq<string>)
    ensures |r| == |logins|
    ensures forall i | 0 <= i < |logins| :: r[i] == UserMention(mentionsText, logins[i])
  {
    seq(|logins|, i requires 0 <= i < |logins| => UserMention(mentionsText, logins[i]))
  }

  /**
   * `get_requested_reviewers_mentions` as written: the teams block reads a
   * `reviewer` that is not defined there, so any requested team raises.
   */
  function RequestedReviewersMentions(pr: PullRequest, mentionsText: string): (r: Result<seq<string>>)
    ensures r.Err? <==> pr.teams != []
    ensures r.Ok? ==> r.value == MentionsOf(mentionsText, pr.reviewers)
  {
    if pr.teams != [] then Err(UndefinedReviewer) else Ok(MentionsOf(mentionsText, pr.reviewers))
  }

  /**
   * `get_requested_reviewers_mentions` as evidently intended: the mentions of the
   * requested reviewers' logins, then of the requested teams' slugs.
   */
  function ReviewersMentions(pr: PullRequest, mentionsText: string): (r: seq<string>)
    ensures |r| == |pr.reviewers| + |pr.teams|
    ensures forall i | 0 <= i < |pr.reviewers| :: r[i] == UserMention(mentionsText, pr.reviewers[i])
    ensures forall i | 0 <= i < |pr.teams| :: r[|pr.reviewers| + i] == UserMention(mentionsText, pr.teams[i])
  {
    MentionsOf(mentionsText, pr.reviewers + pr.teams)
  }

  /** Both readings agree whenever no team is requested; with a team only the intended one succeeds. */
  lemma ReviewersMentionsAgree(pr: PullRequest, mentionsText: string)
    ensures pr.teams == [] ==> RequestedReviewersMentions(pr, mentionsText) == Ok(ReviewersMentions(pr, mentionsText))
    ensures pr.teams != [] ==> RequestedReviewersMentions(pr, mentionsText).Err?
  {
    if pr.teams == [] {
      assert pr.reviewers + pr.teams == pr.reviewers;
    }
  }

  /** An opened pull request with one requested team: the code as written raises. */
  lemma TeamRequestRaises(pr: PullRequest)
    requires pr.reviewers == [] && pr.teams == ["ios"]
    ensures RequestedReviewersMentions(pr, "") == Err(UndefinedReviewer)
    ensures ReviewersMentions(pr, "") == [UserMention("", "ios")]
  {
    assert pr.reviewers + pr.teams == ["ios"];
  }

  /** The six entries of `get_pr_opened_payload` for a reviewers line, those whose value reads as empty left out. */
  function PayloadEntries(pr: PullRequest, reviewers: string): (r: seq<(string, string)>)
    ensures forall e | e in r :: e.1 != "" && e.0 in OpenedPayloadKeys
    ensures Subsequence(r, AllOpenedEntries(pr, reviewers))
    ensures forall e :: e in r <==> e in AllOpenedEntries(pr, reviewers) && e.1 != ""
  {
    NonEmptyEntries(AllOpenedEntries(pr, reviewers))
  }

  /**
   * `get_pr_opened_payload` as written: the reviewers line comes from
   * `get_requested_reviewers_mentions`, so any requested team raises before the
   * payload is built.
   */
  function OpenedPayload(pr: PullRequest, mentionsText: string): (r: Result<seq<(string, string)>>)
    ensures r.Err? <==> pr.teams != []
    ensures r.Err? ==> r.message == UndefinedReviewer
    ensures r.Ok? ==> r.value == PayloadEntries(pr, Join(MentionsOf(mentionsText, pr.reviewers), ", "))
  {
    match RequestedReviewersMentions(pr, mentionsText)
    case Err(e) => Err(e)
    case Ok(mentions) => Ok(PayloadEntries(pr, Join(mentions, ", ")))
  }

  /** `get_pr_opened_payload` as evidently intended: reviewer and team mentions on the reviewers line. */
  function IntendedOpenedPayload(pr: PullRequest, mentionsText: string): (r: seq<(string, string)>)
    ensures forall e | e in r :: e.1 != "" && e.0 in OpenedPayloadKeys
    ensures Subsequence(r, AllOpenedEntries(pr, Join(ReviewersMentions(pr, mentionsText), ", ")))
    ensures forall e :: e in r <==> e in AllOpenedEntries(pr, Join(ReviewersMentions(pr, mentionsText), ", ")) && e.1 != ""
  {
    PayloadEntries(pr, Join(ReviewersMentions(pr, mentionsText), ", "))
  }

  /** Without a requested team the payload as written is the intended one. */
  lemma OpenedPayloadAgree(pr: PullRequest, mentionsText: string)
    ensures pr.teams == [] ==> OpenedPayload(pr, mentionsText) == Ok(IntendedOpenedPayload(pr, mentionsText))
  {
    ReviewersMentionsAgree(pr, mentionsText);
  }

  function AllOpenedEntries(pr: PullRequest, reviewers: string): (r: seq<(string, string)>)
    ensures |r| == |OpenedPayloadKeys|
    ensures forall i | 0 <= i < |r| :: r[i].0 == OpenedPayloadKeys[i]
  {
    [("Source branch", pr.sourceBranch), ("Target branch", pr.targetBranch),
     ("Changed files", CountText(pr.changedFiles)), ("Reviewers", reviewers),
     ("Assignees", Join(pr.assignees, ", ")), ("Labels", Join(pr.labels, ", "))]
  }

  /** The review link: the review's own URL, or the pull request's when the review has none. */
  function ReviewLink(review: Review, pr: PullRequest, compose: string -> string): string {
    compose(if review.relativeUrl == "" then pr.relativeUrl else review.relativeUrl)
  }

  const ReviewStates: seq<string> := ["approved", "changes_requested", "commented", "dismissed", "pending"]

  /** What the message of a known lower-case review state says before the pull request link. */
  function StatePrefix(lower: string, review: Review, pr: PullRequest, reviewerMention: string): string {
    match lower
    case "approved" => review.user + " approved pull request "
    case "changes_requested" => review.user + " requested changes on pull request"
    case "commented" => review.user + " commented on pull request "
    case "dismissed" => pr.owner + " dismissed pull request review by " + reviewerMention + " on pull request "
    case _ => reviewerMention + " has a pending pull request review on pull request "
  }

  /** The message for a review state already in lower case; any other state gives nothing. */
  function StateHead(lower: string, review: Review, pr: PullRequest, link: string, ownerMention: string,
                     reviewerMention: string): (r: string)
    ensures lower !in ReviewStates ==> r == ""
  {
    if lower in ReviewStates then
      StatePrefix(lower, review, pr, reviewerMention) + PrLink(pr.number, pr.title, link) + " opened by " + ownerMention
    else ""
  }

  /** The message for a review state, matched without regard to case; any other state gives nothing. */
  function ReviewHead(state: string, review: Review, pr: PullRequest, link: string, ownerMention: string,
                      reviewerMention: string): (r: string)
    ensures Downcase(state) !in ReviewStates ==> r == ""
  {
    StateHead(Downcase(state), review, pr, link, ownerMention, reviewerMention)
  }

  /** `get_pr_review_message`: the state's message, then the review body quoted when there is one. */
  function ReviewMessage(review: Review, pr: PullRequest, mentionsText: string, compose: string -> string): (r: string)
    ensures var head := ReviewHead(review.state, review, pr, ReviewLink(review, pr, compose),
                                   UserMention(mentionsText, pr.owner), UserMention(mentionsText, review.user));
      if review.body.Some? && review.body.value != "" then r == head + "\n> " + review.body.value else r == head
  {
    var link := ReviewLink(review, pr, compose);
    var head := ReviewHead(review.state, review, pr, link, UserMention(mentionsText, pr.owner),
                           UserMention(mentionsText, review.user));
    if review.body.Some? && review.body.value != "" then head + "\n> " + review.body.value else head
  }

  /** A known state in any case mix gives the same message as in lower case. */
  lemma ReviewStateCaseInsensitive(state: string, review: Review, pr: PullRequest, link: string,
                                   ownerMention: string, reviewerMention: string)
    ensures ReviewHead(state, review, pr, link, ownerMention, reviewerMention) ==
            ReviewHead(Downcase(state), review, pr, link, ownerMention, reviewerMention)
  {
    DowncaseIdempotent(state);
  }

  /** Every known state's message names the pull request and ends with its owner's mention. */
  lemma KnownStateMessage(state: string, review: Review, pr: PullRequest, link: string,
                          ownerMention: string, reviewerMention: string)
    requires Downcase(state) in ReviewStates
    ensures var r := ReviewHead(state, review, pr, link, ownerMention, reviewerMention);
      EndsWith(r, PrLink(pr.number, pr.title, link) + " opened by " + ownerMention)
  {
    var pre := StatePrefix(Downcase(state), review, pr, reviewerMention);
    var suffix := PrLink(pr.number, pr.title, link) + " opened by " + ownerMention;
    assert ReviewHead(state, review, pr, link, ownerMention, reviewerMention) == pre + suffix;
    SuffixEndsWith(pre, suffix);
  }

  lemma SuffixEndsWith(pre: string, suffix: string)
    ensures EndsWith(pre + suffix, suffix)
  {
    assert (pre + suffix)[|pre|..] == suffix;
  }

  /** `handle_pull_request_event`: only `opened` and `closed` are handled; `opened` fails with its payload. */
  function HandlePullRequest(ctx: Context, mentionsText: string, compose: string -> string): (r: Result<Notification>)
    ensures ctx.action != "opened" && ctx.action != "closed" ==> r == Err(UnhandledAction(ctx.action))
    ensures ctx.action == "closed" ==> r == Ok(Notification(ClosedMessage(ctx.repositoryName, ctx.pr, compose), []))
    ensures ctx.action == "opened" && ctx.pr.teams != [] ==> r == Err(UndefinedReviewer)
    ensures ctx.action == "opened" && ctx.pr.teams == [] ==>
      r == Ok(Notification(OpenedMessage(ctx.repositoryName, ctx.pr, compose), OpenedPayload(ctx.pr, mentionsText).value))
  {
    if ctx.action == "opened" then
      match OpenedPayload(ctx.pr, mentionsText)
      case Err(e) => Err(e)
      case Ok(payload) => Ok(Notification(OpenedMessage(ctx.repositoryName, ctx.pr, compose), payload))
    else if ctx.action == "closed" then
      Ok(Notification(ClosedMessage(ctx.repositoryName, ctx.pr, compose), []))
    else
      Err(UnhandledAction(ctx.action))
  }

  /** `run`: only pull request and pull request review events are handled. */
  function Run(ctx: Context, mentionsText: string, compose: string -> string): (r: Result<Notification>)
    ensures ctx.eventName != "pull_request" && ctx.eventName != "pull_request_review" ==> r == Err(UnhandledEvent)
    ensures ctx.eventName == "pull_request" ==> r == HandlePullRequest(ctx, mentionsText, compose)
    ensures ctx.eventName == "pull_request_review" ==>
      r == Ok(Notification(ReviewMessage(ctx.review, ctx.pr, mentionsText, compose), []))
  {
    if ctx.eventName == "pull_request" then HandlePullRequest(ctx, mentionsText, compose)
    else if ctx.eventName == "pull_request_review" then
      Ok(Notification(ReviewMessage(ctx.review, ctx.pr, mentionsText, compose), []))
    else Err(UnhandledEvent)
  }

  /**
   * The action fails exactly for an unhandled event, an unhandled action of a
   * pull request event, or an opened pull request with a requested team.
   */
  lemma RunFailsIffUnhandled(ctx: Context, mentionsText: string, compose: string -> string)
    ensures Run(ctx, mentionsText, compose).Err? <==>
      (ctx.eventName != "pull_request" && ctx.eventName != "pull_request_review") ||
      (ctx.eventName == "pull_request" && ctx.action != "opened" && ctx.action != "closed") ||
      (ctx.eventName == "pull_request" && ctx.action == "opened" && ctx.pr.teams != [])
  {
  }

  /** `run` with the intended reviewers line: an opened pull request never fails. */
  function IntendedRun(ctx: Context, mentionsText: string, compose: string -> string): Result<Notification> {
    if ctx.eventName == "pull_request" && ctx.action == "opened" then
      Ok(Notification(OpenedMessage(ctx.repositoryName, ctx.pr, compose), IntendedOpenedPayload(ctx.pr, mentionsText)))
    else Run(ctx, mentionsText, compose)
  }

  /**
   * With the intended reviewers line the action fails exactly for an unhandled
   * event or action, and it agrees with the code as written whenever no team is requested.
   */
  lemma IntendedRunFailsIffUnhandled(ctx: Context, mentionsText: string, compose: string -> string)
    ensures IntendedRun(ctx, mentionsText, compose).Err? <==>
      (ctx.eventName != "pull_request" && ctx.eventName != "pull_request_review") ||
      (ctx.eventName == "pull_request" && ctx.action != "opened" && ctx.action != "closed")
    ensures ctx.pr.teams == [] ==> IntendedRun(ctx, mentionsText, compose) == Run(ctx, mentionsText, compose)
  {
    OpenedPayloadAgree(ctx.pr, mentionsText);
  }
}
