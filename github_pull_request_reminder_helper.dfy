/**
 * The three formatters of `login:mention` elements for the reminder's
 * `user_logins_and_mentions` option (helper/github_pull_request_reminder_helper.rb),
 * one per chat service. Their mention parts are exactly what the mrkdwn
 * escaping pass leaves alone.
 */
module GithubPullRequestReminderHelper {
  import opened Wrappers
  import opened GithubUsersAndMentionsHelper
  import opened MrkdwnHelper

  function WebexMentionPart(login: string, email: string): string {
    "<@personEmail:" + email + "|" + login + ">"
  }

  /** `get_github_user_login_mention_for_webex`. */
  function WebexMention(login: string, email: string): string {
    login + ":" + WebexMentionPart(login, email)
  }

  function SlackMentionPart(id: string): string {
    "<@" + id + ">"
  }

  /** `get_github_user_login_mention_for_slack`. */
  function SlackMention(login: string, id: string): string {
    login + ":" + SlackMentionPart(id)
  }

  function GoogleChatMentionPart(id: string): string {
    "<users/" + id + ">"
  }

  /** `get_github_user_login_mention_for_google_chat`. */
  function GoogleChatMention(login: string, id: string): string {
    login + ":" + GoogleChatMentionPart(id)
  }

  /** A login the mentions parser can read back: non-empty, one line, no colon, no comma. */
  predicate PlainLogin(login: string) {
    login != [] && ':' !in login && ',' !in login && '\n' !in login
  }

  /** An identifier that stays within one comma element and one line. */
  predicate PlainId(id: string) {
    ',' !in id && '\n' !in id
  }

  /** The Webex element parses back to its login mapped to its mention. */
  lemma WebexMentionParses(login: string, email: string)
    requires PlainLogin(login) && PlainId(email)
    ensures ParseMentions(Some(WebexMention(login, email))) == Some(map[login := WebexMentionPart(login, email)])
  {
    var m := WebexMentionPart(login, email);
    assert m == "<@personEmail:" + email + "|" + login + ">";
    assert ',' !in m && '\n' !in m;
    ParseSingleEntry(login, m);
  }

  /** The Slack element parses back to its login mapped to its mention. */
  lemma SlackMentionParses(login: string, id: string)
    requires PlainLogin(login) && PlainId(id)
    ensures ParseMentions(Some(SlackMention(login, id))) == Some(map[login := SlackMentionPart(id)])
  {
    var m := SlackMentionPart(id);
    assert ',' !in m && '\n' !in m;
    ParseSingleEntry(login, m);
  }

  /** The Google Chat element parses back to its login mapped to its mention. */
  lemma GoogleChatMentionParses(login: string, id: string)
    requires PlainLogin(login) && PlainId(id)
    ensures ParseMentions(Some(GoogleChatMention(login, id))) == Some(map[login := GoogleChatMentionPart(id)])
  {
    var m := GoogleChatMentionPart(id);
    assert ',' !in m && '\n' !in m;
    ParseSingleEntry(login, m);
  }

  /** The Webex mention is always a mention to the escaping pass. */
  lemma WebexMentionExempt(login: string, email: string)
    requires '\n' !in login && '\n' !in email
    ensures IsMention(WebexMentionPart(login, email))
  {
    var m := WebexMentionPart(login, email);
    assert m[|m| - 1] == '>' && m[1] == '@';
    assert m[2..|m| - 1] == "personEmail:" + email + "|" + login;
    assert MentionAt(m, 0, |m| - 1);
  }

  /** The Slack mention is a mention to the escaping pass once its id is non-empty. */
  lemma SlackMentionExempt(id: string)
    requires id != [] && '\n' !in id
    ensures IsMention(SlackMentionPart(id))
  {
    var m := SlackMentionPart(id);
    assert m[2..|m| - 1] == id;
    assert MentionAt(m, 0, |m| - 1);
  }

  /** An empty Slack id gives `<@>`, which the escaping pass does not take for a mention. */
  lemma SlackEmptyIdEscaped()
    ensures !IsMention(SlackMentionPart(""))
  {
    var m := SlackMentionPart("");
    assert m == "<@>";
    forall i, j | 0 <= i < j < |m| ensures !MentionAt(m, i, j) {
    }
  }

  /** The Google Chat mention is a mention to the escaping pass, even with an empty id. */
  lemma GoogleChatMentionExempt(id: string)
    requires '\n' !in id
    ensures IsMention(GoogleChatMentionPart(id))
  {
    var m := GoogleChatMentionPart(id);
    assert m[1..6] == "users";
    assert m[6..|m| - 1] == "/" + id;
    assert MentionAt(m, 0, |m| - 1);
  }

  /** With no space and no ampersand in it, a Slack mention goes through `preprocess` untouched. */
  lemma SlackMentionPreprocessed(id: string)
    requires id != [] && '\n' !in id && ' ' !in id && '&' !in id
    ensures Preprocess(SlackMentionPart(id)) == SlackMentionPart(id)
  {
    SlackMentionExempt(id);
    PreprocessMentionToken(SlackMentionPart(id));
  }
}
