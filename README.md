# mm_toolkit message shaping, in Dafny

This project models the core logic of the fastlane plugin `mm_toolkit`, the
Más Móvil toolkit of fastlane actions. It covers the following pieces, each
with the network, git, clock and API calls around it turned into parameters:

- The Markdown-to-mrkdwn renderer class `Mrkdwn` and its parts:
  - the escaping pre-pass, which turns `&` into `&amp;` and escapes `<`/`>` in
    every space-separated token that is not a user or group mention;
  - one callback per Markdown construct;
  - the single piece of renderer state, the remembered list `@last_entries`;
  - the line-anchored list formatter (dashes, numbering, nesting);
  - the trailing-whitespace post-pass.
- The `github_user:mention` list parser, and the three helpers that write one
  entry for Webex, Slack and Google Chat.
- The message assemblers of the `webex`, `google_chat` and `webex_message`
  actions.
- The pull request reminder: the filter, one record per requested reviewer or
  team, one line per record, and the zero-PR message.
- The pull request notifier:
  - event and action gating;
  - the opened, closed and review messages;
  - the filtered opened payload, which as written fails when a team is
    requested (see Findings);
  - the mention lookup.
- The Mattermost checks on its options, and the body `send_message` posts.
- The GitHub release edit data, and its verify blocks.
- The changelog action: resolving the range and the merge filter, annotating
  commit titles with key symbols, the key section, the blank-line collapse,
  the replace patterns, and the option verify blocks.
- The tag train decision and its weekly version string.
- Stripping `v` from the latest tag.
- The per-SKU aggregation of App Store sales rows.

Each source file has its own module. Two shared modules support them:

- `Wrappers` holds `Option` and `Result`. They stand for `nil` and for a
  raised user error.
- `RubyText` states the Ruby string semantics the code relies on:
  - `String#split` drops trailing empty fields, and `"".split` is `[]`;
  - literal `gsub`;
  - `^`/`$` as line anchors;
  - `rstrip`, `downcase`, `to_i` and `Integer#to_s`;
  - the order `select` and `filter` keep (`Subsequence`).

The renderer is a class whose field is `@last_entries`. It has one method per
Redcarpet callback, and each method is proved against the pure transition
`Step`. Redcarpet itself is replaced by an abstract parse tree (`Node`) whose
container callbacks receive the rendered text of their children.

Four operations change values step by step, and each is a method proved
against the pure function that specifies it:

- the changelog loops (`CommitSymbols`, `BuildChangelog`,
  `ApplyReplacePatterns`);
- the Mattermost body `merge!` chain (`SendMessage`);
- the release data hash (`BuildReleaseData`);
- the tag train locals (`Analyse`).

## Model

| member | source | states |
|---|---|---|
| MrkdwnHelper.EscapeAmpersands | lib/fastlane/plugin/mm_toolkit/helper/mrkdwn_helper.rb:44 | no contract of its own: every `&` becomes `&amp;`; UnescapeAmpersands states that entity decoding undoes it |
| MrkdwnHelper.MentionAt | lib/fastlane/plugin/mm_toolkit/helper/mrkdwn_helper.rb:46 | no contract of its own: one match of the mention pattern at given bounds |
| MrkdwnHelper.IsMention | lib/fastlane/plugin/mm_toolkit/helper/mrkdwn_helper.rb:46 | no contract of its own: the mention test; EscapeToken and NoBracketNoMention state what it decides |
| MrkdwnHelper.EscapeToken | lib/fastlane/plugin/mm_toolkit/helper/mrkdwn_helper.rb:46 | a mention token (`<` then `@`, `!` or `users`, at least one character, `>`) is kept as is; any other token comes out with no `<` and no `>` |
| MrkdwnHelper.EscapeTokens | lib/fastlane/plugin/mm_toolkit/helper/mrkdwn_helper.rb:45-46 | every space-separated token is escaped on its own, in order |
| MrkdwnHelper.UnescapeHtmlEscape | lib/fastlane/plugin/mm_toolkit/helper/mrkdwn_helper.rb:44-47 | the reference HTML escape of `&`, `<`, `>` is undone by entity decoding (the inverse used for the round trip) |
| MrkdwnHelper.UnescapeAmpersands | lib/fastlane/plugin/mm_toolkit/helper/mrkdwn_helper.rb:44 | turning every `&` into `&amp;` is undone by entity decoding |
| MrkdwnHelper.UnescapeLead | lib/fastlane/plugin/mm_toolkit/helper/mrkdwn_helper.rb:44-47 | decoding an escaped character followed by any text yields the character followed by the decoding of that text |
| MrkdwnHelper.EscapeBracketsChar | lib/fastlane/plugin/mm_toolkit/helper/mrkdwn_helper.rb:44-47 | on a single character, the three literal replacements in the order `&`, `<`, `>` give its HTML escape |
| MrkdwnHelper.EscapeBracketsAmpersands | lib/fastlane/plugin/mm_toolkit/helper/mrkdwn_helper.rb:44-47 | escaping `&` first and then the brackets equals the HTML escape, so `&lt;`/`&gt;` are not escaped again |
| MrkdwnHelper.EscapeChain | lib/fastlane/plugin/mm_toolkit/helper/mrkdwn_helper.rb:44-47 | the chain of three replace-alls equals the HTML escape of the text |
| MrkdwnHelper.EscapeTokenRoundTrip | lib/fastlane/plugin/mm_toolkit/helper/mrkdwn_helper.rb:44-47 | decoding the escaped form of any token gives the token back, mention or not |
| MrkdwnHelper.UnescapeJoin | lib/fastlane/plugin/mm_toolkit/helper/mrkdwn_helper.rb:45-47 | decoding tokens joined by spaces gives the decoded tokens joined by spaces |
| MrkdwnHelper.Preprocess | lib/fastlane/plugin/mm_toolkit/helper/mrkdwn_helper.rb:42-48 | no contract of its own: the escaping pre-pass; PreprocessRoundTrip states that decoding undoes it, PreprocessKeepsMention that a mention survives it |
| MrkdwnHelper.PreprocessRoundTrip | lib/fastlane/plugin/mm_toolkit/helper/mrkdwn_helper.rb:42-48 | decoding the pre-pass output gives the input with its trailing spaces removed; nothing else is lost |
| MrkdwnHelper.SingleToken | lib/fastlane/plugin/mm_toolkit/helper/mrkdwn_helper.rb:42-48 | for a text without spaces, the pre-pass is ampersand escaping followed by token escaping |
| MrkdwnHelper.PreprocessPlainToken | lib/fastlane/plugin/mm_toolkit/helper/mrkdwn_helper.rb:42-48 | a token that is not a mention comes out fully HTML-escaped |
| MrkdwnHelper.PreprocessMentionToken | lib/fastlane/plugin/mm_toolkit/helper/mrkdwn_helper.rb:42-48 | a mention token without `&` passes through unchanged |
| MrkdwnHelper.EntityEscapedAgain | lib/fastlane/plugin/mm_toolkit/helper/mrkdwn_helper.rb:44 | an existing `&amp;` is escaped again to `&amp;amp;` |
| MrkdwnHelper.NoBracketNoMention | lib/fastlane/plugin/mm_toolkit/helper/mrkdwn_helper.rb:46 | a token without `<` is never a mention |
| MrkdwnHelper.PreprocessNotIdempotent | lib/fastlane/plugin/mm_toolkit/helper/mrkdwn_helper.rb:42-48 | the pre-pass is not idempotent: `&amp;` becomes `&amp;amp;` |
| MrkdwnHelper.PreprocessKeepsMention | lib/fastlane/plugin/mm_toolkit/helper/mrkdwn_helper.rb:42-48 | a Slack user mention keeps its angle brackets |
| MrkdwnHelper.FormatList | lib/fastlane/plugin/mm_toolkit/helper/mrkdwn_helper.rb:137-144 | no contract of its own: numbering for ordered lists, dashes for unordered ones; NumberedList and AddDashes state each |
| MrkdwnHelper.AddDashes | lib/fastlane/plugin/mm_toolkit/helper/mrkdwn_helper.rb:146-148 | same number of lines; exactly the lines starting with a non-whitespace character get `- `; the other lines are unchanged |
| MrkdwnHelper.ItemCount | lib/fastlane/plugin/mm_toolkit/helper/mrkdwn_helper.rb:150-157 | the number of item lines never exceeds the number of lines |
| MrkdwnHelper.NumberedList | lib/fastlane/plugin/mm_toolkit/helper/mrkdwn_helper.rb:150-157 | same number of lines; an item line gets the count of item lines before it plus one, then `. `; the other lines are unchanged |
| MrkdwnHelper.NumberingConsecutive | lib/fastlane/plugin/mm_toolkit/helper/mrkdwn_helper.rb:150-157 | item numbers strictly increase down the list, lie between 1 and the item count, and every number in that range is used |
| MrkdwnHelper.NestListEntries | lib/fastlane/plugin/mm_toolkit/helper/mrkdwn_helper.rb:167-169 | same number of lines; every non-empty line gets three spaces; empty lines stay empty |
| MrkdwnHelper.IndentListItems | lib/fastlane/plugin/mm_toolkit/helper/mrkdwn_helper.rb:171-173 | no contract of its own: every occurrence of the remembered list replaced by its nested form; NestedListIndented states the result |
| MrkdwnHelper.NestedListIndented | lib/fastlane/plugin/mm_toolkit/helper/mrkdwn_helper.rb:167-173 | when the remembered list occurs in the entry only as its suffix, the literal replace-all indents exactly that suffix |
| MrkdwnHelper.Step | lib/fastlane/plugin/mm_toolkit/helper/mrkdwn_helper.rb:55-133 | no contract of its own: the fragment each callback returns and the remembered list after it; the lemmas below and Mrkdwn.Dispatch state it case by case |
| MrkdwnHelper.OnlyListsAndParagraphsTouchState | lib/fastlane/plugin/mm_toolkit/helper/mrkdwn_helper.rb:55-133 | every callback other than `list`, `list_item` and `paragraph` leaves the remembered list as it was |
| MrkdwnHelper.ParagraphClears | lib/fastlane/plugin/mm_toolkit/helper/mrkdwn_helper.rb:120-124 | a paragraph is `"\n" + t + "\n\n"` after a list and `t + "\n\n"` otherwise; the remembered list is always cleared |
| MrkdwnHelper.ListItemNestsList | lib/fastlane/plugin/mm_toolkit/helper/mrkdwn_helper.rb:107-113 | an item ending with the remembered list gets that list nested by three spaces, and the state is cleared |
| MrkdwnHelper.ListItemKeeps | lib/fastlane/plugin/mm_toolkit/helper/mrkdwn_helper.rb:107-113 | with no remembered list, or an item not ending with it, the item and the state are unchanged |
| MrkdwnHelper.Mrkdwn.constructor | lib/fastlane/plugin/mm_toolkit/helper/mrkdwn_helper.rb:8-11 | a new renderer remembers no list |
| MrkdwnHelper.Mrkdwn.Strikethrough | lib/fastlane/plugin/mm_toolkit/helper/mrkdwn_helper.rb:55-57 | strikethrough is `~c~` |
| MrkdwnHelper.Mrkdwn.Underline | lib/fastlane/plugin/mm_toolkit/helper/mrkdwn_helper.rb:60-62 | underline is `_c_` |
| MrkdwnHelper.Mrkdwn.Emphasis | lib/fastlane/plugin/mm_toolkit/helper/mrkdwn_helper.rb:65-67 | emphasis is `_c_` |
| MrkdwnHelper.Mrkdwn.DoubleEmphasis | lib/fastlane/plugin/mm_toolkit/helper/mrkdwn_helper.rb:70-72 | double emphasis is `*c*` |
| MrkdwnHelper.Mrkdwn.TripleEmphasis | lib/fastlane/plugin/mm_toolkit/helper/mrkdwn_helper.rb:75-77 | triple emphasis is `*_c_*` |
| MrkdwnHelper.Mrkdwn.BlockCode | lib/fastlane/plugin/mm_toolkit/helper/mrkdwn_helper.rb:80-82 | a code block is fenced by triple backticks and followed by a blank line; the language is ignored |
| MrkdwnHelper.Mrkdwn.BlockQuote | lib/fastlane/plugin/mm_toolkit/helper/mrkdwn_helper.rb:85-87 | a quote is the escaped `&gt; ` followed by the content |
| MrkdwnHelper.Mrkdwn.Codespan | lib/fastlane/plugin/mm_toolkit/helper/mrkdwn_helper.rb:90-92 | a code span is wrapped in single backticks |
| MrkdwnHelper.Mrkdwn.Link | lib/fastlane/plugin/mm_toolkit/helper/mrkdwn_helper.rb:95-97 | a link is `<url\|content>`; the title is ignored |
| MrkdwnHelper.Mrkdwn.List | lib/fastlane/plugin/mm_toolkit/helper/mrkdwn_helper.rb:100-104 | a list returns its formatted entries and remembers exactly that text |
| MrkdwnHelper.Mrkdwn.ListItem | lib/fastlane/plugin/mm_toolkit/helper/mrkdwn_helper.rb:107-113 | an item ending with the remembered list nests it and clears the state; otherwise the item and the state are unchanged |
| MrkdwnHelper.Mrkdwn.Image | lib/fastlane/plugin/mm_toolkit/helper/mrkdwn_helper.rb:116-118 | an image is its URL |
| MrkdwnHelper.Mrkdwn.Paragraph | lib/fastlane/plugin/mm_toolkit/helper/mrkdwn_helper.rb:120-124 | a paragraph gets a leading newline only after a list, a trailing blank line always, and clears the state |
| MrkdwnHelper.Mrkdwn.Header | lib/fastlane/plugin/mm_toolkit/helper/mrkdwn_helper.rb:127-129 | a header of any level is bold text followed by a newline |
| MrkdwnHelper.Mrkdwn.Linebreak | lib/fastlane/plugin/mm_toolkit/helper/mrkdwn_helper.rb:131-133 | a line break is a newline |
| MrkdwnHelper.Mrkdwn.NumberList | lib/fastlane/plugin/mm_toolkit/helper/mrkdwn_helper.rb:150-157 | the counting loop over the lines numbers item lines as the numbered-list specification does |
| MrkdwnHelper.Mrkdwn.Dispatch | lib/fastlane/plugin/mm_toolkit/helper/mrkdwn_helper.rb:55-133 | each callback gives the fragment and the new remembered list of the transition `Step` |
| MrkdwnHelper.Mrkdwn.Render | lib/fastlane/plugin/mm_toolkit/helper/mrkdwn_helper.rb:8-11 | rendering a parse tree node calls the callbacks children first, as the pure fold `RenderNode` does |
| MrkdwnHelper.Mrkdwn.RenderAll | lib/fastlane/plugin/mm_toolkit/helper/mrkdwn_helper.rb:8-11 | rendering a sequence of nodes threads the state left to right and concatenates the fragments |
| MrkdwnHelper.Postprocess | lib/fastlane/plugin/mm_toolkit/helper/mrkdwn_helper.rb:50-52 | the result is a prefix of the input; everything removed is whitespace; the result does not end in whitespace |
| MrkdwnHelper.PostprocessIdempotent | lib/fastlane/plugin/mm_toolkit/helper/mrkdwn_helper.rb:50-52 | the post-pass is idempotent |
| MrkdwnHelper.RenderPair | lib/fastlane/plugin/mm_toolkit/helper/mrkdwn_helper.rb:8-11 | two sibling nodes render in order, the second seeing the state the first left |
| MrkdwnHelper.RenderedListRemembered | lib/fastlane/plugin/mm_toolkit/helper/mrkdwn_helper.rb:100-104 | a list node renders to its formatted entries and leaves exactly that text remembered |
| MrkdwnHelper.NestedListRendering | lib/fastlane/plugin/mm_toolkit/helper/mrkdwn_helper.rb:107-113 | an item whose text is followed by a rendered list, occurring only at the end, comes out with the list indented under the text, and no list is remembered afterwards |
| MrkdwnHelper.FormatMrkdwn | lib/fastlane/plugin/mm_toolkit/helper/mrkdwn_helper.rb:179-181 | no contract of its own: escape, parse, render from a fresh renderer, strip; Mrkdwn.From states the method computes it |
| MrkdwnHelper.From | lib/fastlane/plugin/mm_toolkit/helper/mrkdwn_helper.rb:8-11 | a fresh renderer over the parse of the pre-passed text, followed by the post-pass |
| GithubUsersAndMentionsHelper.MatchLine | lib/fastlane/plugin/mm_toolkit/helper/github_users_and_mentions_helper.rb:6 | a line matches iff it has a colon after its first character and before its last; the user is the text before the first such colon and the mention is the rest, both non-empty |
| GithubUsersAndMentionsHelper.LinePairs | lib/fastlane/plugin/mm_toolkit/helper/github_users_and_mentions_helper.rb:10-14 | no contract of its own: the pair of each line that matches, in order; LinePairsNonEmpty states both parts are non-empty |
| GithubUsersAndMentionsHelper.ElementPairs | lib/fastlane/plugin/mm_toolkit/helper/github_users_and_mentions_helper.rb:9-14 | no contract of its own: the pairs of every comma element in order; ElementPairsNonEmpty and ElementPairsOfEntries state them |
| GithubUsersAndMentionsHelper.Merge | lib/fastlane/plugin/mm_toolkit/helper/github_users_and_mentions_helper.rb:15 | no contract of its own: pairs merged in order; MergeLastWins states the logins are those of the pairs and each maps to its last pair's mention |
| GithubUsersAndMentionsHelper.Pairs | lib/fastlane/plugin/mm_toolkit/helper/github_users_and_mentions_helper.rb:9 | no contract of its own: the pairs of the comma-separated elements; ParseJoinedEntries states the parse of well-formed joined entries |
| GithubUsersAndMentionsHelper.ParseMentions | lib/fastlane/plugin/mm_toolkit/helper/github_users_and_mentions_helper.rb:8-16 | nil gives nil, and the empty string gives the empty map |
| GithubUsersAndMentionsHelper.LinePairsNonEmpty | lib/fastlane/plugin/mm_toolkit/helper/github_users_and_mentions_helper.rb:6-12 | every pair scanned from the lines of an element has a non-empty user and a non-empty mention |
| GithubUsersAndMentionsHelper.ElementPairsNonEmpty | lib/fastlane/plugin/mm_toolkit/helper/github_users_and_mentions_helper.rb:9-13 | every pair from every comma element is non-empty on both sides |
| GithubUsersAndMentionsHelper.MergeLastWins | lib/fastlane/plugin/mm_toolkit/helper/github_users_and_mentions_helper.rb:15 | a user is in the merged map iff some pair names them, and maps to the mention of the last such pair |
| GithubUsersAndMentionsHelper.ParsedNonEmpty | lib/fastlane/plugin/mm_toolkit/helper/github_users_and_mentions_helper.rb:6-15 | every key and every value of the parsed map is non-empty |
| GithubUsersAndMentionsHelper.EntryMatches | lib/fastlane/plugin/mm_toolkit/helper/github_users_and_mentions_helper.rb:6 | a well-formed `user:mention` entry is one line that matches back to its user and mention |
| GithubUsersAndMentionsHelper.ParseJoinedEntries | lib/fastlane/plugin/mm_toolkit/helper/github_users_and_mentions_helper.rb:8-16 | parsing well-formed entries joined by commas gives the map of those pairs, later entries winning |
| GithubUsersAndMentionsHelper.ElementPairsOfEntries | lib/fastlane/plugin/mm_toolkit/helper/github_users_and_mentions_helper.rb:9-13 | each well-formed entry contributes exactly its own pair |
| GithubUsersAndMentionsHelper.ParseSingleEntry | lib/fastlane/plugin/mm_toolkit/helper/github_users_and_mentions_helper.rb:8-16 | a single well-formed entry parses to the one-entry map |
| GithubPullRequestReminderHelper.WebexMention | lib/fastlane/plugin/mm_toolkit/helper/github_pull_request_reminder_helper.rb:6-8 | no contract of its own: `login:<@personEmail:email|login>`; WebexMentionParses states the parser reads it back |
| GithubPullRequestReminderHelper.SlackMention | lib/fastlane/plugin/mm_toolkit/helper/github_pull_request_reminder_helper.rb:11-13 | no contract of its own: `login:<@id>`; SlackMentionParses states the parser reads it back |
| GithubPullRequestReminderHelper.GoogleChatMention | lib/fastlane/plugin/mm_toolkit/helper/github_pull_request_reminder_helper.rb:16-18 | no contract of its own: `login:<users/id>`; GoogleChatMentionParses states the parser reads it back |
| GithubPullRequestReminderHelper.WebexMentionParses | lib/fastlane/plugin/mm_toolkit/helper/github_pull_request_reminder_helper.rb:5-8 | the Webex entry `login:<@personEmail:email\|login>` parses to login mapped to the mention part |
| GithubPullRequestReminderHelper.SlackMentionParses | lib/fastlane/plugin/mm_toolkit/helper/github_pull_request_reminder_helper.rb:10-13 | the Slack entry `login:<@id>` parses to login mapped to `<@id>` |
| GithubPullRequestReminderHelper.GoogleChatMentionParses | lib/fastlane/plugin/mm_toolkit/helper/github_pull_request_reminder_helper.rb:15-18 | the Google Chat entry `login:<users/id>` parses to login mapped to `<users/id>` |
| GithubPullRequestReminderHelper.WebexMentionExempt | lib/fastlane/plugin/mm_toolkit/helper/github_pull_request_reminder_helper.rb:7 | the Webex mention part is a mention for the escaping pre-pass |
| GithubPullRequestReminderHelper.SlackMentionExempt | lib/fastlane/plugin/mm_toolkit/helper/github_pull_request_reminder_helper.rb:12 | with a non-empty id, the Slack mention part is a mention for the escaping pre-pass |
| GithubPullRequestReminderHelper.SlackEmptyIdEscaped | lib/fastlane/plugin/mm_toolkit/helper/github_pull_request_reminder_helper.rb:12 | with an empty id, `<@>` is not a mention and gets escaped |
| GithubPullRequestReminderHelper.GoogleChatMentionExempt | lib/fastlane/plugin/mm_toolkit/helper/github_pull_request_reminder_helper.rb:17 | the Google Chat mention part is a mention for the escaping pre-pass, even with an empty id |
| GithubPullRequestReminderHelper.SlackMentionPreprocessed | lib/fastlane/plugin/mm_toolkit/helper/github_pull_request_reminder_helper.rb:12 | the pre-pass leaves a Slack mention part unchanged |
| Webex.StatusPrefix | lib/fastlane/plugin/mm_toolkit/actions/webex.rb:66-73 | the prefix is empty iff success is nil; it carries the check mark for true and the stop sign for false |
| Webex.FormatMessage | lib/fastlane/plugin/mm_toolkit/actions/webex.rb:63-84 | starts with prefix and message; is exactly that with an empty payload; otherwise a blank line and then the quoted entries in payload order |
| Webex.QuotedEntries | lib/fastlane/plugin/mm_toolkit/actions/webex.rb:79-81 | no contract of its own: each payload entry as a block quote, in order; QuotedEntryLines states the lines of each entry |
| Webex.QuotedEntryLines | lib/fastlane/plugin/mm_toolkit/actions/webex.rb:79-81 | an entry is the line `>**k**  `, then each line of the value after `>` with two trailing spaces, then an empty line |
| GoogleChat.ChatMarkdown | lib/fastlane/plugin/mm_toolkit/actions/google_chat.rb:44-62 | the same tri-state prefix as Webex, then the message; with a payload, two blank lines and the bold entries in order |
| GoogleChat.BoldEntries | lib/fastlane/plugin/mm_toolkit/actions/google_chat.rb:60-62 | no contract of its own: each payload entry with its key in bold, in order; BoldEntryLines states its lines |
| GoogleChat.BoldEntryLines | lib/fastlane/plugin/mm_toolkit/actions/google_chat.rb:60-62 | an entry is the line `**k**  `, then each line of the value with two trailing spaces, then an empty line |
| GoogleChat.FormatMessage | lib/fastlane/plugin/mm_toolkit/actions/google_chat.rb:44-65 | the result is the mrkdwn rendering of the assembled Markdown, which never ends in whitespace |
| WebexMessage.Glyph | lib/fastlane/plugin/mm_toolkit/actions/webex_message.rb:38-42 | the check glyph iff success is true; the stop glyph for false and for nil |
| WebexMessage.GenerateWebexMarkdown | lib/fastlane/plugin/mm_toolkit/actions/webex_message.rb:35-57 | with formatting the head is `## glyph message`, otherwise the message verbatim; the payload follows in the Webex quoted form; no payload means nothing after the head |
| GithubPullRequestReminder.AwaitsReview | lib/fastlane/plugin/mm_toolkit/actions/github_pull_request_reminder.rb:60 | no contract of its own: a requested reviewer or team; PendingPullRequests and PendingAllAwait state the filter |
| GithubPullRequestReminder.PendingPullRequests | lib/fastlane/plugin/mm_toolkit/actions/github_pull_request_reminder.rb:60 | a pull request is kept iff it has a requested reviewer or team, as many times as it occurs, and the kept ones keep their input order (a subsequence of the input) |
| GithubPullRequestReminder.RequestsOf | lib/fastlane/plugin/mm_toolkit/actions/github_pull_request_reminder.rb:63-75 | one record per requested reviewer, then one per team under its slug, each with the URL and title of the pull request |
| GithubPullRequestReminder.RequestsAppend | lib/fastlane/plugin/mm_toolkit/actions/github_pull_request_reminder.rb:63-75 | flattening preserves the order of pull requests |
| GithubPullRequestReminder.RequestsAtLeastPending | lib/fastlane/plugin/mm_toolkit/actions/github_pull_request_reminder.rb:60-75 | pull requests that await review give at least one record each |
| GithubPullRequestReminder.PendingAllAwait | lib/fastlane/plugin/mm_toolkit/actions/github_pull_request_reminder.rb:60 | every kept pull request awaits review |
| GithubPullRequestReminder.MentionFor | lib/fastlane/plugin/mm_toolkit/actions/github_pull_request_reminder.rb:80 | the mapped mention when the map exists and has the login, otherwise the login |
| GithubPullRequestReminder.ReminderLine | lib/fastlane/plugin/mm_toolkit/actions/github_pull_request_reminder.rb:82 | no contract of its own: the reminder sentence; ReminderLineShape states it is one line ending in `!` |
| GithubPullRequestReminder.ReminderLines | lib/fastlane/plugin/mm_toolkit/actions/github_pull_request_reminder.rb:77-84 | one reminder line per record, in order |
| GithubPullRequestReminder.ReminderLineShape | lib/fastlane/plugin/mm_toolkit/actions/github_pull_request_reminder.rb:80-82 | a reminder line is one non-empty line ending with `!` |
| GithubPullRequestReminder.GenerateMarkdown | lib/fastlane/plugin/mm_toolkit/actions/github_pull_request_reminder.rb:77-84 | no contract of its own: the reminder lines joined by newlines; MarkdownLines states it splits back into them, MarkdownEnd that it ends in `!` |
| GithubPullRequestReminder.MarkdownLines | lib/fastlane/plugin/mm_toolkit/actions/github_pull_request_reminder.rb:77-84 | the lines of the message are exactly the reminder lines |
| GithubPullRequestReminder.MarkdownEnd | lib/fastlane/plugin/mm_toolkit/actions/github_pull_request_reminder.rb:83 | the message ends with the last line's `!`, with no trailing newline |
| GithubPullRequestReminder.Run | lib/fastlane/plugin/mm_toolkit/actions/github_pull_request_reminder.rb:16-41 | the count is the number of kept pull requests; with none the message is the fixed congratulation, otherwise the generated lines |
| GithubPullRequestReminder.AwaitingAtMostLines | lib/fastlane/plugin/mm_toolkit/actions/github_pull_request_reminder.rb:20-75 | the count never exceeds the number of reminder records |
| GithubPullRequestNotifier.UserMention | lib/fastlane/plugin/mm_toolkit/actions/github_pull_request_notifier.rb:199-202 | the mapped mention of a login, or the login when it is not mapped |
| GithubPullRequestNotifier.OpenedMessage | lib/fastlane/plugin/mm_toolkit/actions/github_pull_request_notifier.rb:77-95 | no contract of its own: the opened message (repository, owner, pull request link, body); HandlePullRequest states where it goes |
| GithubPullRequestNotifier.ClosedVerb | lib/fastlane/plugin/mm_toolkit/actions/github_pull_request_notifier.rb:132-136 | `merged` iff the pull request was merged, `closed` iff it was not |
| GithubPullRequestNotifier.ClosedMessage | lib/fastlane/plugin/mm_toolkit/actions/github_pull_request_notifier.rb:118-137 | no contract of its own: the closed message around the verb ClosedVerb chooses; HandlePullRequest states where it goes |
| GithubPullRequestNotifier.NonEmptyEntries | lib/fastlane/plugin/mm_toolkit/actions/github_pull_request_notifier.rb:115 | keeps exactly the entries whose value is non-empty, each as many times as it occurs, in their original order |
| GithubPullRequestNotifier.MentionsOf | lib/fastlane/plugin/mm_toolkit/actions/github_pull_request_notifier.rb:190-193 | each login is replaced by its mention, in order |
| GithubPullRequestNotifier.RequestedReviewersMentions | lib/fastlane/plugin/mm_toolkit/actions/github_pull_request_notifier.rb:190-197 | as written: fails iff any team is requested; otherwise the mentions of the requested reviewers |
| GithubPullRequestNotifier.ReviewersMentions | lib/fastlane/plugin/mm_toolkit/actions/github_pull_request_notifier.rb:190-197 | corrected: the mentions of the requested reviewers, then of the requested team slugs |
| GithubPullRequestNotifier.ReviewersMentionsAgree | lib/fastlane/plugin/mm_toolkit/actions/github_pull_request_notifier.rb:190-197 | without teams the two readings agree; with teams the code as written fails |
| GithubPullRequestNotifier.TeamRequestRaises | lib/fastlane/plugin/mm_toolkit/actions/github_pull_request_notifier.rb:194 | a pull request with the team `ios` requested raises the undefined-name error, where the slug was meant |
| GithubPullRequestNotifier.AllOpenedEntries | lib/fastlane/plugin/mm_toolkit/actions/github_pull_request_notifier.rb:99-113 | the payload candidates carry the fixed keys in their fixed order |
| GithubPullRequestNotifier.PayloadEntries | lib/fastlane/plugin/mm_toolkit/actions/github_pull_request_notifier.rb:108-115 | exactly the candidate entries with a non-empty value, each under one of the six keys, in key order (a subsequence of the candidates) |
| GithubPullRequestNotifier.OpenedPayload | lib/fastlane/plugin/mm_toolkit/actions/github_pull_request_notifier.rb:97-116 | the payload fails with the undefined-name error exactly when a team is requested; otherwise it is the payload entries built from the mentions of the requested users |
| GithubPullRequestNotifier.IntendedOpenedPayload | lib/fastlane/plugin/mm_toolkit/actions/github_pull_request_notifier.rb:97-116 | with the team slug read as meant, the payload never fails: the non-empty candidate entries, the reviewers line holding the users' and then the teams' mentions |
| GithubPullRequestNotifier.OpenedPayloadAgree | lib/fastlane/plugin/mm_toolkit/actions/github_pull_request_notifier.rb:97-116 | with no team requested the payload as written equals the intended one |
| GithubPullRequestNotifier.ReviewLink | lib/fastlane/plugin/mm_toolkit/actions/github_pull_request_notifier.rb:158 | no contract of its own: the composed URL of the review, or of the pull request when the review's is empty; ReviewMessage states its use |
| GithubPullRequestNotifier.StatePrefix | lib/fastlane/plugin/mm_toolkit/actions/github_pull_request_notifier.rb:165-180 | no contract of its own: the opening words of each known state; KnownStateMessage states what follows them |
| GithubPullRequestNotifier.StateHead | lib/fastlane/plugin/mm_toolkit/actions/github_pull_request_notifier.rb:165-181 | a state outside the five known ones gives the empty message |
| GithubPullRequestNotifier.ReviewHead | lib/fastlane/plugin/mm_toolkit/actions/github_pull_request_notifier.rb:161-181 | a state outside the five known ones (after downcasing) gives an empty head |
| GithubPullRequestNotifier.ReviewStateCaseInsensitive | lib/fastlane/plugin/mm_toolkit/actions/github_pull_request_notifier.rb:161 | the state is matched case-insensitively |
| GithubPullRequestNotifier.KnownStateMessage | lib/fastlane/plugin/mm_toolkit/actions/github_pull_request_notifier.rb:161-181 | every known state's head ends with the pull request link and `opened by` its owner's mention |
| GithubPullRequestNotifier.ReviewMessage | lib/fastlane/plugin/mm_toolkit/actions/github_pull_request_notifier.rb:139-188 | `\n> body` follows the head iff the review body is present and non-empty; the review link falls back to the pull request URL |
| GithubPullRequestNotifier.HandlePullRequest | lib/fastlane/plugin/mm_toolkit/actions/github_pull_request_notifier.rb:38-75 | `opened` with a requested team fails with the undefined-name error, `opened` otherwise gives the opened message and payload, `closed` the closed message and no payload, any other action the unhandled-action error |
| GithubPullRequestNotifier.Run | lib/fastlane/plugin/mm_toolkit/actions/github_pull_request_notifier.rb:15-65 | pull request events go to the action handler (so an opened pull request with a requested team fails), review events give the review message, any other event the unhandled-event error |
| GithubPullRequestNotifier.RunFailsIffUnhandled | lib/fastlane/plugin/mm_toolkit/actions/github_pull_request_notifier.rb:15-69 | the action fails exactly for an unhandled event, an unhandled action of a pull request event, or an opened pull request with a requested team |
| GithubPullRequestNotifier.IntendedRunFailsIffUnhandled | lib/fastlane/plugin/mm_toolkit/actions/github_pull_request_notifier.rb:15-69 | with the team slug read as meant, the action fails exactly for an unhandled event or action, and it agrees with the code as written whenever no team is requested |
| Mattermost.HasRequiredFields | lib/fastlane/plugin/mm_toolkit/actions/mattermost.rb:75-83 | no contract of its own: a text, or a non-empty list of attachments; SendMessage states it decides the error |
| Mattermost.IsCustomType | lib/fastlane/plugin/mm_toolkit/actions/mattermost.rb:85-91 | no contract of its own: no type, or one starting with `custom_`; VerifyType states the same test |
| Mattermost.VerifyType | lib/fastlane/plugin/mm_toolkit/actions/mattermost.rb:85-91 | a type is accepted iff it is nil or starts with `custom_` |
| Mattermost.MergeNew | lib/fastlane/plugin/mm_toolkit/actions/mattermost.rb:44-48 | merging a new key gives it exactly the given value, or no entry when the value is nil |
| Mattermost.MergeKeys | lib/fastlane/plugin/mm_toolkit/actions/mattermost.rb:44-48 | merging appends the key iff a value is given and keeps the earlier entries |
| Mattermost.MergeOther | lib/fastlane/plugin/mm_toolkit/actions/mattermost.rb:44-48 | merging one key leaves what the body holds for any other key |
| Mattermost.Body | lib/fastlane/plugin/mm_toolkit/actions/mattermost.rb:38-48 | no contract of its own: the three required entries, then each optional one that is given; BodyKeys and BodyValues state its keys and values |
| Mattermost.BodyKeys | lib/fastlane/plugin/mm_toolkit/actions/mattermost.rb:38-48 | the body starts with text (null when nil), username and icon URL; each optional key follows iff its value is given, and no other key appears |
| Mattermost.BodyValues | lib/fastlane/plugin/mm_toolkit/actions/mattermost.rb:44-48 | each optional key carries exactly its given value, and is absent when the value is nil |
| Mattermost.SendMessage | lib/fastlane/plugin/mm_toolkit/actions/mattermost.rb:29-48 | rejected iff there is no text and no non-empty attachments, before any body is built; otherwise the body is built field by field |
| EditGithubRelease.EditData | lib/fastlane/plugin/mm_toolkit/actions/edit_github_release.rb:53-57 | body is the notes; name is present iff given; `prerelease` is present iff release or latest, and never true; `make_latest` is present iff latest, and never false |
| EditGithubRelease.BuildReleaseData | lib/fastlane/plugin/mm_toolkit/actions/edit_github_release.rb:53-57 | the conditional assignments fill in exactly the release data above |
| EditGithubRelease.LatestIsNotPrerelease | lib/fastlane/plugin/mm_toolkit/actions/edit_github_release.rb:56-57 | a latest release is always also marked as not a pre-release |
| EditGithubRelease.VerifyRepositoryName | lib/fastlane/plugin/mm_toolkit/actions/edit_github_release.rb:125-128 | accepted iff it does not contain `github.com` and splits on `/` into exactly two fields |
| EditGithubRelease.VerifyServerUrl | lib/fastlane/plugin/mm_toolkit/actions/edit_github_release.rb:136-139 | accepted iff it contains `//` |
| EditGithubRelease.PathAccepted | lib/fastlane/plugin/mm_toolkit/actions/edit_github_release.rb:125-128 | `owner/repo` is accepted |
| EditGithubRelease.ThreeFieldsRejected | lib/fastlane/plugin/mm_toolkit/actions/edit_github_release.rb:127 | a path with three fields is rejected |
| EditGithubRelease.HostRejected | lib/fastlane/plugin/mm_toolkit/actions/edit_github_release.rb:126 | anything containing `github.com` is rejected |
| EditGithubRelease.LeadingSlashAccepted | lib/fastlane/plugin/mm_toolkit/actions/edit_github_release.rb:127 | `/repo` splits into two fields and is accepted |
| GitChangelog.SplitAtFirstComma | lib/fastlane/plugin/mm_toolkit/actions/git_changelog.rb:16 | the two parts rejoin with the comma to the input, and the first part has no comma |
| GitChangelog.ResolveRange | lib/fastlane/plugin/mm_toolkit/actions/git_changelog.rb:11-24 | a commit count wins; otherwise a comma string splits at its first comma, an array gives its first two items, and no `:between` gives the latest tag to `HEAD` |
| GitChangelog.MergeFiltering | lib/fastlane/plugin/mm_toolkit/actions/git_changelog.rb:31-36 | `include_merges == false` forces `exclude_merges`; anything else keeps the given filter |
| GitChangelog.VerifyBetween | lib/fastlane/plugin/mm_toolkit/actions/git_changelog.rb:164-166 | accepted iff there are two items and neither is nil; a nil item gives the nil message |
| GitChangelog.VerifyCommitsCount | lib/fastlane/plugin/mm_toolkit/actions/git_changelog.rb:176-177 | accepted iff the count is at least 1 |
| GitChangelog.VerifyMergeFiltering | lib/fastlane/plugin/mm_toolkit/actions/git_changelog.rb:235-239 | accepted iff the value is one of the filtering options |
| GitChangelog.KeySymbols | lib/fastlane/plugin/mm_toolkit/actions/git_changelog.rb:104-109 | a commit gets at most one symbol per key |
| GitChangelog.MatchingKeys | lib/fastlane/plugin/mm_toolkit/actions/git_changelog.rb:104-109 | the indices of exactly the keys some changed file matches, strictly increasing |
| GitChangelog.KeySymbolsInKeyOrder | lib/fastlane/plugin/mm_toolkit/actions/git_changelog.rb:104-109 | the symbols of a commit are those of the matching keys, one per key, in `file_key_patterns` order |
| GitChangelog.KeySymbolsComplete | lib/fastlane/plugin/mm_toolkit/actions/git_changelog.rb:104-109 | every key some changed file matches contributes its symbol |
| GitChangelog.KeySymbolsEmpty | lib/fastlane/plugin/mm_toolkit/actions/git_changelog.rb:104-109 | a commit gets no symbol iff no changed file matches any pattern of any key |
| GitChangelog.KeySymbolsMatched | lib/fastlane/plugin/mm_toolkit/actions/git_changelog.rb:104-109 | every symbol a commit gets belongs to a key one of its changed files matches |
| GitChangelog.Annotate | lib/fastlane/plugin/mm_toolkit/actions/git_changelog.rb:111-112 | a title gets ` [symbols]` iff it has symbols, and is unchanged otherwise |
| GitChangelog.AnnotatedTitles | lib/fastlane/plugin/mm_toolkit/actions/git_changelog.rb:97-113 | title i is annotated with the symbols of commit i; titles past the last hash are unchanged; a hash past the last title extends the list |
| GitChangelog.KeyText | lib/fastlane/plugin/mm_toolkit/actions/git_changelog.rb:115-118 | there is a key section iff there are keys, and it starts with two blank lines and `Key:` |
| GitChangelog.CommitSymbols | lib/fastlane/plugin/mm_toolkit/actions/git_changelog.rb:104-109 | the loop over the keys collects exactly the symbols of the matching keys, in key order |
| GitChangelog.Changelog | lib/fastlane/plugin/mm_toolkit/actions/git_changelog.rb:96-123 | no contract of its own: the annotated titles and the key section joined by newlines; BuildChangelog and NoKeysPlainTitles state it |
| GitChangelog.BuildChangelog | lib/fastlane/plugin/mm_toolkit/actions/git_changelog.rb:96-123 | the loop overwriting titles in place, then the key section and the join, gives the changelog specification |
| GitChangelog.NoKeysPlainTitles | lib/fastlane/plugin/mm_toolkit/actions/git_changelog.rb:96-123 | without keys the changelog is the titles rejoined by newlines |
| GitChangelog.Replaced | lib/fastlane/plugin/mm_toolkit/actions/git_changelog.rb:79-82 | no contract of its own: the replace patterns applied in order; ReplacedAppend and ReplacedAbsent state how they compose |
| GitChangelog.ReplacedAppend | lib/fastlane/plugin/mm_toolkit/actions/git_changelog.rb:79-82 | applying two lists of patterns in a row is applying their concatenation |
| GitChangelog.ReplacedAbsent | lib/fastlane/plugin/mm_toolkit/actions/git_changelog.rb:79-82 | patterns that do not occur leave the changelog unchanged |
| GitChangelog.ApplyReplacePatterns | lib/fastlane/plugin/mm_toolkit/actions/git_changelog.rb:79-82 | the loop applies the patterns in order |
| GitChangelog.CollapseOnce | lib/fastlane/plugin/mm_toolkit/actions/git_changelog.rb:76 | the blank-line collapse is a single pass: three newlines become two |
| GitChangelog.Run | lib/fastlane/plugin/mm_toolkit/actions/git_changelog.rb:10-94 | the changelog is built from the logs of the resolved range and filter, then `\n\n` is collapsed, then the patterns are applied |
| TagTrain.Segments | lib/fastlane/plugin/mm_toolkit/actions/tag_train.rb:36 | the empty version has no segments; any other version parses iff every dot-separated field, empty ones included, is one digit or more, and then has one segment per field |
| TagTrain.TrailingDotMalformed | lib/fastlane/plugin/mm_toolkit/actions/tag_train.rb:36 | a version ending in a dot is malformed |
| TagTrain.LeadingDotMalformed | lib/fastlane/plugin/mm_toolkit/actions/tag_train.rb:36 | a version starting with a dot is malformed |
| TagTrain.SegmentsLessIrreflexive | lib/fastlane/plugin/mm_toolkit/actions/tag_train.rb:36 | no version is older than itself |
| TagTrain.VersionLess | lib/fastlane/plugin/mm_toolkit/actions/tag_train.rb:36 | the comparison fails iff either version is malformed, and otherwise compares the numeric segments |
| TagTrain.WeeklyVersion | lib/fastlane/plugin/mm_toolkit/actions/tag_train.rb:95-99 | no contract of its own: `year.week.0`; WeeklySegments states it parses back to year, week and 0 |
| TagTrain.WeeklyFields | lib/fastlane/plugin/mm_toolkit/actions/tag_train.rb:98 | the weekly version splits at its dots into exactly the year, the week and `0` |
| TagTrain.WeeklySegments | lib/fastlane/plugin/mm_toolkit/actions/tag_train.rb:95-99 | the weekly version parses back to year, week and 0 |
| TagTrain.WeeklyOrder | lib/fastlane/plugin/mm_toolkit/actions/tag_train.rb:36-99 | one weekly version is older than another iff its year is smaller, or the year is the same and the week is smaller |
| TagTrain.Run | lib/fastlane/plugin/mm_toolkit/actions/tag_train.rb:15-80 | a tagged HEAD without a new commit keeps its tag; otherwise an older version gets the weekly tag, reporting year and week; otherwise the tag is `v` + the version |
| TagTrain.Analyse | lib/fastlane/plugin/mm_toolkit/actions/tag_train.rb:15-80 | the branch-by-branch reassignment of the reported locals gives that decision |
| TagTrain.OutcomeInvariants | lib/fastlane/plugin/mm_toolkit/actions/tag_train.rb:24-59 | never both HEAD-tagged and new tag; year and week reported iff a new tag; an empty commit iff a new tag and a new commit was asked for |
| TagTrain.SameWeekNoNewTag | lib/fastlane/plugin/mm_toolkit/actions/tag_train.rb:36-59 | a second run in the same week creates no tag |
| TagTrain.EarlierWeekNewTag | lib/fastlane/plugin/mm_toolkit/actions/tag_train.rb:36-41 | a version from an earlier week of the same year gets this week's tag |
| TagTrainHelper.StripV | lib/fastlane/plugin/mm_toolkit/helper/tag_train_helper.rb:15 | the result contains no `v` |
| TagTrainHelper.LatestVersionFromBranch | lib/fastlane/plugin/mm_toolkit/helper/tag_train_helper.rb:6-18 | a failed tag lookup makes the version lookup fail; otherwise the version is the tag without its `v`s |
| TagTrainHelper.Count | lib/fastlane/plugin/mm_toolkit/helper/tag_train_helper.rb:15 | a character count is at most the length, and is zero iff the character is absent |
| TagTrainHelper.StripVLength | lib/fastlane/plugin/mm_toolkit/helper/tag_train_helper.rb:15 | the length drops by the number of `v`s |
| TagTrainHelper.StripVKeeps | lib/fastlane/plugin/mm_toolkit/helper/tag_train_helper.rb:15 | stripping distributes over concatenation, keeps every other character and drops each `v`, so order is kept |
| TagTrainHelper.StripVIdempotent | lib/fastlane/plugin/mm_toolkit/helper/tag_train_helper.rb:15 | stripping twice is stripping once |
| TagTrainHelper.StripLeadingV | lib/fastlane/plugin/mm_toolkit/helper/tag_train_helper.rb:15 | `v1.2.3` gives `1.2.3` |
| SalesAndReportsCollection.Downloads | lib/fastlane/plugin/mm_toolkit/helper/app_store_ax_connector/sales_and_reports_collection.rb:26 | keeps exactly the items of product type `1F`, each as many times as it occurs (equal report lines included), in their input order (a subsequence of the input) |
| SalesAndReportsCollection.Skus | lib/fastlane/plugin/mm_toolkit/helper/app_store_ax_connector/sales_and_reports_collection.rb:26-27 | each SKU of the items appears exactly once, and nothing else appears |
| SalesAndReportsCollection.SkusFirstAppearance | lib/fastlane/plugin/mm_toolkit/helper/app_store_ax_connector/sales_and_reports_collection.rb:26-27 | the SKUs come in order of first appearance: an earlier SKU first appears before any item of a later one |
| SalesAndReportsCollection.Rows | lib/fastlane/plugin/mm_toolkit/helper/app_store_ax_connector/sales_and_reports_collection.rb:23-31 | one row per distinct SKU among the new downloads, each with that SKU's unit sum and the given date |
| SalesAndReportsCollection.NoDownloadsNoRows | lib/fastlane/plugin/mm_toolkit/helper/app_store_ax_connector/sales_and_reports_collection.rb:26-30 | with no `1F` item there are no rows |
| SalesAndReportsCollection.DownloadSku | lib/fastlane/plugin/mm_toolkit/helper/app_store_ax_connector/sales_and_reports_collection.rb:26 | a SKU is among the grouped SKUs of the new downloads iff some `1F` item has it |
| SalesAndReportsCollection.OneRowPerSku | lib/fastlane/plugin/mm_toolkit/helper/app_store_ax_connector/sales_and_reports_collection.rb:26-29 | a SKU has a row iff some new download has it, and no two rows share a SKU |
| SalesAndReportsCollection.UnitsOfAbsent | lib/fastlane/plugin/mm_toolkit/helper/app_store_ax_connector/sales_and_reports_collection.rb:28 | a SKU with no items sums to 0 units |
| SalesAndReportsCollection.SumUnitsAppend | lib/fastlane/plugin/mm_toolkit/helper/app_store_ax_connector/sales_and_reports_collection.rb:28 | one more item adds its units to the sum iff its SKU is counted |
| SalesAndReportsCollection.UnitsOf | lib/fastlane/plugin/mm_toolkit/helper/app_store_ax_connector/sales_and_reports_collection.rb:28 | no contract of its own: the summed units of one SKU's items; UnitsOfAbsent, SumUnitsTotal and Rows state its values |
| SalesAndReportsCollection.SumUnitsTotal | lib/fastlane/plugin/mm_toolkit/helper/app_store_ax_connector/sales_and_reports_collection.rb:26-28 | the per-SKU sums add up to the total of all units |
| SalesAndReportsCollection.RowsConserveUnits | lib/fastlane/plugin/mm_toolkit/helper/app_store_ax_connector/sales_and_reports_collection.rb:26-30 | the rows together hold every unit of the new downloads |

## Left out

- The Redcarpet Markdown parser is a library. The renderer is driven by an
  abstract parse tree, and the parser is a parameter `parse`. The pass-through
  callbacks are the identity.
- HTTP delivery, retries and sleeps in `webex`, `google_chat`, `mattermost` and
  `webex_message` are network I/O and timing.
- GitHub API calls are network I/O. This covers finding a release by tag, the
  edit request, and listing pull requests: the pull requests are an input.
- git shell commands are I/O. Their results are inputs:
  - `git log` (a `GitLog` function parameter);
  - `git diff --name-only` (a `changes` function parameter, whose file list is
    taken as already split, so `chomp` is not modelled);
  - `git describe` (an optional tag);
  - the HEAD tag and the commit count.
- `Date.today` is a clock read. The ISO year and week and the sales row date
  are inputs, and `get_week_data` is assumed to return the same day both times
  `run` calls it.
- `lane_context` writes, UI output and `puts` have no effect on the returned
  values.
- `compose_github_url` is an opaque function parameter, and `working_url?` is a
  URI library call.
- The JSON parse of the notifier's GitHub context is library code. The model
  takes the already-decoded event fields.
- The gzip and TSV decoding of the sales report is library code. The items are
  an input.
- TagTrain.VersionLess: `Gem::Version` is compared only on plain numeric dotted
  versions; prerelease letters and surrounding whitespace are out. An empty
  field, as in `1.` or `.1`, is malformed there as in `Gem::Version`.
- GitChangelog.Replaced: replace patterns are literal strings. Regular
  expression keys and backslash escapes in the replacement are not modelled.
- MrkdwnHelper.IndentListItems: the remembered list is substituted
  literally. Ruby's `gsub` with a string replacement reads `\0`, `\&`, `\\`,
  `` \` ``, `\'` and `\1` to `\9` in it as escapes. A remembered list that
  holds one of these backslash sequences is nested differently by the code.
- MrkdwnHelper.Step: its list item case inherits the literal substitution of
  `IndentListItems`.
- MrkdwnHelper.Mrkdwn.ListItem: inherits the literal substitution of
  `IndentListItems`.
- MrkdwnHelper.NestedListIndented: holds for the code only when the remembered
  list has no backslash escape sequence, as `IndentListItems` explains.
- MrkdwnHelper.ListItemNestsList: same limit as `NestedListIndented`.
- MrkdwnHelper.NestedListRendering: same limit as `NestedListIndented`.
- GitChangelog.KeySymbols: `String#match` against a pattern is the parameter
  `matches`.
- Ruby `downcase` is modelled on ASCII letters only. No other character
  downcases to a letter of a review state name.
- `String#to_i` is modelled in base 10: optional leading whitespace, an
  optional sign, then the leading digits, with single underscores allowed
  between digits.
- `webex_message.rb` spells its glyphs as the UTF-8 bytes of ✅ and 🛑 read as
  Windows-1252 characters. The model uses those literal characters, as the code
  does.
- `success` in `webex_message` defaults to true. This is the caller's value of
  the parameter.
- The notifier's mentions option defaults to the empty string. The model takes
  that string, never nil.
- The `:between` verify block is modelled for an array value, and a string
  value is handled by `ResolveRange`.
- GithubPullRequestNotifier.ReviewHead: the contract states the empty head for
  unknown states and, through `KnownStateMessage`, the common ending of known
  ones. The opening words of each state are given by the body only.
- GithubPullRequestNotifier.OpenedMessage and ClosedMessage are interpolations
  given by their bodies. Their only contracted part is the closed verb.
- GitChangelog.KeyText states the opening of the key section. The list of
  `symbol title` entries joined by `, ` is given by the body only.

## Findings

| source | as written | input that shows it | evidently intended | confidence | as-written member | corrected member |
|---|---|---|---|---|---|---|
| lib/fastlane/plugin/mm_toolkit/actions/github_pull_request_notifier.rb:194 | the block mapping requested teams to mentions reads `reviewer`, a name that is not defined in it | an `opened` pull request event with a requested team, e.g. team slug `ios` | the team's `slug`, mapped through the mentions like a user login | not executed | GithubPullRequestNotifier.RequestedReviewersMentions (used by GithubPullRequestNotifier.OpenedPayload and so by GithubPullRequestNotifier.Run; shown by GithubPullRequestNotifier.TeamRequestRaises and GithubPullRequestNotifier.RunFailsIffUnhandled) | GithubPullRequestNotifier.ReviewersMentions (used by GithubPullRequestNotifier.IntendedOpenedPayload and GithubPullRequestNotifier.IntendedRun; proved by GithubPullRequestNotifier.IntendedRunFailsIffUnhandled) |
