/**
 * `GoogleChatAction.format_message` (actions/google_chat.rb): the status heading
 * and the payload assembled as Markdown, then converted to mrkdwn.
 */
module GoogleChat {
  import opened Wrappers
  import opened RubyText
  import opened MrkdwnHelper
  import Webex

  /** One payload entry: the key in bold, then every line of the value ended by a Markdown line break. */
  function BoldEntry(key: string, value: string): string {
    "**" + key + "**  \n" + ReplaceAll(value, "\n", "  \n") + "  \n"
  }

  function BoldEntries(payload: seq<(string, string)>): string
    decreases |payload|
  {
    if payload == [] then "" else BoldEntry(payload[0].0, payload[0].1) + BoldEntries(payload[1..])
  }

  /** The Markdown `format_message` assembles before converting it; the heading is the Webex one. */
  function ChatMarkdown(message: string, payload: seq<(string, string)>, success: Option<bool>): (r: string)
    ensures StartsWith(r, Webex.StatusPrefix(success) + message)
    ensures payload == [] ==> r == Webex.StatusPrefix(success) + message
    ensures payload != [] ==> r == Webex.StatusPrefix(success) + message + "\n\n\n" + BoldEntries(payload)
  {
    Webex.StatusPrefix(success) + message + (if payload == [] then "" else "\n\n\n") + BoldEntries(payload)
  }

  /**
   * `format_message`: what is returned is the mrkdwn conversion of that Markdown,
   * so it never ends in whitespace.
   */
  function FormatMessage(message: string, payload: seq<(string, string)>, success: Option<bool>,
                         parse: string -> seq<Node>): (r: string)
    ensures r == FormatMrkdwn(ChatMarkdown(message, payload, success), parse)
    ensures |r| == 0 || !IsStripSpace(r[|r| - 1])
  {
    FormatMrkdwn(ChatMarkdown(message, payload, success), parse)
  }

  /** A first line, at least one middle line and a last line, joined. */
  lemma JoinAround(head: string, body: seq<string>, last: string, sep: string)
    requires |body| >= 1
    ensures Join([head] + body + [last], sep) == head + sep + Join(body, sep) + sep + last
  {
    assert ([head] + body)[1..] == body;
    JoinSnoc([head] + body, last, sep);
  }

  /** The value part of an entry is its lines, each before two spaces, joined by newlines. */
  lemma EscapedValueLines(value: string)
    ensures "" + ReplaceAll(value, "\n", "  \n") + "  " == Join(Wrapped(Lines(value), "", "  "), "\n")
  {
    ReplaceNewlinesWrapped(value, "", "  ");
    assert "  " + "\n" + "" == "  \n";
  }

  lemma EntryPieces(key: string, escaped: string)
    ensures "**" + key + "**  \n" + escaped + "  \n" == ("**" + key + "**  ") + "\n" + ("" + escaped + "  ") + "\n" + ""
  {
  }

  /** An entry is its bold key line, the wrapped lines of the value and an empty rest, joined by newlines. */
  lemma BoldEntryJoin(key: string, value: string)
    ensures BoldEntry(key, value) == Join(["**" + key + "**  "] + Wrapped(Lines(value), "", "  ") + [""], "\n")
  {
    var body := Wrapped(Lines(value), "", "  ");
    var escaped := ReplaceAll(value, "\n", "  \n");
    EscapedValueLines(value);
    JoinAround("**" + key + "**  ", body, "", "\n");
    EntryPieces(key, escaped);
  }

  /** The lines of an entry: the bold key, each line of the value before two spaces, and the empty rest. */
  lemma BoldEntryLines(key: string, value: string)
    requires '\n' !in key
    ensures Lines(BoldEntry(key, value)) == ["**" + key + "**  "] + Wrapped(Lines(value), "", "  ") + [""]
  {
    var head := "**" + key + "**  ";
    var ls := [head] + Wrapped(Lines(value), "", "  ") + [""];
    BoldEntryJoin(key, value);
    SplitAllFields(value, '\n');
    forall i | 0 <= i < |ls| ensures '\n' !in ls[i] {
      if 1 <= i < |ls| - 1 {
        assert ls[i] == "" + Lines(value)[i - 1] + "  ";
      }
    }
    SplitAllJoin(ls, '\n');
  }
}
