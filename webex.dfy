/**
 * `WebexAction.format_message` (actions/webex.rb): the Markdown sent to a Webex
 * space, a status heading followed by the payload as block quotes.
 */
module Webex {
  import opened Wrappers
  import opened RubyText

  /** The heading for a build status: none when unknown, a check mark or a stop sign otherwise. */
  function StatusPrefix(success: Option<bool>): (r: string)
    ensures success.None? <==> r == ""
    ensures success == Some(true) ==> r == "## \U{2705} "
    ensures success == Some(false) ==> r == "## \U{1F6D1} "
  {
    match success
    case None => ""
    case Some(true) => "## \U{2705} "
    case Some(false) => "## \U{1F6D1} "
  }

  /** One payload entry as a block quote: the key in bold, then the value, every line quoted. */
  function QuotedEntry(key: string, value: string): string {
    ">**" + key + "**  \n>" + ReplaceAll(value, "\n", "  \n>") + "  \n"
  }

  function QuotedEntries(payload: seq<(string, string)>): string
    decreases |payload|
  {
    if payload == [] then "" else QuotedEntry(payload[0].0, payload[0].1) + QuotedEntries(payload[1..])
  }

  /** `format_message`: the payload keeps its order. */
  function FormatMessage(message: string, payload: seq<(string, string)>, success: Option<bool>): (r: string)
    ensures StartsWith(r, StatusPrefix(success) + message)
    ensures payload == [] ==> r == StatusPrefix(success) + message
    ensures payload != [] ==> r == StatusPrefix(success) + message + "\n\n" + QuotedEntries(payload)
  {
    StatusPrefix(success) + message + (if payload == [] then "" else "\n\n") + QuotedEntries(payload)
  }

  /**
   * The lines of a quoted entry: the bold key, each line of the value behind `>`
   * and before two spaces (a Markdown line break), and the empty rest after the
   * final newline.
   */
  lemma QuotedEntryLines(key: string, value: string)
    requires '\n' !in key
    ensures Lines(QuotedEntry(key, value)) ==
      [">**" + key + "**  "] + Wrapped(Lines(value), ">", "  ") + [""]
  {
    var head := ">**" + key + "**  ";
    var body := Wrapped(Lines(value), ">", "  ");
    ReplaceNewlinesWrapped(value, ">", "  ");
    assert "  " + "\n" + ">" == "  \n>";
    var mid := ">" + ReplaceAll(value, "\n", "  \n>") + "  ";
    assert mid == Join(body, "\n");
    assert QuotedEntry(key, value) == head + "\n" + mid + "\n";
    var ls := [head] + body + [""];
    JoinSnoc([head] + body, "", "\n");
    assert ([head] + body)[1..] == body;
    assert |body| >= 1;
    assert Join([head] + body, "\n") == head + "\n" + Join(body, "\n");
    SplitAllFields(value, '\n');
    forall i | 0 <= i < |ls| ensures '\n' !in ls[i] {
      if 1 <= i < |ls| - 1 {
        assert ls[i] == ">" + Lines(value)[i - 1] + "  ";
      }
    }
    assert Join(ls, "\n") == head + "\n" + Join(body, "\n") + "\n" + "";
    assert Join(ls, "\n") == QuotedEntry(key, value);
    SplitAllJoin(ls, '\n');
  }
}
