/**
 * `WebexMessageAction.generate_webex_markdown` (actions/webex_message.rb): the
 * same block-quoted payload as the Webex action under a different heading.
 *
 * The two status glyphs are written in the source file as the UTF-8 bytes of the
 * check mark and of the stop sign read as Windows-1252 text; the model keeps the
 * characters the file actually holds.
 */
module WebexMessage {
  import opened Wrappers
  import opened RubyText
  import Webex

  /** "âœ…": the check mark's bytes E2 9C 85 read as Windows-1252. */
  const CheckGlyph: string := "\U{E2}\U{153}\U{2026}"

  /** "ðŸ›‘": the stop sign's bytes F0 9F 9B 91 read as Windows-1252. */
  const StopGlyph: string := "\U{F0}\U{178}\U{203A}\U{2018}"

  /** A truthy success gets the check mark; false and nil both get the stop sign. */
  function Glyph(success: Option<bool>): (r: string)
    ensures r == CheckGlyph <==> success == Some(true)
    ensures r == StopGlyph <==> success != Some(true)
  {
    if success == Some(true) then CheckGlyph else StopGlyph
  }

  /**
   * `generate_webex_markdown`: with `message_apply_format` the message is headed
   * by `## `, the glyph and a space; the rest is laid out exactly as the Webex
   * action lays out a message with no status.
   */
  function GenerateWebexMarkdown(message: string, payload: seq<(string, string)>, success: Option<bool>,
                                 applyFormat: bool): (r: string)
    ensures applyFormat ==> r == "## " + Glyph(success) + " " + Webex.FormatMessage(message, payload, None)
    ensures !applyFormat ==> r == Webex.FormatMessage(message, payload, None)
    ensures payload == [] ==> r == (if applyFormat then "## " + Glyph(success) + " " else "") + message
  {
    var head := if applyFormat then "## " + Glyph(success) + " " + message else message;
    var separator := if payload == [] then "" else "\n\n";
    var entries := Webex.QuotedEntries(payload);
    assert Webex.StatusPrefix(None) == [];
    assert Webex.FormatMessage(message, payload, None) == message + separator + entries;
    assert payload == [] ==> entries == [] && head + separator + entries == head;
    head + separator + entries
  }
}
