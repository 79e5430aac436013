/**
 * The Markdown-to-mrkdwn renderer (helper/mrkdwn_helper.rb): an escaping pass over
 * the raw text, one callback per Markdown construct fed by the parser in post order,
 * a line-anchored list formatter, and a final `rstrip`.
 *
 * The Markdown parser itself is not modelled: a parse is a tree of `Node`s whose
 * leaves are callbacks with raw arguments and whose inner nodes are callbacks whose
 * content argument is the concatenation of their children's fragments.
 */
module MrkdwnHelper {
  import opened Wrappers
  import opened RubyText

  // ---------------------------------------------------------------------------
  // The escaping pre-pass (`preprocess`)
  // ---------------------------------------------------------------------------

  /** `gsub("&", "&amp;")`. */
  function EscapeAmpersands(s: string): string {
    ReplaceAll(s, "&", "&amp;")
  }

  /**
   * `tok[i..j + 1]` is a match of `<([@!]|users).+>`: an opening bracket, `@`, `!`
   * or `users`, at least one character other than a newline, and a closing bracket.
   */
  predicate MentionAt(tok: string, i: int, j: int) {
    0 <= i < j < |tok| && tok[i] == '<' && tok[j] == '>' &&
    ((i + 3 <= j && (tok[i + 1] == '@' || tok[i + 1] == '!') && '\n' !in tok[i + 2..j]) ||
     (i + 7 <= j && tok[i + 1..i + 6] == "users" && '\n' !in tok[i + 6..j]))
  }

  /** `/<([@!]|users).+>/.match?(tok)`: a user or group mention somewhere in the token. */
  predicate IsMention(tok: string) {
    exists i, j | 0 <= i < j < |tok| :: MentionAt(tok, i, j)
  }

  /** `gsub("<", "&lt;").gsub(">", "&gt;")`. */
  function EscapeBrackets(tok: string): string {
    ReplaceAll(ReplaceAll(tok, "<", "&lt;"), ">", "&gt;")
  }

  /** A mention keeps its brackets; any other token comes out with none. */
  function EscapeToken(tok: string): (r: string)
    ensures IsMention(tok) ==> r == tok
    ensures !IsMention(tok) ==> '<' !in r && '>' !in r
  {
    if IsMention(tok) then tok
    else
      ReplaceAllChar(tok, '<', "&lt;");
      ReplaceAllChar(ReplaceAll(tok, "<", "&lt;"), '>', "&gt;");
      ReplaceCharAbsent(tok, '<', "&lt;", '<');
      ReplaceCharAbsent(ReplaceChar(tok, '<', "&lt;"), '>', "&gt;", '<');
      ReplaceCharAbsent(ReplaceChar(tok, '<', "&lt;"), '>', "&gt;", '>');
      EscapeBrackets(tok)
  }

  function EscapeTokens(ts: seq<string>): (r: seq<string>)
    ensures |r| == |ts|
    ensures forall i | 0 <= i < |ts| :: r[i] == EscapeToken(ts[i])
    decreases |ts|
  {
    if ts == [] then [] else [EscapeToken(ts[0])] + EscapeTokens(ts[1..])
  }

  /** `preprocess`: escape `&`, split on single spaces, escape the non-mention tokens, rejoin. */
  function Preprocess(content: string): string {
    Join(EscapeTokens(Split(EscapeAmpersands(content), ' ')), " ")
  }

  // ---------------------------------------------------------------------------
  // The reading of the escapes, the partner of `Preprocess`
  // ---------------------------------------------------------------------------

  /** The character the text starts with, once read back, and how many characters it took. */
  function Entity(s: string): (r: (char, nat))
    requires s != []
    ensures 1 <= r.1 <= |s|
  {
    if "&amp;" <= s then ('&', 5)
    else if "&lt;" <= s then ('<', 4)
    else if "&gt;" <= s then ('>', 4)
    else (s[0], 1)
  }

  /** How a receiving client reads the three entities back. */
  function Unescape(s: string): string
    decreases |s|
  {
    if s == [] then [] else [Entity(s).0] + Unescape(s[Entity(s).1..])
  }

  /** The entity a character is written as when it is escaped. */
  function HtmlChar(c: char): string {
    if c == '&' then "&amp;" else if c == '<' then "&lt;" else if c == '>' then "&gt;" else [c]
  }

  function HtmlEscape(s: string): string
    decreases |s|
  {
    if s == [] then [] else HtmlChar(s[0]) + HtmlEscape(s[1..])
  }

  lemma UnescapeLead(c: char, rest: string)
    ensures Unescape(HtmlChar(c) + rest) == [c] + Unescape(rest)
  {
    var s := HtmlChar(c) + rest;
    if c == '&' {
      assert "&amp;" <= s && s[5..] == rest;
    } else if c == '<' {
      assert !("&amp;" <= s) by { assert s[1] == 'l'; }
      assert "&lt;" <= s && s[4..] == rest;
    } else if c == '>' {
      assert !("&amp;" <= s) by { assert s[1] == 'g'; }
      assert !("&lt;" <= s) by { assert s[1] == 'g'; }
      assert "&gt;" <= s && s[4..] == rest;
    } else {
      assert s[0] == c && s[1..] == rest;
    }
  }

  /** Reading back the full escape gives the text. */
  lemma {:induction false} UnescapeHtmlEscape(s: string)
    ensures Unescape(HtmlEscape(s)) == s
    decreases |s|
  {
    if s != [] {
      UnescapeHtmlEscape(s[1..]);
      UnescapeLead(s[0], HtmlEscape(s[1..]));
    }
  }

  /** Reading back the ampersand escape alone gives the text: raw brackets are read as themselves. */
  lemma {:induction false} UnescapeAmpersands(s: string)
    ensures Unescape(ReplaceChar(s, '&', "&amp;")) == s
    decreases |s|
  {
    if s != [] {
      UnescapeAmpersands(s[1..]);
      var rest := ReplaceChar(s[1..], '&', "&amp;");
      var t := ReplaceChar(s, '&', "&amp;");
      if s[0] == '&' {
        assert t == "&amp;" + rest;
        assert "&amp;" <= t && t[5..] == rest;
      } else {
        assert t == [s[0]] + rest;
        assert t[0] == s[0] && t[1..] == rest;
      }
    }
  }

  lemma EscapeBracketsChar(c: char)
    ensures ReplaceChar(ReplaceChar(if c == '&' then "&amp;" else [c], '<', "&lt;"), '>', "&gt;") == HtmlChar(c)
  {
    if c == '&' {
      ReplaceCharKeeps("&amp;", '<', "&lt;");
      ReplaceCharKeeps("&amp;", '>', "&gt;");
    } else {
      var once := ReplaceChar([c], '<', "&lt;");
      assert [c][1..] == [];
      assert once == (if c == '<' then "&lt;" else [c]) + ReplaceChar([], '<', "&lt;");
      if c == '<' {
        assert once == "&lt;";
        ReplaceCharKeeps("&lt;", '>', "&gt;");
      } else {
        assert once == [c];
        assert ReplaceChar([c], '>', "&gt;") == (if c == '>' then "&gt;" else [c]) + ReplaceChar([], '>', "&gt;");
      }
    }
  }

  /** Escaping ampersands first and brackets second is the full escape, with no entity escaped twice. */
  lemma {:induction false} EscapeBracketsAmpersands(s: string)
    ensures EscapeBrackets(EscapeAmpersands(s)) == HtmlEscape(s)
    decreases |s|
  {
    ReplaceAllChar(s, '&', "&amp;");
    var a := ReplaceChar(s, '&', "&amp;");
    ReplaceAllChar(a, '<', "&lt;");
    ReplaceAllChar(ReplaceChar(a, '<', "&lt;"), '>', "&gt;");
    EscapeChain(s);
  }

  lemma {:induction false} EscapeChain(s: string)
    ensures ReplaceChar(ReplaceChar(ReplaceChar(s, '&', "&amp;"), '<', "&lt;"), '>', "&gt;") == HtmlEscape(s)
    decreases |s|
  {
    if s != [] {
      EscapeChain(s[1..]);
      var f := if s[0] == '&' then "&amp;" else [s[0]];
      var rest := ReplaceChar(s[1..], '&', "&amp;");
      assert ReplaceChar(s, '&', "&amp;") == f + rest;
      ReplaceCharAppend(f, rest, '<', "&lt;");
      ReplaceCharAppend(ReplaceChar(f, '<', "&lt;"), ReplaceChar(rest, '<', "&lt;"), '>', "&gt;");
      EscapeBracketsChar(s[0]);
    }
  }

  /** Every token reads back as itself, whether it was a mention or not. */
  lemma EscapeTokenRoundTrip(t: string)
    ensures Unescape(EscapeToken(EscapeAmpersands(t))) == t
  {
    ReplaceAllChar(t, '&', "&amp;");
    var a := EscapeAmpersands(t);
    if IsMention(a) {
      UnescapeAmpersands(t);
    } else {
      EscapeBracketsAmpersands(t);
      UnescapeHtmlEscape(t);
    }
  }

  /** No entity spans a space, so reading back distributes over a space. */
  lemma UnescapeSpace(a: string, b: string)
    ensures Unescape(a + " " + b) == Unescape(a) + " " + Unescape(b)
  {
    var s := " " + b;
    assert a + " " + b == a + s;
    UnescapeBeforeSpace(a, s);
    UnescapeLeadingSpace(b);
    var u := Unescape(b);
    assert Unescape(a) + (" " + u) == Unescape(a) + " " + u;
  }

  lemma UnescapeLeadingSpace(b: string)
    ensures Unescape(" " + b) == " " + Unescape(b)
  {
    var s := " " + b;
    assert s[0] == ' ' && s[1..] == b;
    UnescapePlainLead(s);
  }

  /** A text that does not start with an ampersand reads back its first character as is. */
  lemma UnescapePlainLead(s: string)
    requires s != [] && s[0] != '&'
    ensures Unescape(s) == [s[0]] + Unescape(s[1..])
  {
    assert Entity(s) == (s[0], 1);
  }

  /** A text followed by something that starts with a space reads back piece by piece. */
  lemma {:induction false} UnescapeBeforeSpace(a: string, b: string)
    requires b != [] && b[0] == ' '
    ensures Unescape(a + b) == Unescape(a) + Unescape(b)
    decreases |a|
  {
    var s := a + b;
    if a == [] {
      assert s == b;
    } else {
      EntityBeforeSpace(a, b);
      var n := Entity(a).1;
      assert s[n..] == a[n..] + b;
      UnescapeBeforeSpace(a[n..], b);
    }
  }

  lemma EntityBeforeSpace(a: string, b: string)
    requires a != [] && b != [] && b[0] == ' '
    ensures Entity(a + b) == Entity(a)
  {
    EntityPrefix(a, b, "&amp;");
    EntityPrefix(a, b, "&lt;");
    EntityPrefix(a, b, "&gt;");
    assert (a + b)[0] == a[0];
  }

  /** An entity (no space inside) that begins a text followed by a space lies within the text. */
  lemma EntityPrefix(a: string, b: string, e: string)
    requires b != [] && b[0] == ' '
    requires ' ' !in e
    ensures e <= a + b <==> e <= a
  {
    if |e| > |a| {
      assert e[|a|] in e;
      assert (a + b)[|a|] == ' ';
    } else {
      assert (a + b)[..|e|] == a[..|e|];
    }
  }

  lemma {:induction false} UnescapeJoin(outs: seq<string>, ts: seq<string>)
    requires |outs| == |ts|
    requires forall i | 0 <= i < |ts| :: Unescape(outs[i]) == ts[i]
    ensures Unescape(Join(outs, " ")) == Join(ts, " ")
    decreases |outs|
  {
    if |outs| > 1 {
      UnescapeJoin(outs[1..], ts[1..]);
      UnescapeSpace(outs[0], Join(outs[1..], " "));
    }
  }

  /**
   * `preprocess` loses nothing but the trailing spaces of the text: reading its
   * entities back gives the input with those spaces trimmed, mentions or not.
   */
  lemma PreprocessRoundTrip(s: string)
    ensures Unescape(Preprocess(s)) == TrimTrailing(s, ' ')
  {
    ReplaceAllChar(s, '&', "&amp;");
    SplitReplaceChar(s, '&', "&amp;", ' ');
    var ts := Split(s, ' ');
    var es := ReplaceCharEach(ts, '&', "&amp;");
    var outs := EscapeTokens(es);
    forall i | 0 <= i < |ts| ensures Unescape(outs[i]) == ts[i] {
      ReplaceAllChar(ts[i], '&', "&amp;");
      EscapeTokenRoundTrip(ts[i]);
    }
    UnescapeJoin(outs, ts);
    JoinSplit(s, ' ');
  }

  /** A text with no space is a single token. */
  lemma SingleToken(t: string)
    requires t != [] && ' ' !in t
    ensures Preprocess(t) == EscapeToken(EscapeAmpersands(t))
  {
    ReplaceAllChar(t, '&', "&amp;");
    var a := EscapeAmpersands(t);
    ReplaceCharAbsent(t, '&', "&amp;", ' ');
    SplitAllPrefix(a, "", ' ');
    assert a + "" == a;
    assert SplitAll(a, ' ') == [a];
    assert a != [] by { ReplaceCharEmpty(t, '&', "&amp;"); }
    assert Split(a, ' ') == [a];
    assert EscapeTokens([a]) == [EscapeToken(a)];
  }

  /** A space-free token that is no mention comes out fully escaped. */
  lemma PreprocessPlainToken(t: string)
    requires t != [] && ' ' !in t
    requires !IsMention(EscapeAmpersands(t))
    ensures Preprocess(t) == HtmlEscape(t)
  {
    SingleToken(t);
    EscapeBracketsAmpersands(t);
  }

  /** A space-free mention without ampersands comes out untouched. */
  lemma PreprocessMentionToken(t: string)
    requires t != [] && ' ' !in t && '&' !in t
    requires IsMention(t)
    ensures Preprocess(t) == t
  {
    SingleToken(t);
    ReplaceAllChar(t, '&', "&amp;");
    ReplaceCharKeeps(t, '&', "&amp;");
  }

  /** A text with no character to escape is its own escape. */
  lemma {:induction false} HtmlEscapePlain(s: string)
    requires '&' !in s && '<' !in s && '>' !in s
    ensures HtmlEscape(s) == s
    decreases |s|
  {
    if s != [] {
      var c := s[0];
      assert c != '&' && c != '<' && c != '>' by { assert c in s; }
      assert HtmlChar(c) == [c];
      HtmlEscapePlain(s[1..]);
      assert HtmlEscape(s) == [c] + s[1..];
    }
  }

  /** A leading ampersand before plain text is the only thing either escape changes. */
  lemma LeadingAmpersandEscaped(rest: string)
    requires '&' !in rest && '<' !in rest && '>' !in rest
    ensures EscapeAmpersands("&" + rest) == "&amp;" + rest && HtmlEscape("&" + rest) == "&amp;" + rest
  {
    var t := "&" + rest;
    assert t[0] == '&' && t[1..] == rest;
    HtmlEscapePlain(rest);
    ReplaceAllChar(t, '&', "&amp;");
    ReplaceCharKeeps(rest, '&', "&amp;");
  }

  lemma EntityEscapedAgain(t: string)
    requires t == "&amp;"
    ensures EscapeAmpersands(t) == "&amp;amp;" && HtmlEscape(t) == "&amp;amp;"
  {
    var rest := "amp;";
    assert t == "&" + rest;
    assert "&amp;" + rest == "&amp;amp;";
    LeadingAmpersandEscaped(rest);
  }

  lemma NoBracketNoMention(a: string)
    requires '<' !in a
    ensures !IsMention(a)
  {
    forall i, j | 0 <= i < j < |a| ensures !MentionAt(a, i, j) {
      assert a[i] in a;
    }
  }

  /** An existing entity is escaped again: `preprocess` is not idempotent. */
  lemma PreprocessNotIdempotent()
    ensures Preprocess("&amp;") == "&amp;amp;"
  {
    EntityEscapedAgain("&amp;");
    NoBracketNoMention("&amp;amp;");
    PreprocessPlainToken("&amp;");
  }

  /** A Slack user mention passes through untouched. */
  lemma PreprocessKeepsMention()
    ensures Preprocess("<@U123>") == "<@U123>"
  {
    assert MentionAt("<@U123>", 0, 6);
    PreprocessMentionToken("<@U123>");
  }

  // ---------------------------------------------------------------------------
  // The line-anchored list formatter
  // ---------------------------------------------------------------------------

  datatype ListStyle = Ordered | Unordered

  /** A line `^(\S+.*)$` matches: it starts with a character outside `\s`. */
  predicate IsItemLine(line: string) {
    |line| > 0 && !IsSpace(line[0])
  }

  /** Lines joined by newlines split back into the same lines when none holds a newline. */
  lemma LinesUnlines(ls: seq<string>)
    requires |ls| >= 1
    requires forall i | 0 <= i < |ls| :: '\n' !in ls[i]
    ensures Lines(Unlines(ls)) == ls
  {
    SplitAllJoin(ls, '\n');
  }

  lemma LinesHaveNoNewline(s: string)
    ensures forall i | 0 <= i < |Lines(s)| :: '\n' !in Lines(s)[i]
  {
    SplitAllFields(s, '\n');
  }

  /** `add_dashes`: `gsub(/^(\S+.*)$/, '- \1')`. */
  function AddDashes(entries: string): (r: string)
    ensures |Lines(r)| == |Lines(entries)|
    ensures forall i | 0 <= i < |Lines(entries)| ::
      Lines(r)[i] == (if IsItemLine(Lines(entries)[i]) then "- " + Lines(entries)[i] else Lines(entries)[i])
  {
    var ls := Lines(entries);
    var out := seq(|ls|, i requires 0 <= i < |ls| => if IsItemLine(ls[i]) then "- " + ls[i] else ls[i]);
    LinesHaveNoNewline(entries);
    assert forall i | 0 <= i < |out| :: '\n' !in out[i] by {
      forall i | 0 <= i < |out| ensures '\n' !in out[i] {
        assert '\n' !in ls[i];
        if IsItemLine(ls[i]) {
          assert out[i] == "- " + ls[i];
        }
      }
    }
    LinesUnlines(out);
    Unlines(out)
  }

  /** How many of the lines are list items. */
  function ItemCount(ls: seq<string>): (n: nat)
    ensures n <= |ls|
    decreases |ls|
  {
    if ls == [] then 0
    else ItemCount(ls[..|ls| - 1]) + (if IsItemLine(ls[|ls| - 1]) then 1 else 0)
  }

  /** Line `i` of an ordered list: an item gets one more than the number of items above it. */
  function NumberedLine(ls: seq<string>, i: nat): string
    requires i < |ls|
  {
    if IsItemLine(ls[i]) then Decimal(ItemCount(ls[..i]) + 1) + ". " + ls[i] else ls[i]
  }

  /** `number_list`, the text it produces: each item line numbered in order. */
  function NumberedList(entries: string): (r: string)
    ensures |Lines(r)| == |Lines(entries)|
    ensures forall i | 0 <= i < |Lines(entries)| :: Lines(r)[i] == NumberedLine(Lines(entries), i)
  {
    var ls := Lines(entries);
    var out := seq(|ls|, i requires 0 <= i < |ls| => NumberedLine(ls, i));
    LinesHaveNoNewline(entries);
    assert forall i | 0 <= i < |out| :: '\n' !in out[i] by {
      forall i | 0 <= i < |out| ensures '\n' !in out[i] {
        assert '\n' !in ls[i];
        if IsItemLine(ls[i]) {
          var d := Decimal(ItemCount(ls[..i]) + 1);
          assert forall k | 0 <= k < |d| :: IsDigit(d[k]);
          assert out[i] == d + ". " + ls[i];
        }
      }
    }
    LinesUnlines(out);
    Unlines(out)
  }

  lemma {:induction false} ItemCountPrefix(ls: seq<string>, i: nat, j: nat)
    requires i <= j <= |ls|
    ensures ItemCount(ls[..i]) <= ItemCount(ls[..j])
    ensures i < j && IsItemLine(ls[i]) ==> ItemCount(ls[..i]) < ItemCount(ls[..j])
    decreases j
  {
    if i < j {
      ItemCountPrefix(ls, i, j - 1);
      assert ls[..j][..j - 1] == ls[..j - 1];
      if i == j - 1 {
        assert ls[..j][j - 1] == ls[i];
      }
    }
  }

  /** Some item line of `ls` is numbered `k`. */
  predicate NumberUsed(ls: seq<string>, k: int) {
    exists i | 0 <= i < |ls| :: IsItemLine(ls[i]) && ItemCount(ls[..i]) + 1 == k
  }

  /** Every number from 1 to the item count is given to some item line. */
  lemma {:induction false} NumbersAllUsed(ls: seq<string>)
    ensures forall k | 1 <= k <= ItemCount(ls) :: NumberUsed(ls, k)
    decreases |ls|
  {
    if ls != [] {
      var n := |ls|;
      var init := ls[..n - 1];
      NumbersAllUsed(init);
      assert ItemCount(ls) == ItemCount(init) + (if IsItemLine(ls[n - 1]) then 1 else 0);
      forall k | 1 <= k <= ItemCount(ls) ensures NumberUsed(ls, k) {
        if k <= ItemCount(init) {
          assert NumberUsed(init, k);
          var i :| 0 <= i < |init| && IsItemLine(init[i]) && ItemCount(init[..i]) + 1 == k;
          assert init[..i] == ls[..i];
          assert ls[i] == init[i];
        } else {
          assert IsItemLine(ls[n - 1]) && ItemCount(ls[..n - 1]) + 1 == k;
        }
      }
    }
  }

  /**
   * The numbers of an ordered list are consecutive: item lines get strictly
   * increasing numbers, all between 1 and the number of items, and each of
   * those numbers is used.
   */
  lemma NumberingConsecutive(ls: seq<string>)
    ensures forall i, j | 0 <= i < j < |ls| && IsItemLine(ls[i]) && IsItemLine(ls[j]) ::
      ItemCount(ls[..i]) + 1 < ItemCount(ls[..j]) + 1
    ensures forall i | 0 <= i < |ls| && IsItemLine(ls[i]) :: 1 <= ItemCount(ls[..i]) + 1 <= ItemCount(ls)
    ensures forall k | 1 <= k <= ItemCount(ls) :: NumberUsed(ls, k)
  {
    forall i, j | 0 <= i < j < |ls| && IsItemLine(ls[i]) && IsItemLine(ls[j])
      ensures ItemCount(ls[..i]) + 1 < ItemCount(ls[..j]) + 1
    {
      ItemCountPrefix(ls, i, j);
    }
    forall i | 0 <= i < |ls| && IsItemLine(ls[i]) ensures ItemCount(ls[..i]) + 1 <= ItemCount(ls) {
      ItemCountPrefix(ls, i, |ls|);
      assert ls[..|ls|] == ls;
    }
    NumbersAllUsed(ls);
  }


  /** `nest_list_entries`: `gsub(/^(.+)$/, '   \1')`. */
  function NestListEntries(entries: string): (r: string)
    ensures |Lines(r)| == |Lines(entries)|
    ensures forall i | 0 <= i < |Lines(entries)| ::
      Lines(r)[i] == (if Lines(entries)[i] != "" then "   " + Lines(entries)[i] else "")
  {
    var ls := Lines(entries);
    var out := seq(|ls|, i requires 0 <= i < |ls| => if ls[i] != "" then "   " + ls[i] else "");
    LinesHaveNoNewline(entries);
    assert forall i | 0 <= i < |out| :: '\n' !in out[i] by {
      forall i | 0 <= i < |out| ensures '\n' !in out[i] {
        assert '\n' !in ls[i];
        if ls[i] != "" {
          assert out[i] == "   " + ls[i];
        }
      }
    }
    LinesUnlines(out);
    Unlines(out)
  }

  /** `format_list`: numbers for ordered lists, dashes for unordered ones. */
  function FormatList(entries: string, style: ListStyle): string {
    match style
    case Ordered => NumberedList(entries)
    case Unordered => AddDashes(entries)
  }

  /** `indent_list_items`: every occurrence of the remembered list, nested, by a literal gsub. */
  function IndentListItems(entry: string, last: string): string {
    ReplaceAll(entry, last, NestListEntries(last))
  }

  /**
   * A list item whose text ends with the remembered list, and holds no earlier
   * occurrence of it, is its own text with that list nested under it.
   */
  lemma NestedListIndented(x: string, last: string)
    requires last != []
    requires forall i | 0 <= i < |x| :: !OccursAt(x + last, last, i)
    ensures IndentListItems(x + last, last) == x + NestListEntries(last)
  {
    ReplaceAllFinal(x, last, NestListEntries(last));
  }

  // ---------------------------------------------------------------------------
  // The callbacks
  // ---------------------------------------------------------------------------

  /**
   * One call the parser makes on the renderer, with its arguments. `Verbatim` is
   * any of the callbacks that return their first argument unchanged (tables,
   * footnotes, raw HTML, autolinks, normal text, ...).
   */
  datatype Event =
    | Verbatim(first: string)
    | Strikethrough(content: string)
    | Underline(content: string)
    | Emphasis(content: string)
    | DoubleEmphasis(content: string)
    | TripleEmphasis(content: string)
    | BlockCode(code: string, language: string)
    | BlockQuote(content: string)
    | Codespan(code: string)
    | Link(link: string, title: string, content: string)
    | ListBlock(entries: string, style: ListStyle)
    | ListItem(entry: string, style: ListStyle)
    | Image(link: string, title: string, alt: string)
    | Paragraph(text: string)
    | Header(text: string, level: int)
    | Linebreak

  /** The fragment a callback returns and the remembered list after it. */
  function Step(last: Option<string>, e: Event): (string, Option<string>) {
    match e
    case Verbatim(first) => (first, last)
    case Strikethrough(c) => ("~" + c + "~", last)
    case Underline(c) => ("_" + c + "_", last)
    case Emphasis(c) => ("_" + c + "_", last)
    case DoubleEmphasis(c) => ("*" + c + "*", last)
    case TripleEmphasis(c) => ("*_" + c + "_*", last)
    case BlockCode(code, _) => ("```\n" + code + "```\n\n", last)
    case BlockQuote(c) => ("&gt; " + c, last)
    case Codespan(code) => ("`" + code + "`", last)
    case Link(link, _, c) => ("<" + link + "|" + c + ">", last)
    case ListBlock(entries, style) =>
      var f := FormatList(entries, style);
      (f, Some(f))
    case ListItem(entry, _) =>
      if last.Some? && EndsWith(entry, last.value) then (IndentListItems(entry, last.value), None)
      else (entry, last)
    case Image(link, _, _) => (link, last)
    case Paragraph(text) => ((if last.Some? then "\n" else "") + text + "\n\n", None)
    case Header(text, _) => ("*" + text + "*\n", last)
    case Linebreak => ("\n", last)
  }

  /** Only `list`, `list_item` and `paragraph` touch the remembered list. */
  lemma OnlyListsAndParagraphsTouchState(last: Option<string>, e: Event)
    requires !e.ListBlock? && !e.ListItem? && !e.Paragraph?
    ensures Step(last, e).1 == last
  {
  }

  /** After a paragraph no list is remembered, and the paragraph is set apart from a list before it. */
  lemma ParagraphClears(last: Option<string>, text: string)
    ensures Step(last, Paragraph(text)).1 == None
    ensures Step(last, Paragraph(text)).0 == (if last.Some? then "\n" + text + "\n\n" else text + "\n\n")
  {
  }

  /**
   * A list item holding the list rendered just before it, at its end and nowhere
   * earlier, gets that list nested under its own text, and the list is forgotten.
   */
  lemma ListItemNestsList(x: string, last: string, style: ListStyle)
    requires last != []
    requires forall i | 0 <= i < |x| :: !OccursAt(x + last, last, i)
    ensures Step(Some(last), ListItem(x + last, style)) == (x + NestListEntries(last), None)
  {
    assert (x + last)[|x + last| - |last|..] == last;
    NestedListIndented(x, last);
  }

  /** A list item that does not end with the remembered list is returned as it is. */
  lemma ListItemKeeps(last: Option<string>, entry: string, style: ListStyle)
    requires last.None? || !EndsWith(entry, last.value)
    ensures Step(last, ListItem(entry, style)) == (entry, last)
  {
  }

  /** The renderer: one method per callback, and the list the last `list` call produced. */
  class Mrkdwn {
    var lastEntries: Option<string>

    constructor ()
      ensures lastEntries == None
    {
      lastEntries := None;
    }

    method Strikethrough(content: string) returns (r: string)
      ensures r == "~" + content + "~"
    {
      r := "~" + content + "~";
    }

    method Underline(content: string) returns (r: string)
      ensures r == "_" + content + "_"
    {
      r := "_" + content + "_";
    }

    method Emphasis(content: string) returns (r: string)
      ensures r == "_" + content + "_"
    {
      r := "_" + content + "_";
    }

    method DoubleEmphasis(content: string) returns (r: string)
      ensures r == "*" + content + "*"
    {
      r := "*" + content + "*";
    }

    method TripleEmphasis(content: string) returns (r: string)
      ensures r == "*_" + content + "_*"
    {
      r := "*_" + content + "_*";
    }

    method BlockCode(content: string, language: string) returns (r: string)
      ensures r == "```\n" + content + "```\n\n"
    {
      r := "```\n" + content + "```\n\n";
    }

    method BlockQuote(content: string) returns (r: string)
      ensures r == "&gt; " + content
    {
      r := "&gt; " + content;
    }

    method Codespan(content: string) returns (r: string)
      ensures r == "`" + content + "`"
    {
      r := "`" + content + "`";
    }

    method Link(link: string, title: string, content: string) returns (r: string)
      ensures r == "<" + link + "|" + content + ">"
    {
      r := "<" + link + "|" + content + ">";
    }

    /** `list`: the formatted entries, which are also remembered. */
    method List(entries: string, style: ListStyle) returns (r: string)
      modifies this
      ensures r == FormatList(entries, style)
      ensures lastEntries == Some(r)
    {
      match style {
        case Ordered => r := NumberList(entries);
        case Unordered => r := AddDashes(entries);
      }
      lastEntries := Some(r);
    }

    /** `list_item`: nests the remembered list when the entry ends with it. */
    method ListItem(entry: string, style: ListStyle) returns (r: string)
      modifies this
      ensures old(lastEntries).Some? && EndsWith(entry, old(lastEntries).value) ==>
        r == IndentListItems(entry, old(lastEntries).value) && lastEntries == None
      ensures !(old(lastEntries).Some? && EndsWith(entry, old(lastEntries).value)) ==>
        r == entry && lastEntries == old(lastEntries)
    {
      r := entry;
      if lastEntries.Some? && EndsWith(entry, lastEntries.value) {
        r := IndentListItems(entry, lastEntries.value);
        lastEntries := None;
      }
    }

    method Image(link: string, title: string, content: string) returns (r: string)
      ensures r == link
    {
      r := link;
    }

    /** `paragraph`: set apart from a list just before it; forgets the list. */
    method Paragraph(text: string) returns (r: string)
      modifies this
      ensures r == (if old(lastEntries).Some? then "\n" else "") + text + "\n\n"
      ensures lastEntries == None
    {
      var preSpacing := if lastEntries.Some? then "\n" else "";
      lastEntries := None;
      r := preSpacing + text + "\n\n";
    }

    method Header(text: string, level: int) returns (r: string)
      ensures r == "*" + text + "*\n"
    {
      r := "*" + text + "*\n";
    }

    method Linebreak() returns (r: string)
      ensures r == "\n"
    {
      r := "\n";
    }

    /** `number_list`: counts the item lines as it numbers them. */
    method NumberList(entries: string) returns (r: string)
      ensures r == NumberedList(entries)
    {
      var lines := Lines(entries);
      var out: seq<string> := [];
      var count := 0;
      var i := 0;
      while i < |lines|
        invariant 0 <= i <= |lines|
        invariant count == ItemCount(lines[..i])
        invariant |out| == i
        invariant forall k | 0 <= k < i :: out[k] == NumberedLine(lines, k)
      {
        assert lines[..i + 1][..i] == lines[..i];
        if IsItemLine(lines[i]) {
          count := count + 1;
          out := out + [Decimal(count) + ". " + lines[i]];
        } else {
          out := out + [lines[i]];
        }
        i := i + 1;
      }
      assert out == seq(|lines|, k requires 0 <= k < |lines| => NumberedLine(lines, k));
      r := Unlines(out);
    }

    /** Calls the callback an event names, with its arguments. */
    method Dispatch(e: Event) returns (r: string)
      modifies this
      ensures (r, lastEntries) == Step(old(lastEntries), e)
    {
      match e
      case Verbatim(first) => r := first;
      case Strikethrough(c) => r := Strikethrough(c);
      case Underline(c) => r := Underline(c);
      case Emphasis(c) => r := Emphasis(c);
      case DoubleEmphasis(c) => r := DoubleEmphasis(c);
      case TripleEmphasis(c) => r := TripleEmphasis(c);
      case BlockCode(code, language) => r := BlockCode(code, language);
      case BlockQuote(c) => r := BlockQuote(c);
      case Codespan(code) => r := Codespan(code);
      case Link(link, title, c) => r := Link(link, title, c);
      case ListBlock(entries, style) => r := List(entries, style);
      case ListItem(entry, style) => r := ListItem(entry, style);
      case Image(link, title, alt) => r := Image(link, title, alt);
      case Paragraph(text) => r := Paragraph(text);
      case Header(text, level) => r := Header(text, level);
      case Linebreak => r := Linebreak();
    }

    /** Renders a node: its children first, then its own callback. */
    method Render(n: Node) returns (r: string)
      modifies this
      ensures (r, lastEntries) == RenderNode(n, old(lastEntries))
      decreases n
    {
      match n {
        case Leaf(e) =>
          r := Dispatch(e);
        case Span(c, children) =>
          var content := RenderAll(children);
          r := Dispatch(Wrap(c, content));
      }
    }

    /** Renders sibling nodes in order and concatenates their fragments. */
    method RenderAll(ns: seq<Node>) returns (r: string)
      modifies this
      ensures (r, lastEntries) == RenderSeq(ns, old(lastEntries))
      decreases ns
    {
      r := "";
      var i := 0;
      while i < |ns|
        invariant 0 <= i <= |ns|
        invariant (r, lastEntries) == RenderSeq(ns[..i], old(lastEntries))
      {
        assert ns[..i + 1][..i] == ns[..i];
        assert ns[..i + 1][i] == ns[i];
        var frag := Render(ns[i]);
        r := r + frag;
        i := i + 1;
      }
      assert ns[..|ns|] == ns;
    }
  }

  // ---------------------------------------------------------------------------
  // A whole document
  // ---------------------------------------------------------------------------

  /** The callbacks whose content argument is the rendering of nested constructs. */
  datatype Container =
    | Struck
    | Underlined
    | Emphasized
    | Doubled
    | Tripled
    | Quoted
    | Linked(link: string, title: string)
    | Listed(style: ListStyle)
    | Itemized(style: ListStyle)
    | Para
    | Heading(level: int)
    | Passed

  /** The callback a container makes once its content is rendered. */
  function Wrap(c: Container, content: string): Event {
    match c
    case Struck => Strikethrough(content)
    case Underlined => Underline(content)
    case Emphasized => Emphasis(content)
    case Doubled => DoubleEmphasis(content)
    case Tripled => TripleEmphasis(content)
    case Quoted => BlockQuote(content)
    case Linked(link, title) => Link(link, title, content)
    case Listed(style) => ListBlock(content, style)
    case Itemized(style) => ListItem(content, style)
    case Para => Paragraph(content)
    case Heading(level) => Header(content, level)
    case Passed => Verbatim(content)
  }

  /** What the parser makes of a document: callbacks, nested ones first. */
  datatype Node = Leaf(event: Event) | Span(container: Container, children: seq<Node>)

  /** The fragment a node renders to, threading the remembered list through it. */
  function RenderNode(n: Node, last: Option<string>): (string, Option<string>)
    decreases n
  {
    match n
    case Leaf(e) => Step(last, e)
    case Span(c, children) =>
      var (content, st) := RenderSeq(children, last);
      Step(st, Wrap(c, content))
  }

  /** Sibling nodes, rendered left to right and concatenated. */
  function RenderSeq(ns: seq<Node>, last: Option<string>): (string, Option<string>)
    decreases ns
  {
    if ns == [] then ("", last)
    else
      var (init, st) := RenderSeq(ns[..|ns| - 1], last);
      var (frag, st') := RenderNode(ns[|ns| - 1], st);
      (init + frag, st')
  }

  /** `postprocess`: `rstrip`. */
  function Postprocess(content: string): (r: string)
    ensures r <= content
    ensures forall i | |r| <= i < |content| :: IsStripSpace(content[i])
    ensures |r| == 0 || !IsStripSpace(r[|r| - 1])
  {
    Rstrip(content)
  }

  /** `postprocess` is idempotent. */
  lemma PostprocessIdempotent(content: string)
    ensures Postprocess(Postprocess(content)) == Postprocess(content)
  {
    RstripIdempotent(content);
  }

  /** `Mrkdwn.from` as a value: escape, parse, render with a fresh renderer, strip. */
  function FormatMrkdwn(markdown: string, parse: string -> seq<Node>): string {
    Postprocess(RenderSeq(parse(Preprocess(markdown)), None).0)
  }

  /** Two siblings: the first one's fragment, then the second one's, rendered after it. */
  lemma RenderPair(a: Node, b: Node, last: Option<string>)
    ensures RenderSeq([a, b], last) ==
      (RenderNode(a, last).0 + RenderNode(b, RenderNode(a, last).1).0, RenderNode(b, RenderNode(a, last).1).1)
  {
    var ns := [a, b];
    assert ns[..1] == [a] && ns[..1][..0] == [];
    assert RenderSeq([a], last) == ("" + RenderNode(a, last).0, RenderNode(a, last).1);
    assert "" + RenderNode(a, last).0 == RenderNode(a, last).0;
  }

  /** A container node makes its callback on its children's fragments, in the state they leave. */
  lemma RenderSpan(c: Container, children: seq<Node>, last: Option<string>)
    ensures RenderNode(Span(c, children), last) ==
      Step(RenderSeq(children, last).1, Wrap(c, RenderSeq(children, last).0))
  {
  }

  /** `list` returns its formatted entries and remembers them. */
  lemma StepList(last: Option<string>, entries: string, style: ListStyle)
    ensures Step(last, ListBlock(entries, style)) == (FormatList(entries, style), Some(FormatList(entries, style)))
  {
  }

  /** An item with two children makes its callback on their fragments, in the state the second leaves. */
  lemma RenderItemOfTwo(a: Node, b: Node, style: ListStyle, last: Option<string>)
    ensures var (fa, sa) := RenderNode(a, last);
      var (fb, sb) := RenderNode(b, sa);
      RenderNode(Span(Itemized(style), [a, b]), last) == Step(sb, ListItem(fa + fb, style))
  {
    RenderPair(a, b, last);
    RenderSpan(Itemized(style), [a, b], last);
  }

  /** A list node renders to its formatted entries and leaves exactly them remembered. */
  lemma RenderedListRemembered(nested: ListStyle, items: seq<Node>, last: Option<string>)
    ensures var f := FormatList(RenderSeq(items, last).0, nested);
      RenderNode(Span(Listed(nested), items), last) == (f, Some(f))
  {
    RenderSpan(Listed(nested), items, last);
    StepList(RenderSeq(items, last).1, RenderSeq(items, last).0, nested);
  }

  /**
   * An item whose text is followed by a node that renders to a list and leaves it
   * remembered (as `RenderedListRemembered` shows every list node does): the list
   * comes out indented under the text, and no list is remembered afterwards.
   */
  lemma NestedListRendering(text: Node, list: Node, style: ListStyle, last: Option<string>)
    requires RenderNode(list, RenderNode(text, last).1).1 == Some(RenderNode(list, RenderNode(text, last).1).0)
    requires var x := RenderNode(text, last).0;
      var f := RenderNode(list, RenderNode(text, last).1).0;
      f != [] && forall i | 0 <= i < |x| :: !OccursAt(x + f, f, i)
    ensures var x := RenderNode(text, last).0;
      var f := RenderNode(list, RenderNode(text, last).1).0;
      RenderNode(Span(Itemized(style), [text, list]), last) == (x + NestListEntries(f), None)
  {
    var x := RenderNode(text, last).0;
    var f := RenderNode(list, RenderNode(text, last).1).0;
    RenderItemOfTwo(text, list, style, last);
    assert RenderNode(Span(Itemized(style), [text, list]), last) == Step(Some(f), ListItem(x + f, style));
    ListItemNestsList(x, f, style);
  }

  /** `Mrkdwn.from`: a fresh renderer over the parse of the escaped text, then `postprocess`. */
  method From(markdown: string, parse: string -> seq<Node>) returns (r: string)
    ensures r == FormatMrkdwn(markdown, parse)
  {
    var renderer := new Mrkdwn();
    var body := renderer.RenderAll(parse(Preprocess(markdown)));
    r := Postprocess(body);
  }
}
