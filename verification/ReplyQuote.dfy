/** Quoting a message body into HTML paragraphs, and reading the body back. */
module ReplyQuote {
  import opened Basics
  import opened Strings

  /** `s.replaceAll(c, r)` */
  function ReplaceAll(s: string, c: char, r: string): string {
    if s == "" then "" else (if s[0] == c then r else [s[0]]) + ReplaceAll(s[1..], c, r)
  }

  function EscapeHtml(text: string): string {
    ReplaceAll(ReplaceAll(ReplaceAll(text, '&', "&amp;"), '<', "&lt;"), '>', "&gt;")
  }

  function SplitLines(body: string): (lines: seq<string>)
    ensures lines != []
    decreases |body|
  {
    var line := Before(body, '\n');
    if |line| == |body| then [line] else [line] + SplitLines(body[|line| + 1..])
  }

  function Paragraph(line: string): string {
    "<p>" + (if EscapeHtml(line) != "" then EscapeHtml(line) else "<br>") + "</p>"
  }

  function Paragraphs(lines: seq<string>): string {
    if lines == [] then "" else Paragraph(lines[0]) + Paragraphs(lines[1..])
  }

  function Quote(body: string): string {
    Paragraphs(SplitLines(body))
  }

  // ---------------------------------------------------------------- one pass

  function EscapeChar(c: char): string {
    if c == '&' then "&amp;" else if c == '<' then "&lt;" else if c == '>' then "&gt;" else [c]
  }

  function EscapeOnce(text: string): string {
    if text == "" then "" else EscapeChar(text[0]) + EscapeOnce(text[1..])
  }

  lemma {:induction false} ReplaceAllConcat(a: string, b: string, c: char, r: string)
    ensures ReplaceAll(a + b, c, r) == ReplaceAll(a, c, r) + ReplaceAll(b, c, r)
  {
    if a == "" {
      assert a + b == b;
    } else {
      assert (a + b)[1..] == a[1..] + b;
      ReplaceAllConcat(a[1..], b, c, r);
    }
  }

  lemma {:induction false} ReplaceNone(a: string, c: char, r: string)
    requires c !in a
    ensures ReplaceAll(a, c, r) == a
  {
    if a != "" {
      ReplaceNone(a[1..], c, r);
    }
  }

  lemma ReplaceOne(a: char, c: char, r: string)
    ensures ReplaceAll([a], c, r) == if a == c then r else [a]
  {
    assert [a][1..] == "" && r + "" == r && [a] + "" == [a];
  }

  lemma EscapeOneChar(c: char)
    ensures EscapeHtml([c]) == EscapeChar(c)
  {
    ReplaceOne(c, '&', "&amp;");
    ReplaceOne(c, '<', "&lt;");
    ReplaceOne(c, '>', "&gt;");
    ReplaceNone("&amp;", '<', "&lt;");
    ReplaceNone("&amp;", '>', "&gt;");
    ReplaceNone("&lt;", '>', "&gt;");
  }

  /** The three passes in sequence do what one pass over the characters does: no pass touches another's output. */
  lemma {:induction false} EscapeIsOnePass(text: string)
    ensures EscapeHtml(text) == EscapeOnce(text)
  {
    if text != "" {
      var head, rest := [text[0]], text[1..];
      assert text == head + rest;
      ReplaceAllConcat(head, rest, '&', "&amp;");
      var a, b := ReplaceAll(head, '&', "&amp;"), ReplaceAll(rest, '&', "&amp;");
      ReplaceAllConcat(a, b, '<', "&lt;");
      ReplaceAllConcat(ReplaceAll(a, '<', "&lt;"), ReplaceAll(b, '<', "&lt;"), '>', "&gt;");
      EscapeOneChar(text[0]);
      EscapeIsOnePass(rest);
    }
  }

  lemma {:induction false} EscapedHasNoBrackets(text: string)
    ensures '<' !in EscapeHtml(text) && '>' !in EscapeHtml(text)
    ensures EscapeHtml(text) == "" <==> text == ""
  {
    EscapeIsOnePass(text);
    if text != "" {
      EscapedHasNoBrackets(text[1..]);
      EscapeIsOnePass(text[1..]);
    }
  }

  // ---------------------------------------------------------------- reading back

  /** Decodes the three entities; any other use of '&' is an error. */
  function Unescape(s: string): Option<string> {
    if s == "" then Some("")
    else if s[0] != '&' then Push(s[0], Unescape(s[1..]))
    else if "&amp;" <= s then Push('&', Unescape(s[5..]))
    else if "&lt;" <= s then Push('<', Unescape(s[4..]))
    else if "&gt;" <= s then Push('>', Unescape(s[4..]))
    else None
  }

  function Push(c: char, r: Option<string>): Option<string> {
    match r
    case Some(t) => Some([c] + t)
    case None => None
  }

  /** Reads a sequence of `<p>…</p>` with entity-coded text, or `<p><br></p>` for an empty line. */
  function ReadParagraphs(s: string): Option<seq<string>>
    decreases |s|
  {
    if s == "" then Some([])
    else if "<p>" <= s then ReadContent(s[3..])
    else None
  }

  function ReadContent(t: string): Option<seq<string>>
    decreases |t|
  {
    if "<br></p>" <= t then Cons(Some(""), ReadParagraphs(t[8..]))
    else
      var text := Before(t, '<');
      if "</p>" <= t[|text|..] then Cons(Unescape(text), ReadParagraphs(t[|text| + 4..])) else None
  }

  function Cons(line: Option<string>, rest: Option<seq<string>>): Option<seq<string>> {
    if line.Some? && rest.Some? then Some([line.value] + rest.value) else None
  }

  function JoinLines(lines: seq<string>): string {
    if lines == [] then "" else if |lines| == 1 then lines[0] else lines[0] + "\n" + JoinLines(lines[1..])
  }

  lemma {:induction false} SplitThenJoin(body: string)
    ensures JoinLines(SplitLines(body)) == body
    decreases |body|
  {
    var line := Before(body, '\n');
    if |line| < |body| {
      SplitThenJoin(body[|line| + 1..]);
      assert body == line + "\n" + body[|line| + 1..];
    }
  }

  predicate AreLines(lines: seq<string>) {
    lines != [] && forall i :: 0 <= i < |lines| ==> '\n' !in lines[i]
  }

  lemma {:induction false} SplitAreLines(body: string)
    ensures AreLines(SplitLines(body))
    decreases |body|
  {
    var line := Before(body, '\n');
    if |line| < |body| {
      SplitAreLines(body[|line| + 1..]);
    }
  }

  lemma {:induction false} JoinThenSplit(lines: seq<string>)
    requires AreLines(lines)
    ensures SplitLines(JoinLines(lines)) == lines
  {
    var body := JoinLines(lines);
    if |lines| == 1 {
      BeforeAppend(lines[0], "", '\n');
      assert lines[0] + "" == body;
    } else {
      var rest := JoinLines(lines[1..]);
      assert body == lines[0] + ("\n" + rest) && ("\n" + rest)[0] == '\n';
      BeforeAppend(lines[0], "\n" + rest, '\n');
      assert body[|lines[0]| + 1..] == rest;
      JoinThenSplit(lines[1..]);
    }
  }

  /** A body is split into the lines without a newline that make it up when joined with newlines. */
  lemma SplitIff(body: string, lines: seq<string>)
    ensures SplitLines(body) == lines <==> AreLines(lines) && JoinLines(lines) == body
  {
    SplitThenJoin(body);
    SplitAreLines(body);
    if AreLines(lines) {
      JoinThenSplit(lines);
    }
  }

  lemma UnescapeCons(c: char, rest: string)
    ensures Unescape(EscapeChar(c) + rest) == Push(c, Unescape(rest))
  {
    var s := EscapeChar(c) + rest;
    assert s[|EscapeChar(c)|..] == rest;
    assert s[..|EscapeChar(c)|] == EscapeChar(c);
    if c == '<' || c == '>' {
      assert s[1] != 'a';
    }
    if c == '>' {
      assert s[1] != 'l';
    }
  }

  lemma {:induction false} UnescapeEscape(text: string)
    ensures Unescape(EscapeHtml(text)) == Some(text)
  {
    EscapeIsOnePass(text);
    if text != "" {
      UnescapeEscape(text[1..]);
      EscapeIsOnePass(text[1..]);
      UnescapeCons(text[0], EscapeOnce(text[1..]));
      assert text == [text[0]] + text[1..];
    }
  }

  lemma ReadOpening(t: string)
    ensures ReadParagraphs("<p>" + t) == ReadContent(t)
  {
    var s := "<p>" + t;
    assert s[..3] == "<p>" && s[3..] == t;
  }

  lemma ReadEmptyLine(rest: string)
    ensures ReadContent("<br></p>" + rest) == Cons(Some(""), ReadParagraphs(rest))
  {
    var t := "<br></p>" + rest;
    assert t[..8] == "<br></p>" && t[8..] == rest;
  }

  lemma ReadText(text: string, rest: string)
    requires text != "" && '<' !in text
    ensures ReadContent(text + ("</p>" + rest)) == Cons(Unescape(text), ReadParagraphs(rest))
  {
    var tail := "</p>" + rest;
    var t := text + tail;
    BeforeAppend(text, tail, '<');
    assert t[0] == text[0] && text[0] in text;
    assert t[|text|..] == tail && tail[..4] == "</p>";
    assert t[|text| + 4..] == tail[4..] == rest;
  }

  lemma {:induction false} ReadBack(lines: seq<string>)
    ensures ReadParagraphs(Paragraphs(lines)) == Some(lines)
  {
    hide EscapeHtml, Unescape, ReadContent;
    if lines != [] {
      hide ReadParagraphs;
      var text, rest := EscapeHtml(lines[0]), Paragraphs(lines[1..]);
      ReadBack(lines[1..]);
      EscapedHasNoBrackets(lines[0]);
      assert lines == [lines[0]] + lines[1..];
      if text == "" {
        Regroup("<p>", "<br>" + "</p>", rest);
        Regroup("<p>", "<br>", "</p>");
        assert "<br>" + "</p>" == "<br></p>";
        ReadOpening("<br></p>" + rest);
        ReadEmptyLine(rest);
      } else {
        Regroup("<p>" + text, "</p>", rest);
        Regroup("<p>", text, "</p>" + rest);
        ReadOpening(text + ("</p>" + rest));
        ReadText(text, rest);
        UnescapeEscape(lines[0]);
      }
    }
  }

  /** Every body can be recovered from its quote, line by line; in particular no two bodies have the same quote. */
  lemma QuoteIsInvertible(body: string, lines: seq<string>)
    ensures ReadParagraphs(Quote(body)) == Some(lines) <==> AreLines(lines) && JoinLines(lines) == body
  {
    ReadBack(SplitLines(body));
    SplitIff(body, lines);
  }
}
