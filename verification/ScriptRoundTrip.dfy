/** Writing a script out and reading it back, reading parsed content again, and prepending libraries. */
module ScriptRoundTrip {
  import opened Scripts
  import opened Lines
  import opened ScriptReader
  import Strings

  function HeaderLine(key: string, value: string): string {
    HEADER_PATTERN + " " + key + ": " + value
  }

  type Header = (string, string)

  function RequireHeaders(libKeys: seq<string>): seq<Header> {
    seq(|libKeys|, i requires 0 <= i < |libKeys| => ("require", libKeys[i]))
  }

  /** The headers that describe a script, each with its value. */
  function Headers(scr: Script): seq<Header> {
    [("subject", scr.subject), ("name", scr.name), ("html", if scr.html then "true" else "false"),
     ("executor", scr.executor)] + RequireHeaders(scr.libKeys)
  }

  function HeaderLines(headers: seq<Header>): seq<string> {
    if headers == [] then [] else [HeaderLine(headers[0].0, headers[0].1)] + HeaderLines(headers[1..])
  }

  /** The canonical source of a script: its headers, then its content. */
  function Render(scr: Script): string {
    Terminated(HeaderLines(Headers(scr))) + scr.content
  }

  lemma HeaderLinePieces(key: string, value: string)
    requires ' ' !in key
    ensures Strings.Split(HeaderLine(key, value), " ") == [HEADER_PATTERN, key + ":"] + Strings.Split(value, " ")
  {
    var word := key + ":";
    assert HeaderLine(key, value) == HEADER_PATTERN + " " + (word + " " + value);
    Strings.SplitCons(HEADER_PATTERN, ' ', word + " " + value);
    Strings.SplitCons(word, ' ', value);
    TwoInFront(HEADER_PATTERN, word, Strings.Split(value, " "));
  }

  lemma TwoInFront(x: string, y: string, rest: seq<string>)
    ensures [x] + ([y] + rest) == [x, y] + rest && ([x, y] + rest)[2..] == rest
  {
  }

  /** A header line is read back as its key and value, whatever spaces or colons the value has. */
  lemma HeaderLineReads(key: string, value: string)
    requires ' ' !in key
    ensures HeaderKey(HeaderLine(key, value)) == key && HeaderValue(HeaderLine(key, value)) == value
  {
    HeaderLinePieces(key, value);
    TwoInFront(HEADER_PATTERN, key + ":", Strings.Split(value, " "));
    Strings.JoinSplit(value, " ");
    TrimAdded(key, ":");
    assert HeaderLine(key, value)[..3] == HEADER_PATTERN;
  }

  /** A header line with a key the reader does not know, such as "http", stays in the content. */
  lemma UnknownHeaderIsContent(key: string, value: string)
    requires ' ' !in key
    ensures IsHeader(HeaderLine(key, value)) <==> key in {"subject", "name", "require", "html", "executor"}
  {
    HeaderLineReads(key, value);
  }

  /** The values that a list of headers gives to one key. */
  function Given(key: string, headers: seq<Header>): seq<string> {
    if headers == [] then []
    else (if headers[0].0 == key then [headers[0].1] else []) + Given(key, headers[1..])
  }

  /** Every header has a key that the reader knows. */
  ghost predicate KnownKeys(headers: seq<Header>) {
    forall i :: 0 <= i < |headers| ==> Recognised(headers[i].0) && ' ' !in headers[i].0
  }

  lemma FirstHeaderLine(h: Header, key: string)
    requires Recognised(h.0) && ' ' !in h.0
    ensures var line := HeaderLine(h.0, h.1);
            ContentLines([line]) == [] && ValuesOf(key, [line]) == if h.0 == key then [h.1] else []
  {
    var line := HeaderLine(h.0, h.1);
    HeaderLineReads(h.0, h.1);
    assert [] + [line] == [line] && [line][..0] == [];
    ContentOfLine([], line);
    ValuesOfLine(key, [], line);
  }

  /** Header lines are read as the values they were made from, and leave no content. */
  lemma {:induction false} HeaderLinesRead(headers: seq<Header>, key: string)
    requires KnownKeys(headers)
    ensures ContentLines(HeaderLines(headers)) == [] && ValuesOf(key, HeaderLines(headers)) == Given(key, headers)
  {
    if headers != [] {
      var line, rest := HeaderLine(headers[0].0, headers[0].1), HeaderLines(headers[1..]);
      HeaderLinesRead(headers[1..], key);
      FirstHeaderLine(headers[0], key);
      ContentLinesAppend([line], rest);
      ValuesOfAppend(key, [line], rest);
    }
  }

  lemma {:induction false} GivenRequires(libKeys: seq<string>, key: string)
    ensures Given(key, RequireHeaders(libKeys)) == if key == "require" then libKeys else []
  {
    if libKeys != [] {
      assert RequireHeaders(libKeys)[1..] == RequireHeaders(libKeys[1..]);
      GivenRequires(libKeys[1..], key);
    }
  }

  /** The value a script's own field has for a header. */
  function FieldValues(scr: Script, key: string): seq<string> {
    if key == "subject" then [scr.subject]
    else if key == "name" then [scr.name]
    else if key == "html" then [if scr.html then "true" else "false"]
    else if key == "executor" then [scr.executor]
    else scr.libKeys
  }

  lemma GivenByScript(scr: Script, key: string)
    requires Recognised(key)
    ensures Given(key, Headers(scr)) == FieldValues(scr, key)
  {
    var hs, last := Headers(scr), Headers(scr)[1..][1..][1..];
    GivenRequires(scr.libKeys, key);
    assert last[1..] == RequireHeaders(scr.libKeys);
    assert last[0] == ("executor", scr.executor);
    assert Given(key, last) == if key == "executor" then [scr.executor]
                               else if key == "require" then scr.libKeys else [];
    assert Given(key, hs[1..][1..]) == if key == "html" then FieldValues(scr, key) else Given(key, last);
    assert Given(key, hs[1..]) == if key == "name" then [scr.name] else Given(key, hs[1..][1..]);
  }

  /** No newline in a field, so that each header stays on its line. */
  ghost predicate OneLine(scr: Script) {
    && '\n' !in scr.subject && '\n' !in scr.name && '\n' !in scr.executor
    && forall k :: k in scr.libKeys ==> '\n' !in k
  }

  lemma {:induction false} HeaderLinesOneLine(headers: seq<Header>)
    requires forall i :: 0 <= i < |headers| ==> '\n' !in headers[i].0 && '\n' !in headers[i].1
    ensures forall l :: l in HeaderLines(headers) ==> '\n' !in l
  {
    if headers != [] {
      assert forall i :: 0 <= i < |headers| - 1 ==> headers[1..][i] == headers[i + 1];
      HeaderLinesOneLine(headers[1..]);
    }
  }

  /** The lines of a rendered script are its header lines and then the lines of its content. */
  lemma RenderedLines(scr: Script)
    requires OneLine(scr)
    ensures RawLines(Render(scr)) == HeaderLines(Headers(scr)) + RawLines(scr.content)
  {
    HeaderLinesOneLine(Headers(scr));
    LinesOfTerminated(HeaderLines(Headers(scr)), scr.content);
  }

  ghost predicate HeaderFree(text: string) {
    forall l :: l in RawLines(text) ==> !IsHeader(l)
  }

  lemma HeaderNotEmpty(line: string)
    ensures IsHeader(line) ==> |line| >= 3
  {
  }

  /** Keeping the content lines of a text gives the text back exactly when it needs no change. */
  lemma KeptTextIff(text: string)
    ensures Strings.Join(ContentLines(RawLines(text)), "\n") == text <==> HeaderFree(text) && !EndsInNewline(text)
  {
    var lines := RawLines(text);
    var kept := ContentLines(lines);
    JoinLines(text);
    ContentLinesKept(lines);
    ContentShorter(lines);
    if kept != [] {
      TerminatedIsJoin(kept);
    }
    if lines != [] {
      TerminatedIsJoin(lines);
    }
    if kept == lines {
      forall l | l in lines ensures !IsHeader(l) {
        assert l in kept;
      }
    } else if kept == [] {
      assert IsHeader(lines[0]);
      HeaderNotEmpty(lines[0]);
    }
  }

  /**
   Round trip. Writing a script out and reading it gives every field back exactly when no line of its
   content reads as a header and the content does not end in a newline.
   */
  lemma RoundTripIff(scr: Script)
    requires OneLine(scr) && Plain(Render(scr))
    ensures ReadString(Render(scr)) == scr <==> HeaderFree(scr.content) && !EndsInNewline(scr.content)
  {
    var lines := HeaderLines(Headers(scr)) + RawLines(scr.content);
    ReadMeans(NEW_SCRIPT, Render(scr));
    PlainLines(Render(scr));
    RenderedLines(scr);
    KeptTextIff(scr.content);
    RenderedContent(scr);
    if HeaderFree(scr.content) {
      FieldsReadBack(scr);
    }
  }

  lemma RenderedContent(scr: Script)
    ensures ContentLines(HeaderLines(Headers(scr)) + RawLines(scr.content)) == ContentLines(RawLines(scr.content))
  {
    var headers, body := HeaderLines(Headers(scr)), RawLines(scr.content);
    HeaderLinesRead(Headers(scr), "");
    ContentLinesAppend(headers, body);
    assert [] + ContentLines(body) == ContentLines(body);
  }

  /** Above header-free content, the headers alone decide every field. */
  lemma FieldsReadBack(scr: Script)
    requires HeaderFree(scr.content)
    ensures var m := Meaning(NEW_SCRIPT, HeaderLines(Headers(scr)) + RawLines(scr.content));
            m == scr.(content := m.content)
  {
    FieldReadsBack(scr, "subject");
    FieldReadsBack(scr, "name");
    FieldReadsBack(scr, "html");
    FieldReadsBack(scr, "executor");
    FieldReadsBack(scr, "require");
    assert [] + scr.libKeys == scr.libKeys;
  }

  lemma FieldReadsBack(scr: Script, key: string)
    requires HeaderFree(scr.content) && Recognised(key)
    ensures ValuesOf(key, HeaderLines(Headers(scr)) + RawLines(scr.content)) == FieldValues(scr, key)
  {
    HeaderLinesRead(Headers(scr), key);
    ValuesOfAppend(key, HeaderLines(Headers(scr)), RawLines(scr.content));
    NoHeadersNoValues(key, RawLines(scr.content));
    GivenByScript(scr, key);
  }

  /** The content that reading a text gives. */
  function ContentOf(text: string): string {
    ReadString(text).content
  }

  lemma {:induction false} ScannedShorter(lines: seq<string>)
    ensures var scanned := DropCRs(TakeFitting(lines));
            && |Terminated(scanned)| <= |Terminated(lines)|
            && (|Terminated(scanned)| == |Terminated(lines)| ==> scanned == lines)
  {
    if lines != [] {
      ScannedShorter(lines[1..]);
      DropCRFree(lines[0]);
    }
  }

  /** Reading never lengthens a text, and keeps its length only by keeping it as it is. */
  lemma ReadingShrinks(text: string)
    ensures ContentOf(text) == text || |ContentOf(text)| < |text|
  {
    var lines, scanned := RawLines(text), ScannedLines(text);
    var kept := ContentLines(scanned);
    ReadMeans(NEW_SCRIPT, text);
    ScannedShorter(lines);
    ContentShorter(scanned);
    JoinLines(text);
    if kept != [] {
      TerminatedIsJoin(kept);
      TerminatedIsJoin(lines);
    }
  }

  /** Reading the content over and over, as long as that changes it. */
  function Settle(text: string): string
    decreases |text|
  {
    ReadingShrinks(text);
    if ContentOf(text) == text then text else Settle(ContentOf(text))
  }

  function StripNewlines(text: string): string {
    if EndsInNewline(text) then StripNewlines(text[..|text| - 1]) else text
  }

  /** Text that reading leaves alone but for a newline at its end. */
  ghost predicate Parsed(text: string) {
    Plain(text) && HeaderFree(text)
  }

  /** The content read from plain text is parsed text. */
  lemma ContentIsParsed(text: string)
    requires Plain(text)
    ensures Parsed(ContentOf(text))
  {
    var lines := RawLines(text);
    var kept := ContentLines(lines);
    var content := ContentOf(text);
    ReadMeans(NEW_SCRIPT, text);
    PlainLines(text);
    ContentLinesKept(lines);
    RawLinesFree(text);
    Strings.JoinSplit(text, "\n");
    JoinChars(Strings.Split(text, "\n"), '\r');
    if kept == [] {
      Strings.SplitFree("", '\n');
    } else {
      Strings.SplitJoin(kept, '\n');
      NoCRInJoin(kept);
      forall l | l in RawLines(content) ensures l in kept {}
    }
  }

  lemma {:induction false} NoCRInJoin(lines: seq<string>)
    requires forall l :: l in lines ==> '\r' !in l
    ensures '\r' !in Strings.Join(lines, "\n")
  {
    if |lines| > 0 {
      assert lines[0] in lines;
      NoCRInJoin(lines[1..]);
    }
  }

  /**
   Reading parsed text again finds no header and gives the same text, or the text without its one final
   newline; only the content is set.
   */
  lemma RereadParsed(text: string)
    requires Parsed(text)
    ensures ReadString(text)
            == NEW_SCRIPT.(content := if EndsInNewline(text) then text[..|text| - 1] else text)
  {
    var lines := RawLines(text);
    ReadMeans(NEW_SCRIPT, text);
    PlainLines(text);
    JoinLines(text);
    ContentLinesKept(lines);
    NoHeadersNoValues("subject", lines);
    NoHeadersNoValues("name", lines);
    NoHeadersNoValues("html", lines);
    NoHeadersNoValues("executor", lines);
    NoHeadersNoValues("require", lines);
  }

  /** Reading parsed text over and over ends with the text without its final newlines. */
  lemma {:induction false} RereadingSettles(text: string)
    requires Parsed(text)
    ensures Settle(text) == StripNewlines(text)
    decreases |text|
  {
    RereadParsed(text);
    if EndsInNewline(text) {
      ContentIsParsed(text);
      RereadingSettles(text[..|text| - 1]);
    }
  }
}
