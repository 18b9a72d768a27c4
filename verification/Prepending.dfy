/** Prepending library contents to a script's content before it runs. */
module Prepending {
  import opened Scripts
  import opened Lines
  import opened ScriptReader
  import opened ScriptRoundTrip
  import Strings

  /** The text the executor runs: every library followed by a newline, then the script. */
  method BuildScript(libs: seq<string>, content: string) returns (text: string)
    ensures text == Terminated(libs) + content
  {
    text := "";
    for i := 0 to |libs|
      invariant text == Terminated(libs[..i])
    {
      TerminatedAppend(libs[..i], [libs[i]]);
      assert libs[..i + 1] == libs[..i] + [libs[i]] && Terminated([libs[i]]) == libs[i] + "\n";
      text := text + libs[i];
      text := text + "\n";
    }
    assert libs[..|libs|] == libs;
    text := text + content;
  }

  /** The source files put one after the other, each ended by a newline. */
  function Concatenated(sources: seq<string>): string {
    if sources == [] then "" else WithNewline(sources[0]) + Concatenated(sources[1..])
  }

  /** Sources in order: the libraries and, last, the script. What the executor builds from their contents. */
  function Built(sources: seq<string>): string
    requires sources != []
  {
    if |sources| == 1 then ContentOf(sources[0]) else ContentOf(sources[0]) + "\n" + Built(sources[1..])
  }

  function Contents(sources: seq<string>): seq<string> {
    if sources == [] then [] else [ContentOf(sources[0])] + Contents(sources[1..])
  }

  /** The built text is what BuildScript makes of the parsed contents. */
  lemma {:induction false} BuiltIsBuildScript(libs: seq<string>, script: string)
    ensures Built(libs + [script]) == Terminated(Contents(libs)) + ContentOf(script)
  {
    if libs == [] {
      assert libs + [script] == [script];
      assert "" + ContentOf(script) == ContentOf(script);
    } else {
      BuiltIsBuildScript(libs[1..], script);
      assert (libs + [script])[1..] == libs[1..] + [script];
      TerminatedCons(ContentOf(libs[0]), Contents(libs[1..]), ContentOf(script));
    }
  }

  lemma TerminatedCons(line: string, lines: seq<string>, rest: string)
    ensures Terminated([line] + lines) + rest == line + "\n" + (Terminated(lines) + rest)
  {
    assert ([line] + lines)[1..] == lines;
  }

  ghost predicate AllPlain(sources: seq<string>) {
    forall s :: s in sources ==> Plain(s)
  }

  /** The content lines of all sources, in order. */
  function Kept(sources: seq<string>): seq<string> {
    if sources == [] then [] else ContentLines(RawLines(sources[0])) + Kept(sources[1..])
  }

  lemma {:induction false} ConcatenatedLines(sources: seq<string>)
    requires AllPlain(sources)
    ensures Plain(Concatenated(sources)) && ContentLines(RawLines(Concatenated(sources))) == Kept(sources)
  {
    if sources == [] {
      Strings.SplitFree("", '\n');
    } else {
      var first, rest := sources[0], Concatenated(sources[1..]);
      ConcatenatedLines(sources[1..]);
      LinesAppend(first, rest);
      ContentLinesAppend(RawLines(first), RawLines(rest));
      assert first in sources;
    }
  }

  /** The content of a plain source is its content lines joined. */
  lemma ContentJoined(source: string)
    requires Plain(source)
    ensures ContentOf(source) == Strings.Join(ContentLines(RawLines(source)), "\n")
  {
    ReadMeans(NEW_SCRIPT, source);
    PlainLines(source);
  }

  /** The source has at least one line that is not a header. */
  ghost predicate HasContent(source: string) {
    ContentLines(RawLines(source)) != []
  }

  ghost predicate AllHaveContent(sources: seq<string>) {
    forall s :: s in sources ==> HasContent(s)
  }

  lemma {:induction false} JoinAppend(a: seq<string>, b: seq<string>)
    ensures a != [] && b != [] ==> Strings.Join(a + b, "\n") == Strings.Join(a, "\n") + "\n" + Strings.Join(b, "\n")
    ensures a == [] ==> a + b == b
    ensures b == [] ==> a + b == a
  {
    if |a| > 1 {
      assert (a + b)[1..] == a[1..] + b;
      JoinAppend(a[1..], b);
    } else if |a| == 1 {
      assert (a + b)[1..] == b;
    }
  }

  /** One source in front: the texts stay equal only if both sides have a line to join. */
  lemma PrependStep(a: seq<string>, b: seq<string>, built: string)
    requires |Strings.Join(b, "\n")| <= |built|
    ensures |Strings.Join(a + b, "\n")| <= |Strings.Join(a, "\n") + "\n" + built|
    ensures Strings.Join(a, "\n") + "\n" + built == Strings.Join(a + b, "\n")
            <==> a != [] && b != [] && built == Strings.Join(b, "\n")
  {
    JoinAppend(a, b);
    var head, joined := Strings.Join(a, "\n") + "\n", Strings.Join(b, "\n");
    assert (head + built)[|head|..] == built && (head + joined)[|head|..] == joined;
  }

  /** Building never loses text, and adds some when a library or the script has no content line. */
  lemma {:induction false} BuiltVersusKept(sources: seq<string>)
    requires sources != [] && AllPlain(sources)
    ensures |Strings.Join(Kept(sources), "\n")| <= |Built(sources)|
    ensures Built(sources) == Strings.Join(Kept(sources), "\n") <==> |sources| == 1 || AllHaveContent(sources)
  {
    var first, rest := sources[0], sources[1..];
    assert first in sources && forall s :: s in sources <==> s == first || s in rest;
    ContentJoined(first);
    var a, b := ContentLines(RawLines(first)), Kept(rest);
    if |sources| == 1 {
      assert a + b == a;
    } else {
      BuiltVersusKept(rest);
      PrependStep(a, b, Built(rest));
      KeptIfContent(rest);
    }
  }

  lemma KeptIfContent(sources: seq<string>)
    requires sources != []
    ensures AllHaveContent(sources) ==> Kept(sources) != []
    ensures |sources| == 1 ==> (Kept(sources) != [] <==> AllHaveContent(sources))
  {
    assert sources[0] in sources;
  }

  /**
   Prepending commutes with header stripping. The text built from parsed libraries and script is the
   content read from the concatenated sources exactly when there is no library or every source has a
   content line.
   */
  lemma PrependingCommutesIff(libs: seq<string>, script: string)
    requires AllPlain(libs + [script])
    ensures Built(libs + [script]) == ContentOf(Concatenated(libs + [script]))
            <==> libs == [] || AllHaveContent(libs + [script])
  {
    var sources := libs + [script];
    BuiltVersusKept(sources);
    ConcatenatedLines(sources);
    ContentJoined(Concatenated(sources));
  }
}
