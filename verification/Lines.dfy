/** Lines of text as bufio's line scanner delivers them. */
module Lines {
  import Strings

  /** The scanner gives up on a line of this length or more, and with it on the rest of the text. */
  const MAX_SCAN_TOKEN_SIZE := 65536

  /** The pieces between newlines; nothing after a final newline. */
  function RawLines(text: string): seq<string> {
    var pieces := Strings.Split(text, "\n");
    if pieces[|pieces| - 1] == "" then pieces[..|pieces| - 1] else pieces
  }

  function DropCR(line: string): string {
    Strings.TrimSuffix(line, "\r")
  }

  function TakeFitting(lines: seq<string>): seq<string> {
    if lines == [] || |lines[0]| >= MAX_SCAN_TOKEN_SIZE then [] else [lines[0]] + TakeFitting(lines[1..])
  }

  function DropCRs(lines: seq<string>): seq<string> {
    if lines == [] then [] else [DropCR(lines[0])] + DropCRs(lines[1..])
  }

  /** Everything Scan delivers before it stops. */
  function ScannedLines(text: string): seq<string> {
    DropCRs(TakeFitting(RawLines(text)))
  }

  /** Every line followed by a newline. */
  function Terminated(lines: seq<string>): string {
    if lines == [] then "" else lines[0] + "\n" + Terminated(lines[1..])
  }

  /** The text as it is if it ends in a newline or is empty, and with a newline added otherwise. */
  function WithNewline(text: string): string {
    if text == "" || EndsInNewline(text) then text else text + "\n"
  }

  predicate EndsInNewline(text: string) {
    text != "" && text[|text| - 1] == '\n'
  }

  /** No carriage returns, and no line too long for the scanner. */
  ghost predicate Plain(text: string) {
    '\r' !in text && forall l :: l in RawLines(text) ==> |l| < MAX_SCAN_TOKEN_SIZE
  }

  lemma {:induction false} TerminatedIsJoin(lines: seq<string>)
    requires lines != []
    ensures Terminated(lines) == Strings.Join(lines, "\n") + "\n"
  {
    if |lines| == 1 {
      assert Terminated(lines[1..]) == "";
    } else {
      TerminatedIsJoin(lines[1..]);
    }
  }

  lemma {:induction false} TerminatedAppend(a: seq<string>, b: seq<string>)
    ensures Terminated(a + b) == Terminated(a) + Terminated(b)
  {
    if a == [] {
      assert a + b == b;
    } else {
      assert (a + b)[1..] == a[1..] + b;
      TerminatedAppend(a[1..], b);
    }
  }

  /** Only an empty text or a final newline leaves an empty last piece. */
  lemma LastPiece(text: string)
    ensures var pieces := Strings.Split(text, "\n");
            pieces[|pieces| - 1] == "" <==> text == "" || EndsInNewline(text)
  {
    var pieces := Strings.Split(text, "\n");
    if text == "" {
      Strings.SplitFree("", '\n');
    } else if EndsInNewline(text) {
      var body := text[..|text| - 1];
      assert text == body + "\n" + "";
      Strings.SplitAppend(body, '\n', "");
      Strings.SplitFree("", '\n');
    } else if pieces[|pieces| - 1] == "" {
      Strings.JoinSplit(text, "\n");
      JoinLast(pieces);
    }
  }

  lemma {:induction false} JoinLast(pieces: seq<string>)
    requires pieces != [] && pieces[|pieces| - 1] == ""
    ensures Strings.Join(pieces, "\n") == "" || EndsInNewline(Strings.Join(pieces, "\n"))
  {
    if |pieces| > 1 {
      JoinLast(pieces[1..]);
    }
  }

  /** After a newline, only the last lines can lack their end. */
  lemma LinesAfterNewline(a: string, b: string)
    ensures RawLines(a + "\n" + b) == Strings.Split(a, "\n") + RawLines(b)
  {
    Strings.SplitAppend(a, '\n', b);
    DropOfAppend(Strings.Split(a, "\n"), Strings.Split(b, "\n"));
  }

  lemma LinesOfEnded(body: string)
    ensures RawLines(body + "\n") == Strings.Split(body, "\n")
  {
    LinesAfterNewline(body, "");
    Strings.SplitFree("", '\n');
    assert body + "\n" + "" == body + "\n";
  }

  /** The lines of newline-terminated text come before the lines of what follows it. */
  lemma LinesAppend(a: string, b: string)
    ensures RawLines(WithNewline(a) + b) == RawLines(a) + RawLines(b)
  {
    if a == "" {
      Strings.SplitFree("", '\n');
      assert WithNewline(a) + b == b;
    } else if EndsInNewline(a) {
      var body := a[..|a| - 1];
      assert a == body + "\n";
      LinesOfEnded(body);
      LinesAfterNewline(body, b);
    } else {
      LastPiece(a);
      LinesAfterNewline(a, b);
    }
  }

  /** Leaving out an empty last piece happens at the end of the second list only. */
  lemma DropOfAppend(a: seq<string>, b: seq<string>)
    requires b != []
    ensures (a + b)[|a + b| - 1] == b[|b| - 1]
    ensures (a + b)[..|a + b| - 1] == a + b[..|b| - 1]
  {
  }

  lemma LinesCons(line: string, rest: string)
    requires '\n' !in line
    ensures RawLines(line + "\n" + rest) == [line] + RawLines(rest)
  {
    Strings.SplitCons(line, '\n', rest);
    var pieces := Strings.Split(rest, "\n");
    assert ([line] + pieces)[..|pieces|] == [line] + pieces[..|pieces| - 1];
  }

  /** Lines free of newlines come back one by one. */
  lemma {:induction false} LinesOfTerminated(lines: seq<string>, rest: string)
    requires forall l :: l in lines ==> '\n' !in l
    ensures RawLines(Terminated(lines) + rest) == lines + RawLines(rest)
  {
    if lines == [] {
      assert Terminated(lines) + rest == rest;
    } else {
      var first, others := lines[0], lines[1..];
      LinesOfTerminated(others, rest);
      LinesCons(first, Terminated(others) + rest);
      assert Terminated(lines) + rest == first + "\n" + (Terminated(others) + rest);
      Strings.ConsAppend(first, others, RawLines(rest));
      assert lines == [first] + others;
    }
  }

  /** Joined lines are the text, up to one final newline. */
  lemma JoinLines(text: string)
    ensures EndsInNewline(text) ==> Strings.Join(RawLines(text), "\n") == text[..|text| - 1]
    ensures !EndsInNewline(text) ==> Strings.Join(RawLines(text), "\n") == text
  {
    LastPiece(text);
    if EndsInNewline(text) {
      var body := text[..|text| - 1];
      assert text == body + "\n" + "";
      Strings.SplitAppend(body, '\n', "");
      Strings.SplitFree("", '\n');
      Strings.JoinSplit(body, "\n");
    } else if text == "" {
      Strings.SplitFree("", '\n');
    } else {
      Strings.JoinSplit(text, "\n");
    }
  }

  lemma RawLinesFree(text: string)
    ensures forall l :: l in RawLines(text) ==> '\n' !in l
  {
    Strings.SplitPiecesFree(text, '\n');
  }

  lemma {:induction false} JoinChars(lines: seq<string>, c: char)
    requires c != '\n' && c !in Strings.Join(lines, "\n")
    ensures forall l :: l in lines ==> c !in l
  {
    if |lines| > 1 {
      var rest := Strings.Join(lines[1..], "\n");
      var all := lines[0] + "\n" + rest;
      assert forall x :: x in lines[0] || x in rest ==> x in all;
      JoinChars(lines[1..], c);
      assert forall l :: l in lines <==> l == lines[0] || l in lines[1..];
    }
  }

  lemma {:induction false} AllFit(lines: seq<string>)
    requires forall l :: l in lines ==> |l| < MAX_SCAN_TOKEN_SIZE
    ensures TakeFitting(lines) == lines
  {
    if lines != [] {
      AllFit(lines[1..]);
    }
  }

  lemma DropCRFree(line: string)
    ensures '\r' !in line ==> DropCR(line) == line
    ensures |DropCR(line)| < |line| || DropCR(line) == line
  {
    if line != [] {
      assert line[|line| - 1..] == [line[|line| - 1]];
    }
  }

  lemma {:induction false} NoCRs(lines: seq<string>)
    requires forall l :: l in lines ==> '\r' !in l
    ensures DropCRs(lines) == lines
  {
    if lines != [] {
      assert lines[0] in lines;
      DropCRFree(lines[0]);
      NoCRs(lines[1..]);
    }
  }

  /** On plain text the scanner delivers just the lines. */
  lemma PlainLines(text: string)
    requires Plain(text)
    ensures ScannedLines(text) == RawLines(text)
  {
    Strings.JoinSplit(text, "\n");
    JoinChars(Strings.Split(text, "\n"), '\r');
    AllFit(RawLines(text));
    NoCRs(RawLines(text));
  }

  lemma {:induction false} FittingFirst(lines: seq<string>)
    ensures TakeFitting(lines) <= lines
    ensures forall l :: l in TakeFitting(lines) ==> |l| < 65536
    ensures |TakeFitting(lines)| < |lines| ==> |lines[|TakeFitting(lines)|]| >= 65536
  {
    if lines != [] && |lines[0]| < MAX_SCAN_TOKEN_SIZE {
      FittingFirst(lines[1..]);
    }
  }

  lemma {:induction false} DropCRsEach(lines: seq<string>)
    ensures |DropCRs(lines)| == |lines|
    ensures forall i :: 0 <= i < |lines| ==>
              var line := lines[i];
              DropCRs(lines)[i] == if line != "" && line[|line| - 1] == '\r' then line[..|line| - 1] else line
  {
    if lines != [] {
      DropCRsEach(lines[1..]);
      if lines[0] != "" {
        assert lines[0][|lines[0]| - 1..] == [lines[0][|lines[0]| - 1]];
      }
    }
  }

  /**
   What the scanner delivers, for any text: the lines before the first one of 65536 characters or more, in order,
   each without one carriage return at its end.
   */
  lemma ScannedMeans(text: string)
    ensures |ScannedLines(text)| <= |RawLines(text)|
    ensures forall i :: 0 <= i < |ScannedLines(text)| ==>
              var line := RawLines(text)[i];
              |line| < 65536
              && ScannedLines(text)[i] == if line != "" && line[|line| - 1] == '\r' then line[..|line| - 1] else line
    ensures |ScannedLines(text)| < |RawLines(text)| ==> |RawLines(text)[|ScannedLines(text)|]| >= 65536
  {
    var fitting := TakeFitting(RawLines(text));
    FittingFirst(RawLines(text));
    DropCRsEach(fitting);
    forall i | 0 <= i < |fitting| ensures fitting[i] == RawLines(text)[i] && fitting[i] in fitting {
    }
  }
}
