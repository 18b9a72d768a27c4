/** Reading a script: header lines fill its fields, all other lines are its content. */
module ScriptReader {
  import opened Scripts
  import opened Lines
  import Strings

  const HEADER_PATTERN := "--*"

  function HeaderKey(line: string): string {
    if HEADER_PATTERN <= line then
      var ss := Strings.Split(line, " ");
      if |ss| >= 2 then Strings.TrimSuffix(ss[1], ":") else ""
    else
      ""
  }

  function HeaderValue(line: string): string {
    var ss := Strings.Split(line, " ");
    if |ss| >= 3 then Strings.Join(ss[2..], " ") else ""
  }

  /** strconv.ParseBool, with every text it refuses read as false. */
  predicate ParseBool(v: string) {
    v in {"1", "t", "T", "TRUE", "true", "True"}
  }

  predicate Recognised(key: string) {
    key == "subject" || key == "name" || key == "require" || key == "html" || key == "executor"
  }

  predicate IsHeader(line: string) {
    Recognised(HeaderKey(line))
  }

  /** The state of the scan loop: the script's fields and the content built so far. */
  datatype Reading = Reading(scr: Script, body: string)

  function TakeLine(r: Reading, line: string): Reading {
    var k, v := HeaderKey(line), HeaderValue(line);
    if k == "subject" then r.(scr := r.scr.(subject := v))
    else if k == "name" then r.(scr := r.scr.(name := v))
    else if k == "require" then r.(scr := r.scr.(libKeys := r.scr.libKeys + [v]))
    else if k == "html" then r.(scr := r.scr.(html := ParseBool(v)))
    else if k == "executor" then r.(scr := r.scr.(executor := v))
    else r.(body := r.body + line + "\n")
  }

  function TakeLines(r: Reading, lines: seq<string>): Reading {
    if lines == [] then r else TakeLine(TakeLines(r, lines[..|lines| - 1]), lines[|lines| - 1])
  }

  /** The script after reading a text into it. */
  function ReadInto(scr: Script, text: string): Script {
    var r := TakeLines(Reading(scr, ""), ScannedLines(text));
    r.scr.(content := Strings.TrimSuffix(r.body, "\n"))
  }

  function ReadString(text: string): Script {
    ReadInto(NEW_SCRIPT, text)
  }

  lemma NextLine(r: Reading, lines: seq<string>, i: nat)
    requires i < |lines|
    ensures TakeLines(r, lines[..i + 1]) == TakeLine(TakeLines(r, lines[..i]), lines[i])
  {
    assert lines[..i + 1][..i] == lines[..i];
  }

  /** A script being read, field by field. */
  class ScriptRecord {
    var content: string
    var executor: string
    var html: bool
    var libKeys: seq<string>
    var name: string
    var subject: string

    function Value(): Script
      reads this
    {
      Script(content, executor, html, libKeys, name, subject)
    }

    constructor ()
      ensures Value() == NEW_SCRIPT
    {
      content, executor, html, libKeys, name, subject := "", "", false, [], "", "";
    }

    method Read(text: string)
      modifies this
      ensures Value() == ReadInto(old(Value()), text)
    {
      var b := "";
      var lines := ScannedLines(text);
      ghost var start := Reading(Value(), "");
      for i := 0 to |lines|
        invariant Reading(Value(), b) == TakeLines(start, lines[..i])
      {
        var line := lines[i];
        ghost var r := Reading(Value(), b);
        var k, v := HeaderKey(line), HeaderValue(line);
        if k == "subject" {
          subject := v;
        } else if k == "name" {
          name := v;
        } else if k == "require" {
          libKeys := libKeys + [v];
        } else if k == "html" {
          html := ParseBool(v);
        } else if k == "executor" {
          executor := v;
        } else {
          b := b + line + "\n";
        }
        assert Reading(Value(), b) == TakeLine(r, line);
        NextLine(start, lines, i);
      }
      assert lines[..|lines|] == lines;
      content := Strings.TrimSuffix(b, "\n");
    }
  }

  /** The lines that are not headers, in order. */
  function ContentLines(lines: seq<string>): seq<string> {
    if lines == [] then []
    else
      var last := lines[|lines| - 1];
      ContentLines(lines[..|lines| - 1]) + if IsHeader(last) then [] else [last]
  }

  /** The values of one header, in order. */
  function ValuesOf(key: string, lines: seq<string>): seq<string> {
    if lines == [] then []
    else
      var last := lines[|lines| - 1];
      ValuesOf(key, lines[..|lines| - 1]) + if HeaderKey(last) == key then [HeaderValue(last)] else []
  }

  function LastOr(values: seq<string>, otherwise: string): string {
    if values == [] then otherwise else values[|values| - 1]
  }

  /** What reading lines into a script is meant to give. */
  function Meaning(scr: Script, lines: seq<string>): Script {
    Script(
      Strings.Join(ContentLines(lines), "\n"),
      LastOr(ValuesOf("executor", lines), scr.executor),
      if ValuesOf("html", lines) == [] then scr.html else ParseBool(LastOr(ValuesOf("html", lines), "")),
      scr.libKeys + ValuesOf("require", lines),
      LastOr(ValuesOf("name", lines), scr.name),
      LastOr(ValuesOf("subject", lines), scr.subject))
  }

  lemma ValuesOfLine(key: string, lines: seq<string>, line: string)
    ensures ValuesOf(key, lines + [line])
            == ValuesOf(key, lines) + if HeaderKey(line) == key then [HeaderValue(line)] else []
  {
    assert (lines + [line])[..|lines|] == lines;
  }

  lemma ContentOfLine(lines: seq<string>, line: string)
    ensures ContentLines(lines + [line]) == ContentLines(lines) + if IsHeader(line) then [] else [line]
    ensures Terminated(ContentLines(lines + [line]))
            == Terminated(ContentLines(lines)) + if IsHeader(line) then "" else line + "\n"
  {
    assert (lines + [line])[..|lines|] == lines;
    TerminatedAppend(ContentLines(lines), [line]);
    assert Terminated([line]) == line + "\n";
    assert ContentLines(lines) + [] == ContentLines(lines);
    assert Terminated(ContentLines(lines)) + "" == Terminated(ContentLines(lines));
  }

  lemma LastOfLine(key: string, lines: seq<string>, line: string, otherwise: string)
    ensures LastOr(ValuesOf(key, lines + [line]), otherwise)
            == if HeaderKey(line) == key then HeaderValue(line) else LastOr(ValuesOf(key, lines), otherwise)
    ensures HeaderKey(line) != key ==> ValuesOf(key, lines + [line]) == ValuesOf(key, lines)
    ensures HeaderKey(line) == key ==> ValuesOf(key, lines + [line]) != []
  {
    ValuesOfLine(key, lines, line);
    assert ValuesOf(key, lines) + [] == ValuesOf(key, lines);
  }

  /** One more line changes the meaning the way the scan loop changes the fields. */
  lemma MeaningOfLine(scr: Script, lines: seq<string>, line: string)
    ensures var m := Meaning(scr, lines).(content := scr.content);
            Meaning(scr, lines + [line]).(content := scr.content) == TakeLine(Reading(m, ""), line).scr
  {
    LastOfLine("subject", lines, line, scr.subject);
    LastOfLine("name", lines, line, scr.name);
    LastOfLine("executor", lines, line, scr.executor);
    LastOfLine("html", lines, line, "");
    ValuesOfLine("require", lines, line);
    assert scr.libKeys + (ValuesOf("require", lines) + [HeaderValue(line)])
        == scr.libKeys + ValuesOf("require", lines) + [HeaderValue(line)];
    assert ValuesOf("require", lines) + [] == ValuesOf("require", lines);
  }

  /** The body decides nothing about the fields, and a header adds nothing to the body. */
  lemma FieldsAndBody(r: Reading, line: string)
    ensures TakeLine(r, line).scr == TakeLine(Reading(r.scr, ""), line).scr
    ensures TakeLine(r, line).body == r.body + if IsHeader(line) then "" else line + "\n"
  {
    assert r.body + line + "\n" == r.body + (line + "\n");
    assert r.body + "" == r.body;
  }

  lemma TakeLast(r: Reading, lines: seq<string>, line: string)
    ensures TakeLines(r, lines + [line]) == TakeLine(TakeLines(r, lines), line)
  {
    assert (lines + [line])[..|lines|] == lines;
  }

  lemma {:induction false} FieldsRead(scr: Script, lines: seq<string>)
    ensures TakeLines(Reading(scr, ""), lines).scr == Meaning(scr, lines).(content := scr.content)
  {
    if lines == [] {
      assert scr.libKeys + [] == scr.libKeys;
    } else {
      var before, last := lines[..|lines| - 1], lines[|lines| - 1];
      assert lines == before + [last];
      FieldsRead(scr, before);
      TakeLast(Reading(scr, ""), before, last);
      FieldsAndBody(TakeLines(Reading(scr, ""), before), last);
      MeaningOfLine(scr, before, last);
    }
  }

  lemma {:induction false} BodyRead(scr: Script, lines: seq<string>)
    ensures TakeLines(Reading(scr, ""), lines).body == Terminated(ContentLines(lines))
  {
    if lines != [] {
      var before, last := lines[..|lines| - 1], lines[|lines| - 1];
      assert lines == before + [last];
      BodyRead(scr, before);
      TakeLast(Reading(scr, ""), before, last);
      FieldsAndBody(TakeLines(Reading(scr, ""), before), last);
      ContentOfLine(before, last);
    }
  }

  /** Reading is the declarative meaning of the scanned lines: last header wins, requires accumulate. */
  lemma ReadMeans(scr: Script, text: string)
    ensures ReadInto(scr, text) == Meaning(scr, ScannedLines(text))
  {
    var lines := ScannedLines(text);
    FieldsRead(scr, lines);
    BodyRead(scr, lines);
    TrimTerminated(ContentLines(lines));
  }

  lemma TrimTerminated(lines: seq<string>)
    ensures Strings.TrimSuffix(Terminated(lines), "\n") == Strings.Join(lines, "\n")
  {
    if lines != [] {
      TerminatedIsJoin(lines);
      TrimAdded(Strings.Join(lines, "\n"), "\n");
    }
  }

  lemma TrimAdded(s: string, suffix: string)
    ensures Strings.TrimSuffix(s + suffix, suffix) == s
  {
    assert (s + suffix)[|s|..] == suffix && (s + suffix)[..|s|] == s;
  }

  /** Every scanned line is used once: as the value of one of the five headers or as a content line. */
  lemma {:induction false} LinesUsedOnce(lines: seq<string>)
    ensures |lines| == |ContentLines(lines)| + |ValuesOf("subject", lines)| + |ValuesOf("name", lines)|
                       + |ValuesOf("require", lines)| + |ValuesOf("html", lines)| + |ValuesOf("executor", lines)|
  {
    if lines != [] {
      LinesUsedOnce(lines[..|lines| - 1]);
    }
  }

  /** What a line is used for: one of the five headers, or "" for content. */
  function UseOf(line: string): string {
    if IsHeader(line) then HeaderKey(line) else ""
  }

  function Uses(lines: seq<string>): seq<string> {
    seq(|lines|, i requires 0 <= i < |lines| => UseOf(lines[i]))
  }

  /** The positions with one use, in order. */
  function PositionsIn(uses: seq<string>, use: string): seq<nat> {
    if uses == [] then []
    else
      var last := |uses| - 1;
      PositionsIn(uses[..last], use) + if uses[last] == use then [last] else []
  }

  /** The positions of the lines with one use, in order. */
  function Positions(lines: seq<string>, use: string): seq<nat> {
    PositionsIn(Uses(lines), use)
  }

  lemma {:induction false} PositionIff(uses: seq<string>, use: string, i: nat)
    ensures i in PositionsIn(uses, use) <==> i < |uses| && uses[i] == use
  {
    if uses != [] {
      PositionIff(uses[..|uses| - 1], use, i);
    }
  }

  ghost predicate Increasing(ps: seq<nat>) {
    forall j, k :: 0 <= j < k < |ps| ==> ps[j] < ps[k]
  }

  lemma IncreasingAppend(ps: seq<nat>, n: nat)
    requires Increasing(ps) && forall k :: 0 <= k < |ps| ==> ps[k] < n
    ensures Increasing(ps + [n])
  {
  }

  lemma {:induction false} PositionsIncrease(uses: seq<string>, use: string)
    ensures Increasing(PositionsIn(uses, use))
    ensures forall k :: 0 <= k < |PositionsIn(uses, use)| ==> PositionsIn(uses, use)[k] < |uses|
  {
    if uses != [] {
      var last := |uses| - 1;
      PositionsIncrease(uses[..last], use);
      IncreasingAppend(PositionsIn(uses[..last], use), last);
      assert PositionsIn(uses[..last], use) + [] == PositionsIn(uses[..last], use);
    }
  }

  lemma UseKnown(line: string)
    ensures UseOf(line) == "" || Recognised(UseOf(line))
  {
  }

  /** Every line is at one position of one use, content or a known header, in the order of the lines. */
  lemma PositionsPartition(lines: seq<string>, i: nat)
    requires i < |lines|
    ensures UseOf(lines[i]) == "" || Recognised(UseOf(lines[i]))
    ensures forall use :: i in Positions(lines, use) <==> use == UseOf(lines[i])
    ensures forall use :: Increasing(Positions(lines, use))
  {
    UseKnown(lines[i]);
    var uses := Uses(lines);
    assert uses[i] == UseOf(lines[i]);
    forall use ensures (i in PositionsIn(uses, use) <==> use == uses[i]) && Increasing(PositionsIn(uses, use)) {
      PositionIff(uses, use, i);
      PositionsIncrease(uses, use);
    }
  }

  lemma LastUse(lines: seq<string>, line: string, use: string)
    ensures Positions(lines + [line], use)
            == Positions(lines, use) + if UseOf(line) == use then [|lines|] else []
  {
    assert Uses(lines + [line]) == Uses(lines) + [UseOf(line)];
    LastPosition(Uses(lines), UseOf(line), use);
  }

  lemma LastPosition(uses: seq<string>, last: string, use: string)
    ensures PositionsIn(uses + [last], use) == PositionsIn(uses, use) + if last == use then [|uses|] else []
  {
    assert (uses + [last])[..|uses|] == uses;
  }

  /** The picked values are those of the lines at the positions, in order. */
  ghost predicate PicksLines(lines: seq<string>, ps: seq<nat>, picked: seq<string>) {
    |picked| == |ps| && forall k :: 0 <= k < |ps| ==> ps[k] < |lines| && picked[k] == lines[ps[k]]
  }

  ghost predicate PicksValues(lines: seq<string>, ps: seq<nat>, picked: seq<string>) {
    |picked| == |ps| && forall k :: 0 <= k < |ps| ==> ps[k] < |lines| && picked[k] == HeaderValue(lines[ps[k]])
  }

  lemma PicksMore(lines: seq<string>, line: string, ps: seq<nat>, picked: seq<string>)
    ensures PicksLines(lines, ps, picked) ==>
              PicksLines(lines + [line], ps, picked) && PicksLines(lines + [line], ps + [|lines|], picked + [line])
    ensures PicksValues(lines, ps, picked) ==>
              && PicksValues(lines + [line], ps, picked)
              && PicksValues(lines + [line], ps + [|lines|], picked + [HeaderValue(line)])
  {
  }

  /** The content is the lines used as content. */
  lemma {:induction false} ContentInOrder(lines: seq<string>)
    ensures PicksLines(lines, Positions(lines, ""), ContentLines(lines))
  {
    if lines != [] {
      var before, last := lines[..|lines| - 1], lines[|lines| - 1];
      assert lines == before + [last];
      ContentInOrder(before);
      LastUse(before, last, "");
      ContentOfLine(before, last);
      PicksMore(before, last, Positions(before, ""), ContentLines(before));
      assert Positions(before, "") + [] == Positions(before, "") && ContentLines(before) + [] == ContentLines(before);
    }
  }

  /** A header's values are the values of the lines used for it. */
  lemma {:induction false} ValuesInOrder(lines: seq<string>, key: string)
    requires Recognised(key)
    ensures PicksValues(lines, Positions(lines, key), ValuesOf(key, lines))
  {
    if lines != [] {
      var before, last := lines[..|lines| - 1], lines[|lines| - 1];
      assert lines == before + [last];
      ValuesInOrder(before, key);
      LastUse(before, last, key);
      ValuesOfLine(key, before, last);
      PicksMore(before, last, Positions(before, key), ValuesOf(key, before));
      assert Positions(before, key) + [] == Positions(before, key);
      assert ValuesOf(key, before) + [] == ValuesOf(key, before);
    }
  }

  lemma {:induction false} ContentLinesAppend(a: seq<string>, b: seq<string>)
    ensures ContentLines(a + b) == ContentLines(a) + ContentLines(b)
  {
    if b == [] {
      assert a + b == a;
    } else {
      var last := |b| - 1;
      assert (a + b)[..|a + b| - 1] == a + b[..last];
      ContentLinesAppend(a, b[..last]);
    }
  }

  lemma {:induction false} ContentLineIff(lines: seq<string>, l: string)
    ensures l in ContentLines(lines) <==> l in lines && !IsHeader(l)
  {
    if lines != [] {
      var before, last := lines[..|lines| - 1], lines[|lines| - 1];
      assert lines == before + [last];
      ContentLineIff(before, l);
      ContentOfLine(before, last);
    }
  }

  lemma {:induction false} NoHeadersAllContent(lines: seq<string>)
    requires forall l :: l in lines ==> !IsHeader(l)
    ensures ContentLines(lines) == lines
  {
    if lines != [] {
      var before, last := lines[..|lines| - 1], lines[|lines| - 1];
      assert lines == before + [last];
      NoHeadersAllContent(before);
      ContentOfLine(before, last);
    }
  }

  /** The content lines are the lines that are no headers. */
  lemma ContentLinesKept(lines: seq<string>)
    ensures forall l :: l in ContentLines(lines) <==> l in lines && !IsHeader(l)
    ensures (forall l :: l in lines ==> !IsHeader(l)) ==> ContentLines(lines) == lines
  {
    forall l ensures l in ContentLines(lines) <==> l in lines && !IsHeader(l) {
      ContentLineIff(lines, l);
    }
    if forall l :: l in lines ==> !IsHeader(l) {
      NoHeadersAllContent(lines);
    }
  }

  /** Leaving a header line out makes the text shorter. */
  lemma {:induction false} ContentShorter(lines: seq<string>)
    ensures |Terminated(ContentLines(lines))| <= |Terminated(lines)|
    ensures |Terminated(ContentLines(lines))| == |Terminated(lines)| <==> ContentLines(lines) == lines
  {
    if lines != [] {
      var before, last := lines[..|lines| - 1], lines[|lines| - 1];
      ContentShorter(before);
      assert lines == before + [last];
      ContentOfLine(before, last);
      TerminatedAppend(before, [last]);
      assert Terminated([last]) == last + "\n";
    }
  }

  lemma {:induction false} ValuesOfAppend(key: string, a: seq<string>, b: seq<string>)
    ensures ValuesOf(key, a + b) == ValuesOf(key, a) + ValuesOf(key, b)
  {
    if b == [] {
      assert a + b == a;
    } else {
      var last := |b| - 1;
      assert (a + b)[..|a + b| - 1] == a + b[..last];
      ValuesOfAppend(key, a, b[..last]);
    }
  }

  lemma {:induction false} NoHeadersNoValues(key: string, lines: seq<string>)
    requires Recognised(key) && forall l :: l in lines ==> !IsHeader(l)
    ensures ValuesOf(key, lines) == []
  {
    if lines != [] {
      assert lines[|lines| - 1] in lines;
      NoHeadersNoValues(key, lines[..|lines| - 1]);
    }
  }
}
