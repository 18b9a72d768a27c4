/** Which lines are headers, told from their text, and what each header does to a script. */
module HeaderForm {
  import opened Scripts
  import opened Lines
  import opened ScriptReader
  import opened ScriptRoundTrip
  import Strings

  const KEYS := {"subject", "name", "require", "html", "executor"}

  /** A first word that begins with "--*", one space, a known key, perhaps a colon, and perhaps a space and a value. */
  ghost predicate HeaderText(line: string, word: string, key: string, colon: string, more: string) {
    && line == word + " " + (key + colon + more)
    && "--*" <= word && ' ' !in word && key in KEYS
    && (colon == "" || colon == ":") && (more == "" || more[0] == ' ')
  }

  /** The value, if there is one. */
  function MoreValue(more: string): string {
    if more == "" then "" else more[1..]
  }

  lemma KeysPlain(key: string)
    ensures key in KEYS <==> Recognised(key)
    ensures key in KEYS ==> ' ' !in key && ':' !in key && key != ""
  {
  }

  lemma TrimColon(word: string, key: string)
    requires ':' !in key
    ensures Strings.TrimSuffix(word, ":") == key ==> word == key || word == key + ":"
    ensures word == key || word == key + ":" ==> Strings.TrimSuffix(word, ":") == key
  {
    if |word| > 0 {
      assert word[|word| - 1..] == [word[|word| - 1]];
      assert word == word[..|word| - 1] + [word[|word| - 1]];
    }
    if word == key + ":" {
      TrimAdded(key, ":");
    }
  }

  lemma SecondWordAlone(word: string, second: string)
    requires "--*" <= word && ' ' !in word && ' ' !in second
    ensures HeaderKey(word + " " + second) == Strings.TrimSuffix(second, ":") && HeaderValue(word + " " + second) == ""
  {
    Strings.SplitCons(word, ' ', second);
    Strings.SplitFree(second, ' ');
    assert [word] + [second] == [word, second];
    PatternKept(word, second);
  }

  lemma SecondWordAndValue(word: string, second: string, value: string)
    requires "--*" <= word && ' ' !in word && ' ' !in second
    ensures var line := word + " " + (second + " " + value);
            HeaderKey(line) == Strings.TrimSuffix(second, ":") && HeaderValue(line) == value
  {
    Strings.SplitCons(word, ' ', second + " " + value);
    Strings.SplitCons(second, ' ', value);
    TwoInFront(word, second, Strings.Split(value, " "));
    Strings.JoinSplit(value, " ");
    PatternKept(word, second + " " + value);
  }

  lemma PatternKept(word: string, tail: string)
    requires "--*" <= word
    ensures HEADER_PATTERN <= word + " " + tail
  {
    assert (word + " " + tail)[..3] == word[..3];
  }

  /** Lines of this form are headers with that key and value. */
  lemma HeaderTextReads(line: string, word: string, key: string, colon: string, more: string)
    requires HeaderText(line, word, key, colon, more)
    ensures IsHeader(line) && HeaderKey(line) == key && HeaderValue(line) == MoreValue(more)
  {
    var second := key + colon;
    KeysPlain(key);
    assert key + "" == key;
    TrimColon(second, key);
    if more == "" {
      assert second + more == second;
      SecondWordAlone(word, second);
    } else {
      assert second + more == second + " " + more[1..];
      SecondWordAndValue(word, second, more[1..]);
    }
  }

  lemma FirstWord(line: string) returns (word: string, tail: string)
    requires "--*" <= line && ' ' in line
    ensures line == word + " " + tail && ' ' !in word && "--*" <= word
    ensures Strings.Split(line, " ") == [word] + Strings.Split(tail, " ")
  {
    word, tail := Strings.Peel(line, ' ');
    assert line[0] == '-' && line[1] == '-' && line[2] == '*';
    assert line[|word|] == ' ';
    assert |word| >= 3 && forall i :: 0 <= i < 3 ==> word[i] == line[i];
  }

  lemma HasSecondWord(line: string)
    requires IsHeader(line)
    ensures "--*" <= line && ' ' in line
  {
    if ' ' !in line {
      Strings.SplitFree(line, ' ');
    }
  }

  /** A text up to its first space, and the rest from that space on. */
  lemma SplitOff(text: string) returns (head: string, more: string)
    ensures text == head + more && (more == "" || more[0] == ' ') && Strings.Split(text, " ")[0] == head
  {
    if ' ' in text {
      var tail;
      head, tail := Strings.Peel(text, ' ');
      more := " " + tail;
      assert text == head + more;
    } else {
      Strings.SplitFree(text, ' ');
      head, more := text, "";
      assert head + more == text;
    }
  }

  lemma KeyIsSecondWord(line: string, word: string, tail: string)
    requires IsHeader(line) && Strings.Split(line, " ") == [word] + Strings.Split(tail, " ")
    ensures HeaderKey(line) == Strings.TrimSuffix(Strings.Split(tail, " ")[0], ":")
  {
  }

  /** Every header has this form. */
  lemma HeaderHasText(line: string) returns (word: string, key: string, colon: string, more: string)
    requires IsHeader(line)
    ensures HeaderText(line, word, key, colon, more)
  {
    HasSecondWord(line);
    var tail, second;
    word, tail := FirstWord(line);
    second, more := SplitOff(tail);
    KeyIsSecondWord(line, word, tail);
    key := HeaderKey(line);
    KeysPlain(key);
    TrimColon(second, key);
    colon := if second == key then "" else ":";
    assert key + "" == key;
  }

  /** A line is a header exactly if it has the form, which then gives the key and the value. */
  lemma HeaderIff(line: string)
    ensures IsHeader(line) <==> exists word, key, colon, more :: HeaderText(line, word, key, colon, more)
    ensures forall word, key, colon, more :: HeaderText(line, word, key, colon, more) ==>
              HeaderKey(line) == key && HeaderValue(line) == MoreValue(more)
  {
    if IsHeader(line) {
      var word, key, colon, more := HeaderHasText(line);
    }
    forall word, key, colon, more | HeaderText(line, word, key, colon, more)
      ensures IsHeader(line) && HeaderKey(line) == key && HeaderValue(line) == MoreValue(more)
    {
      HeaderTextReads(line, word, key, colon, more);
    }
  }

  /** Text none of whose lines begins with "--*" is all content, and sets no field of the script. */
  lemma PlainSourceKept(scr: Script, text: string)
    requires forall l :: l in ScannedLines(text) ==> !("--*" <= l)
    ensures ReadInto(scr, text) == scr.(content := Strings.Join(ScannedLines(text), "\n"))
  {
    var lines := ScannedLines(text);
    forall l | l in lines ensures !IsHeader(l) {
      HeaderNeedsPattern(l);
    }
    ReadMeans(scr, text);
    NoHeadersAllContent(lines);
    NoHeadersNoValues("subject", lines);
    NoHeadersNoValues("name", lines);
    NoHeadersNoValues("html", lines);
    NoHeadersNoValues("executor", lines);
    NoHeadersNoValues("require", lines);
    assert scr.libKeys + [] == scr.libKeys;
  }

  lemma HeaderNeedsPattern(line: string)
    ensures IsHeader(line) ==> "--*" <= line
  {
  }

  /** What a script's field is after reading lines in which one header is the last of its key. */
  lemma LastHeaderWins(scr: Script, before: seq<string>, line: string, after: seq<string>)
    requires forall l :: l in after ==> HeaderKey(l) != HeaderKey(line)
    ensures var r := TakeLines(Reading(scr, ""), before + [line] + after).scr;
            && (HeaderKey(line) == "subject" ==> r.subject == HeaderValue(line))
            && (HeaderKey(line) == "name" ==> r.name == HeaderValue(line))
            && (HeaderKey(line) == "executor" ==> r.executor == HeaderValue(line))
            && (HeaderKey(line) == "html" ==>
                  (r.html <==> HeaderValue(line) in {"1", "t", "T", "TRUE", "true", "True"}))
  {
    var key := HeaderKey(line);
    ValuesOfAppend(key, before + [line], after);
    ValuesOfLine(key, before, line);
    OtherKeysNoValues(key, after);
    assert ValuesOf(key, before + [line]) + [] == ValuesOf(key, before + [line]);
    FieldsRead(scr, before + [line] + after);
  }

  lemma {:induction false} OtherKeysNoValues(key: string, lines: seq<string>)
    requires forall l :: l in lines ==> HeaderKey(l) != key
    ensures ValuesOf(key, lines) == []
  {
    if lines != [] {
      assert lines[|lines| - 1] in lines;
      OtherKeysNoValues(key, lines[..|lines| - 1]);
    }
  }

  /** Required libraries add up, in the order of their lines, after those that the script had. */
  lemma RequiresAddUp(scr: Script, a: seq<string>, line: string, b: seq<string>)
    requires HeaderKey(line) == "require"
    ensures TakeLines(Reading(scr, ""), a + [line] + b).scr.libKeys
            == scr.libKeys + ValuesOf("require", a) + [HeaderValue(line)] + ValuesOf("require", b)
  {
    ValuesOfAppend("require", a + [line], b);
    ValuesOfLine("require", a, line);
    FieldsRead(scr, a + [line] + b);
    FourParts(scr.libKeys, ValuesOf("require", a), [HeaderValue(line)], ValuesOf("require", b));
  }

  lemma FourParts(a: seq<string>, b: seq<string>, c: seq<string>, d: seq<string>)
    ensures a + (b + c + d) == a + b + c + d
  {
  }
}
