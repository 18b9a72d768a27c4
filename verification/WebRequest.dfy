/** The web library's splitter and request parser, behind the HTTP proxy's URL rewriting. */
module WebRequest {
  import opened Wrappers
  import Strings

  function DropFirstEmpty(pieces: seq<string>): seq<string> {
    if pieces != [] && pieces[0] == "" then pieces[1..] else pieces
  }

  function DropLastEmpty(pieces: seq<string>): seq<string> {
    if pieces != [] && pieces[|pieces| - 1] == "" then pieces[..|pieces| - 1] else pieces
  }

  /** What string:split computes for a non-empty delimiter: one empty first and one empty last piece are lost. */
  function LuaSplit(s: string, d: string): seq<string>
    requires d != ""
  {
    DropLastEmpty(DropFirstEmpty(Strings.Split(s, d)))
  }

  /** The state of the split loop: the pieces done so far, those still to come, and the result made of the first. */
  ghost predicate Splitting(all: seq<string>, done: seq<string>, rest: seq<string>, result: seq<string>) {
    all == done + rest && result == DropFirstEmpty(done)
  }

  lemma NextPiece(s: string, from: nat, at: nat, next: nat)
    requires from <= at <= next <= |s|
    ensures s[from..][..at - from] == s[from..at] && s[from..][next - from..] == s[next..]
  {
  }

  lemma CutRest(rest: string, d: string, piece: string, after: string)
    requires d != "" && Strings.Find(rest, d, 0) == Some(|piece|)
    requires piece == rest[..|piece|] && after == rest[|piece| + |d|..]
    ensures Strings.Split(rest, d) == [piece] + Strings.Split(after, d)
  {
    Strings.SplitFound(rest, d, |piece|);
  }

  lemma CutOnce(s: string, d: string, from: nat, at: nat)
    requires d != "" && from <= |s| && Strings.Find(s, d, from) == Some(at)
    ensures Strings.Split(s[from..], d) == [s[from..at]] + Strings.Split(s[at + |d|..], d)
  {
    Strings.FindShift(s, d, from);
    NextPiece(s, from, at, at + |d|);
    CutRest(s[from..], d, s[from..at], s[at + |d|..]);
  }

  lemma DropOneMore(done: seq<string>, piece: string)
    ensures DropFirstEmpty(done + [piece])
            == if done == [] && piece == "" then [] else DropFirstEmpty(done) + [piece]
  {
    if done != [] {
      assert (done + [piece])[1..] == done[1..] + [piece];
    }
  }

  /** One turn of the loop moves one piece over; an empty first one is left out of the result. */
  lemma PieceDone(all: seq<string>, done: seq<string>, piece: string, rest: seq<string>, result: seq<string>)
    requires Splitting(all, done, [piece] + rest, result)
    ensures Splitting(all, done + [piece], rest, if done == [] && piece == "" then [] else result + [piece])
  {
    assert done + ([piece] + rest) == (done + [piece]) + rest;
    DropOneMore(done, piece);
  }

  lemma SplitEnd(s: string, d: string, done: seq<string>, from: nat, result: seq<string>)
    requires d != "" && from <= |s| && Strings.Find(s, d, from).None? && (from == 0 <==> done == [])
    requires Splitting(Strings.Split(s, d), done, Strings.Split(s[from..], d), result)
    ensures LuaSplit(s, d) == if from < |s| then result + [s[from..]] else result
  {
    Strings.FindShift(s, d, from);
    PieceDone(Strings.Split(s, d), done, s[from..], [], result);
  }

  /** string:split: its loop goes on forever for an empty delimiter, which no caller passes. */
  method SplitString(self: string, delimiter: string) returns (result: seq<string>)
    requires delimiter != ""
    ensures result == LuaSplit(self, delimiter)
  {
    result := [];
    var from := 0;
    var found := Strings.Find(self, delimiter, from);
    ghost var done: seq<string> := [];
    while found.Some?
      invariant from <= |self| && (from == 0 <==> done == [])
      invariant Splitting(Strings.Split(self, delimiter), done, Strings.Split(self[from..], delimiter), result)
      invariant found == Strings.Find(self, delimiter, from)
      decreases |self| - from
    {
      var at := found.value;
      CutOnce(self, delimiter, from, at);
      PieceDone(Strings.Split(self, delimiter), done, self[from..at], Strings.Split(self[at + |delimiter|..], delimiter),
                result);
      if at != 0 {
        result := result + [self[from..at]];
      }
      done := done + [self[from..at]];
      from := at + |delimiter|;
      found := Strings.Find(self, delimiter, from);
    }
    SplitEnd(self, delimiter, done, from, result);
    if from < |self| {
      result := result + [self[from..]];
    }
  }

  /** The pieces rebuild the text up to one leading and one trailing delimiter. */
  lemma SplitRebuilds(s: string, d: string)
    requires d != ""
    ensures var lead := if d <= s then d else "";
            || s == lead + Strings.Join(LuaSplit(s, d), d)
            || s == lead + Strings.Join(LuaSplit(s, d), d) + d
  {
    LeadingRebuilds(s, d);
    TrailingRebuilds(DropFirstEmpty(Strings.Split(s, d)), d, if d <= s then d else "");
  }

  lemma TrailingRebuilds(pieces: seq<string>, d: string, lead: string)
    ensures var all, kept := lead + Strings.Join(pieces, d), lead + Strings.Join(DropLastEmpty(pieces), d);
            all == kept || all == kept + d
  {
    if pieces != [] && pieces[|pieces| - 1] == "" {
      JoinDropLast(pieces, d);
      var kept := Strings.Join(pieces[..|pieces| - 1], d);
      assert lead + (kept + d) == lead + kept + d && kept + "" == kept;
    }
  }

  lemma LeadingRebuilds(s: string, d: string)
    requires d != ""
    ensures s == (if d <= s then d else "") + Strings.Join(DropFirstEmpty(Strings.Split(s, d)), d)
  {
    Strings.JoinSplit(s, d);
    LeadingPiece(s, d);
  }

  /** The first piece is empty for the empty text and for text that begins with the delimiter. */
  lemma LeadingPiece(s: string, d: string)
    requires d != ""
    ensures var pieces := Strings.Split(s, d);
            && (pieces[0] == "" <==> s == "" || d <= s)
            && (d <= s <==> pieces[0] == "" && |pieces| > 1)
  {
    assert d <= s <==> Strings.OccursAt(s, d, 0);
  }

  lemma {:induction false} JoinDropLast(pieces: seq<string>, d: string)
    requires pieces != []
    ensures pieces[|pieces| - 1] == "" ==>
              Strings.Join(pieces, d) == Strings.Join(pieces[..|pieces| - 1], d) + if |pieces| > 1 then d else ""
  {
    if |pieces| > 1 {
      JoinDropLast(pieces[1..], d);
      Middle(pieces);
    }
  }

  lemma Middle(pieces: seq<string>)
    requires |pieces| > 1
    ensures pieces[1..][..|pieces| - 2] == pieces[..|pieces| - 1][1..]
  {
    assert pieces[1..][..|pieces| - 2] == pieces[1..|pieces| - 1];
    assert pieces[..|pieces| - 1][1..] == pieces[1..|pieces| - 1];
  }

  /** No piece has the delimiter in it. */
  lemma {:induction false} PiecesWhole(s: string, d: string)
    requires d != ""
    ensures forall p :: p in Strings.Split(s, d) ==> !Strings.Contains(p, d)
    decreases |s|
  {
    Strings.FindIsFirst(s, d, 0);
    match Strings.Find(s, d, 0)
    case None =>
    case Some(i) =>
      PiecesWhole(s[i + |d|..], d);
      BeforeFirst(s, d, i);
  }

  lemma BeforeFirst(s: string, d: string, i: nat)
    requires d != "" && i <= |s| && forall j: nat :: Strings.OccursAt(s, d, j) ==> i <= j
    ensures !Strings.Contains(s[..i], d)
  {
    forall j: nat ensures Strings.OccursAt(s[..i], d, j) ==> Strings.OccursAt(s, d, j) {
      if j + |d| <= i {
        assert s[..i][j..j + |d|] == s[j..j + |d|];
      }
    }
  }

  lemma SplitWholePieces(s: string, d: string)
    requires d != ""
    ensures forall p :: p in LuaSplit(s, d) ==> !Strings.Contains(p, d)
  {
    PiecesWhole(s, d);
  }

  /** Cutting at a leading delimiter leaves an empty first piece. */
  lemma SplitLeading(d: string, rest: string)
    requires d != ""
    ensures Strings.Split(d + rest, d) == [""] + Strings.Split(rest, d)
  {
    assert Strings.OccursAt(d + rest, d, 0) && "" + d + rest == d + rest;
    Strings.FindIs(d + rest, d, 0, 0);
    Strings.SplitAtFirst("", d, rest);
  }

  lemma SplitNothing(d: string)
    requires d != ""
    ensures Strings.Split("", d) == [""]
  {
    assert !Strings.Contains("", d);
    Strings.SplitWhole("", d);
  }

  lemma DelimitersOnly(d: string)
    requires d != ""
    ensures LuaSplit("", d) == [] && LuaSplit(d, d) == [] && LuaSplit(d + d, d) == [""]
  {
    SplitNothing(d);
    SplitLeading(d, "");
    assert d + "" == d && [""] + [""] == ["", ""] && [""] + ["", ""] == ["", "", ""];
    SplitLeading(d, d);
  }

  /** Exactly the empty text and the delimiter alone give no piece, and exactly two delimiters one empty piece. */
  lemma SplitEmptyIff(s: string, d: string)
    requires d != ""
    ensures LuaSplit(s, d) == [] <==> s == "" || s == d
    ensures LuaSplit(s, d) == [""] <==> s == d + d
  {
    DelimitersOnly(d);
    SplitRebuilds(s, d);
    assert "" + "" == "" && "" + d == d && d + "" == d && d + "" + d == d + d;
  }

  /** One field of a query string stored in the table; a nil key is an error, a nil value erases. */
  function StoreField(queries: map<string, string>, field: string): Result<map<string, string>> {
    var eq := LuaSplit(field, "=");
    if eq == [] then Err("table index is nil")
    else if |eq| == 1 then Ok(queries - {eq[0]})
    else Ok(queries[eq[0] := eq[1]])
  }

  function StoreFields(fields: seq<string>): Result<map<string, string>> {
    if fields == [] then Ok(map[])
    else
      match StoreFields(fields[..|fields| - 1])
      case Err(e) => Err(e)
      case Ok(queries) => StoreField(queries, fields[|fields| - 1])
  }

  function QueryTable(query: string): Result<map<string, string>> {
    StoreFields(LuaSplit(query, "&"))
  }

  /** parseQuery: the guard compares a position with 0 and so is always true. */
  method ParseQuery(queryStr: string) returns (r: Result<map<string, string>>)
    ensures r == QueryTable(queryStr)
  {
    var queries: map<string, string> := map[];
    var fields := SplitString(queryStr, "&");
    for i := 0 to |fields|
      invariant Ok(queries) == StoreFields(fields[..i])
    {
      assert fields[..i + 1][..i] == fields[..i];
      var eq := SplitString(fields[i], "=");
      if |eq| == 0 {
        PrefixError(fields, i + 1);
        return Err("table index is nil");
      }
      if |eq| == 1 {
        queries := queries - {eq[0]};
      } else {
        queries := queries[eq[0] := eq[1]];
      }
    }
    assert fields[..|fields|] == fields;
    return Ok(queries);
  }

  lemma {:induction false} PrefixError(fields: seq<string>, n: nat)
    requires n <= |fields| && StoreFields(fields[..n]).Err?
    ensures StoreFields(fields) == StoreFields(fields[..n])
  {
    if n == |fields| {
      assert fields[..n] == fields;
    } else {
      var last := |fields| - 1;
      assert fields[..last][..n] == fields[..n];
      PrefixError(fields[..last], n);
    }
  }

  /** A query string is refused exactly when one of its fields is empty or a bare equals sign. */
  lemma {:induction false} QueryErrorIff(fields: seq<string>)
    ensures StoreFields(fields).Err? <==> exists i :: 0 <= i < |fields| && (fields[i] == "" || fields[i] == "=")
  {
    if fields != [] {
      var last := |fields| - 1;
      QueryErrorIff(fields[..last]);
      if StoreFields(fields[..last]).Ok? {
        FieldErrorIff(StoreFields(fields[..last]).value, fields[last]);
      }
      assert forall i :: 0 <= i < last ==> fields[..last][i] == fields[i];
      if i :| 0 <= i < |fields| && (fields[i] == "" || fields[i] == "=") && i < last {
        assert fields[..last][i] == fields[i];
      }
    }
  }

  lemma FieldErrorIff(queries: map<string, string>, field: string)
    ensures StoreField(queries, field).Err? <==> field == "" || field == "="
    ensures field == "" || field == "=" ==> StoreField(queries, field) == Err("table index is nil")
  {
    SplitEmptyIff(field, "=");
  }

  /** A query with one more field is the query's table with that field stored. */
  lemma QueryOneMore(fields: seq<string>, field: string)
    requires forall f :: f in fields + [field] ==> f != "" && '&' !in f
    ensures QueryTable(Strings.Join(fields + [field], "&"))
            == match QueryTable(Strings.Join(fields, "&"))
               case Err(e) => Err(e)
               case Ok(queries) => StoreField(queries, field)
  {
    assert forall f :: f in fields ==> f in fields + [field];
    LuaSplitJoin(fields + [field], '&');
    LuaSplitJoin(fields, '&');
    assert (fields + [field])[..|fields|] == fields;
  }

  /** The table without one key; other keys keep their values. */
  function Erased(queries: map<string, string>, key: string): (r: map<string, string>)
    ensures forall k :: k in r <==> k in queries && k != key
    ensures forall k :: k in r ==> r[k] == queries[k]
  {
    queries - {key}
  }

  lemma KeyAlone(key: string)
    requires key != "" && '=' !in key
    ensures LuaSplit(key, "=") == [key] && LuaSplit(key + "=", "=") == [key]
  {
    Strings.SplitFree(key, '=');
    Strings.SplitCons(key, '=', "");
    Strings.SplitFree("", '=');
    assert key + "=" + "" == key + "=" && [key] + [""] == [key, ""];
  }

  /** Whatever follows a second delimiter, the first two pieces are those before it. */
  lemma TwoAndMore(first: string, c: char, second: string, more: string)
    requires first != "" && c !in first && c !in second
    ensures |LuaSplit(first + [c] + second + [c] + more, [c])| >= 2
    ensures LuaSplit(first + [c] + second + [c] + more, [c])[0] == first
    ensures LuaSplit(first + [c] + second + [c] + more, [c])[1] == second
  {
    Strings.SplitAppend(first + [c] + second, c, more);
    Strings.SplitCons(first, c, second);
    Strings.SplitFree(second, c);
    assert [first] + [second] == [first, second];
    var pieces := Strings.Split(more, [c]);
    assert DropFirstEmpty([first, second] + pieces) == [first, second] + pieces;
  }

  /**
   What one field does to the table. A key without "=", and a key with an empty value, erase the key; of two or more
   "=" the text between the first two is the value; a leading "=" does not count.
   */
  lemma FieldMeans(queries: map<string, string>, key: string, value: string, more: string)
    requires key != "" && '=' !in key && '=' !in value
    ensures StoreField(queries, key) == Ok(Erased(queries, key))
    ensures StoreField(queries, key + "=") == Ok(Erased(queries, key))
    ensures value != "" ==> StoreField(queries, key + "=" + value) == Ok(queries[key := value])
    ensures StoreField(queries, key + "=" + value + "=" + more) == Ok(queries[key := value])
  {
    KeyAlone(key);
    TwoAndMore(key, '=', value, more);
    if value != "" {
      Strings.SplitCons(key, '=', value);
      Strings.SplitFree(value, '=');
      assert [key] + [value] == [key, value];
    }
  }

  lemma LeadingEquals(queries: map<string, string>, field: string)
    requires field != "" && field[0] != '='
    ensures StoreField(queries, "=" + field) == StoreField(queries, field)
  {
    LeadingDropped(field, '=');
  }

  lemma LeadingDropped(text: string, c: char)
    requires text != "" && text[0] != c
    ensures LuaSplit([c] + text, [c]) == LuaSplit(text, [c])
  {
    assert "" + [c] + text == [c] + text;
    Strings.SplitCons("", c, text);
    LeadingPiece(text, [c]);
    assert ([""] + Strings.Split(text, [c]))[1..] == Strings.Split(text, [c]);
  }

  type Pair = (string, string)

  function Field(pair: Pair): string {
    pair.0 + "=" + pair.1
  }

  function RenderFields(pairs: seq<Pair>): seq<string> {
    seq(|pairs|, i requires 0 <= i < |pairs| => Field(pairs[i]))
  }

  function RenderQuery(pairs: seq<Pair>): string {
    Strings.Join(RenderFields(pairs), "&")
  }

  /** The table of a list of pairs: the last value of a key wins. */
  function Table(pairs: seq<Pair>): map<string, string> {
    if pairs == [] then map[] else Table(pairs[..|pairs| - 1])[pairs[|pairs| - 1].0 := pairs[|pairs| - 1].1]
  }

  predicate CleanText(s: string) {
    s != "" && '&' !in s && '=' !in s
  }

  ghost predicate Clean(pairs: seq<Pair>) {
    forall i :: 0 <= i < |pairs| ==> CleanText(pairs[i].0) && CleanText(pairs[i].1)
  }

  lemma FieldSplits(key: string, value: string)
    requires CleanText(key) && CleanText(value)
    ensures LuaSplit(key + "=" + value, "=") == [key, value]
  {
    Strings.SplitCons(key, '=', value);
    Strings.SplitFree(value, '=');
  }

  /** Storing one more clean pair. */
  lemma StoreNext(fields: seq<string>, queries: map<string, string>, pair: Pair)
    requires StoreFields(fields) == Ok(queries) && CleanText(pair.0) && CleanText(pair.1)
    ensures StoreFields(fields + [Field(pair)]) == Ok(queries[pair.0 := pair.1])
  {
    FieldSplits(pair.0, pair.1);
    assert (fields + [Field(pair)])[..|fields|] == fields;
  }

  lemma {:induction false} FieldsStored(pairs: seq<Pair>)
    requires Clean(pairs)
    ensures StoreFields(RenderFields(pairs)) == Ok(Table(pairs))
  {
    if pairs != [] {
      var before, last := pairs[..|pairs| - 1], pairs[|pairs| - 1];
      FieldsStored(before);
      StoreNext(RenderFields(before), Table(before), last);
      assert RenderFields(pairs) == RenderFields(before) + [Field(last)];
    }
  }

  /** Pieces without the separator and without empty edges survive joining and splitting. */
  lemma LuaSplitJoin(parts: seq<string>, c: char)
    requires forall p :: p in parts ==> p != "" && c !in p
    ensures LuaSplit(Strings.Join(parts, [c]), [c]) == parts
  {
    if parts == [] {
      Strings.SplitFree("", c);
    } else {
      Strings.SplitJoin(parts, c);
      assert parts[0] in parts && parts[|parts| - 1] in parts;
    }
  }

  /** No key and no value has the character. */
  ghost predicate Lack(pairs: seq<Pair>, c: char) {
    forall i :: 0 <= i < |pairs| ==> c !in pairs[i].0 && c !in pairs[i].1
  }

  lemma RenderedLack(pairs: seq<Pair>, c: char)
    requires Lack(pairs, c) && c != '&' && c != '='
    ensures c !in RenderQuery(pairs)
  {
    var fields := RenderFields(pairs);
    forall f | f in fields ensures c !in f {
      var i :| 0 <= i < |fields| && fields[i] == f;
      assert c !in pairs[i].0 && c !in pairs[i].1;
    }
    NotInJoin(fields, "&", c);
  }

  /** Query round trip: writing clean pairs as a query string and parsing it gives their table. */
  lemma QueryRoundTrip(pairs: seq<Pair>)
    requires Clean(pairs)
    ensures QueryTable(RenderQuery(pairs)) == Ok(Table(pairs))
    ensures Lack(pairs, '?') ==> '?' !in RenderQuery(pairs)
  {
    if Lack(pairs, '?') {
      RenderedLack(pairs, '?');
    }
    var fields := RenderFields(pairs);
    forall f | f in fields ensures f != "" && '&' !in f {
      var i :| 0 <= i < |fields| && fields[i] == f;
      assert CleanText(pairs[i].0) && CleanText(pairs[i].1);
    }
    LuaSplitJoin(fields, '&');
    FieldsStored(pairs);
  }

  lemma {:induction false} NotInJoin(parts: seq<string>, d: string, c: char)
    requires c !in d && forall p :: p in parts ==> c !in p
    ensures c !in Strings.Join(parts, d)
  {
    if parts != [] {
      assert parts[0] in parts;
      NotInJoin(parts[1..], d, c);
    }
  }

  datatype Parsed = Parsed(path: string, query: map<string, string>)

  function WithQuery(path: string, query: string): Result<Parsed> {
    match QueryTable(query)
    case Err(e) => Err(e)
    case Ok(table) => Ok(Parsed(path, table))
  }

  /** parseRequest: only a GET has its query string split off. */
  function RequestOf(verb: string, url: string): Result<Parsed> {
    if verb != "GET" then WithQuery(url, "")
    else
      var ss := LuaSplit(url, "?");
      if ss == [] then Err("string expected, got nil")
      else if |ss| == 1 then WithQuery(if ss[0] == "" then "/" else ss[0], "")
      else WithQuery(ss[0], ss[1])
  }

  /** Every verb but GET has the whole URL as its path and no query. */
  lemma OtherVerbs(verb: string, url: string)
    requires verb != "GET"
    ensures RequestOf(verb, url) == Ok(Parsed(url, map[]))
  {
    SplitEmptyIff("", "&");
    assert StoreFields([]) == Ok(map[]);
  }

  method ParseRequest(verb: string, url: string) returns (r: Result<Parsed>)
    ensures r == RequestOf(verb, url)
    ensures verb != "GET" ==> r == Ok(Parsed(url, map[]))
  {
    if verb != "GET" {
      OtherVerbs(verb, url);
    }
    var queryStr := "";
    var path := "";
    if verb == "GET" {
      var ss := SplitString(url, "?");
      if |ss| == 1 {
        if ss[0] == "" {
          ss := ["/"] + ss;
        }
        ss := ss[..1] + [""] + ss[1..];
      }
      if |ss| == 0 {
        return Err("string expected, got nil");
      }
      path := ss[0];
      queryStr := ss[1];
    } else {
      path := url;
    }
    var table := ParseQuery(queryStr);
    match table
    case Err(e) => return Err(e);
    case Ok(queries) => return Ok(Parsed(path, queries));
  }

  /**
   The default path. It is filled in for the URL "??" and for no other one; the empty URL and a bare question
   mark, for which it was meant, have no piece at all and fail.
   */
  lemma DefaultPathIff(url: string)
    ensures LuaSplit(url, "?") == [""] <==> url == "??"
    ensures url == "??" ==> RequestOf("GET", url) == Ok(Parsed("/", map[]))
    ensures LuaSplit(url, "?") == [] <==> url == "" || url == "?"
    ensures url == "" || url == "?" ==> RequestOf("GET", url) == Err("string expected, got nil")
  {
    SplitEmptyIff(url, "?");
    assert "?" + "?" == "??";
    SplitEmptyIff("", "&");
    assert StoreFields([]) == Ok(map[]);
  }

  /** Which requests get it: a GET of the subject followed by two question marks, and not one of the subject alone. */
  lemma DefaultPathRequests(subject: string)
    requires '/' !in subject
    ensures Rewritten("/" + subject + "??", subject) == "??"
    ensures RequestOf("GET", Rewritten("/" + subject + "??", subject)) == Ok(Parsed("/", map[]))
    ensures Rewritten("/" + subject, subject) == ""
    ensures RequestOf("GET", Rewritten("/" + subject, subject)).Err?
  {
    var d := "/" + subject;
    DefaultPathIff("??");
    DefaultPathIff("");
    assert d + "" == d;
    LeadingRemoved(d, "");
    LeadingRemoved(d, "??");
    SlashApartFrom("", subject);
    SlashApartFrom("??", subject);
  }

  lemma OccurrenceHas(text: string, d: string, i: nat)
    requires d != ""
    ensures Strings.OccursAt(text, d, i) ==> d[0] in text
  {
    if Strings.OccursAt(text, d, i) {
      assert text[i..i + |d|][0] == text[i];
    }
  }

  /** Removing "/" + subject changes nothing in a text without a slash. */
  lemma SlashApartFrom(text: string, subject: string)
    requires '/' !in text
    ensures Rewritten(text, subject) == text
  {
    var d := "/" + subject;
    forall i: nat | i <= |text| ensures Strings.OccursAt(text, d, i) ==> '/' in text {
      OccurrenceHas(text, d, i);
    }
    RemoveNothing(text, d);
  }

  /** A GET keeps its path through parsing exactly when the path is not empty. */
  lemma PathKeptIff(path: string, query: string)
    requires '?' !in path && '?' !in query
    ensures RequestOf("GET", path + "?" + query)
            == if path != "" then WithQuery(path, query)
               else if query != "" then WithQuery(query, "") else Err("string expected, got nil")
    ensures RequestOf("GET", path)
            == if path != "" then WithQuery(path, "") else Err("string expected, got nil")
  {
    Strings.SplitCons(path, '?', query);
    Strings.SplitFree(query, '?');
    Strings.SplitFree(path, '?');
    assert [path, query][1..] == [query] && [path, query][..1] == [path];
  }

  /** A second question mark ends the query: what follows is lost. */
  lemma SecondQuestionMark(path: string, query: string, more: string)
    requires path != "" && '?' !in path && '?' !in query
    ensures RequestOf("GET", path + "?" + query + "?" + more) == WithQuery(path, query)
    ensures RequestOf("GET", path + "?" + query + "?" + more) == RequestOf("GET", path + "?" + query)
  {
    TwoAndMore(path, '?', query, more);
    PathKeptIff(path, query);
  }

  /** A leading question mark does not count. */
  lemma LeadingQuestionMark(url: string)
    requires url != "" && url[0] != '?'
    ensures RequestOf("GET", "?" + url) == RequestOf("GET", url)
  {
    LeadingDropped(url, '?');
  }

  /** A GET with a path is refused exactly for its query: one with an empty field or a bare equals sign. */
  lemma BadQueryIff(path: string, query: string)
    requires path != "" && '?' !in path && '?' !in query
    ensures RequestOf("GET", path + "?" + query).Err?
            <==> exists i :: 0 <= i < |LuaSplit(query, "&")|
                   && (LuaSplit(query, "&")[i] == "" || LuaSplit(query, "&")[i] == "=")
  {
    PathKeptIff(path, query);
    QueryErrorIff(LuaSplit(query, "&"));
  }

  /** The NATS subject that ServeHTTP reads off the URL path; None is answered with a bad request. */
  function SubjectOf(urlPath: string): Option<string> {
    var ss := Strings.Split(urlPath, "/");
    if |ss| < 2 then None else Some(ss[1])
  }

  /** Exactly a path without a slash has no subject. */
  lemma NoSubjectIff(urlPath: string)
    ensures SubjectOf(urlPath).None? <==> '/' !in urlPath
  {
    if '/' in urlPath {
      var head, tail := Strings.Peel(urlPath, '/');
    } else {
      Strings.SplitFree(urlPath, '/');
    }
  }

  /** The URL handed to the script. */
  function Rewritten(url: string, subject: string): string {
    Strings.ReplaceAll(url, "/" + subject, "")
  }

  lemma FirstSegment(subject: string, path: string)
    requires '/' !in subject && (path == "" || path[0] == '/')
    ensures Strings.Split(subject + path, "/")[0] == subject
  {
    if path == "" {
      assert subject + path == subject;
      Strings.SplitFree(subject, '/');
    } else {
      assert subject + path == subject + ['/'] + path[1..];
      Strings.SplitCons(subject, '/', path[1..]);
    }
  }

  lemma SubjectRead(subject: string, path: string)
    requires '/' !in subject && (path == "" || path[0] == '/')
    ensures SubjectOf("/" + subject + path) == Some(subject)
  {
    assert "" + ['/'] + (subject + path) == "/" + subject + path;
    Strings.SplitCons("", '/', subject + path);
    FirstSegment(subject, path);
  }

  /** What a script sees of a GET for "/" + subject + path + "?" + query. */
  function Routed(subject: string, path: string, query: string): Result<Parsed> {
    RequestOf("GET", Rewritten("/" + subject + path + "?" + query, subject))
  }

  /**
   End-to-end routing. The subject is read off the URL, and if it does not recur, a non-empty path and the
   table of the query's pairs, the last value winning, reach the script.
   */
  lemma EndToEnd(subject: string, path: string, pairs: seq<Pair>)
    requires '/' !in subject && path != "" && path[0] == '/' && Clean(pairs)
    requires '?' !in path && '?' !in RenderQuery(pairs)
    requires !Strings.Contains(path + "?" + RenderQuery(pairs), "/" + subject)
    ensures SubjectOf("/" + subject + path) == Some(subject)
    ensures Routed(subject, path, RenderQuery(pairs)) == Ok(Parsed(path, Table(pairs)))
  {
    var d, rest := "/" + subject, path + "?" + RenderQuery(pairs);
    SubjectRead(subject, path);
    assert "/" + subject + path + "?" + RenderQuery(pairs) == d + rest;
    Strings.RemoveLeading(d, rest);
    QueryRoundTrip(pairs);
    PathKeptIff(path, RenderQuery(pairs));
  }

  lemma JoinCons(x: string, parts: seq<string>)
    requires parts != []
    ensures Strings.Join([x] + parts, "") == x + Strings.Join(parts, "")
  {
    assert ([x] + parts)[1..] == parts;
  }

  lemma RemoveFirst(head: string, d: string, tail: string)
    requires d != "" && Strings.Find(head + d + tail, d, 0) == Some(|head|)
    ensures Strings.ReplaceAll(head + d + tail, d, "") == head + Strings.ReplaceAll(tail, d, "")
  {
    Strings.SplitAtFirst(head, d, tail);
    JoinCons(head, Strings.Split(tail, d));
  }

  /** A string that lacks a character does not occur across it. */
  lemma NoStraddle(a: string, c: char, b: string, d: string, i: nat)
    requires d != "" && c !in d && i <= |a|
    ensures Strings.OccursAt(a + [c] + b, d, i) <==> Strings.OccursAt(a, d, i)
  {
    var s := a + [c] + b;
    if i + |d| <= |a| {
      assert s[i..i + |d|] == a[i..i + |d|];
    } else if i + |d| <= |s| {
      assert s[i..i + |d|][|a| - i] == c;
    }
  }

  lemma FirstBefore(a: string, c: char, b: string, d: string)
    requires d != "" && c !in d && Strings.Find(a, d, 0).Some?
    ensures Strings.Find(a + [c] + b, d, 0) == Strings.Find(a, d, 0)
  {
    var s, i := a + [c] + b, Strings.Find(a, d, 0).value;
    Strings.FindIsFirst(a, d, 0);
    NoStraddle(a, c, b, d, i);
    forall j: nat | j < i ensures !Strings.OccursAt(s, d, j) {
      NoStraddle(a, c, b, d, j);
    }
    Strings.FindIs(s, d, 0, i);
  }

  /** No occurrence starts before an index. */
  ghost predicate ClearBefore(s: string, d: string, n: nat) {
    forall i: nat :: i < n ==> !Strings.OccursAt(s, d, i)
  }

  lemma NoneBefore(a: string, c: char, b: string, d: string)
    requires d != "" && c !in d && Strings.Find(a, d, 0).None?
    ensures ClearBefore(a + [c] + b, d, |a| + 1)
  {
    var s := a + [c] + b;
    Strings.FindIsFirst(a, d, 0);
    forall j: nat | j < |a| + 1 ensures !Strings.OccursAt(s, d, j) {
      NoStraddle(a, c, b, d, j);
    }
  }

  lemma AfterChar(a: string, c: char, b: string)
    ensures (a + [c] + b)[|a| + 1..] == b
  {
  }

  /** With no occurrence starting before an index, the first one is the first of the rest. */
  lemma FirstInRest(s: string, n: nat, b: string, d: string)
    requires n <= |s| && s[n..] == b && ClearBefore(s, d, n)
    ensures Strings.Find(b, d, 0).None? ==> Strings.Find(s, d, 0).None?
    ensures Strings.Find(b, d, 0).Some? ==> Strings.Find(s, d, 0) == Some(n + Strings.Find(b, d, 0).value)
  {
    FindLater(s, d, n);
    Strings.FindShift(s, d, n);
  }

  lemma FindLater(s: string, d: string, n: nat)
    requires n <= |s| && ClearBefore(s, d, n)
    ensures Strings.Find(s, d, 0) == Strings.Find(s, d, n)
  {
    Strings.FindIsFirst(s, d, n);
    if Strings.Find(s, d, n).Some? {
      Strings.FindIs(s, d, 0, Strings.Find(s, d, n).value);
    } else {
      Strings.FindNothing(s, d, 0);
    }
  }

  lemma Regroup(w: string, x: string, c: char, y: string)
    ensures w + (x + [c] + y) == (w + x) + [c] + y
    ensures (w + [c] + x) + y == w + [c] + (x + y)
  {
  }

  lemma WithoutIt(s: string, d: string)
    requires d != "" && Strings.Find(s, d, 0).None?
    ensures Strings.ReplaceAll(s, d, "") == s
  {
  }

  /** Removing a string that lacks a character works on both sides of that character separately. */
  lemma {:induction false} RemoveAcross(a: string, c: char, b: string, d: string)
    requires d != "" && c !in d
    ensures Strings.ReplaceAll(a + [c] + b, d, "")
            == Strings.ReplaceAll(a, d, "") + [c] + Strings.ReplaceAll(b, d, "")
    decreases |a|
  {
    if Strings.Find(a, d, 0).None? {
      RemoveAfter(a, c, b, d);
    } else {
      var i := Strings.Find(a, d, 0).value;
      var head, tail := CutAt(a, d, i);
      FirstBefore(a, c, b, d);
      assert a + [c] + b == head + d + (tail + [c] + b);
      RemoveFirst(head, d, tail);
      RemoveFirst(head, d, tail + [c] + b);
      RemoveAcross(tail, c, b, d);
      Regroup(head, Strings.ReplaceAll(tail, d, ""), c, Strings.ReplaceAll(b, d, ""));
    }
  }

  lemma CutAt(s: string, d: string, i: nat) returns (head: string, tail: string)
    requires Strings.OccursAt(s, d, i)
    ensures s == head + d + tail && |head| == i
  {
    head, tail := s[..i], s[i + |d|..];
  }

  lemma RemoveAfter(a: string, c: char, b: string, d: string)
    requires d != "" && c !in d && Strings.Find(a, d, 0).None?
    ensures Strings.ReplaceAll(a + [c] + b, d, "")
            == Strings.ReplaceAll(a, d, "") + [c] + Strings.ReplaceAll(b, d, "")
  {
    NoneBefore(a, c, b, d);
    AfterChar(a, c, b);
    FirstInRest(a + [c] + b, |a| + 1, b, d);
    WithoutIt(a, d);
    if Strings.Find(b, d, 0).Some? {
      var i := Strings.Find(b, d, 0).value;
      var head, tail := CutAt(b, d, i);
      Regroup3(a, c, head, d, tail);
      RemoveFirst(head, d, tail);
      RemoveFirst(a + [c] + head, d, tail);
      Regroup(a, head, c, Strings.ReplaceAll(tail, d, ""));
    } else {
      WithoutIt(b, d);
      WithoutIt(a + [c] + b, d);
    }
  }

  lemma Regroup3(a: string, c: char, head: string, d: string, tail: string)
    ensures a + [c] + (head + d + tail) == (a + [c] + head) + d + tail
  {
  }

  /**
   Routing exactly. For any subject, path and query, the script sees the path and the query with every
   "/" + subject removed from each; the path is the one asked for exactly when it has none.
   */
  lemma RoutedExactly(subject: string, path: string, query: string)
    requires '/' !in subject && '?' !in subject && (path == "" || path[0] == '/') && '?' !in path && '?' !in query
    ensures var path', query' := Rewritten(path, subject), Rewritten(query, subject);
            && Routed(subject, path, query)
               == (if path' != "" then WithQuery(path', query')
                   else if query' != "" then WithQuery(query', "") else Err("string expected, got nil"))
            && (path' == path <==> !Strings.Contains(path, "/" + subject))
  {
    var d := "/" + subject;
    assert "/" + subject + path + "?" + query == (d + path) + "?" + query;
    RemoveAcross(d + path, '?', query, d);
    RemoveNothing(path, d);
    LeadingRemoved(d, path);
    RemovedLacks(path, d, '?');
    RemovedLacks(query, d, '?');
    PathKeptIff(Rewritten(path, subject), Rewritten(query, subject));
  }

  /** End to end for every verb but GET: the script sees what follows the subject, question mark and all. */
  lemma OtherVerbsEndToEnd(verb: string, subject: string, rest: string)
    requires verb != "GET" && '/' !in subject && (rest == "" || rest[0] == '/')
    ensures SubjectOf("/" + subject + rest) == Some(subject)
    ensures RequestOf(verb, Rewritten("/" + subject + rest, subject)) == Ok(Parsed(Rewritten(rest, subject), map[]))
    ensures Rewritten(rest, subject) == rest <==> !Strings.Contains(rest, "/" + subject)
  {
    SubjectRead(subject, rest);
    LeadingRemoved("/" + subject, rest);
    RemoveNothing(rest, "/" + subject);
    OtherVerbs(verb, Rewritten(rest, subject));
  }

  lemma LeadingRemoved(d: string, rest: string)
    requires d != ""
    ensures Strings.ReplaceAll(d + rest, d, "") == Strings.ReplaceAll(rest, d, "")
  {
    assert Strings.OccursAt(d + rest, d, 0) && "" + d + rest == d + rest;
    Strings.SplitAtFirst("", d, rest);
    JoinCons("", Strings.Split(rest, d));
  }

  lemma RemoveNothing(s: string, d: string)
    requires d != ""
    ensures Strings.ReplaceAll(s, d, "") == s <==> !Strings.Contains(s, d)
  {
    LeadingRemoved(d, s);
    Strings.RemoveLeading(d, s);
  }

  lemma RemovedLacks(s: string, d: string, c: char)
    requires d != "" && c !in s
    ensures c !in Strings.ReplaceAll(s, d, "")
  {
    PiecesLack(s, d, c);
    NotInJoin(Strings.Split(s, d), "", c);
  }

  lemma {:induction false} PiecesLack(s: string, d: string, c: char)
    requires d != "" && c !in s
    ensures forall p :: p in Strings.Split(s, d) ==> c !in p
    decreases |s|
  {
    match Strings.Find(s, d, 0)
    case None =>
    case Some(i) =>
      PiecesLack(s[i + |d|..], d, c);
  }
}
