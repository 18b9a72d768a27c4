/** The HTTP answer made from a gathered reply, and when it does not depend on the schedule. */
module HttpAnswer {
  import opened Wrappers
  import opened FanOut
  import opened FanOutResults

  const NO_SCRIPT_FOUND := "No script found for subject"
  const STATUS_OK := 200
  const STATUS_NOT_FOUND := 404
  const STATUS_INTERNAL_SERVER_ERROR := 500

  datatype Body = Text(text: string) | Json(results: seq<ScriptResult>)

  /** Headers are the pairs added to the response, in no particular order. */
  datatype Response = Response(status: int, headers: multiset<(string, string)>, body: Body)

  predicate IsLower(c: char) {
    'a' <= c <= 'z'
  }

  predicate IsUpper(c: char) {
    'A' <= c <= 'Z'
  }

  /** The characters of a header name; a name with any other one is left as it is. */
  predicate TokenChar(c: char) {
    IsLower(c) || IsUpper(c) || '0' <= c <= '9' || TokenSymbol(c)
  }

  predicate TokenSymbol(c: char) {
    || c == '!' || c == '#' || c == '$' || c == '%' || c == '&' || c == '\'' || c == '*' || c == '+'
    || c == '-' || c == '.' || c == '^' || c == '_' || c == '`' || c == '|' || c == '~'
  }

  function Cased(c: char, first: bool): char {
    if first && IsLower(c) then (c as int - 32) as char
    else if !first && IsUpper(c) then (c as int + 32) as char
    else c
  }

  /** The name under which net/http files a header: capitals at the start and after each hyphen only. */
  function CanonicalKey(name: string): string {
    if IsToken(name) then AllCased(name) else name
  }

  predicate IsToken(name: string) {
    forall i :: 0 <= i < |name| ==> TokenChar(name[i])
  }

  /** The character is the first one or comes after a hyphen. */
  predicate Starts(name: string, i: nat)
    requires i < |name|
  {
    i == 0 || name[i - 1] == '-'
  }

  function AllCased(name: string): string {
    seq(|name|, i requires 0 <= i < |name| => Cased(name[i], Starts(name, i)))
  }

  const CONTENT_TYPE := "Content-Type"

  lemma ContentTypeCanonical()
    ensures CanonicalKey(CONTENT_TYPE) == CONTENT_TYPE
  {
    var k := CanonicalKey(CONTENT_TYPE);
    assert |k| == |CONTENT_TYPE|;
    forall i | 0 <= i < |k| ensures k[i] == CONTENT_TYPE[i] {
      assert i == 0 || i == 8 ==> IsUpper(CONTENT_TYPE[i]);
    }
  }

  /** Two names that differ at most in the case of letters. */
  predicate SameButCase(a: string, b: string) {
    |a| == |b| && forall i :: 0 <= i < |a| ==> Lowered(a[i]) == Lowered(b[i])
  }

  function Lowered(c: char): char {
    if 'A' <= c <= 'Z' then (c as int + 32) as char else c
  }

  lemma CasedMeans(c: char, first: bool)
    ensures Lowered(Cased(c, first)) == Lowered(c)
    ensures if first then !('a' <= Cased(c, first) <= 'z') else !('A' <= Cased(c, first) <= 'Z')
    ensures TokenChar(c) ==> TokenChar(Cased(c, first))
  {
  }

  lemma CasedByLower(c: char, d: char, first: bool)
    requires Lowered(c) == Lowered(d)
    ensures Cased(c, first) == Cased(d, first) && (c == '-' <==> d == '-')
  {
  }

  lemma CanonicalAt(name: string, i: nat)
    requires IsToken(name) && i < |name|
    ensures |CanonicalKey(name)| == |name| && CanonicalKey(name)[i] == Cased(name[i], Starts(name, i))
  {
  }

  /**
   What the canonical name is. It differs from the name in case only; its letters are capitals exactly at the
   start and after hyphens; and a name that is no token, one with a space, say, stays as it is.
   */
  lemma CanonicalMeans(name: string)
    ensures SameButCase(CanonicalKey(name), name)
    ensures IsToken(name) ==> forall i: nat :: i < |name| ==>
              if Starts(name, i) then !('a' <= CanonicalKey(name)[i] <= 'z') else !('A' <= CanonicalKey(name)[i] <= 'Z')
    ensures IsToken(CanonicalKey(name)) <==> IsToken(name)
    ensures !IsToken(name) ==> CanonicalKey(name) == name
  {
    if IsToken(name) {
      forall i: nat | i < |name|
        ensures |CanonicalKey(name)| == |name| && Lowered(CanonicalKey(name)[i]) == Lowered(name[i])
        ensures if Starts(name, i) then !('a' <= CanonicalKey(name)[i] <= 'z') else !('A' <= CanonicalKey(name)[i] <= 'Z')
        ensures TokenChar(CanonicalKey(name)[i])
      {
        CanonicalAt(name, i);
        CasedMeans(name[i], Starts(name, i));
        assert TokenChar(name[i]);
      }
    }
  }

  lemma SameButCaseCanonical(a: string, b: string)
    requires IsToken(a) && IsToken(b) && SameButCase(a, b)
    ensures CanonicalKey(a) == CanonicalKey(b)
  {
    forall i: nat | i < |a|
      ensures |CanonicalKey(a)| == |a| && |CanonicalKey(b)| == |b| && CanonicalKey(a)[i] == CanonicalKey(b)[i]
    {
      CanonicalAt(a, i);
      CanonicalAt(b, i);
      assert Lowered(a[i]) == Lowered(b[i]);
      if i > 0 {
        assert Lowered(a[i - 1]) == Lowered(b[i - 1]);
        CasedByLower(a[i - 1], b[i - 1], true);
      }
      CasedByLower(a[i], b[i], Starts(a, i));
    }
  }

  /** Names are filed together exactly if they are the same, or tokens that are the same but for case. */
  lemma CanonicalIff(a: string, b: string)
    ensures CanonicalKey(a) == CanonicalKey(b) <==> a == b || (IsToken(a) && IsToken(b) && SameButCase(a, b))
  {
    CanonicalMeans(a);
    CanonicalMeans(b);
    if IsToken(a) && IsToken(b) && SameButCase(a, b) {
      SameButCaseCanonical(a, b);
    }
    if CanonicalKey(a) == CanonicalKey(b) {
      forall i | 0 <= i < |a| && |a| == |b| ensures Lowered(a[i]) == Lowered(b[i]) {
        assert Lowered(CanonicalKey(a)[i]) == Lowered(a[i]) && Lowered(CanonicalKey(b)[i]) == Lowered(b[i]);
      }
    }
  }

  /** What w.Header().Add files for one header of a script. */
  function Line(kv: (string, string)): (string, string) {
    (CanonicalKey(kv.0), kv.1)
  }

  /** The bag of what a function makes of the elements of a set. */
  ghost function Bag(items: set<(string, string)>, f: ((string, string)) -> (string, string)): multiset<(string, string)> {
    if items == {} then multiset{}
    else
      var kv :| kv in items;
      Bag(items - {kv}, f) + multiset{f(kv)}
  }

  ghost function Made(items: set<(string, string)>, f: ((string, string)) -> (string, string), line: (string, string))
    : set<(string, string)>
  {
    set kv | kv in items && f(kv) == line
  }

  lemma MadeOneMore(items: set<(string, string)>, f: ((string, string)) -> (string, string), kv: (string, string),
                    line: (string, string))
    requires kv !in items
    ensures |Made(items + {kv}, f, line)| == |Made(items, f, line)| + if f(kv) == line then 1 else 0
  {
    assert Made(items + {kv}, f, line) == Made(items, f, line) + if f(kv) == line then {kv} else {};
  }

  lemma {:induction false} BagCounts(items: set<(string, string)>, f: ((string, string)) -> (string, string),
                                     line: (string, string))
    ensures Bag(items, f)[line] == |Made(items, f, line)|
  {
    if items == {} {
      assert Made(items, f, line) == {};
    } else {
      var kv :| kv in items && Bag(items, f) == Bag(items - {kv}, f) + multiset{f(kv)};
      BagCounts(items - {kv}, f, line);
      MadeOneMore(items - {kv}, f, kv, line);
      assert items - {kv} + {kv} == items;
    }
  }

  lemma BagOneMore(items: set<(string, string)>, f: ((string, string)) -> (string, string), kv: (string, string))
    requires kv !in items
    ensures Bag(items + {kv}, f) == Bag(items, f) + multiset{f(kv)}
  {
    forall line ensures Bag(items + {kv}, f)[line] == (Bag(items, f) + multiset{f(kv)})[line] {
      BagCounts(items + {kv}, f, line);
      BagCounts(items, f, line);
      MadeOneMore(items, f, kv, line);
    }
  }

  /** Everything filed for a set of headers; names that differ in case only are filed together. */
  ghost function Filed(items: set<(string, string)>): multiset<(string, string)> {
    Bag(items, Line)
  }

  /** The page of one HTML result. The default content type is added unless a header is spelled just so. */
  ghost function Page(res: ScriptResult): Response {
    Response(res.code,
             Filed(res.headers.Items)
             + if CONTENT_TYPE in res.headers then multiset{} else multiset{(CONTENT_TYPE, "text/html")},
             Text(res.payload))
  }

  /** The headers of a script that spell one name and value. */
  function Spelling(headers: map<string, string>, line: (string, string)): set<string> {
    set k | k in headers && CanonicalKey(k) == line.0 && headers[k] == line.1
  }

  lemma SpellingCount(headers: map<string, string>, line: (string, string))
    ensures |Spelling(headers, line)| == |Made(headers.Items, Line, line)|
  {
    var keys, items := Spelling(headers, line), Made(headers.Items, Line, line);
    assert items == set k | k in keys :: (k, headers[k]);
    PairsCount(headers, keys);
  }

  lemma {:induction false} PairsCount(headers: map<string, string>, keys: set<string>)
    requires keys <= headers.Keys
    ensures |set k | k in keys :: (k, headers[k])| == |keys|
  {
    if keys == {} {
      assert (set k | k in keys :: (k, headers[k])) == {};
    } else {
      var k0 :| k0 in keys;
      PairsCount(headers, keys - {k0});
      var rest := set k | k in keys - {k0} :: (k, headers[k]);
      assert (set k | k in keys :: (k, headers[k])) == rest + {(k0, headers[k0])};
    }
  }

  /** A page has each header of its script under its canonical name, and the default content type if needed. */
  lemma PageHeaders(res: ScriptResult, name: string, value: string)
    ensures Page(res).headers[(name, value)] == HeaderCount(res.headers, name, value)
  {
    BagCounts(res.headers.Items, Line, (name, value));
    SpellingCount(res.headers, (name, value));
  }

  /** The page's one content type, if it has exactly one. */
  ghost predicate OneContentType(res: ScriptResult, own: string) {
    forall v :: Page(res).headers[(CONTENT_TYPE, v)] == if v == own then 1 else 0
  }

  /**
   A page has exactly one content type, the script's own or text/html, unless the script has a header that
   spells the name in another case.
   */
  lemma ContentTypeIff(res: ScriptResult)
    ensures (forall k :: k in res.headers && CanonicalKey(k) == CONTENT_TYPE ==> k == CONTENT_TYPE)
            <==> exists own :: OneContentType(res, own)
    ensures (exists own :: OneContentType(res, own)) ==>
              OneContentType(res, if CONTENT_TYPE in res.headers then res.headers[CONTENT_TYPE] else "text/html")
  {
    var h := res.headers;
    var expected := if CONTENT_TYPE in h then h[CONTENT_TYPE] else "text/html";
    ContentTypeCanonical();
    if forall k :: k in h && CanonicalKey(k) == CONTENT_TYPE ==> k == CONTENT_TYPE {
      forall v ensures Page(res).headers[(CONTENT_TYPE, v)] == if v == expected then 1 else 0 {
        PageHeaders(res, CONTENT_TYPE, v);
        assert Spelling(h, (CONTENT_TYPE, v)) == if CONTENT_TYPE in h && h[CONTENT_TYPE] == v then {CONTENT_TYPE} else {};
      }
      assert OneContentType(res, expected);
    } else {
      var k :| k in h && CanonicalKey(k) == CONTENT_TYPE && k != CONTENT_TYPE;
      forall own ensures !OneContentType(res, own) {
        TwoContentTypes(res, k, expected, own);
      }
    }
  }

  lemma TwoContentTypes(res: ScriptResult, k: string, expected: string, own: string)
    requires k in res.headers && CanonicalKey(k) == CONTENT_TYPE && k != CONTENT_TYPE
    requires expected == if CONTENT_TYPE in res.headers then res.headers[CONTENT_TYPE] else "text/html"
    ensures !OneContentType(res, own)
  {
    var h, v := res.headers, res.headers[k];
    ContentTypeCanonical();
    PageHeaders(res, CONTENT_TYPE, v);
    PageHeaders(res, CONTENT_TYPE, expected);
    var spelling := Spelling(h, (CONTENT_TYPE, v));
    assert k in spelling;
    SizeAtLeast(spelling, {k});
    if CONTENT_TYPE in h {
      assert CONTENT_TYPE in Spelling(h, (CONTENT_TYPE, expected));
      SizeAtLeast(Spelling(h, (CONTENT_TYPE, expected)), {CONTENT_TYPE});
      if expected == v {
        assert {k, CONTENT_TYPE} <= spelling;
        SizeAtLeast(spelling, {k, CONTENT_TYPE});
      }
    }
  }

  lemma {:induction false} SizeAtLeast(a: set<string>, b: set<string>)
    requires b <= a
    ensures |b| <= |a|
  {
    if x :| x in b {
      SizeAtLeast(a - {x}, b - {x});
    }
  }

  /** The first HTML result wins; without one, all results go out as JSON. */
  ghost function Answer(results: seq<ScriptResult>): Response {
    Answering(results, results)
  }

  ghost function Answering(rest: seq<ScriptResult>, results: seq<ScriptResult>): Response {
    if rest == [] then Response(STATUS_OK, multiset{}, Json(results))
    else if rest[0].isHTML then Page(rest[0])
    else Answering(rest[1..], results)
  }

  /** The result that the loop stops at. */
  predicate FirstHtml(results: seq<ScriptResult>, k: nat) {
    k < |results| && results[k].isHTML && forall j :: 0 <= j < k ==> !results[j].isHTML
  }

  /** How often a page has a header name and value, told from the script's own headers. */
  function HeaderCount(headers: map<string, string>, name: string, value: string): nat {
    |Spelling(headers, (name, value))|
    + if "Content-Type" !in headers && name == "Content-Type" && value == "text/html" then 1 else 0
  }

  /** The answer is the page of the first HTML result, or all results as JSON if there is none. */
  lemma {:induction false} AnswerIsPageOrJson(rest: seq<ScriptResult>, results: seq<ScriptResult>)
    ensures (forall k :: 0 <= k < |rest| ==> !rest[k].isHTML)
              ==> Answering(rest, results) == Response(200, multiset{}, Json(results))
    ensures forall k: nat :: FirstHtml(rest, k) ==> Answering(rest, results) == Page(rest[k])
  {
    if rest != [] && !rest[0].isHTML {
      AnswerIsPageOrJson(rest[1..], results);
      forall k: nat | FirstHtml(rest, k) ensures Answering(rest, results) == Page(rest[k]) {
        assert FirstHtml(rest[1..], k - 1);
      }
    }
  }

  lemma AnswerServes(results: seq<ScriptResult>)
    ensures forall k: nat :: FirstHtml(results, k) ==>
              && Answer(results).status == results[k].code && Answer(results).body == Text(results[k].payload)
              && forall name, value :: Answer(results).headers[(name, value)] == HeaderCount(results[k].headers, name, value)
    ensures (forall k :: 0 <= k < |results| ==> !results[k].isHTML) ==>
              Answer(results) == Response(200, multiset{}, Json(results))
  {
    AnswerIsPageOrJson(results, results);
    forall k: nat, name, value | FirstHtml(results, k)
      ensures Answer(results).headers[(name, value)] == HeaderCount(results[k].headers, name, value)
    {
      PageHeaders(results[k], name, value);
    }
  }

  /** Either there is no HTML result, or one of them is the first. */
  lemma {:induction false} SomeFirstHtml(results: seq<ScriptResult>)
    ensures (forall k :: 0 <= k < |results| ==> !results[k].isHTML) || exists k: nat :: FirstHtml(results, k)
  {
    if results != [] {
      if results[0].isHTML {
        assert FirstHtml(results, 0);
      } else {
        SomeFirstHtml(results[1..]);
        if k: nat :| FirstHtml(results[1..], k) {
          assert forall j :: 0 < j < |results| ==> results[j] == results[1..][j - 1];
          assert FirstHtml(results, k + 1);
        } else {
          assert forall j :: 0 < j < |results| ==> results[j] == results[1..][j - 1];
        }
      }
    }
  }

  /**
   The part of ServeHTTP after the reply has arrived. An error is told with its status; otherwise the first
   HTML result is served with its own code, payload and headers; without one, all results go out as JSON.
   */
  method ServeReply(error: string, results: seq<ScriptResult>) returns (w: Response)
    ensures error == "No script found for subject" ==> w.status == 404
    ensures error != "No script found for subject" && error != "" ==> w.status == 500
    ensures error != "" ==> w.headers == multiset{} && w.body == Text("Error: " + error)
    ensures error == "" ==> forall k: nat :: FirstHtml(results, k) ==>
              && w.status == results[k].code && w.body == Text(results[k].payload)
              && forall name, value :: w.headers[(name, value)] == HeaderCount(results[k].headers, name, value)
    ensures error == "" && (forall k :: 0 <= k < |results| ==> !results[k].isHTML) ==>
              w.status == 200 && w.headers == multiset{} && w.body == Json(results)
    ensures error == "" ==> w == Answer(results)
  {
    if error == "" {
      AnswerServes(results);
    }
    if error != "" {
      var status := STATUS_INTERNAL_SERVER_ERROR;
      if error == NO_SCRIPT_FOUND {
        status := STATUS_NOT_FOUND;
      }
      return Response(status, multiset{}, Text("Error: " + error));
    }
    for i := 0 to |results|
      invariant Answer(results) == Answering(results[i..], results)
    {
      var scrRes := results[i];
      assert results[i..][1..] == results[i + 1..];
      if scrRes.isHTML {
        var hasContentType := false;
        var headers: multiset<(string, string)> := multiset{};
        var rest := scrRes.headers.Items;
        while rest != {}
          invariant rest <= scrRes.headers.Items
          invariant headers == Filed(scrRes.headers.Items - rest)
          invariant hasContentType <==> exists kv :: kv in scrRes.headers.Items - rest && kv.0 == "Content-Type"
        {
          var kv :| kv in rest;
          assert scrRes.headers.Items - (rest - {kv}) == (scrRes.headers.Items - rest) + {kv};
          if kv.0 == "Content-Type" {
            hasContentType := true;
          }
          BagOneMore(scrRes.headers.Items - rest, Line, kv);
          headers := headers + multiset{Line(kv)};
          rest := rest - {kv};
        }
        assert scrRes.headers.Items - rest == scrRes.headers.Items;
        if "Content-Type" in scrRes.headers {
          assert ("Content-Type", scrRes.headers["Content-Type"]) in scrRes.headers.Items;
        }
        if !hasContentType {
          headers := headers + multiset{("Content-Type", "text/html")};
        }
        return Response(scrRes.code, headers, Text(scrRes.payload));
      }
    }
    return Response(STATUS_OK, multiset{}, Json(results));
  }

  /** The same page, or JSON lists of the same results in some order. */
  ghost predicate Alike(a: Response, b: Response) {
    && a.status == b.status && a.headers == b.headers
    && (a.body == b.body || (a.body.Json? && b.body.Json? && multiset(a.body.results) == multiset(b.body.results)))
  }

  /** All HTML results make the same page. At most one HTML result is the common case. */
  ghost predicate OnePage(results: seq<ScriptResult>) {
    forall i, j :: 0 <= i < |results| && 0 <= j < |results| && results[i].isHTML && results[j].isHTML
      ==> Page(results[i]) == Page(results[j])
  }

  /** Replies with the same bag of results are answered alike if they have one page only. */
  lemma SameBagAlike(a: seq<ScriptResult>, b: seq<ScriptResult>)
    requires multiset(a) == multiset(b) && OnePage(a)
    ensures Alike(Answer(a), Answer(b))
  {
    AnswerIsPageOrJson(a, a);
    AnswerIsPageOrJson(b, b);
    assert forall x :: x in a <==> x in multiset(a);
    assert forall x :: x in b <==> x in multiset(b);
    SomeFirstHtml(a);
    SomeFirstHtml(b);
    if k: nat :| FirstHtml(a, k) {
      assert a[k] in b;
      var j: nat :| FirstHtml(b, j);
      assert b[j] in a;
    } else {
      forall j | 0 <= j < |b| ensures !b[j].isHTML {
        assert b[j] in a;
      }
    }
  }

  ghost predicate Replies(outcomes: seq<Outcome>, es: seq<Event>) {
    Run(outcomes, es).Some? && Run(outcomes, es).value.phase.Replied?
  }

  ghost function AnswerOf(outcomes: seq<Outcome>, es: seq<Event>): Response
    requires Replies(outcomes, es)
  {
    Answer(Run(outcomes, es).value.phase.reply.results)
  }

  /**
   Schedule independence. For scripts that all return a result, every two schedules are answered alike
   exactly when all HTML results make the same page.
   */
  lemma ScheduleIndependentIff(outcomes: seq<Outcome>)
    requires AllPresent(outcomes)
    ensures OnePage(Values(outcomes))
            <==> forall es1, es2 :: Replies(outcomes, es1) && Replies(outcomes, es2)
                   ==> Alike(AnswerOf(outcomes, es1), AnswerOf(outcomes, es2))
  {
    if OnePage(Values(outcomes)) {
      forall es1, es2 | Replies(outcomes, es1) && Replies(outcomes, es2)
        ensures Alike(AnswerOf(outcomes, es1), AnswerOf(outcomes, es2))
      {
        ShuffledScriptsAlike(outcomes, outcomes, es1, es2);
      }
    } else {
      var i, j :| 0 <= i < |outcomes| && 0 <= j < |outcomes| && Values(outcomes)[i].isHTML
                  && Values(outcomes)[j].isHTML && Page(Values(outcomes)[i]) != Page(Values(outcomes)[j]);
      var es1 := PageFirst(outcomes, i);
      var es2 := PageFirst(outcomes, j);
      assert Replies(outcomes, es1) && Replies(outcomes, es2);
    }
  }

  /** Scripts may also be ranged over in any order: outcomes that are permuted are answered alike. */
  lemma ShuffledScriptsAlike(a: seq<Outcome>, b: seq<Outcome>, es1: seq<Event>, es2: seq<Event>)
    requires multiset(a) == multiset(b) && Replies(a, es1) && Replies(b, es2)
    requires AllPresent(a) && OnePage(Values(a))
    ensures Alike(AnswerOf(a, es1), AnswerOf(b, es2))
  {
    ResultsConserved(a, es1);
    ResultsConserved(b, es2);
    SameBagValues(a, b);
    var ra, rb := Run(a, es1).value.phase.reply.results, Run(b, es2).value.phase.reply.results;
    BagKeepsOnePage(Values(a), ra);
    SameBagAlike(ra, rb);
  }

  lemma BagKeepsOnePage(a: seq<ScriptResult>, b: seq<ScriptResult>)
    requires multiset(a) == multiset(b) && OnePage(a)
    ensures OnePage(b)
  {
    forall j | 0 <= j < |b| ensures b[j] in a {
      assert b[j] in multiset(a);
    }
  }

  /** Some schedule lets the HTML result of script i come first, and so win. */
  lemma PageFirst(outcomes: seq<Outcome>, i: nat) returns (es: seq<Event>)
    requires AllPresent(outcomes) && i < |outcomes| && outcomes[i].value.isHTML
    ensures Replies(outcomes, es) && AnswerOf(outcomes, es) == Page(outcomes[i].value)
  {
    var n := |outcomes|;
    var order: seq<nat> := seq(n, k requires 0 <= k < n => if k == 0 then i else if k == i then 0 else k);
    assert Permutation(order, n) by {
      forall x: nat | x < n ensures x in order {
        assert order[if x == i then 0 else if x == 0 then i else x] == x;
      }
    }
    es := EveryOrderHappens(outcomes, order);
    GatheredMeans(InOrder(outcomes, order));
  }
}
