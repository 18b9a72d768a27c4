/** Route patterns as they are written: literal segments, and names in angle brackets. */
module PatternText {
  import opened UrlPattern
  import Strings

  datatype Part = Text(text: string) | Name(name: string)

  function Written(part: Part): string {
    match part
    case Text(text) => text
    case Name(name) => "<" + name + ">"
  }

  /** A segment as a pattern can have it; literal text is not itself in angle brackets. */
  predicate CleanPart(part: Part) {
    && Written(part) != "" && '/' !in Written(part)
    && (part.Text? ==> part.text[0] != '<' || part.text[|part.text| - 1] != '>')
  }

  predicate CleanSegment(segment: string) {
    segment != "" && '/' !in segment
  }

  function AllWritten(parts: seq<Part>): seq<string> {
    seq(|parts|, i requires 0 <= i < |parts| => Written(parts[i]))
  }

  /** A path written segment by segment. */
  function PathOf(segments: seq<string>): string {
    "/" + Strings.Join(segments, "/")
  }

  lemma WrittenReads(part: Part)
    requires CleanPart(part)
    ensures IsPlaceholder(Written(part)) <==> part.Name?
    ensures part.Name? ==> IsPlaceholder(Written(part)) && Key(Written(part)) == part.name
  {
    if part.Name? {
      var w := Written(part);
      assert w[0] == '<' && w[|w| - 1] == '>' && w[1..|w| - 1] == part.name;
    }
  }

  /** The literal parts are the URL's segments in their places. */
  ghost predicate LiteralsAgree(parts: seq<Part>, us: seq<string>) {
    |parts| <= |us| && forall i :: 0 <= i < |parts| && parts[i].Text? ==> parts[i].text == us[i]
  }

  /** The last place where a name is written. */
  ghost predicate LastPlace(parts: seq<Part>, name: string, i: nat) {
    i < |parts| && parts[i] == Name(name) && forall j :: i < j < |parts| ==> parts[j] != Name(name)
  }

  lemma AgreesAsWritten(parts: seq<Part>, us: seq<string>)
    requires forall i :: 0 <= i < |parts| ==> CleanPart(parts[i])
    ensures Agrees(AllWritten(parts), us) <==> LiteralsAgree(parts, us)
    ensures forall i :: 0 <= i < |parts| ==> (IsPlaceholder(AllWritten(parts)[i]) <==> parts[i].Name?)
    ensures forall i :: 0 <= i < |parts| && parts[i].Name? ==> Key(AllWritten(parts)[i]) == parts[i].name
  {
    forall i | 0 <= i < |parts|
      ensures IsPlaceholder(AllWritten(parts)[i]) <==> parts[i].Name?
      ensures parts[i].Name? ==> Key(AllWritten(parts)[i]) == parts[i].name
    {
      WrittenReads(parts[i]);
    }
  }

  lemma MatchWritten(parts: seq<Part>, us: seq<string>)
    requires forall i :: 0 <= i < |parts| ==> CleanPart(parts[i])
    ensures var found := MatchSegments(AllWritten(parts), us);
            && (!LiteralsAgree(parts, us) ==> found == map[])
            && (LiteralsAgree(parts, us) ==>
                  && (forall name :: name in found <==> Name(name) in parts)
                  && (forall name, i: nat :: LastPlace(parts, name, i) ==> name in found && found[name] == us[i]))
  {
    var ps := AllWritten(parts);
    AgreesAsWritten(parts, us);
    if |ps| <= |us| {
      MatchFromMeans(map[], ps, us);
    }
    if LiteralsAgree(parts, us) {
      var found := MatchFrom(map[], ps, us);
      forall name ensures Named(ps, name) <==> Name(name) in parts {
        NamedAsWritten(parts, name);
      }
      forall name, i: nat | LastPlace(parts, name, i) ensures name in found && found[name] == us[i] {
        assert Name(name) in parts && BoundTo(ps, us, name, found[name]);
        LastIsBound(parts, us, name, found[name], i);
      }
    }
  }

  lemma NamedAsWritten(parts: seq<Part>, name: string)
    requires forall i :: 0 <= i < |parts| ==> CleanPart(parts[i])
    ensures Named(AllWritten(parts), name) <==> Name(name) in parts
  {
    AgreesAsWritten(parts, []);
    var ps := AllWritten(parts);
    if Named(ps, name) {
      var i :| 0 <= i < |ps| && IsPlaceholder(ps[i]) && Key(ps[i]) == name;
      assert parts[i] == Name(name);
    }
    if Name(name) in parts {
      var i :| 0 <= i < |parts| && parts[i] == Name(name);
      assert IsPlaceholder(ps[i]) && Key(ps[i]) == name;
    }
  }

  /** A name is bound where it is written last. */
  lemma BoundAsWritten(parts: seq<Part>, us: seq<string>, name: string, value: string) returns (k: nat)
    requires forall i :: 0 <= i < |parts| ==> CleanPart(parts[i])
    requires |parts| <= |us| && BoundTo(AllWritten(parts), us, name, value)
    ensures LastPlace(parts, name, k) && us[k] == value
  {
    var ps := AllWritten(parts);
    k :| 0 <= k < |ps| && IsPlaceholder(ps[k]) && Key(ps[k]) == name && us[k] == value
         && forall j :: k < j < |ps| && IsPlaceholder(ps[j]) ==> Key(ps[j]) != name;
    WrittenReads(parts[k]);
    forall j | k < j < |parts| ensures parts[j] != Name(name) {
      WrittenReads(parts[j]);
      assert ps[j] == Written(parts[j]);
    }
  }

  lemma LastIsBound(parts: seq<Part>, us: seq<string>, name: string, value: string, i: nat)
    requires forall j :: 0 <= j < |parts| ==> CleanPart(parts[j])
    requires |parts| <= |us| && LastPlace(parts, name, i) && BoundTo(AllWritten(parts), us, name, value)
    ensures value == us[i]
  {
    var k := BoundAsWritten(parts, us, name, value);
    OnePlace(parts, name, i, k);
  }

  lemma OnePlace(parts: seq<Part>, name: string, i: nat, k: nat)
    requires LastPlace(parts, name, i) && LastPlace(parts, name, k)
    ensures i == k
  {
  }

  lemma SegmentsOfPath(segments: seq<string>)
    requires forall i :: 0 <= i < |segments| ==> CleanSegment(segments[i])
    ensures Segments(PathOf(segments)) == segments
  {
    forall p | p in segments ensures p != "" && '/' !in p {
      var i :| 0 <= i < |segments| && segments[i] == p;
    }
    SegmentsOfUrl(segments);
  }

  /**
   Matching, on the texts of pattern and URL. If the pattern has no more segments than the URL and each literal one
   is the URL's, the result has exactly the names written in angle brackets, without the brackets, each with the
   URL's segment at its last place; otherwise it is empty.
   */
  lemma MatchText(parts: seq<Part>, us: seq<string>)
    requires forall i :: 0 <= i < |parts| ==> CleanPart(parts[i])
    requires forall i :: 0 <= i < |us| ==> CleanSegment(us[i])
    ensures var found := MatchURL(PathOf(AllWritten(parts)), PathOf(us));
            && (!LiteralsAgree(parts, us) ==> found == map[])
            && (LiteralsAgree(parts, us) ==>
                  && (forall name :: name in found <==> Name(name) in parts)
                  && (forall name, i: nat :: LastPlace(parts, name, i) ==> name in found && found[name] == us[i]))
  {
    SegmentsOfPath(AllWritten(parts));
    SegmentsOfPath(us);
    MatchWritten(parts, us);
  }

  lemma {:induction false} NonEmptyAppend(a: seq<string>, b: seq<string>)
    ensures NonEmpty(a + b) == NonEmpty(a) + NonEmpty(b)
  {
    if a == [] {
      assert a + b == b;
    } else {
      assert (a + b)[1..] == a[1..] + b;
      NonEmptyAppend(a[1..], b);
    }
  }

  /** What the segments of any text are: those of the texts around each slash, and text without a slash is one. */
  lemma SegmentsMean(a: string, b: string)
    ensures Segments(a + "/" + b) == Segments(a) + Segments(b)
    ensures '/' !in a ==> Segments(a) == if a == "" then [] else [a]
  {
    Strings.SplitAppend(a, '/', b);
    NonEmptyAppend(Strings.Split(a, "/"), Strings.Split(b, "/"));
    if '/' !in a {
      Strings.SplitFree(a, '/');
      assert [a][1..] == [];
    }
  }
}
