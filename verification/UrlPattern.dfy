/** Matching a URL path against a route pattern with placeholders such as "<name>". */
module UrlPattern {
  import Strings

  /** The maximal runs without a slash, as the library's gmatch finds them. */
  function Segments(s: string): seq<string> {
    NonEmpty(Strings.Split(s, "/"))
  }

  function NonEmpty(parts: seq<string>): seq<string> {
    if parts == [] then []
    else (if parts[0] == "" then [] else [parts[0]]) + NonEmpty(parts[1..])
  }

  predicate IsPlaceholder(part: string) {
    |part| >= 2 && part[0] == '<' && part[|part| - 1] == '>'
  }

  function Key(part: string): string
    requires IsPlaceholder(part)
  {
    part[1..|part| - 1]
  }

  type Bindings = map<string, string>

  /** What the match loop collects from some segment on, or nothing if a literal segment differs. */
  function MatchFrom(result: Bindings, ps: seq<string>, us: seq<string>): Bindings
    requires |ps| <= |us|
    decreases |ps|
  {
    if ps == [] then result
    else if IsPlaceholder(ps[0]) then MatchFrom(result[Key(ps[0]) := us[0]], ps[1..], us[1..])
    else if ps[0] != us[0] then map[]
    else MatchFrom(result, ps[1..], us[1..])
  }

  function MatchSegments(ps: seq<string>, us: seq<string>): Bindings {
    if |ps| > |us| then map[] else MatchFrom(map[], ps, us)
  }

  function MatchURL(pattern: string, url: string): Bindings {
    MatchSegments(Segments(pattern), Segments(url))
  }

  method MatchURLPattern(pattern: string, url: string) returns (result: Bindings)
    ensures result == MatchURL(pattern, url)
  {
    result := map[];
    var patternParts, urlParts := Segments(pattern), Segments(url);
    if |patternParts| > |urlParts| {
      return;
    }
    assert patternParts[0..] == patternParts && urlParts[0..] == urlParts;
    for i := 0 to |patternParts|
      invariant MatchSegments(patternParts, urlParts) == MatchFrom(result, patternParts[i..], urlParts[i..])
    {
      var patternPart, urlPart := patternParts[i], urlParts[i];
      assert patternParts[i..][1..] == patternParts[i + 1..] && urlParts[i..][1..] == urlParts[i + 1..];
      if IsPlaceholder(patternPart) {
        var key := Key(patternPart);
        result := result[key := urlPart];
      } else if patternPart != urlPart {
        return map[];
      }
    }
  }

  /** Every literal segment of the pattern agrees with the URL's segment in its place. */
  predicate Agrees(ps: seq<string>, us: seq<string>) {
    |ps| <= |us| && forall i :: 0 <= i < |ps| ==> IsPlaceholder(ps[i]) || ps[i] == us[i]
  }

  predicate HasPlaceholder(ps: seq<string>) {
    exists i :: 0 <= i < |ps| && IsPlaceholder(ps[i])
  }

  /** The segment that the last placeholder of a name stands for. */
  ghost predicate BoundTo(ps: seq<string>, us: seq<string>, key: string, value: string)
    requires |ps| <= |us|
  {
    exists i :: 0 <= i < |ps| && IsPlaceholder(ps[i]) && Key(ps[i]) == key && us[i] == value
                && forall j :: i < j < |ps| && IsPlaceholder(ps[j]) ==> Key(ps[j]) != key
  }

  lemma BoundInTail(ps: seq<string>, us: seq<string>, key: string, value: string)
    requires 0 < |ps| <= |us| && BoundTo(ps[1..], us[1..], key, value)
    ensures BoundTo(ps, us, key, value)
  {
    var i :| 0 <= i < |ps[1..]| && IsPlaceholder(ps[1..][i]) && Key(ps[1..][i]) == key && us[1..][i] == value
             && forall j :: i < j < |ps[1..]| && IsPlaceholder(ps[1..][j]) ==> Key(ps[1..][j]) != key;
    assert ps[i + 1] == ps[1..][i] && us[i + 1] == us[1..][i];
    assert forall j :: i + 1 < j < |ps| ==> ps[j] == ps[1..][j - 1];
  }

  lemma BoundFirst(ps: seq<string>, us: seq<string>)
    requires 0 < |ps| <= |us| && IsPlaceholder(ps[0]) && !Named(ps[1..], Key(ps[0]))
    ensures BoundTo(ps, us, Key(ps[0]), us[0])
  {
    assert forall j :: 0 < j < |ps| ==> ps[j] == ps[1..][j - 1];
  }

  ghost predicate Named(ps: seq<string>, key: string) {
    exists i :: 0 <= i < |ps| && IsPlaceholder(ps[i]) && Key(ps[i]) == key
  }

  /** What the loop collects: the bindings of the pattern on top of what was there, or nothing. */
  lemma {:induction false} MatchFromMeans(result: Bindings, ps: seq<string>, us: seq<string>)
    requires |ps| <= |us|
    decreases |ps|
    ensures !Agrees(ps, us) ==> MatchFrom(result, ps, us) == map[]
    ensures Agrees(ps, us) ==>
              forall key :: key in MatchFrom(result, ps, us) <==> Named(ps, key) || key in result
    ensures Agrees(ps, us) ==>
              forall key :: Named(ps, key) ==> BoundTo(ps, us, key, MatchFrom(result, ps, us)[key])
    ensures Agrees(ps, us) ==>
              forall key :: key in result && !Named(ps, key) ==> MatchFrom(result, ps, us)[key] == result[key]
  {
    if ps != [] {
      var result' := if IsPlaceholder(ps[0]) then result[Key(ps[0]) := us[0]] else result;
      MatchFromMeans(result', ps[1..], us[1..]);
      AgreesTail(ps, us);
      if Agrees(ps, us) {
        var all := MatchFrom(result, ps, us);
        forall key | Named(ps, key) ensures key in all && BoundTo(ps, us, key, all[key]) {
          NamedTail(ps, key);
          assert key in all;
          if Named(ps[1..], key) {
            BoundInTail(ps, us, key, all[key]);
          } else {
            BoundFirst(ps, us);
          }
        }
        forall key ensures Named(ps, key)
                           <==> Named(ps[1..], key) || (IsPlaceholder(ps[0]) && Key(ps[0]) == key)
        {
          NamedTail(ps, key);
        }
      }
    }
  }

  lemma NamedTail(ps: seq<string>, key: string)
    requires ps != []
    ensures Named(ps, key) <==> Named(ps[1..], key) || (IsPlaceholder(ps[0]) && Key(ps[0]) == key)
  {
    assert forall j :: 0 <= j < |ps[1..]| ==> ps[1..][j] == ps[j + 1];
    if Named(ps, key) {
      var i :| 0 <= i < |ps| && IsPlaceholder(ps[i]) && Key(ps[i]) == key;
      if i > 0 {
        assert ps[1..][i - 1] == ps[i];
      }
    }
  }

  lemma AgreesTail(ps: seq<string>, us: seq<string>)
    requires 0 < |ps| <= |us|
    ensures Agrees(ps, us) <==> (IsPlaceholder(ps[0]) || ps[0] == us[0]) && Agrees(ps[1..], us[1..])
  {
    assert forall j :: 0 <= j < |ps| - 1 ==> ps[1..][j] == ps[j + 1] && us[1..][j] == us[j + 1];
    assert forall j :: 0 < j < |ps| ==> ps[1..][j - 1] == ps[j] && us[1..][j - 1] == us[j];
  }

  /**
   Sound and complete. The match is non-empty exactly when the pattern has no more segments than the URL,
   every literal segment agrees, and there is a placeholder; it then binds each name to its segment.
   */
  lemma MatchIff(pattern: string, url: string)
    ensures MatchURL(pattern, url) != map[]
            <==> Agrees(Segments(pattern), Segments(url)) && HasPlaceholder(Segments(pattern))
    ensures MatchURL(pattern, url) != map[] ==>
              forall key :: key in MatchURL(pattern, url) ==>
                BoundTo(Segments(pattern), Segments(url), key, MatchURL(pattern, url)[key])
  {
    var ps, us := Segments(pattern), Segments(url);
    var found := MatchURL(pattern, url);
    if |ps| <= |us| {
      MatchFromMeans(map[], ps, us);
      if Agrees(ps, us) && HasPlaceholder(ps) {
        var i :| 0 <= i < |ps| && IsPlaceholder(ps[i]);
        assert Named(ps, Key(ps[i]));
      }
      if found != map[] {
        var key :| key in found;
        assert Named(ps, key);
      }
    }
  }

  /** The pattern with its placeholders replaced. */
  function Instantiate(ps: seq<string>, values: Bindings): seq<string>
    requires forall i :: 0 <= i < |ps| && IsPlaceholder(ps[i]) ==> Key(ps[i]) in values
  {
    seq(|ps|, i requires 0 <= i < |ps| => if IsPlaceholder(ps[i]) then values[Key(ps[i])] else ps[i])
  }

  /** Placeholders of one name stand for the same segment. Distinct placeholders are like that. */
  ghost predicate Consistent(ps: seq<string>, us: seq<string>)
    requires |ps| <= |us|
  {
    forall i, j :: 0 <= i < |ps| && 0 <= j < |ps| && IsPlaceholder(ps[i]) && IsPlaceholder(ps[j]) ==>
      Key(ps[i]) == Key(ps[j]) ==> us[i] == us[j]
  }

  /** Instantiating by the match gives the URL's leading segments exactly when repeated names agree. */
  lemma InstantiateMatchIff(pattern: string, url: string)
    requires MatchURL(pattern, url) != map[]
    ensures var ps, us, found := Segments(pattern), Segments(url), MatchURL(pattern, url);
            && |ps| <= |us|
            && (forall i :: 0 <= i < |ps| && IsPlaceholder(ps[i]) ==> Key(ps[i]) in found)
            && (Instantiate(ps, found) == us[..|ps|] <==> Consistent(ps, us))
  {
    var ps, us, found := Segments(pattern), Segments(url), MatchURL(pattern, url);
    MatchIff(pattern, url);
    MatchFromMeans(map[], ps, us);
    forall i | 0 <= i < |ps| && IsPlaceholder(ps[i])
      ensures Key(ps[i]) in found && BoundTo(ps, us, Key(ps[i]), found[Key(ps[i])])
    {
      assert Named(ps, Key(ps[i]));
    }
    InstanceAgrees(ps, us, found);
  }

  lemma InstanceAgrees(ps: seq<string>, us: seq<string>, found: Bindings)
    requires Agrees(ps, us)
    requires forall i :: 0 <= i < |ps| && IsPlaceholder(ps[i]) ==>
               Key(ps[i]) in found && BoundTo(ps, us, Key(ps[i]), found[Key(ps[i])])
    ensures Instantiate(ps, found) == us[..|ps|] <==> Consistent(ps, us)
  {
    var instance := Instantiate(ps, found);
    if Consistent(ps, us) {
      forall i | 0 <= i < |ps| ensures instance[i] == us[i] {
        if IsPlaceholder(ps[i]) {
          var k :| 0 <= k < |ps| && IsPlaceholder(ps[k]) && Key(ps[k]) == Key(ps[i]) && us[k] == found[Key(ps[i])];
        }
      }
    }
    if instance == us[..|ps|] {
      forall i, j | 0 <= i < |ps| && 0 <= j < |ps| && IsPlaceholder(ps[i]) && IsPlaceholder(ps[j])
        && Key(ps[i]) == Key(ps[j])
        ensures us[i] == us[j]
      {
        assert us[..|ps|][i] == instance[i] && us[..|ps|][j] == instance[j];
      }
    }
  }

  lemma {:induction false} NonEmptyParts(parts: seq<string>)
    ensures forall p :: p in NonEmpty(parts) <==> p in parts && p != ""
    ensures (forall p :: p in parts ==> p != "") ==> NonEmpty(parts) == parts
  {
    if parts != [] {
      NonEmptyParts(parts[1..]);
      assert parts == [parts[0]] + parts[1..];
      assert forall p :: p in parts <==> p == parts[0] || p in parts[1..];
      assert parts[0] in parts;
    }
  }

  /** A URL made of non-empty slash-free segments is cut into them again. */
  lemma SegmentsOfUrl(segments: seq<string>)
    requires forall p :: p in segments ==> p != "" && '/' !in p
    ensures Segments("/" + Strings.Join(segments, "/")) == segments
  {
    var text := Strings.Join(segments, "/");
    assert "" + ['/'] + text == "/" + text;
    Strings.SplitCons("", '/', text);
    var pieces := Strings.Split(text, "/");
    assert ([""] + pieces)[1..] == pieces;
    assert NonEmpty([""] + pieces) == NonEmpty(pieces);
    if segments == [] {
      Strings.SplitFree("", '/');
      assert NonEmpty(pieces) == [];
    } else {
      Strings.SplitJoin(segments, '/');
      NonEmptyParts(segments);
    }
  }

  lemma SegmentsAreClean(s: string)
    ensures forall p :: p in Segments(s) ==> p != "" && '/' !in p
  {
    Strings.SplitPiecesFree(s, '/');
    NonEmptyParts(Strings.Split(s, "/"));
  }

  /** The assignment gives each of the pattern's names, and no other, a segment. */
  ghost predicate Assigns(ps: seq<string>, values: Bindings) {
    && (forall key :: key in values <==> Named(ps, key))
    && (forall key :: key in values ==> values[key] != "" && '/' !in values[key])
  }

  lemma AssignedKeys(ps: seq<string>, values: Bindings)
    requires Assigns(ps, values)
    ensures forall i :: 0 <= i < |ps| && IsPlaceholder(ps[i]) ==> Key(ps[i]) in values
  {
    forall i | 0 <= i < |ps| && IsPlaceholder(ps[i]) ensures Key(ps[i]) in values {
      assert Named(ps, Key(ps[i]));
    }
  }

  lemma MatchOwnInstance(ps: seq<string>, values: Bindings)
    requires Assigns(ps, values)
    ensures forall i :: 0 <= i < |ps| && IsPlaceholder(ps[i]) ==> Key(ps[i]) in values
    ensures MatchSegments(ps, Instantiate(ps, values)) == values
  {
    AssignedKeys(ps, values);
    var us := Instantiate(ps, values);
    MatchFromMeans(map[], ps, us);
    var found := MatchFrom(map[], ps, us);
    assert Agrees(ps, us);
    forall key | key in values ensures key in found && found[key] == values[key] {
      assert BoundTo(ps, us, key, found[key]);
    }
  }

  /**
   Matching a pattern against its own instance returns the assignment it was made from, whether or not
   placeholders repeat.
   */
  lemma MatchInstance(pattern: string, values: Bindings)
    requires Assigns(Segments(pattern), values)
    ensures (forall i :: 0 <= i < |Segments(pattern)| && IsPlaceholder(Segments(pattern)[i])
               ==> Key(Segments(pattern)[i]) in values)
    ensures MatchURL(pattern, "/" + Strings.Join(Instantiate(Segments(pattern), values), "/")) == values
  {
    var ps := Segments(pattern);
    MatchOwnInstance(ps, values);
    var us := Instantiate(ps, values);
    SegmentsAreClean(pattern);
    forall p | p in us ensures p != "" && '/' !in p {
      var i :| 0 <= i < |us| && us[i] == p;
      assert ps[i] in ps;
    }
    SegmentsOfUrl(us);
  }
}
