/** The string operations the components share, after Go's strings package and Lua's plain string.find. */
module Strings {
  import opened Wrappers

  predicate OccursAt(s: string, d: string, i: nat) {
    i + |d| <= |s| && s[i..i + |d|] == d
  }

  predicate Contains(s: string, d: string) {
    exists i: nat | i <= |s| :: OccursAt(s, d, i)
  }

  /** The first occurrence of d in s at or after an index. */
  function Find(s: string, d: string, from: nat): (r: Option<nat>)
    requires from <= |s|
    ensures r.Some? ==> from <= r.value && OccursAt(s, d, r.value)
    decreases |s| - from
  {
    if OccursAt(s, d, from) then Some(from)
    else if from == |s| then None
    else Find(s, d, from + 1)
  }

  /** Nothing occurs before what Find finds, and nothing at all if it finds nothing. */
  lemma {:induction false} FindIsFirst(s: string, d: string, from: nat)
    requires from <= |s|
    ensures forall i: nat :: from <= i && OccursAt(s, d, i) ==> Find(s, d, from).Some? && Find(s, d, from).value <= i
    decreases |s| - from
  {
    if !OccursAt(s, d, from) && from < |s| {
      FindIsFirst(s, d, from + 1);
    }
  }

  /** An occurrence with none before it is what Find finds. */
  lemma FindIs(s: string, d: string, from: nat, i: nat)
    requires from <= i <= |s| && OccursAt(s, d, i)
    requires forall j: nat :: from <= j < i ==> !OccursAt(s, d, j)
    ensures Find(s, d, from) == Some(i)
  {
    FindIsFirst(s, d, from);
  }

  lemma FindNothing(s: string, d: string, from: nat)
    requires from <= |s| && forall j: nat :: from <= j ==> !OccursAt(s, d, j)
    ensures Find(s, d, from) == None
  {
  }

  /** strings.Split for a non-empty separator: the pieces between its occurrences, found left to right. */
  function Split(s: string, d: string): (r: seq<string>)
    requires d != ""
    ensures r != []
    decreases |s|
  {
    match Find(s, d, 0)
    case None => [s]
    case Some(i) => [s[..i]] + Split(s[i + |d|..], d)
  }

  /** strings.Join. */
  function Join(parts: seq<string>, d: string): string {
    if parts == [] then "" else if |parts| == 1 then parts[0] else parts[0] + d + Join(parts[1..], d)
  }

  /** strings.ReplaceAll for a non-empty old string: non-overlapping matches, left to right. */
  function ReplaceAll(s: string, old': string, new': string): string
    requires old' != ""
  {
    Join(Split(s, old'), new')
  }

  /** strings.TrimSuffix. */
  function TrimSuffix(s: string, suffix: string): string {
    if |suffix| <= |s| && s[|s| - |suffix|..] == suffix then s[..|s| - |suffix|] else s
  }

  lemma JoinMore(x: string, rest: seq<string>, d: string)
    requires rest != []
    ensures Join([x] + rest, d) == x + d + Join(rest, d)
  {
    assert ([x] + rest)[1..] == rest;
  }

  lemma AroundOccurrence(s: string, d: string, i: nat)
    requires OccursAt(s, d, i)
    ensures s[..i] + d + s[i + |d|..] == s
  {
  }

  /** Cutting at a separator and joining with it gives the string back. */
  lemma {:induction false} JoinSplit(s: string, d: string)
    requires d != ""
    ensures Join(Split(s, d), d) == s
    decreases |s|
  {
    match Find(s, d, 0)
    case None =>
    case Some(i) =>
      JoinSplit(s[i + |d|..], d);
      JoinMore(s[..i], Split(s[i + |d|..], d), d);
      AroundOccurrence(s, d, i);
  }

  lemma OccursShift(s: string, d: string, from: nat, i: nat)
    requires from <= i && from <= |s|
    ensures OccursAt(s, d, i) <==> OccursAt(s[from..], d, i - from)
  {
    if i + |d| <= |s| {
      assert s[i..i + |d|] == s[from..][i - from..i - from + |d|];
    }
  }

  /** Searching from an index on is searching the rest of the string. */
  lemma FindShift(s: string, d: string, from: nat)
    requires from <= |s|
    ensures var r, r' := Find(s, d, from), Find(s[from..], d, 0);
            && (r.Some? <==> r'.Some?)
            && (r.Some? ==> r.value == from + r'.value)
  {
    var r, r' := Find(s, d, from), Find(s[from..], d, 0);
    FindIsFirst(s, d, from);
    FindIsFirst(s[from..], d, 0);
    if r.Some? {
      OccursShift(s, d, from, r.value);
    }
    if r'.Some? {
      OccursShift(s, d, from, from + r'.value);
    }
  }

  lemma SplitFound(s: string, d: string, i: nat)
    requires d != "" && Find(s, d, 0) == Some(i)
    ensures Split(s, d) == [s[..i]] + Split(s[i + |d|..], d)
  {
  }

  /** The first cut is made at the separator's first occurrence. */
  lemma SplitAtFirst(a: string, d: string, b: string)
    requires d != "" && Find(a + d + b, d, 0) == Some(|a|)
    ensures Split(a + d + b, d) == [a] + Split(b, d)
  {
    var s := a + d + b;
    assert s[|a| + |d|..] == b && s[..|a|] == a;
  }

  lemma SplitWhole(s: string, d: string)
    requires d != "" && !Contains(s, d)
    ensures Split(s, d) == [s]
  {
    FindNothing(s, d, 0);
  }

  /** A one-character separator first occurs right after a piece that does not have that character. */
  lemma FindAfter(a: string, c: char, b: string)
    requires c !in a
    ensures Find(a + [c] + b, [c], 0) == Some(|a|)
  {
    var s := a + [c] + b;
    assert OccursAt(s, [c], |a|);
    forall i: nat | i < |a| ensures !OccursAt(s, [c], i) {
      assert s[i..i + 1][0] == a[i];
    }
    FindIs(s, [c], 0, |a|);
  }

  lemma ContainsChar(s: string, c: char)
    ensures Contains(s, [c]) <==> c in s
  {
    if c in s {
      var i :| 0 <= i < |s| && s[i] == c;
      assert OccursAt(s, [c], i);
    }
    if Contains(s, [c]) {
      var i: nat :| i <= |s| && OccursAt(s, [c], i);
      assert s[i..i + 1][0] == c;
    }
  }

  /** Cutting after a piece free of the separator character peels that piece off. */
  lemma SplitCons(a: string, c: char, b: string)
    requires c !in a
    ensures Split(a + [c] + b, [c]) == [a] + Split(b, [c])
  {
    FindAfter(a, c, b);
    SplitAtFirst(a, [c], b);
  }

  lemma SplitFree(a: string, c: char)
    requires c !in a
    ensures Split(a, [c]) == [a]
  {
    ContainsChar(a, c);
    SplitWhole(a, [c]);
  }

  lemma Reassociate(a: string, c: char, b: string, rest: string)
    ensures (a + [c] + b) + [c] + rest == a + [c] + (b + [c] + rest)
  {
  }

  lemma ConsAppend(x: string, a: seq<string>, b: seq<string>)
    ensures [x] + (a + b) == [x] + a + b
  {
  }

  /** Cutting at a character cuts both sides of it separately. */
  lemma {:induction false} SplitAppend(a: string, c: char, b: string)
    ensures Split(a + [c] + b, [c]) == Split(a, [c]) + Split(b, [c])
    decreases |a|
  {
    if c !in a {
      SplitFree(a, c);
      SplitCons(a, c, b);
    } else {
      var head, tail := Peel(a, c);
      var more := tail + [c] + b;
      SplitAppend(tail, c, b);
      SplitCons(head, c, more);
      Reassociate(head, c, tail, b);
      ConsAppend(head, Split(tail, [c]), Split(b, [c]));
    }
  }

  /** Joining pieces free of the separator character and cutting again gives the pieces back. */
  lemma {:induction false} SplitJoin(parts: seq<string>, c: char)
    requires parts != [] && forall p :: p in parts ==> c !in p
    ensures Split(Join(parts, [c]), [c]) == parts
  {
    if |parts| == 1 {
      SplitFree(parts[0], c);
    } else {
      var first, rest := parts[0], parts[1..];
      SplitJoin(rest, c);
      SplitCons(first, c, Join(rest, [c]));
      assert parts == [first] + rest;
    }
  }

  lemma FoundAfterOthers(s: string, c: char)
    ensures match Find(s, [c], 0) case None => c !in s case Some(i) => c !in s[..i]
  {
    FindIsFirst(s, [c], 0);
    var end := match Find(s, [c], 0) case None => |s| case Some(i) => i;
    forall j | 0 <= j < end ensures s[j] != c {
      assert !OccursAt(s, [c], j);
      assert s[j..j + 1] == [s[j]];
    }
  }

  lemma {:induction false} SplitPiecesFree(s: string, c: char)
    ensures forall p :: p in Split(s, [c]) ==> c !in p
    decreases |s|
  {
    FoundAfterOthers(s, c);
    match Find(s, [c], 0)
    case None =>
    case Some(i) =>
      SplitPiecesFree(s[i + 1..], c);
  }

  /** Removing the separators shortens the text exactly when there was one. */
  lemma {:induction false} JoinShorter(parts: seq<string>, d: string)
    requires parts != [] && d != ""
    ensures |parts| == 1 ==> Join(parts, "") == Join(parts, d)
    ensures |parts| > 1 ==> |Join(parts, "")| + |d| <= |Join(parts, d)|
  {
    if |parts| > 1 {
      JoinShorter(parts[1..], d);
    }
  }

  /** Deleting a leading separator and all its repetitions leaves the rest exactly when it has none. */
  lemma RemoveLeading(d: string, rest: string)
    requires d != ""
    ensures ReplaceAll(d + rest, d, "") == rest <==> !Contains(rest, d)
    ensures Contains(rest, d) ==> |ReplaceAll(d + rest, d, "")| + |d| <= |rest|
  {
    assert OccursAt(d + rest, d, 0);
    assert "" + d + rest == d + rest;
    FindIs(d + rest, d, 0, 0);
    SplitAtFirst("", d, rest);
    var pieces := Split(rest, d);
    assert ([""] + pieces)[1..] == pieces;
    assert Join([""] + pieces, "") == Join(pieces, "");
    JoinSplit(rest, d);
    JoinShorter(pieces, d);
    if Contains(rest, d) {
      FindIsFirst(rest, d, 0);
      assert Find(rest, d, 0).Some?;
    } else {
      SplitWhole(rest, d);
    }
  }

  /** strings.Replace with a count of one. */
  function ReplaceFirst(s: string, old': string, new': string): string {
    match Find(s, old', 0)
    case None => s
    case Some(i) => s[..i] + new' + s[i + |old'|..]
  }

  /** One replacement, at the first occurrence, and everything around it as it was. */
  lemma ReplaceFirstMeans(a: string, old': string, b: string, new': string)
    requires Find(a + old' + b, old', 0) == Some(|a|)
    ensures ReplaceFirst(a + old' + b, old', new') == a + new' + b
  {
    var s := a + old' + b;
    assert s[..|a|] == a && s[|a| + |old'|..] == b;
  }

  /** Cuts a string at the first occurrence of a character it has. */
  lemma Peel(s: string, c: char) returns (head: string, tail: string)
    requires c in s
    ensures s == head + [c] + tail && c !in head && Split(s, [c]) == [head] + Split(tail, [c])
  {
    FoundAfterOthers(s, c);
    var i := Find(s, [c], 0).value;
    head, tail := s[..i], s[i + 1..];
    assert s[i..i + 1] == [c];
  }
}
