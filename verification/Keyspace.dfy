/** The flat etcd keyspace of the script store, and the abstract (subject, name) map it stands for. */
module Keyspace {
  import opened Wrappers
  import opened Scripts
  import Strings

  const SCRIPT_PREFIX := "msgscript/scripts"
  const LIBRARY_PREFIX := "msgscript/libs"
  const ETCD_BACKEND_NAME := "etcd"

  /** A stored value: the encoding of a script, or the raw bytes of a library. */
  datatype Value = ScriptValue(script: Script) | LibraryValue(content: string)

  type Keys = map<string, Value>

  function GetKey(subject: string, name: string): string {
    Strings.Join([SCRIPT_PREFIX, subject, name], "/")
  }

  function LibraryKey(path: string): string {
    Strings.Join([LIBRARY_PREFIX, path], "/")
  }

  /** The prefix GetScripts scans: it does not end in a slash. */
  function ScanPrefix(subject: string): string {
    Strings.Join([SCRIPT_PREFIX, subject], "/")
  }

  /** The prefix WatchScripts watches: it ends in a slash. */
  function WatchPrefix(subject: string): string {
    SCRIPT_PREFIX + "/" + subject + "/"
  }

  /** The answer of a prefix scan: every script under the prefix by its full key, unless one does not decode. */
  function Scan(kv: Keys, prefix: string): Result<map<string, Script>> {
    if forall k :: k in kv && prefix <= k ==> kv[k].ScriptValue? then
      Ok(map k | k in kv && prefix <= k :: kv[k].script)
    else
      Err("failed to decode script")
  }

  /** LoadLibrairies: the libraries in the asked order, or an error at the first missing one. */
  function LoadAll(kv: Keys, paths: seq<string>): Result<seq<Value>> {
    if paths == [] then Ok([])
    else if LibraryKey(paths[0]) !in kv then Err("key " + LibraryKey(paths[0]) + " doesn't exists")
    else
      match LoadAll(kv, paths[1..])
      case Err(e) => Err(e)
      case Ok(rest) => Ok([kv[LibraryKey(paths[0])]] + rest)
  }

  /** At the first library asked for that is missing, loading fails with its key. */
  lemma {:induction false} FirstMissingNamed(kv: Keys, found: seq<string>, missing: string, more: seq<string>)
    requires (forall p :: p in found ==> LibraryKey(p) in kv) && LibraryKey(missing) !in kv
    ensures LoadAll(kv, found + [missing] + more) == Err("key msgscript/libs/" + missing + " doesn't exists")
  {
    var paths := found + [missing] + more;
    if found == [] {
      LibraryKeyText(missing);
      assert paths[0] == missing;
      assert "key " + ("msgscript/libs/" + missing) == "key msgscript/libs/" + missing;
    } else {
      assert paths[0] == found[0] && paths[1..] == found[1..] + [missing] + more;
      FirstMissingNamed(kv, found[1..], missing, more);
    }
  }

  /** The store's update operations. */
  datatype Op =
    | AddScript(subject: string, name: string, scr: Script)
    | DeleteScript(subject: string, name: string)
    | AddLibrary(path: string, content: string)
    | RemoveLibrary(path: string)

  function Update(kv: Keys, op: Op): Keys {
    match op
    case AddScript(s, n, scr) => kv[GetKey(s, n) := ScriptValue(scr)]
    case DeleteScript(s, n) => kv - {GetKey(s, n)}
    case AddLibrary(p, c) => kv[LibraryKey(p) := LibraryValue(c)]
    case RemoveLibrary(p) => kv - {LibraryKey(p)}
  }

  function History(ops: seq<Op>): Keys {
    if ops == [] then map[] else Update(History(ops[..|ops| - 1]), ops[|ops| - 1])
  }

  /** What a store is meant to hold. */
  datatype Catalog = Catalog(scripts: map<(string, string), Script>, libraries: map<string, string>)

  function Record(c: Catalog, op: Op): Catalog {
    match op
    case AddScript(s, n, scr) => c.(scripts := c.scripts[(s, n) := scr])
    case DeleteScript(s, n) => c.(scripts := c.scripts - {(s, n)})
    case AddLibrary(p, content) => c.(libraries := c.libraries[p := content])
    case RemoveLibrary(p) => c.(libraries := c.libraries - {p})
  }

  function Meant(ops: seq<Op>): Catalog {
    if ops == [] then Catalog(map[], map[]) else Record(Meant(ops[..|ops| - 1]), ops[|ops| - 1])
  }

  /** Every script operation of the history is about a subject of the set. */
  ghost predicate Over(subjects: set<string>, ops: seq<Op>) {
    forall i :: 0 <= i < |ops| ==>
      (ops[i].AddScript? || ops[i].DeleteScript? ==> ops[i].subject in subjects)
  }

  /** No subject begins with another subject and a slash. Slash-free subjects are like that. */
  ghost predicate SlashApart(subjects: set<string>) {
    forall s, t :: s in subjects && t in subjects ==> !(s + "/" <= t)
  }

  /** No subject is a proper prefix of another. */
  ghost predicate PrefixFree(subjects: set<string>) {
    forall s, t :: s in subjects && t in subjects && s <= t ==> s == t
  }

  /** A slash inside: what it means for s and a slash to begin t. */
  lemma SlashBelongs(s: string, t: string)
    ensures s + "/" <= t ==> '/' in t && s <= t && s != t
  {
    if s + "/" <= t {
      assert t[|s|] == '/';
      assert t[..|s|] == s;
    }
  }

  /** Slash-free subjects, and prefix-free subjects, are slash-apart. */
  lemma SlashApartCases(subjects: set<string>)
    ensures (forall s :: s in subjects ==> '/' !in s) ==> SlashApart(subjects)
    ensures PrefixFree(subjects) ==> SlashApart(subjects)
  {
    forall s, t ensures s + "/" <= t ==> '/' in t && s <= t && s != t {
      SlashBelongs(s, t);
    }
  }

  /** AddScript joins its key and DeleteScript prints it; both are this text. */
  lemma KeyText(s: string, n: string)
    ensures GetKey(s, n) == "msgscript/scripts/" + (s + "/" + n)
    ensures GetKey(s, n) == SCRIPT_PREFIX + "/" + (s + "/" + n)
    ensures GetKey(s, n) == WatchPrefix(s) + n
    ensures ScanPrefix(s) == "msgscript/scripts/" + s == SCRIPT_PREFIX + "/" + s
    ensures WatchPrefix(s) == SCRIPT_PREFIX + "/" + (s + "/")
  {
    assert [SCRIPT_PREFIX, s, n][1..] == [s, n] && [s, n][1..] == [n] && [SCRIPT_PREFIX, s][1..] == [s];
    assert Strings.Join([n], "/") == n && Strings.Join([s], "/") == s;
    assert Strings.Join([s, n], "/") == s + "/" + n;
    assert GetKey(s, n) == SCRIPT_PREFIX + "/" + (s + "/" + n);
  }

  lemma LibraryKeyText(p: string)
    ensures LibraryKey(p) == "msgscript/libs/" + p == LIBRARY_PREFIX + "/" + p
  {
    assert [LIBRARY_PREFIX, p][1..] == [p];
    assert Strings.Join([p], "/") == p;
  }

  lemma SamePrefix(p: string, a: string, b: string)
    ensures p + a <= p + b <==> a <= b
    ensures p + a == p + b <==> a == b
  {
    assert (p + a)[|p|..] == a && (p + b)[|p|..] == b;
    if p + a <= p + b {
      assert a == (p + b)[..|p + a|][|p|..];
      assert (p + b)[..|p + a|][|p|..] == b[..|a|];
    }
  }

  /** Which part of a stored subject and name a prefix can cover. */
  lemma PrefixOfPath(x: string, t: string, n: string)
    ensures x <= t + "/" + n <==> x <= t || (t + "/" <= x && x[|t| + 1..] <= n)
  {
    var path := t + "/" + n;
    if x <= path && |x| > |t| {
      assert (t + "/") == path[..|t| + 1] == x[..|t| + 1];
      assert x == (t + "/") + x[|t| + 1..] && path == (t + "/") + n;
      SamePrefix(t + "/", x[|t| + 1..], n);
    } else if x <= path {
      assert x == path[..|x|] == t[..|x|];
    }
    if t + "/" <= x {
      assert x == (t + "/") + x[|t| + 1..] && path == (t + "/") + n;
      SamePrefix(t + "/", x[|t| + 1..], n);
    } else if x <= t {
      assert path[..|x|] == t[..|x|];
    }
  }

  /** A scan for s covers the subjects that s begins and, should s have slashes, names under a part of s. */
  lemma KeyVersusScan(s: string, t: string, n: string)
    ensures ScanPrefix(s) <= GetKey(t, n) <==> s <= t || (t + "/" <= s && s[|t| + 1..] <= n)
  {
    KeyText(s, n);
    KeyText(t, n);
    SamePrefix(SCRIPT_PREFIX + "/", s, t + "/" + n);
    PrefixOfPath(s, t, n);
  }

  /** A watch for s covers s itself and only subjects that are not slash-apart from s. */
  lemma KeyVersusWatch(s: string, t: string, n: string)
    ensures s == t ==> WatchPrefix(s) <= GetKey(t, n)
    ensures s + "/" <= t ==> WatchPrefix(s) <= GetKey(t, n)
    ensures WatchPrefix(s) <= GetKey(t, n) ==> s == t || s + "/" <= t || t + "/" <= s
  {
    KeyText(s, n);
    KeyText(t, n);
    SamePrefix(SCRIPT_PREFIX + "/", s + "/", t + "/" + n);
    PrefixOfPath(s + "/", t, n);
    assert t + "/" <= s + "/" ==> (s + "/")[..|t|] == t;
    if t + "/" <= s + "/" && |t| < |s| {
      assert (s + "/")[..|t| + 1] == s[..|t| + 1];
    } else if t + "/" <= s + "/" {
      assert s == (s + "/")[..|t|] == t;
    }
  }

  lemma KeyEquality(s: string, n: string, t: string, m: string)
    ensures GetKey(s, n) == GetKey(t, m) <==> s + "/" + n == t + "/" + m
    ensures GetKey(s, n) == GetKey(t, m) ==> (s == t && n == m) || s + "/" <= t || t + "/" <= s
  {
    KeyText(s, n);
    KeyText(t, m);
    var a, b := s + "/" + n, t + "/" + m;
    SamePrefix(SCRIPT_PREFIX + "/", a, b);
    if a == b {
      if |s| < |t| {
        assert s + "/" == a[..|s| + 1];
        assert b[..|s| + 1] == t[..|s| + 1];
      } else if |t| < |s| {
        assert t + "/" == b[..|t| + 1];
        assert a[..|t| + 1] == s[..|t| + 1];
      } else {
        assert s == a[..|s|] && t == b[..|t|];
        assert n == a[|s| + 1..] && m == b[|t| + 1..];
      }
    }
  }

  /** Scripts and libraries live in disjoint parts of the keyspace. */
  lemma LibrariesApart(s: string, n: string, p: string)
    ensures GetKey(s, n) != LibraryKey(p)
    ensures !(ScanPrefix(s) <= LibraryKey(p)) && !(WatchPrefix(s) <= LibraryKey(p))
  {
    KeyText(s, n);
    LibraryKeyText(p);
    assert GetKey(s, n)[10] == 's' && LibraryKey(p)[10] == 'l';
    assert ScanPrefix(s)[10] == 's' && WatchPrefix(s)[10] == 's';
  }

  lemma LibraryKeyEquality(p: string, q: string)
    ensures LibraryKey(p) == LibraryKey(q) ==> p == q
  {
    LibraryKeyText(p);
    LibraryKeyText(q);
    SamePrefix(LIBRARY_PREFIX + "/", p, q);
  }
}
