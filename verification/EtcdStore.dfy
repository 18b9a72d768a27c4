/** The etcd script store: its methods against the keyspace functions, and the subjects it lists. */
module EtcdStore {
  import opened Wrappers
  import opened Scripts
  import opened Keyspace
  import opened StoreRefinement
  import Strings

  /** The subject ListSubjects reads off a key; None where indexing the split key panics. */
  function SubjectOf(key: string): Option<string> {
    var ss := Strings.Split(Strings.ReplaceFirst(key, SCRIPT_PREFIX, ""), "/");
    if |ss| < 2 then None else Some(ss[1])
  }

  function ScriptKeys(kv: Keys): set<string> {
    set k | k in kv && SCRIPT_PREFIX <= k
  }

  function KeysListedAs(keys: set<string>, subject: string): set<string> {
    set k | k in keys && SubjectOf(k) == Some(subject)
  }

  /** The client's view of the shared keyspace. */
  class EtcdScriptStore {
    var kv: Keys

    constructor (kv: Keys)
      ensures this.kv == kv
    {
      this.kv := kv;
    }

    method AddScript(subject: string, name: string, scr: Script)
      modifies this
      ensures kv == Update(old(kv), Op.AddScript(subject, name, scr))
    {
      var key := GetKey(subject, name);
      kv := kv[key := ScriptValue(scr)];
    }

    method DeleteScript(subject: string, name: string)
      modifies this
      ensures kv == Update(old(kv), Op.DeleteScript(subject, name))
    {
      var key := SCRIPT_PREFIX + "/" + subject + "/" + name;
      KeyText(subject, name);
      assert key == GetKey(subject, name);
      kv := kv - {key};
    }

    method GetScripts(subject: string) returns (r: Result<map<string, Script>>)
      ensures r == Scan(kv, ScanPrefix(subject))
      ensures r.Err? ==> r.error == "failed to decode script"
    {
      var prefix := ScanPrefix(subject);
      var found := set k | k in kv && prefix <= k;
      var rest := found;
      var scripts: map<string, Script> := map[];
      while rest != {}
        invariant rest <= found
        invariant forall k :: k in found - rest ==> kv[k].ScriptValue?
        invariant scripts == map k | k in found - rest :: kv[k].script
      {
        var k :| k in rest;
        match kv[k]
        case LibraryValue(_) =>
          return Err("failed to decode script");
        case ScriptValue(scr) =>
          scripts := scripts[k := scr];
        rest := rest - {k};
      }
      assert found - rest == found;
      assert scripts == map k | k in kv && prefix <= k :: kv[k].script;
      return Ok(scripts);
    }

    /** One entry per stored script: a subject appears as often as it has keys. */
    method ListSubjects() returns (r: Result<seq<string>>)
      ensures r.Ok? <==> forall k :: k in ScriptKeys(kv) ==> SubjectOf(k).Some?
      ensures r.Ok? ==> forall x :: multiset(r.value)[x] == |KeysListedAs(ScriptKeys(kv), x)|
    {
      var found := ScriptKeys(kv);
      var rest := found;
      var subjects: seq<string> := [];
      while rest != {}
        invariant rest <= found
        invariant forall k :: k in found - rest ==> SubjectOf(k).Some?
        invariant forall x :: multiset(subjects)[x] == |KeysListedAs(found - rest, x)|
      {
        var k :| k in rest;
        var ss := Strings.Split(Strings.ReplaceFirst(k, SCRIPT_PREFIX, ""), "/");
        if |ss| < 2 {
          return Err("index out of range");
        }
        ListedOneMore(found - rest, k);
        assert found - (rest - {k}) == (found - rest) + {k};
        subjects := subjects + [ss[1]];
        rest := rest - {k};
      }
      assert found - rest == found;
      return Ok(subjects);
    }

    method LoadLibrairies(paths: seq<string>) returns (r: Result<seq<Value>>)
      ensures r == LoadAll(kv, paths)
    {
      var libraries: seq<Value> := [];
      assert paths[0..] == paths;
      for i := 0 to |paths|
        invariant LoadAll(kv, paths) == AfterLoaded(libraries, LoadAll(kv, paths[i..]))
      {
        var key := LibraryKey(paths[i]);
        LoadNext(kv, paths, i, libraries);
        if key !in kv {
          return Err("key " + key + " doesn't exists");
        }
        libraries := libraries + [kv[key]];
      }
      assert paths[|paths|..] == [] && libraries + [] == libraries;
      return Ok(libraries);
    }

    method AddLibrary(content: string, path: string)
      modifies this
      ensures kv == Update(old(kv), Op.AddLibrary(path, content))
    {
      kv := kv[LibraryKey(path) := LibraryValue(content)];
    }

    method RemoveLibrary(path: string)
      modifies this
      ensures kv == Update(old(kv), Op.RemoveLibrary(path))
    {
      kv := kv - {LibraryKey(path)};
    }
  }

  ghost function AfterLoaded(loaded: seq<Value>, rest: Result<seq<Value>>): (r: Result<seq<Value>>)
    ensures loaded == [] ==> r == rest
  {
    match rest
    case Err(e) => Err(e)
    case Ok(more) => assert [] + more == more; Ok(loaded + more)
  }

  lemma LoadNext(kv: Keys, paths: seq<string>, i: nat, loaded: seq<Value>)
    requires i < |paths|
    ensures var key := LibraryKey(paths[i]);
            AfterLoaded(loaded, LoadAll(kv, paths[i..]))
            == if key in kv then AfterLoaded(loaded + [kv[key]], LoadAll(kv, paths[i + 1..]))
               else Err("key " + key + " doesn't exists")
  {
    assert paths[i..][0] == paths[i] && paths[i..][1..] == paths[i + 1..];
    var key, rest := LibraryKey(paths[i]), LoadAll(kv, paths[i + 1..]);
    if key in kv && rest.Ok? {
      assert loaded + ([kv[key]] + rest.value) == loaded + [kv[key]] + rest.value;
    }
  }

  lemma ListedOneMore(keys: set<string>, k: string)
    requires k !in keys
    ensures forall x :: KeysListedAs(keys + {k}, x)
                        == KeysListedAs(keys, x) + if SubjectOf(k) == Some(x) then {k} else {}
    ensures forall x :: k !in KeysListedAs(keys, x)
  {
  }

  /** A stored key lists as its subject up to the subject's first slash. */
  lemma SubjectOfKey(s: string, n: string)
    ensures SubjectOf(GetKey(s, n)).Some?
    ensures SubjectOf(GetKey(s, n)) == Some(s) <==> '/' !in s
  {
    KeyText(s, n);
    var key, path := GetKey(s, n), s + "/" + n;
    assert key == SCRIPT_PREFIX + "/" + path;
    assert key == "" + SCRIPT_PREFIX + ("/" + path);
    assert Strings.OccursAt(key, SCRIPT_PREFIX, 0);
    Strings.ReplaceFirstMeans("", SCRIPT_PREFIX, "/" + path, "");
    assert "" + "" + ("/" + path) == "/" + path;
    assert "" + ['/'] + path == "/" + path;
    Strings.SplitCons("", '/', path);
    var ss := Strings.Split("/" + path, "/");
    assert ss[1] == Strings.Split(path, "/")[0];
    if '/' !in s {
      Strings.SplitCons(s, '/', n);
    }
    Strings.SplitPiecesFree(path, '/');
  }

  /** Listing fails on a key exactly if nothing after the scanned prefix is a slash; no stored script has such a key. */
  lemma ForeignKeyFailsIff(rest: string)
    ensures SubjectOf("msgscript/scripts" + rest).None? <==> '/' !in rest
  {
    var key := SCRIPT_PREFIX + rest;
    assert key == "" + SCRIPT_PREFIX + rest;
    assert Strings.OccursAt(key, SCRIPT_PREFIX, 0);
    Strings.ReplaceFirstMeans("", SCRIPT_PREFIX, rest, "");
    assert "" + "" + rest == rest;
    if '/' in rest {
      var head, tail := Strings.Peel(rest, '/');
    } else {
      Strings.SplitFree(rest, '/');
    }
  }

  lemma {:induction false} ImageSize(names: set<string>, s: string)
    ensures |set n | n in names :: GetKey(s, n)| == |names|
  {
    if names != {} {
      var m :| m in names;
      ImageSize(names - {m}, s);
      forall n | n in names - {m} ensures GetKey(s, n) != GetKey(s, m) {
        KeyEquality(s, n, s, m);
      }
      assert (set n | n in names :: GetKey(s, n)) == (set n | n in names - {m} :: GetKey(s, n)) + {GetKey(s, m)};
    } else {
      assert (set n | n in names :: GetKey(s, n)) == {};
    }
  }

  /** After a history, every script key is the key of a meant script. */
  lemma ScriptKeysMeant(subjects: set<string>, ops: seq<Op>, key: string)
    requires SlashApart(subjects) && Over(subjects, ops)
    ensures key in ScriptKeys(History(ops))
            <==> exists s, n :: (s, n) in Meant(ops).scripts && key == GetKey(s, n)
  {
    HistoryRefines(subjects, ops);
    if key in ScriptKeys(History(ops)) {
      assert HasSource(Meant(ops), key);
      forall p ensures !(SCRIPT_PREFIX <= LibraryKey(p)) {
        LibraryKeyText(p);
        assert LibraryKey(p)[10] == 'l' && SCRIPT_PREFIX[10] == 's';
      }
    }
    forall s, n | (s, n) in Meant(ops).scripts ensures GetKey(s, n) in ScriptKeys(History(ops)) {
      KeyText(s, n);
    }
  }

  /** ListSubjects names a subject once for each of its scripts. */
  ghost predicate CountsScripts(ops: seq<Op>, s: string) {
    |KeysListedAs(ScriptKeys(History(ops)), s)| == |Named(Meant(ops), s)|
  }

  /** Slash-free subjects are listed once per script, after every history. */
  lemma SlashFreeListed(subjects: set<string>, ops: seq<Op>, x: string)
    requires (forall s :: s in subjects ==> '/' !in s) && Over(subjects, ops)
    ensures CountsScripts(ops, x)
  {
    SlashApartCases(subjects);
    HistoryRefines(subjects, ops);
    var c, keys, names := Meant(ops), KeysListedAs(ScriptKeys(History(ops)), x), Named(Meant(ops), x).Keys;
    var image := set n | n in names :: GetKey(x, n);
    forall key ensures key in keys <==> key in image {
      ScriptKeysMeant(subjects, ops, key);
      forall s, n | (s, n) in c.scripts && key == GetKey(s, n) ensures SubjectOf(key) == Some(s) {
        SubjectOfKey(s, n);
      }
    }
    assert keys == image;
    ImageSize(names, x);
  }

  /** Every subject in use is listed once per script over every history exactly when none has a slash. */
  lemma ListedIff(subjects: set<string>)
    ensures (forall s :: s in subjects ==> '/' !in s)
            <==> forall ops, s :: Over(subjects, ops) && s in subjects ==> CountsScripts(ops, s)
  {
    if forall s :: s in subjects ==> '/' !in s {
      forall ops, s | Over(subjects, ops) && s in subjects ensures CountsScripts(ops, s) {
        SlashFreeListed(subjects, ops, s);
      }
    } else {
      var s :| s in subjects && '/' in s;
      var ops := [AddScript(s, "x", NEW_SCRIPT)];
      assert ops[..0] == [] && History(ops) == map[GetKey(s, "x") := ScriptValue(NEW_SCRIPT)];
      SubjectOfKey(s, "x");
      assert KeysListedAs(ScriptKeys(History(ops)), s) == {};
      assert Meant(ops).scripts == map[(s, "x") := NEW_SCRIPT];
      assert "x" in Named(Meant(ops), s);
      assert Over(subjects, ops) && !CountsScripts(ops, s);
    }
  }

  /** The name replyWithNamesForSubject derives from a full key. */
  function ListedName(subject: string, key: string): string {
    Strings.ReplaceAll(key, ScanPrefix(subject), "")
  }

  /** The name listed for a key of a store's answer; only etcd's keys are more than the name. */
  function NameFor(backend: string, subject: string, key: string): string {
    if backend == ETCD_BACKEND_NAME then ListedName(subject, key) else key
  }

  function KeysNamed(backend: string, subject: string, keys: set<string>, name: string): set<string> {
    set k | k in keys && NameFor(backend, subject, k) == name
  }

  lemma NamedOneMore(backend: string, subject: string, keys: set<string>, k: string)
    requires k !in keys
    ensures forall x :: |KeysNamed(backend, subject, keys + {k}, x)|
                        == |KeysNamed(backend, subject, keys, x)| + if NameFor(backend, subject, k) == x then 1 else 0
  {
    forall x ensures |KeysNamed(backend, subject, keys + {k}, x)|
                     == |KeysNamed(backend, subject, keys, x)| + if NameFor(backend, subject, k) == x then 1 else 0
    {
      assert KeysNamed(backend, subject, keys + {k}, x)
          == KeysNamed(backend, subject, keys, x) + if NameFor(backend, subject, k) == x then {k} else {};
    }
  }

  lemma OwnNames(backend: string, subject: string, keys: set<string>, names: seq<string>)
    requires backend != "etcd"
    requires forall x :: multiset(names)[x] == |KeysNamed(backend, subject, keys, x)|
    ensures multiset(names) == multiset(keys)
  {
    forall x ensures multiset(names)[x] == multiset(keys)[x] {
      assert KeysNamed(backend, subject, keys, x) == if x in keys then {x} else {};
    }
  }

  /** replyWithNamesForSubject: the error of GetScripts, or each name as often as there are keys it comes from. */
  method ListNames(backend: string, answer: Result<map<string, Script>>, subject: string)
    returns (reply: Result<seq<string>>)
    ensures answer.Err? ==> reply == Err(answer.error)
    ensures answer.Ok? ==> reply.Ok? && |reply.value| == |answer.value|
    ensures answer.Ok? ==>
              forall x :: multiset(reply.value)[x] == |KeysNamed(backend, subject, answer.value.Keys, x)|
    ensures answer.Ok? && backend != "etcd" ==> multiset(reply.value) == multiset(answer.value.Keys)
  {
    if answer.Err? {
      return Err(answer.error);
    }
    var scripts := answer.value;
    var names: seq<string> := [];
    var rest := scripts.Keys;
    while rest != {}
      invariant rest <= scripts.Keys
      invariant |names| == |scripts| - |rest|
      invariant forall x :: multiset(names)[x] == |KeysNamed(backend, subject, scripts.Keys - rest, x)|
    {
      var k :| k in rest;
      NamedOneMore(backend, subject, scripts.Keys - rest, k);
      assert scripts.Keys - (rest - {k}) == (scripts.Keys - rest) + {k};
      if backend == ETCD_BACKEND_NAME {
        var fullSubjectPath := ScanPrefix(subject);
        names := names + [Strings.ReplaceAll(k, fullSubjectPath, "")];
      } else {
        names := names + [k];
      }
      rest := rest - {k};
    }
    assert scripts.Keys - rest == scripts.Keys;
    if backend != ETCD_BACKEND_NAME {
      OwnNames(backend, subject, scripts.Keys, names);
    }
    return Ok(names);
  }

  /** The name listed for any key of a scan is what follows the scanned prefix, exactly if that does not recur. */
  lemma ListedNameIff(s: string, key: string)
    requires ScanPrefix(s) <= key
    ensures ListedName(s, key) == key[|ScanPrefix(s)|..] <==> !Strings.Contains(key[|ScanPrefix(s)|..], ScanPrefix(s))
  {
    var d, rest := ScanPrefix(s), key[|ScanPrefix(s)|..];
    KeyText(s, "");
    assert key == d + rest;
    Strings.RemoveLeading(d, rest);
  }

  /** A subject that s begins is listed with the rest of its own name in front. */
  lemma ListedNameOf(s: string, t: string, n: string)
    requires s <= t
    ensures ListedName(s, GetKey(t, n)) == t[|s|..] + "/" + n
            <==> !Strings.Contains(t[|s|..] + "/" + n, "msgscript/scripts/" + s)
  {
    KeyText(s, n);
    KeyText(t, n);
    assert t == s + t[|s|..];
    var d, rest := ScanPrefix(s), t[|s|..] + "/" + n;
    assert GetKey(t, n) == d + rest;
    assert (d + rest)[|d|..] == rest;
    ListedNameIff(s, GetKey(t, n));
  }

  /** Listed names keep a leading slash, so none of them is the name that a lookup would need. */
  lemma ListedNameKeepsSlash(s: string, n: string)
    ensures ListedName(s, GetKey(s, n)) == "/" + n <==> !Strings.Contains("/" + n, ScanPrefix(s))
    ensures ListedName(s, GetKey(s, n)) != n
  {
    KeyText(s, n);
    var d := ScanPrefix(s);
    assert GetKey(s, n) == d + ("/" + n);
    Strings.RemoveLeading(d, "/" + n);
  }
}
