/** When the etcd backend answers like the file and dev backends: three exact conditions on subjects. */
module BackendEquivalence {
  import opened Wrappers
  import opened Scripts
  import opened Keyspace
  import opened StoreRefinement
  import opened NestedMaps
  import Strings

  lemma OwnKeysDiffer(s: string)
    ensures forall n, m :: GetKey(s, n) == GetKey(s, m) ==> n == m
  {
    forall n, m ensures GetKey(s, n) == GetKey(s, m) ==> n == m {
      KeyEquality(s, n, s, m);
    }
  }

  /** A subject's scripts with their names turned into full keys. */
  function WithFullKeys(s: string, scripts: map<string, Script>): map<string, Script> {
    OwnKeysDiffer(s);
    map n | n in scripts :: GetKey(s, n) := scripts[n]
  }

  /** The etcd scan and the nested maps hold the same scripts for a subject. */
  ghost predicate SameScripts(ops: seq<Op>, s: string) {
    Scan(History(ops), ScanPrefix(s)) == Ok(WithFullKeys(s, ScriptsIn(NestedHistory(ops), s)))
  }

  lemma ExactMeansFullKeys(c: Catalog, s: string, found: map<string, Script>)
    ensures IsExactly(c, s, found) <==> found == WithFullKeys(s, Named(c, s))
  {
    OwnKeysDiffer(s);
    var expected := WithFullKeys(s, Named(c, s));
    forall n | (s, n) in c.scripts ensures GetKey(s, n) in expected && expected[GetKey(s, n)] == c.scripts[(s, n)] {
      assert n in Named(c, s);
    }
    forall key | key in expected ensures exists n :: (s, n) in c.scripts && key == GetKey(s, n) {
      var n :| n in Named(c, s) && key == GetKey(s, n);
      assert (s, n) in c.scripts;
    }
    assert IsExactly(c, s, expected);
    if IsExactly(c, s, found) {
      assert found.Keys == expected.Keys;
    }
  }

  lemma OneScript(t: string, n: string, scr: Script)
    ensures var ops := [AddScript(t, n, scr)];
            && History(ops) == map[GetKey(t, n) := ScriptValue(scr)]
            && Meant(ops) == Catalog(map[(t, n) := scr], map[])
            && NestedHistory(ops) == map[t := map[n := scr]]
  {
    var ops := [AddScript(t, n, scr)];
    assert ops[..0] == [] && History([]) == map[] && NestedHistory([]) == map[];
  }

  /**
   The backends keep the same scripts for every subject over every history exactly when no subject in
   use is a proper prefix of another one.
   */
  lemma SameScriptsIff(subjects: set<string>)
    ensures PrefixFree(subjects)
            <==> forall ops, s :: Over(subjects, ops) && s in subjects ==> SameScripts(ops, s)
  {
    if PrefixFree(subjects) {
      forall ops, s | Over(subjects, ops) && s in subjects ensures SameScripts(ops, s) {
        PrefixFreeScansExactly(subjects, ops, s);
      }
    } else {
      var s, t :| s in subjects && t in subjects && s <= t && s != t;
      var ops := [AddScript(t, "x", NEW_SCRIPT)];
      OneScript(t, "x", NEW_SCRIPT);
      KeyVersusScan(s, t, "x");
      assert Over(subjects, ops) && !SameScripts(ops, s);
    }
  }

  lemma PrefixFreeScansExactly(subjects: set<string>, ops: seq<Op>, s: string)
    requires PrefixFree(subjects) && Over(subjects, ops) && s in subjects
    ensures SameScripts(ops, s)
  {
    SlashApartCases(subjects);
    assert subjects + {s} == subjects;
    HistoryRefines(subjects, ops);
    ScanExactIff(subjects, ops, s);
    ExactMeansFullKeys(Meant(ops), s, Scan(History(ops), ScanPrefix(s)).value);
    NestedRefines(ops, s);
  }

  const EXECUTOR_LUA_NAME := "lua"

  /** The reply about one script: its libraries joined, its executor, its HTML mark and its content. */
  datatype ScriptInfo = ScriptInfo(libraries: string, executor: string, html: bool, content: string)

  function LookupName(backend: string, subject: string, name: string): string {
    if backend == ETCD_BACKEND_NAME then Strings.Join([SCRIPT_PREFIX, subject, name], "/") else name
  }

  function Describe(scr: Script): ScriptInfo {
    ScriptInfo(Strings.Join(scr.libKeys, ", "), if scr.executor == "" then EXECUTOR_LUA_NAME else scr.executor,
               scr.html, scr.content)
  }

  /** replyWithNamedScriptInfo, given what GetScripts(subject) answered. */
  function NamedScriptInfo(backend: string, answer: Result<map<string, Script>>, subject: string, name: string)
    : Result<ScriptInfo>
  {
    match answer
    case Err(e) => Err(e)
    case Ok(scripts) =>
      var key := LookupName(backend, subject, name);
      if key in scripts then Ok(Describe(scripts[key]))
      else Err("no script found for subject " + subject + " with name " + key)
  }

  /** The reply has the script's libraries, its executor or Lua, its HTML mark and its content. */
  ghost predicate Describes(info: ScriptInfo, scr: Script) {
    && info.libraries == Strings.Join(scr.libKeys, ", ")
    && info.executor == (if scr.executor == "" then "lua" else scr.executor)
    && info.html == scr.html
    && info.content == scr.content
  }

  /** The etcd backend describes the script meant by (s, n), and nothing if none is meant. */
  ghost predicate InfoFaithful(ops: seq<Op>, s: string, n: string) {
    var reply := NamedScriptInfo(ETCD_BACKEND_NAME, Scan(History(ops), ScanPrefix(s)), s, n);
    if (s, n) in Meant(ops).scripts then reply.Ok? && Describes(reply.value, Meant(ops).scripts[(s, n)]) else reply.Err?
  }

  /**
   Although the scan behind it returns too much, the named lookup is right over every history exactly
   when no subject in use begins with another one and a slash.
   */
  lemma InfoFaithfulIff(subjects: set<string>)
    ensures SlashApart(subjects)
            <==> forall ops, s, n :: Over(subjects, ops) && s in subjects ==> InfoFaithful(ops, s, n)
  {
    if SlashApart(subjects) {
      forall ops, s, n | Over(subjects, ops) && s in subjects ensures InfoFaithful(ops, s, n) {
        LookupIsExact(subjects, ops, s, n);
      }
    } else {
      var s, t :| s in subjects && t in subjects && s + "/" <= t;
      var ops, name := [AddScript(t, "x", NEW_SCRIPT)], t[|s| + 1..] + "/x";
      OneScript(t, "x", NEW_SCRIPT);
      KeyEquality(s, name, t, "x");
      assert s + "/" + name == t + "/" + "x";
      KeyVersusScan(s, t, "x");
      SlashBelongs(s, t);
      assert Over(subjects, ops) && !InfoFaithful(ops, s, name);
    }
  }

  lemma LookupIsExact(subjects: set<string>, ops: seq<Op>, s: string, n: string)
    requires SlashApart(subjects) && Over(subjects, ops) && s in subjects
    ensures InfoFaithful(ops, s, n)
  {
    assert subjects + {s} == subjects;
    HistoryRefines(subjects, ops);
    ScanIsUnion(subjects, ops, s);
    var c, found := Meant(ops), Scan(History(ops), ScanPrefix(s)).value;
    if GetKey(s, n) in found {
      var t, m :| (t, m) in c.scripts && s <= t && GetKey(s, n) == GetKey(t, m);
      KeyEquality(s, n, t, m);
    }
  }

  /** The file and dev backends answer the same request right over every history, whatever the subjects. */
  lemma NestedInfoFaithful(ops: seq<Op>, s: string, n: string, backend: string)
    requires backend != ETCD_BACKEND_NAME
    ensures var file := NamedScriptInfo(backend, FileAnswer(NestedHistory(ops), s), s, n);
            var dev := NamedScriptInfo(backend, Ok(ScriptsIn(NestedHistory(ops), s)), s, n);
            if (s, n) in Meant(ops).scripts
            then file == dev && file.Ok? && Describes(file.value, Meant(ops).scripts[(s, n)])
            else file.Err? && dev.Err?
  {
    NestedRefines(ops, s);
    assert n in Named(Meant(ops), s) <==> (s, n) in Meant(ops).scripts;
  }

  /** Libraries are kept right over every history, whatever the subjects: their keys are never scripts'. */
  lemma {:induction false} LibraryStored(ops: seq<Op>, p: string)
    ensures LibraryKey(p) in History(ops) <==> p in Meant(ops).libraries
    ensures p in Meant(ops).libraries ==> History(ops)[LibraryKey(p)] == LibraryValue(Meant(ops).libraries[p])
  {
    if ops != [] {
      var op := ops[|ops| - 1];
      LibraryStored(ops[..|ops| - 1], p);
      if op.AddScript? || op.DeleteScript? {
        LibrariesApart(op.subject, op.name, p);
      } else {
        LibraryKeyEquality(p, op.path);
      }
    }
  }

  /** The etcd store loads libraries exactly when all of them exist, and then loads what the others load. */
  lemma {:induction false} LibrariesAgreeIff(ops: seq<Op>, paths: seq<string>)
    ensures var loaded, libs := LoadAll(History(ops), paths), Meant(ops).libraries;
            && (loaded.Ok? <==> forall p :: p in paths ==> p in libs)
            && (loaded.Ok? ==> |loaded.value| == |LoadPresent(libs, paths)|)
            && (loaded.Ok? ==> forall i :: 0 <= i < |loaded.value| ==>
                                 loaded.value[i] == LibraryValue(LoadPresent(libs, paths)[i]))
  {
    if paths != [] {
      LibrariesAgreeIff(ops, paths[1..]);
      LibraryStored(ops, paths[0]);
      assert forall p :: p in paths <==> p == paths[0] || p in paths[1..];
    }
  }
}
