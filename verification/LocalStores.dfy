/** The two in-memory stores, the file store and the dev store, against the nested-map functions. */
module LocalStores {
  import opened Wrappers
  import opened Scripts
  import opened Keyspace
  import opened StoreRefinement
  import opened NestedMaps
  import opened BackendEquivalence
  import Strings

  class FileScriptStore {
    var scripts: Nested
    var libs: map<string, string>

    constructor ()
      ensures scripts == map[] && libs == map[]
    {
      scripts, libs := map[], map[];
    }

    method GetScripts(subject: string) returns (r: Result<map<string, Script>>)
      ensures r == FileAnswer(scripts, subject)
      ensures subject !in scripts ==> r == Err("script not found for subject: " + subject)
    {
      if subject !in scripts {
        return Err("script not found for subject: " + subject);
      }
      return Ok(scripts[subject]);
    }

    method AddScript(subject: string, name: string, scr: Script)
      modifies this
      ensures scripts == NestedUpdate(old(scripts), Op.AddScript(subject, name, scr)) && libs == old(libs)
    {
      if subject !in scripts {
        scripts := scripts[subject := map[]];
      }
      var scrm := scripts[subject];
      scrm := scrm[name := scr];
      scripts := scripts[subject := scrm];
    }

    method DeleteScript(subject: string, name: string)
      modifies this
      ensures scripts == NestedUpdate(old(scripts), Op.DeleteScript(subject, name)) && libs == old(libs)
    {
      if subject !in scripts {
        return;
      }
      var scrm := scripts[subject];
      scrm := scrm - {name};
      scripts := scripts[subject := scrm];
    }

    method ListSubjects() returns (subjects: seq<string>)
      ensures multiset(subjects) == multiset(scripts.Keys)
    {
      subjects := KeysOf(scripts);
    }

    method LoadLibrairies(paths: seq<string>) returns (libraries: seq<string>)
      ensures libraries == LoadPresent(libs, paths)
    {
      libraries := Load(libs, paths);
    }

    method AddLibrary(content: string, path: string)
      modifies this
      ensures libs == old(libs)[path := content] && scripts == old(scripts)
    {
      libs := libs[path := content];
    }

    method RemoveLibrary(path: string)
      modifies this
      ensures libs == old(libs) - {path} && scripts == old(scripts)
    {
      libs := libs - {path};
    }
  }

  class DevStore {
    var scripts: Nested
    var libraries: map<string, string>

    constructor ()
      ensures scripts == map[] && libraries == map[]
    {
      scripts, libraries := map[], map[];
    }

    /** Deleting from a subject never seen deletes from a nil map, which does nothing. */
    method OnChange(subject: string, name: string, scr: Option<Script>, del: bool)
      requires !del ==> scr.Some?
      modifies this
      ensures libraries == old(libraries)
      ensures scripts == NestedUpdate(old(scripts), if del then Op.DeleteScript(subject, name)
                                                    else Op.AddScript(subject, name, scr.value))
    {
      if !del {
        if subject !in scripts {
          scripts := scripts[subject := map[]];
        }
        scripts := scripts[subject := scripts[subject][name := scr.value]];
      } else if subject in scripts {
        scripts := scripts[subject := scripts[subject] - {name}];
      }
    }

    method AddScript(subject: string, name: string, scr: Script)
      modifies this
      ensures scripts == NestedUpdate(old(scripts), Op.AddScript(subject, name, scr)) && libraries == old(libraries)
    {
      OnChange(subject, name, Some(scr), false);
    }

    method DeleteScript(subject: string, name: string)
      modifies this
      ensures scripts == NestedUpdate(old(scripts), Op.DeleteScript(subject, name)) && libraries == old(libraries)
    {
      OnChange(subject, name, None, true);
    }

    method GetScripts(subject: string) returns (r: map<string, Script>)
      ensures r == ScriptsIn(scripts, subject)
    {
      r := if subject in scripts then scripts[subject] else map[];
    }

    method ListSubjects() returns (subjects: seq<string>)
      ensures multiset(subjects) == multiset(scripts.Keys)
    {
      subjects := KeysOf(scripts);
    }

    method LoadLibrairies(paths: seq<string>) returns (loaded: seq<string>)
      ensures loaded == LoadPresent(libraries, paths)
    {
      loaded := Load(libraries, paths);
    }

    method AddLibrary(content: string, path: string)
      modifies this
      ensures libraries == old(libraries)[path := content] && scripts == old(scripts)
    {
      libraries := libraries[path := content];
    }

    method RemoveLibrary(path: string)
      modifies this
      ensures libraries == old(libraries) - {path} && scripts == old(scripts)
    {
      libraries := libraries - {path};
    }
  }

  /** Ranging over a map in some order, collecting its keys. */
  method KeysOf(m: Nested) returns (subjects: seq<string>)
    ensures multiset(subjects) == multiset(m.Keys)
  {
    subjects := [];
    var rest := m.Keys;
    while rest != {}
      invariant rest <= m.Keys
      invariant multiset(subjects) == multiset(m.Keys - rest)
    {
      var k :| k in rest;
      assert m.Keys - (rest - {k}) == (m.Keys - rest) + {k};
      subjects := subjects + [k];
      rest := rest - {k};
    }
    assert m.Keys - rest == m.Keys;
  }

  method Load(libs: map<string, string>, paths: seq<string>) returns (libraries: seq<string>)
    ensures libraries == LoadPresent(libs, paths)
  {
    libraries := [];
    assert paths[0..] == paths;
    for i := 0 to |paths|
      invariant LoadPresent(libs, paths) == libraries + LoadPresent(libs, paths[i..])
    {
      assert paths[i..][0] == paths[i] && paths[i..][1..] == paths[i + 1..];
      if paths[i] in libs {
        libraries := libraries + [libs[paths[i]]];
      }
    }
  }

  /** Both stores keep listing a subject once it was added, even when all its scripts are gone. */
  lemma {:induction false} ListedOnceAdded(ops: seq<Op>, s: string)
    ensures s in NestedHistory(ops) <==> exists i :: 0 <= i < |ops| && ops[i].AddScript? && ops[i].subject == s
  {
    if ops != [] {
      var n := |ops| - 1;
      ListedOnceAdded(ops[..n], s);
      assert forall i :: 0 <= i < n ==> ops[..n][i] == ops[i];
      if i :| 0 <= i < |ops| && ops[i].AddScript? && ops[i].subject == s && i < n {
        assert ops[..n][i] == ops[i];
      }
    }
  }

  /** replyWithNamedScriptInfo step by step: the key is rebuilt, the defaults are filled in, the reply made. */
  method ReplyWithNamedScriptInfo(backend: string, answer: Result<map<string, Script>>, subject: string, name: string)
    returns (reply: Result<ScriptInfo>)
    ensures reply == NamedScriptInfo(backend, answer, subject, name)
    ensures answer.Err? ==> reply == Err(answer.error)
    ensures answer.Ok? && backend != "etcd" && name !in answer.value ==>
              reply == Err("no script found for subject " + subject + " with name " + name)
    ensures var key := "msgscript/scripts/" + (subject + "/" + name);
            answer.Ok? && backend == "etcd" && key !in answer.value ==>
              reply == Err("no script found for subject " + subject + " with name " + key)
    ensures answer.Ok? && reply.Ok? ==>
              exists key :: key in answer.value && Describes(reply.value, answer.value[key])
  {
    KeyText(subject, name);
    match answer
    case Err(e) =>
      return Err(e);
    case Ok(allScripts) =>
      var key := name;
      if backend == ETCD_BACKEND_NAME {
        key := Strings.Join([SCRIPT_PREFIX, subject, key], "/");
      }
      if key !in allScripts {
        return Err("no script found for subject " + subject + " with name " + key);
      }
      var script := allScripts[key];
      assert Describes(Describe(script), script);
      if script.executor == "" {
        script := script.(executor := EXECUTOR_LUA_NAME);
      }
      return Ok(ScriptInfo(Strings.Join(script.libKeys, ", "), script.executor, script.html, script.content));
  }
}
