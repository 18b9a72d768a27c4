/** The three stores driven through a whole history by their own methods, and how their answers compare. */
module StoreReplay {
  import opened Wrappers
  import opened Scripts
  import opened Keyspace
  import opened StoreRefinement
  import opened NestedMaps
  import opened BackendEquivalence
  import opened EtcdStore
  import opened LocalStores

  lemma PrefixSteps(ops: seq<Op>, i: nat)
    requires i < |ops|
    ensures ops[..i + 1] == ops[..i] + [ops[i]] && ops[..i + 1][..i] == ops[..i]
  {
  }

  /** A file store after a history holds the catalog's libraries, and each subject's scripts. */
  method ReplayFile(ops: seq<Op>) returns (store: FileScriptStore)
    ensures fresh(store) && store.scripts == NestedHistory(ops) && store.libs == Meant(ops).libraries
    ensures forall s :: ScriptsIn(store.scripts, s) == Named(Meant(ops), s)
  {
    store := new FileScriptStore();
    for i := 0 to |ops|
      invariant fresh(store) && store.scripts == NestedHistory(ops[..i]) && store.libs == Meant(ops[..i]).libraries
    {
      PrefixSteps(ops, i);
      match ops[i]
      case AddScript(s, n, scr) => store.AddScript(s, n, scr);
      case DeleteScript(s, n) => store.DeleteScript(s, n);
      case AddLibrary(p, content) => store.AddLibrary(content, p);
      case RemoveLibrary(p) => store.RemoveLibrary(p);
    }
    assert ops[..|ops|] == ops;
    forall s ensures ScriptsIn(store.scripts, s) == Named(Meant(ops), s) {
      NestedRefines(ops, s);
    }
  }

  /** So does a dev store. */
  method ReplayDev(ops: seq<Op>) returns (store: DevStore)
    ensures fresh(store) && store.scripts == NestedHistory(ops) && store.libraries == Meant(ops).libraries
    ensures forall s :: ScriptsIn(store.scripts, s) == Named(Meant(ops), s)
  {
    store := new DevStore();
    for i := 0 to |ops|
      invariant fresh(store) && store.scripts == NestedHistory(ops[..i])
      invariant store.libraries == Meant(ops[..i]).libraries
    {
      PrefixSteps(ops, i);
      match ops[i]
      case AddScript(s, n, scr) => store.AddScript(s, n, scr);
      case DeleteScript(s, n) => store.DeleteScript(s, n);
      case AddLibrary(p, content) => store.AddLibrary(content, p);
      case RemoveLibrary(p) => store.RemoveLibrary(p);
    }
    assert ops[..|ops|] == ops;
    forall s ensures ScriptsIn(store.scripts, s) == Named(Meant(ops), s) {
      NestedRefines(ops, s);
    }
  }

  /** An etcd store over an empty keyspace holds the keyspace of the history. */
  method ReplayEtcd(ops: seq<Op>) returns (store: EtcdScriptStore)
    ensures fresh(store) && store.kv == History(ops)
  {
    store := new EtcdScriptStore(map[]);
    for i := 0 to |ops|
      invariant fresh(store) && store.kv == History(ops[..i])
    {
      PrefixSteps(ops, i);
      match ops[i]
      case AddScript(s, n, scr) => store.AddScript(s, n, scr);
      case DeleteScript(s, n) => store.DeleteScript(s, n);
      case AddLibrary(p, content) => store.AddLibrary(content, p);
      case RemoveLibrary(p) => store.RemoveLibrary(p);
    }
    assert ops[..|ops|] == ops;
  }

  /**
   LoadLibrairies of the three stores after the same history. The file and dev stores load the same; etcd
   loads exactly when all libraries asked for exist, and then loads what they load.
   */
  method LoadEverywhere(ops: seq<Op>, paths: seq<string>)
    returns (etcd: Result<seq<Value>>, file: seq<string>, dev: seq<string>)
    ensures file == dev == LoadPresent(Meant(ops).libraries, paths)
    ensures etcd.Ok? <==> forall p :: p in paths ==> p in Meant(ops).libraries
    ensures etcd.Ok? ==> |etcd.value| == |file| && forall i :: 0 <= i < |file| ==> etcd.value[i] == LibraryValue(file[i])
  {
    var e := ReplayEtcd(ops);
    var f := ReplayFile(ops);
    var d := ReplayDev(ops);
    etcd := e.LoadLibrairies(paths);
    file := f.LoadLibrairies(paths);
    dev := d.LoadLibrairies(paths);
    LibrariesAgreeIff(ops, paths);
  }

  /**
   GetScripts of the three stores after the same history. The dev store answers the subject's scripts, the
   file store the same for a subject ever added and not found otherwise; with prefix-free subjects etcd
   answers them too, under full keys.
   */
  method GetEverywhere(ops: seq<Op>, s: string, ghost subjects: set<string>)
    returns (etcd: Result<map<string, Script>>, file: Result<map<string, Script>>, dev: map<string, Script>)
    ensures dev == Named(Meant(ops), s)
    ensures file.Ok? ==> file.value == dev
    ensures file.Ok? <==> exists i :: 0 <= i < |ops| && ops[i].AddScript? && ops[i].subject == s
    ensures file.Err? ==> dev == map[]
    ensures PrefixFree(subjects) && Over(subjects, ops) && s in subjects ==> etcd == Ok(WithFullKeys(s, dev))
  {
    var e := ReplayEtcd(ops);
    var f := ReplayFile(ops);
    var d := ReplayDev(ops);
    etcd := e.GetScripts(s);
    file := f.GetScripts(s);
    dev := d.GetScripts(s);
    ListedOnceAdded(ops, s);
    if PrefixFree(subjects) && Over(subjects, ops) && s in subjects {
      PrefixFreeScansExactly(subjects, ops, s);
    }
  }
}
