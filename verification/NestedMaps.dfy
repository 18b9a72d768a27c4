/** The nested subject-to-name maps of the file and dev stores. */
module NestedMaps {
  import opened Wrappers
  import opened Scripts
  import opened Keyspace
  import opened StoreRefinement

  type Nested = map<string, map<string, Script>>

  /** The scripts of a subject; both stores treat a subject they never saw as having none. */
  function ScriptsIn(m: Nested, subject: string): map<string, Script> {
    if subject in m then m[subject] else map[]
  }

  /** What GetScripts of the file store answers. */
  function FileAnswer(m: Nested, subject: string): Result<map<string, Script>> {
    if subject in m then Ok(m[subject]) else Err("script not found for subject: " + subject)
  }

  function Insert(m: Nested, subject: string, name: string, scr: Script): Nested {
    m[subject := ScriptsIn(m, subject)[name := scr]]
  }

  function Erase(m: Nested, subject: string, name: string): Nested {
    if subject in m then m[subject := m[subject] - {name}] else m
  }

  function NestedUpdate(m: Nested, op: Op): Nested {
    match op
    case AddScript(s, n, scr) => Insert(m, s, n, scr)
    case DeleteScript(s, n) => Erase(m, s, n)
    case _ => m
  }

  function NestedHistory(ops: seq<Op>): Nested {
    if ops == [] then map[] else NestedUpdate(NestedHistory(ops[..|ops| - 1]), ops[|ops| - 1])
  }

  /** The file and dev stores: the libraries asked for that exist, in the asked order. */
  function LoadPresent(libs: map<string, string>, paths: seq<string>): seq<string> {
    if paths == [] then []
    else (if paths[0] in libs then [libs[paths[0]]] else []) + LoadPresent(libs, paths[1..])
  }

  /** Whatever is asked for before and after, a library that exists is loaded in its place, and another is skipped. */
  lemma {:induction false} LoadedInPlace(libs: map<string, string>, before: seq<string>, p: string, after: seq<string>)
    ensures LoadPresent(libs, before + [p] + after)
            == LoadPresent(libs, before) + (if p in libs then [libs[p]] else []) + LoadPresent(libs, after)
  {
    var paths := before + [p] + after;
    if before == [] {
      assert paths[0] == p && paths[1..] == after;
    } else {
      assert paths[0] == before[0] && paths[1..] == before[1..] + [p] + after;
      LoadedInPlace(libs, before[1..], p, after);
    }
  }

  lemma NestedStep(m: Nested, c: Catalog, op: Op, s: string)
    requires ScriptsIn(m, s) == Named(c, s)
    ensures ScriptsIn(NestedUpdate(m, op), s) == Named(Record(c, op), s)
  {
    NamedStep(c, op, s);
  }

  /** After every history, with no condition on subjects, the nested maps give each subject its scripts. */
  lemma {:induction false} NestedRefines(ops: seq<Op>, s: string)
    ensures ScriptsIn(NestedHistory(ops), s) == Named(Meant(ops), s)
  {
    if ops != [] {
      var before, op := ops[..|ops| - 1], ops[|ops| - 1];
      NestedRefines(before, s);
      NestedStep(NestedHistory(before), Meant(before), op, s);
    }
  }
}
