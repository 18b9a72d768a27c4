/** The etcd keyspace against the abstract catalog, over every history of store operations. */
module StoreRefinement {
  import opened Wrappers
  import opened Scripts
  import opened Keyspace

  ghost predicate HasSource(c: Catalog, key: string) {
    || (exists s, n :: (s, n) in c.scripts && key == GetKey(s, n))
    || (exists p :: p in c.libraries && key == LibraryKey(p))
  }

  /** The keyspace holds the catalog's entries under their keys and nothing else. */
  ghost predicate Represents(kv: Keys, c: Catalog) {
    && (forall s, n :: (s, n) in c.scripts ==>
          GetKey(s, n) in kv && kv[GetKey(s, n)] == ScriptValue(c.scripts[(s, n)]))
    && (forall p :: p in c.libraries ==>
          LibraryKey(p) in kv && kv[LibraryKey(p)] == LibraryValue(c.libraries[p]))
    && (forall key :: key in kv ==> HasSource(c, key))
  }

  ghost predicate Within(subjects: set<string>, c: Catalog) {
    forall s, n :: (s, n) in c.scripts ==> s in subjects
  }

  lemma UpdateRefines(subjects: set<string>, kv: Keys, c: Catalog, op: Op)
    requires SlashApart(subjects) && Within(subjects, c) && Represents(kv, c) && Over(subjects, [op])
    ensures Represents(Update(kv, op), Record(c, op)) && Within(subjects, Record(c, op))
  {
    var kv', c' := Update(kv, op), Record(c, op);
    assert op == [op][0];
    forall s, n | (s, n) in c'.scripts
      ensures GetKey(s, n) in kv' && kv'[GetKey(s, n)] == ScriptValue(c'.scripts[(s, n)])
    {
      if op.AddScript? || op.DeleteScript? {
        KeyEquality(s, n, op.subject, op.name);
      } else {
        LibrariesApart(s, n, op.path);
      }
    }
    forall p | p in c'.libraries
      ensures LibraryKey(p) in kv' && kv'[LibraryKey(p)] == LibraryValue(c'.libraries[p])
    {
      if op.AddScript? || op.DeleteScript? {
        LibrariesApart(op.subject, op.name, p);
      } else {
        LibraryKeyEquality(p, op.path);
      }
    }
    forall key | key in kv' ensures HasSource(c', key) {
      UpdateAddsNoStray(kv, c, op, key);
    }
  }

  lemma UpdateAddsNoStray(kv: Keys, c: Catalog, op: Op, key: string)
    requires Represents(kv, c) && key in Update(kv, op)
    ensures HasSource(Record(c, op), key)
  {
    var c' := Record(c, op);
    match op
    case AddScript(s, n, _) =>
      assert (s, n) in c'.scripts;
      if key != GetKey(s, n) {
        KeepsSource(c, op, key);
      }
    case AddLibrary(p, _) =>
      assert p in c'.libraries;
      if key != LibraryKey(p) {
        KeepsSource(c, op, key);
      }
    case _ =>
      KeepsSource(c, op, key);
  }

  function TouchedKey(op: Op): string {
    if op.AddScript? || op.DeleteScript? then GetKey(op.subject, op.name) else LibraryKey(op.path)
  }

  lemma KeepsSource(c: Catalog, op: Op, key: string)
    requires HasSource(c, key) && key != TouchedKey(op)
    ensures HasSource(Record(c, op), key)
  {
    var c' := Record(c, op);
    if s, n :| (s, n) in c.scripts && key == GetKey(s, n) {
      assert (s, n) in c'.scripts;
    } else {
      var p :| p in c.libraries && key == LibraryKey(p);
      assert p in c'.libraries;
    }
  }

  /** Every history over slash-apart subjects leaves the keyspace representing the catalog. */
  lemma {:induction false} HistoryRefines(subjects: set<string>, ops: seq<Op>)
    requires SlashApart(subjects) && Over(subjects, ops)
    ensures Represents(History(ops), Meant(ops)) && Within(subjects, Meant(ops))
  {
    if ops != [] {
      var before, op := ops[..|ops| - 1], ops[|ops| - 1];
      HistoryRefines(subjects, before);
      UpdateRefines(subjects, History(before), Meant(before), op);
    }
  }

  /** The scripts of every subject that s begins, by full key. */
  ghost predicate IsUnionOfExtensions(c: Catalog, s: string, found: map<string, Script>) {
    && (forall t, n :: (t, n) in c.scripts && s <= t ==>
          GetKey(t, n) in found && found[GetKey(t, n)] == c.scripts[(t, n)])
    && (forall key :: key in found ==> exists t, n :: (t, n) in c.scripts && s <= t && key == GetKey(t, n))
  }

  /** The scripts of s alone, by full key. */
  ghost predicate IsExactly(c: Catalog, s: string, found: map<string, Script>) {
    && (forall n :: (s, n) in c.scripts ==> GetKey(s, n) in found && found[GetKey(s, n)] == c.scripts[(s, n)])
    && (forall key :: key in found ==> exists n :: (s, n) in c.scripts && key == GetKey(s, n))
  }

  /** GetScripts(s) never fails to decode and returns the union over the stored subjects that s begins. */
  lemma ScanIsUnion(subjects: set<string>, ops: seq<Op>, s: string)
    requires SlashApart(subjects + {s}) && Over(subjects, ops)
    ensures Scan(History(ops), ScanPrefix(s)).Ok?
    ensures IsUnionOfExtensions(Meant(ops), s, Scan(History(ops), ScanPrefix(s)).value)
  {
    var kv, c, prefix := History(ops), Meant(ops), ScanPrefix(s);
    HistoryRefines(subjects, ops);
    forall key | key in kv && prefix <= key
      ensures kv[key].ScriptValue? && exists t, n :: (t, n) in c.scripts && s <= t && key == GetKey(t, n)
    {
      assert HasSource(c, key);
      forall p ensures !(prefix <= LibraryKey(p)) {
        LibrariesApart(s, "", p);
      }
      var t, n :| (t, n) in c.scripts && key == GetKey(t, n);
      KeyVersusScan(s, t, n);
    }
    forall t, n | (t, n) in c.scripts && s <= t ensures prefix <= GetKey(t, n) {
      KeyVersusScan(s, t, n);
    }
  }

  /** GetScripts(s) is exactly the scripts of s if and only if no populated subject properly extends s. */
  lemma ScanExactIff(subjects: set<string>, ops: seq<Op>, s: string)
    requires SlashApart(subjects + {s}) && Over(subjects, ops)
    ensures Scan(History(ops), ScanPrefix(s)).Ok?
    ensures IsExactly(Meant(ops), s, Scan(History(ops), ScanPrefix(s)).value)
            <==> forall t, n :: (t, n) in Meant(ops).scripts && s <= t ==> t == s
  {
    ScanIsUnion(subjects, ops, s);
    HistoryRefines(subjects, ops);
    var c, found := Meant(ops), Scan(History(ops), ScanPrefix(s)).value;
    forall t, n, m | (t, n) in c.scripts ensures GetKey(t, n) == GetKey(s, m) ==> t == s {
      KeyEquality(t, n, s, m);
    }
  }

  /** The abstract scripts of one subject, by name. */
  function Named(c: Catalog, s: string): map<string, Script> {
    map k | k in c.scripts && k.0 == s :: k.1 := c.scripts[k]
  }

  lemma NamedAdd(scripts: map<(string, string), Script>, libs: map<string, string>, t: string, n: string,
                 scr: Script, s: string)
    ensures Named(Catalog(scripts[(t, n) := scr], libs), s)
            == if t == s then Named(Catalog(scripts, libs), s)[n := scr] else Named(Catalog(scripts, libs), s)
  {
  }

  lemma NamedDelete(scripts: map<(string, string), Script>, libs: map<string, string>, t: string, n: string, s: string)
    ensures Named(Catalog(scripts - {(t, n)}, libs), s)
            == if t == s then Named(Catalog(scripts, libs), s) - {n} else Named(Catalog(scripts, libs), s)
  {
  }

  /** What an operation does to the scripts of one subject. */
  lemma NamedStep(c: Catalog, op: Op, s: string)
    ensures op.AddScript? ==>
              Named(Record(c, op), s) == if op.subject == s then Named(c, s)[op.name := op.scr] else Named(c, s)
    ensures op.DeleteScript? ==>
              Named(Record(c, op), s) == if op.subject == s then Named(c, s) - {op.name} else Named(c, s)
    ensures op.AddLibrary? || op.RemoveLibrary? ==> Named(Record(c, op), s) == Named(c, s)
  {
    match op
    case AddScript(t, n, scr) => NamedAdd(c.scripts, c.libraries, t, n, scr, s);
    case DeleteScript(t, n) => NamedDelete(c.scripts, c.libraries, t, n, s);
    case _ =>
  }
}
