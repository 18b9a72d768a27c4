/** Watching a subject: the change feed of the keyspace and what folding it rebuilds. */
module WatchReplay {
  import opened Wrappers
  import opened Scripts
  import opened Keyspace
  import opened StoreRefinement

  /** A change that etcd reports. Deleting an absent key changes nothing and is not reported. */
  datatype Change = Put(key: string, value: Value) | Deleted(key: string)

  function ChangesOf(kv: Keys, op: Op): seq<Change> {
    match op
    case AddScript(s, n, scr) => [Put(GetKey(s, n), ScriptValue(scr))]
    case DeleteScript(s, n) => if GetKey(s, n) in kv then [Deleted(GetKey(s, n))] else []
    case AddLibrary(p, c) => [Put(LibraryKey(p), LibraryValue(c))]
    case RemoveLibrary(p) => if LibraryKey(p) in kv then [Deleted(LibraryKey(p))] else []
  }

  /** Every change of a history, in order. */
  function Feed(ops: seq<Op>): seq<Change> {
    if ops == [] then []
    else Feed(ops[..|ops| - 1]) + ChangesOf(History(ops[..|ops| - 1]), ops[|ops| - 1])
  }

  /** One call of the onChange callback. */
  datatype Call = Call(subject: string, name: string, value: Option<Value>, deleted: bool)

  function CallFor(subject: string, change: Change): Call
    requires WatchPrefix(subject) <= change.key
  {
    var name := change.key[|WatchPrefix(subject)|..];
    match change
    case Put(_, value) => Call(subject, name, Some(value), false)
    case Deleted(_) => Call(subject, name, None, true)
  }

  /** The callback's calls for a feed: the changes under the watched prefix, in order. */
  function Calls(subject: string, feed: seq<Change>): seq<Call> {
    if feed == [] then []
    else
      var change := feed[|feed| - 1];
      Calls(subject, feed[..|feed| - 1])
      + if WatchPrefix(subject) <= change.key then [CallFor(subject, change)] else []
  }

  /** The loop of WatchScripts over the delivered changes, with the callback's calls as its result. */
  method WatchScripts(subject: string, feed: seq<Change>) returns (calls: seq<Call>)
    ensures calls == Calls(subject, feed)
  {
    calls := [];
    var prefix := WatchPrefix(subject);
    for i := 0 to |feed|
      invariant calls == Calls(subject, feed[..i])
    {
      assert feed[..i + 1][..i] == feed[..i];
      var change := feed[i];
      if prefix <= change.key {
        var name := change.key[|prefix|..];
        match change
        case Put(_, value) => calls := calls + [Call(subject, name, Some(value), false)];
        case Deleted(_) => calls := calls + [Call(subject, name, None, true)];
      }
    }
    assert feed[..|feed|] == feed;
  }

  /** A watcher that keeps a table of what it is told. */
  function Absorb(table: map<string, Value>, call: Call): map<string, Value> {
    if call.value.Some? then table[call.name := call.value.value] else table - {call.name}
  }

  function Replay(calls: seq<Call>): map<string, Value> {
    if calls == [] then map[] else Absorb(Replay(calls[..|calls| - 1]), calls[|calls| - 1])
  }

  /** Replaying the whole feed of a history rebuilds the scripts meant for the subject, by name. */
  ghost predicate RebuildsSubject(ops: seq<Op>, s: string) {
    Replay(Calls(s, Feed(ops))) == Encoded(Named(Meant(ops), s))
  }

  function Encoded(scripts: map<string, Script>): map<string, Value> {
    map n | n in scripts :: ScriptValue(scripts[n])
  }

  lemma CallsExtend(s: string, feed: seq<Change>, more: seq<Change>)
    requires |more| <= 1
    ensures Calls(s, feed + more) == Calls(s, feed) + Calls(s, more)
  {
    if more == [] {
      assert feed + more == feed;
    } else {
      assert (feed + more)[..|feed|] == feed && more[..0] == [];
    }
  }

  lemma ReplayExtend(calls: seq<Call>, call: Call)
    ensures Replay(calls + [call]) == Absorb(Replay(calls), call)
  {
    assert (calls + [call])[..|calls|] == calls;
  }

  /** What the watcher of s should hear of an operation. */
  function CallsMeant(c: Catalog, op: Op, s: string): seq<Call> {
    match op
    case AddScript(t, n, scr) => if t == s then [Call(s, n, Some(ScriptValue(scr)), false)] else []
    case DeleteScript(t, n) => if t == s && (s, n) in c.scripts then [Call(s, n, None, true)] else []
    case _ => []
  }

  /** What it hears. */
  lemma CallsOfUpdate(subjects: set<string>, kv: Keys, c: Catalog, op: Op, s: string)
    requires SlashApart(subjects + {s}) && Over(subjects, [op]) && Represents(kv, c) && Within(subjects, c)
    ensures Calls(s, ChangesOf(kv, op)) == CallsMeant(c, op, s)
  {
    assert op == [op][0];
    var changes := ChangesOf(kv, op);
    assert |changes| == 1 ==> changes[..0] == [] && Calls(s, changes[..0]) == [];
    if op.AddScript? || op.DeleteScript? {
      KeyVersusWatch(s, op.subject, op.name);
      KeyText(s, op.name);
      StoredIffMeant(subjects, kv, c, op.subject, op.name);
    } else {
      LibrariesApart(s, "", op.path);
    }
  }

  lemma StoredIffMeant(subjects: set<string>, kv: Keys, c: Catalog, t: string, n: string)
    requires SlashApart(subjects) && Represents(kv, c) && Within(subjects, c) && t in subjects
    ensures GetKey(t, n) in kv <==> (t, n) in c.scripts
  {
    if GetKey(t, n) in kv {
      assert HasSource(c, GetKey(t, n));
      forall p ensures GetKey(t, n) != LibraryKey(p) {
        LibrariesApart(t, n, p);
      }
      var u, m :| (u, m) in c.scripts && GetKey(t, n) == GetKey(u, m);
      KeyEquality(t, n, u, m);
    }
  }

  lemma EncodedUpdate(scripts: map<string, Script>, n: string, scr: Script)
    ensures Encoded(scripts[n := scr]) == Encoded(scripts)[n := ScriptValue(scr)]
    ensures Encoded(scripts - {n}) == Encoded(scripts) - {n}
    ensures n !in scripts ==> scripts - {n} == scripts
  {
  }

  /** Hearing of one operation takes the watcher's table to the subject's next scripts. */
  lemma ReplayStep(calls: seq<Call>, c: Catalog, op: Op, s: string)
    requires Replay(calls) == Encoded(Named(c, s))
    ensures Replay(calls + CallsMeant(c, op, s)) == Encoded(Named(Record(c, op), s))
  {
    NamedStep(c, op, s);
    var heard := CallsMeant(c, op, s);
    if op.AddScript? {
      EncodedUpdate(Named(c, s), op.name, op.scr);
    } else if op.DeleteScript? {
      EncodedUpdate(Named(c, s), op.name, NEW_SCRIPT);
      assert op.subject == s ==> (op.name in Named(c, s) <==> (s, op.name) in c.scripts);
    }
    if heard == [] {
      assert calls + heard == calls;
    } else {
      assert calls + heard == calls + [heard[0]];
      ReplayExtend(calls, heard[0]);
    }
  }

  /** After every history over slash-apart subjects, the watcher's table is the subject's scripts. */
  lemma {:induction false} ReplayRebuilds(subjects: set<string>, ops: seq<Op>, s: string)
    requires SlashApart(subjects + {s}) && Over(subjects, ops)
    ensures RebuildsSubject(ops, s)
  {
    if ops == [] {
      NothingToRebuild(s);
    } else {
      var before, op := ops[..|ops| - 1], ops[|ops| - 1];
      assert ops == before + [op];
      ReplayRebuilds(subjects, before, s);
      FeedStep(subjects, before, op, s);
    }
  }

  lemma NothingToRebuild(s: string)
    ensures RebuildsSubject([], s)
  {
    assert Feed([]) == [] && Calls(s, []) == [] && Replay([]) == map[];
    assert Named(Meant([]), s) == map[];
  }

  lemma FeedStep(subjects: set<string>, ops: seq<Op>, op: Op, s: string)
    requires SlashApart(subjects + {s}) && Over(subjects, ops) && Over(subjects, [op]) && RebuildsSubject(ops, s)
    ensures RebuildsSubject(ops + [op], s)
  {
    var kv, c, feed := History(ops), Meant(ops), Feed(ops);
    HistoryRefines(subjects, ops);
    CallsOfUpdate(subjects, kv, c, op, s);
    CallsExtend(s, feed, ChangesOf(kv, op));
    ReplayStep(Calls(s, feed), c, op, s);
    assert (ops + [op])[..|ops|] == ops;
  }

  /**
   The watcher of every subject in use rebuilds that subject's scripts over every history exactly when
   no subject in use begins with another one and a slash; prefixes alone do no harm.
   */
  lemma ReplayIff(subjects: set<string>)
    ensures SlashApart(subjects)
            <==> forall ops, s :: Over(subjects, ops) && s in subjects ==> RebuildsSubject(ops, s)
  {
    if SlashApart(subjects) {
      forall ops, s | Over(subjects, ops) && s in subjects ensures RebuildsSubject(ops, s) {
        assert subjects + {s} == subjects;
        ReplayRebuilds(subjects, ops, s);
      }
    } else {
      var s, t :| s in subjects && t in subjects && s + "/" <= t;
      var ops := [AddScript(t, "x", NEW_SCRIPT)];
      ForeignCall(s, t, "x");
      SlashBelongs(s, t);
      assert Over(subjects, ops) && !RebuildsSubject(ops, s);
    }
  }

  lemma FeedOfOne(op: Op)
    ensures Feed([op]) == ChangesOf(map[], op) && Meant([op]) == Record(Catalog(map[], map[]), op)
  {
    assert [op][..0] == [];
    assert Feed([]) == [] && History([]) == map[] && Meant([]) == Catalog(map[], map[]);
  }

  lemma CallsOfOne(s: string, change: Change)
    requires WatchPrefix(s) <= change.key
    ensures Calls(s, [change]) == [CallFor(s, change)]
  {
    assert [change][..0] == [];
    assert Calls(s, []) == [];
  }

  lemma ReplayOfOne(call: Call)
    requires call.value.Some?
    ensures Replay([call]) == map[call.name := call.value.value]
  {
    assert [call][..0] == [];
    assert Replay([]) == map[];
  }

  /** The watcher of s hears of a script that belongs to a subject beginning with s and a slash. */
  lemma ForeignCall(s: string, t: string, n: string)
    requires s + "/" <= t
    ensures Replay(Calls(s, Feed([AddScript(t, n, NEW_SCRIPT)]))) != map[]
    ensures Meant([AddScript(t, n, NEW_SCRIPT)]).scripts == map[(t, n) := NEW_SCRIPT]
  {
    var change := Put(GetKey(t, n), ScriptValue(NEW_SCRIPT));
    KeyVersusWatch(s, t, n);
    FeedOfOne(AddScript(t, n, NEW_SCRIPT));
    CallsOfOne(s, change);
    ReplayOfOne(CallFor(s, change));
    assert CallFor(s, change).name in Replay([CallFor(s, change)]);
  }
}
