# Verified model of msgscript

msgscript runs user scripts when messages arrive. This project models the five parts of it where
state, concurrency and text handling meet, and proves what they keep over every run and every input.
`dafny verify dfyconfig.toml` checks all of it.

## The five components

**The script lock** (`LockProtocol`, `LockInvariant`, `LockSafety`, `LockLeak`, `LockRefusal`). Any number of nodes run any number of
handlers, one per call of the Lua executor's HandleMessage. The etcd lock table is shared; each node has
its own table of mutexes, keyed by script path. Taking the lock, arming the timeout, storing the mutex,
and the four steps of a release are separate events that interleave freely with each other, with timer
callbacks, with node crashes and with the expiry of a dead session's keys. A schedule is a sequence of
events, and `Run` gives its state or nothing if some event was not possible.

A timeout is a call of ReleaseLock like a handler's own, with the path followed by `_lock` as its path. One
invariant covers both kinds of calls and holds for every set of script paths; call a path *private* if no
path in use becomes it by adding `_lock`.

- A path is mutually exclusive in every schedule *if and only if* it is private, and a set of paths is *if and
  only if* all are. The `if` half is an invariant of every step; the `only if` half is a schedule in which the
  timeout of one script unlocks the mutex of another.
- A TryLock decides at once: on a free lock the handler becomes its owner, on a held one it leaves. A refusal is final:
  through every continuation none of the handler's events is possible again. Nobody ever waits for anybody.
- A release only ever unlocks a mutex of its own node and path, and on a private path only its own handler's.
- Without crashes, and for every set of paths, once all handlers have returned and no timeout is at work, no
  local mutex is left, and no etcd lock is left *if and only if* no call, a release or a timeout, ever deleted
  the entry of a locked mutex that nobody was about to unlock. Never acquiring between another call's Unlock and
  Delete is enough for that, whether or not timeouts are at work. Two concrete schedules show the leak otherwise:
  one in the window of a release, one in the window of a timeout. A leaked lock is never freed by any crash-free
  continuation. If all paths are private, timeouts are never at work and the windows are those of releases only.

**The stores** (`Keyspace`, `StoreRefinement`, `NestedMaps`, `BackendEquivalence`, `WatchReplay`,
`EtcdStore`, `LocalStores`, `StoreReplay`). The flat etcd keyspace and the nested maps of the file and dev stores are
related to one catalog from (subject, name) to script over every sequence of operations, and the stores' own
methods are driven through such sequences. "Slash-apart"
means that no subject begins with another subject and a slash; slash-free subjects and prefix-free
subjects are both slash-apart. Each property has its exact condition:

| property, over every history | holds exactly when |
|---|---|
| `GetScripts(s)` of etcd is exactly the scripts of s | no populated subject properly extends s |
| etcd, file and dev stores hold the same scripts for every subject in use | the subjects are prefix-free |
| the lookup of one named script is right on etcd | the subjects are slash-apart |
| folding the watch events rebuilds the scripts of every subject in use | the subjects are slash-apart |
| etcd's ListSubjects names each subject once per script | no subject has a slash |
| etcd loads the same libraries as the other stores | all libraries asked for exist |

**The fan-out** (`FanOut`, `FanOutResults`, `HttpAnswer`). Spawning loop, workers, wait group, bounded
channel, close and gather loop as interleaved steps. No worker ever blocks on its send, nothing is sent on
a closed channel, the wait group never goes negative, every schedule for n scripts has at most 6n + 4 steps,
and the reply holds every script's result once. The only panic is a nil result, and it happens exactly
when some executor returned one. Two schedules are answered alike over HTTP exactly when all HTML results
make the same page, header names as net/http files them; at most one HTML result is the common case.

**The script reader** (`Lines`, `ScriptReader`, `ScriptRoundTrip`, `HeaderForm`, `Prepending`). The scan loop against a
declarative meaning of the lines; which lines are headers, told from their text; the round trip through a canonical source; reading parsed content again;
and the law that prepending libraries commutes with header stripping, with its exact condition.

**The web router** (`WebRequest`, `UrlPattern`, `PatternText`, `WebRouter`). The Lua library's splitter, request and query
parsers, pattern matching and dispatch over an unordered route table, composed with the proxy's URL
rewriting into one end-to-end statement.

`Strings` holds the string operations all of them share: an index of a first occurrence, and splitting,
joining, replacing and trimming built on it. `Wrappers` and `Scripts` hold the shared values.

Where the source updates state in place or loops, the model is a class or a method proved against a
specification function; the lemmas are about that function.

## Where the code differs from what it says

The model follows the code.

- The comment at `store/etcd.go:244` says that the timer removes the mutex from the map. The callback passes
  `path + "_lock"` to ReleaseLock, whose map is keyed by `path`: with no path ending in another's `_lock`
  it finds nothing and releases nothing (`LockSafety.TimerFindsNothing`); otherwise it can unlock another
  script's mutex (`LockSafety.TimerUnlocksAnother`).
- The repository's `README.md:78` and `README.md:98` document a header `http`; the reader knows `html` only, so an `http` line
  stays in the content (`ScriptRoundTrip.UnknownHeaderIsContent`).
- `examples/libs/web.lua:186` means to fill in `/` for an empty path. Splitting the empty URL gives no piece at
  all, so that a GET of the bare subject fails; the default is filled in for the URL `??` and no other
  (`WebRequest.DefaultPathIff`, `WebRequest.DefaultPathRequests`).
- `examples/libs/web.lua:203` compares a position with 0 and is always true, so an empty query goes through
  the loop as well, with the same result.
- The names listed for a subject on etcd keep a leading slash, so that none of them is the name a lookup
  needs (`EtcdStore.ListedNameKeepsSlash`).
- ListSubjects of etcd repeats a subject once per script, and the other two stores keep listing a subject
  whose scripts are all gone (`EtcdStore.ListedIff`, `LocalStores.ListedOnceAdded`).
- LoadLibrairies of etcd fails on a missing library, and the other two skip it
  (`BackendEquivalence.LibrariesAgreeIff`).

## Model

| member | source | states |
|---|---|---|
| `LockInvariant.RunKeepsInv` | store/etcd.go:177-256 | In every reachable state of any schedule, with crashes, expiries and timeouts, for any set of paths: a live handler that took the lock and was not unlocked owns its etcd key; every owner is such a handler; an entry under its key is its own; a call only holds a mutex of the node and path it was called with; an unlocked mutex is in a table only while a call is between Unlock and Delete. |
| `LockSafety.RunKeepsPaths` | store/etcd.go:203-256 | In every reachable state, a mutex of a private path is unlocked by its own release only, and a timeout whose path + "_lock" is not in use is at work on nothing. |
| `LockSafety.TimerFindsNothing` | store/etcd.go:244-248 | In every reachable state, a step of a timeout whose path + "_lock" is not in use changes nothing but its own progress. |
| `LockSafety.ReleaseOwnership` | store/etcd.go:203-217 | In every reachable state the mutex a release is about to unlock has its node and path, and is the handler's own if the path is private; the mutex a timeout is about to unlock belongs to the path + "_lock" of its node. |
| `LockSafety.OnlyAnUnlockReleases` | store/etcd.go:203-226 | If one event takes the etcd lock from a live handler, it is a call's Unlock of that handler's mutex, in every schedule; on a private path it is the handler's own. |
| `LockSafety.TimeoutsStopped` | store/etcd.go:221-223 | A handler of a private path that has released its lock and passed Timer.Stop never has a waiting timeout, in every schedule. |
| `LockSafety.CrashedLockExpires` | store/etcd.go:177-201 | In every reachable state the key of a handler whose node crashed can expire, and that frees this key and no other. |
| `LockSafety.PrivateExcludes` | store/etcd.go:233-256 | The invariants leave at most one live handler of a private path between TryLock and Unlock, across all nodes. |
| `LockSafety.PathExclusiveIff` | store/etcd.go:203-256 | For a path in use: at most one live handler is between TryLock and Unlock in every reachable state of every schedule of all paths if and only if no path in use followed by "_lock" is this one. |
| `LockSafety.MutualExclusionIff` | store/etcd.go:203-256 | All paths are exclusive in every reachable state of every schedule if and only if no script path is another one followed by "_lock". |
| `LockSafety.TimerUnlocksAnother` | store/etcd.go:245-248 | For any path p with p + "_lock" in use there is a schedule in which two live handlers hold the lock of p + "_lock" at once. |
| `LockSafety.TakeFreeLock` | store/etcd.go:233-256 | A new handler can always take a free lock and run; the exact state after TryLock, AfterFunc and Store. What happens on a held lock is in the rows of LockRefusal. |
| `LockRefusal.TryLockDecides` | store/etcd.go:189-241 | In every reachable state: a TryLock on a free lock makes the handler its owner, one on a held lock makes it leave, with owners, tables and all other handlers as before. |
| `LockRefusal.MayGiveUp` | executor/lua_executor.go:86-123 | In every reachable state a handler that has not asked for the lock can ask, or can leave with both tables as before. |
| `LockRefusal.RefusalIsFinal` | executor/lua_executor.go:134-155 | Through every continuation, with crashes and timeouts, a handler that left stays so, owns no lock, has no mutex in any table, and none of its events (TryLock, Finish, release step, timeout) is possible. |
| `LockRefusal.RunningTookLock` | executor/lua_executor.go:134-158 | Whoever has armed, run or released got there by one TryLock of its own, made when the lock was free. |
| `LockRefusal.NobodyWaits` | store/etcd.go:203-256 | In every reachable state each live handler can take its next step, an armed timeout fire, a fired one go on, and its node crash, whatever the others do; a handler is armed before its mutex is stored. |
| `LockRefusal.HoldingIffOwns` | store/etcd.go:203-256 | On a private path a live handler owns its etcd key exactly while it is between TryLock and Unlock, or has returned with its mutex never unlocked. |
| `LockRefusal.CrashIsLocal` | store/etcd.go:177-182 | A crash empties the table of its node and no other; locks and handlers stay, and exactly the handlers of that node are dead. |
| `LockRefusal.CrashTakeover` | store/etcd.go:177-201 | A lock outlives the crash of its holder: there is a schedule in which another node is refused before the key expires and takes the lock after. |
| `LockLeak.StrandedIffClobbered` | store/etcd.go:207-223 | For any set of paths, in a crash-free schedule: some held lock can no longer be unlocked by any call if and only if some earlier Delete, of a release or a timeout, took the entry of a locked mutex that no call was about to unlock. |
| `LockLeak.NoLeakAtRest` | executor/lua_executor.go:134-238 | For any set of paths, after a crash-free schedule, once all handlers have returned (every exit after the lock runs the same deferred release) and no timeout is at work: no node has a mutex left, and no etcd lock is left if and only if no such Delete ever happened. |
| `LockLeak.SuffixFreeIdle` | store/etcd.go:244-248 | With no path another one plus "_lock", no timeout is ever at work on a mutex, in every schedule. |
| `LockLeak.NoLeakSuffixFree` | executor/lua_executor.go:134-238 | In such deployments the two statements about mutexes and locks hold as soon as all handlers have returned. |
| `LockLeak.ClearWindowsNeverClobber` | store/etcd.go:215-223 | For any set of paths: if nobody acquires a path on a node while a call of ReleaseLock for them, a handler's or a timeout's, is between Unlock and Delete, then no needed entry is ever deleted and no holder of a lock ever has such a window open on its key. |
| `LockLeak.ClearWindowsNoLeak` | executor/lua_executor.go:134-238 | Under that condition, for any set of paths, no etcd lock is left once all handlers have returned, and a local mutex only while a timeout is about to delete it; none at all once no timeout is at work. |
| `LockLeak.StaysStranded` | store/etcd.go:207-212 | For any set of paths, a held lock that no call can unlock any more stays so, under the same key, through every crash-free continuation. |
| `LockLeak.LeakIsPermanent` | store/etcd.go:207-226 | For any set of paths, an etcd lock left when all handlers have returned and that no timeout is about to unlock keeps its owner through every crash-free continuation, new handlers and timeouts included. |
| `LockLeak.WindowAcquireLeaks` | store/etcd.go:215-252 | For every path there is a crash-free schedule of two handlers that ends with all returned, no timeout at work, and the lock still owned. |
| `LockLeak.TimeoutWindowLeaks` | store/etcd.go:245-248 | For every p with p + "_lock" in use a lock leaks in a crash-free schedule in which no handler has begun its release when a lock is taken: the window is the timeout's. |
| `Keyspace.KeyText` | store/etcd.go:75-77 | The key of AddScript and of DeleteScript is "msgscript/scripts/" + subject + "/" + name, and the prefixes of GetScripts and WatchScripts are its beginnings without and with a final slash. |
| `Keyspace.KeyVersusScan` | store/etcd.go:119-122 | Exactly which stored (subject, name) pairs a prefix scan for s covers, for arbitrary strings. |
| `Keyspace.KeyVersusWatch` | store/etcd.go:157-160 | A watch of s covers all names of s, and another subject only if one begins with the other and a slash. |
| `Keyspace.KeyEquality` | store/etcd.go:75-77 | When two (subject, name) pairs share a key; only the same pair does unless the subjects are not slash-apart. |
| `Keyspace.LibrariesApart` | store/etcd.go:273-276 | No scan, watch or key of scripts ever meets a library key. |
| `Keyspace.LibraryKeyText` | store/etcd.go:294-294 | The key of a library is "msgscript/libs/" + path. |
| `Keyspace.FirstMissingNamed` | store/etcd.go:273-288 | Loading fails with the key of the first library asked for that is missing, whatever is asked for after it. |
| `StoreRefinement.HistoryRefines` | store/etcd.go:80-154 | After every sequence of adds and deletes over slash-apart subjects the keyspace holds the catalog's entries and nothing else. |
| `StoreRefinement.ScanIsUnion` | store/etcd.go:119-140 | GetScripts(s) decodes without error and is exactly the union of the scripts of all stored subjects that s begins. |
| `StoreRefinement.ScanExactIff` | store/etcd.go:119-140 | GetScripts(s) is exactly the scripts of s if and only if no populated subject properly extends s. |
| `NestedMaps.NestedRefines` | store/file.go:32-68 | After every history, with no condition on subjects, the nested maps of the file and dev stores give each subject exactly its scripts. |
| `NestedMaps.LoadedInPlace` | store/file.go:140-150 | Whatever is asked for before and after it, a library that exists is loaded in its place, and one that does not is skipped. |
| `BackendEquivalence.SameScriptsIff` | store/etcd.go:119-140 | The etcd scan and the nested maps hold the same scripts for every subject in use over every history if and only if no subject in use is a proper prefix of another. |
| `BackendEquivalence.InfoFaithfulIff` | cmd/server/messages.go:88-104 | The named lookup on etcd replies with the libraries, executor (lua if none), HTML mark and content of the script meant, and with an error if none is meant, over every history if and only if the subjects are slash-apart, although the scan behind it returns too much. |
| `BackendEquivalence.NestedInfoFaithful` | cmd/server/messages.go:88-128 | The file and dev stores reply with those four fields of the script meant, or an error, over every history, whatever the subjects. |
| `BackendEquivalence.LibraryStored` | store/etcd.go:293-311 | Libraries are stored and removed right over every history, whatever subjects and names the scripts have. |
| `BackendEquivalence.LibrariesAgreeIff` | store/etcd.go:273-291 | etcd loads libraries if and only if all asked for are in the catalog, and then loads, in order, the contents that are. |
| `WatchReplay.WatchScripts` | store/etcd.go:157-175 | The watch loop calls back once per change under the prefix, in order, with the key's remainder as the name. |
| `WatchReplay.CallsOfUpdate` | store/etcd.go:157-175 | What the watcher of s hears of one operation is what the catalog says about (s, name), nothing of other subjects or of libraries. |
| `WatchReplay.ReplayRebuilds` | store/etcd.go:157-175 | Folding the delivered events rebuilds exactly the scripts of s after every history over slash-apart subjects; no prefix condition is needed. |
| `WatchReplay.ReplayIff` | store/etcd.go:157-175 | That holds for all subjects in use over every history if and only if they are slash-apart. |
| `EtcdStore.EtcdScriptStore.constructor` | store/etcd.go:59-73 | A new client sees the keyspace as it is. |
| `EtcdStore.EtcdScriptStore.AddScript` | store/etcd.go:80-96 | Puts the script under its key and changes no other key. |
| `EtcdStore.EtcdScriptStore.DeleteScript` | store/etcd.go:143-154 | Deletes the key that AddScript uses for the same subject and name, and no other. |
| `EtcdStore.EtcdScriptStore.GetScripts` | store/etcd.go:119-140 | The loop over the range's keys, in any order, gives the scan's answer: all scripts under the prefix by full key, or an error if one value does not decode. |
| `EtcdStore.EtcdScriptStore.ListSubjects` | store/etcd.go:258-271 | Lists each subject as often as it has keys, in any order; fails exactly when some key under the prefix has no subject. |
| `EtcdStore.EtcdScriptStore.LoadLibrairies` | store/etcd.go:273-291 | The libraries in the asked order, or an error naming the first missing key. |
| `EtcdStore.EtcdScriptStore.AddLibrary` | store/etcd.go:293-301 | Puts one library and changes no other key. |
| `EtcdStore.EtcdScriptStore.RemoveLibrary` | store/etcd.go:303-311 | Deletes one library and changes no other key. |
| `EtcdStore.SubjectOfKey` | store/etcd.go:266-267 | The subject read off a stored key is the script's subject if and only if that subject has no slash; indexing never fails on such a key. |
| `EtcdStore.ForeignKeyFailsIff` | store/etcd.go:266-267 | Indexing the split key fails exactly for a key with no slash after "msgscript/scripts". |
| `EtcdStore.SlashFreeListed` | store/etcd.go:258-271 | After every history over slash-free subjects, every string is listed exactly as often as it has scripts. |
| `EtcdStore.ListedIff` | store/etcd.go:258-271 | Every subject in use is listed once per script over every history if and only if no subject in use has a slash. |
| `EtcdStore.ListNames` | cmd/server/messages.go:50-65 | The error of GetScripts, or for etcd each derived name as often as there are keys it derives from, and for the other stores each name once; no others. |
| `EtcdStore.ListedNameIff` | cmd/server/messages.go:58-61 | The name listed for any key that the scan covers is what follows the scanned prefix, if and only if the prefix does not recur in that. |
| `EtcdStore.ListedNameOf` | cmd/server/messages.go:58-61 | A script of a subject that the asked one begins is listed with the rest of its own subject, a slash and its name, under the same condition. |
| `EtcdStore.ListedNameKeepsSlash` | cmd/server/messages.go:58-61 | The derived name is "/" + name exactly when the scanned prefix does not recur in it, and is never the name itself. |
| `LocalStores.FileScriptStore.constructor` | store/file.go:25-30 | An empty store. |
| `LocalStores.FileScriptStore.GetScripts` | store/file.go:32-41 | The subject's map, or the not-found error for a subject never added. |
| `LocalStores.FileScriptStore.AddScript` | store/file.go:43-55 | Adds or replaces one script and leaves all others and the libraries alone. |
| `LocalStores.FileScriptStore.DeleteScript` | store/file.go:57-68 | Removes one script, keeps the subject, and does nothing for an unknown subject. |
| `LocalStores.FileScriptStore.ListSubjects` | store/file.go:127-138 | Every subject once, in any order. |
| `LocalStores.FileScriptStore.LoadLibrairies` | store/file.go:140-150 | The libraries that exist, in the asked order; missing ones are skipped. |
| `LocalStores.FileScriptStore.AddLibrary` | store/file.go:152-155 | Stores one library and leaves the scripts alone. |
| `LocalStores.FileScriptStore.RemoveLibrary` | store/file.go:157-160 | Deletes one library and leaves the scripts alone. |
| `LocalStores.DevStore.constructor` | store/dev.go:26-30 | An empty store. |
| `LocalStores.DevStore.OnChange` | store/dev.go:69-81 | The same abstract step as the file store for an add and for a delete, an unknown subject included. |
| `LocalStores.DevStore.AddScript` | store/dev.go:87-91 | Adds or replaces one script. |
| `LocalStores.DevStore.DeleteScript` | store/dev.go:93-97 | Removes one script. |
| `LocalStores.DevStore.GetScripts` | store/dev.go:99-101 | The subject's scripts, none for a subject never added. |
| `LocalStores.DevStore.ListSubjects` | store/dev.go:111-119 | Every subject once, in any order. |
| `LocalStores.DevStore.LoadLibrairies` | store/dev.go:121-130 | The libraries that exist, in the asked order. |
| `LocalStores.DevStore.AddLibrary` | store/dev.go:132-136 | Stores one library and leaves the scripts alone. |
| `LocalStores.DevStore.RemoveLibrary` | store/dev.go:138-142 | Deletes one library and leaves the scripts alone. |
| `LocalStores.ListedOnceAdded` | store/file.go:127-138 | After every history a subject is listed if and only if a script was ever added to it. |
| `LocalStores.ReplyWithNamedScriptInfo` | cmd/server/messages.go:88-128 | The step-by-step reply is the one the lookup theorems are about; the errors of GetScripts and of a missing script, with the rebuilt key in the text, are told as they are; a reply describes a script of the answer. |
| `StoreReplay.ReplayFile` | store/file.go:43-68 | A file store driven through any history by its own methods holds the catalog's libraries and each subject's scripts. |
| `StoreReplay.ReplayDev` | store/dev.go:69-97 | So does a dev store. |
| `StoreReplay.ReplayEtcd` | store/etcd.go:80-154 | An etcd store driven through any history by its own methods holds the keyspace that the refinement theorems are about. |
| `StoreReplay.LoadEverywhere` | store/etcd.go:273-291 | After the same history the file and dev stores load the same libraries; etcd loads if and only if all asked for exist, and then loads what they load. |
| `StoreReplay.GetEverywhere` | store/file.go:32-41 | After the same history the dev store answers the subject's scripts; the file store the same if the subject was ever added to and not found otherwise; etcd the same under full keys if the subjects are prefix-free. |
| `FanOut.RunKeepsInv` | cmd/server/main.go:243-280 | In every reachable state the channel holds what was sent and not yet received, in order; each script sent at most once; the counter equals the unfinished workers; the partial reply is the gathering of what was received. |
| `FanOutResults.SendNeverBlocks` | cmd/server/main.go:244-262 | A worker with a result finds the channel open and with room, in every reachable state. |
| `FanOutResults.WorkersNeverWait` | cmd/server/main.go:248-263 | In every reachable state a started worker can compute, one with a result can send, and one that has sent can tell the wait group, whatever the other workers have done. |
| `FanOutResults.OnlyNilPanics` | cmd/server/main.go:246-272 | No schedule sends on a closed channel or drives the wait group below zero, and the channel is closed only after all workers are done. |
| `FanOutResults.StepsTaken` | cmd/server/main.go:243-280 | Every schedule for n scripts, ended by a panic or not, has at most 6n + 4 steps; one that has not panicked has taken 6n + 4 steps less a measure, whatever the interleaving. |
| `FanOutResults.SomeStep` | cmd/server/main.go:243-280 | No schedule is stuck before the reply or the panic. |
| `FanOutResults.EveryRunEnds` | cmd/server/main.go:243-280 | Every schedule can be continued to an end, and it ends in the reply if and only if no result is nil. |
| `FanOutResults.RepliesIffPresent` | cmd/server/main.go:271-277 | An ended schedule has replied exactly when every executor returned a result. |
| `FanOutResults.ReplyInSomeOrder` | cmd/server/main.go:271-277 | The reply is the gathering of all results in some order that is a permutation of the scripts. |
| `FanOutResults.GatheredMeans` | cmd/server/main.go:270-277 | Gathering keeps every result in order and flags HTML exactly when one of them is HTML. |
| `FanOutResults.ResultsConserved` | cmd/server/main.go:243-280 | Under every schedule that replies, the results are as a bag the workers' outcomes, and the HTML flag is true if and only if one of them is HTML. |
| `FanOutResults.GatherReplies` | cmd/server/main.go:270-277 | The gather loop gives that reply, and panics exactly when a result is nil. |
| `FanOutResults.EveryOrderHappens` | cmd/server/main.go:245-277 | Every permutation of the results is the reply of some schedule. |
| `HttpAnswer.ServeReply` | cmd/server/http.go:187-259 | An error gets 404 or 500 and its text; otherwise the first HTML result is served with its own code and payload and each header as often as it is filed; without one, status 200 and all results as JSON. |
| `HttpAnswer.CanonicalMeans` | cmd/server/http.go:217 | The name under which a header is filed differs in case only, with capitals exactly at the start and after hyphens; a name that is no token stays as it is. |
| `HttpAnswer.CanonicalIff` | cmd/server/http.go:217 | Two names are filed together if and only if they are the same or are tokens that differ in case only. |
| `HttpAnswer.PageHeaders` | cmd/server/http.go:212-221 | How often a page has a name and value: once for each header of the script that net/http files under them, and once more for the default content type if the script has no header spelled Content-Type. |
| `HttpAnswer.ContentTypeIff` | cmd/server/http.go:212-221 | A page has exactly one content type, the script's own or text/html, if and only if the script has no header that spells the name in another case. |
| `HttpAnswer.AnswerIsPageOrJson` | cmd/server/http.go:207-253 | The answer is the page of the first HTML result if there is one, and all results as JSON otherwise. |
| `HttpAnswer.ScheduleIndependentIff` | cmd/server/http.go:207-253 | Any two schedules get the same status, headers (names as net/http files them) and payload, or permuted JSON lists, if and only if all HTML results make the same page. |
| `HttpAnswer.ShuffledScriptsAlike` | cmd/server/main.go:245-277 | Ranging over the script map in another order changes no answer either. |
| `HttpAnswer.PageFirst` | cmd/server/http.go:207-237 | For each HTML result some schedule makes it the page that is served. |
| `Lines.PlainLines` | script/script.go:76-80 | On text without carriage returns and over-long lines the scanner delivers just the lines. |
| `Lines.ScannedMeans` | script/script.go:76-80 | For any text the scanner delivers the lines before the first one of 65536 characters or more, in order, each without one carriage return at its end. |
| `Lines.JoinLines` | script/script.go:99-106 | The lines joined are the text up to one final newline. |
| `ScriptReader.ScriptRecord.constructor` | script/script.go:43-45 | A script with no field set. |
| `ScriptReader.ScriptRecord.Read` | script/script.go:75-109 | Reading text into a script, field by field, gives the scan function's result for any earlier field values; what that is, is in the rows from ReadMeans on and in those of HeaderForm. |
| `ScriptReader.ReadMeans` | script/script.go:75-109 | The result is the meaning of the lines: the last value of subject, name, executor and html, all requires in order, the other lines as content, fields without a header unchanged. |
| `ScriptReader.LinesUsedOnce` | script/script.go:79-104 | The content lines and the values of the five headers are together as many as the scanned lines. |
| `ScriptReader.PositionsPartition` | script/script.go:79-104 | Every scanned line is at a position of exactly one use, content or one of the five headers, and the positions of a use are in the order of the lines. |
| `ScriptReader.ContentInOrder` | script/script.go:98-103 | The content lines are the lines at the content positions, one by one and in order. |
| `ScriptReader.ValuesInOrder` | script/script.go:84-97 | The values of a header are the values of the lines at its positions, one by one and in order. |
| `ScriptReader.ContentLinesKept` | script/script.go:82-103 | The content lines are exactly the lines that are no headers. |
| `ScriptRoundTrip.HeaderLineReads` | script/script.go:55-73 | A written header line reads back as its key and value, whatever spaces or colons the value has. |
| `ScriptRoundTrip.UnknownHeaderIsContent` | script/script.go:84-103 | A header line is taken as a header exactly for the five known keys. |
| `HeaderForm.HeaderIff` | script/script.go:55-73 | A line is a header if and only if it is a first word that begins with "--*", a space, one of the five keys, perhaps a colon, and perhaps a space and a value; key and value are then those. |
| `HeaderForm.PlainSourceKept` | script/script.go:75-106 | A text none of whose scanned lines begins with "--*" is all content and sets no field. |
| `HeaderForm.LastHeaderWins` | script/script.go:84-97 | Whatever lines come before, and with no later line of its key, a subject, name or executor header sets its field to its value, and an html header to whether the value is one of 1, t, T, TRUE, true and True. |
| `HeaderForm.RequiresAddUp` | script/script.go:89-90 | Each require adds one library, after those of the lines before it and before those of the lines after it. |
| `ScriptRoundTrip.RoundTripIff` | script/script.go:75-109 | Writing a script out and reading it gives back every field if and only if no content line reads as a header and the content does not end in a newline. |
| `ScriptRoundTrip.ReadingShrinks` | script/script.go:75-109 | Reading any text either keeps it as content or makes it shorter. |
| `ScriptRoundTrip.ContentIsParsed` | script/script.go:75-109 | The content read from plain text is header-free and plain again. |
| `ScriptRoundTrip.RereadParsed` | executor/podman_executor.go:85 | Reading parsed content again sets no field but the content, and drops at most one final newline. |
| `ScriptRoundTrip.RereadingSettles` | executor/podman_executor.go:85 | Reading over and over ends in the content without its final newlines. |
| `Prepending.BuildScript` | executor/lua_executor.go:195-202 | The build loop writes every library and a newline, in order, and then the script. |
| `Prepending.BuiltIsBuildScript` | executor/lua_executor.go:195-202 | The text the commutation law is about is what that loop builds from the parsed contents. |
| `Prepending.ConcatenatedLines` | executor/lua_executor.go:195-202 | The content lines of the concatenated sources are those of each source, in order. |
| `Prepending.BuiltVersusKept` | executor/lua_executor.go:195-202 | The built text is never shorter than the joined content lines, and equal exactly when there is one source or all have content. |
| `Prepending.PrependingCommutesIff` | executor/lua_executor.go:195-202 | Building from parsed libraries and script equals reading the concatenated sources if and only if there is no library or every source has a content line. |
| `WebRequest.SplitString` | examples/libs/web.lua:218-231 | The split loop ends for every non-empty delimiter and gives standard splitting without one empty first and one empty last piece. |
| `WebRequest.SplitRebuilds` | examples/libs/web.lua:218-231 | Joining the pieces rebuilds the text up to one leading and one trailing delimiter. |
| `WebRequest.SplitWholePieces` | examples/libs/web.lua:218-231 | No piece has the delimiter in it. |
| `WebRequest.SplitEmptyIff` | examples/libs/web.lua:218-231 | For every non-empty delimiter: there is no piece exactly for the empty text and the bare delimiter, and one empty piece exactly for two delimiters. |
| `WebRequest.ParseQuery` | examples/libs/web.lua:202-215 | The loop over the fields gives the query table, or the error of a nil table index. |
| `WebRequest.QueryErrorIff` | examples/libs/web.lua:206-209 | A list of fields is refused if and only if one is empty or a bare equals sign. |
| `WebRequest.FieldMeans` | examples/libs/web.lua:206-209 | A field without "=" or with an empty value erases its key and leaves all others; with two or more "=" the text between the first two is the value. |
| `WebRequest.LeadingEquals` | examples/libs/web.lua:206-209 | A leading "=" of a field does not count. |
| `WebRequest.QueryOneMore` | examples/libs/web.lua:202-211 | The table of a query with one more field is the table of the query with that field stored, or the earlier error. |
| `WebRequest.QueryRoundTrip` | examples/libs/web.lua:202-215 | Parsing the rendered query of pairs without empty parts, "&" and "=" gives exactly their table, the last value of a key winning. |
| `WebRequest.ParseRequest` | examples/libs/web.lua:180-200 | The step-by-step parser gives the request that the routing theorems are about, nil errors included; for every verb but GET the path is the whole URL and the query empty. |
| `WebRequest.DefaultPathIff` | examples/libs/web.lua:184-194 | The default path is filled in for the URL "??" and for no other; the empty URL and a bare question mark fail. |
| `WebRequest.DefaultPathRequests` | cmd/server/http.go:129 | A GET of the subject alone is rewritten to the empty URL and fails; a GET of the subject followed by two question marks gets the default path. |
| `WebRequest.PathKeptIff` | examples/libs/web.lua:180-200 | What a GET of path and query parses to, for every question-mark-free path and query, empty ones included. |
| `WebRequest.SecondQuestionMark` | examples/libs/web.lua:184-194 | A second question mark of a GET ends the query; what follows is lost. |
| `WebRequest.LeadingQuestionMark` | examples/libs/web.lua:184-194 | A leading question mark of a GET does not count. |
| `WebRequest.BadQueryIff` | examples/libs/web.lua:199-211 | A GET with a path is refused if and only if a field of its query is empty or a bare equals sign. |
| `WebRequest.NoSubjectIff` | cmd/server/http.go:82-90 | Exactly a URL path without a slash has no subject. |
| `WebRequest.SubjectRead` | cmd/server/http.go:82-91 | The subject is read back off the URL path. |
| `WebRequest.EndToEnd` | cmd/server/http.go:129 | For "/" + subject + path + "?" + query without further "?" and with "/" + subject not recurring, rewriting and parsing recover the subject, the path and exactly the query's table. |
| `WebRequest.RoutedExactly` | cmd/server/http.go:129 | For any path and query: the script sees both with every "/" + subject removed, and the path is kept if and only if it has none. |
| `WebRequest.OtherVerbsEndToEnd` | cmd/server/http.go:129 | For every verb but GET the script sees as its path what follows the subject, question mark and all, with every "/" + subject removed: unchanged if and only if there is none. |
| `UrlPattern.MatchURLPattern` | examples/libs/web.lua:145-178 | The match loop computes the bindings that the theorems are about, for every pattern and URL. |
| `PatternText.MatchText` | examples/libs/web.lua:145-178 | On texts: for a pattern of literal segments and names in angle brackets and a URL of segments, the result has exactly the names, without brackets, each with the URL segment at its last place, if the literals agree and the pattern is not longer; it is empty otherwise. |
| `PatternText.SegmentsMean` | examples/libs/web.lua:148-156 | The segments of any text are those of the parts before and after each slash, and a text without a slash is one segment, or none if empty. |
| `UrlPattern.MatchIff` | examples/libs/web.lua:145-178 | The match is non-empty if and only if the pattern has no more segments than the URL, every literal segment agrees and some segment is a placeholder; each name is then bound to the segment of its last placeholder. |
| `UrlPattern.InstantiateMatchIff` | examples/libs/web.lua:162-177 | Instantiating the pattern by the match gives the URL's leading segments if and only if placeholders of one name stand for one segment. |
| `UrlPattern.MatchInstance` | examples/libs/web.lua:145-178 | Matching a pattern against its own instance gives the assignment back, repeated names included. |
| `WebRouter.Router.constructor` | examples/libs/web.lua:58-64 | An empty route table for each of the seven verbs. |
| `WebRouter.Router.Register` | examples/libs/web.lua:10-37 | Registers one route for one verb and changes no other. |
| `WebRouter.Router.Handle` | examples/libs/web.lua:76-119 | A parse error, or the dispatch that is meant: the exact route, a truly matching pattern, or 404 when there is neither; it is the dispatch of some order of the route table. For every verb but GET a route registered at the very URL is taken. |
| `WebRouter.RangeOver` | examples/libs/web.lua:96-115 | The loop over the unordered table stops at the first non-empty match of the order it took. |
| `WebRouter.DispatchMeans` | examples/libs/web.lua:89-118 | The exact route wins, otherwise a pattern that truly matches, and 404 if and only if there is neither. |
| `WebRouter.OrderIndependentIff` | examples/libs/web.lua:96-118 | All iteration orders dispatch a request alike if and only if its path is an exact route or at most one pattern matches. |

## Left out

- The inside of etcd: TryLock is one atomic step per lock key, Unlock removes only the caller's own session
  key, sessions live as long as their process, and handlers of a crashed node stop before their keys expire.
  Lease timing, network partitions, request errors other than a refused TryLock, and lock directories that
  are prefixes of one another are not modelled. A refused TryLock leaves its session behind; that is ignored.
- The lock and the fan-out are modelled on values, as interleaved steps of a state machine, because Dafny
  methods run alone; what the model does not capture is the memory order between goroutines.
- Iteration orders: ranging over a map or over the keys of an etcd range takes any order.
- NATS and HTTP sockets, request timeouts, the asynchronous reply, JSON (encoding and decoding are taken to be
  inverse), tracing, logging, templates and Markdown rendering.
- Lua, wasm, podman and plugins: running a script is an arbitrary result, and a worker is assumed to return.
  The choice of executor by name is part of that result.
- Temporary files, changing directories, walking directories and watching files, the file store's WatchScripts
  included.
- Aliasing: the file and dev stores hand out their own maps and scripts, and the named-script reply fills in
  defaults in the stored script. The model returns values.
- The race between load and store in AddScript of the file store: operations are sequential here.
- A nil script given to the dev store; DevStore.OnChange asks for a script on an add, as its two callers give.
- The order of values filed under one header name, the names that net/http refuses to write, its check of the
  status code, and a second write of a header.
- Percent-encoding in URLs, form parsing with the foreign strings module, and processResponse with mustache;
  the dispatch ends with the handler and its arguments.
- Carriage returns beyond the scanner's own dropping of one at a line's end: reading models it, but the round
  trip and prepending laws are stated for text without any and with lines the scanner accepts.
- ExecutorByName and StoreByName, commands, flags, Nix and Docker files: single-branch lookups and wiring that
  would only add easy members.
