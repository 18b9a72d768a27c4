/**
 The distributed script lock as a step machine.

 Any number of nodes run any number of handlers; a handler is one call of the Lua executor's
 HandleMessage. The etcd lock table is shared, every node has its own table of local mutexes, and the
 two are updated in separate steps that interleave freely with those of other handlers, with timer
 callbacks and with node crashes.
 */
module LockProtocol {
  import opened Wrappers

  type NodeId = nat
  type HandlerId = nat

  const LOCK_SUFFIX := "_lock"

  /** The etcd key that TakeLock locks for a script path. */
  function LockKey(path: string): string {
    path + LOCK_SUFFIX
  }

  /** The point reached inside one call of ReleaseLock. A local mutex is named by the handler that took it. */
  datatype Release =
    | Load
    | Unlock(mutex: HandlerId)
    | StopTimer(mutex: HandlerId)
    | Delete
    | Returned

  /** Where HandleMessage stands with respect to the lock. */
  datatype Pc =
    | Ready                     // no lock asked for yet
    | Left                      // returned without ever holding the lock
    | Acquired                  // TryLock succeeded
    | Armed                     // the timeout timer is running
    | Running                   // the mutex is in the node's table, the script runs
    | Releasing(step: Release)  // the deferred ReleaseLock(path)

  /** The timeout timer of one TakeLock; once fired, its callback runs ReleaseLock(path + "_lock"). */
  datatype Timer = Unset | Pending | Stopped | Fired(step: Release)

  /** `unlocked` is the client-side mark that makes a second Unlock of the same mutex fail. */
  datatype Handler = Handler(node: NodeId, path: string, pc: Pc, timer: Timer, unlocked: bool)

  datatype State = State(
    handlers: map<HandlerId, Handler>,
    owner: map<string, HandlerId>,              // etcd: lock key to owning session
    mutexes: map<(NodeId, string), HandlerId>,  // per node: path to stored mutex
    crashed: set<NodeId>)

  datatype Event =
    | Spawn(h: HandlerId, node: NodeId, path: string)
    | GiveUp(h: HandlerId)
    | TryLock(h: HandlerId)
    | ArmTimer(h: HandlerId)
    | StoreMutex(h: HandlerId)
    | Finish(h: HandlerId)  // any exit once the lock is held: all of them run the deferred release
    | ReleaseStep(h: HandlerId)
    | TimerFires(h: HandlerId)
    | TimerStep(h: HandlerId)
    | Crash(node: NodeId)
    | Expire(h: HandlerId)

  const INIT := State(map[], map[], map[], {})

  predicate Live(s: State, h: HandlerId) {
    h in s.handlers && s.handlers[h].node !in s.crashed
  }

  predicate Enabled(names: set<string>, s: State, e: Event) {
    match e
    case Spawn(h, node, path) => h !in s.handlers && node !in s.crashed && path in names
    case GiveUp(h) => Live(s, h) && s.handlers[h].pc == Ready
    case TryLock(h) => Live(s, h) && s.handlers[h].pc == Ready
    case ArmTimer(h) => Live(s, h) && s.handlers[h].pc == Acquired
    case StoreMutex(h) => Live(s, h) && s.handlers[h].pc == Armed
    case Finish(h) => Live(s, h) && s.handlers[h].pc == Running
    case ReleaseStep(h) => Live(s, h) && s.handlers[h].pc.Releasing? && s.handlers[h].pc.step != Returned
    case TimerFires(h) => Live(s, h) && s.handlers[h].timer == Pending
    case TimerStep(h) => Live(s, h) && s.handlers[h].timer.Fired? && s.handlers[h].timer.step != Returned
    case Crash(node) => node !in s.crashed
    case Expire(h) => h in s.handlers && !Live(s, h) && Owns(s, h)
  }

  /** The etcd table gives the handler's lock key to the handler's own session. */
  predicate Owns(s: State, h: HandlerId)
    requires h in s.handlers
  {
    var key := LockKey(s.handlers[h].path);
    key in s.owner && s.owner[key] == h
  }

  function SetPc(s: State, h: HandlerId, pc: Pc): State
    requires h in s.handlers
  {
    s.(handlers := s.handlers[h := s.handlers[h].(pc := pc)])
  }

  function SetTimer(s: State, h: HandlerId, timer: Timer): State
    requires h in s.handlers
  {
    s.(handlers := s.handlers[h := s.handlers[h].(timer := timer)])
  }

  /** Deletes the handler's own session key, if the lock table still has it. */
  function DropOwner(s: State, h: HandlerId): State
    requires h in s.handlers
  {
    if Owns(s, h) then s.(owner := s.owner - {LockKey(s.handlers[h].path)}) else s
  }

  /** One step of ReleaseLock(path) running on a node: the new state and the next point of the call. */
  function ReleaseCall(s: State, node: NodeId, path: string, step: Release): (State, Release) {
    match step
    case Load =>
      if (node, path) in s.mutexes then (s, Unlock(s.mutexes[(node, path)])) else (s, Returned)
    case Unlock(m) =>
      if m !in s.handlers || s.handlers[m].unlocked then
        (s, Returned)
      else
        var s' := DropOwner(s, m);
        (s'.(handlers := s'.handlers[m := s'.handlers[m].(unlocked := true)]), StopTimer(m))
    case StopTimer(m) =>
      (if m in s.handlers && s.handlers[m].timer == Pending then SetTimer(s, m, Stopped) else s, Delete)
    case Delete =>
      (s.(mutexes := s.mutexes - {(node, path)}), Returned)
    case Returned =>
      (s, Returned)
  }

  /** A call of ReleaseLock under way or returned: the handler's own, or the one its timeout made. */
  predicate Calling(s: State, h: HandlerId, timed: bool) {
    h in s.handlers && if timed then s.handlers[h].timer.Fired? else s.handlers[h].pc.Releasing?
  }

  function CallStep(s: State, h: HandlerId, timed: bool): Release
    requires Calling(s, h, timed)
  {
    if timed then s.handlers[h].timer.step else s.handlers[h].pc.step
  }

  /** The node and the path that the call passes: the timeout passes the lock key for the path. */
  function CallKey(s: State, h: HandlerId, timed: bool): (NodeId, string)
    requires h in s.handlers
  {
    var x := s.handlers[h];
    (x.node, if timed then LockKey(x.path) else x.path)
  }

  /** Where a handler's mutex is stored. */
  function TableKey(s: State, h: HandlerId): (NodeId, string)
    requires h in s.handlers
  {
    (s.handlers[h].node, s.handlers[h].path)
  }

  function SetStep(s: State, h: HandlerId, timed: bool, step: Release): State
    requires h in s.handlers
  {
    if timed then SetTimer(s, h, Fired(step)) else SetPc(s, h, Releasing(step))
  }

  /** One step of a call. */
  function Advance(s: State, h: HandlerId, timed: bool): State
    requires Calling(s, h, timed)
  {
    var (node, path) := CallKey(s, h, timed);
    var (s', step) := ReleaseCall(s, node, path, CallStep(s, h, timed));
    SetStep(s', h, timed, step)
  }

  function Apply(names: set<string>, s: State, e: Event): State
    requires Enabled(names, s, e)
  {
    match e
    case Spawn(h, node, path) =>
      s.(handlers := s.handlers[h := Handler(node, path, Ready, Unset, false)])
    case GiveUp(h) =>
      SetPc(s, h, Left)
    case TryLock(h) =>
      var key := LockKey(s.handlers[h].path);
      if key in s.owner then SetPc(s, h, Left) else SetPc(s.(owner := s.owner[key := h]), h, Acquired)
    case ArmTimer(h) =>
      SetTimer(SetPc(s, h, Armed), h, Pending)
    case StoreMutex(h) =>
      var x := s.handlers[h];
      SetPc(s.(mutexes := s.mutexes[(x.node, x.path) := h]), h, Running)
    case Finish(h) =>
      SetPc(s, h, Releasing(Load))
    case ReleaseStep(h) =>
      Advance(s, h, false)
    case TimerFires(h) =>
      SetTimer(s, h, Fired(Load))
    case TimerStep(h) =>
      Advance(s, h, true)
    case Crash(node) =>
      s.(crashed := s.crashed + {node}, mutexes := map key | key in s.mutexes && key.0 != node :: s.mutexes[key])
    case Expire(h) =>
      DropOwner(s, h)
  }

  /** The state after a schedule, or None if some event of it was not possible when its turn came. */
  function Run(names: set<string>, es: seq<Event>): Option<State> {
    if es == [] then
      Some(INIT)
    else
      match Run(names, es[..|es| - 1])
      case None => None
      case Some(s) => if Enabled(names, s, es[|es| - 1]) then Some(Apply(names, s, es[|es| - 1])) else None
  }

  /** The last event of a schedule was possible and led to its state. */
  lemma LastEvent(names: set<string>, es: seq<Event>, e: Event)
    requires Run(names, es + [e]).Some?
    ensures Run(names, es).Some? && Enabled(names, Run(names, es).value, e)
    ensures Run(names, es + [e]).value == Apply(names, Run(names, es).value, e)
  {
    assert (es + [e])[..|es|] == es;
  }

  ghost predicate CrashFree(es: seq<Event>) {
    forall i :: 0 <= i < |es| ==> !es[i].Crash?
  }

  lemma Extend(names: set<string>, es: seq<Event>, s: State, e: Event) returns (es': seq<Event>, s': State)
    requires Run(names, es) == Some(s) && Enabled(names, s, e)
    ensures es' == es + [e] && s' == Apply(names, s, e) && Run(names, es') == Some(s')
    ensures CrashFree(es) && !e.Crash? ==> CrashFree(es')
  {
    es', s' := es + [e], Apply(names, s, e);
    assert es'[..|es|] == es;
  }

  /** Between a successful TryLock and the Unlock. */
  predicate Holding(pc: Pc) {
    pc.Acquired? || pc.Armed? || pc.Running? || (pc.Releasing? && (pc.step.Load? || pc.step.Unlock?))
  }

  /** At most one live handler of a script path is between its TryLock and its Unlock. */
  ghost predicate ExclusiveOn(s: State, path: string) {
    forall g, h :: Live(s, g) && Live(s, h) && g != h && s.handlers[g].path == path && s.handlers[h].path == path
      ==> !(Holding(s.handlers[g].pc) && Holding(s.handlers[h].pc))
  }

  ghost predicate MutuallyExclusive(s: State) {
    forall path :: ExclusiveOn(s, path)
  }

  /** No script path followed by "_lock" is this one, so that no timeout ever asks for it. */
  ghost predicate Apart(names: set<string>, path: string) {
    forall p :: p in names ==> p + "_lock" != path
  }

  /** No script path is another path followed by "_lock". */
  ghost predicate SuffixFree(names: set<string>) {
    forall path :: path in names ==> Apart(names, path)
  }
}
