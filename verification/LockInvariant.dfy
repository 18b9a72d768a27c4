/** What every schedule of the script lock keeps, whatever the script paths are called. */
module LockInvariant {
  import opened Wrappers
  import opened LockProtocol

  /** TryLock has succeeded. */
  predicate Entered(pc: Pc) {
    !pc.Ready? && !pc.Left?
  }

  /** The mutex has been put into the node's table. */
  predicate Stored(pc: Pc) {
    pc.Running? || pc.Releasing?
  }

  /** A handler that took the lock and whose mutex nobody has unlocked yet. */
  predicate Unreleased(x: Handler) {
    Entered(x.pc) && !x.unlocked
  }

  ghost predicate HandlerInv(s: State, h: HandlerId)
    requires h in s.handlers
  {
    var x := s.handlers[h];
    && (x.unlocked ==> Stored(x.pc))
    && (x.pc.Ready? || x.pc.Left? || x.pc.Acquired? ==> x.timer == Unset)
    && (Unreleased(x) && x.node !in s.crashed ==> Owns(s, h))
    && (x.pc.Releasing? ==>
          match x.pc.step
          case Unlock(m) => m == h || x.unlocked
          case StopTimer(_) => x.unlocked
          case Delete => x.unlocked
          case _ => true)
    && (Stored(x.pc) && !x.unlocked && TableKey(s, h) in s.mutexes ==>
          s.mutexes[TableKey(s, h)] == h && x.pc != Releasing(Returned))
  }

  /** A call only ever holds a mutex that was stored under the key it was called with. */
  ghost predicate CallInv(s: State, h: HandlerId, timed: bool)
    requires Calling(s, h, timed)
  {
    match CallStep(s, h, timed)
    case Unlock(m) => m in s.handlers && TableKey(s, m) == CallKey(s, h, timed) && Stored(s.handlers[m].pc)
    case StopTimer(m) => m in s.handlers && TableKey(s, m) == CallKey(s, h, timed) && s.handlers[m].unlocked
    case _ => true
  }

  ghost predicate OwnerInv(s: State, key: string)
    requires key in s.owner
  {
    var h := s.owner[key];
    h in s.handlers && key == LockKey(s.handlers[h].path) && Unreleased(s.handlers[h])
  }

  /** Between Unlock and Delete. */
  predicate InWindow(step: Release) {
    step.StopTimer? || step.Delete?
  }

  /** Some call of ReleaseLock for the node and path has unlocked and not yet deleted. */
  ghost predicate WindowOpen(s: State, key: (NodeId, string)) {
    exists h, timed :: Calling(s, h, timed) && CallKey(s, h, timed) == key && InWindow(CallStep(s, h, timed))
  }

  ghost predicate MutexInv(s: State, key: (NodeId, string))
    requires key in s.mutexes
  {
    var h := s.mutexes[key];
    && h in s.handlers && key == TableKey(s, h) && Stored(s.handlers[h].pc)
    && key.0 !in s.crashed
    && (s.handlers[h].unlocked ==> WindowOpen(s, key))
  }

  ghost predicate HandlersInv(s: State) {
    forall h :: h in s.handlers ==> HandlerInv(s, h)
  }

  ghost predicate CallsInv(s: State) {
    forall h, timed :: Calling(s, h, timed) ==> CallInv(s, h, timed)
  }

  ghost predicate OwnersInv(s: State) {
    forall key :: key in s.owner ==> OwnerInv(s, key)
  }

  ghost predicate TableInv(s: State) {
    forall key :: key in s.mutexes ==> MutexInv(s, key)
  }

  ghost predicate Inv(s: State) {
    HandlersInv(s) && CallsInv(s) && OwnersInv(s) && TableInv(s)
  }

  /** No call moves, though new ones may begin, and no mutex is unlocked. */
  ghost predicate CallsRest(s: State, s': State) {
    && (forall h :: h in s.handlers ==>
          && h in s'.handlers && TableKey(s', h) == TableKey(s, h)
          && (Stored(s.handlers[h].pc) ==> Stored(s'.handlers[h].pc))
          && s'.handlers[h].unlocked == s.handlers[h].unlocked)
    && (forall h, timed :: Calling(s, h, timed) ==>
          Calling(s', h, timed) && CallStep(s', h, timed) == CallStep(s, h, timed))
    && (forall h, timed :: Calling(s', h, timed) && !Calling(s, h, timed) ==> CallStep(s', h, timed) == Load)
  }

  lemma RestKeepsCalls(s: State, s': State)
    requires CallsInv(s) && CallsRest(s, s')
    ensures CallsInv(s') && forall key :: WindowOpen(s, key) <==> WindowOpen(s', key)
  {
    forall h, timed | Calling(s', h, timed) ensures CallInv(s', h, timed) {
      if Calling(s, h, timed) {
        assert CallInv(s, h, timed);
        assert CallKey(s', h, timed) == CallKey(s, h, timed);
      }
    }
    forall key | WindowOpen(s, key) ensures WindowOpen(s', key) {
      var h, timed :| Calling(s, h, timed) && CallKey(s, h, timed) == key && InWindow(CallStep(s, h, timed));
      assert Calling(s', h, timed) && CallKey(s', h, timed) == key;
    }
    forall key | WindowOpen(s', key) ensures WindowOpen(s, key) {
      var h, timed :| Calling(s', h, timed) && CallKey(s', h, timed) == key && InWindow(CallStep(s', h, timed));
      assert Calling(s, h, timed) && CallKey(s, h, timed) == key;
    }
  }

  lemma RestKeepsTable(s: State, s': State)
    requires CallsInv(s) && TableInv(s) && CallsRest(s, s') && s'.mutexes == s.mutexes && s'.crashed == s.crashed
    ensures CallsInv(s') && TableInv(s')
  {
    RestKeepsCalls(s, s');
    forall key | key in s'.mutexes ensures MutexInv(s', key) { assert MutexInv(s, key); }
  }

  /** The state with one handler moved on. */
  function Moved(s: State, g: HandlerId, x: Handler): State {
    s.(handlers := s.handlers[g := x])
  }

  /** The handler moves on where it stood, and begins a call of ReleaseLock at most. */
  predicate Onward(x: Handler, x': Handler) {
    && x'.node == x.node && x'.path == x.path && x'.unlocked == x.unlocked
    && (Entered(x.pc) ==> Entered(x'.pc)) && (Stored(x.pc) ==> Stored(x'.pc))
    && (x'.pc.Releasing? ==> x'.pc == x.pc || (!x.pc.Releasing? && x'.pc.step == Load))
    && (x.pc.Releasing? ==> x'.pc == x.pc)
    && (x'.timer.Fired? ==> x'.timer == x.timer || (!x.timer.Fired? && x'.timer.step == Load))
    && (x.timer.Fired? ==> x'.timer == x.timer)
  }

  lemma MoveRests(s: State, g: HandlerId, x': Handler)
    requires g in s.handlers && Onward(s.handlers[g], x')
    ensures CallsRest(s, Moved(s, g, x'))
  {
  }

  lemma MoveKeepsInv(s: State, g: HandlerId, x': Handler)
    requires Inv(s) && g in s.handlers && Onward(s.handlers[g], x') && HandlerInv(Moved(s, g, x'), g)
    ensures Inv(Moved(s, g, x'))
  {
    var s' := Moved(s, g, x');
    MoveRests(s, g, x');
    RestKeepsTable(s, s');
    forall h | h in s'.handlers ensures HandlerInv(s', h) { assert h != g ==> HandlerInv(s, h); }
    forall key | key in s'.owner ensures OwnerInv(s', key) { assert OwnerInv(s, key); }
  }

  /** Events that move one handler on and touch neither table. */
  predicate MovesOne(s: State, e: Event) {
    || e.GiveUp? || e.ArmTimer? || e.Finish? || e.TimerFires?
    || (e.TryLock? && e.h in s.handlers && LockKey(s.handlers[e.h].path) in s.owner)
  }

  lemma MovesOneOnward(names: set<string>, s: State, e: Event)
    requires HandlersInv(s) && Enabled(names, s, e) && MovesOne(s, e)
    ensures var s' := Apply(names, s, e);
            && e.h in s.handlers && e.h in s'.handlers && s' == Moved(s, e.h, s'.handlers[e.h])
            && Onward(s.handlers[e.h], s'.handlers[e.h]) && HandlerInv(s', e.h)
  {
    assert HandlerInv(s, e.h);
  }

  lemma MovesOneRests(names: set<string>, s: State, e: Event)
    requires HandlersInv(s) && Enabled(names, s, e) && MovesOne(s, e)
    ensures CallsRest(s, Apply(names, s, e))
  {
    MovesOneOnward(names, s, e);
    MoveRests(s, e.h, Apply(names, s, e).handlers[e.h]);
  }

  lemma MovesOneKeepsInv(names: set<string>, s: State, e: Event)
    requires Inv(s) && Enabled(names, s, e) && MovesOne(s, e)
    ensures Inv(Apply(names, s, e))
  {
    var s' := Apply(names, s, e);
    MovesOneOnward(names, s, e);
    MoveKeepsInv(s, e.h, s'.handlers[e.h]);
  }

  lemma SpawnRests(names: set<string>, s: State, e: Event)
    requires Enabled(names, s, e) && e.Spawn?
    ensures CallsRest(s, Apply(names, s, e))
  {
  }

  lemma SpawnKeepsInv(names: set<string>, s: State, e: Event)
    requires Inv(s) && Enabled(names, s, e) && e.Spawn?
    ensures Inv(Apply(names, s, e))
  {
    var s' := Apply(names, s, e);
    SpawnRests(names, s, e);
    RestKeepsTable(s, s');
    forall h | h in s'.handlers ensures HandlerInv(s', h) { assert h in s.handlers ==> HandlerInv(s, h); }
    forall key | key in s'.owner ensures OwnerInv(s', key) { assert OwnerInv(s, key); }
  }

  lemma AcquireKeepsHandlers(names: set<string>, s: State, g: HandlerId)
    requires HandlersInv(s) && Enabled(names, s, TryLock(g)) && LockKey(s.handlers[g].path) !in s.owner
    ensures HandlersInv(Apply(names, s, TryLock(g)))
  {
    var s' := Apply(names, s, TryLock(g));
    forall h | h in s'.handlers ensures HandlerInv(s', h) { assert HandlerInv(s, h); }
  }

  lemma AcquireRests(names: set<string>, s: State, g: HandlerId)
    requires Enabled(names, s, TryLock(g)) && LockKey(s.handlers[g].path) !in s.owner
    ensures CallsRest(s, Apply(names, s, TryLock(g)))
  {
  }

  lemma AcquireKeepsInv(names: set<string>, s: State, g: HandlerId)
    requires Inv(s) && Enabled(names, s, TryLock(g)) && LockKey(s.handlers[g].path) !in s.owner
    ensures Inv(Apply(names, s, TryLock(g)))
  {
    var s' := Apply(names, s, TryLock(g));
    AcquireKeepsHandlers(names, s, g);
    assert HandlerInv(s, g);
    AcquireRests(names, s, g);
    RestKeepsTable(s, s');
    forall key | key in s'.owner ensures OwnerInv(s', key) { assert key in s.owner ==> OwnerInv(s, key); }
  }

  /** Whoever stores its mutex owns the lock, so that no other handler of its path still needs an entry. */
  lemma StoreKeepsHandlers(names: set<string>, s: State, g: HandlerId)
    requires HandlersInv(s) && Enabled(names, s, StoreMutex(g))
    ensures HandlersInv(Apply(names, s, StoreMutex(g)))
  {
    var s' := Apply(names, s, StoreMutex(g));
    assert HandlerInv(s, g);
    forall h | h in s'.handlers ensures HandlerInv(s', h) { assert HandlerInv(s, h); }
  }

  lemma StoreRests(names: set<string>, s: State, g: HandlerId)
    requires Enabled(names, s, StoreMutex(g))
    ensures CallsRest(s, Apply(names, s, StoreMutex(g)))
  {
  }

  lemma StoreKeepsInv(names: set<string>, s: State, g: HandlerId)
    requires Inv(s) && Enabled(names, s, StoreMutex(g))
    ensures Inv(Apply(names, s, StoreMutex(g)))
  {
    var s' := Apply(names, s, StoreMutex(g));
    StoreKeepsHandlers(names, s, g);
    assert HandlerInv(s, g);
    StoreRests(names, s, g);
    RestKeepsCalls(s, s');
    forall key | key in s'.mutexes ensures MutexInv(s', key) { assert key in s.mutexes ==> MutexInv(s, key); }
    forall key | key in s'.owner ensures OwnerInv(s', key) { assert OwnerInv(s, key); }
  }

  lemma CrashKeepsInv(names: set<string>, s: State, node: NodeId)
    requires Inv(s) && Enabled(names, s, Crash(node))
    ensures Inv(Apply(names, s, Crash(node)))
  {
    var s' := Apply(names, s, Crash(node));
    assert CallsRest(s, s');
    RestKeepsCalls(s, s');
    forall key | key in s'.mutexes ensures MutexInv(s', key) { assert MutexInv(s, key); }
    forall h | h in s'.handlers ensures HandlerInv(s', h) { assert HandlerInv(s, h); }
    forall key | key in s'.owner ensures OwnerInv(s', key) { assert OwnerInv(s, key); }
  }

  lemma ExpireKeepsInv(names: set<string>, s: State, g: HandlerId)
    requires Inv(s) && Enabled(names, s, Expire(g))
    ensures Inv(Apply(names, s, Expire(g)))
  {
    var s' := Apply(names, s, Expire(g));
    assert CallsRest(s, s');
    RestKeepsTable(s, s');
    forall h | h in s'.handlers ensures HandlerInv(s', h) { assert HandlerInv(s, h); }
    forall key | key in s'.owner ensures OwnerInv(s', key) { assert OwnerInv(s, key); }
  }

  /** All calls but one rest, and no mutex goes back from unlocked to locked. */
  ghost predicate OthersRest(s: State, s': State, h: HandlerId, timed: bool) {
    && s'.handlers.Keys == s.handlers.Keys
    && (forall g :: g in s.handlers ==>
          && TableKey(s', g) == TableKey(s, g)
          && (Stored(s.handlers[g].pc) ==> Stored(s'.handlers[g].pc))
          && (s.handlers[g].unlocked ==> s'.handlers[g].unlocked))
    && (forall g, t :: g != h || t != timed ==>
          && (Calling(s', g, t) <==> Calling(s, g, t))
          && (Calling(s, g, t) ==> CallStep(s', g, t) == CallStep(s, g, t)))
    && Calling(s, h, timed) && Calling(s', h, timed)
  }

  /** What ReleaseCall itself may change about a handler: an unlock, or a waiting timeout stopped. */
  predicate Touched(x: Handler, x': Handler) {
    && x'.node == x.node && x'.path == x.path && x'.pc == x.pc
    && (x.unlocked ==> x'.unlocked)
    && (x'.timer == x.timer || (x.timer == Pending && x'.timer == Stopped))
  }

  lemma ReleaseCallTouches(s: State, node: NodeId, path: string, step: Release)
    ensures var s' := ReleaseCall(s, node, path, step).0;
            && s'.handlers.Keys == s.handlers.Keys
            && forall g :: g in s.handlers ==> Touched(s.handlers[g], s'.handlers[g])
  {
  }

  lemma SetStepMovesOne(s: State, s1: State, h: HandlerId, timed: bool, step: Release)
    requires Calling(s, h, timed) && s1.handlers.Keys == s.handlers.Keys
    requires forall g :: g in s.handlers ==> Touched(s.handlers[g], s1.handlers[g])
    ensures OthersRest(s, SetStep(s1, h, timed, step), h, timed)
  {
  }

  lemma AdvanceMovesOne(s: State, h: HandlerId, timed: bool)
    requires Calling(s, h, timed)
    ensures OthersRest(s, Advance(s, h, timed), h, timed)
  {
    var (node, path) := CallKey(s, h, timed);
    var (s1, step) := ReleaseCall(s, node, path, CallStep(s, h, timed));
    ReleaseCallTouches(s, node, path, CallStep(s, h, timed));
    SetStepMovesOne(s, s1, h, timed, step);
  }

  lemma OthersKeepCalls(s: State, s': State, h: HandlerId, timed: bool)
    requires CallsInv(s) && OthersRest(s, s', h, timed) && CallInv(s', h, timed)
    ensures CallsInv(s')
  {
    forall g, t | Calling(s', g, t) ensures CallInv(s', g, t) {
      if g != h || t != timed {
        assert CallInv(s, g, t);
        assert CallKey(s', g, t) == CallKey(s, g, t);
      }
    }
  }

  lemma OthersKeepWindow(s: State, s': State, h: HandlerId, timed: bool, key: (NodeId, string))
    requires OthersRest(s, s', h, timed) && WindowOpen(s, key)
    requires CallKey(s, h, timed) == key && InWindow(CallStep(s, h, timed)) ==> InWindow(CallStep(s', h, timed))
    ensures WindowOpen(s', key)
  {
    var g, t :| Calling(s, g, t) && CallKey(s, g, t) == key && InWindow(CallStep(s, g, t));
    assert CallKey(s', g, t) == key && Calling(s', g, t) && InWindow(CallStep(s', g, t));
  }

  lemma LoadKeepsHandlers(s: State, h: HandlerId, timed: bool)
    requires HandlersInv(s) && TableInv(s) && Calling(s, h, timed) && CallStep(s, h, timed) == Load
    ensures HandlersInv(Advance(s, h, timed)) && CallInv(Advance(s, h, timed), h, timed)
  {
    var s', key := Advance(s, h, timed), CallKey(s, h, timed);
    assert key in s.mutexes ==> MutexInv(s, key);
    forall g | g in s'.handlers ensures HandlerInv(s', g) { assert HandlerInv(s, g); }
  }

  lemma LoadKeepsInv(s: State, h: HandlerId, timed: bool)
    requires Inv(s) && Calling(s, h, timed) && CallStep(s, h, timed) == Load
    ensures Inv(Advance(s, h, timed))
  {
    var s' := Advance(s, h, timed);
    LoadKeepsHandlers(s, h, timed);
    AdvanceMovesOne(s, h, timed);
    OthersKeepCalls(s, s', h, timed);
    RestOfTables(s, s', h, timed);
  }

  /** A step that leaves both tables alone and closes no window keeps what is known about them. */
  lemma RestOfTables(s: State, s': State, h: HandlerId, timed: bool)
    requires OwnersInv(s) && TableInv(s) && OthersRest(s, s', h, timed)
    requires s'.owner == s.owner && s'.mutexes == s.mutexes && s'.crashed == s.crashed
    requires InWindow(CallStep(s, h, timed)) ==> InWindow(CallStep(s', h, timed))
    requires forall g :: g in s.handlers ==> s'.handlers[g].unlocked == s.handlers[g].unlocked
    requires forall g :: g in s.handlers && Entered(s.handlers[g].pc) ==> Entered(s'.handlers[g].pc)
    ensures OwnersInv(s') && TableInv(s')
  {
    forall key | key in s'.owner ensures OwnerInv(s', key) { assert OwnerInv(s, key); }
    forall key | key in s'.mutexes ensures MutexInv(s', key) {
      assert MutexInv(s, key);
      if WindowOpen(s, key) {
        OthersKeepWindow(s, s', h, timed, key);
      }
    }
  }

  /** An Unlock of an unlocked mutex fails, and the call returns. */
  lemma FailedUnlockKeepsInv(s: State, h: HandlerId, timed: bool, m: HandlerId)
    requires Inv(s) && Calling(s, h, timed) && CallStep(s, h, timed) == Unlock(m)
    requires m in s.handlers && s.handlers[m].unlocked
    ensures Inv(Advance(s, h, timed))
  {
    var s' := Advance(s, h, timed);
    forall g | g in s'.handlers ensures HandlerInv(s', g) { assert HandlerInv(s, g); }
    AdvanceMovesOne(s, h, timed);
    OthersKeepCalls(s, s', h, timed);
    RestOfTables(s, s', h, timed);
  }

  lemma UnlockKeepsHandlers(s: State, h: HandlerId, timed: bool, m: HandlerId)
    requires HandlersInv(s) && Calling(s, h, timed) && CallStep(s, h, timed) == Unlock(m) && CallInv(s, h, timed)
    requires !s.handlers[m].unlocked
    ensures HandlersInv(Advance(s, h, timed)) && CallInv(Advance(s, h, timed), h, timed)
  {
    var s' := Advance(s, h, timed);
    forall g | g in s'.handlers ensures HandlerInv(s', g) { assert HandlerInv(s, g); }
  }

  /** The mutex is unlocked and the window opens. */
  lemma UnlockKeepsInv(s: State, h: HandlerId, timed: bool, m: HandlerId)
    requires Inv(s) && Calling(s, h, timed) && CallStep(s, h, timed) == Unlock(m) && CallInv(s, h, timed)
    requires !s.handlers[m].unlocked
    ensures Inv(Advance(s, h, timed))
  {
    var s' := Advance(s, h, timed);
    UnlockKeepsHandlers(s, h, timed, m);
    AdvanceMovesOne(s, h, timed);
    OthersKeepCalls(s, s', h, timed);
    UnlockKeepsTables(s, h, timed, m);
  }

  lemma UnlockKeepsTables(s: State, h: HandlerId, timed: bool, m: HandlerId)
    requires OwnersInv(s) && TableInv(s)
    requires Calling(s, h, timed) && CallStep(s, h, timed) == Unlock(m) && CallInv(s, h, timed)
    requires !s.handlers[m].unlocked
    ensures OwnersInv(Advance(s, h, timed)) && TableInv(Advance(s, h, timed))
  {
    UnlockChanges(s, h, timed, m);
    var s' := Advance(s, h, timed);
    AdvanceMovesOne(s, h, timed);
    forall key | key in s'.owner ensures OwnerInv(s', key) { assert OwnerInv(s, key); }
    forall key | key in s'.mutexes ensures MutexInv(s', key) {
      assert MutexInv(s, key);
      if WindowOpen(s, key) {
        OthersKeepWindow(s, s', h, timed, key);
      }
    }
  }

  /** What a successful Unlock changes: the mark of its mutex, the owner's entry, and the call's step. */
  lemma UnlockChanges(s: State, h: HandlerId, timed: bool, m: HandlerId)
    requires Calling(s, h, timed) && CallStep(s, h, timed) == Unlock(m) && CallInv(s, h, timed)
    requires !s.handlers[m].unlocked
    ensures var s' := Advance(s, h, timed);
            && s'.mutexes == s.mutexes && s'.crashed == s.crashed && s'.handlers.Keys == s.handlers.Keys
            && s'.owner == DropOwner(s, m).owner
            && (forall g :: g in s.handlers ==>
                  && s'.handlers[g].path == s.handlers[g].path && TableKey(s', g) == TableKey(s, g)
                  && s'.handlers[g].unlocked == (g == m || s.handlers[g].unlocked)
                  && (Entered(s.handlers[g].pc) ==> Entered(s'.handlers[g].pc)))
            && InWindow(CallStep(s', h, timed)) && WindowOpen(s', TableKey(s, m))
  {
    var s' := Advance(s, h, timed);
    assert CallStep(s', h, timed) == StopTimer(m);
    assert CallKey(s', h, timed) == CallKey(s, h, timed);
  }

  lemma StopTimerKeepsInv(s: State, h: HandlerId, timed: bool)
    requires Inv(s) && Calling(s, h, timed) && CallStep(s, h, timed).StopTimer?
    ensures Inv(Advance(s, h, timed))
  {
    var s' := Advance(s, h, timed);
    assert CallInv(s, h, timed);
    StopTimerKeepsHandlers(s, h, timed);
    AdvanceMovesOne(s, h, timed);
    OthersKeepCalls(s, s', h, timed);
    StopTimerChanges(s, h, timed);
    RestOfTables(s, s', h, timed);
  }

  lemma StopTimerChanges(s: State, h: HandlerId, timed: bool)
    requires Calling(s, h, timed) && CallStep(s, h, timed).StopTimer?
    ensures var s' := Advance(s, h, timed);
            && s'.owner == s.owner && s'.mutexes == s.mutexes && s'.crashed == s.crashed
            && s'.handlers.Keys == s.handlers.Keys && Calling(s', h, timed) && CallStep(s', h, timed) == Delete
            && forall g :: g in s.handlers ==>
                 && s'.handlers[g].unlocked == s.handlers[g].unlocked
                 && (Entered(s.handlers[g].pc) ==> Entered(s'.handlers[g].pc))
  {
  }

  lemma StopTimerKeepsHandlers(s: State, h: HandlerId, timed: bool)
    requires HandlersInv(s) && Calling(s, h, timed) && CallStep(s, h, timed).StopTimer? && CallInv(s, h, timed)
    ensures HandlersInv(Advance(s, h, timed))
  {
    var s' := Advance(s, h, timed);
    forall g | g in s'.handlers ensures HandlerInv(s', g) { assert HandlerInv(s, g); }
  }

  /** The entry of the call's key goes, whoever stored it, and the window closes. */
  lemma DeleteKeepsInv(s: State, h: HandlerId, timed: bool)
    requires Inv(s) && Calling(s, h, timed) && CallStep(s, h, timed) == Delete
    ensures Inv(Advance(s, h, timed))
  {
    var s' := Advance(s, h, timed);
    forall g | g in s'.handlers ensures HandlerInv(s', g) { assert HandlerInv(s, g); }
    AdvanceMovesOne(s, h, timed);
    OthersKeepCalls(s, s', h, timed);
    DeleteKeepsTables(s, h, timed);
  }

  lemma DeleteKeepsTables(s: State, h: HandlerId, timed: bool)
    requires OwnersInv(s) && TableInv(s) && Calling(s, h, timed) && CallStep(s, h, timed) == Delete
    ensures OwnersInv(Advance(s, h, timed)) && TableInv(Advance(s, h, timed))
  {
    var s' := Advance(s, h, timed);
    AdvanceMovesOne(s, h, timed);
    forall key | key in s'.owner ensures OwnerInv(s', key) { assert OwnerInv(s, key); }
    forall key | key in s'.mutexes ensures MutexInv(s', key) {
      assert MutexInv(s, key);
      if WindowOpen(s, key) {
        OthersKeepWindow(s, s', h, timed, key);
      }
    }
  }

  lemma AdvanceKeepsInv(s: State, h: HandlerId, timed: bool)
    requires Inv(s) && Calling(s, h, timed) && CallStep(s, h, timed) != Returned
    ensures Inv(Advance(s, h, timed))
  {
    assert CallInv(s, h, timed);
    match CallStep(s, h, timed)
    case Load => LoadKeepsInv(s, h, timed);
    case Unlock(m) =>
      if s.handlers[m].unlocked {
        FailedUnlockKeepsInv(s, h, timed, m);
      } else {
        UnlockKeepsInv(s, h, timed, m);
      }
    case StopTimer(_) => StopTimerKeepsInv(s, h, timed);
    case Delete => DeleteKeepsInv(s, h, timed);
  }

  /** Events other than steps of ReleaseLock move no call. */
  lemma OtherEventsRest(names: set<string>, s: State, e: Event)
    requires HandlersInv(s) && Enabled(names, s, e) && !e.ReleaseStep? && !e.TimerStep?
    ensures CallsRest(s, Apply(names, s, e))
  {
    if MovesOne(s, e) {
      MovesOneRests(names, s, e);
    } else if e.TryLock? {
      AcquireRests(names, s, e.h);
    } else if e.StoreMutex? {
      StoreRests(names, s, e.h);
    } else if e.Spawn? {
      SpawnRests(names, s, e);
    }
  }

  lemma StepKeepsInv(names: set<string>, s: State, e: Event)
    requires Inv(s) && Enabled(names, s, e)
    ensures Inv(Apply(names, s, e))
  {
    if MovesOne(s, e) {
      MovesOneKeepsInv(names, s, e);
    } else {
      match e
      case Spawn(_, _, _) => SpawnKeepsInv(names, s, e);
      case TryLock(g) => AcquireKeepsInv(names, s, g);
      case StoreMutex(g) => StoreKeepsInv(names, s, g);
      case ReleaseStep(g) => AdvanceKeepsInv(s, g, false);
      case TimerStep(g) => AdvanceKeepsInv(s, g, true);
      case Crash(node) => CrashKeepsInv(names, s, node);
      case Expire(g) => ExpireKeepsInv(names, s, g);
    }
  }

  /** Every schedule, with crashes, expiries and timeouts, keeps the invariant, for every set of paths. */
  lemma {:induction false} RunKeepsInv(names: set<string>, es: seq<Event>)
    requires Run(names, es).Some?
    ensures Inv(Run(names, es).value)
  {
    if es != [] {
      var before := es[..|es| - 1];
      RunKeepsInv(names, before);
      StepKeepsInv(names, Run(names, before).value, es[|es| - 1]);
    }
  }
}
