/** Mutual exclusion and ownership of the script lock, path by path, and the exact naming condition they need. */
module LockSafety {
  import opened Wrappers
  import opened LockProtocol
  import opened LockInvariant

  /** A release past StopTimer, and a return from it, leave no timeout waiting. */
  predicate Settled(x: Handler) {
    x.pc == Releasing(Delete) || (x.pc == Releasing(Returned) && x.unlocked) ==> x.timer != Pending
  }

  /** The handler's mutex is unlocked by its own release only. */
  predicate Private(h: HandlerId, x: Handler) {
    && (x.unlocked ==> x.pc.Releasing? && !Holding(x.pc))
    && (x.pc.Releasing? && x.pc.step.Unlock? ==> x.pc.step.mutex == h)
    && (x.pc.Releasing? && x.pc.step.StopTimer? ==> x.pc.step.mutex == h)
    && Settled(x)
  }

  /** The handler's timeout has found nothing, should it have looked. */
  predicate TimeoutIdle(x: Handler) {
    x.timer.Fired? ==> x.timer.step.Load? || x.timer.step.Returned?
  }

  /** Paths that no timeout asks for are private; timeouts that ask for no path in use find nothing. */
  ghost predicate PathInv(names: set<string>, h: HandlerId, x: Handler) {
    && x.path in names
    && (Apart(names, x.path) ==> Private(h, x))
    && (LockKey(x.path) !in names ==> TimeoutIdle(x))
  }

  ghost predicate PathsInv(names: set<string>, s: State) {
    forall h :: h in s.handlers ==> PathInv(names, h, s.handlers[h])
  }

  lemma LoadKeepsPaths(names: set<string>, s: State, h: HandlerId, timed: bool)
    requires Inv(s) && PathsInv(names, s) && Calling(s, h, timed) && CallStep(s, h, timed) == Load
    ensures PathsInv(names, Advance(s, h, timed))
  {
    var s', key := Advance(s, h, timed), CallKey(s, h, timed);
    assert HandlerInv(s, h) && PathInv(names, h, s.handlers[h]);
    if key in s.mutexes {
      assert MutexInv(s, key) && PathInv(names, s.mutexes[key], s.handlers[s.mutexes[key]]);
    }
    forall g | g in s'.handlers ensures PathInv(names, g, s'.handlers[g]) {
      assert PathInv(names, g, s.handlers[g]);
    }
  }

  /** A call at Unlock works on a mutex of the path it was called with. */
  lemma UnlockKeepsPaths(names: set<string>, s: State, h: HandlerId, timed: bool, m: HandlerId)
    requires m in s.handlers && Calling(s, h, timed) && HandlerInv(s, h) && CallInv(s, h, timed)
    requires PathsInv(names, s) && CallStep(s, h, timed) == Unlock(m)
    ensures PathsInv(names, Advance(s, h, timed))
  {
    var s' := Advance(s, h, timed);
    assert PathInv(names, h, s.handlers[h]) && PathInv(names, m, s.handlers[m]);
    forall g | g in s'.handlers ensures PathInv(names, g, s'.handlers[g]) {
      assert PathInv(names, g, s.handlers[g]);
    }
  }

  /** So does a call at StopTimer, which is past its Unlock. */
  lemma StopTimerKeepsPaths(names: set<string>, s: State, h: HandlerId, timed: bool, m: HandlerId)
    requires m in s.handlers && Calling(s, h, timed) && HandlerInv(s, h) && CallInv(s, h, timed)
    requires PathsInv(names, s) && CallStep(s, h, timed) == StopTimer(m)
    ensures PathsInv(names, Advance(s, h, timed))
  {
    var s' := Advance(s, h, timed);
    assert PathInv(names, h, s.handlers[h]) && PathInv(names, m, s.handlers[m]);
    forall g | g in s'.handlers ensures PathInv(names, g, s'.handlers[g]) {
      assert PathInv(names, g, s.handlers[g]);
    }
  }

  lemma DeleteKeepsPaths(names: set<string>, s: State, h: HandlerId, timed: bool)
    requires Inv(s) && PathsInv(names, s) && Calling(s, h, timed) && CallStep(s, h, timed) == Delete
    ensures PathsInv(names, Advance(s, h, timed))
  {
    var s' := Advance(s, h, timed);
    assert HandlerInv(s, h) && PathInv(names, h, s.handlers[h]);
    forall g | g in s'.handlers ensures PathInv(names, g, s'.handlers[g]) {
      assert PathInv(names, g, s.handlers[g]);
    }
  }

  lemma AdvanceKeepsPaths(names: set<string>, s: State, h: HandlerId, timed: bool)
    requires Inv(s) && PathsInv(names, s) && Calling(s, h, timed) && CallStep(s, h, timed) != Returned
    ensures PathsInv(names, Advance(s, h, timed))
  {
    assert HandlerInv(s, h) && CallInv(s, h, timed);
    match CallStep(s, h, timed)
    case Load => LoadKeepsPaths(names, s, h, timed);
    case Unlock(m) => UnlockKeepsPaths(names, s, h, timed, m);
    case StopTimer(m) => StopTimerKeepsPaths(names, s, h, timed, m);
    case Delete => DeleteKeepsPaths(names, s, h, timed);
  }

  lemma StepKeepsPaths(names: set<string>, s: State, e: Event)
    requires Inv(s) && PathsInv(names, s) && Enabled(names, s, e)
    ensures PathsInv(names, Apply(names, s, e))
  {
    if e.ReleaseStep? || e.TimerStep? {
      AdvanceKeepsPaths(names, s, e.h, e.TimerStep?);
    } else {
      var s' := Apply(names, s, e);
      forall g | g in s'.handlers ensures PathInv(names, g, s'.handlers[g]) {
        assert g in s.handlers ==> PathInv(names, g, s.handlers[g]) && HandlerInv(s, g);
      }
    }
  }

  lemma {:induction false} RunKeepsPaths(names: set<string>, es: seq<Event>)
    requires Run(names, es).Some?
    ensures Inv(Run(names, es).value) && PathsInv(names, Run(names, es).value)
  {
    RunKeepsInv(names, es);
    if es != [] {
      var before := es[..|es| - 1];
      RunKeepsPaths(names, before);
      StepKeepsPaths(names, Run(names, before).value, es[|es| - 1]);
    }
  }

  /** Two live holders of a private path would both be the owner of its lock key. */
  lemma PrivateExcludes(names: set<string>, s: State, path: string)
    requires Inv(s) && PathsInv(names, s) && Apart(names, path)
    ensures ExclusiveOn(s, path)
  {
    forall g, h | Live(s, g) && Live(s, h) && g != h && s.handlers[g].path == path && s.handlers[h].path == path
      ensures !(Holding(s.handlers[g].pc) && Holding(s.handlers[h].pc))
    {
      assert HandlerInv(s, g) && HandlerInv(s, h);
      assert PathInv(names, g, s.handlers[g]) && PathInv(names, h, s.handlers[h]);
    }
  }

  /**
   Mutual exclusion on one path. The path is exclusive in every schedule, of all paths in use, exactly when
   no path in use is this one without a final "_lock".
   */
  lemma PathExclusiveIff(names: set<string>, path: string)
    requires path in names
    ensures Apart(names, path)
            <==> forall es :: Run(names, es).Some? ==> ExclusiveOn(Run(names, es).value, path)
  {
    if Apart(names, path) {
      forall es | Run(names, es).Some? ensures ExclusiveOn(Run(names, es).value, path) {
        RunKeepsPaths(names, es);
        PrivateExcludes(names, Run(names, es).value, path);
      }
    } else {
      var p :| p in names && LockKey(p) == path;
      var es := TimerUnlocksAnother(names, p);
    }
  }

  lemma PathsInUse(names: set<string>, es: seq<Event>, path: string)
    requires Run(names, es).Some? && path !in names
    ensures ExclusiveOn(Run(names, es).value, path)
  {
    var s := Run(names, es).value;
    RunKeepsPaths(names, es);
    forall h | h in s.handlers ensures s.handlers[h].path != path {
      assert PathInv(names, h, s.handlers[h]);
    }
  }

  /**
   Mutual exclusion over every schedule holds for a set of script paths exactly when no path is
   another one followed by "_lock".
   */
  lemma MutualExclusionIff(names: set<string>)
    ensures SuffixFree(names)
            <==> forall es :: Run(names, es).Some? ==> MutuallyExclusive(Run(names, es).value)
  {
    if SuffixFree(names) {
      forall es, path | Run(names, es).Some? ensures ExclusiveOn(Run(names, es).value, path) {
        if path in names {
          PathExclusiveIff(names, path);
        } else {
          PathsInUse(names, es, path);
        }
      }
    } else {
      var path :| path in names && !Apart(names, path);
      PathExclusiveIff(names, path);
      var es :| Run(names, es).Some? && !ExclusiveOn(Run(names, es).value, path);
      assert !MutuallyExclusive(Run(names, es).value);
    }
  }

  /**
   Release ownership. The mutex that a handler's ReleaseLock is about to unlock has the handler's node and
   path, and is the handler's own if no path in use is this one without "_lock". The mutex that a timeout
   is about to unlock belongs to the path followed by "_lock".
   */
  lemma ReleaseOwnership(names: set<string>, es: seq<Event>, h: HandlerId, m: HandlerId)
    requires Run(names, es).Some? && h in Run(names, es).value.handlers
    ensures var s := Run(names, es).value;
            && (s.handlers[h].pc == Releasing(Unlock(m)) ==>
                  && m in s.handlers && TableKey(s, m) == TableKey(s, h)
                  && (Apart(names, s.handlers[h].path) ==> m == h))
            && (s.handlers[h].timer == Fired(Unlock(m)) ==>
                  && m in s.handlers && s.handlers[m].node == s.handlers[h].node
                  && s.handlers[m].path == LockKey(s.handlers[h].path) && s.handlers[m].path in names)
  {
    var s := Run(names, es).value;
    RunKeepsPaths(names, es);
    assert PathInv(names, h, s.handlers[h]);
    if s.handlers[h].pc == Releasing(Unlock(m)) {
      assert Calling(s, h, false) && CallInv(s, h, false);
    }
    if s.handlers[h].timer == Fired(Unlock(m)) {
      assert Calling(s, h, true) && CallInv(s, h, true);
      assert PathInv(names, m, s.handlers[m]);
    }
  }

  /** The timeout asks for path + "_lock"; if that is no path in use, it changes nothing but its own progress. */
  lemma TimerFindsNothing(names: set<string>, es: seq<Event>, g: HandlerId)
    requires Run(names, es).Some? && Enabled(names, Run(names, es).value, TimerStep(g))
    requires LockKey(Run(names, es).value.handlers[g].path) !in names
    ensures var s := Run(names, es).value; Apply(names, s, TimerStep(g)) == SetTimer(s, g, Fired(Returned))
  {
    var s := Run(names, es).value;
    RunKeepsPaths(names, es);
    assert PathInv(names, g, s.handlers[g]);
    forall key | key in s.mutexes ensures key.1 in names {
      assert MutexInv(s, key) && PathInv(names, s.mutexes[key], s.handlers[s.mutexes[key]]);
    }
  }

  /** A handler that has released the lock of a private path leaves no timeout waiting, in any schedule. */
  lemma TimeoutsStopped(names: set<string>, es: seq<Event>, h: HandlerId)
    requires Run(names, es).Some? && h in Run(names, es).value.handlers
    requires Apart(names, Run(names, es).value.handlers[h].path)
    ensures Settled(Run(names, es).value.handlers[h])
  {
    RunKeepsPaths(names, es);
    assert PathInv(names, h, Run(names, es).value.handlers[h]);
  }

  /** The lock of a handler whose node crashed can expire, and is free then. */
  lemma CrashedLockExpires(names: set<string>, es: seq<Event>, key: string)
    requires Run(names, es).Some? && key in Run(names, es).value.owner
    requires !Live(Run(names, es).value, Run(names, es).value.owner[key])
    ensures var s := Run(names, es).value;
            && Enabled(names, s, Expire(s.owner[key]))
            && Apply(names, s, Expire(s.owner[key])).owner == s.owner - {key}
  {
    RunKeepsInv(names, es);
    assert OwnerInv(Run(names, es).value, key);
  }

  /** The call that takes this event's step, if it takes one. */
  predicate StepsAt(s: State, e: Event, step: Release) {
    || (e.ReleaseStep? && Calling(s, e.h, false) && CallStep(s, e.h, false) == step)
    || (e.TimerStep? && Calling(s, e.h, true) && CallStep(s, e.h, true) == step)
  }

  /** A call takes the lock away from nobody but the handler whose mutex it unlocks. */
  lemma CallsDropOwn(s: State, h: HandlerId, timed: bool, g: HandlerId)
    requires Calling(s, h, timed) && g in s.handlers && Owns(s, g)
    ensures g in Advance(s, h, timed).handlers
    ensures !Owns(Advance(s, h, timed), g) ==> CallStep(s, h, timed) == Unlock(g)
  {
  }

  lemma OwnershipLost(names: set<string>, s: State, e: Event, h: HandlerId)
    requires Inv(s) && Enabled(names, s, e) && Live(s, h) && Owns(s, h) && !Owns(Apply(names, s, e), h)
    ensures StepsAt(s, e, Unlock(h))
  {
    if e.ReleaseStep? {
      CallsDropOwn(s, e.h, false, h);
    } else if e.TimerStep? {
      CallsDropOwn(s, e.h, true, h);
    }
  }

  /**
   The lock of a live handler goes away in one way only: by a call's Unlock of that handler's mutex. On a
   private path it is the handler's own call.
   */
  lemma OnlyAnUnlockReleases(names: set<string>, es: seq<Event>, e: Event, h: HandlerId)
    requires Run(names, es + [e]).Some?
    requires Run(names, es).Some? && Live(Run(names, es).value, h) && Owns(Run(names, es).value, h)
    requires h in Run(names, es + [e]).value.handlers && !Owns(Run(names, es + [e]).value, h)
    ensures StepsAt(Run(names, es).value, e, Unlock(h))
    ensures Apart(names, Run(names, es).value.handlers[h].path) ==> e == ReleaseStep(h)
  {
    var s := Run(names, es).value;
    RunKeepsPaths(names, es);
    LastEvent(names, es, e);
    OwnershipLost(names, s, e, h);
    ReleaseOwnership(names, es, e.h, h);
  }

  function TakeSteps(h: HandlerId, node: NodeId, path: string): seq<Event> {
    [Spawn(h, node, path), TryLock(h), ArmTimer(h), StoreMutex(h)]
  }

  lemma AcquireFree(names: set<string>, es: seq<Event>, s: State, h: HandlerId, node: NodeId, path: string)
    returns (es': seq<Event>, s': State)
    requires Run(names, es) == Some(s)
    requires h !in s.handlers && node !in s.crashed && path in names && LockKey(path) !in s.owner
    ensures Run(names, es') == Some(s') && es' == es + [Spawn(h, node, path), TryLock(h)]
    ensures CrashFree(es) ==> CrashFree(es')
    ensures s' == s.(handlers := s.handlers[h := Handler(node, path, Acquired, Unset, false)],
                     owner := s.owner[LockKey(path) := h])
  {
    es', s' := Extend(names, es, s, Spawn(h, node, path));
    es', s' := Extend(names, es', s', TryLock(h));
  }

  /** A new handler can take a free lock and get as far as running its script. */
  lemma TakeFreeLock(names: set<string>, es: seq<Event>, s: State, h: HandlerId, node: NodeId, path: string)
    returns (es': seq<Event>, s': State)
    requires Run(names, es) == Some(s)
    requires h !in s.handlers && node !in s.crashed && path in names && LockKey(path) !in s.owner
    ensures Run(names, es') == Some(s') && es' == es + TakeSteps(h, node, path)
    ensures CrashFree(es) ==> CrashFree(es')
    ensures s' == s.(handlers := s.handlers[h := Handler(node, path, Running, Pending, false)],
                     owner := s.owner[LockKey(path) := h],
                     mutexes := s.mutexes[(node, path) := h])
  {
    es', s' := AcquireFree(names, es, s, h, node, path);
    es', s' := Extend(names, es', s', ArmTimer(h));
    es', s' := Extend(names, es', s', StoreMutex(h));
  }

  /** Handler 0 runs path p and handler 1, on the same node, p + "_lock". */
  lemma TwoRunning(names: set<string>, p: string) returns (es: seq<Event>, s: State)
    requires p in names && LockKey(p) in names
    ensures Run(names, es) == Some(s) && CrashFree(es)
    ensures es == TakeSteps(0, 0, p) + TakeSteps(1, 0, LockKey(p))
    ensures s == State(
                   map[0 := Handler(0, p, Running, Pending, false), 1 := Handler(0, LockKey(p), Running, Pending, false)],
                   map[LockKey(p) := 0, LockKey(LockKey(p)) := 1],
                   map[(0, p) := 0, (0, LockKey(p)) := 1], {})
  {
    assert |LockKey(LockKey(p))| != |LockKey(p)|;
    es, s := TakeFreeLock(names, [], INIT, 0, 0, p);
    es, s := TakeFreeLock(names, es, s, 1, 0, LockKey(p));
  }

  function TimeoutSteps(h: HandlerId): seq<Event> {
    [TimerFires(h), TimerStep(h), TimerStep(h)]
  }

  lemma FireAndLoad(names: set<string>, es: seq<Event>, s: State, h: HandlerId, m: HandlerId)
    returns (es': seq<Event>, s': State)
    requires Run(names, es) == Some(s) && Live(s, h) && s.handlers[h].timer == Pending
    requires CallKey(s, h, true) in s.mutexes && s.mutexes[CallKey(s, h, true)] == m
    ensures Run(names, es') == Some(s') && es' == es + [TimerFires(h), TimerStep(h)]
    ensures CrashFree(es) ==> CrashFree(es')
    ensures s' == SetTimer(s, h, Fired(Unlock(m)))
  {
    es', s' := Extend(names, es, s, TimerFires(h));
    es', s' := Extend(names, es', s', TimerStep(h));
  }

  /** The timeout of handler 0 unlocks the mutex of handler 1. */
  lemma TimeoutUnlocks(names: set<string>, es: seq<Event>, s: State, q: string) returns (es': seq<Event>, s': State)
    requires Run(names, es) == Some(s) && Live(s, 0) && Live(s, 1)
    requires s.handlers[0].timer == Pending && CallKey(s, 0, true) == (0, q)
    requires s.handlers[1] == Handler(0, q, Running, Pending, false)
    requires Owns(s, 1) && (0, q) in s.mutexes && s.mutexes[(0, q)] == 1
    ensures Run(names, es') == Some(s') && es' == es + TimeoutSteps(0) && (CrashFree(es) ==> CrashFree(es'))
    ensures s' == s.(handlers := s.handlers[0 := s.handlers[0].(timer := Fired(StopTimer(1)))]
                                           [1 := s.handlers[1].(unlocked := true)],
                     owner := s.owner - {LockKey(q)})
  {
    es', s' := FireAndLoad(names, es, s, 0, 1);
    es', s' := Extend(names, es', s', TimerStep(0));
  }

  /**
   The failing schedule. Handler 0 runs path p, handlers 1 and 2 run p + "_lock"; 0 and 1 share a
   node. The timeout of 0 looks up p + "_lock", finds the mutex of 1 and unlocks it while 1 runs.
   */
  lemma TimerUnlocksAnother(names: set<string>, p: string) returns (es: seq<Event>)
    requires p in names && LockKey(p) in names
    ensures Run(names, es).Some? && !ExclusiveOn(Run(names, es).value, LockKey(p))
  {
    var q := LockKey(p);
    assert |LockKey(q)| != |LockKey(p)|;
    var s;
    es, s := TwoRunning(names, p);
    es, s := TimeoutUnlocks(names, es, s, q);
    es, s := TakeFreeLock(names, es, s, 2, 1, q);
    assert Live(s, 1) && Live(s, 2);
  }
}
