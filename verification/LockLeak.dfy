/**
 When the script lock leaks, for every set of script paths: exactly when some call of ReleaseLock, a
 handler's or a timeout's, deletes the table entry of a lock that nobody has unlocked or is about to.
 */
module LockLeak {
  import opened Wrappers
  import opened LockProtocol
  import opened LockInvariant
  import opened LockSafety

  /** Every handler has returned from HandleMessage, whichever way. */
  ghost predicate AtRest(s: State) {
    forall h :: h in s.handlers ==> s.handlers[h].pc == Left || s.handlers[h].pc == Releasing(Returned)
  }

  /** No timeout callback is at work on a mutex. */
  ghost predicate TimeoutsIdle(s: State) {
    forall h :: h in s.handlers ==> TimeoutIdle(s.handlers[h])
  }

  /** The node's table holds the handler's own mutex. */
  predicate HasEntry(s: State, h: HandlerId)
    requires h in s.handlers
  {
    TableKey(s, h) in s.mutexes && s.mutexes[TableKey(s, h)] == h
  }

  /** Some call has loaded the mutex and is about to unlock it. */
  ghost predicate UnlockPending(s: State, m: HandlerId) {
    exists h, timed :: Calling(s, h, timed) && CallStep(s, h, timed) == Unlock(m)
  }

  /** The lock is held, and no call, now or later, can find its mutex to unlock it. */
  ghost predicate Stranded(s: State, h: HandlerId) {
    && h in s.handlers && Stored(s.handlers[h].pc) && !s.handlers[h].unlocked
    && !HasEntry(s, h) && !UnlockPending(s, h)
  }

  ghost predicate NoneStranded(s: State) {
    forall h :: !Stranded(s, h)
  }

  /** A call deletes the entry of a mutex that is still locked and that no call is about to unlock. */
  ghost predicate Deletes(s: State, h: HandlerId, timed: bool) {
    && Calling(s, h, timed) && CallStep(s, h, timed) == Delete && CallKey(s, h, timed) in s.mutexes
    && var m := s.mutexes[CallKey(s, h, timed)];
       m in s.handlers && !s.handlers[m].unlocked && !UnlockPending(s, m)
  }

  ghost predicate Clobbers(s: State, e: Event) {
    (e.ReleaseStep? && Deletes(s, e.h, false)) || (e.TimerStep? && Deletes(s, e.h, true))
  }

  /** The event at position i of the schedule clobbers. */
  ghost predicate ClobbersAt(names: set<string>, es: seq<Event>, i: nat)
    requires i < |es|
  {
    Run(names, es[..i]).Some? && Clobbers(Run(names, es[..i]).value, es[i])
  }

  ghost predicate NeverClobbers(names: set<string>, es: seq<Event>) {
    forall i :: 0 <= i < |es| ==> !ClobbersAt(names, es, i)
  }

  lemma OnlyCrashesCrash(names: set<string>, s: State, e: Event)
    requires Enabled(names, s, e) && !e.Crash?
    ensures Apply(names, s, e).crashed == s.crashed
  {
  }

  /** Everything a crash-free schedule keeps. */
  lemma {:induction false} CrashFreeRun(names: set<string>, es: seq<Event>)
    requires Run(names, es).Some? && CrashFree(es)
    ensures Inv(Run(names, es).value) && Run(names, es).value.crashed == {}
  {
    RunKeepsInv(names, es);
    if es != [] {
      var before, e := es[..|es| - 1], es[|es| - 1];
      CrashFreeRun(names, before);
      OnlyCrashesCrash(names, Run(names, before).value, e);
    }
  }

  /** While a call is about to unlock a mutex, only that call's step can change it, by unlocking. */
  lemma PendingUntilUnlocked(s: State, s': State, h: HandlerId, timed: bool, m: HandlerId)
    requires OthersRest(s, s', h, timed) && UnlockPending(s, m)
    requires CallStep(s, h, timed) == Unlock(m) ==> m in s'.handlers && s'.handlers[m].unlocked
    ensures UnlockPending(s', m) || (m in s'.handlers && s'.handlers[m].unlocked)
  {
    var g, t :| Calling(s, g, t) && CallStep(s, g, t) == Unlock(m);
    assert g != h || t != timed ==> Calling(s', g, t) && CallStep(s', g, t) == Unlock(m);
  }

  /** What a call may take from a handler: its entry by Delete, and the mark by Unlock. */
  lemma AdvanceTakes(s: State, h: HandlerId, timed: bool, m: HandlerId)
    requires Calling(s, h, timed) && CallStep(s, h, timed) != Returned && m in s.handlers
    ensures var s' := Advance(s, h, timed);
            && m in s'.handlers && TableKey(s', m) == TableKey(s, m)
            && Stored(s'.handlers[m].pc) == Stored(s.handlers[m].pc)
            && (CallStep(s, h, timed) == Unlock(m) ==> s'.handlers[m].unlocked)
            && (CallStep(s, h, timed) != Unlock(m) ==> s'.handlers[m].unlocked == s.handlers[m].unlocked)
            && HasEntry(s', m) == (HasEntry(s, m) && !(CallStep(s, h, timed) == Delete && CallKey(s, h, timed) == TableKey(s, m)))
  {
  }

  /** A call strands nobody unless it clobbers. */
  lemma AdvanceStrands(s: State, h: HandlerId, timed: bool, m: HandlerId)
    requires Calling(s, h, timed) && CallStep(s, h, timed) != Returned
    requires !Stranded(s, m) && !Deletes(s, h, timed)
    ensures !Stranded(Advance(s, h, timed), m)
  {
    var s' := Advance(s, h, timed);
    AdvanceMovesOne(s, h, timed);
    if m in s.handlers {
      AdvanceTakes(s, h, timed, m);
      if UnlockPending(s, m) {
        PendingUntilUnlocked(s, s', h, timed, m);
      }
    }
  }

  /** A call is about to unlock a mutex because one was before, or because it has just loaded it. */
  lemma PendingOrigin(s: State, h: HandlerId, timed: bool, m: HandlerId)
    requires Inv(s) && Calling(s, h, timed) && CallStep(s, h, timed) != Returned
    ensures UnlockPending(Advance(s, h, timed), m) ==>
              UnlockPending(s, m) || (CallStep(s, h, timed) == Load && m in s.handlers && HasEntry(s, m))
  {
    var s' := Advance(s, h, timed);
    AdvanceMovesOne(s, h, timed);
    if UnlockPending(s', m) {
      var g, t :| Calling(s', g, t) && CallStep(s', g, t) == Unlock(m);
      if g == h && t == timed {
        LoadedEntry(s, h, timed, m);
      } else {
        assert Calling(s, g, t) && CallStep(s, g, t) == Unlock(m);
      }
    }
  }

  lemma LoadedEntry(s: State, h: HandlerId, timed: bool, m: HandlerId)
    requires Inv(s) && Calling(s, h, timed) && Calling(Advance(s, h, timed), h, timed)
    requires CallStep(Advance(s, h, timed), h, timed) == Unlock(m)
    ensures CallStep(s, h, timed) == Load && m in s.handlers && HasEntry(s, m)
  {
    assert MutexInv(s, CallKey(s, h, timed));
  }

  lemma StrandedThroughCall(s: State, h: HandlerId, timed: bool, m: HandlerId)
    requires Inv(s) && Calling(s, h, timed) && CallStep(s, h, timed) != Returned && Stranded(s, m)
    ensures Stranded(Advance(s, h, timed), m)
  {
    PendingOrigin(s, h, timed, m);
    AdvanceTakes(s, h, timed, m);
  }

  lemma DeleteStrands(s: State, h: HandlerId, timed: bool)
    requires Inv(s) && Deletes(s, h, timed)
    ensures Stranded(Advance(s, h, timed), s.mutexes[CallKey(s, h, timed)])
  {
    var m := s.mutexes[CallKey(s, h, timed)];
    assert MutexInv(s, CallKey(s, h, timed));
    PendingOrigin(s, h, timed, m);
    AdvanceTakes(s, h, timed, m);
  }

  lemma RestKeepsPending(s: State, s': State, m: HandlerId)
    requires CallsRest(s, s')
    ensures UnlockPending(s', m) <==> UnlockPending(s, m)
  {
    if UnlockPending(s, m) {
      var h, timed :| Calling(s, h, timed) && CallStep(s, h, timed) == Unlock(m);
      assert Calling(s', h, timed) && CallStep(s', h, timed) == Unlock(m);
    }
    if UnlockPending(s', m) {
      var h, timed :| Calling(s', h, timed) && CallStep(s', h, timed) == Unlock(m);
      assert Calling(s, h, timed);
    }
  }

  /** Other events keep the entry of a locked mutex, or its lack of one, and only storing makes a new one. */
  lemma EntryStays(names: set<string>, s: State, e: Event, m: HandlerId)
    requires Enabled(names, s, e) && !e.ReleaseStep? && !e.TimerStep? && !e.Crash?
    requires HandlersInv(s) && HandlersInv(Apply(names, s, e))
    requires m in Apply(names, s, e).handlers
    ensures var s' := Apply(names, s, e);
            Stored(s'.handlers[m].pc) && !s'.handlers[m].unlocked ==>
              HasEntry(s', m) == (if m in s.handlers && Stored(s.handlers[m].pc) then HasEntry(s, m) else true)
  {
    assert m in s.handlers ==> HandlerInv(s, m);
    assert HandlerInv(Apply(names, s, e), m);
  }

  /** No other event strands a handler or frees a stranded one. */
  lemma OtherEventsStrand(names: set<string>, s: State, e: Event, m: HandlerId)
    requires Inv(s) && Enabled(names, s, e) && !e.ReleaseStep? && !e.TimerStep? && !e.Crash?
    ensures Stranded(Apply(names, s, e), m) <==> Stranded(s, m)
  {
    var s' := Apply(names, s, e);
    OtherEventsRest(names, s, e);
    StepKeepsInv(names, s, e);
    RestKeepsPending(s, s', m);
    if m in s'.handlers {
      EntryStays(names, s, e, m);
      SameMark(names, s, e, m);
    }
  }

  lemma SameMark(names: set<string>, s: State, e: Event, m: HandlerId)
    requires Enabled(names, s, e) && !e.ReleaseStep? && !e.TimerStep? && m in Apply(names, s, e).handlers
    ensures var s' := Apply(names, s, e);
            if m in s.handlers
            then s'.handlers[m].unlocked == s.handlers[m].unlocked
                 && (Stored(s.handlers[m].pc) ==> Stored(s'.handlers[m].pc))
            else !Entered(s'.handlers[m].pc)
  {
  }

  lemma StrandedPersists(names: set<string>, s: State, e: Event, m: HandlerId)
    requires Inv(s) && Enabled(names, s, e) && !e.Crash? && Stranded(s, m)
    ensures Stranded(Apply(names, s, e), m)
  {
    if e.ReleaseStep? || e.TimerStep? {
      StrandedThroughCall(s, e.h, e.TimerStep?, m);
    } else {
      OtherEventsStrand(names, s, e, m);
    }
  }

  lemma StrandedStep(names: set<string>, s: State, e: Event)
    requires Inv(s) && Enabled(names, s, e) && !e.Crash?
    ensures NoneStranded(Apply(names, s, e)) <==> NoneStranded(s) && !Clobbers(s, e)
  {
    if !NoneStranded(s) {
      var m :| Stranded(s, m);
      StrandedPersists(names, s, e, m);
    } else if Clobbers(s, e) {
      DeleteStrands(s, e.h, e.TimerStep?);
    } else {
      forall m ensures !Stranded(Apply(names, s, e), m) {
        assert !Stranded(s, m);
        if e.ReleaseStep? || e.TimerStep? {
          AdvanceStrands(s, e.h, e.TimerStep?, m);
        } else {
          OtherEventsStrand(names, s, e, m);
        }
      }
    }
  }

  lemma ClobbersAtExtend(names: set<string>, es: seq<Event>, e: Event, i: nat)
    requires i <= |es|
    ensures ClobbersAt(names, es + [e], i)
            <==> if i < |es| then ClobbersAt(names, es, i)
                 else Run(names, es).Some? && Clobbers(Run(names, es).value, e)
  {
    assert (es + [e])[..i] == es[..i];
    assert es[..|es|] == es;
  }

  lemma NeverClobbersExtend(names: set<string>, es: seq<Event>, e: Event)
    requires Run(names, es).Some?
    ensures NeverClobbers(names, es + [e])
            <==> NeverClobbers(names, es) && !Clobbers(Run(names, es).value, e)
  {
    forall i: nat | i <= |es|
      ensures ClobbersAt(names, es + [e], i)
              <==> if i < |es| then ClobbersAt(names, es, i) else Clobbers(Run(names, es).value, e)
    {
      ClobbersAtExtend(names, es, e, i);
    }
    assert !ClobbersAt(names, es + [e], |es|) <==> !Clobbers(Run(names, es).value, e);
  }

  lemma OneMoreEvent(names: set<string>, es: seq<Event>, e: Event)
    requires Run(names, es + [e]).Some? && CrashFree(es + [e])
    ensures Run(names, es).Some? && CrashFree(es)
    ensures NoneStranded(Run(names, es + [e]).value)
            <==> NoneStranded(Run(names, es).value) && !Clobbers(Run(names, es).value, e)
  {
    assert (es + [e])[|es|] == e && forall i :: 0 <= i < |es| ==> (es + [e])[i] == es[i];
    LastEvent(names, es, e);
    CrashFreeRun(names, es);
    StrandedStep(names, Run(names, es).value, e);
  }

  /** A handler is stranded exactly when some earlier Delete, of a handler or of a timeout, took its entry away. */
  lemma {:induction false} StrandedIffClobbered(names: set<string>, es: seq<Event>)
    requires Run(names, es).Some? && CrashFree(es)
    ensures NoneStranded(Run(names, es).value) <==> NeverClobbers(names, es)
  {
    if es != [] {
      var before, e := es[..|es| - 1], es[|es| - 1];
      assert es == before + [e];
      OneMoreEvent(names, before, e);
      StrandedIffClobbered(names, before);
      NeverClobbersExtend(names, before, e);
    }
  }

  /** At rest, an entry is left only while some call is about to delete it. */
  lemma EntryMeansWindow(s: State)
    requires Inv(s) && AtRest(s)
    ensures forall key :: key in s.mutexes ==> WindowOpen(s, key)
  {
    forall key | key in s.mutexes ensures WindowOpen(s, key) {
      assert MutexInv(s, key) && HandlerInv(s, s.mutexes[key]);
    }
  }

  /** At rest, only timeouts can still be at work. */
  lemma WindowMeansBusy(s: State, key: (NodeId, string))
    requires AtRest(s)
    ensures WindowOpen(s, key) ==> !TimeoutsIdle(s)
  {
    if WindowOpen(s, key) {
      var h, timed :| Calling(s, h, timed) && CallKey(s, h, timed) == key && InWindow(CallStep(s, h, timed));
      assert h in s.handlers && !TimeoutIdle(s.handlers[h]);
    }
  }

  lemma PendingMeansBusy(s: State, m: HandlerId)
    requires AtRest(s)
    ensures UnlockPending(s, m) ==> !TimeoutsIdle(s)
  {
    if UnlockPending(s, m) {
      var h, timed :| Calling(s, h, timed) && CallStep(s, h, timed) == Unlock(m);
      assert h in s.handlers && !TimeoutIdle(s.handlers[h]);
    }
  }

  lemma LockMeansStranded(s: State, key: string)
    requires Inv(s) && AtRest(s) && key in s.owner && !UnlockPending(s, s.owner[key])
    ensures Stranded(s, s.owner[key])
  {
    assert OwnerInv(s, key) && HandlerInv(s, s.owner[key]);
  }

  lemma StrandedOwns(s: State, m: HandlerId)
    requires Inv(s) && s.crashed == {} && Stranded(s, m)
    ensures Owns(s, m)
  {
    assert HandlerInv(s, m);
  }

  /**
   No leak at rest. Once every handler and every timeout at work has returned, no local mutex is left on any
   node, and no etcd lock is left exactly when no call ever deleted an entry that was still needed.
   */
  lemma NoLeakAtRest(names: set<string>, es: seq<Event>)
    requires Run(names, es).Some? && CrashFree(es)
    requires AtRest(Run(names, es).value) && TimeoutsIdle(Run(names, es).value)
    ensures Run(names, es).value.mutexes == map[]
    ensures Run(names, es).value.owner == map[] <==> NeverClobbers(names, es)
  {
    var s := Run(names, es).value;
    CrashFreeRun(names, es);
    StrandedIffClobbered(names, es);
    EntryMeansWindow(s);
    forall key ensures !WindowOpen(s, key) {
      WindowMeansBusy(s, key);
    }
    if s.owner != map[] {
      var key :| key in s.owner;
      PendingMeansBusy(s, s.owner[key]);
      LockMeansStranded(s, key);
    }
    if !NoneStranded(s) {
      var m :| Stranded(s, m);
      StrandedOwns(s, m);
    }
  }

  /** With no path another one plus "_lock", timeouts are never at work on a mutex. */
  lemma SuffixFreeIdle(names: set<string>, es: seq<Event>)
    requires SuffixFree(names) && Run(names, es).Some?
    ensures TimeoutsIdle(Run(names, es).value)
  {
    var s := Run(names, es).value;
    RunKeepsPaths(names, es);
    forall h | h in s.handlers ensures TimeoutIdle(s.handlers[h]) {
      assert PathInv(names, h, s.handlers[h]);
      assert LockKey(s.handlers[h].path) in names ==> Apart(names, LockKey(s.handlers[h].path));
    }
  }

  /** In such deployments all handlers having returned is enough. */
  lemma NoLeakSuffixFree(names: set<string>, es: seq<Event>)
    requires SuffixFree(names) && Run(names, es).Some? && CrashFree(es) && AtRest(Run(names, es).value)
    ensures Run(names, es).value.mutexes == map[]
    ensures Run(names, es).value.owner == map[] <==> NeverClobbers(names, es)
  {
    SuffixFreeIdle(names, es);
    NoLeakAtRest(names, es);
  }

  /** A new holder takes the lock while some call for its node and path has unlocked but not yet deleted. */
  ghost predicate AcquiresInWindow(s: State, e: Event) {
    && e.TryLock? && e.h in s.handlers && LockKey(s.handlers[e.h].path) !in s.owner
    && WindowOpen(s, TableKey(s, e.h))
  }

  ghost predicate AcquiresAt(names: set<string>, es: seq<Event>, i: nat)
    requires i < |es|
  {
    Run(names, es[..i]).Some? && AcquiresInWindow(Run(names, es[..i]).value, es[i])
  }

  ghost predicate NeverAcquiresInWindow(names: set<string>, es: seq<Event>) {
    forall i :: 0 <= i < |es| ==> !AcquiresAt(names, es, i)
  }

  /** Nobody holds a lock whose node and path have a window open, and whoever stored a mutex still has it. */
  ghost predicate ClearOf(s: State, h: HandlerId)
    requires h in s.handlers
  {
    Unreleased(s.handlers[h]) ==>
      !WindowOpen(s, TableKey(s, h)) && (Stored(s.handlers[h].pc) ==> HasEntry(s, h))
  }

  ghost predicate WindowsClear(s: State) {
    forall h :: h in s.handlers ==> ClearOf(s, h)
  }

  lemma WindowOrigin(s: State, h: HandlerId, timed: bool, key: (NodeId, string))
    requires Calling(s, h, timed) && WindowOpen(Advance(s, h, timed), key)
    ensures || WindowOpen(s, key)
            || (CallKey(s, h, timed) == key && CallStep(s, h, timed).Unlock?
                && InWindow(CallStep(Advance(s, h, timed), h, timed)))
  {
    var s' := Advance(s, h, timed);
    AdvanceMovesOne(s, h, timed);
    var g, t :| Calling(s', g, t) && CallKey(s', g, t) == key && InWindow(CallStep(s', g, t));
    assert Calling(s, g, t) && CallKey(s, g, t) == key;
  }

  /** Whoever unlocks a mutex opens a window on a key that its handler alone held. */
  lemma UnlockClears(s: State, h: HandlerId, timed: bool, m: HandlerId, g: HandlerId)
    requires Inv(s) && s.crashed == {} && Calling(s, h, timed) && CallStep(s, h, timed) == Unlock(m)
    requires InWindow(CallStep(Advance(s, h, timed), h, timed))
    requires g in s.handlers && TableKey(s, g) == CallKey(s, h, timed) && Unreleased(s.handlers[g])
    ensures g == m
  {
    assert CallInv(s, h, timed) && HandlerInv(s, g) && HandlerInv(s, m);
  }

  lemma AdvanceKeepsClear(s: State, h: HandlerId, timed: bool, g: HandlerId)
    requires Inv(s) && s.crashed == {} && Calling(s, h, timed) && CallStep(s, h, timed) != Returned
    requires g in s.handlers && ClearOf(s, g)
    ensures g in Advance(s, h, timed).handlers && ClearOf(Advance(s, h, timed), g)
  {
    var s' := Advance(s, h, timed);
    AdvanceTakes(s, h, timed, g);
    AdvanceMovesOne(s, h, timed);
    if Unreleased(s'.handlers[g]) {
      if WindowOpen(s', TableKey(s, g)) {
        WindowOrigin(s, h, timed, TableKey(s, g));
        if CallStep(s, h, timed).Unlock? && CallKey(s, h, timed) == TableKey(s, g) {
          UnlockClears(s, h, timed, CallStep(s, h, timed).mutex, g);
        }
      }
    }
  }

  lemma OtherEventsKeepWindows(names: set<string>, s: State, e: Event)
    requires Inv(s) && Enabled(names, s, e) && !e.ReleaseStep? && !e.TimerStep?
    ensures Inv(Apply(names, s, e)) && forall key :: WindowOpen(s, key) <==> WindowOpen(Apply(names, s, e), key)
  {
    OtherEventsRest(names, s, e);
    StepKeepsInv(names, s, e);
    RestKeepsCalls(s, Apply(names, s, e));
  }

  /** Whoever holds a lock after another event held it before or has just taken it. */
  lemma HolderOrigin(names: set<string>, s: State, e: Event, g: HandlerId)
    requires Enabled(names, s, e) && !e.ReleaseStep? && !e.TimerStep? && g in Apply(names, s, e).handlers
    requires Unreleased(Apply(names, s, e).handlers[g])
    ensures g in s.handlers && TableKey(Apply(names, s, e), g) == TableKey(s, g)
    ensures || Unreleased(s.handlers[g])
            || (e == TryLock(g) && LockKey(s.handlers[g].path) !in s.owner && !Stored(Apply(names, s, e).handlers[g].pc))
  {
  }

  lemma OtherEventsKeepClear(names: set<string>, s: State, e: Event, g: HandlerId)
    requires Inv(s) && Enabled(names, s, e) && !e.ReleaseStep? && !e.TimerStep? && !e.Crash?
    requires WindowsClear(s) && !AcquiresInWindow(s, e) && g in Apply(names, s, e).handlers
    ensures ClearOf(Apply(names, s, e), g)
  {
    var s' := Apply(names, s, e);
    OtherEventsKeepWindows(names, s, e);
    if Unreleased(s'.handlers[g]) {
      HolderOrigin(names, s, e, g);
      EntryStays(names, s, e, g);
      assert ClearOf(s, g);
    }
  }

  lemma WindowsStayClear(names: set<string>, s: State, e: Event)
    requires Inv(s) && s.crashed == {} && Enabled(names, s, e) && !e.Crash?
    requires WindowsClear(s) && !AcquiresInWindow(s, e)
    ensures WindowsClear(Apply(names, s, e))
  {
    forall g | g in Apply(names, s, e).handlers ensures ClearOf(Apply(names, s, e), g) {
      if e.ReleaseStep? || e.TimerStep? {
        AdvanceMovesOne(s, e.h, e.TimerStep?);
        AdvanceKeepsClear(s, e.h, e.TimerStep?, g);
      } else {
        OtherEventsKeepClear(names, s, e, g);
      }
    }
  }

  lemma ClearMeansNoDelete(s: State, h: HandlerId, timed: bool)
    requires Inv(s) && WindowsClear(s)
    ensures !Deletes(s, h, timed)
  {
    if Calling(s, h, timed) && CallStep(s, h, timed) == Delete && CallKey(s, h, timed) in s.mutexes {
      var key := CallKey(s, h, timed);
      assert MutexInv(s, key) && ClearOf(s, s.mutexes[key]);
      assert WindowOpen(s, key);
    }
  }

  lemma AcquiresAtExtend(names: set<string>, es: seq<Event>, e: Event, i: nat)
    requires i <= |es|
    ensures AcquiresAt(names, es + [e], i)
            <==> if i < |es| then AcquiresAt(names, es, i)
                 else Run(names, es).Some? && AcquiresInWindow(Run(names, es).value, e)
  {
    assert (es + [e])[..i] == es[..i];
    assert es[..|es|] == es;
  }

  lemma NeverAcquiresExtend(names: set<string>, es: seq<Event>, e: Event)
    requires Run(names, es).Some? && NeverAcquiresInWindow(names, es + [e])
    ensures NeverAcquiresInWindow(names, es) && !AcquiresInWindow(Run(names, es).value, e)
  {
    AcquiresAtExtend(names, es, e, |es|);
    assert !AcquiresAt(names, es + [e], |es|);
    forall i: nat | i < |es| ensures !AcquiresAt(names, es, i) {
      AcquiresAtExtend(names, es, e, i);
      assert !AcquiresAt(names, es + [e], i);
    }
  }

  /** Acquiring only outside such windows is enough: then nothing is ever clobbered. */
  lemma {:induction false} ClearWindowsNeverClobber(names: set<string>, es: seq<Event>)
    requires Run(names, es).Some? && CrashFree(es) && NeverAcquiresInWindow(names, es)
    ensures WindowsClear(Run(names, es).value) && NeverClobbers(names, es)
  {
    if es != [] {
      var before, e := es[..|es| - 1], es[|es| - 1];
      assert es == before + [e];
      NeverAcquiresExtend(names, before, e);
      LastEvent(names, before, e);
      ClearWindowsNeverClobber(names, before);
      CrashFreeRun(names, before);
      var s := Run(names, before).value;
      WindowsStayClear(names, s, e);
      ClearMeansNoDelete(s, if e.ReleaseStep? || e.TimerStep? then e.h else 0, e.TimerStep?);
      NeverClobbersExtend(names, before, e);
    }
  }

  /** Where windows are clear, an owner still has its entry and so its release before it. */
  lemma ClearOwnersBusy(s: State)
    requires Inv(s) && WindowsClear(s)
    ensures s.owner != map[] ==> !AtRest(s)
  {
    if s.owner != map[] {
      var key :| key in s.owner;
      var m := s.owner[key];
      assert OwnerInv(s, key) && ClearOf(s, m) && HandlerInv(s, m);
      assert s.handlers[m].pc != Left && s.handlers[m].pc != Releasing(Returned);
    }
  }

  /**
   No leak outside windows. If nobody ever acquires a path on a node while a call of ReleaseLock for them,
   a handler's or a timeout's, is between Unlock and Delete, then no etcd lock is left once all handlers have
   returned, and a local mutex only where a timeout is still about to delete it.
   */
  lemma ClearWindowsNoLeak(names: set<string>, es: seq<Event>)
    requires Run(names, es).Some? && CrashFree(es) && NeverAcquiresInWindow(names, es)
    requires AtRest(Run(names, es).value)
    ensures Run(names, es).value.owner == map[]
    ensures forall key :: key in Run(names, es).value.mutexes ==> WindowOpen(Run(names, es).value, key)
    ensures TimeoutsIdle(Run(names, es).value) ==> Run(names, es).value.mutexes == map[]
  {
    var s := Run(names, es).value;
    CrashFreeRun(names, es);
    ClearWindowsNeverClobber(names, es);
    EntryMeansWindow(s);
    ClearOwnersBusy(s);
    if TimeoutsIdle(s) {
      NoLeakAtRest(names, es);
    }
  }

  ghost predicate StrandedOn(s: State, m: HandlerId, key: string) {
    Stranded(s, m) && LockKey(s.handlers[m].path) == key
  }

  lemma StrandedOneMore(names: set<string>, es: seq<Event>, e: Event, m: HandlerId, key: string)
    requires Run(names, es + [e]).Some? && CrashFree(es + [e])
    requires Run(names, es).Some? && StrandedOn(Run(names, es).value, m, key)
    ensures StrandedOn(Run(names, es + [e]).value, m, key)
  {
    assert (es + [e])[|es|] == e && forall i :: 0 <= i < |es| ==> (es + [e])[i] == es[i];
    LastEvent(names, es, e);
    CrashFreeRun(names, es);
    StrandedPersists(names, Run(names, es).value, e, m);
    PathStays(names, Run(names, es).value, e, m);
  }

  lemma PathStays(names: set<string>, s: State, e: Event, m: HandlerId)
    requires Enabled(names, s, e) && m in s.handlers
    ensures m in Apply(names, s, e).handlers && Apply(names, s, e).handlers[m].path == s.handlers[m].path
  {
    if e.ReleaseStep? || e.TimerStep? {
      AdvanceTakes(s, e.h, e.TimerStep?, m);
    }
  }

  /** A stranded lock keeps its owner through every crash-free continuation. */
  lemma {:induction false} StaysStranded(names: set<string>, es: seq<Event>, more: seq<Event>, m: HandlerId, key: string)
    requires Run(names, es).Some? && StrandedOn(Run(names, es).value, m, key)
    requires CrashFree(es + more) && Run(names, es + more).Some?
    ensures StrandedOn(Run(names, es + more).value, m, key)
    decreases |more|
  {
    if more == [] {
      assert es + more == es;
    } else {
      var fewer, e := more[..|more| - 1], more[|more| - 1];
      assert es + more == es + fewer + [e];
      LastEvent(names, es + fewer, e);
      assert forall i :: 0 <= i < |es + fewer| ==> (es + fewer)[i] == (es + more)[i];
      StaysStranded(names, es, fewer, m, key);
      StrandedOneMore(names, es + fewer, e, m, key);
    }
  }

  /** A lock left at rest that no timeout is about to unlock is lost for good: no crash-free continuation ever frees it. */
  lemma LeakIsPermanent(names: set<string>, es: seq<Event>, more: seq<Event>, key: string)
    requires Run(names, es).Some? && AtRest(Run(names, es).value) && key in Run(names, es).value.owner
    requires !UnlockPending(Run(names, es).value, Run(names, es).value.owner[key])
    requires CrashFree(es + more) && Run(names, es + more).Some?
    ensures key in Run(names, es + more).value.owner
    ensures Run(names, es + more).value.owner[key] == Run(names, es).value.owner[key]
  {
    var s := Run(names, es).value;
    RunKeepsInv(names, es);
    LockMeansStranded(s, key);
    assert OwnerInv(s, key);
    StaysStranded(names, es, more, s.owner[key], key);
    CrashFreeRun(names, es + more);
    StrandedOwns(Run(names, es + more).value, s.owner[key]);
  }

  /** No handler has begun its release when a lock is taken. */
  ghost predicate TakesFirst(es: seq<Event>) {
    forall i, j :: 0 <= i < j < |es| && es[j].TryLock? ==> !es[i].ReleaseStep?
  }

  /** One more event that takes no lock. */
  lemma GoOn(names: set<string>, es: seq<Event>, s: State, e: Event) returns (es': seq<Event>, s': State)
    requires Run(names, es) == Some(s) && Enabled(names, s, e) && !e.TryLock? && !e.Crash?
    requires CrashFree(es)
    ensures Run(names, es') == Some(s') && s' == Apply(names, s, e) && CrashFree(es')
    ensures TakesFirst(es) ==> TakesFirst(es')
  {
    es', s' := Extend(names, es, s, e);
  }

  /** A running handler whose entry is gone returns without unlocking anything. */
  lemma ReturnUnreleased(names: set<string>, es: seq<Event>, s: State, h: HandlerId)
    returns (es': seq<Event>, s': State)
    requires Run(names, es) == Some(s) && CrashFree(es)
    requires Live(s, h) && s.handlers[h].pc == Running && TableKey(s, h) !in s.mutexes
    ensures Run(names, es') == Some(s') && CrashFree(es') && (TakesFirst(es) ==> TakesFirst(es'))
    ensures s' == s.(handlers := s.handlers[h := s.handlers[h].(pc := Releasing(Returned))])
  {
    es', s' := GoOn(names, es, s, Finish(h));
    es', s' := GoOn(names, es', s', ReleaseStep(h));
  }

  /** A running handler can go on as far as having unlocked. */
  lemma RunToUnlock(names: set<string>, es: seq<Event>, s: State, h: HandlerId) returns (es': seq<Event>, s': State)
    requires Run(names, es) == Some(s) && CrashFree(es) && Live(s, h) && Owns(s, h) && HasEntry(s, h)
    requires s.handlers[h].pc == Running && !s.handlers[h].unlocked
    ensures Run(names, es') == Some(s') && CrashFree(es') && (TakesFirst(es) ==> TakesFirst(es'))
    ensures s' == s.(handlers := s.handlers[h := s.handlers[h].(pc := Releasing(StopTimer(h)), unlocked := true)],
                     owner := s.owner - {LockKey(s.handlers[h].path)})
  {
    es', s' := GoOn(names, es, s, Finish(h));
    es', s' := GoOn(names, es', s', ReleaseStep(h));
    assert s' == s.(handlers := s.handlers[h := s.handlers[h].(pc := Releasing(Unlock(h)))]);
    es', s' := GoOn(names, es', s', ReleaseStep(h));
  }

  /** Handler 0 has unlocked but not yet deleted its entry when handler 1, on its node, takes the lock. */
  lemma AcquireInWindow(names: set<string>, p: string) returns (es: seq<Event>, s: State)
    requires p in names
    ensures Run(names, es) == Some(s) && CrashFree(es)
    ensures s == State(
                   map[0 := Handler(0, p, Releasing(StopTimer(0)), Pending, true),
                       1 := Handler(0, p, Running, Pending, false)],
                   map[LockKey(p) := 1], map[(0, p) := 1], {})
  {
    es, s := TakeFreeLock(names, [], INIT, 0, 0, p);
    es, s := RunToUnlock(names, es, s, 0);
    assert s.owner == map[];
    es, s := TakeFreeLock(names, es, s, 1, 0, p);
  }

  /** After its Unlock, a release stops its timer, deletes the entry of its key, and returns. */
  lemma FinishRelease(names: set<string>, es: seq<Event>, s: State, h: HandlerId)
    returns (es': seq<Event>, s': State)
    requires Run(names, es) == Some(s) && CrashFree(es)
    requires Live(s, h) && s.handlers[h].pc == Releasing(StopTimer(h))
    ensures Run(names, es') == Some(s') && CrashFree(es') && (TakesFirst(es) ==> TakesFirst(es'))
    ensures var timer := if s.handlers[h].timer == Pending then Stopped else s.handlers[h].timer;
            s' == s.(handlers := s.handlers[h := s.handlers[h].(pc := Releasing(Returned), timer := timer)],
                     mutexes := s.mutexes - {TableKey(s, h)})
  {
    es', s' := GoOn(names, es, s, ReleaseStep(h));
    es', s' := GoOn(names, es', s', ReleaseStep(h));
  }

  /**
   The leak happens. Handler 1 takes and stores the lock after handler 0 unlocked and before handler 0
   deletes the table entry; handler 1 then finds no mutex to unlock and returns with the lock held.
   */
  lemma WindowAcquireLeaks(names: set<string>, p: string) returns (es: seq<Event>)
    requires p in names
    ensures Run(names, es).Some? && CrashFree(es)
    ensures AtRest(Run(names, es).value) && TimeoutsIdle(Run(names, es).value)
    ensures Run(names, es).value.owner == map[LockKey(p) := 1]
  {
    var s;
    es, s := AcquireInWindow(names, p);
    es, s := FinishRelease(names, es, s, 0);
    es, s := ReturnUnreleased(names, es, s, 1);
  }

  /**
   The timeout of handler 0, on path p, has unlocked handler 1 of p + "_lock" when handler 2, on the same
   node, takes and stores the lock of p + "_lock".
   */
  lemma AcquireInTimeoutWindow(names: set<string>, p: string) returns (es: seq<Event>, s: State)
    requires p in names && LockKey(p) in names
    ensures Run(names, es) == Some(s) && CrashFree(es) && TakesFirst(es)
    ensures var q := LockKey(p);
            s == State(
                   map[0 := Handler(0, p, Running, Fired(StopTimer(1)), false),
                       1 := Handler(0, q, Running, Pending, true),
                       2 := Handler(0, q, Running, Pending, false)],
                   map[q := 0, LockKey(q) := 2], map[(0, p) := 0, (0, q) := 2], {})
  {
    var q := LockKey(p);
    DifferentPaths(p);
    es, s := TwoRunning(names, p);
    es, s := TimeoutUnlocks(names, es, s, q);
    assert s == State(
                  map[0 := Handler(0, p, Running, Fired(StopTimer(1)), false), 1 := Handler(0, q, Running, Pending, true)],
                  map[q := 0], map[(0, p) := 0, (0, q) := 1], {});
    es, s := TakeFreeLock(names, es, s, 2, 0, q);
    NoReleases(p);
  }

  /** The timeout of a handler stops the timer of the mutex it unlocked, and deletes the entry of its key. */
  lemma FinishTimeout(names: set<string>, es: seq<Event>, s: State, h: HandlerId, m: HandlerId)
    returns (es': seq<Event>, s': State)
    requires Run(names, es) == Some(s) && CrashFree(es)
    requires Live(s, h) && s.handlers[h].timer == Fired(StopTimer(m)) && m != h
    requires m in s.handlers && s.handlers[m].timer == Pending
    ensures Run(names, es') == Some(s') && CrashFree(es') && (TakesFirst(es) ==> TakesFirst(es'))
    ensures s' == s.(handlers := s.handlers[m := s.handlers[m].(timer := Stopped)]
                                           [h := s.handlers[h].(timer := Fired(Returned))],
                     mutexes := s.mutexes - {CallKey(s, h, true)})
  {
    es', s' := GoOn(names, es, s, TimerStep(h));
    es', s' := GoOn(names, es', s', TimerStep(h));
  }

  lemma DifferentPaths(p: string)
    ensures p != LockKey(p) && p != LockKey(LockKey(p)) && LockKey(p) != LockKey(LockKey(p))
  {
    assert |LockKey(p)| == |p| + 5 && |LockKey(LockKey(p))| == |p| + 10;
  }

  lemma NoReleases(p: string)
    ensures TakesFirst(TakeSteps(0, 0, p) + TakeSteps(1, 0, LockKey(p)) + TimeoutSteps(0) + TakeSteps(2, 0, LockKey(p)))
  {
  }

  lemma TwoChanged(a: Handler, b: Handler, c: Handler, a': Handler, b': Handler)
    ensures map[0 as HandlerId := a, 1 := b, 2 := c][1 := b'][0 := a'] == map[0 as HandlerId := a', 1 := b', 2 := c]
  {
  }

  /** Then the timeout deletes the entry of handler 2. */
  lemma TimeoutTakesEntry(names: set<string>, p: string) returns (es: seq<Event>, s: State)
    requires p in names && LockKey(p) in names
    ensures Run(names, es) == Some(s) && CrashFree(es) && TakesFirst(es)
    ensures var q := LockKey(p);
            s == State(
                   map[0 := Handler(0, p, Running, Fired(Returned), false),
                       1 := Handler(0, q, Running, Stopped, true),
                       2 := Handler(0, q, Running, Pending, false)],
                   map[q := 0, LockKey(q) := 2], map[(0, p) := 0], {})
  {
    DifferentPaths(p);
    es, s := AcquireInTimeoutWindow(names, p);
    var x := s.handlers;
    es, s := FinishTimeout(names, es, s, 0, 1);
    TwoChanged(x[0], x[1], x[2], x[0].(timer := Fired(Returned)), x[1].(timer := Stopped));
    assert s.mutexes == map[(0, p) := 0];
  }

  /** Handlers 1 and 2 return, neither having unlocked anything. */
  lemma LeftHolding(names: set<string>, p: string) returns (es: seq<Event>, s: State)
    requires p in names && LockKey(p) in names
    ensures Run(names, es) == Some(s) && CrashFree(es) && TakesFirst(es)
    ensures s.handlers.Keys == {0, 1, 2} && s.handlers[0] == Handler(0, p, Running, Fired(Returned), false)
    ensures s.handlers[1].pc == Releasing(Returned) && s.handlers[1].timer == Stopped
    ensures s.handlers[2].pc == Releasing(Returned) && s.handlers[2].timer == Pending
    ensures s.owner == map[LockKey(p) := 0, LockKey(LockKey(p)) := 2] && s.mutexes == map[(0, p) := 0]
    ensures s.crashed == {}
  {
    DifferentPaths(p);
    es, s := TimeoutTakesEntry(names, p);
    es, s := ReturnUnreleased(names, es, s, 1);
    es, s := ReturnUnreleased(names, es, s, 2);
  }

  /**
   Timeouts have windows too: with p and p + "_lock" in use a lock leaks although no handler had begun its
   release when a lock was taken.
   */
  lemma TimeoutWindowLeaks(names: set<string>, p: string) returns (es: seq<Event>)
    requires p in names && LockKey(p) in names
    ensures Run(names, es).Some? && CrashFree(es) && TakesFirst(es)
    ensures AtRest(Run(names, es).value) && TimeoutsIdle(Run(names, es).value)
    ensures Run(names, es).value.owner == map[LockKey(LockKey(p)) := 2]
  {
    var s;
    DifferentPaths(p);
    es, s := LeftHolding(names, p);
    es, s := RunToUnlock(names, es, s, 0);
    assert s.owner == map[LockKey(LockKey(p)) := 2];
    es, s := FinishRelease(names, es, s, 0);
  }
}
