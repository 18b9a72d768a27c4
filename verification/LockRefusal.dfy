/** What TakeLock answers, what a refused handler can still do, and what a crash leaves of a lock. */
module LockRefusal {
  import opened Wrappers
  import opened LockProtocol
  import opened LockInvariant
  import opened LockSafety

  /**
   TryLock decides at once. On a free lock the handler becomes its owner; on a held one it leaves, and both tables
   are as before. Nothing else changes.
   */
  lemma TryLockDecides(names: set<string>, es: seq<Event>, h: HandlerId)
    requires Run(names, es).Some? && Run(names, es + [TryLock(h)]).Some?
    ensures h in Run(names, es).value.handlers
    ensures var s, s' := Run(names, es).value, Run(names, es + [TryLock(h)]).value;
            var key := s.handlers[h].path + "_lock";
            && s'.handlers.Keys == s.handlers.Keys && s'.mutexes == s.mutexes && s'.crashed == s.crashed
            && (forall g :: g in s.handlers && g != h ==> s'.handlers[g] == s.handlers[g])
            && s'.handlers[h].pc == (if key in s.owner then Left else Acquired)
            && s'.owner == if key in s.owner then s.owner else s.owner[key := h]
  {
    LastEvent(names, es, TryLock(h));
  }

  /**
   Nobody waits for anybody. Whatever the others do, a live handler can take its next step, an armed timeout can fire
   and a fired one go on, and any node can crash: every interleaving is a schedule.
   */
  lemma NobodyWaits(names: set<string>, es: seq<Event>, h: HandlerId)
    requires Run(names, es).Some? && Live(Run(names, es).value, h)
    ensures var s, x := Run(names, es).value, Run(names, es).value.handlers[h];
            && (x.pc == Ready ==> Enabled(names, s, TryLock(h)))
            && (x.pc == Acquired ==> Enabled(names, s, ArmTimer(h)))
            && (x.pc == Armed ==> Enabled(names, s, StoreMutex(h)) && x.timer != Unset)
            && (x.pc == Running ==> Enabled(names, s, Finish(h)))
            && (x.pc.Releasing? && x.pc.step != Returned ==> Enabled(names, s, ReleaseStep(h)))
            && (x.timer == Pending ==> Enabled(names, s, TimerFires(h)))
            && (x.timer.Fired? && x.timer.step != Returned ==> Enabled(names, s, TimerStep(h)))
            && Enabled(names, s, Crash(x.node))
  {
    ArmedHasTimer(names, es, h);
  }

  lemma {:induction false} ArmedHasTimer(names: set<string>, es: seq<Event>, h: HandlerId)
    requires Run(names, es).Some? && h in Run(names, es).value.handlers
    ensures Run(names, es).value.handlers[h].pc == Armed ==> Run(names, es).value.handlers[h].timer != Unset
  {
    if es != [] {
      var before, e := es[..|es| - 1], es[|es| - 1];
      var s := Run(names, before).value;
      if h in s.handlers {
        ArmedHasTimer(names, before, h);
        if e.ReleaseStep? || e.TimerStep? {
          CallsKeepTimers(s, e.h, e.TimerStep?, h);
        }
      } else {
        RunKeepsInv(names, es);
        NewIsReady(names, s, e, h);
      }
    }
  }

  lemma CallsKeepTimers(s: State, g: HandlerId, timed: bool, h: HandlerId)
    requires Calling(s, g, timed) && h in s.handlers
    ensures h in Advance(s, g, timed).handlers
    ensures s.handlers[h].timer != Unset ==> Advance(s, g, timed).handlers[h].timer != Unset
    ensures Advance(s, g, timed).handlers[h].pc == Armed ==> s.handlers[h].pc == Armed
  {
  }

  lemma NewIsReady(names: set<string>, s: State, e: Event, h: HandlerId)
    requires Enabled(names, s, e) && h !in s.handlers && h in Apply(names, s, e).handlers
    ensures Apply(names, s, e).handlers[h].pc == Ready
  {
    if e.ReleaseStep? || e.TimerStep? {
      AdvanceMovesOne(s, e.h, e.TimerStep?);
      assert false;
    }
  }

  /** Until then a handler can also fail before it asks for the lock, and leaves with both tables as before. */
  lemma MayGiveUp(names: set<string>, es: seq<Event>, h: HandlerId)
    requires Run(names, es).Some? && Live(Run(names, es).value, h) && Run(names, es).value.handlers[h].pc == Ready
    ensures Run(names, es + [TryLock(h)]).Some? && Run(names, es + [GiveUp(h)]).Some?
    ensures var s, s' := Run(names, es).value, Run(names, es + [GiveUp(h)]).value;
            s' == s.(handlers := s.handlers[h := s.handlers[h].(pc := Left)])
  {
    assert (es + [TryLock(h)])[..|es|] == es && (es + [GiveUp(h)])[..|es|] == es;
  }

  /** A handler that left holds nothing, in either table, and is part of no call. */
  ghost predicate OutOfIt(s: State, h: HandlerId) {
    && h in s.handlers && s.handlers[h].pc == Left && s.handlers[h].timer == Unset && !s.handlers[h].unlocked
    && (forall key :: key in s.owner ==> s.owner[key] != h)
    && (forall key :: key in s.mutexes ==> s.mutexes[key] != h)
  }

  lemma LeftIsOut(s: State, h: HandlerId)
    requires Inv(s) && h in s.handlers && s.handlers[h].pc == Left
    ensures OutOfIt(s, h)
  {
    assert HandlerInv(s, h);
    forall key | key in s.owner ensures s.owner[key] != h {
      assert OwnerInv(s, key);
    }
    forall key | key in s.mutexes ensures s.mutexes[key] != h {
      assert MutexInv(s, key);
    }
  }

  /** No event of such a handler is possible: no second TryLock, no Finish, no release, no timeout. */
  lemma NothingPossible(names: set<string>, s: State, h: HandlerId, e: Event)
    requires OutOfIt(s, h) && Enabled(names, s, e)
    ensures e.Crash? || e.h != h
  {
  }

  lemma LeftStays(names: set<string>, s: State, e: Event, h: HandlerId)
    requires Inv(s) && Enabled(names, s, e) && h in s.handlers && s.handlers[h].pc == Left
    ensures h in Apply(names, s, e).handlers && Apply(names, s, e).handlers[h].pc == Left
  {
    LeftIsOut(s, h);
    NothingPossible(names, s, h, e);
    if e.ReleaseStep? || e.TimerStep? {
      AdvanceMovesOne(s, e.h, e.TimerStep?);
      OthersKeepPc(s, e.h, e.TimerStep?, h);
    }
  }

  lemma OthersKeepPc(s: State, g: HandlerId, timed: bool, h: HandlerId)
    requires Calling(s, g, timed) && h in s.handlers && h != g
    ensures h in Advance(s, g, timed).handlers && Advance(s, g, timed).handlers[h].pc == s.handlers[h].pc
  {
  }

  /**
   A refusal is final. Through every continuation, with crashes and timeouts, a handler that left stays so, owns no
   lock and has no mutex in any table, and none of its events is ever possible again.
   */
  lemma {:induction false} RefusalIsFinal(names: set<string>, es: seq<Event>, more: seq<Event>, h: HandlerId)
    requires Run(names, es).Some? && h in Run(names, es).value.handlers
    requires Run(names, es).value.handlers[h].pc == Left
    requires Run(names, es + more).Some?
    ensures OutOfIt(Run(names, es + more).value, h)
    ensures forall e :: Enabled(names, Run(names, es + more).value, e) ==> e.Crash? || e.h != h
    decreases |more|
  {
    RunKeepsInv(names, es + more);
    if more == [] {
      assert es + more == es;
    } else {
      var fewer, e := more[..|more| - 1], more[|more| - 1];
      assert es + more == es + fewer + [e];
      LastEvent(names, es + fewer, e);
      RefusalIsFinal(names, es, fewer, h);
      RunKeepsInv(names, es + fewer);
      LeftStays(names, Run(names, es + fewer).value, e, h);
    }
    var s := Run(names, es + more).value;
    LeftIsOut(s, h);
    forall e | Enabled(names, s, e) ensures e.Crash? || e.h != h {
      NothingPossible(names, s, h, e);
    }
  }

  /** Only a handler that took the lock in its one TryLock ever gets to arm, run or release. */
  lemma {:induction false} RunningTookLock(names: set<string>, es: seq<Event>, h: HandlerId)
    requires Run(names, es).Some? && h in Run(names, es).value.handlers
    requires Entered(Run(names, es).value.handlers[h].pc)
    ensures exists i: nat :: i < |es| && Takes(names, es, i, h)
  {
    var before, e := es[..|es| - 1], es[|es| - 1];
    var s, s' := Run(names, before).value, Run(names, es).value;
    assert es == before + [e];
    if h in s.handlers && Entered(s.handlers[h].pc) {
      RunningTookLock(names, before, h);
      var i: nat :| i < |before| && Takes(names, before, i, h);
      assert before[..i] == es[..i];
      assert Takes(names, es, i, h);
    } else {
      FirstEntry(names, s, e, h);
      assert es[..|es| - 1] == before;
      assert Takes(names, es, |es| - 1, h);
    }
  }

  /** The event at a position is the handler's TryLock, made on a free lock. */
  ghost predicate Takes(names: set<string>, es: seq<Event>, i: nat, h: HandlerId)
    requires i < |es|
  {
    && es[i] == TryLock(h) && Run(names, es[..i]).Some? && h in Run(names, es[..i]).value.handlers
    && Run(names, es[..i]).value.handlers[h].path + "_lock" !in Run(names, es[..i]).value.owner
  }

  lemma FirstEntry(names: set<string>, s: State, e: Event, h: HandlerId)
    requires Enabled(names, s, e) && h in Apply(names, s, e).handlers
    requires Entered(Apply(names, s, e).handlers[h].pc) && !(h in s.handlers && Entered(s.handlers[h].pc))
    ensures e == TryLock(h) && h in s.handlers && s.handlers[h].path + "_lock" !in s.owner
  {
    if e.ReleaseStep? || e.TimerStep? {
      CallsEnterNobody(s, e.h, e.TimerStep?, h);
    }
  }

  lemma CallsEnterNobody(s: State, g: HandlerId, timed: bool, h: HandlerId)
    requires Calling(s, g, timed) && h in Advance(s, g, timed).handlers
    ensures h in s.handlers && (Entered(Advance(s, g, timed).handlers[h].pc) ==> Entered(s.handlers[h].pc))
  {
    if h != g {
      AdvanceMovesOne(s, g, timed);
      OthersKeepPc(s, g, timed, h);
    }
  }

  /**
   On a private path a live handler owns its etcd key exactly while it is between TryLock and Unlock, or has
   returned with its mutex never unlocked.
   */
  lemma HoldingIffOwns(names: set<string>, es: seq<Event>, h: HandlerId)
    requires Run(names, es).Some? && Live(Run(names, es).value, h)
    requires Apart(names, Run(names, es).value.handlers[h].path)
    ensures var s := Run(names, es).value;
            Owns(s, h) <==> Holding(s.handlers[h].pc)
                            || (s.handlers[h].pc == Releasing(Returned) && !s.handlers[h].unlocked)
  {
    var s := Run(names, es).value;
    RunKeepsPaths(names, es);
    assert PathInv(names, h, s.handlers[h]);
    OwnsIfUnreleased(s, h);
    UnreleasedIfHolding(s, h);
  }

  lemma OwnsIfUnreleased(s: State, h: HandlerId)
    requires Inv(s) && Live(s, h)
    ensures Owns(s, h) <==> Unreleased(s.handlers[h])
  {
    assert HandlerInv(s, h);
    if Owns(s, h) {
      assert OwnerInv(s, LockKey(s.handlers[h].path));
    }
  }

  lemma UnreleasedIfHolding(s: State, h: HandlerId)
    requires Inv(s) && h in s.handlers && Private(h, s.handlers[h])
    ensures Unreleased(s.handlers[h])
            <==> Holding(s.handlers[h].pc) || (s.handlers[h].pc == Releasing(Returned) && !s.handlers[h].unlocked)
  {
    assert HandlerInv(s, h);
  }

  /** A crash empties the node's own table and no other; locks, handlers and the other tables stay. */
  lemma CrashIsLocal(names: set<string>, es: seq<Event>, node: NodeId)
    requires Run(names, es).Some? && Run(names, es + [Crash(node)]).Some?
    ensures var s, s' := Run(names, es).value, Run(names, es + [Crash(node)]).value;
            && s'.handlers == s.handlers && s'.owner == s.owner && s'.crashed == s.crashed + {node}
            && (forall key :: key in s'.mutexes <==> key in s.mutexes && key.0 != node)
            && (forall key :: key in s'.mutexes ==> s'.mutexes[key] == s.mutexes[key])
            && (forall h :: Live(s', h) <==> Live(s, h) && s.handlers[h].node != node)
  {
    LastEvent(names, es, Crash(node));
  }

  /** A lock outlives the crash of its holder's node: refused before it expires, taken by another node after. */
  lemma CrashTakeover(names: set<string>, p: string) returns (es: seq<Event>, s: State)
    requires p in names
    ensures Run(names, es) == Some(s) && s.crashed == {0}
    ensures s.handlers.Keys == {0, 1, 2} && s.handlers[0] == Handler(0, p, Running, Pending, false)
    ensures s.handlers[1] == Handler(1, p, Left, Unset, false)
    ensures s.handlers[2] == Handler(1, p, Running, Pending, false)
    ensures s.owner == map[LockKey(p) := 2] && s.mutexes == map[(1, p) := 2]
  {
    es, s := TakeFreeLock(names, [], INIT, 0, 0, p);
    es, s := Extend(names, es, s, Crash(0));
    assert s.mutexes == map[];
    es, s := Extend(names, es, s, Spawn(1, 1, p));
    es, s := Extend(names, es, s, TryLock(1));
    assert s.handlers[1] == Handler(1, p, Left, Unset, false);
    es, s := Extend(names, es, s, Expire(0));
    assert s.owner == map[];
    es, s := TakeFreeLock(names, es, s, 2, 1, p);
  }
}
