/** Progress, channel safety and conservation of the fan-out, over every schedule. */
module FanOutResults {
  import opened Wrappers
  import opened FanOut

  ghost predicate AllPresent(outcomes: seq<Outcome>) {
    forall i :: 0 <= i < |outcomes| ==> outcomes[i].Some?
  }

  /** A worker that has its result can send it at once: the channel is open and has room. */
  lemma SendNeverBlocks(outcomes: seq<Outcome>, es: seq<Event>, i: nat)
    requires Run(outcomes, es).Some? && !Terminal(Run(outcomes, es).value)
    requires i < |outcomes| && i < |Run(outcomes, es).value.workers|
    requires Run(outcomes, es).value.workers[i] == Computed
    ensures Enabled(outcomes, Run(outcomes, es).value, Send(i))
    ensures !Run(outcomes, es).value.closed && |Run(outcomes, es).value.channel| < |outcomes|
  {
    var s := Run(outcomes, es).value;
    RunKeepsInv(outcomes, es);
    BusyMeansOpen(outcomes, s, i);
    CountBounds(s.workers);
  }

  /** No worker ever waits for another one: whatever they have done, it can take its next step. */
  lemma WorkersNeverWait(outcomes: seq<Outcome>, es: seq<Event>, i: nat)
    requires Run(outcomes, es).Some? && !Terminal(Run(outcomes, es).value) && i < |outcomes|
    ensures var s := Run(outcomes, es).value;
            && i < |s.workers|
            && (s.workers[i] == Started ==> Enabled(outcomes, s, Exec(i)))
            && (s.workers[i] == Computed ==> Enabled(outcomes, s, Send(i)))
            && (s.workers[i] == Sent ==> Enabled(outcomes, s, WgDone(i)))
  {
    RunKeepsInv(outcomes, es);
    if Run(outcomes, es).value.workers[i] == Computed {
      SendNeverBlocks(outcomes, es, i);
    }
  }

  /** No schedule sends on a closed channel or drives the wait group below zero. */
  lemma OnlyNilPanics(outcomes: seq<Outcome>, es: seq<Event>)
    requires Run(outcomes, es).Some?
    ensures var s := Run(outcomes, es).value;
            && (s.phase.Panicked? ==> s.phase.reason == NilResult)
            && (!s.phase.Panicked? ==> s.counter >= 0)
            && (s.closed && !s.phase.Panicked? ==> AllDone(s.workers))
  {
    RunKeepsInv(outcomes, es);
  }

  /** How many steps remain before the reply. */
  function Measure(outcomes: seq<Outcome>, s: State): int {
    var n := |outcomes|;
    match s.phase
    case Spawning(next, added) => 2 * (n - next) - (if added then 1 else 0) + 1 + WorkLeft(s.workers) + n + 3
    case Waiting => WorkLeft(s.workers) + n + 3
    case Closing => n + 2
    case Draining(_) => |s.channel| + 1
    case Replied(_) => 0
    case Panicked(_) => 0
  }

  lemma WorkerStepCounts(outcomes: seq<Outcome>, s: State, e: Event)
    requires Inv(outcomes, s) && Enabled(outcomes, s, e) && (e.Exec? || e.Send? || e.WgDone?)
    ensures var s' := Apply(outcomes, s, e);
            !s'.phase.Panicked? ==> s'.phase == s.phase && WorkLeft(s'.workers) == WorkLeft(s.workers) - 1
    ensures s.phase.Spawning? || s.phase.Waiting?
  {
    BusyMeansOpen(outcomes, s, e.i);
    match e
    case Exec(i) => CountUpdate(s.workers, i, Computed);
    case Send(i) => CountUpdate(s.workers, i, Sent);
    case WgDone(i) => CountUpdate(s.workers, i, Done);
  }

  lemma MainStepCounts(outcomes: seq<Outcome>, s: State, e: Event)
    requires Inv(outcomes, s) && Enabled(outcomes, s, e) && !(e.Exec? || e.Send? || e.WgDone?)
    ensures var s' := Apply(outcomes, s, e);
            !s'.phase.Panicked? ==> Measure(outcomes, s') == Measure(outcomes, s) - 1
  {
    match e
    case Go => CountUpdate(s.workers, s.phase.next, Started);
    case Wait =>
      WaitKeepsInv(outcomes, s);
      CountBounds(s.workers);
    case Close => CountBounds(s.workers);
    case _ =>
  }

  lemma StepCounts(outcomes: seq<Outcome>, s: State, e: Event)
    requires Inv(outcomes, s) && Enabled(outcomes, s, e)
    ensures var s' := Apply(outcomes, s, e);
            !s'.phase.Panicked? ==> Measure(outcomes, s') == Measure(outcomes, s) - 1
    ensures Measure(outcomes, s) > 0
  {
    if e.Exec? || e.Send? || e.WgDone? {
      WorkerStepCounts(outcomes, s, e);
    } else {
      MainStepCounts(outcomes, s, e);
    }
  }

  lemma StartCounts(outcomes: seq<Outcome>)
    ensures Measure(outcomes, Start(outcomes)) == 6 * |outcomes| + 4
  {
    CountBounds(Start(outcomes).workers);
  }

  /**
   Every schedule for n scripts has at most 6n + 4 steps, the panic included; one that has not panicked has
   taken 6n + 4 steps less the measure.
   */
  lemma {:induction false} StepsTaken(outcomes: seq<Outcome>, es: seq<Event>)
    requires Run(outcomes, es).Some?
    ensures |es| <= 6 * |outcomes| + 4
    ensures !Run(outcomes, es).value.phase.Panicked? ==>
              |es| + Measure(outcomes, Run(outcomes, es).value) == 6 * |outcomes| + 4
  {
    if es == [] {
      StartCounts(outcomes);
    } else {
      var before := es[..|es| - 1];
      RunKeepsInv(outcomes, before);
      StepsTaken(outcomes, before);
      StepCounts(outcomes, Run(outcomes, before).value, es[|es| - 1]);
    }
  }

  /** No schedule is stuck before the reply or the panic. */
  lemma SomeStep(outcomes: seq<Outcome>, es: seq<Event>) returns (e: Event)
    requires Run(outcomes, es).Some? && !Terminal(Run(outcomes, es).value)
    ensures Enabled(outcomes, Run(outcomes, es).value, e)
  {
    var s := Run(outcomes, es).value;
    RunKeepsInv(outcomes, es);
    CountBounds(s.workers);
    match s.phase
    case Spawning(next, added) =>
      e := if added then Go else if next < |outcomes| then Add else LoopEnd;
    case Waiting =>
      if s.counter == 0 {
        e := Wait;
      } else {
        var i :| 0 <= i < |s.workers| && Pending(s.workers[i]) != 0;
        if s.workers[i] == Computed {
          SendNeverBlocks(outcomes, es, i);
        }
        e := if s.workers[i] == Started then Exec(i) else if s.workers[i] == Computed then Send(i) else WgDone(i);
      }
    case Closing =>
      e := Close;
    case Draining(_) =>
      e := if s.channel != [] then Receive else RangeEnd;
  }

  lemma Extend(outcomes: seq<Outcome>, es: seq<Event>, s: State, e: Event) returns (es': seq<Event>, s': State)
    requires Run(outcomes, es) == Some(s) && Enabled(outcomes, s, e)
    ensures es' == es + [e] && s' == Apply(outcomes, s, e) && Run(outcomes, es') == Some(s')
  {
    es', s' := es + [e], Apply(outcomes, s, e);
    assert es'[..|es|] == es;
  }

  ghost predicate AllSent(s: State) {
    forall i :: 0 <= i < |s.workers| ==> HasSent(s.workers[i])
  }

  lemma NothingLeftToSend(outcomes: seq<Outcome>, s: State, e: Event)
    requires Inv(outcomes, s) && Enabled(outcomes, s, e) && AllSent(s)
    ensures AllSent(Apply(outcomes, s, e)) && Apply(outcomes, s, e).sent == s.sent
  {
  }

  /** One more step towards an end. */
  lemma OneStepOn(outcomes: seq<Outcome>, es: seq<Event>) returns (es': seq<Event>)
    requires Run(outcomes, es).Some? && !Terminal(Run(outcomes, es).value)
    ensures es <= es' && Run(outcomes, es').Some?
    ensures var s, s' := Run(outcomes, es).value, Run(outcomes, es').value;
            && Measure(outcomes, s) > 0
            && (!Terminal(s') ==> Measure(outcomes, s') < Measure(outcomes, s))
            && (AllSent(s) ==> AllSent(s') && s'.sent == s.sent)
  {
    var s := Run(outcomes, es).value;
    var e := SomeStep(outcomes, es);
    RunKeepsInv(outcomes, es);
    StepCounts(outcomes, s, e);
    if AllSent(s) {
      NothingLeftToSend(outcomes, s, e);
    }
    var s';
    es', s' := Extend(outcomes, es, s, e);
  }

  lemma {:induction false} FinishRun(outcomes: seq<Outcome>, es: seq<Event>) returns (es': seq<Event>)
    requires Run(outcomes, es).Some?
    ensures es <= es' && Run(outcomes, es').Some? && Terminal(Run(outcomes, es').value)
    ensures AllSent(Run(outcomes, es).value) ==> Run(outcomes, es').value.sent == Run(outcomes, es).value.sent
    decreases if Terminal(Run(outcomes, es).value) then -1 else Measure(outcomes, Run(outcomes, es).value)
  {
    if Terminal(Run(outcomes, es).value) {
      es' := es;
    } else {
      var next := OneStepOn(outcomes, es);
      es' := FinishRun(outcomes, next);
    }
  }

  /** Every schedule can be continued to an end, and every end is the reply exactly when no result is nil. */
  lemma EveryRunEnds(outcomes: seq<Outcome>, es: seq<Event>) returns (es': seq<Event>)
    requires Run(outcomes, es).Some?
    ensures es <= es' && Run(outcomes, es').Some? && Terminal(Run(outcomes, es').value)
    ensures Run(outcomes, es').value.phase.Replied? <==> AllPresent(outcomes)
  {
    es' := FinishRun(outcomes, es);
    RepliesIffPresent(outcomes, es');
  }

  lemma RepliesIffPresent(outcomes: seq<Outcome>, es: seq<Event>)
    requires Run(outcomes, es).Some? && Terminal(Run(outcomes, es).value)
    ensures Run(outcomes, es).value.phase.Replied? <==> AllPresent(outcomes)
  {
    var s := Run(outcomes, es).value;
    RunKeepsInv(outcomes, es);
    if s.phase.Replied? {
      forall i: nat | i < |outcomes| ensures outcomes[i].Some? {
        assert i in s.sent;
        var k :| 0 <= k < |s.sent| && s.sent[k] == i;
      }
    }
  }

  /** An order in which n workers can send. */
  ghost predicate Permutation(order: seq<nat>, n: nat) {
    && |order| == n && Distinct(order)
    && (forall k :: 0 <= k < |order| ==> order[k] < n)
    && (forall i: nat :: i < n ==> i in order)
  }

  /** The reply is the results of all scripts, each once, in the order of the sends. */
  lemma ReplyInSomeOrder(outcomes: seq<Outcome>, es: seq<Event>) returns (order: seq<nat>)
    requires Run(outcomes, es).Some? && Run(outcomes, es).value.phase.Replied?
    ensures AllPresent(outcomes) && Permutation(order, |outcomes|)
    ensures Run(outcomes, es).value.phase.reply == Gathered(InOrder(outcomes, order))
  {
    var s := Run(outcomes, es).value;
    RunKeepsInv(outcomes, es);
    RepliesIffPresent(outcomes, es);
    CountBounds(s.workers);
    order := s.sent;
  }

  /** What gathering does: every result in order, and the flag that one of them is HTML. */
  lemma {:induction false} GatheredMeans(results: seq<Outcome>)
    requires AllPresent(results)
    ensures |Gathered(results).results| == |results|
    ensures forall k :: 0 <= k < |results| ==> Gathered(results).results[k] == results[k].value
    ensures Gathered(results).html <==> exists k :: 0 <= k < |results| && results[k].value.isHTML
  {
    if results != [] {
      var last := |results| - 1;
      GatheredMeans(results[..last]);
      if Gathered(results).html && !results[last].value.isHTML {
        var k :| 0 <= k < last && results[..last][k].value.isHTML;
        assert results[k].value.isHTML;
      }
      if k :| 0 <= k < |results| && results[k].value.isHTML && k < last {
        assert results[..last][k].value.isHTML;
      }
    }
  }

  function Values(outcomes: seq<Outcome>): seq<ScriptResult>
    requires AllPresent(outcomes)
  {
    seq(|outcomes|, i requires 0 <= i < |outcomes| => outcomes[i].value)
  }

  /** Taking the largest index out of a permutation leaves a permutation of the others. */
  lemma WithoutLargest(order: seq<nat>, n: nat) returns (k: nat)
    requires Permutation(order, n + 1)
    ensures k <= n && order[k] == n && Permutation(order[..k] + order[k + 1..], n)
  {
    assert n in order;
    k :| 0 <= k <= n && order[k] == n;
    var rest := order[..k] + order[k + 1..];
    assert forall j :: 0 <= j < n ==> rest[j] == order[if j < k then j else j + 1];
    forall i: nat | i < n ensures i in rest {
      assert i in order;
      var j :| 0 <= j <= n && order[j] == i;
      assert rest[if j < k then j else j - 1] == i;
    }
  }

  function Without(a: seq<Outcome>, k: nat): seq<Outcome>
    requires k < |a|
  {
    a[..k] + a[k + 1..]
  }

  lemma BagSplit(a: seq<Outcome>, k: nat)
    requires k < |a|
    ensures multiset(a) == multiset(Without(a, k)) + multiset{a[k]}
  {
    assert a == a[..k] + [a[k]] + a[k + 1..];
  }

  /** Leaving the last script out of the order leaves its result out of the results. */
  lemma InOrderWithout(outcomes: seq<Outcome>, order: seq<nat>, k: nat)
    requires outcomes != [] && Permutation(order, |outcomes|) && k < |order| && order[k] == |outcomes| - 1
    requires Permutation(order[..k] + order[k + 1..], |outcomes| - 1)
    ensures InOrder(outcomes[..|outcomes| - 1], order[..k] + order[k + 1..]) == Without(InOrder(outcomes, order), k)
  {
  }

  lemma {:induction false} PermutationBag(outcomes: seq<Outcome>, order: seq<nat>)
    requires Permutation(order, |outcomes|)
    ensures multiset(InOrder(outcomes, order)) == multiset(outcomes)
  {
    if outcomes == [] {
      assert InOrder(outcomes, order) == outcomes;
    } else {
      var n := |outcomes| - 1;
      var k := WithoutLargest(order, n);
      PermutationBag(outcomes[..n], order[..k] + order[k + 1..]);
      InOrderWithout(outcomes, order, k);
      BagSplit(InOrder(outcomes, order), k);
      assert outcomes == outcomes[..n] + [outcomes[n]];
    }
  }

  lemma BagWithout(a: seq<Outcome>, k: nat)
    requires k < |a| && AllPresent(a)
    ensures multiset(a) == multiset(Without(a, k)) + multiset{a[k]}
    ensures AllPresent(Without(a, k))
    ensures multiset(Values(a)) == multiset(Values(Without(a, k))) + multiset{a[k].value}
  {
    BagSplit(a, k);
    var v := Values(a);
    assert v == v[..k] + [v[k]] + v[k + 1..];
    assert Values(Without(a, k)) == v[..k] + v[k + 1..];
  }

  lemma {:induction false} SameBagValues(a: seq<Outcome>, b: seq<Outcome>)
    requires AllPresent(a) && AllPresent(b) && multiset(a) == multiset(b)
    ensures multiset(Values(a)) == multiset(Values(b))
    decreases |a|
  {
    if a == [] {
      assert |b| == |multiset(b)| == 0;
    } else {
      assert a[0] in multiset(b);
      var k :| 0 <= k < |b| && b[k] == a[0];
      BagWithout(a, 0);
      BagWithout(b, k);
      assert multiset(Without(a, 0)) == multiset(a) - multiset{a[0]};
      assert multiset(Without(b, k)) == multiset(b) - multiset{b[k]};
      SameBagValues(Without(a, 0), Without(b, k));
    }
  }

  /**
   Conservation. Under every schedule that replies, the reply holds one result per script, as a bag equal
   to the workers' outcomes, and its HTML flag says whether one of them is HTML.
   */
  lemma ResultsConserved(outcomes: seq<Outcome>, es: seq<Event>)
    requires Run(outcomes, es).Some? && Run(outcomes, es).value.phase.Replied?
    ensures AllPresent(outcomes)
    ensures var reply := Run(outcomes, es).value.phase.reply;
            && multiset(reply.results) == multiset(Values(outcomes))
            && (reply.html <==> exists i :: 0 <= i < |outcomes| && outcomes[i].value.isHTML)
  {
    var reply := Run(outcomes, es).value.phase.reply;
    var order := ReplyInSomeOrder(outcomes, es);
    var results := InOrder(outcomes, order);
    GatheredMeans(results);
    PermutationBag(outcomes, order);
    SameBagValues(results, outcomes);
    assert reply.results == Values(results);
    if i :| 0 <= i < |outcomes| && outcomes[i].value.isHTML {
      assert i in order;
      var k :| 0 <= k < |order| && order[k] == i;
      assert results[k].value.isHTML;
    }
  }

  /** The loop over a closed channel's contents; a nil result makes it panic. */
  method GatherReplies(channel: seq<Outcome>) returns (reply: Result<Reply>)
    ensures reply.Ok? <==> AllPresent(channel)
    ensures reply.Ok? ==> reply.value == Gathered(channel)
  {
    var results: seq<ScriptResult>, html := [], false;
    for i := 0 to |channel|
      invariant AllPresent(channel[..i])
      invariant Reply(results, html) == Gathered(channel[..i])
    {
      assert channel[..i + 1][..i] == channel[..i];
      if channel[i].None? {
        return Err("invalid memory address or nil pointer dereference");
      }
      var res := channel[i].value;
      if res.isHTML {
        html := true;
      }
      results := results + [res];
    }
    assert channel[..|channel|] == channel;
    return Ok(Reply(results, html));
  }

  /** The spawning loop can run to its end before any worker runs. */
  lemma {:induction false} SpawnFirst(outcomes: seq<Outcome>, n: nat) returns (es: seq<Event>, s: State)
    requires n <= |outcomes|
    ensures Run(outcomes, es) == Some(s)
    ensures s.phase == Spawning(n, false) && s.sent == [] && |s.workers| == |outcomes|
    ensures forall i :: 0 <= i < n ==> s.workers[i] == Started
  {
    if n == 0 {
      es, s := [], Start(outcomes);
    } else {
      es, s := SpawnFirst(outcomes, n - 1);
      es, s := Extend(outcomes, es, s, Add);
      es, s := Extend(outcomes, es, s, Go);
    }
  }

  /** A worker that is sending has room to, and is still counted once it has sent. */
  lemma SendAndDone(outcomes: seq<Outcome>, es: seq<Event>, s: State, i: nat)
    returns (es': seq<Event>, s': State)
    requires Run(outcomes, es) == Some(s) && s.phase == Waiting
    requires i < |outcomes| == |s.workers| && s.workers[i] == Computed
    ensures Run(outcomes, es') == Some(s')
    ensures s'.phase == Waiting && s'.sent == s.sent + [i] && s'.workers == s.workers[i := Done]
  {
    SendNeverBlocks(outcomes, es, i);
    es', s' := Extend(outcomes, es, s, Send(i));
    RunKeepsInv(outcomes, es');
    PendingIsCounted(s', i);
    es', s' := Extend(outcomes, es', s', WgDone(i));
  }

  /** A spawned worker can run through at once. */
  lemma RunOne(outcomes: seq<Outcome>, es: seq<Event>, s: State, i: nat) returns (es': seq<Event>, s': State)
    requires Run(outcomes, es) == Some(s) && s.phase == Waiting
    requires i < |outcomes| == |s.workers| && s.workers[i] == Started
    ensures Run(outcomes, es') == Some(s')
    ensures s'.phase == Waiting && s'.sent == s.sent + [i] && s'.workers == s.workers[i := Done]
  {
    es', s' := Extend(outcomes, es, s, Exec(i));
    es', s' := SendAndDone(outcomes, es', s', i);
  }

  /** Once all are spawned, the workers can run one after the other in any order. */
  lemma {:induction false} RunInOrder(outcomes: seq<Outcome>, order: seq<nat>, k: nat)
    returns (es: seq<Event>, s: State)
    requires Permutation(order, |outcomes|) && k <= |order|
    ensures Run(outcomes, es) == Some(s)
    ensures s.phase == Waiting && s.sent == order[..k] && |s.workers| == |outcomes|
    ensures forall i: nat :: i < |outcomes| && i !in order[..k] ==> s.workers[i] == Started
  {
    if k == 0 {
      es, s := SpawnFirst(outcomes, |outcomes|);
      es, s := Extend(outcomes, es, s, LoopEnd);
    } else {
      es, s := RunInOrder(outcomes, order, k - 1);
      es, s := RunOne(outcomes, es, s, order[k - 1]);
      assert order[..k] == order[..k - 1] + [order[k - 1]];
    }
  }

  /** Every order of the results is the reply of some schedule. */
  lemma EveryOrderHappens(outcomes: seq<Outcome>, order: seq<nat>) returns (es: seq<Event>)
    requires AllPresent(outcomes) && Permutation(order, |outcomes|)
    ensures Run(outcomes, es).Some?
    ensures Run(outcomes, es).value.phase == Replied(Gathered(InOrder(outcomes, order)))
  {
    var s;
    es, s := RunInOrder(outcomes, order, |order|);
    assert order[..|order|] == order;
    RunKeepsInv(outcomes, es);
    es := FinishRun(outcomes, es);
    RunKeepsInv(outcomes, es);
    RepliesIffPresent(outcomes, es);
  }
}
