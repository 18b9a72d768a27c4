/**
 The fan-out and gather of the message handler as interleaved steps: the spawning loop, one worker per
 script, the wait group, the bounded channel, and the loop that gathers the reply.
 */
module FanOut {
  import opened Wrappers

  datatype ScriptResult = ScriptResult(code: int, error: string, headers: map<string, string>, isHTML: bool, payload: string)

  /** What an executor hands back; None is the nil pointer that some of its error paths return. */
  type Outcome = Option<ScriptResult>

  datatype Reply = Reply(results: seq<ScriptResult>, html: bool)

  datatype Worker = Idle | Started | Computed | Sent | Done

  datatype Panic = SendOnClosed | NegativeCounter | NilResult

  datatype Phase =
    | Spawning(next: nat, added: bool)
    | Waiting
    | Closing
    | Draining(reply: Reply)
    | Replied(reply: Reply)
    | Panicked(reason: Panic)

  /** `sent` records the order of the sends; no step reads it. */
  datatype State = State(
    phase: Phase,
    workers: seq<Worker>,
    counter: int,
    channel: seq<Outcome>,
    closed: bool,
    sent: seq<nat>)

  datatype Event =
    | Add | Go | LoopEnd | Wait | Close | Receive | RangeEnd
    | Exec(i: nat) | Send(i: nat) | WgDone(i: nat)

  function Start(outcomes: seq<Outcome>): State {
    State(Spawning(0, false), seq(|outcomes|, _ => Idle), 0, [], false, [])
  }

  predicate Terminal(s: State) {
    s.phase.Replied? || s.phase.Panicked?
  }

  /** The channel has room for one result per script; a send on a closed channel does not wait, it panics. */
  predicate Enabled(outcomes: seq<Outcome>, s: State, e: Event) {
    && !Terminal(s)
    && match e
       case Add => s.phase.Spawning? && !s.phase.added && s.phase.next < |outcomes|
       case Go => s.phase.Spawning? && s.phase.added && s.phase.next < |s.workers|
       case LoopEnd => s.phase.Spawning? && !s.phase.added && s.phase.next == |outcomes|
       case Wait => s.phase.Waiting? && s.counter == 0
       case Close => s.phase.Closing?
       case Receive => s.phase.Draining? && s.channel != []
       case RangeEnd => s.phase.Draining? && s.channel == [] && s.closed
       case Exec(i) => i < |s.workers| && s.workers[i] == Started
       case Send(i) => i < |s.workers| && i < |outcomes| && s.workers[i] == Computed
                       && (s.closed || |s.channel| < |outcomes|)
       case WgDone(i) => i < |s.workers| && s.workers[i] == Sent
  }

  /** One turn of the gather loop; reading the HTML flag of a nil result panics. */
  function Append(reply: Reply, res: ScriptResult): Reply {
    Reply(reply.results + [res], reply.html || res.isHTML)
  }

  function Apply(outcomes: seq<Outcome>, s: State, e: Event): State
    requires Enabled(outcomes, s, e)
  {
    match e
    case Add => s.(counter := s.counter + 1, phase := Spawning(s.phase.next, true))
    case Go => s.(workers := s.workers[s.phase.next := Started], phase := Spawning(s.phase.next + 1, false))
    case LoopEnd => s.(phase := Waiting)
    case Wait => s.(phase := Closing)
    case Close => s.(closed := true, phase := Draining(Reply([], false)))
    case Receive =>
      if s.channel[0].None? then s.(phase := Panicked(NilResult))
      else s.(channel := s.channel[1..], phase := Draining(Append(s.phase.reply, s.channel[0].value)))
    case RangeEnd => s.(phase := Replied(s.phase.reply))
    case Exec(i) => s.(workers := s.workers[i := Computed])
    case Send(i) =>
      if s.closed then s.(phase := Panicked(SendOnClosed))
      else s.(workers := s.workers[i := Sent], channel := s.channel + [outcomes[i]], sent := s.sent + [i])
    case WgDone(i) =>
      if s.counter == 0 then s.(phase := Panicked(NegativeCounter))
      else s.(workers := s.workers[i := Done], counter := s.counter - 1)
  }

  /** The state after a schedule, or None if some event of it was not possible when its turn came. */
  function Run(outcomes: seq<Outcome>, es: seq<Event>): Option<State> {
    if es == [] then
      Some(Start(outcomes))
    else
      match Run(outcomes, es[..|es| - 1])
      case None => None
      case Some(s) =>
        if Enabled(outcomes, s, es[|es| - 1]) then Some(Apply(outcomes, s, es[|es| - 1])) else None
  }

  /** The results the workers of a send order produced. */
  function InOrder(outcomes: seq<Outcome>, order: seq<nat>): seq<Outcome>
    requires forall k :: 0 <= k < |order| ==> order[k] < |outcomes|
  {
    seq(|order|, k requires 0 <= k < |order| => outcomes[order[k]])
  }

  /** The reply gathered from results that are all present. */
  function Gathered(results: seq<Outcome>): Reply
    requires forall k :: 0 <= k < |results| ==> results[k].Some?
  {
    if results == [] then Reply([], false)
    else Append(Gathered(results[..|results| - 1]), results[|results| - 1].value)
  }

  ghost predicate Distinct(order: seq<nat>) {
    forall j, k :: 0 <= j < k < |order| ==> order[j] != order[k]
  }

  function Pending(w: Worker): nat {
    if w.Started? || w.Computed? || w.Sent? then 1 else 0
  }

  function StepsLeft(w: Worker): nat {
    match w
    case Idle => 3
    case Started => 3
    case Computed => 2
    case Sent => 1
    case Done => 0
  }

  predicate HasSent(w: Worker) {
    w.Sent? || w.Done?
  }

  /** Workers that were started and have not told the wait group that they are done. */
  function PendingCount(ws: seq<Worker>): nat {
    if ws == [] then 0 else PendingCount(ws[..|ws| - 1]) + Pending(ws[|ws| - 1])
  }

  function WorkLeft(ws: seq<Worker>): nat {
    if ws == [] then 0 else WorkLeft(ws[..|ws| - 1]) + StepsLeft(ws[|ws| - 1])
  }

  function SentCount(ws: seq<Worker>): nat {
    if ws == [] then 0 else SentCount(ws[..|ws| - 1]) + if HasSent(ws[|ws| - 1]) then 1 else 0
  }

  lemma {:induction false} CountUpdate(ws: seq<Worker>, i: nat, w: Worker)
    requires i < |ws|
    ensures PendingCount(ws[i := w]) == PendingCount(ws) - Pending(ws[i]) + Pending(w)
    ensures WorkLeft(ws[i := w]) == WorkLeft(ws) - StepsLeft(ws[i]) + StepsLeft(w)
    ensures SentCount(ws[i := w])
            == SentCount(ws) - (if HasSent(ws[i]) then 1 else 0) + (if HasSent(w) then 1 else 0)
  {
    var last := |ws| - 1;
    if i == last {
      assert ws[i := w][..last] == ws[..last];
    } else {
      assert ws[i := w][..last] == ws[..last][i := w];
      CountUpdate(ws[..last], i, w);
    }
  }

  ghost predicate AllDone(ws: seq<Worker>) {
    forall i :: 0 <= i < |ws| ==> ws[i] == Done
  }

  lemma {:induction false} CountBounds(ws: seq<Worker>)
    ensures PendingCount(ws) == 0 <==> forall i :: 0 <= i < |ws| ==> Pending(ws[i]) == 0
    ensures AllDone(ws) ==> WorkLeft(ws) == 0
    ensures (forall i :: 0 <= i < |ws| ==> ws[i] == Idle) ==> WorkLeft(ws) == 3 * |ws| && SentCount(ws) == 0
    ensures SentCount(ws) <= |ws|
    ensures SentCount(ws) == |ws| <==> forall i :: 0 <= i < |ws| ==> HasSent(ws[i])
  {
    if ws != [] {
      CountBounds(ws[..|ws| - 1]);
    }
  }

  function ReceivedCount(s: State): int {
    |s.sent| - |s.channel|
  }

  /** The send order names every worker that has sent, once. */
  ghost predicate SentInv(outcomes: seq<Outcome>, s: State) {
    && |s.workers| == |outcomes|
    && Distinct(s.sent)
    && (forall k :: 0 <= k < |s.sent| ==> s.sent[k] < |outcomes|)
    && (forall i: nat :: i < |outcomes| ==> (i in s.sent <==> HasSent(s.workers[i])))
    && |s.sent| == SentCount(s.workers)
  }

  /** The channel holds what was sent and not received yet, in the order of the sends. */
  ghost predicate ChannelInv(outcomes: seq<Outcome>, s: State)
    requires SentInv(outcomes, s)
  {
    && |s.channel| <= |s.sent|
    && s.channel == InOrder(outcomes, s.sent)[ReceivedCount(s)..]
    && (forall k :: 0 <= k < ReceivedCount(s) ==> outcomes[s.sent[k]].Some?)
  }

  ghost predicate PhaseInv(outcomes: seq<Outcome>, s: State)
    requires SentInv(outcomes, s) && ChannelInv(outcomes, s)
  {
    match s.phase
    case Spawning(next, added) =>
      && next <= |outcomes| && (added ==> next < |outcomes|) && !s.closed && ReceivedCount(s) == 0
      && (forall i: nat :: i < |outcomes| ==> (s.workers[i] == Idle <==> next <= i))
    case Waiting =>
      && !s.closed && ReceivedCount(s) == 0
      && (forall i: nat :: i < |outcomes| ==> s.workers[i] != Idle)
    case Closing =>
      !s.closed && ReceivedCount(s) == 0 && AllDone(s.workers)
    case Draining(reply) =>
      && s.closed && AllDone(s.workers)
      && reply == Gathered(InOrder(outcomes, s.sent)[..ReceivedCount(s)])
    case Replied(reply) =>
      && s.closed && s.channel == [] && AllDone(s.workers)
      && reply == Gathered(InOrder(outcomes, s.sent))
    case Panicked(reason) =>
      reason == NilResult && exists i :: 0 <= i < |outcomes| && outcomes[i].None?
  }

  ghost predicate CounterInv(s: State) {
    s.counter == PendingCount(s.workers) + if s.phase.Spawning? && s.phase.added then 1 else 0
  }

  ghost predicate Inv(outcomes: seq<Outcome>, s: State) {
    && SentInv(outcomes, s) && ChannelInv(outcomes, s) && PhaseInv(outcomes, s) && CounterInv(s)
  }

  lemma StartInv(outcomes: seq<Outcome>)
    ensures Inv(outcomes, Start(outcomes))
  {
    var s := Start(outcomes);
    CountBounds(s.workers);
    assert s.channel == InOrder(outcomes, s.sent)[0..];
  }

  lemma GoKeepsInv(outcomes: seq<Outcome>, s: State)
    requires Inv(outcomes, s) && Enabled(outcomes, s, Go)
    ensures Inv(outcomes, Apply(outcomes, s, Go))
  {
    CountUpdate(s.workers, s.phase.next, Started);
    assert SentInv(outcomes, Apply(outcomes, s, Go));
  }

  lemma ExecKeepsInv(outcomes: seq<Outcome>, s: State, i: nat)
    requires Inv(outcomes, s) && Enabled(outcomes, s, Exec(i))
    ensures Inv(outcomes, Apply(outcomes, s, Exec(i)))
  {
    CountUpdate(s.workers, i, Computed);
    SendsUntouched(outcomes, s, i, Computed, s.counter);
    PhaseUntouched(outcomes, s, Apply(outcomes, s, Exec(i)), i, Computed);
  }

  /** A worker that has something to send finds the channel open. */
  lemma BusyMeansOpen(outcomes: seq<Outcome>, s: State, i: nat)
    requires Inv(outcomes, s) && i < |outcomes| && s.workers[i] != Done && !s.phase.Panicked?
    ensures !s.closed
  {
  }

  /** Replacing a worker's state by one that has sent as much changes nothing about the sends. */
  lemma SendsUntouched(outcomes: seq<Outcome>, s: State, i: nat, w: Worker, counter: int)
    requires SentInv(outcomes, s) && ChannelInv(outcomes, s)
    requires i < |s.workers| && HasSent(w) == HasSent(s.workers[i])
    ensures var s' := s.(workers := s.workers[i := w], counter := counter);
            SentInv(outcomes, s') && ChannelInv(outcomes, s')
  {
    CountUpdate(s.workers, i, w);
    assert SentInv(outcomes, s.(workers := s.workers[i := w], counter := counter));
  }

  /** A running worker that moves on changes nothing about the spawning loop. */
  lemma PhaseUntouched(outcomes: seq<Outcome>, s: State, s': State, i: nat, w: Worker)
    requires SentInv(outcomes, s) && ChannelInv(outcomes, s) && PhaseInv(outcomes, s)
    requires SentInv(outcomes, s') && ChannelInv(outcomes, s')
    requires i < |s.workers| && s.workers[i] != Idle && s.workers[i] != Done && w != Idle && !Terminal(s)
    requires s'.workers == s.workers[i := w] && s'.phase == s.phase && s'.closed == s.closed
    requires ReceivedCount(s') == ReceivedCount(s)
    ensures PhaseInv(outcomes, s')
  {
  }

  lemma SendKeepsSent(outcomes: seq<Outcome>, s: State, i: nat)
    requires SentInv(outcomes, s) && Enabled(outcomes, s, Send(i)) && !s.closed
    ensures SentInv(outcomes, Apply(outcomes, s, Send(i)))
  {
    CountUpdate(s.workers, i, Sent);
    var s' := Apply(outcomes, s, Send(i));
    assert i !in s.sent;
    forall j: nat | j < |outcomes| ensures j in s'.sent <==> HasSent(s'.workers[j]) {
      assert j in s'.sent <==> j in s.sent || j == i;
    }
  }

  lemma SendKeepsChannel(outcomes: seq<Outcome>, s: State, i: nat)
    requires SentInv(outcomes, s) && ChannelInv(outcomes, s) && Enabled(outcomes, s, Send(i)) && !s.closed
    requires SentInv(outcomes, Apply(outcomes, s, Send(i)))
    ensures ChannelInv(outcomes, Apply(outcomes, s, Send(i)))
  {
    var s' := Apply(outcomes, s, Send(i));
    assert InOrder(outcomes, s'.sent) == InOrder(outcomes, s.sent) + [outcomes[i]];
  }

  lemma SendKeepsInv(outcomes: seq<Outcome>, s: State, i: nat)
    requires Inv(outcomes, s) && Enabled(outcomes, s, Send(i))
    ensures Inv(outcomes, Apply(outcomes, s, Send(i)))
  {
    BusyMeansOpen(outcomes, s, i);
    SendKeepsSent(outcomes, s, i);
    SendKeepsChannel(outcomes, s, i);
    PhaseUntouched(outcomes, s, Apply(outcomes, s, Send(i)), i, Sent);
    CountUpdate(s.workers, i, Sent);
  }

  /** A pending worker is counted, so that its Done does not take the counter below zero. */
  lemma PendingIsCounted(s: State, i: nat)
    requires CounterInv(s) && i < |s.workers| && Pending(s.workers[i]) == 1
    ensures s.counter > 0
  {
    CountBounds(s.workers);
  }

  lemma DoneIsUncounted(s: State, i: nat)
    requires CounterInv(s) && i < |s.workers| && Pending(s.workers[i]) == 1
    ensures CounterInv(s.(workers := s.workers[i := Done], counter := s.counter - 1))
  {
    CountUpdate(s.workers, i, Done);
  }

  lemma WgDoneKeepsInv(outcomes: seq<Outcome>, s: State, i: nat)
    requires Inv(outcomes, s) && Enabled(outcomes, s, WgDone(i))
    ensures Inv(outcomes, Apply(outcomes, s, WgDone(i)))
  {
    BusyMeansOpen(outcomes, s, i);
    PendingIsCounted(s, i);
    var s' := s.(workers := s.workers[i := Done], counter := s.counter - 1);
    assert Apply(outcomes, s, WgDone(i)) == s';
    SendsUntouched(outcomes, s, i, Done, s.counter - 1);
    PhaseUntouched(outcomes, s, s', i, Done);
    DoneIsUncounted(s, i);
  }

  lemma WaitKeepsInv(outcomes: seq<Outcome>, s: State)
    requires Inv(outcomes, s) && Enabled(outcomes, s, Wait)
    ensures Inv(outcomes, Apply(outcomes, s, Wait))
  {
    CountBounds(s.workers);
  }

  /** What a Receive takes is the oldest result not received yet. */
  lemma HeadOfChannel(outcomes: seq<Outcome>, s: State)
    requires SentInv(outcomes, s) && ChannelInv(outcomes, s) && s.channel != []
    ensures s.channel[0] == InOrder(outcomes, s.sent)[ReceivedCount(s)] == outcomes[s.sent[ReceivedCount(s)]]
    ensures s.channel[1..] == InOrder(outcomes, s.sent)[ReceivedCount(s) + 1..]
  {
  }

  lemma GatheredOneMore(all: seq<Outcome>, k: nat)
    requires k < |all| && forall j :: 0 <= j <= k ==> all[j].Some?
    ensures Gathered(all[..k + 1]) == Append(Gathered(all[..k]), all[k].value)
  {
    assert all[..k + 1][..k] == all[..k];
  }

  lemma ReceiveKeepsChannel(outcomes: seq<Outcome>, s: State)
    requires SentInv(outcomes, s) && ChannelInv(outcomes, s)
    requires Enabled(outcomes, s, Receive) && s.channel[0].Some?
    ensures SentInv(outcomes, Apply(outcomes, s, Receive)) && ChannelInv(outcomes, Apply(outcomes, s, Receive))
  {
    HeadOfChannel(outcomes, s);
    assert SentInv(outcomes, Apply(outcomes, s, Receive));
  }

  lemma ReceivePresent(outcomes: seq<Outcome>, s: State)
    requires Inv(outcomes, s) && Enabled(outcomes, s, Receive) && s.channel[0].Some?
    ensures Inv(outcomes, Apply(outcomes, s, Receive))
  {
    ReceiveKeepsChannel(outcomes, s);
    HeadOfChannel(outcomes, s);
    GatheredOneMore(InOrder(outcomes, s.sent), ReceivedCount(s));
  }

  lemma ReceiveKeepsInv(outcomes: seq<Outcome>, s: State)
    requires Inv(outcomes, s) && Enabled(outcomes, s, Receive)
    ensures Inv(outcomes, Apply(outcomes, s, Receive))
  {
    HeadOfChannel(outcomes, s);
    if s.channel[0].Some? {
      ReceivePresent(outcomes, s);
    } else {
      assert outcomes[s.sent[ReceivedCount(s)]].None?;
    }
  }

  lemma StepKeepsInv(outcomes: seq<Outcome>, s: State, e: Event)
    requires Inv(outcomes, s) && Enabled(outcomes, s, e)
    ensures Inv(outcomes, Apply(outcomes, s, e))
  {
    match e
    case Add =>
    case Go => GoKeepsInv(outcomes, s);
    case LoopEnd =>
    case Wait => WaitKeepsInv(outcomes, s);
    case Close => assert InOrder(outcomes, s.sent)[..0] == [];
    case Receive => ReceiveKeepsInv(outcomes, s);
    case RangeEnd => assert InOrder(outcomes, s.sent)[..|s.sent|] == InOrder(outcomes, s.sent);
    case Exec(i) => ExecKeepsInv(outcomes, s, i);
    case Send(i) => SendKeepsInv(outcomes, s, i);
    case WgDone(i) => WgDoneKeepsInv(outcomes, s, i);
  }

  lemma {:induction false} RunKeepsInv(outcomes: seq<Outcome>, es: seq<Event>)
    requires Run(outcomes, es).Some?
    ensures Inv(outcomes, Run(outcomes, es).value)
  {
    if es == [] {
      StartInv(outcomes);
    } else {
      var before := es[..|es| - 1];
      RunKeepsInv(outcomes, before);
      StepKeepsInv(outcomes, Run(outcomes, before).value, es[|es| - 1]);
    }
  }
}
