/** Everything the connection does as one run of the actions of module Delivery: so what is proved there of
    runs holds of every state the connection reaches. */
module ConnectionRuns {
  import opened Edits
  import opened Delivery
  import opened BufferStreams

  /** Send `payload`, then read and answer `seen`. */
  function Conversation(c: Client, payload: Payload, seen: seq<Envelope>, nextWorktreeId: nat, loop: Loop): Client {
    Heard(Acted(c, SendBuffered(None, payload)), seen, nextWorktreeId, loop)
  }

  /** The client after waiting for a buffer: an envelope that ends the wait with an error is read and not
      answered. */
  function StreamHeard(c: Client, seen: seq<Envelope>, nextWorktreeId: nat, result: Option<Streamed>): Client {
    if EndsUnanswered(seen, result) then
      Acted(Heard(c, seen[..|seen| - 1], nextWorktreeId, Streaming), Read(seen[|seen| - 1]))
    else Heard(c, seen, nextWorktreeId, Streaming)
  }

  predicate EndsUnanswered(seen: seq<Envelope>, result: Option<Streamed>) {
    seen != [] && result.Some? && !result.value.Opened?
  }

  /** A wait that ends with a buffer acknowledges its last chunk; one that ends with an error sends nothing for the
      envelope that ends it. */
  lemma {:induction false} EndAnswered(
    c: Client, seen: seq<Envelope>, e: Envelope, nextWorktreeId: nat, result: Option<Streamed>)
    requires result.Some?
    ensures var before := Acted(Heard(c, seen, nextWorktreeId, Streaming), Read(e));
            var after := StreamHeard(c, seen + [e], nextWorktreeId, result);
            && (!result.value.Opened? ==> after == before)
            && (result.value.Opened? && FromRemoteServer(e) ==> SentOne(before, after, Some(e.id), Ack))
  {
    assert (seen + [e])[..|seen|] == seen;
    HeardOneMore(c, seen, e, nextWorktreeId, Streaming);
    var id := nextWorktreeId + AllocatedIn(seen, Streaming);
    AnsweredWhileStreaming(Acted(Heard(c, seen, nextWorktreeId, Streaming), Read(e)), e, id);
  }

  // ---- Actions ----

  /** What the client does while it hears `seen`. */
  function ActionsOf(seen: seq<Envelope>, nextWorktreeId: nat, loop: Loop): seq<Action> {
    if seen == [] then []
    else
      var init, e := seen[..|seen| - 1], seen[|seen| - 1];
      ActionsOf(init, nextWorktreeId, loop) + ([Read(e)] + Answer(e, nextWorktreeId + AllocatedIn(init, loop), loop))
  }

  lemma {:induction false} HeardIsRun(c: Client, seen: seq<Envelope>, nextWorktreeId: nat, loop: Loop)
    ensures Heard(c, seen, nextWorktreeId, loop) == Run(c, ActionsOf(seen, nextWorktreeId, loop))
  {
    hide *;
    if seen == [] {
      NothingHeard(c, nextWorktreeId, loop);
    } else {
      var init, e := seen[..|seen| - 1], seen[|seen| - 1];
      assert seen == init + [e];
      HeardIsRun(c, init, nextWorktreeId, loop);
      HeardOneMore(c, init, e, nextWorktreeId, loop);
      ActionsOneMore(init, e, nextWorktreeId, loop);
      NextIsRun(c, ActionsOf(init, nextWorktreeId, loop), e, nextWorktreeId + AllocatedIn(init, loop), loop);
    }
  }

  lemma {:induction false} NothingHeard(c: Client, nextWorktreeId: nat, loop: Loop)
    ensures Heard(c, [], nextWorktreeId, loop) == c == Run(c, ActionsOf([], nextWorktreeId, loop))
    ensures AllocatedIn([], loop) == 0
  {}

  lemma {:induction false} ActionsOneMore(seen: seq<Envelope>, e: Envelope, nextWorktreeId: nat, loop: Loop)
    ensures ActionsOf(seen + [e], nextWorktreeId, loop) ==
            ActionsOf(seen, nextWorktreeId, loop) +
            ([Read(e)] + Answer(e, nextWorktreeId + AllocatedIn(seen, loop), loop))
  {
    assert (seen + [e])[..|seen|] == seen;
  }

  lemma {:induction false} NextIsRun(c: Client, before: seq<Action>, e: Envelope, nextWorktreeId: nat, loop: Loop)
    ensures Next(Run(c, before), e, nextWorktreeId, loop) ==
            Run(c, before + ([Read(e)] + Answer(e, nextWorktreeId, loop)))
  {
    var answer := Answer(e, nextWorktreeId, loop);
    RunConcat(c, before, [Read(e)] + answer);
    RunConcat(Run(c, before), [Read(e)], answer);
    OneAction(Run(c, before), Read(e));
  }

  // ---- Exchanges ----

  /** What the connection is asked to do: set itself up, ask a request, wait for a buffer; with what it reads
      meanwhile. */
  datatype Exchange =
    | Greeted(seen: seq<Envelope>)
    | Asked(payload: Payload, seen: seq<Envelope>, response: Option<Envelope>)
    | Waited(seen: seq<Envelope>, result: Option<Streamed>)

  function Exchanged(c: Client, nextWorktreeId: nat, x: Exchange): Client {
    match x
    case Greeted(seen) => Conversation(c, RemoteStarted, seen, nextWorktreeId, Initializing)
    case Asked(payload, seen, response) =>
      var talked := Conversation(c, payload, seen, nextWorktreeId, Requesting);
      if response.Some? then Acted(talked, Read(response.value)) else talked
    case Waited(seen, result) => StreamHeard(c, seen, nextWorktreeId, result)
  }

  function WorktreeAfter(nextWorktreeId: nat, x: Exchange): nat {
    match x
    case Greeted(seen) => nextWorktreeId + AllocatedIn(seen, Initializing)
    case Asked(_, seen, _) => nextWorktreeId + AllocatedIn(seen, Requesting)
    case Waited(_, _) => nextWorktreeId
  }

  function ExchangeActions(nextWorktreeId: nat, x: Exchange): seq<Action> {
    match x
    case Greeted(seen) => [SendBuffered(None, RemoteStarted)] + ActionsOf(seen, nextWorktreeId, Initializing)
    case Asked(payload, seen, response) =>
      [SendBuffered(None, payload)] + ActionsOf(seen, nextWorktreeId, Requesting) +
      if response.Some? then [Read(response.value)] else []
    case Waited(seen, result) =>
      if EndsUnanswered(seen, result) then
        ActionsOf(seen[..|seen| - 1], nextWorktreeId, Streaming) + [Read(seen[|seen| - 1])]
      else ActionsOf(seen, nextWorktreeId, Streaming)
  }

  lemma {:induction false} ExchangeIsRun(c: Client, nextWorktreeId: nat, x: Exchange)
    ensures Exchanged(c, nextWorktreeId, x) == Run(c, ExchangeActions(nextWorktreeId, x))
  {
    match x {
      case Greeted(seen) => ConversationIsRun(c, RemoteStarted, seen, nextWorktreeId, Initializing);
      case Asked(payload, seen, response) =>
        ConversationIsRun(c, payload, seen, nextWorktreeId, Requesting);
        var talked := [SendBuffered(None, payload)] + ActionsOf(seen, nextWorktreeId, Requesting);
        if response.Some? { RunOneMore(c, talked, Read(response.value)); } else { assert talked + [] == talked; }
      case Waited(seen, result) =>
        if EndsUnanswered(seen, result) {
          var init := seen[..|seen| - 1];
          HeardIsRun(c, init, nextWorktreeId, Streaming);
          RunOneMore(c, ActionsOf(init, nextWorktreeId, Streaming), Read(seen[|seen| - 1]));
        } else {
          HeardIsRun(c, seen, nextWorktreeId, Streaming);
        }
    }
  }

  lemma {:induction false} ConversationIsRun(
    c: Client, payload: Payload, seen: seq<Envelope>, nextWorktreeId: nat, loop: Loop)
    ensures Conversation(c, payload, seen, nextWorktreeId, loop) ==
            Run(c, [SendBuffered(None, payload)] + ActionsOf(seen, nextWorktreeId, loop))
  {
    OneAction(c, SendBuffered(None, payload));
    HeardIsRun(Acted(c, SendBuffered(None, payload)), seen, nextWorktreeId, loop);
    RunConcat(c, [SendBuffered(None, payload)], ActionsOf(seen, nextWorktreeId, loop));
  }

  lemma {:induction false} RunOneMore(c: Client, actions: seq<Action>, a: Action)
    ensures Run(c, actions + [a]) == Acted(Run(c, actions), a)
  {
    assert (actions + [a])[..|actions|] == actions;
  }

  // ---- The connection from its start ----

  datatype Talk = Talk(client: Client, nextWorktreeId: nat)

  /** Where a connection is after the exchanges `talk`. */
  function Reached(talk: seq<Exchange>): Talk {
    if talk == [] then Talk(INITIAL_CLIENT, 1)
    else
      var before, x := Reached(talk[..|talk| - 1]), talk[|talk| - 1];
      Talk(Exchanged(before.client, before.nextWorktreeId, x), WorktreeAfter(before.nextWorktreeId, x))
  }

  /** All it has done on the way. */
  function History(talk: seq<Exchange>): seq<Action> {
    if talk == [] then []
    else
      var init := talk[..|talk| - 1];
      History(init) + ExchangeActions(Reached(init).nextWorktreeId, talk[|talk| - 1])
  }

  /** Every state a connection reaches is that of the run of its history. */
  lemma {:induction false} ReachedIsRun(talk: seq<Exchange>)
    ensures Reached(talk).client == Run(INITIAL_CLIENT, History(talk))
  {
    if talk == [] {
      assert Run(INITIAL_CLIENT, []) == INITIAL_CLIENT;
    } else {
      var init, x := talk[..|talk| - 1], talk[|talk| - 1];
      ReachedIsRun(init);
      ExchangeIsRun(Reached(init).client, Reached(init).nextWorktreeId, x);
      RunConcat(INITIAL_CLIENT, History(init), ExchangeActions(Reached(init).nextWorktreeId, x));
    }
  }

  lemma {:induction false} ReachedOneMore(talk: seq<Exchange>, x: Exchange)
    ensures var before := Reached(talk);
            Reached(talk + [x]) ==
            Talk(Exchanged(before.client, before.nextWorktreeId, x), WorktreeAfter(before.nextWorktreeId, x))
  {
    assert (talk + [x])[..|talk|] == talk;
  }

  /** In every state a connection reaches, its queue is exactly what it sent through it above the largest
      acknowledgement it read, identifiers rise below the next one, and every envelope on the wire or in the
      queue acknowledges 0 or an envelope that was read. */
  lemma {:induction false} ConnectionQueue(talk: seq<Exchange>)
    requires AcksAssigned(INITIAL_CLIENT, History(talk))
    ensures var c, h := Reached(talk).client, History(talk);
            && c.queue == Unacked(Sent(INITIAL_CLIENT, h), HighestAck(h)) && HighestAck(h) < c.nextMessageId
            && Increasing(Sent(INITIAL_CLIENT, h)) && Increasing(c.queue)
            && c.maxReceived == LastRead(h)
            && forall e | e in c.wire || e in c.queue :: e.ackId.Some? && WasRead(h, e.ackId.value)
  {
    ReachedIsRun(talk);
    QueueIsUnacked(History(talk));
    IdsRise(History(talk));
    AcksWereRead(History(talk));
    UnackedSubset(Sent(INITIAL_CLIENT, History(talk)), HighestAck(History(talk)));
  }

  /** A flush read in any such state, outside the wait for a buffer, puts on the wire exactly what is still
      unacknowledged when it has been read, in sending order and unchanged, and then its own
      acknowledgement. */
  lemma {:induction false} ConnectionFlush(talk: seq<Exchange>, e: Envelope, loop: Loop)
    requires e.payload == FlushBufferedMessages && loop != Streaming
    requires AcksAssigned(INITIAL_CLIENT, History(talk) + [Read(e)])
    ensures var c, h := Reached(talk).client, History(talk) + [Read(e)];
            var c' := Next(c, e, Reached(talk).nextWorktreeId, loop);
            var unacked := Unacked(Sent(INITIAL_CLIENT, h), HighestAck(h));
            && c'.wire == c.wire + unacked + [Envelope(c.nextMessageId, Some(e.id), Some(c.maxReceived), Ack)]
            && c'.queue == unacked && Increasing(unacked)
  {
    var h := History(talk) + [Read(e)];
    ReachedIsRun(talk);
    RunOneMore(INITIAL_CLIENT, History(talk), Read(e));
    QueueIsUnacked(h);
    IdsRise(h);
    UnackedSubset(Sent(INITIAL_CLIENT, h), HighestAck(h));
    FlushResentExactly(Acted(Reached(talk).client, Read(e)), e, Reached(talk).nextWorktreeId, loop);
  }

  /** Over a channel with drops, nothing a connection sent through its queue is lost: the peer has received it
      or the connection still holds it. */
  lemma {:induction false} ConnectionLosesNothing(talk: seq<Exchange>, events: seq<SystemEvent>, e: Envelope)
    requires PossibleRun(events) && SystemRun(events).actions == History(talk)
    requires e in Sent(INITIAL_CLIENT, History(talk))
    ensures e.id in SystemRun(events).received || e in Reached(talk).client.queue
  {
    RunOk(events);
    ReachedIsRun(talk);
    NothingIsLost(events, e);
  }

  // ---- Worktree ids ----

  /** The worktree ids among envelopes, in order. */
  function WorktreeIds(envelopes: seq<Envelope>): seq<nat> {
    if envelopes == [] then []
    else
      var last := envelopes[|envelopes| - 1].payload;
      WorktreeIds(envelopes[..|envelopes| - 1]) +
      if last.AllocateWorktreeIdResponse? then [last.worktreeId] else []
  }

  function Counting(from: nat, n: nat): seq<nat> {
    seq(n, i requires 0 <= i < n => from + i)
  }

  /** The same, read off what is done. */
  function IdsGiven(actions: seq<Action>): seq<nat> {
    if actions == [] then []
    else
      var last := actions[|actions| - 1];
      IdsGiven(actions[..|actions| - 1]) +
      if last.SendBuffered? && last.payload.AllocateWorktreeIdResponse? then [last.payload.worktreeId] else []
  }

  lemma {:induction false} IdsOfSent(c: Client, actions: seq<Action>)
    ensures WorktreeIds(Sent(c, actions)) == IdsGiven(actions)
  {
    if actions != [] {
      var init, last := actions[..|actions| - 1], actions[|actions| - 1];
      IdsOfSent(c, init);
      if last.SendBuffered? {
        var sent, m := Sent(c, init), Stamped(Run(c, init), last.respondingTo, last.payload);
        assert (sent + [m])[..|sent|] == sent;
      } else {
        assert Sent(c, init) + [] == Sent(c, init);
      }
    }
  }

  lemma {:induction false} GivenConcat(a: seq<Action>, b: seq<Action>)
    ensures IdsGiven(a + b) == IdsGiven(a) + IdsGiven(b)
  {
    if b == [] {
      assert a + b == a;
    } else {
      GivenConcat(a, b[..|b| - 1]);
      assert (a + b)[..|a + b| - 1] == a + b[..|b| - 1];
    }
  }

  lemma {:induction false} GivenOne(a: Action)
    ensures IdsGiven([a]) ==
            if a.SendBuffered? && a.payload.AllocateWorktreeIdResponse? then [a.payload.worktreeId] else []
  {
    assert [a][..0] == [];
  }

  lemma {:induction false} GivenInAnswer(e: Envelope, nextWorktreeId: nat, loop: Loop)
    ensures IdsGiven([Read(e)] + Answer(e, nextWorktreeId, loop)) == Counting(nextWorktreeId, Allocated(e, loop))
  {
    var answer := Answer(e, nextWorktreeId, loop);
    GivenConcat([Read(e)], answer);
    GivenOne(Read(e));
    if |answer| == 1 {
      GivenOne(answer[0]);
      assert answer == [answer[0]];
    } else if |answer| == 2 {
      GivenConcat([answer[0]], [answer[1]]);
      GivenOne(answer[0]);
      GivenOne(answer[1]);
      assert answer == [answer[0]] + [answer[1]];
    }
  }

  lemma {:induction false} CountingOn(from: nat, n: nat, more: nat)
    ensures Counting(from, n) + Counting(from + n, more) == Counting(from, n + more)
  {}

  lemma {:induction false} GivenWhileHearing(seen: seq<Envelope>, nextWorktreeId: nat, loop: Loop)
    ensures IdsGiven(ActionsOf(seen, nextWorktreeId, loop)) == Counting(nextWorktreeId, AllocatedIn(seen, loop))
  {
    hide *;
    if seen == [] {
      NothingGiven(nextWorktreeId, loop);
    } else {
      var init, e := seen[..|seen| - 1], seen[|seen| - 1];
      var n := AllocatedIn(init, loop);
      assert seen == init + [e];
      ActionsOneMore(init, e, nextWorktreeId, loop);
      HeardOneMore(INITIAL_CLIENT, init, e, nextWorktreeId, loop);
      GivenWhileHearing(init, nextWorktreeId, loop);
      GivenConcat(ActionsOf(init, nextWorktreeId, loop), [Read(e)] + Answer(e, nextWorktreeId + n, loop));
      GivenInAnswer(e, nextWorktreeId + n, loop);
      CountingOn(nextWorktreeId, n, Allocated(e, loop));
    }
  }

  lemma {:induction false} NothingGiven(nextWorktreeId: nat, loop: Loop)
    ensures IdsGiven(ActionsOf([], nextWorktreeId, loop)) == Counting(nextWorktreeId, AllocatedIn([], loop))
  {}

  /** The client itself asks for nothing by giving out a worktree id. */
  predicate AsksNoIds(talk: seq<Exchange>) {
    forall n | 0 <= n < |talk| :: talk[n].Asked? ==> !talk[n].payload.AllocateWorktreeIdResponse?
  }

  lemma {:induction false} NoneAllocatedStreaming(seen: seq<Envelope>)
    ensures AllocatedIn(seen, Streaming) == 0
  {
    if seen != [] { NoneAllocatedStreaming(seen[..|seen| - 1]); }
  }

  lemma {:induction false} GivenInExchange(nextWorktreeId: nat, x: Exchange)
    requires x.Asked? ==> !x.payload.AllocateWorktreeIdResponse?
    ensures WorktreeAfter(nextWorktreeId, x) >= nextWorktreeId
    ensures IdsGiven(ExchangeActions(nextWorktreeId, x)) ==
            Counting(nextWorktreeId, WorktreeAfter(nextWorktreeId, x) - nextWorktreeId)
  {
    hide IdsGiven, Counting, ActionsOf, AllocatedIn;
    match x {
      case Greeted(seen) => GivenInConversation(RemoteStarted, seen, nextWorktreeId, Initializing);
      case Asked(payload, seen, response) =>
        GivenInConversation(payload, seen, nextWorktreeId, Requesting);
        var talked := [SendBuffered(None, payload)] + ActionsOf(seen, nextWorktreeId, Requesting);
        if response.Some? {
          GivenConcat(talked, [Read(response.value)]);
          GivenOne(Read(response.value));
        } else {
          assert talked + [] == talked;
        }
      case Waited(seen, result) =>
        NoneAllocatedStreaming(seen);
        GivenWhileHearing(seen, nextWorktreeId, Streaming);
        if EndsUnanswered(seen, result) {
          var init, e := seen[..|seen| - 1], seen[|seen| - 1];
          NoneAllocatedStreaming(init);
          GivenWhileHearing(init, nextWorktreeId, Streaming);
          GivenConcat(ActionsOf(init, nextWorktreeId, Streaming), [Read(e)]);
          GivenOne(Read(e));
        }
    }
  }

  lemma {:induction false} GivenInConversation(
    payload: Payload, seen: seq<Envelope>, nextWorktreeId: nat, loop: Loop)
    requires !payload.AllocateWorktreeIdResponse?
    ensures IdsGiven([SendBuffered(None, payload)] + ActionsOf(seen, nextWorktreeId, loop)) ==
            Counting(nextWorktreeId, AllocatedIn(seen, loop))
  {
    GivenConcat([SendBuffered(None, payload)], ActionsOf(seen, nextWorktreeId, loop));
    GivenOne(SendBuffered(None, payload));
    GivenWhileHearing(seen, nextWorktreeId, loop);
  }

  lemma {:induction false} GivenInTalk(talk: seq<Exchange>)
    requires AsksNoIds(talk)
    ensures Reached(talk).nextWorktreeId >= 1
    ensures IdsGiven(History(talk)) == Counting(1, Reached(talk).nextWorktreeId - 1)
  {
    hide *;
    if talk == [] {
      NothingGivenYet();
    } else {
      var init, x := talk[..|talk| - 1], talk[|talk| - 1];
      assert talk == init + [x];
      AskedNone(talk);
      GivenInTalk(init);
      var w := Reached(init).nextWorktreeId;
      ReachedOneMore(init, x);
      HistoryOneMore(init, x);
      GivenConcat(History(init), ExchangeActions(w, x));
      GivenInExchange(w, x);
      CountingOn(1, w - 1, WorktreeAfter(w, x) - w);
    }
  }

  lemma {:induction false} NothingGivenYet()
    ensures Reached([]).nextWorktreeId == 1 && IdsGiven(History([])) == Counting(1, 0)
  {}

  lemma {:induction false} AskedNone(talk: seq<Exchange>)
    requires AsksNoIds(talk) && talk != []
    ensures AsksNoIds(talk[..|talk| - 1])
    ensures var x := talk[|talk| - 1]; x.Asked? ==> !x.payload.AllocateWorktreeIdResponse?
  {}

  lemma {:induction false} HistoryOneMore(talk: seq<Exchange>, x: Exchange)
    ensures History(talk + [x]) == History(talk) + ExchangeActions(Reached(talk).nextWorktreeId, x)
  {
    assert (talk + [x])[..|talk|] == talk;
  }

  /** Over any run, the worktree ids a connection gives out are 1, 2, 3 and so on: none twice, none left out. */
  lemma {:induction false} WorktreeIdsCount(talk: seq<Exchange>)
    requires AsksNoIds(talk)
    ensures Reached(talk).nextWorktreeId >= 1
    ensures var ids := WorktreeIds(Sent(INITIAL_CLIENT, History(talk)));
            |ids| == Reached(talk).nextWorktreeId - 1 && forall n | 0 <= n < |ids| :: ids[n] == n + 1
  {
    hide AsksNoIds, Reached, History, Sent, WorktreeIds, IdsGiven;
    GivenInTalk(talk);
    IdsOfSent(INITIAL_CLIENT, History(talk));
  }

  /** A connection starts by announcing itself, and acknowledges the peer's announcement past the queue. */
  lemma {:induction false} GreetingSent(c: Client, seen: seq<Envelope>, nextWorktreeId: nat)
    ensures var c' := Conversation(c, RemoteStarted, seen, nextWorktreeId, Initializing);
            c.wire + [Envelope(c.nextMessageId, None, Some(c.maxReceived), RemoteStarted)] <= c'.wire
  {
    StartSent(c, RemoteStarted, seen, nextWorktreeId, Initializing);
  }

  /** What a conversation starts with is the first thing it puts on the wire. */
  lemma {:induction false} StartSent(c: Client, payload: Payload, seen: seq<Envelope>, nextWorktreeId: nat, loop: Loop)
    ensures c.wire + [Envelope(c.nextMessageId, None, Some(c.maxReceived), payload)] <=
            Conversation(c, payload, seen, nextWorktreeId, loop).wire
  {
    var sent := Acted(c, SendBuffered(None, payload));
    HeardIsRun(sent, seen, nextWorktreeId, loop);
    WireGrows(sent, ActionsOf(seen, nextWorktreeId, loop));
  }

  lemma {:induction false} WireGrows(c: Client, actions: seq<Action>)
    ensures c.wire <= Run(c, actions).wire
  {
    if actions != [] { WireGrows(c, actions[..|actions| - 1]); }
  }

  /** Every envelope sent through the queue has been on the wire. */
  lemma {:induction false} SentIsOnWire(actions: seq<Action>)
    ensures forall e | e in Sent(INITIAL_CLIENT, actions) :: e in Run(INITIAL_CLIENT, actions).wire
  {
    if actions != [] {
      var init := actions[..|actions| - 1];
      SentIsOnWire(init);
      WireGrows(Run(INITIAL_CLIENT, init), [actions[|actions| - 1]]);
      OneAction(Run(INITIAL_CLIENT, init), actions[|actions| - 1]);
    }
  }
}
