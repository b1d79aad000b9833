/** Reliable delivery between the proxy client and its peer: numbered envelopes, cumulative
    acknowledgements, a queue of what is not yet acknowledged, and its replay. Over a channel that may drop and
    repeat, nothing sent through the queue is ever lost for good, as long as the peer acknowledges only what it has
    received without gaps. */
module Delivery {
  import opened Unicode
  import opened Edits

  datatype Payload =
    | Ack
    | Ping
    | FlushBufferedMessages
    | RemoteStarted
    | AllocateWorktreeId
    | AllocateWorktreeIdResponse(worktreeId: nat)
    | OpenBufferByPath(path: Path)
    | OpenBufferResponse(bufferId: nat)
    | CreateBufferForPeer(project: nat, peer: Option<(nat, nat)>, variant: Variant)
    | Error(message: nat)
    | Other(body: nat)

  /** A piece of an opened buffer: its text and version, then its operations chunk by chunk. */
  datatype Variant =
    | NoVariant
    | BufferState(id: nat, baseText: Text, savedVersion: Clock)
    | BufferChunk(bufferId: nat, operations: seq<Operation>, isLast: bool)

  datatype Envelope = Envelope(id: nat, respondingTo: Option<nat>, ackId: Option<nat>, payload: Payload)

  /** The client's counters and queue, and everything it has put on the wire. */
  datatype Client = Client(nextMessageId: nat, maxReceived: nat, queue: seq<Envelope>, wire: seq<Envelope>)

  const INITIAL_CLIENT := Client(1, 0, [], [])

  /** The four things a client does to its state. */
  datatype Action =
    | SendBuffered(respondingTo: Option<nat>, payload: Payload)
    | SendUnbuffered(respondingTo: Option<nat>, payload: Payload)
    | Replay
    | Read(envelope: Envelope)

  function Stamped(c: Client, respondingTo: Option<nat>, payload: Payload): Envelope {
    Envelope(c.nextMessageId, respondingTo, Some(c.maxReceived), payload)
  }

  predicate Tracked(e: Envelope) {
    !e.payload.FlushBufferedMessages? && !e.payload.RemoteStarted?
  }

  /** Drop acknowledged envelopes from the front. */
  function Popped(queue: seq<Envelope>, ack: nat): seq<Envelope> {
    if queue != [] && queue[0].id <= ack then Popped(queue[1..], ack) else queue
  }

  function Acted(c: Client, a: Action): Client {
    match a
    case SendBuffered(r, p) =>
      var e := Stamped(c, r, p);
      Client(c.nextMessageId + 1, c.maxReceived, c.queue + [e], c.wire + [e])
    case SendUnbuffered(r, p) =>
      Client(c.nextMessageId + 1, c.maxReceived, c.queue, c.wire + [Stamped(c, r, p)])
    case Replay => c.(wire := c.wire + c.queue)
    case Read(e) =>
      c.(queue := if e.ackId.Some? then Popped(c.queue, e.ackId.value) else c.queue,
         maxReceived := if Tracked(e) then e.id else c.maxReceived)
  }

  function Run(c: Client, actions: seq<Action>): Client {
    if actions == [] then c else Acted(Run(c, actions[..|actions| - 1]), actions[|actions| - 1])
  }

  lemma {:induction false} RunConcat(c: Client, a: seq<Action>, b: seq<Action>)
    ensures Run(c, a + b) == Run(Run(c, a), b)
  {
    if b == [] {
      assert a + b == a;
    } else {
      RunConcat(c, a, b[..|b| - 1]);
      assert (a + b)[..|a + b| - 1] == a + b[..|b| - 1];
    }
  }

  // ---- What happened, read off the actions alone ----

  /** Every envelope sent through the queue, oldest first. */
  function Sent(c: Client, actions: seq<Action>): seq<Envelope> {
    if actions == [] then []
    else
      var init, last := actions[..|actions| - 1], actions[|actions| - 1];
      Sent(c, init) + if last.SendBuffered? then [Stamped(Run(c, init), last.respondingTo, last.payload)] else []
  }

  function Max(a: nat, b: nat): nat { if a < b then b else a }

  /** The largest acknowledgement read. */
  function HighestAck(actions: seq<Action>): nat {
    if actions == [] then 0
    else
      var init, last := HighestAck(actions[..|actions| - 1]), actions[|actions| - 1];
      if last.Read? && last.envelope.ackId.Some? then Max(init, last.envelope.ackId.value) else init
  }

  /** The identifier of the last tracked envelope read, 0 before any. */
  function LastRead(actions: seq<Action>): nat {
    if actions == [] then 0
    else
      var last := actions[|actions| - 1];
      if last.Read? && Tracked(last.envelope) then last.envelope.id else LastRead(actions[..|actions| - 1])
  }

  function Unacked(sent: seq<Envelope>, ack: nat): seq<Envelope> {
    if sent == [] then []
    else Unacked(sent[..|sent| - 1], ack) + if sent[|sent| - 1].id > ack then [sent[|sent| - 1]] else []
  }

  /** Every acknowledgement names an identifier the client had given out when it was read. */
  predicate AcksAssigned(c: Client, actions: seq<Action>) {
    actions == [] ||
    var init, last := actions[..|actions| - 1], actions[|actions| - 1];
    && AcksAssigned(c, init)
    && (last.Read? && last.envelope.ackId.Some? ==> last.envelope.ackId.value < Run(c, init).nextMessageId)
  }

  predicate Increasing(s: seq<Envelope>) {
    forall i, j | 0 <= i < j < |s| :: s[i].id < s[j].id
  }

  // ---- The queue, exactly ----

  lemma {:induction false} UnackedSubset(sent: seq<Envelope>, ack: nat)
    requires Increasing(sent)
    ensures Increasing(Unacked(sent, ack))
    ensures forall e :: e in Unacked(sent, ack) <==> e in sent && e.id > ack
  {
    if sent != [] {
      var init, last := sent[..|sent| - 1], sent[|sent| - 1];
      UnackedSubset(init, ack);
      assert Unacked(sent, ack) == Unacked(init, ack) + if last.id > ack then [last] else [];
      hide Unacked;
      assert sent == init + [last];
    }
  }

  /** On rising identifiers, popping the front is filtering. */
  lemma {:induction false} PoppedIsUnacked(queue: seq<Envelope>, ack: nat)
    requires Increasing(queue)
    ensures Popped(queue, ack) == Unacked(queue, ack)
  {
    if queue != [] {
      UnackedHead(queue, ack);
      if queue[0].id <= ack {
        PoppedIsUnacked(queue[1..], ack);
      } else {
        NothingAcked(queue, ack);
      }
    }
  }

  lemma {:induction false} UnackedHead(s: seq<Envelope>, ack: nat)
    requires s != []
    ensures Unacked(s, ack) == (if s[0].id > ack then [s[0]] else []) + Unacked(s[1..], ack)
  {
    if |s| > 1 {
      UnackedHead(s[..|s| - 1], ack);
      assert s[..|s| - 1][1..] == s[1..][..|s| - 2];
    } else {
      assert s[..0] == [] && s[1..] == [];
    }
  }

  lemma {:induction false} NothingAcked(s: seq<Envelope>, ack: nat)
    requires forall i | 0 <= i < |s| :: s[i].id > ack
    ensures Unacked(s, ack) == s
  {
    if s != [] {
      NothingAcked(s[..|s| - 1], ack);
      assert s == s[..|s| - 1] + [s[|s| - 1]];
    }
  }

  lemma {:induction false} UnackedTwice(s: seq<Envelope>, a: nat, b: nat)
    ensures Unacked(Unacked(s, a), b) == Unacked(s, Max(a, b))
  {
    if s != [] {
      var init, last := s[..|s| - 1], s[|s| - 1];
      UnackedTwice(init, a, b);
      if last.id > a {
        var u := Unacked(init, a) + [last];
        assert u[..|u| - 1] == Unacked(init, a) && u[|u| - 1] == last;
      } else {
        assert Unacked(init, a) + [] == Unacked(init, a);
      }
    }
  }

  /** Identifiers rise and stay below the next one, however many unbuffered sends use some up. */
  lemma {:induction false} IdsRise(actions: seq<Action>)
    ensures var sent := Sent(INITIAL_CLIENT, actions);
            Increasing(sent) && forall i | 0 <= i < |sent| ::
              0 < sent[i].id < Run(INITIAL_CLIENT, actions).nextMessageId
    ensures Run(INITIAL_CLIENT, actions).nextMessageId >= 1
  {
    if actions != [] {
      IdsRise(actions[..|actions| - 1]);
    }
  }

  /** In every reachable state the queue is exactly the buffered sends above the largest acknowledgement
      read, whatever order acknowledgements came in. */
  lemma {:induction false} QueueIsUnacked(actions: seq<Action>)
    requires AcksAssigned(INITIAL_CLIENT, actions)
    ensures var c := Run(INITIAL_CLIENT, actions);
            && c.queue == Unacked(Sent(INITIAL_CLIENT, actions), HighestAck(actions))
            && HighestAck(actions) < c.nextMessageId
  {
    if actions != [] {
      var init, last := actions[..|actions| - 1], actions[|actions| - 1];
      QueueIsUnacked(init);
      IdsRise(init);
      var c, sent, ack := Run(INITIAL_CLIENT, init), Sent(INITIAL_CLIENT, init), HighestAck(init);
      assert sent + [] == sent;
      match last {
        case SendBuffered(r, p) =>
          var e := Stamped(c, r, p);
          assert (sent + [e])[..|sent|] == sent;
        case Read(e) =>
          if e.ackId.Some? {
            UnackedSubset(sent, ack);
            PoppedIsUnacked(c.queue, e.ackId.value);
            UnackedTwice(sent, ack, e.ackId.value);
          }
        case SendUnbuffered(_, _) =>
        case Replay =>
      }
    }
  }

  /** An acknowledgement of an identifier not yet given out breaks this: the envelope that later takes
      the identifier is queued although it counts as acknowledged. */
  lemma {:induction false} EarlyAckBreaksQueue(ack: nat, id: nat, p: Payload)
    requires ack >= 1
    ensures var actions := [Read(Envelope(id, None, Some(ack), Ack)), SendBuffered(None, p)];
            Run(INITIAL_CLIENT, actions).queue != Unacked(Sent(INITIAL_CLIENT, actions), HighestAck(actions))
  {
    var read, send := Read(Envelope(id, None, Some(ack), Ack)), SendBuffered(None, p);
    AfterRead(ack, read);
    assert [read, send][..1] == [read];
    var e := Stamped(Run(INITIAL_CLIENT, [read]), None, p);
    assert Unacked([e], ack) == [];
  }

  lemma {:induction false} AfterRead(ack: nat, read: Action)
    requires read.Read? && read.envelope.ackId == Some(ack)
    ensures var c := Run(INITIAL_CLIENT, [read]);
            c.nextMessageId == 1 && c.queue == [] && Sent(INITIAL_CLIENT, [read]) == [] && HighestAck([read]) == ack
  {
    assert [read][..0] == [];
  }

  /** Every envelope on the wire carries as its acknowledgement 0 or the identifier of an envelope read
      before it was stamped; the newest stamp is the last tracked read. */
  lemma {:induction false} AcksWereRead(actions: seq<Action>)
    ensures var c := Run(INITIAL_CLIENT, actions);
            && c.maxReceived == LastRead(actions)
            && (forall e | e in c.wire || e in c.queue :: e.ackId.Some? && WasRead(actions, e.ackId.value))
  {
    if actions != [] {
      var init, last := actions[..|actions| - 1], actions[|actions| - 1];
      AcksWereRead(init);
      LastReadWasRead(init);
      var c := Run(INITIAL_CLIENT, init);
      forall e | e in Run(INITIAL_CLIENT, actions).wire || e in Run(INITIAL_CLIENT, actions).queue
        ensures e.ackId.Some? && WasRead(actions, e.ackId.value)
      {
        if last.Read? && last.envelope.ackId.Some? { PoppedSubset(c.queue, last.envelope.ackId.value); }
        if e in c.wire || e in c.queue { StillRead(init, last, e.ackId.value); }
        else { StillRead(init, last, c.maxReceived); }
        assert init + [last] == actions;
      }
    }
  }

  ghost predicate WasRead(actions: seq<Action>, id: nat) {
    id == 0 || exists k | 0 <= k < |actions| ::
      actions[k].Read? && Tracked(actions[k].envelope) && actions[k].envelope.id == id
  }

  lemma {:induction false} LastReadWasRead(actions: seq<Action>)
    ensures WasRead(actions, LastRead(actions))
  {
    if actions != [] {
      var init, last := actions[..|actions| - 1], actions[|actions| - 1];
      LastReadWasRead(init);
      StillRead(init, last, LastRead(init));
      assert init + [last] == actions;
    }
  }

  lemma {:induction false} StillRead(init: seq<Action>, last: Action, id: nat)
    requires WasRead(init, id)
    ensures WasRead(init + [last], id)
  {
    if id != 0 {
      var k :| 0 <= k < |init| && init[k].Read? && Tracked(init[k].envelope) && init[k].envelope.id == id;
      assert (init + [last])[k] == init[k];
    }
  }

  lemma {:induction false} PoppedSubset(queue: seq<Envelope>, ack: nat)
    ensures forall e | e in Popped(queue, ack) :: e in queue
  {
    if queue != [] && queue[0].id <= ack { PoppedSubset(queue[1..], ack); }
  }

  // ---- Drops and repeats ----

  /** A client with its history, what is in flight to the peer, the identifiers the peer has received, and
      the acknowledgements the peer has given. */
  datatype System = System(client: Client, actions: seq<Action>, inFlight: set<Envelope>, received: set<nat>,
      acks: set<nat>)

  const INITIAL_SYSTEM := System(INITIAL_CLIENT, [], {}, {}, {0})

  datatype SystemEvent =
    | ClientActs(action: Action)
    | Drop(envelope: Envelope)
    | PeerReceives(envelope: Envelope)
    | PeerAcks(ack: nat)

  function Elements(s: seq<Envelope>): set<Envelope> {
    set e | e in s
  }

  function Stepped(s: System, e: SystemEvent): System {
    match e
    case ClientActs(a) =>
      var c := Acted(s.client, a);
      s.(client := c, actions := s.actions + [a],
         inFlight := s.inFlight + if |c.wire| >= |s.client.wire| then Elements(c.wire[|s.client.wire|..]) else {})
    case Drop(envelope) => s.(inFlight := s.inFlight - {envelope})
    case PeerReceives(envelope) => s.(received := s.received + {envelope.id})
    case PeerAcks(k) => s.(acks := s.acks + {k})
  }

  /** The client reads acknowledgements the peer gave; the peer receives what is in flight, and
      acknowledges an identifier it received once every queued send up to it has arrived. */
  predicate Possible(s: System, e: SystemEvent) {
    match e
    case ClientActs(a) => a.Read? && a.envelope.ackId.Some? ==> a.envelope.ackId.value in s.acks
    case Drop(_) => true
    case PeerReceives(envelope) => envelope in s.inFlight
    case PeerAcks(k) => (k == 0 || k in s.received) && Covers(s, k)
  }

  predicate Covers(s: System, k: nat) {
    forall e | e in Sent(INITIAL_CLIENT, s.actions) && e.id <= k :: e.id in s.received
  }

  ghost predicate SystemOk(s: System) {
    && s.client == Run(INITIAL_CLIENT, s.actions)
    && AcksAssigned(INITIAL_CLIENT, s.actions)
    && HighestAck(s.actions) in s.acks
    && (forall e | e in s.inFlight || e in s.client.queue :: e.id < s.client.nextMessageId)
    && (forall id | id in s.received :: id < s.client.nextMessageId)
    && (forall k | k in s.acks :: k < s.client.nextMessageId && Covers(s, k))
  }

  lemma {:induction false} InitialSystemOk()
    ensures SystemOk(INITIAL_SYSTEM)
  {
    assert Sent(INITIAL_CLIENT, []) == [];
  }

  lemma {:induction false} SentPush(actions: seq<Action>, a: Action)
    ensures var c := Run(INITIAL_CLIENT, actions);
            && Run(INITIAL_CLIENT, actions + [a]) == Acted(c, a)
            && Sent(INITIAL_CLIENT, actions + [a]) ==
               Sent(INITIAL_CLIENT, actions) + if a.SendBuffered? then [Stamped(c, a.respondingTo, a.payload)] else []
  {
    assert (actions + [a])[..|actions|] == actions;
  }

  lemma {:induction false} ClientActsOk(s: System, a: Action)
    requires SystemOk(s) && Possible(s, ClientActs(a))
    ensures SystemOk(Stepped(s, ClientActs(a)))
  {
    SentPush(s.actions, a);
    var all := s.actions + [a];
    assert all[..|s.actions|] == s.actions;
    assert Run(INITIAL_CLIENT, all) == Acted(s.client, a) && AcksAssigned(INITIAL_CLIENT, all);
    assert HighestAck(all) in s.acks;
    CoversKept(s, a);
    hide Run, Sent, HighestAck, AcksAssigned, Popped, Covers;
    if a.Read? && a.envelope.ackId.Some? {
      PoppedSubset(s.client.queue, a.envelope.ackId.value);
    }
  }

  /** What the client does takes no acknowledgement back: a new send has a higher identifier. */
  lemma {:induction false} CoversKept(s: System, a: Action)
    requires SystemOk(s)
    ensures forall k | k in s.acks :: Covers(Stepped(s, ClientActs(a)), k)
  {
    SentPush(s.actions, a);
    forall k | k in s.acks
      ensures Covers(Stepped(s, ClientActs(a)), k)
    {
      assert Covers(s, k);
    }
  }

  lemma {:induction false} StepOk(s: System, e: SystemEvent)
    requires SystemOk(s) && Possible(s, e)
    ensures SystemOk(Stepped(s, e))
  {
    match e {
      case ClientActs(a) => ClientActsOk(s, a);
      case _ =>
        var s' := Stepped(s, e);
        forall k | k in s'.acks
          ensures Covers(s', k)
        {
          if k in s.acks { assert Covers(s, k); }
        }
    }
  }

  function SystemRun(events: seq<SystemEvent>): System {
    if events == [] then INITIAL_SYSTEM else Stepped(SystemRun(events[..|events| - 1]), events[|events| - 1])
  }

  predicate PossibleRun(events: seq<SystemEvent>) {
    events == [] ||
    (PossibleRun(events[..|events| - 1]) && Possible(SystemRun(events[..|events| - 1]), events[|events| - 1]))
  }

  lemma {:induction false} RunOk(events: seq<SystemEvent>)
    requires PossibleRun(events)
    ensures SystemOk(SystemRun(events))
  {
    if events == [] {
      InitialSystemOk();
    } else {
      RunOk(events[..|events| - 1]);
      StepOk(SystemRun(events[..|events| - 1]), events[|events| - 1]);
    }
  }

  /** Delivery safety: over any drops, in every reachable state each envelope ever sent through the queue
      has been received or is still queued. */
  lemma {:induction false} NothingIsLost(events: seq<SystemEvent>, e: Envelope)
    requires PossibleRun(events) && e in Sent(INITIAL_CLIENT, SystemRun(events).actions)
    ensures e.id in SystemRun(events).received || e in SystemRun(events).client.queue
  {
    RunOk(events);
    var s := SystemRun(events);
    QueueIsUnacked(s.actions);
    IdsRise(s.actions);
    UnackedSubset(Sent(INITIAL_CLIENT, s.actions), HighestAck(s.actions));
    assert Covers(s, HighestAck(s.actions));
  }

  /** A replay puts the whole queue on the wire again: in sending order, under the old identifiers, and
      with everything the peer still misses among it. Once those arrive the peer misses nothing. */
  lemma {:induction false} ReplayRecovers(events: seq<SystemEvent>)
    requires PossibleRun(events)
    ensures var s := SystemRun(events);
            var s', sent := Stepped(s, ClientActs(Replay)), Sent(INITIAL_CLIENT, s.actions);
            && s'.client.wire == s.client.wire + Unacked(sent, HighestAck(s.actions))
              && s'.client.queue == s.client.queue
            && Increasing(s'.client.wire[|s.client.wire|..])
            && (forall e | e in sent && e.id !in s.received ::
              e in s'.client.wire[|s.client.wire|..] && e in s'.inFlight)
            && forall e | e in sent :: e.id in s.received + set x | x in s'.client.wire[|s.client.wire|..] :: x.id
  {
    RunOk(events);
    var s := SystemRun(events);
    var s', sent := Stepped(s, ClientActs(Replay)), Sent(INITIAL_CLIENT, s.actions);
    QueueIsUnacked(s.actions);
    IdsRise(s.actions);
    UnackedSubset(sent, HighestAck(s.actions));
    assert s'.client.wire[|s.client.wire|..] == s.client.queue;
    forall e | e in sent
      ensures e.id in s.received || e in s.client.queue
    {
      NothingIsLost(events, e);
    }
  }
}
