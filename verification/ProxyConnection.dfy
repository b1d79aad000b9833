/** The client's side of the connection as an object: each method is a short run of the actions of module
    Delivery. */
module ProxyConnections {
  import opened Unicode
  import opened Edits
  import opened Delivery
  import opened ProxySessions
  import opened BufferStreams
  import opened ConnectionRuns

  class ProxyConnection {
    var nextMessageId: nat
    var nextWorktreeId: nat
    var maxReceived: nat
    var bufferedOutgoing: seq<Envelope>
    /** What has been written, and what is still to be read. */
    var writer: seq<Envelope>
    var reader: seq<Envelope>
    var openedBuffers: map<nat, OpenedBuffer>
    /** Everything the connection has been asked to do. */
    ghost var talk: seq<Exchange>

    constructor (reader: seq<Envelope>)
      ensures Valid() && talk == [] && View() == INITIAL_CLIENT && nextWorktreeId == 1 && this.reader == reader
              && openedBuffers == map[]
    {
      nextMessageId, nextWorktreeId, maxReceived, bufferedOutgoing, writer := 1, 1, 0, [], [];
      this.reader := reader;
      openedBuffers := map[];
      talk := [];
    }

    /** The connection is where its exchanges lead. */
    ghost predicate Valid()
      reads this
    {
      View() == Reached(talk).client && nextWorktreeId == Reached(talk).nextWorktreeId
    }

    ghost method Note(x: Exchange)
      requires View() == Exchanged(Reached(talk).client, Reached(talk).nextWorktreeId, x)
      requires nextWorktreeId == WorktreeAfter(Reached(talk).nextWorktreeId, x)
      modifies `talk
      ensures Valid() && talk == old(talk) + [x]
    {
      hide Reached, Exchanged, WorktreeAfter;
      ReachedOneMore(talk, x);
      talk := talk + [x];
    }

    ghost function View(): Client
      reads this
    {
      Client(nextMessageId, maxReceived, bufferedOutgoing, writer)
    }

    method AssignOutgoingMetadata(respondingTo: Option<nat>, payload: Payload) returns (envelope: Envelope)
      modifies `nextMessageId
      ensures envelope == Stamped(old(View()), respondingTo, payload) && nextMessageId == old(nextMessageId) + 1
    {
      envelope := Envelope(nextMessageId, respondingTo, Some(maxReceived), payload);
      nextMessageId := nextMessageId + 1;
    }

    method WriteBufferedEnvelope(respondingTo: Option<nat>, payload: Payload) returns (id: nat)
      modifies `nextMessageId, `bufferedOutgoing, `writer
      ensures View() == Acted(old(View()), SendBuffered(respondingTo, payload)) && id == old(nextMessageId)
    {
      var envelope := AssignOutgoingMetadata(respondingTo, payload);
      bufferedOutgoing := bufferedOutgoing + [envelope];
      writer := writer + [envelope];
      return envelope.id;
    }

    method WriteUnbufferedEnvelope(respondingTo: Option<nat>, payload: Payload) returns (id: nat)
      modifies `nextMessageId, `writer
      ensures View() == Acted(old(View()), SendUnbuffered(respondingTo, payload)) && id == old(nextMessageId)
    {
      var envelope := AssignOutgoingMetadata(respondingTo, payload);
      writer := writer + [envelope];
      return envelope.id;
    }

    method ReplayBufferedMessages()
      modifies `writer
      ensures View() == Acted(old(View()), Replay)
    {
      var messages := bufferedOutgoing;
      for n := 0 to |messages|
        invariant writer == old(writer) + messages[..n]
      {
        writer := writer + [messages[n]];
      }
      assert messages[..|messages|] == messages;
    }

    /** Read one envelope, retire what it acknowledges, and remember its identifier. */
    method ReadEnvelope() returns (envelope: Envelope)
      requires reader != []
      modifies `maxReceived, `bufferedOutgoing, `reader
      ensures envelope == old(reader)[0] && reader == old(reader)[1..]
      ensures View() == Acted(old(View()), Read(envelope))
      ensures writer == old(writer) && nextMessageId == old(nextMessageId)
      ensures maxReceived == if envelope.payload == FlushBufferedMessages || envelope.payload == RemoteStarted
                             then old(maxReceived) else envelope.id
      ensures envelope.ackId == None ==> bufferedOutgoing == old(bufferedOutgoing)
      ensures envelope.ackId.Some? ==> RetiredUpTo(old(bufferedOutgoing), bufferedOutgoing, envelope.ackId.value)
    {
      hide RetiredUpTo;
      envelope := reader[0];
      reader := reader[1..];
      if envelope.ackId.Some? {
        var ack := envelope.ackId.value;
        PoppedRetires(bufferedOutgoing, ack);
        while bufferedOutgoing != [] && bufferedOutgoing[0].id <= ack
          invariant Popped(bufferedOutgoing, ack) == Popped(old(bufferedOutgoing), ack)
          invariant reader == old(reader)[1..] && maxReceived == old(maxReceived)
          decreases |bufferedOutgoing|
        {
          bufferedOutgoing := bufferedOutgoing[1..];
        }
      }
      if Tracked(envelope) {
        maxReceived := envelope.id;
      }
    }

    method HandleUnsolicited(envelope: Envelope)
      modifies `nextMessageId, `nextWorktreeId, `bufferedOutgoing, `writer
      ensures View() == Run(old(View()), Answer(envelope, old(nextWorktreeId), Requesting))
      ensures nextWorktreeId == old(nextWorktreeId) + Allocated(envelope, Requesting)
      ensures match envelope.payload
              case Ping => SentOne(old(View()), View(), Some(envelope.id), Ack)
              case AllocateWorktreeId =>
                && SentOne(old(View()), View(), Some(envelope.id), AllocateWorktreeIdResponse(old(nextWorktreeId)))
                && nextWorktreeId == old(nextWorktreeId) + 1
              case FlushBufferedMessages =>
                SentUnqueued(old(View()).(wire := old(writer) + old(bufferedOutgoing)), View(), Some(envelope.id), Ack)
              case _ => AckedIfUnasked(old(View()), View(), envelope)
    {
      AnsweredExactly(View(), envelope, nextWorktreeId);
      ghost var before := View();
      match envelope.payload {
        case AllocateWorktreeId =>
          var worktreeId := nextWorktreeId;
          nextWorktreeId := nextWorktreeId + 1;
          var _ := WriteBufferedEnvelope(Some(envelope.id), AllocateWorktreeIdResponse(worktreeId));
          OneAction(before, SendBuffered(Some(envelope.id), AllocateWorktreeIdResponse(worktreeId)));
        case Ping =>
          var _ := WriteBufferedEnvelope(Some(envelope.id), Ack);
          OneAction(before, SendBuffered(Some(envelope.id), Ack));
        case FlushBufferedMessages =>
          ReplayBufferedMessages();
          var _ := WriteUnbufferedEnvelope(Some(envelope.id), Ack);
          TwoActions(before, Replay, SendUnbuffered(Some(envelope.id), Ack));
        case _ =>
          AckIfNeeded(envelope);
      }
    }

    method AckIfNeeded(envelope: Envelope)
      modifies `nextMessageId, `bufferedOutgoing, `writer
      ensures View() == Run(old(View()), Acknowledged(envelope))
    {
      ghost var before := View();
      if envelope.respondingTo == None {
        var _ := WriteBufferedEnvelope(Some(envelope.id), Ack);
        OneAction(before, SendBuffered(Some(envelope.id), Ack));
      }
    }

    /** The same, seen as one more envelope of a conversation. */
    method HandleNext(envelope: Envelope, ghost sent: Client, ghost seen: seq<Envelope>, ghost worktree: nat)
      requires View() == Acted(Heard(sent, seen, worktree, Requesting), Read(envelope))
      requires nextWorktreeId == worktree + AllocatedIn(seen, Requesting)
      modifies `nextMessageId, `nextWorktreeId, `bufferedOutgoing, `writer
      ensures View() == Heard(sent, seen + [envelope], worktree, Requesting)
      ensures nextWorktreeId == worktree + AllocatedIn(seen + [envelope], Requesting)
    {
      hide Heard, Run, Acted, Answer, AllocatedIn;
      HeardOneMore(sent, seen, envelope, worktree, Requesting);
      HandleUnsolicited(envelope);
    }

    /** Send a request and answer whatever arrives until its response does; the stream may end first. */
    method Request(payload: Payload) returns (response: Option<Envelope>, ghost seen: seq<Envelope>)
      requires Valid()
      modifies `nextMessageId, `nextWorktreeId, `maxReceived, `bufferedOutgoing, `writer, `reader, `talk
      ensures Valid() && talk == old(talk) + [Asked(payload, seen, response)]
      ensures old(writer) + [Envelope(old(nextMessageId), None, Some(old(maxReceived)), payload)] <= writer
      ensures response.Some? ==> response.value.respondingTo == Some(old(nextMessageId))
      ensures NoneAnswers(seen, old(nextMessageId))
      ensures old(reader) == seen + Listed(response) + reader && (response == None ==> reader == [])
      ensures var talked := Conversation(old(View()), payload, seen, old(nextWorktreeId), Requesting);
              View() == if response.Some? then Acted(talked, Read(response.value)) else talked
    {
      hide Heard, Next, Run, Acted, Answer, AllocatedIn, Reached;
      seen := [];
      ghost var before := View();
      var messageId := WriteBufferedEnvelope(None, payload);
      ghost var sent, worktree, all := View(), nextWorktreeId, reader;
      NothingHeard(sent, worktree, Requesting);
      while reader != []
        invariant SplitAt(all, seen, reader)
        invariant talk == old(talk) && View() == Heard(sent, seen, worktree, Requesting)
        invariant nextWorktreeId == worktree + AllocatedIn(seen, Requesting)
        invariant NoneAnswers(seen, messageId)
        decreases |reader|
      {
        OneRead(all, seen, reader);
        var envelope := ReadEnvelope();
        if envelope.respondingTo == Some(messageId) {
          StartSent(before, payload, seen, worktree, Requesting);
          Note(Asked(payload, seen, Some(envelope)));
          return Some(envelope), seen;
        }
        HandleNext(envelope, sent, seen, worktree);
        seen := seen + [envelope];
      }
      StartSent(before, payload, seen, worktree, Requesting);
      Note(Asked(payload, seen, None));
      return None, seen;
    }

    /** One envelope read while the connection is set up; true if it is the peer's announcement. */
    method AnswerInitial(envelope: Envelope, ghost sent: Client, ghost seen: seq<Envelope>, ghost worktree: nat)
      returns (started: bool)
      requires View() == Acted(Heard(sent, seen, worktree, Initializing), Read(envelope))
      requires nextWorktreeId == worktree + AllocatedIn(seen, Initializing)
      modifies `nextMessageId, `nextWorktreeId, `bufferedOutgoing, `writer
      ensures started <==> envelope.payload == RemoteStarted
      ensures View() == Heard(sent, seen + [envelope], worktree, Initializing)
      ensures nextWorktreeId == worktree + AllocatedIn(seen + [envelope], Initializing)
    {
      hide Heard, Next, Run, Acted, Answer, AllocatedIn;
      HeardOneMore(sent, seen, envelope, worktree, Initializing);
      NextInitial(Heard(sent, seen, worktree, Initializing), envelope, nextWorktreeId);
      started := envelope.payload == RemoteStarted;
      if started {
        var _ := WriteUnbufferedEnvelope(Some(envelope.id), Ack);
      } else if envelope.payload != Ack {
        HandleUnsolicited(envelope);
      }
    }

    /** Announce the client and answer whatever arrives until the peer announces itself. */
    method Initialize() returns (started: bool, ghost seen: seq<Envelope>)
      requires Valid()
      modifies `nextMessageId, `nextWorktreeId, `maxReceived, `bufferedOutgoing, `writer, `reader, `talk
      ensures Valid() && talk == old(talk) + [Greeted(seen)]
      ensures old(writer) + [Envelope(old(nextMessageId), None, Some(old(maxReceived)), RemoteStarted)] <= writer
      ensures old(reader) == seen + reader && (!started ==> reader == [])
      ensures started <==> seen != [] && seen[|seen| - 1].payload == RemoteStarted
      ensures View() == Conversation(old(View()), RemoteStarted, seen, old(nextWorktreeId), Initializing)
    {
      hide Heard, Next, Run, Acted, Answer, AllocatedIn, Reached;
      seen := [];
      ghost var before := View();
      var _ := WriteBufferedEnvelope(None, RemoteStarted);
      ghost var sent, worktree, all := View(), nextWorktreeId, reader;
      NothingHeard(sent, worktree, Initializing);
      while reader != []
        invariant SplitAt(all, seen, reader)
        invariant talk == old(talk) && View() == Heard(sent, seen, worktree, Initializing)
        invariant nextWorktreeId == worktree + AllocatedIn(seen, Initializing)
        invariant seen != [] ==> seen[|seen| - 1].payload != RemoteStarted
        decreases |reader|
      {
        OneRead(all, seen, reader);
        var envelope := ReadEnvelope();
        started := AnswerInitial(envelope, sent, seen, worktree);
        seen := seen + [envelope];
        if started {
          GreetingSent(before, seen, worktree);
          Note(Greeted(seen));
          return true, seen;
        }
      }
      GreetingSent(before, seen, worktree);
      Note(Greeted(seen));
      return false, seen;
    }

    /** One envelope read while buffer `bufferId` streams: taken in if it is a piece, and answered. */
    method TakeStreamed(envelope: Envelope, bufferId: nat, state: Option<(Text, Clock)>, operations: seq<Operation>,
        ghost pieces: seq<Variant>, ghost worktree: nat)
      returns (state': Option<(Text, Clock)>, operations': seq<Operation>, result: Option<Streamed>)
      requires state == StateIn(pieces) && operations == OperationsIn(pieces)
      modifies `nextMessageId, `bufferedOutgoing, `writer
      ensures var all := pieces + if IsPiece(envelope, bufferId) then [envelope.payload.variant] else [];
              state' == StateIn(all) && operations' == OperationsIn(all) && result == EndedBy(envelope, bufferId, all)
      ensures View() == if result.Some? && !result.value.Opened? then old(View())
                        else Run(old(View()), Answer(envelope, worktree, Streaming))
    {
      state', operations', result := state, operations, None;
      assert pieces + [] == pieces;
      match envelope.payload {
        case CreateBufferForPeer(project, peer, variant) =>
          if project != REMOTE_SERVER_PROJECT_ID || peer != Some(REMOTE_SERVER_PEER_ID) {
            return;
          }
          state', operations', result := TakePiece(variant, bufferId, state, operations, pieces);
          if result.None? || result.value.Opened? {
            OneAction(View(), SendBuffered(Some(envelope.id), Ack));
            var _ := WriteBufferedEnvelope(Some(envelope.id), Ack);
          }
        case Error(_) =>
          result := Some(PeerError);
        case _ =>
          AckIfNeeded(envelope);
      }
    }

    /** The same, seen as one more envelope of the stream. */
    method TakeNext(envelope: Envelope, bufferId: nat, state: Option<(Text, Clock)>, operations: seq<Operation>,
        ghost before: Client, ghost seen: seq<Envelope>, ghost worktree: nat)
      returns (state': Option<(Text, Clock)>, operations': seq<Operation>, result: Option<Streamed>)
      requires View() == Acted(Heard(before, seen, worktree, Streaming), Read(envelope))
      requires Outcome(seen, bufferId) == None && Gathered(seen, bufferId, state, operations)
      modifies `nextMessageId, `bufferedOutgoing, `writer
      ensures var all := seen + [envelope];
              && result == Outcome(all, bufferId) && Gathered(all, bufferId, state', operations')
              && View() == StreamHeard(before, all, worktree, result)
              && all[..|all| - 1] == seen && (result == None ==> View() == Heard(before, all, worktree, Streaming))
    {
      HeardOneMore(before, seen, envelope, worktree, Streaming);
      PiecesOneMore(seen, envelope, bufferId);
      assert (seen + [envelope])[..|seen|] == seen;
      state', operations', result :=
        TakeStreamed(envelope, bufferId, state, operations, Pieces(seen, bufferId), worktree);
    }

    /** Wait for the pieces of a buffer. They are acknowledged one by one, except one that ends the wait with
        an error; so is everything else that is not a response, a flush included. */
    method ReceiveBuffer(bufferId: nat) returns (result: Option<Streamed>, ghost seen: seq<Envelope>)
      modifies `nextMessageId, `maxReceived, `bufferedOutgoing, `writer, `reader
      ensures old(reader) == seen + reader && (result == None ==> reader == [])
      ensures result == Outcome(seen, bufferId)
      ensures result.Some? ==> seen != [] && Outcome(seen[..|seen| - 1], bufferId) == None
      ensures View() == StreamHeard(old(View()), seen, nextWorktreeId, result)
    {
      hide Heard, Next, Run, Acted, Answer, AllocatedIn;
      ghost var before, worktree, all := View(), nextWorktreeId, reader;
      NothingHeard(before, worktree, Streaming);
      var state: Option<(Text, Clock)> := None;
      var operations := [];
      seen := [];
      while reader != []
        invariant SplitAt(all, seen, reader)
        invariant View() == Heard(before, seen, worktree, Streaming)
        invariant Outcome(seen, bufferId) == None
        invariant Gathered(seen, bufferId, state, operations)
        decreases |reader|
      {
        OneRead(all, seen, reader);
        var envelope := ReadEnvelope();
        state, operations, result := TakeNext(envelope, bufferId, state, operations, before, seen, worktree);
        seen := seen + [envelope];
        if result.Some? {
          return result, seen;
        }
      }
      return None, seen;
    }

    /** A buffer whose id is known: returned as it is if it is cached, else read from the stream and cached. */
    method BufferFor(id: nat, path: Path) returns (result: Option<Streamed>, ghost streamed: seq<Envelope>)
      requires Valid()
      modifies `nextMessageId, `maxReceived, `bufferedOutgoing, `writer, `reader, `openedBuffers, `talk
      ensures Valid() && talk == old(talk) + [Waited(streamed, result)]
      ensures old(reader) == streamed + reader && View() == StreamHeard(old(View()), streamed, nextWorktreeId, result)
      ensures id in old(openedBuffers) ==>
                && streamed == [] && openedBuffers == old(openedBuffers)
                && result == Some(Opened(openedBuffers[id].baseText, openedBuffers[id].savedVersion))
      ensures id !in old(openedBuffers) ==>
                result == Outcome(streamed, id) && openedBuffers == Cached(old(openedBuffers), id, path, result)
      ensures forall text, version | id !in old(openedBuffers) && result == Some(Opened(text, version)) ::
                openedBuffers == old(openedBuffers)[id := OpenedBuffer(id, path, text, version)]
      ensures !(result.Some? && result.value.Opened?) ==> openedBuffers == old(openedBuffers)
    {
      hide Heard, Next, Run, Acted, Answer, AllocatedIn, Reached, Outcome;
      if id in openedBuffers {
        NothingHeard(View(), nextWorktreeId, Streaming);
        Note(Waited([], Some(Opened(openedBuffers[id].baseText, openedBuffers[id].savedVersion))));
        return Some(Opened(openedBuffers[id].baseText, openedBuffers[id].savedVersion)), [];
      }
      result, streamed := ReceiveBuffer(id);
      Note(Waited(streamed, result));
      match result {
        case Some(Opened(text, version)) =>
          openedBuffers := openedBuffers[id := OpenedBuffer(id, path, text, version)];
        case _ =>
      }
    }

    /** Ask for a buffer by its path. */
    method OpenBufferByPath(path: Path)
      returns (result: Option<Streamed>, response: Option<Envelope>, ghost asked: seq<Envelope>,
        ghost streamed: seq<Envelope>)
      requires Valid()
      modifies this
      ensures Valid() && talk == old(talk) + [Asked(Payload.OpenBufferByPath(path), asked, response)] +
                                 if BufferIdOf(response).Some? then [Waited(streamed, result)] else []
      ensures old(reader) == asked + Listed(response) + streamed + reader
      ensures response.Some? ==> response.value.respondingTo == Some(old(nextMessageId))
      ensures var talked :=
                Conversation(old(View()), Payload.OpenBufferByPath(path), asked, old(nextWorktreeId), Requesting);
              View() == if response == None then talked
                        else StreamHeard(Acted(talked, Read(response.value)), streamed, nextWorktreeId, result)
      ensures BufferIdOf(response) == None ==>
                openedBuffers == old(openedBuffers) && streamed == [] && (response.Some? ==> result == Some(PeerError))
      ensures BufferIdOf(response).Some? ==>
                var id := BufferIdOf(response).value;
                && (id in old(openedBuffers) ==>
                     && streamed == [] && openedBuffers == old(openedBuffers)
                     && result == Some(Opened(openedBuffers[id].baseText, openedBuffers[id].savedVersion)))
                && (id !in old(openedBuffers) ==>
                     result == Outcome(streamed, id) && openedBuffers == Cached(old(openedBuffers), id, path, result))
    {
      hide Heard, Next, Run, Acted, Answer, AllocatedIn, Reached, Outcome;
      response, asked := Request(Payload.OpenBufferByPath(path));
      result, streamed := None, [];
      if response == None {
        return;
      }
      if response.value.payload.OpenBufferResponse? {
        result, streamed := BufferFor(response.value.payload.bufferId, path);
      } else {
        result := Some(PeerError);
        NothingHeard(View(), nextWorktreeId, Streaming);
      }
    }
  }

  /** The id in an answer that names one. */
  function BufferIdOf(response: Option<Envelope>): Option<nat> {
    if response.Some? && response.value.payload.OpenBufferResponse? then Some(response.value.payload.bufferId) else None
  }

  function Cached(cache: map<nat, OpenedBuffer>, id: nat, path: Path, result: Option<Streamed>)
      : map<nat, OpenedBuffer> {
    match result
    case Some(Opened(text, version)) => cache[id := OpenedBuffer(id, path, text, version)]
    case _ => cache
  }

  /** What is left of a queue once acknowledged envelopes, and no others, are gone from its front. */
  predicate RetiredUpTo(queue: seq<Envelope>, rest: seq<Envelope>, ack: nat) {
    && |rest| <= |queue| && rest == queue[|queue| - |rest|..]
    && (forall n | 0 <= n < |queue| - |rest| :: queue[n].id <= ack)
    && (rest != [] ==> rest[0].id > ack)
  }

  lemma {:induction false} PoppedRetires(queue: seq<Envelope>, ack: nat)
    ensures RetiredUpTo(queue, Popped(queue, ack), ack)
  {
    if queue != [] && queue[0].id <= ack {
      PoppedRetires(queue[1..], ack);
      assert forall n | 0 < n < |queue| :: queue[n] == queue[1..][n - 1];
    }
  }

  predicate NoneAnswers(seen: seq<Envelope>, id: nat) {
    forall n | 0 <= n < |seen| :: seen[n].respondingTo != Some(id)
  }

  /** What was to be read, as what has been and what still is. */
  predicate SplitAt(all: seq<Envelope>, seen: seq<Envelope>, reader: seq<Envelope>) {
    all == seen + reader
  }

  lemma {:induction false} OneRead(all: seq<Envelope>, seen: seq<Envelope>, reader: seq<Envelope>)
    requires SplitAt(all, seen, reader) && reader != []
    ensures SplitAt(all, seen + [reader[0]], reader[1..])
  {
    assert reader == [reader[0]] + reader[1..];
  }

  function Listed(e: Option<Envelope>): seq<Envelope> {
    match e
    case None => []
    case Some(envelope) => [envelope]
  }

  /** The state and operations held are those of the pieces seen. */
  predicate Gathered(seen: seq<Envelope>, id: nat, state: Option<(Text, Clock)>, operations: seq<Operation>) {
    state == StateIn(Pieces(seen, id)) && operations == OperationsIn(Pieces(seen, id))
  }
}
