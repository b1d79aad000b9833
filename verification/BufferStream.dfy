/** How the client reacts to what it reads, loop by loop, and what the loop that waits for a buffer's chunks
    makes of them. */
module BufferStreams {
  import opened Unicode
  import opened Edits
  import opened Delivery
  import opened Replays
  import opened ProxySessions

  const REMOTE_SERVER_PROJECT_ID: nat := 0
  const REMOTE_SERVER_PEER_ID: (nat, nat) := (0, 0)

  // ---- Reactions ----

  /** The three loops that read envelopes: until the peer announces itself, until a request is answered,
      and until a buffer has been streamed. */
  datatype Loop = Initializing | Requesting | Streaming

  function Acknowledged(e: Envelope): seq<Action> {
    if e.respondingTo == None then [SendBuffered(Some(e.id), Ack)] else []
  }

  /** How an envelope nobody waits for is answered. */
  function Reaction(e: Envelope, nextWorktreeId: nat): seq<Action> {
    match e.payload
    case AllocateWorktreeId => [SendBuffered(Some(e.id), AllocateWorktreeIdResponse(nextWorktreeId))]
    case Ping => [SendBuffered(Some(e.id), Ack)]
    case FlushBufferedMessages => [Replay, SendUnbuffered(Some(e.id), Ack)]
    case _ => Acknowledged(e)
  }

  predicate FromRemoteServer(e: Envelope) {
    && e.payload.CreateBufferForPeer?
    && e.payload.project == REMOTE_SERVER_PROJECT_ID && e.payload.peer == Some(REMOTE_SERVER_PEER_ID)
  }

  function Answer(e: Envelope, nextWorktreeId: nat, loop: Loop): seq<Action> {
    match loop
    case Initializing =>
      (match e.payload
       case Ack => []
       case RemoteStarted => [SendUnbuffered(Some(e.id), Ack)]
       case _ => Reaction(e, nextWorktreeId))
    case Requesting => Reaction(e, nextWorktreeId)
    case Streaming =>
      (match e.payload
       case CreateBufferForPeer(_, _, _) => if FromRemoteServer(e) then [SendBuffered(Some(e.id), Ack)] else []
       case Error(_) => []
       case _ => Acknowledged(e))
  }

  function Allocated(e: Envelope, loop: Loop): nat {
    if e.payload.AllocateWorktreeId? && loop != Streaming then 1 else 0
  }

  function AllocatedIn(seen: seq<Envelope>, loop: Loop): nat {
    if seen == [] then 0 else AllocatedIn(seen[..|seen| - 1], loop) + Allocated(seen[|seen| - 1], loop)
  }

  /** The client after it has read `e` and answered it. */
  function Next(c: Client, e: Envelope, nextWorktreeId: nat, loop: Loop): Client {
    Run(Acted(c, Read(e)), Answer(e, nextWorktreeId, loop))
  }

  /** The client after it has read and answered `seen`, each envelope before the next. */
  function Heard(c: Client, seen: seq<Envelope>, nextWorktreeId: nat, loop: Loop): Client {
    if seen == [] then c
    else
      var init, e := seen[..|seen| - 1], seen[|seen| - 1];
      Next(Heard(c, init, nextWorktreeId, loop), e, nextWorktreeId + AllocatedIn(init, loop), loop)
  }

  lemma {:induction false} HeardOneMore(c: Client, seen: seq<Envelope>, e: Envelope, nextWorktreeId: nat, loop: Loop)
    ensures Heard(c, seen + [e], nextWorktreeId, loop) ==
            Next(Heard(c, seen, nextWorktreeId, loop), e, nextWorktreeId + AllocatedIn(seen, loop), loop)
    ensures AllocatedIn(seen + [e], loop) == AllocatedIn(seen, loop) + Allocated(e, loop)
  {
    var all := seen + [e];
    assert all[..|all| - 1] == seen && all[|all| - 1] == e;
  }

  /** The answers while the connection is set up, in terms of those after. */
  lemma {:induction false} NextInitial(c: Client, e: Envelope, nextWorktreeId: nat)
    ensures var heard := Acted(c, Read(e));
            Next(c, e, nextWorktreeId, Initializing) ==
            if e.payload == Ack then heard
            else if e.payload == RemoteStarted then Acted(heard, SendUnbuffered(Some(e.id), Ack))
            else Run(heard, Answer(e, nextWorktreeId, Requesting))
    ensures Allocated(e, Initializing) == Allocated(e, Requesting)
  {
    if e.payload == RemoteStarted { OneAction(Acted(c, Read(e)), SendUnbuffered(Some(e.id), Ack)); }
  }

  lemma {:induction false} OneAction(c: Client, a: Action)
    ensures Run(c, [a]) == Acted(c, a)
  {
    assert [a][..0] == [] && Run(c, []) == c;
  }

  lemma {:induction false} TwoActions(c: Client, a: Action, b: Action)
    ensures Run(c, [a, b]) == Acted(Acted(c, a), b)
  {
    assert [a, b][..1] == [a];
    OneAction(c, a);
  }

  // ---- What is answered ----

  /** From `h` to `c` exactly one envelope was sent, through the queue. */
  predicate SentOne(h: Client, c: Client, respondingTo: Option<nat>, payload: Payload) {
    var m := Envelope(h.nextMessageId, respondingTo, Some(h.maxReceived), payload);
    c == Client(h.nextMessageId + 1, h.maxReceived, h.queue + [m], h.wire + [m])
  }

  /** The same past the queue. */
  predicate SentUnqueued(h: Client, c: Client, respondingTo: Option<nat>, payload: Payload) {
    var m := Envelope(h.nextMessageId, respondingTo, Some(h.maxReceived), payload);
    c == Client(h.nextMessageId + 1, h.maxReceived, h.queue, h.wire + [m])
  }

  /** One acknowledgement through the queue if the envelope responds to nothing, else nothing at all. */
  predicate AckedIfUnasked(h: Client, c: Client, e: Envelope) {
    if e.respondingTo == None then SentOne(h, c, Some(e.id), Ack) else c == h
  }

  /** In every state, with `e` just read: a ping is acknowledged whatever it responds to, a request for a
      worktree id gets the next id, and everything else that nobody waits for is acknowledged if it responds
      to nothing. */
  lemma {:induction false} AnsweredExactly(h: Client, e: Envelope, nextWorktreeId: nat)
    ensures var c := Run(h, Answer(e, nextWorktreeId, Requesting));
            match e.payload
            case Ping => SentOne(h, c, Some(e.id), Ack)
            case AllocateWorktreeId => SentOne(h, c, Some(e.id), AllocateWorktreeIdResponse(nextWorktreeId))
            case FlushBufferedMessages =>
              SentUnqueued(h.(wire := h.wire + h.queue), c, Some(e.id), Ack)
            case _ => AckedIfUnasked(h, c, e)
    ensures Allocated(e, Requesting) == if e.payload == AllocateWorktreeId then 1 else 0
  {
    OneAction(h, SendBuffered(Some(e.id), Ack));
    OneAction(h, SendBuffered(Some(e.id), AllocateWorktreeIdResponse(nextWorktreeId)));
    TwoActions(h, Replay, SendUnbuffered(Some(e.id), Ack));
    assert Run(h, []) == h;
  }

  /** While the connection is set up the same holds, except that acknowledgements are not answered and the
      peer's announcement is acknowledged past the queue. */
  lemma {:induction false} AnsweredWhileGreeting(h: Client, e: Envelope, nextWorktreeId: nat)
    ensures var c := Run(h, Answer(e, nextWorktreeId, Initializing));
            match e.payload
            case Ack => c == h
            case RemoteStarted => SentUnqueued(h, c, Some(e.id), Ack)
            case _ => c == Run(h, Answer(e, nextWorktreeId, Requesting))
    ensures Allocated(e, Initializing) == Allocated(e, Requesting)
  {
    OneAction(h, SendUnbuffered(Some(e.id), Ack));
    assert Run(h, []) == h;
  }

  /** While a buffer streams: the remote server's pieces are acknowledged whatever they respond to, those of
      anyone else and errors are not, and the rest is if it responds to nothing. No worktree id is given out. */
  lemma {:induction false} AnsweredWhileStreaming(h: Client, e: Envelope, nextWorktreeId: nat)
    ensures var c := Run(h, Answer(e, nextWorktreeId, Streaming));
            match e.payload
            case CreateBufferForPeer(project, peer, _) =>
              if project == 0 && peer == Some((0, 0)) then SentOne(h, c, Some(e.id), Ack) else c == h
            case Error(_) => c == h
            case _ => AckedIfUnasked(h, c, e)
    ensures Allocated(e, Streaming) == 0
  {
    OneAction(h, SendBuffered(Some(e.id), Ack));
    assert Run(h, []) == h;
  }

  // ---- Flushes ----

  /** A flush makes the client resend its queue, as it is and in order, exactly when it is read outside the
      loop that waits for a buffer's chunks. There it is acknowledged through the queue, or not at all;
      elsewhere the acknowledgement stays outside the queue. */
  lemma {:induction false} FlushResentExactly(c: Client, e: Envelope, nextWorktreeId: nat, loop: Loop)
    requires e.payload == FlushBufferedMessages
    ensures Replay in Answer(e, nextWorktreeId, loop) <==> loop != Streaming
    ensures var c' := Run(c, Answer(e, nextWorktreeId, loop));
            var ack := Envelope(c.nextMessageId, Some(e.id), Some(c.maxReceived), Ack);
            if loop != Streaming then c'.queue == c.queue && c'.wire == c.wire + c.queue + [ack]
            else if e.respondingTo == None then c'.queue == c.queue + [ack] && c'.wire == c.wire + [ack]
            else c' == c
  {
    if loop != Streaming {
      TwoActions(c, Replay, SendUnbuffered(Some(e.id), Ack));
    } else if e.respondingTo == None {
      OneAction(c, SendBuffered(Some(e.id), Ack));
    }
  }

  /** Everything on the wire since `c` is a new acknowledgement. */
  predicate OnlyNewAcks(c: Client, c': Client) {
    && c.wire <= c'.wire && c.nextMessageId <= c'.nextMessageId
    && forall k | |c.wire| <= k < |c'.wire| :: c'.wire[k].payload == Ack && c'.wire[k].id >= c.nextMessageId
  }

  /** So whatever is read while a buffer streams, however many flushes among it, no queued envelope is ever
      sent again. */
  lemma {:induction false} NothingResentWhileStreaming(c: Client, seen: seq<Envelope>, nextWorktreeId: nat)
    ensures OnlyNewAcks(c, Heard(c, seen, nextWorktreeId, Streaming))
  {
    if seen != [] {
      var init, e := seen[..|seen| - 1], seen[|seen| - 1];
      NothingResentWhileStreaming(c, init, nextWorktreeId);
      OneMoreAck(c, Heard(c, init, nextWorktreeId, Streaming), e, nextWorktreeId + AllocatedIn(init, Streaming));
    }
  }

  lemma {:induction false} OneMoreAck(c: Client, c': Client, e: Envelope, nextWorktreeId: nat)
    requires OnlyNewAcks(c, c')
    ensures OnlyNewAcks(c, Next(c', e, nextWorktreeId, Streaming))
  {
    if Answer(e, nextWorktreeId, Streaming) != [] {
      OneAction(Acted(c', Read(e)), SendBuffered(Some(e.id), Ack));
    }
  }

  // ---- What the chunks come to ----

  datatype Streamed =
    | Opened(text: Text, version: Clock)
    | PeerError
    | ChunkBeforeState
    | BadOperations(error: ReplayError)

  /** Whether `e` carries a piece of buffer `id`. */
  predicate IsPiece(e: Envelope, id: nat) {
    FromRemoteServer(e) && BelongsTo(e.payload.variant, id)
  }

  predicate BelongsTo(piece: Variant, id: nat) {
    match piece
    case NoVariant => false
    case BufferState(b, _, _) => b == id
    case BufferChunk(b, _, _) => b == id
  }

  /** The pieces of buffer `id`, in the order they came. */
  function Pieces(seen: seq<Envelope>, id: nat): seq<Variant> {
    if seen == [] then []
    else
      var e := seen[|seen| - 1];
      Pieces(seen[..|seen| - 1], id) + if IsPiece(e, id) then [e.payload.variant] else []
  }

  /** The text and version of the last state among the pieces. */
  function StateIn(pieces: seq<Variant>): Option<(Text, Clock)> {
    if pieces == [] then None
    else
      match pieces[|pieces| - 1]
      case BufferState(_, text, version) => Some((text, version))
      case _ => StateIn(pieces[..|pieces| - 1])
  }

  function OperationsIn(pieces: seq<Variant>): seq<Operation> {
    if pieces == [] then []
    else
      OperationsIn(pieces[..|pieces| - 1]) +
      match pieces[|pieces| - 1]
      case BufferChunk(_, operations, _) => operations
      case _ => []
  }

  /** What the last chunk makes of the pieces up to it: the operations are applied to the text, but the
      version stays that of the state. */
  function Assembled(pieces: seq<Variant>): Streamed {
    match StateIn(pieces)
    case None => ChunkBeforeState
    case Some((text, version)) =>
      match ApplyAll(text, OperationsIn(pieces))
      case Ok(content) => Opened(content, version)
      case Err(error) => BadOperations(error)
  }

  predicate IsLastChunk(e: Envelope, id: nat) {
    IsPiece(e, id) && IsLast(e.payload.variant)
  }

  predicate IsLast(piece: Variant) {
    piece.BufferChunk? && piece.isLast
  }

  /** Take in one piece, with the last one assembling what has come. */
  method TakePiece(variant: Variant, id: nat, state: Option<(Text, Clock)>, operations: seq<Operation>,
      ghost pieces: seq<Variant>)
    returns (state': Option<(Text, Clock)>, operations': seq<Operation>, ended: Option<Streamed>)
    requires state == StateIn(pieces) && operations == OperationsIn(pieces)
    ensures var all := pieces + if BelongsTo(variant, id) then [variant] else [];
            && state' == StateIn(all) && operations' == OperationsIn(all)
            && ended == if BelongsTo(variant, id) && IsLast(variant) then Some(Assembled(all)) else None
  {
    state', operations', ended := state, operations, None;
    StateOneMore(pieces, variant);
    assert pieces + [] == pieces;
    match variant {
      case BufferState(b, text, version) =>
        if b == id { state' := Some((text, version)); }
      case BufferChunk(b, more, isLast) =>
        if b == id {
          operations' := operations + more;
          if isLast && state == None {
            ended := Some(ChunkBeforeState);
          } else if isLast {
            var content := ApplyOperations(state.value.0, operations');
            ended := Some(if content.Ok? then Opened(content.value, state.value.1) else BadOperations(content.error));
          }
        }
      case NoVariant =>
    }
  }

  /** How the wait ends: with the first error or last chunk, if there is one. */
  function Outcome(seen: seq<Envelope>, id: nat): Option<Streamed> {
    if seen == [] then None
    else
      var init, e := seen[..|seen| - 1], seen[|seen| - 1];
      if Outcome(init, id).Some? then Outcome(init, id) else EndedBy(e, id, Pieces(seen, id))
  }

  function EndedBy(e: Envelope, id: nat, pieces: seq<Variant>): Option<Streamed> {
    if e.payload.Error? then Some(PeerError)
    else if IsLastChunk(e, id) then Some(Assembled(pieces))
    else None
  }

  lemma {:induction false} PiecesOneMore(seen: seq<Envelope>, e: Envelope, id: nat)
    ensures Pieces(seen + [e], id) == Pieces(seen, id) + if IsPiece(e, id) then [e.payload.variant] else []
    ensures Outcome(seen, id) == None ==> Outcome(seen + [e], id) == EndedBy(e, id, Pieces(seen + [e], id))
  {
    assert (seen + [e])[..|seen|] == seen;
  }

  lemma {:induction false} StateOneMore(pieces: seq<Variant>, piece: Variant)
    ensures StateIn(pieces + [piece]) ==
            if piece.BufferState? then Some((piece.baseText, piece.savedVersion)) else StateIn(pieces)
    ensures OperationsIn(pieces + [piece]) == OperationsIn(pieces) + if piece.BufferChunk? then piece.operations else []
  {
    assert (pieces + [piece])[..|pieces|] == pieces;
  }

  /** A piece of buffer `id` is exactly a state or a chunk that the remote server sends of that buffer. */
  lemma {:induction false} PiecesExactly(seen: seq<Envelope>, e: Envelope, id: nat)
    ensures var ours := && e.payload.CreateBufferForPeer? && e.payload.project == 0 && e.payload.peer == Some((0, 0))
                        && ((e.payload.variant.BufferState? && e.payload.variant.id == id)
                            || (e.payload.variant.BufferChunk? && e.payload.variant.bufferId == id));
            Pieces(seen + [e], id) == if ours then Pieces(seen, id) + [e.payload.variant] else Pieces(seen, id)
  {
    PiecesOneMore(seen, e, id);
    assert Pieces(seen, id) + [] == Pieces(seen, id);
  }

  /** How a wait that has not ended goes on: an error ends it; so does the buffer's last chunk, with what its pieces
      come to, and without a state before it that is an error too; nothing else ends it, and once ended it
      stays so. */
  lemma {:induction false} WaitExactly(seen: seq<Envelope>, e: Envelope, id: nat)
    ensures Outcome([], id) == None
    ensures Outcome(seen, id).Some? ==> Outcome(seen + [e], id) == Outcome(seen, id)
    ensures Outcome(seen, id) == None && e.payload.Error? ==> Outcome(seen + [e], id) == Some(PeerError)
    ensures Outcome(seen, id) == None && !e.payload.Error? ==>
              var ends := && e.payload.CreateBufferForPeer? && e.payload.project == 0 && e.payload.peer == Some((0, 0))
                          && e.payload.variant.BufferChunk? && e.payload.variant.bufferId == id
                          && e.payload.variant.isLast;
              var pieces := Pieces(seen + [e], id);
              && (!ends ==> Outcome(seen + [e], id) == None)
              && (ends && StateIn(pieces) == None ==> Outcome(seen + [e], id) == Some(ChunkBeforeState))
              && (ends && StateIn(pieces).Some? ==>
                    var (text, version) := StateIn(pieces).value;
                    Outcome(seen + [e], id) ==
                    match ApplyAll(text, OperationsIn(pieces))
                    case Ok(content) => Some(Opened(content, version))
                    case Err(error) => Some(BadOperations(error)))
  {
    PiecesOneMore(seen, e, id);
    assert (seen + [e])[..|seen|] == seen;
  }

  /** What the reference peer streams when a path is opened. */
  function PeerStream(id: nat, text: Text, version: Clock): seq<Variant> {
    [BufferState(id, text, version), BufferChunk(id, [], true)]
  }

  /** Opening through the stream is opening: whatever else arrives in between, once the pieces are those the
      peer sends for its answer, the wait ends with exactly the text and version that BufferOpened caches. */
  lemma {:induction false} StreamMatchesOpening(s: Session, reuse: bool, p: Path, seen: seq<Envelope>)
    requires Agrees(s) && p in s.peer.files
    requires var id := PeerOpened(s.peer, reuse, p).1;
             && id !in s.cache
             && Pieces(seen, id) == PeerStream(id, s.peer.files[p], ClockOf(s.peer, p))
             && seen != [] && IsLastChunk(seen[|seen| - 1], id) && Outcome(seen[..|seen| - 1], id) == None
    ensures reuse && p in s.peer.latest ==> s.peer.latest[p] in s.cache
    ensures var id, b := PeerOpened(s.peer, reuse, p).1, BufferOpened(s, reuse, p).1;
            Outcome(seen, id) == Some(Opened(b.baseText, b.savedVersion))
  {
    OpenAgrees(s, reuse, p);
    var id, text, version := PeerOpened(s.peer, reuse, p).1, s.peer.files[p], ClockOf(s.peer, p);
    var state, last := BufferState(id, text, version), BufferChunk(id, [], true);
    assert [] + [state] == [state] && [state] + [last] == PeerStream(id, text, version);
    StateOneMore([], state);
    StateOneMore([state], last);
    assert ApplyAll(text, []) == Ok(text);
  }

  /** With operations among the chunks, the text moves on and the version does not: the opened buffer then
      claims the version of another text exactly when the operations change the text. */
  lemma {:induction false} StreamedOperationsExactly(seen: seq<Envelope>, id: nat, text: Text, version: Clock)
    requires seen != [] && IsLastChunk(seen[|seen| - 1], id) && Outcome(seen[..|seen| - 1], id) == None
    requires StateIn(Pieces(seen, id)) == Some((text, version))
    ensures var operations := OperationsIn(Pieces(seen, id));
            (Outcome(seen, id) == Some(Opened(text, version)) <==> ApplyAll(text, operations) == Ok(text))
            && (forall u, v | Outcome(seen, id) == Some(Opened(u, v)) ::
              v == version && ApplyAll(text, operations) == Ok(u))
  {
    assert Outcome(seen, id) == Some(Assembled(Pieces(seen, id)));
  }

  /** Two waits that start from one state, one with operations and one without, end with one version; over
      two texts, if the operations change the text. */
  lemma {:induction false} EqualVersionsTwoTexts(
    seen: seq<Envelope>, id: nat, plain: seq<Envelope>, other: nat, text: Text, version: Clock)
    requires seen != [] && IsLastChunk(seen[|seen| - 1], id) && Outcome(seen[..|seen| - 1], id) == None
    requires plain != [] && IsLastChunk(plain[|plain| - 1], other) && Outcome(plain[..|plain| - 1], other) == None
    requires StateIn(Pieces(seen, id)) == Some((text, version)) == StateIn(Pieces(plain, other))
    requires ApplyAll(text, OperationsIn(Pieces(seen, id))).Ok? && OperationsIn(Pieces(plain, other)) == []
    ensures var u := ApplyAll(text, OperationsIn(Pieces(seen, id))).value;
            && Outcome(seen, id) == Some(Opened(u, version)) && Outcome(plain, other) == Some(Opened(text, version))
            && (Outcome(seen, id) != Outcome(plain, other) <==> u != text)
  {
    StreamedOperationsExactly(seen, id, text, version);
    assert ApplyAll(text, []) == Ok(text);
  }

  /** What the client then remembers agrees with the peer exactly when the operations leave the text as it
      is. */
  lemma {:induction false} StreamedDisagreesExactly(s: Session, reuse: bool, p: Path, seen: seq<Envelope>)
    requires Agrees(s) && p in s.peer.files && PeerOpened(s.peer, reuse, p).1 !in s.cache
    requires var id := PeerOpened(s.peer, reuse, p).1;
             && seen != [] && IsLastChunk(seen[|seen| - 1], id) && Outcome(seen[..|seen| - 1], id) == None
             && StateIn(Pieces(seen, id)) == Some((s.peer.files[p], ClockOf(s.peer, p)))
             && ApplyAll(s.peer.files[p], OperationsIn(Pieces(seen, id))).Ok?
    ensures var (peer, id) := PeerOpened(s.peer, reuse, p);
            var u := ApplyAll(s.peer.files[p], OperationsIn(Pieces(seen, id))).value;
            var remembered := Session(peer, s.cache[id := OpenedBuffer(id, p, u, ClockOf(s.peer, p))]);
            && Outcome(seen, id) == Some(Opened(u, ClockOf(s.peer, p)))
            && (Agrees(remembered) <==> u == s.peer.files[p])
  {
    var (peer, id) := PeerOpened(s.peer, reuse, p);
    var text, v := s.peer.files[p], ClockOf(s.peer, p);
    var u := ApplyAll(text, OperationsIn(Pieces(seen, id))).value;
    StreamedOperationsExactly(seen, id, text, v);
    OpenAgrees(s, reuse, p);
    var s' := Session(peer, s.cache[id := OpenedBuffer(id, p, u, v)]);
    if u == text {
      assert s' == BufferOpened(s, reuse, p).0;
    } else {
      assert !AgreesOn(s', p);
    }
  }
}
