/** Commands multiplexed over one websocket: the response stream of each handler, and the browser client
    that routes responses by identifier and settles each command once. From end to end: a buffer's text, its chunks,
    their way through the multiplexer, and the browser's copy. */
module Commands {
  import opened Unicode
  import opened Edits
  import opened WorkingCopies
  import opened PendingLog
  import opened StepEffects
  import opened Chunking

  datatype Response = Started | ChunkResponse(chunk: Chunk) | Complete(payload: nat) | Failed(reason: nat)

  /** A response addressed to a command; `id` is absent when the server could not read the command. */
  datatype Message = Message(id: Option<nat>, response: Response)

  // ---- The gateway's side: what one command is answered with ----

  predicate Terminal(r: Response) { r.Complete? || r.Failed? }

  /** At most one start, then chunks, and nothing after a completion or an error. */
  predicate StreamPrefix(s: seq<Response>) {
    && (forall i | 0 <= i < |s| - 1 :: !Terminal(s[i]))
    && (forall i | 0 < i < |s| :: s[i] != Started)
  }

  predicate WholeStream(s: seq<Response>) {
    StreamPrefix(s) && s != [] && Terminal(s[|s| - 1])
  }

  /** The commands, each with what the session comes to: a text or an error, a remote file and the transport
      it comes over, or a single answer. */
  datatype Command =
    | BufferOpen(initialBytes: nat, chunkBytes: nat, buffer: Result<(Text, nat), nat>)
    | FileOpen(initialBytes: nat, chunkBytes: nat, file: seq<Byte>, transport: Transport, summarize: (nat, bool) -> nat)
    | SingleAnswer(answer: Result<nat, nat>)
    | Unsupported

  const MAX_STREAMED_FILE_BYTES: nat := 512 * 1024

  /** The message of an error the session does not word. */
  const COMMAND_FAILED: nat := 0

  function Clamp(n: nat, low: nat, high: nat): (r: nat)
    requires low <= high
    ensures low <= r <= high && (low <= n <= high ==> r == n) && (n < low ==> r == low) && (n > high ==> r == high)
  {
    if n < low then low else if n > high then high else n
  }

  function ChunkResponses(chunks: seq<Chunk>): seq<Response> {
    seq(|chunks|, i requires 0 <= i < |chunks| => ChunkResponse(chunks[i]))
  }

  function ChunkLimit(n: nat): nat { Clamp(n, 1, MAX_STREAMED_FILE_BYTES) }

  /** Answer one command. `decoded` says whether its payload could be read. */
  method HandleCommand(command: Command, decoded: bool) returns (responses: seq<Response>)
    ensures WholeStream(responses)
    ensures command.BufferOpen? && decoded && command.buffer.Ok? ==>
              IsBufferStream(command.buffer.value.0, command.buffer.value.1, ChunkLimit(command.initialBytes),
                             ChunkLimit(command.chunkBytes), responses)
    ensures command.BufferOpen? && decoded && command.buffer.Err? ==>
            responses == [Started, Failed(command.buffer.error)]
    ensures command.FileOpen? && decoded ==> IsFileStream(command, responses)
    ensures command.SingleAnswer? && decoded ==>
              responses == [if command.answer.Ok? then Complete(command.answer.value) else Failed(command.answer.error)]
    ensures command.Unsupported? || !decoded ==> responses == [Failed(COMMAND_FAILED)]
  {
    if command.Unsupported? || !decoded {
      return [Failed(COMMAND_FAILED)];
    }
    match command {
      case BufferOpen(initialBytes, chunkBytes, buffer) =>
        responses := HandleBufferOpen(initialBytes, chunkBytes, buffer);
      case FileOpen(_, _, _, _, _) =>
        responses := HandleFileOpen(command);
      case SingleAnswer(answer) =>
        return [if answer.Ok? then Complete(answer.value) else Failed(answer.error)];
    }
  }

  method HandleBufferOpen(initialBytes: nat, chunkBytes: nat, buffer: Result<(Text, nat), nat>)
      returns (responses: seq<Response>)
    ensures WholeStream(responses)
    ensures buffer.Ok? ==>
              IsBufferStream(buffer.value.0, buffer.value.1, ChunkLimit(initialBytes), ChunkLimit(chunkBytes),
                responses)
    ensures buffer.Err? ==> responses == [Started, Failed(buffer.error)]
  {
    responses := [Started];
    if buffer.Err? {
      return responses + [Failed(buffer.error)];
    }
    var chunks, cuts := StreamBufferContent(buffer.value.0, ChunkLimit(initialBytes), ChunkLimit(chunkBytes));
    StreamIsWhole(chunks, Complete(buffer.value.1));
    return responses + ChunkResponses(chunks) + [Complete(buffer.value.1)];
  }

  method HandleFileOpen(command: Command) returns (responses: seq<Response>)
    requires command.FileOpen?
    ensures WholeStream(responses) && IsFileStream(command, responses)
  {
    var initialBytes, chunkBytes := ChunkLimit(command.initialBytes), ChunkLimit(command.chunkBytes);
    var chunks, summary := StreamFile(command.file, command.transport, initialBytes, chunkBytes,
      MAX_STREAMED_FILE_BYTES);
    var last := if summary.Some? then Complete(command.summarize(summary.value.0, summary.value.1))
      else Failed(COMMAND_FAILED);
    StreamIsWhole(chunks, last);
    return [Started] + ChunkResponses(chunks) + [last];
  }

  /** The chunks are those of the text, cut within the limits, and the completion carries `payload`. */
  ghost predicate IsBufferStream(t: Text, payload: nat, initialBytes: nat, chunkBytes: nat, responses: seq<Response>) {
    exists chunks, cuts ::
      && responses == Stream(chunks, Complete(payload))
      && ChunksOf(t, chunks, cuts, initialBytes, chunkBytes) && cuts[|chunks|] == |t|
  }

  /** A start, chunks and an ending. */
  function Stream(chunks: seq<Chunk>, last: Response): seq<Response> {
    [Started] + ChunkResponses(chunks) + [last]
  }

  /** The chunks make up a first part of the file; a completion says how much, and that is all of the file up
      to the size limit. Over a transport that does not fail there is a completion. */
  ghost predicate IsFileStream(command: Command, responses: seq<Response>)
    requires command.FileOpen?
  {
    var limit, file := MAX_STREAMED_FILE_BYTES, command.file;
    exists chunks, last ::
      && responses == Stream(chunks, last)
      && PrefixOf(file, chunks, |Joined(chunks)|, ChunkLimit(command.initialBytes), ChunkLimit(command.chunkBytes))
      && (IsReliable(command.transport) ==> last.Complete?)
      && (last.Complete? ==>
            && |Joined(chunks)| == Least(|file|, limit)
            && last.payload == command.summarize(Least(|file|, limit), |file| >= limit))
  }

  lemma {:induction false} StreamIsWhole(chunks: seq<Chunk>, last: Response)
    requires Terminal(last)
    ensures WholeStream(Stream(chunks, last))
  {
    var s := Stream(chunks, last);
    assert s[..|s| - 1] == [Started] + ChunkResponses(chunks);
  }

  /** A socket that closes meanwhile lets a first part through, which is still a stream so far. */
  lemma {:induction false} CutStream(s: seq<Response>, n: nat)
    requires StreamPrefix(s) && n <= |s|
    ensures StreamPrefix(s[..n]) && (n < |s| ==> forall r | r in s[..n] :: !Terminal(r))
  {
    assert forall i | 0 <= i < n :: s[..n][i] == s[i];
  }

  // ---- The browser's side ----

  datatype Settlement = Resolved(payload: nat) | Rejected

  /** `streaming` commands take starts and chunks themselves. `delivered` and `settled` record what each
      command's caller has been told. */
  datatype ClientState = ClientState(nextId: nat, pending: map<nat, bool>, delivered: map<nat, seq<Chunk>>,
      settled: map<nat, Settlement>)

  const INITIAL_STATE := ClientState(1, map[], map[], map[])

  datatype ClientEvent =
    | Send(streaming: bool)
    | Receive(message: Message)
    | ReceiveGarbage
    | TimeOut(id: nat)
    | Close

  function Settled(s: ClientState, id: nat, how: Settlement): ClientState {
    s.(pending := s.pending - {id}, settled := s.settled[id := how])
  }

  function RejectedAll(s: ClientState): ClientState {
    s.(pending := map[], settled := s.settled + map id | id in s.pending :: Rejected)
  }

  function Routed(s: ClientState, id: nat, r: Response): ClientState {
    if id !in s.pending then s
    else
      match r
      case Failed(_) => Settled(s, id, Rejected)
      case Complete(payload) => Settled(s, id, Resolved(payload))
      case Started => s
      case ChunkResponse(c) =>
        if s.pending[id] then s.(delivered := s.delivered[id := Delivered(s, id) + [c]]) else s
  }

  function Delivered(s: ClientState, id: nat): seq<Chunk> {
    if id in s.delivered then s.delivered[id] else []
  }

  function Stepped(s: ClientState, e: ClientEvent): ClientState {
    match e
    case Send(streaming) => s.(nextId := s.nextId + 1, pending := s.pending[s.nextId := streaming])
    case Receive(m) => if m.id.Some? then Routed(s, m.id.value, m.response) else s
    case ReceiveGarbage => RejectedAll(s)
    case TimeOut(id) => if id in s.pending then Settled(s, id, Rejected) else s
    case Close => RejectedAll(s)
  }

  function Run(events: seq<ClientEvent>): ClientState {
    if events == [] then INITIAL_STATE else Stepped(Run(events[..|events| - 1]), events[|events| - 1])
  }

  /** Identifiers are handed out upwards; a command is either waiting or settled, never both. */
  predicate ClientOk(s: ClientState) {
    && s.nextId >= 1
    && (forall id | id in s.pending :: 0 < id < s.nextId && id !in s.settled)
    && (forall id | id in s.settled :: 0 < id < s.nextId)
    && (forall id | id in s.delivered :: 0 < id < s.nextId)
    && (forall id | 0 < id < s.nextId :: id in s.pending || id in s.settled)
  }

  lemma {:induction false} RunOk(events: seq<ClientEvent>)
    ensures ClientOk(Run(events))
  {
    if events != [] {
      RunOk(events[..|events| - 1]);
    }
  }

  /** Once settled, a command stays settled the same way and is told nothing more; so it settles at most
      once. */
  lemma {:induction false} SettlesOnce(events: seq<ClientEvent>, e: ClientEvent, id: nat)
    requires id in Run(events).settled
    ensures var s, s' := Run(events), Stepped(Run(events), e);
            id in s'.settled && s'.settled[id] == s.settled[id] && Delivered(s', id) == Delivered(s, id)
              && id !in s'.pending
  {
    RunOk(events);
  }

  /** A timeout rejects a waiting command and touches no other; one that is no longer waited for is nothing. */
  lemma {:induction false} TimeOutRejects(events: seq<ClientEvent>, id: nat)
    ensures var s, s' := Run(events), Run(events + [TimeOut(id)]);
            && id !in s'.pending
            && (id in s.pending ==> id in s'.settled && s'.settled[id] == Rejected)
            && (id !in s.pending ==> s' == s)
            && forall other | other != id ::
                 && (other in s'.pending <==> other in s.pending)
                 && (other in s'.settled <==> other in s.settled)
                 && (other in s.settled ==> s'.settled[other] == s.settled[other])
  {
    assert (events + [TimeOut(id)])[..|events|] == events;
  }

  /** A message that cannot be read rejects everything that waits, as a close does. */
  lemma {:induction false} GarbageRejects(events: seq<ClientEvent>)
    ensures var s, s' := Run(events), Run(events + [ReceiveGarbage]);
            && s'.pending == map[] && (forall id | id in s.pending :: id in s'.settled && s'.settled[id] == Rejected)
            && forall id | id in s.settled :: id in s'.settled && s'.settled[id] == s.settled[id]
  {
    RunOk(events);
    assert (events + [ReceiveGarbage])[..|events|] == events;
  }

  lemma {:induction false} NothingPendingAfterClose(events: seq<ClientEvent>)
    ensures var s, s' := Run(events), Run(events + [Close]);
            && s'.pending == map[] && (forall id | id in s.pending :: id in s'.settled && s'.settled[id] == Rejected)
            && forall id | id in s.settled :: id in s'.settled && s'.settled[id] == s.settled[id]
  {
    RunOk(events);
    assert (events + [Close])[..|events|] == events;
  }

  // ---- Each command gets exactly its own stream ----

  /** The responses addressed to `id`, in order of arrival. */
  function Addressed(events: seq<ClientEvent>, id: nat): seq<Response> {
    if events == [] then []
    else
      var last := events[|events| - 1];
      Addressed(events[..|events| - 1], id) + if last.Receive? && last.message.id == Some(id) then
        [last.message.response] else []
  }

  function ChunksIn(s: seq<Response>): seq<Chunk> {
    if s == [] then []
    else ChunksIn(s[..|s| - 1]) + if s[|s| - 1].ChunkResponse? then [s[|s| - 1].chunk] else []
  }

  lemma {:induction false} ChunksInStream(chunks: seq<Chunk>, last: Response)
    requires !last.ChunkResponse?
    ensures ChunksIn(Stream(chunks, last)) == chunks
  {
    var s := [Started] + ChunkResponses(chunks);
    assert (s + [last])[..|s|] == s && ChunksIn(s + [last]) == ChunksIn(s) + [];
    ChunksAfterStart(chunks);
  }

  lemma {:induction false} ChunksAfterStart(chunks: seq<Chunk>)
    ensures ChunksIn([Started] + ChunkResponses(chunks)) == chunks
  {
    var s := [Started] + ChunkResponses(chunks);
    if chunks == [] {
      assert s == [Started] && s[..0] == [];
    } else {
      var init, c := chunks[..|chunks| - 1], chunks[|chunks| - 1];
      ChunksAfterStart(init);
      assert s[..|s| - 1] == [Started] + ChunkResponses(init);
      assert s[|s| - 1] == ChunkResponse(c);
    }
  }

  /** A socket that closes in the middle of a stream: the command is rejected, having been given the chunks of
      the part that came through, which are the first of all its chunks. */
  lemma {:induction false} CutStreamRejected(events: seq<ClientEvent>, id: nat, responses: seq<Response>, n: nat)
    requires WholeStream(responses) && n < |responses| && Addressed(events, id) == responses[..n]
    requires Undisturbed(events, id) && SentStreaming(events, id)
    ensures var s := Run(events + [Close]);
            && id in s.settled && s.settled[id] == Rejected && id !in s.pending
            && Delivered(s, id) == ChunksIn(responses[..n]) <= ChunksIn(responses)
  {
    CutStream(responses, n);
    StreamDelivered(events, id);
    assert Ending(responses[..n]) == None by {
      if n > 0 { assert !Terminal(responses[..n][n - 1]); }
    }
    assert (events + [Close])[..|events|] == events;
    ChunksOfPart(responses, n);
  }

  lemma {:induction false} ChunksOfPart(s: seq<Response>, n: nat)
    requires n <= |s|
    ensures ChunksIn(s[..n]) <= ChunksIn(s)
  {
    if n < |s| {
      ChunksOfPart(s[..|s| - 1], n);
      assert s[..|s| - 1][..n] == s[..n];
    } else {
      assert s[..n] == s;
    }
  }

  /** The socket stays up and readable, command `id` does not time out, and the server answers only
      commands it has been sent. */
  predicate Undisturbed(events: seq<ClientEvent>, id: nat) {
    events == [] ||
    var init, last := events[..|events| - 1], events[|events| - 1];
    && Undisturbed(init, id)
    && last != ReceiveGarbage && last != Close && last != TimeOut(id)
    && (last.Receive? && last.message.id == Some(id) ==> id < Run(init).nextId)
  }

  function Ending(s: seq<Response>): Option<Settlement> {
    if s == [] then None
    else
      match s[|s| - 1]
      case Complete(payload) => Some(Resolved(payload))
      case Failed(_) => Some(Rejected)
      case _ => None
  }

  /** Whether command `id` was sent as a streaming one. */
  function SentStreaming(events: seq<ClientEvent>, id: nat): bool {
    if events == [] then false
    else
      var init, last := events[..|events| - 1], events[|events| - 1];
      SentStreaming(init, id) || (last == Send(true) && Run(init).nextId == id)
  }

  /** For every interleaving of the streams of concurrent commands, of whatever kind: a command is settled
      exactly when its own stream has ended, and by that ending; till then it waits. A streaming command has
      been given exactly the chunks addressed to it, in order, any other none. */
  lemma {:induction false} CommandSettled(events: seq<ClientEvent>, id: nat)
    requires Undisturbed(events, id) && StreamPrefix(Addressed(events, id)) && 0 < id < Run(events).nextId
    ensures var s, stream := Run(events), Addressed(events, id);
            && (id in s.settled <==> Ending(stream).Some?) && (id in s.pending <==> Ending(stream) == None)
            && (id in s.settled ==> s.settled[id] == Ending(stream).value)
            && Delivered(s, id) == (if SentStreaming(events, id) then ChunksIn(stream) else [])
            && (id in s.pending ==> s.pending[id] == SentStreaming(events, id))
  {
    RunOk(events);
    CommandAnswered(events, id);
  }

  lemma {:induction false} CommandAnswered(events: seq<ClientEvent>, id: nat)
    requires Undisturbed(events, id) && StreamPrefix(Addressed(events, id)) && 0 < id < Run(events).nextId
    ensures AsAnswered(Run(events), id, Addressed(events, id), SentStreaming(events, id))
  {
    var init, last := events[..|events| - 1], events[|events| - 1];
    RunOk(init);
    if id < Run(init).nextId {
      PrefixOfStream(events, id);
      CommandAnswered(init, id);
      AddressedNext(events, id);
      OneMoreEvent(Run(init), last, id, Addressed(init, id), Addressed(events, id), SentStreaming(init, id));
    } else {
      NothingBefore(init, id);
      NotYetSent(init, id);
    }
  }

  /** The same for streaming commands alone. */
  lemma {:induction false} StreamDelivered(events: seq<ClientEvent>, id: nat)
    requires Undisturbed(events, id) && StreamPrefix(Addressed(events, id)) && SentStreaming(events, id)
    ensures AsStreamed(Run(events), id, Addressed(events, id))
  {
    StreamingWasSent(events, id);
    CommandAnswered(events, id);
  }

  lemma {:induction false} StreamingWasSent(events: seq<ClientEvent>, id: nat)
    requires SentStreaming(events, id)
    ensures 0 < id < Run(events).nextId
  {
    var init := events[..|events| - 1];
    RunOk(init);
    if SentStreaming(init, id) { StreamingWasSent(init, id); }
  }

  lemma {:induction false} NotYetSent(events: seq<ClientEvent>, id: nat)
    requires id >= Run(events).nextId
    ensures !SentStreaming(events, id)
  {
    if SentStreaming(events, id) { StreamingWasSent(events, id); }
  }

  /** The server answers only commands it has been sent. */
  predicate AnswersOnlySent(events: seq<ClientEvent>, id: nat) {
    events == [] ||
    var init, last := events[..|events| - 1], events[|events| - 1];
    AnswersOnlySent(init, id) && (last.Receive? && last.message.id == Some(id) ==> id < Run(init).nextId)
  }

  /** Whatever else happens, timeouts, garbage and a closed socket included: a command has been given a
      prefix of the chunks addressed to it, and all of them for as long as it waits for a stream. */
  lemma {:induction false} DeliveredIsPrefix(events: seq<ClientEvent>, id: nat)
    requires AnswersOnlySent(events, id)
    ensures var s, chunks := Run(events), ChunksIn(Addressed(events, id));
            && Delivered(s, id) <= chunks
            && (id in s.pending && s.pending[id] ==> Delivered(s, id) == chunks)
            && (id >= s.nextId ==> chunks == [] && id !in s.pending)
  {
    if events != [] {
      var init, last := events[..|events| - 1], events[|events| - 1];
      RunOk(init);
      DeliveredIsPrefix(init, id);
      AddressedNext(events, id);
      PrefixOneMore(Run(init), last, id, ChunksIn(Addressed(init, id)), ChunksIn(Addressed(events, id)));
    }
  }

  lemma {:induction false} PrefixOneMore(s: ClientState, e: ClientEvent, id: nat, before: seq<Chunk>, after: seq<Chunk>)
    requires ClientOk(s) && Delivered(s, id) <= before
    requires id in s.pending && s.pending[id] ==> Delivered(s, id) == before
    requires id >= s.nextId ==> before == []
    requires e.Receive? && e.message.id == Some(id) ==> id < s.nextId
    requires var r := if e.Receive? && e.message.id == Some(id) then Some(e.message.response) else None;
             after == before + if r.Some? && r.value.ChunkResponse? then [r.value.chunk] else []
    ensures var s' := Stepped(s, e);
            && Delivered(s', id) <= after
            && (id in s'.pending && s'.pending[id] ==> Delivered(s', id) == after)
            && (id >= s'.nextId ==> after == [] && id !in s'.pending)
  {}

  /** What a streaming command has been told and how it stands agrees with its stream. */
  predicate AsStreamed(s: ClientState, id: nat, stream: seq<Response>) {
    AsAnswered(s, id, stream, true)
  }

  predicate AsAnswered(s: ClientState, id: nat, stream: seq<Response>, streaming: bool) {
    && Delivered(s, id) == (if streaming then ChunksIn(stream) else [])
    && (if Ending(stream).Some? then id in s.settled && s.settled[id] == Ending(stream).value
        else id in s.pending && s.pending[id] == streaming)
  }

  lemma {:induction false} OneMoreEvent(s: ClientState, e: ClientEvent, id: nat, before: seq<Response>,
      after: seq<Response>, streaming: bool)
    requires ClientOk(s) && AsAnswered(s, id, before, streaming)
    requires e != ReceiveGarbage && e != Close && e != TimeOut(id)
    requires after == if e.Receive? && e.message.id == Some(id) then before + [e.message.response] else before
    requires after != before ==> Ending(before) == None
    ensures AsAnswered(Stepped(s, e), id, after, streaming)
  {
    if e.Receive? && e.message.id == Some(id) {
      OwnResponse(s, id, before, e.message.response, streaming);
    } else {
      OtherEvent(s, e, id);
    }
  }

  lemma {:induction false} OwnResponse(s: ClientState, id: nat, before: seq<Response>, r: Response, streaming: bool)
    requires ClientOk(s) && AsAnswered(s, id, before, streaming) && Ending(before) == None
    ensures AsAnswered(Routed(s, id, r), id, before + [r], streaming)
  {
    assert (before + [r])[..|before|] == before && (before + [r])[|before|] == r;
    assert ChunksIn(before + [r]) == ChunksIn(before) + if r.ChunkResponse? then [r.chunk] else [];
    var s' := Routed(s, id, r);
    assert id in s.pending && s.pending[id] == streaming;
    match r {
      case Failed(_) => assert s' == Settled(s, id, Rejected);
      case Complete(payload) => assert s' == Settled(s, id, Resolved(payload));
      case Started =>
      case ChunkResponse(c) => assert streaming ==> Delivered(s', id) == Delivered(s, id) + [c];
    }
  }

  /** What is not addressed to a command leaves it as it was. */
  lemma {:induction false} OtherEvent(s: ClientState, e: ClientEvent, id: nat)
    requires ClientOk(s) && (id in s.pending || id in s.settled)
    requires e != ReceiveGarbage && e != Close && e != TimeOut(id) && !(e.Receive? && e.message.id == Some(id))
    ensures var s' := Stepped(s, e);
            && Delivered(s', id) == Delivered(s, id)
            && (id in s'.pending <==> id in s.pending) && (id in s.pending ==> s'.pending[id] == s.pending[id])
            && (id in s'.settled <==> id in s.settled) && (id in s.settled ==> s'.settled[id] == s.settled[id])
  {}

  lemma {:induction false} PrefixOfStream(events: seq<ClientEvent>, id: nat)
    requires events != [] && StreamPrefix(Addressed(events, id))
    ensures StreamPrefix(Addressed(events[..|events| - 1], id))
    ensures Addressed(events, id) != Addressed(events[..|events| - 1], id) ==>
            Ending(Addressed(events[..|events| - 1], id)) == None
  {
    var init := Addressed(events[..|events| - 1], id);
    assert Addressed(events, id)[..|init|] == init;
    assert forall i | 0 <= i < |init| :: Addressed(events, id)[i] == init[i];
  }

  lemma {:induction false} AddressedNext(events: seq<ClientEvent>, id: nat)
    requires events != []
    ensures var init, last := Addressed(events[..|events| - 1], id), events[|events| - 1];
            var all := Addressed(events, id);
            if last.Receive? && last.message.id == Some(id) then
              && all == init + [last.message.response]
              && ChunksIn(all) == ChunksIn(init) + if last.message.response.ChunkResponse? then
                [last.message.response.chunk] else []
            else all == init
  {
    var init, last := Addressed(events[..|events| - 1], id), events[|events| - 1];
    if last.Receive? && last.message.id == Some(id) {
      assert (init + [last.message.response])[..|init|] == init;
    }
  }

  /** Before a command is sent nothing is addressed to it and nothing is known of it. */
  lemma {:induction false} NothingBefore(events: seq<ClientEvent>, id: nat)
    requires Undisturbed(events, id) && id >= Run(events).nextId
    ensures Addressed(events, id) == []
  {
    if events != [] {
      NothingBefore(events[..|events| - 1], id);
    }
  }

  // ---- The client as an object ----

  /** A waiting command: its caller's handlers are `delivered` and `settled` below. */
  class SessionCommandClient {
    var nextId: nat
    var pending: map<nat, bool>
    var delivered: map<nat, seq<Chunk>>
    var settled: map<nat, Settlement>

    constructor ()
      ensures View() == INITIAL_STATE
    {
      nextId, pending, delivered, settled := 1, map[], map[], map[];
    }

    ghost function View(): ClientState
      reads this
    {
      ClientState(nextId, pending, delivered, settled)
    }

    method Send(streaming: bool) returns (id: nat)
      modifies this
      ensures View() == Stepped(old(View()), ClientEvent.Send(streaming)) && id == old(nextId)
    {
      id := nextId;
      nextId := nextId + 1;
      pending := pending[id := streaming];
    }

    /** A message that cannot be read fails every waiting command; one for nobody is ignored. */
    method HandleMessage(message: Option<Message>)
      modifies this
      ensures View() == Stepped(old(View()), if message.Some? then Receive(message.value) else ReceiveGarbage)
    {
      if message == None {
        RejectPending();
        return;
      }
      var target := message.value.id;
      if target == None || target.value !in pending {
        return;
      }
      var id := target.value;
      match message.value.response {
        case Failed(_) =>
          pending := pending - {id};
          settled := settled[id := Rejected];
        case ChunkResponse(chunk) =>
          if pending[id] {
            delivered := delivered[id := (if id in delivered then delivered[id] else []) + [chunk]];
          }
        case Started =>
        case Complete(payload) =>
          pending := pending - {id};
          settled := settled[id := Resolved(payload)];
      }
    }

    method RejectPending()
      modifies `pending, `settled
      ensures View() == RejectedAll(old(View()))
    {
      while pending != map[]
        invariant pending.Keys <= old(pending).Keys
        invariant settled == old(settled) + map id | id in old(pending) && id !in pending :: Rejected
        decreases pending.Keys
      {
        var id :| id in pending;
        settled := settled[id := Rejected];
        pending := pending - {id};
      }
    }

    method OnTimeout(id: nat)
      modifies `pending, `settled
      ensures View() == Stepped(old(View()), TimeOut(id))
    {
      if id in pending {
        pending := pending - {id};
        settled := settled[id := Rejected];
      }
    }

    method OnClose()
      modifies `pending, `settled
      ensures View() == Stepped(old(View()), Close)
    {
      RejectPending();
    }
  }

  // ---- A buffer opened through it ----

  /** For every interleaving with other commands: once the gateway's answer to an undisturbed open is in, the
      command is completed with the gateway's payload, and whatever pieces the browser decodes the delivered
      bytes into, loading them leaves exactly the gateway's text as base and content of the copy. */
  lemma {:induction false} OpenedBufferArrives(
    events: seq<ClientEvent>, id: nat, t: Text, payload: nat, initialBytes: nat, chunkBytes: nat,
    texts: seq<Text>, s: State, p: Path, version: ResourceVersion)
    requires Undisturbed(events, id) && SentStreaming(events, id)
    requires IsBufferStream(t, payload, initialBytes, chunkBytes, Addressed(events, id))
    requires Utf8(Concat(texts)) == Joined(Delivered(Run(events), id)) && Invariant(s)
    ensures id in Run(events).settled && Run(events).settled[id] == Resolved(payload)
    ensures var s' := Loaded(s, p, texts, version);
            && Invariant(s') && s'.copies[p].base == Content(s', p) == t && s'.copies[p].version == version
            && s'.copies[p].pending == [] && !Unsettled(s'.copies[p])
  {
    hide *;
    var chunks, cuts := StreamOf(t, payload, initialBytes, chunkBytes, Addressed(events, id));
    DeliveredWhole(events, id, chunks, payload);
    ChunksMakeText(t, chunks, cuts, initialBytes, chunkBytes, texts);
    LoadedOk(s, p, texts, version);
  }

  lemma {:induction false} StreamOf(t: Text, payload: nat, initialBytes: nat, chunkBytes: nat,
      responses: seq<Response>)
    returns (chunks: seq<Chunk>, cuts: seq<nat>)
    requires IsBufferStream(t, payload, initialBytes, chunkBytes, responses)
    ensures responses == Stream(chunks, Complete(payload))
    ensures ChunksOf(t, chunks, cuts, initialBytes, chunkBytes) && |cuts| == |chunks| + 1 && cuts[|chunks|] == |t|
  {
    chunks, cuts :| responses == Stream(chunks, Complete(payload)) &&
      ChunksOf(t, chunks, cuts, initialBytes, chunkBytes) && cuts[|chunks|] == |t|;
  }

  lemma {:induction false} DeliveredWhole(events: seq<ClientEvent>, id: nat, chunks: seq<Chunk>, payload: nat)
    requires Undisturbed(events, id) && SentStreaming(events, id)
    requires Addressed(events, id) == Stream(chunks, Complete(payload))
    ensures Delivered(Run(events), id) == chunks
    ensures id in Run(events).settled && Run(events).settled[id] == Resolved(payload)
  {
    StreamIsWhole(chunks, Complete(payload));
    StreamDelivered(events, id);
    ChunksInStream(chunks, Complete(payload));
  }

  lemma {:induction false} ChunksMakeText(
    t: Text, chunks: seq<Chunk>, cuts: seq<nat>, initialBytes: nat, chunkBytes: nat, texts: seq<Text>)
    requires ChunksOf(t, chunks, cuts, initialBytes, chunkBytes) && |cuts| == |chunks| + 1 && cuts[|chunks|] == |t|
    requires Utf8(Concat(texts)) == Joined(chunks)
    ensures Concat(texts) == t
  {
    ChunksJoin(t, chunks, cuts, initialBytes, chunkBytes);
    assert t[..|t|] == t;
    Utf8Injective(Concat(texts), t);
  }
}
