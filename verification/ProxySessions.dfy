/** A proxy session: the peer's files, clocks and opened buffers, the client's cache of opened buffers,
    and the saves that pass between them. */
module ProxySessions {
  import opened Unicode
  import opened Edits
  import opened ProxyOps
  import opened Replays

  /** The clock of a path that was never written through the proxy. */
  const INITIAL_CLOCK: Clock := [ClockEntry(1, 1)]

  datatype OpenedPath = OpenedPath(path: Path, savedVersion: Clock)

  /** `latest` names each path's most recent buffer id. */
  datatype Peer = Peer(
    files: map<Path, Text>, pathVersions: map<Path, Clock>, buffers: map<nat, OpenedPath>,
    nextBufferId: nat, latest: map<Path, nat>)

  datatype OpenedBuffer = OpenedBuffer(id: nat, path: Path, baseText: Text, savedVersion: Clock)

  datatype Session = Session(peer: Peer, cache: map<nat, OpenedBuffer>)

  datatype SessionError = BadRequest(error: EditError) | PeerFailed

  datatype SavedText = SavedText(session: Session, version: Clock, text: Text)

  // ---- The peer ----

  function ClockOf(peer: Peer, p: Path): Clock {
    if p in peer.pathVersions then peer.pathVersions[p] else INITIAL_CLOCK
  }

  /** Open a path. A peer that reuses ids answers with the id it gave before and streams nothing. */
  function PeerOpened(peer: Peer, reuse: bool, p: Path): (Peer, nat) {
    if reuse && p in peer.latest then (peer, peer.latest[p])
    else
      var id, v := peer.nextBufferId, ClockOf(peer, p);
      var buffers := peer.buffers[id := OpenedPath(p, v)];
      (Peer(peer.files, peer.pathVersions[p := v], buffers, id + 1, peer.latest[p := id]), id)
  }

  /** Apply operations to the file of an opened buffer, counting one tick per edit. */
  function PeerUpdated(peer: Peer, id: nat, operations: seq<Operation>): Result<Peer, SessionError> {
    if id !in peer.buffers || peer.buffers[id].path !in peer.files then Err(PeerFailed)
    else
      var b := peer.buffers[id];
      match ApplyAll(peer.files[b.path], operations)
      case Err(_) => Err(PeerFailed)
      case Ok(text) =>
        var v := Advanced(b.savedVersion, operations);
        Ok(peer.(files := peer.files[b.path := text], pathVersions := peer.pathVersions[b.path := v],
                 buffers := peer.buffers[id := OpenedPath(b.path, v)]))
  }

  function PeerSaved(peer: Peer, id: nat, asked: Clock): Clock {
    if id in peer.buffers then peer.buffers[id].savedVersion else asked
  }

  // ---- The client ----

  /** Open a buffer, from the cache if its id is known. */
  function BufferOpened(s: Session, reuse: bool, p: Path): (Session, OpenedBuffer)
    requires p in s.peer.files
    requires reuse && p in s.peer.latest ==> s.peer.latest[p] in s.cache
  {
    var (peer, id) := PeerOpened(s.peer, reuse, p);
    if id in s.cache then (Session(peer, s.cache), s.cache[id])
    else
      var b := OpenedBuffer(id, p, peer.files[p], peer.buffers[id].savedVersion);
      (Session(peer, s.cache[id := b]), b)
  }

  /** Send operations if there are any, save, and remember the new text under the version the peer gives. */
  function Written(s: Session, b: OpenedBuffer, c: Compiled): Result<SavedText, SessionError> {
    var peer :- if c.operations == [] then Ok(s.peer) else PeerUpdated(s.peer, b.id, c.operations);
    var version := PeerSaved(peer, b.id, c.version);
    Ok(SavedText(Session(peer, s.cache[b.id := OpenedBuffer(b.id, b.path, c.text, version)]), version, c.text))
  }

  ghost function BatchesSaved(s: Session, b: OpenedBuffer, batches: seq<Batch>, expectedLength: nat)
      : Result<SavedText, SessionError> {
    match Compile(b.baseText, b.savedVersion, batches)
    case Err(e) => Err(BadRequest(e))
    case Ok(c) =>
      if |Utf8(c.text)| != expectedLength then Err(BadRequest(UnexpectedLength(expectedLength, |Utf8(c.text)|)))
      else Written(s, b, c)
  }

  /** One operation that replaces the whole text, whatever it was. */
  function OverwriteOperation(b: OpenedBuffer, content: Text): Compiled {
    var next := Incremented(b.savedVersion, REPLICA);
    var op := EditOperation(REPLICA, Timestamp(next, REPLICA), b.savedVersion, [Range(0, |Utf8(b.baseText)|)],
      [content]);
    Compiled([op], content, next)
  }

  function Overwritten(s: Session, b: OpenedBuffer, content: Text): Result<SavedText, SessionError> {
    Written(s, b, OverwriteOperation(b, content))
  }

  // ---- Cache agreement ----

  /** The client's buffer for `p` holds the peer's text and version of `p`. */
  predicate AgreesOn(s: Session, p: Path) {
    p in s.peer.latest ==>
      var id := s.peer.latest[p];
      && p in s.peer.files && p in s.peer.pathVersions
      && id in s.peer.buffers && s.peer.buffers[id] == OpenedPath(p, s.peer.pathVersions[p])
      && id in s.cache && s.cache[id] == OpenedBuffer(id, p, s.peer.files[p], s.peer.pathVersions[p])
  }

  ghost predicate Agrees(s: Session) {
    && (forall p: Path :: AgreesOn(s, p))
    && (forall id | id in s.cache || id in s.peer.buffers :: id < s.peer.nextBufferId)
  }

  lemma {:induction false} OpenAgrees(s: Session, reuse: bool, p: Path)
    requires Agrees(s) && p in s.peer.files
    ensures reuse && p in s.peer.latest ==> s.peer.latest[p] in s.cache
    ensures var (s', b) := BufferOpened(s, reuse, p);
            && Agrees(s') && b == OpenedBuffer(s'.peer.latest[p], p, s.peer.files[p], ClockOf(s.peer, p))
            && p in s'.peer.latest && s'.peer.files == s.peer.files
            && forall q: Path :: ClockOf(s'.peer, q) == ClockOf(s.peer, q)
  {
    assert AgreesOn(s, p);
    var (s', b) := BufferOpened(s, reuse, p);
    forall q: Path
      ensures AgreesOn(s', q)
    {
      assert AgreesOn(s, q);
    }
  }

  /** What a write of consistent operations does: both sides move to the new text and version together. */
  lemma {:induction false} WriteAgrees(s: Session, p: Path, c: Compiled)
    requires Agrees(s) && p in s.peer.latest && AgreesOn(s, p)
    requires ApplyAll(s.peer.files[p], c.operations) == Ok(c.text)
    requires c.version == Advanced(s.peer.pathVersions[p], c.operations)
    ensures var w := Written(s, s.cache[s.peer.latest[p]], c);
            && w.Ok? && Agrees(w.value.session) && w.value.text == c.text && w.value.version == c.version
            && w.value.session.peer.files == s.peer.files[p := c.text]
            && w.value.session.peer.pathVersions == s.peer.pathVersions[p := c.version]
  {
    assert AgreesOn(s, p);
    var b := s.cache[s.peer.latest[p]];
    var s' := Written(s, b, c).value.session;
    forall q: Path
      ensures AgreesOn(s', q)
    {
      assert AgreesOn(s, q);
    }
    if c.operations == [] {
      assert s.peer.files[p := c.text] == s.peer.files;
      assert s.peer.pathVersions[p := c.version] == s.peer.pathVersions;
    }
  }

  /** A batch save that is sent leaves both sides at the compiled text and clock; one that is refused
      for its length, or for its batches, changes neither side (it returns no new session). */
  lemma {:induction false} BatchSaveAgrees(s: Session, p: Path, batches: seq<Batch>, expectedLength: nat)
    requires Agrees(s) && p in s.peer.latest && AgreesOn(s, p) && AllDescend(batches)
    ensures var b := s.cache[s.peer.latest[p]];
            var r, compiled := BatchesSaved(s, b, batches, expectedLength),
              Compile(s.peer.files[p], s.peer.pathVersions[p], batches);
            if compiled.Ok? && |Utf8(compiled.value.text)| == expectedLength then
              && r.Ok? && Agrees(r.value.session) && r.value.text == compiled.value.text
                && r.value.version == compiled.value.version
              && r.value.session.peer.files == s.peer.files[p := r.value.text]
              && r.value.session.peer.pathVersions == s.peer.pathVersions[p := r.value.version]
            else r.Err? && r.error.BadRequest?
  {
    assert AgreesOn(s, p);
    var v := s.peer.pathVersions[p];
    var compiled := Compile(s.peer.files[p], v, batches);
    if compiled.Ok? && |Utf8(compiled.value.text)| == expectedLength {
      CompileThenReplay(s.peer.files[p], v, batches);
      OperationClocks(s.peer.files[p], v, batches);
      WriteAgrees(s, p, compiled.value);
    }
  }

  /** Why a batch save is refused, for any buffer and any batches: the first batch error, or both lengths. */
  lemma {:induction false} RefusedFor(s: Session, b: OpenedBuffer, batches: seq<Batch>, expectedLength: nat)
    ensures var compiled, r :=
            Compile(b.baseText, b.savedVersion, batches), BatchesSaved(s, b, batches, expectedLength);
            && (compiled.Err? ==> r == Err(BadRequest(compiled.error)))
            && (compiled.Ok? && |Utf8(compiled.value.text)| != expectedLength ==>
                  r == Err(BadRequest(UnexpectedLength(expectedLength, |Utf8(compiled.value.text)|))))
            && (compiled.Ok? && |Utf8(compiled.value.text)| == expectedLength && r.Err? ==> r == Err(PeerFailed))
  {}

  lemma {:induction false} WholeTextReplaced(t: Text, content: Text)
    ensures ReplaceAll(t, Sorted(Paired([Range(0, |Utf8(t)|)], [content]))) == Ok(content)
  {
    Utf8Length(t);
    ReplaceAtPlaces(t, 0, |t|, content);
    var x := Replacement(0, |Utf8(t)|, content);
    assert Paired([Range(0, |Utf8(t)|)], [content]) == [x];
    SortedUnchanged([x]);
    assert [x][..0] == [];
    assert ReplaceAll(t, []) == Ok(t);
    assert Splice(t, 0, |t|, content) == content;
  }

  lemma {:induction false} OverwriteAgrees(s: Session, p: Path, content: Text)
    requires Agrees(s) && p in s.peer.latest && AgreesOn(s, p)
    ensures var v := s.peer.pathVersions[p];
            var r := Overwritten(s, s.cache[s.peer.latest[p]], content);
            && r.Ok? && Agrees(r.value.session) && r.value.text == content && r.value.version == Incremented(v, REPLICA)
            && r.value.session.peer.files == s.peer.files[p := content]
            && r.value.session.peer.pathVersions == s.peer.pathVersions[p := r.value.version]
  {
    assert AgreesOn(s, p);
    var b := s.cache[s.peer.latest[p]];
    var c := OverwriteOperation(b, content);
    WholeTextReplaced(b.baseText, content);
    OneOperation(b.baseText, b.savedVersion, c.operations[0]);
    WriteAgrees(s, p, c);
  }

  /** The clocks of a whole-text save: one operation, made at the buffer's clock and numbered next after it. */
  lemma {:induction false} OverwriteClocks(b: OpenedBuffer, content: Text)
    ensures Continues(b.savedVersion, OverwriteOperation(b, content))
    ensures |OverwriteOperation(b, content).operations| == 1
  {
    var c := OverwriteOperation(b, content);
    OneOperation(b.baseText, b.savedVersion, c.operations[0]);
    IncrementedTimestamp(b.savedVersion, REPLICA, REPLICA);
    forall q | q != REPLICA
      ensures Timestamp(c.version, q) == Timestamp(b.savedVersion, q)
    {
      IncrementedTimestamp(b.savedVersion, REPLICA, q);
    }
    assert c.operations[..0] == [];
  }

  lemma {:induction false} OneOperation(t: Text, v: Clock, op: Operation)
    requires op.EditOperation?
    ensures ApplyAll(t, [op]) == ApplyEdit(t, op) && Advanced(v, [op]) == Incremented(v, op.replicaId)
  {
    assert [op][..0] == [];
    assert ApplyAll(t, []) == Ok(t) && Advanced(v, []) == v;
  }

  /** Without the order the save goes through all the same, and cache and file part: over a file of two ASCII
      characters, a batch that inserts `x` at the start and `y` two units on is accepted at the length the
      browser expects, the client remembers one text under the new version and the file holds another. */
  lemma {:induction false} AscendingSaveDisagrees(s: Session, p: Path, b: Batch, x: Scalar, y: Scalar)
    requires Agrees(s) && p in s.peer.latest && p in s.peer.files && IsAscii(s.peer.files[p]) && |s.peer.files[p]| == 2
    requires x < 0x80 && y < 0x80 && y != s.peer.files[p][1]
    requires b.number > 0 && |b.changes| == 2 && Inserts(b.changes[0], 0, [x]) && Inserts(b.changes[1], 2, [y])
    ensures AgreesOn(s, p)
    ensures var t, id := s.peer.files[p], s.peer.latest[p];
            var r := BatchesSaved(s, s.cache[id], [b], 4);
            && r.Ok? && r.value.text == [x, t[0], y, t[1]] && !Agrees(r.value.session)
            && r.value.session.cache[id] == OpenedBuffer(id, p, r.value.text, r.value.version)
            && r.value.session.peer.pathVersions[p] == r.value.version
            && r.value.session.peer.files[p] == [x, t[0], t[1], y]
  {
    assert AgreesOn(s, p);
    var t, v, id := s.peer.files[p], s.peer.pathVersions[p], s.peer.latest[p];
    AscendingRangesDiverge(t, v, b, x, y);
    OperationClocks(t, v, [b]);
    var compiled := Compile(t, v, [b]).value;
    assert IsAscii(compiled.text);
    Ascii(compiled.text);
    var r := BatchesSaved(s, s.cache[id], [b], 4);
    assert compiled.operations != [] by { assert ApplyAll(t, []) == Ok(t); }
    assert r == Written(s, s.cache[id], compiled);
    assert !AgreesOn(r.value.session, p);
  }
}
