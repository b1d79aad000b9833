/** Several browsers on one session, which reaches the files through the proxy and, where that fails or the
    version asks for it, over SSH. Saves are taken one at a time; between them anything may happen in any
    browser. */
module Collaboration {
  import opened Unicode
  import opened Edits
  import opened TextEdits
  import opened WorkingCopies
  import opened PendingLog
  import opened StepEffects
  import opened WorkingCopyServices
  import opened ProxyOps
  import opened Replays
  import opened ProxySessions
  import Ssh = SshSave

  datatype ProxyReply =
    | ProxyConflict(current: Clock)
    | ProxyAccepted(appliedSeq: nat, bytesWritten: nat, version: Clock)
    | ProxyRefused(error: SessionError)

  /** One save through the proxy: open, compare versions, compile, check the length, write. */
  ghost function SaveViaProxy(s: Session, reuse: bool, payload: SavePayload): (Session, ProxyReply)
    requires Agrees(s) && payload.path in s.peer.files
  {
    OpenAgrees(s, reuse, payload.path);
    var (opened', b) := BufferOpened(s, reuse, payload.path);
    if ZedVectorClock(b.savedVersion) != payload.baseVersion then (opened', ProxyConflict(b.savedVersion))
    else
      match BatchesSaved(opened', b, payload.batches, payload.expectedLength)
      case Err(e) => (opened', ProxyRefused(e))
      case Ok(w) => (w.session, ProxyAccepted(LastNumber(payload.batches), |Utf8(w.text)|, w.version))
  }

  /** An unconditional save of a whole file. */
  function OverwriteViaProxy(s: Session, reuse: bool, p: Path, content: Text): Session
    requires p in s.peer.files && (reuse && p in s.peer.latest ==> s.peer.latest[p] in s.cache)
  {
    var (opened', b) := BufferOpened(s, reuse, p);
    match Overwritten(opened', b, content)
    case Err(_) => opened'
    case Ok(w) => w.session
  }

  // ---- Equal versions mean equal text ----

  /** Texts the session has handed out, by path and version. */
  type Ledger = map<(Path, Clock), Text>

  /** No recorded version lies in the future, and the recorded text of the current version is the file's. */
  ghost predicate Recorded(peer: Peer, ledger: Ledger, p: Path, v: Clock) {
    (p, v) in ledger ==>
      && p in peer.files
      && Timestamp(v, REPLICA) <= Timestamp(ClockOf(peer, p), REPLICA)
      && (v == ClockOf(peer, p) ==> ledger[(p, v)] == peer.files[p])
  }

  ghost predicate LedgerOk(peer: Peer, ledger: Ledger) {
    forall p: Path, v: Clock :: Recorded(peer, ledger, p, v)
  }

  /** The ledger once the current version of `p` has been handed out. */
  function Handed(peer: Peer, ledger: Ledger, p: Path): Ledger
    requires p in peer.files
  {
    ledger[(p, ClockOf(peer, p)) := peer.files[p]]
  }

  lemma {:induction false} HandedOk(peer: Peer, ledger: Ledger, p: Path)
    requires LedgerOk(peer, ledger) && p in peer.files
    ensures LedgerOk(peer, Handed(peer, ledger, p))
    ensures forall k | k in ledger :: k in Handed(peer, ledger, p) && Handed(peer, ledger, p)[k] == ledger[k]
  {
    assert Recorded(peer, ledger, p, ClockOf(peer, p));
    forall q: Path, v: Clock
      ensures Recorded(peer, Handed(peer, ledger, p), q, v)
    {
      assert Recorded(peer, ledger, q, v);
    }
  }

  /** Same files and clocks, same ledger. */
  lemma {:induction false} LedgerUnmoved(peer: Peer, peer': Peer, ledger: Ledger)
    requires LedgerOk(peer, ledger) && peer'.files == peer.files
    requires forall q: Path :: ClockOf(peer', q) == ClockOf(peer, q)
    ensures LedgerOk(peer', ledger)
  {
    forall q: Path, v: Clock
      ensures Recorded(peer', ledger, q, v)
    {
      assert Recorded(peer, ledger, q, v);
    }
  }

  /** A write with a new clock outdates every recorded version of the path. */
  lemma {:induction false} LedgerAfterWrite(peer: Peer, peer': Peer, ledger: Ledger, p: Path, text: Text, v: Clock)
    requires LedgerOk(peer, ledger) && p in peer.files
    requires peer'.files == peer.files[p := text]
    requires forall q: Path :: ClockOf(peer', q) == if q == p then v else ClockOf(peer, q)
    requires || Timestamp(v, REPLICA) > Timestamp(ClockOf(peer, p), REPLICA)
             || (v == ClockOf(peer, p) && text == peer.files[p])
    ensures LedgerOk(peer', ledger)
  {
    forall q: Path, u: Clock
      ensures Recorded(peer', ledger, q, u)
    {
      assert Recorded(peer, ledger, q, u);
    }
  }

  // ---- The world ----

  datatype World = World(digest: Ssh.Digest, browsers: map<nat, State>, session: Session, ledger: Ledger)

  /** How the session reads or writes a file. A batch save has no choice: its version says which. */
  datatype Route = ViaProxy | ViaSsh

  datatype WorldEvent =
    | Local(browser: nat, path: Path, event: Event)
    | Open(browser: nat, path: Path, route: Route, chunks: seq<Text>)
    | Save(browser: nat, path: Path)
    | Reload(browser: nat, path: Path, route: Route)
    | OpenWhole(browser: nat, path: Path, route: Route)
    | SaveWhole(browser: nat, path: Path, route: Route)
    | SaveFile(path: Path, content: Text, route: Route)
    | SyncAndRestore(browser: nat, path: Path)
    | WriteElsewhere(path: Path, text: Text)
    | Restart

  ghost predicate SessionOk(w: World) {
    Agrees(w.session) && LedgerOk(w.session.peer, w.ledger)
  }

  /** A proxy version on a copy or backup was handed out with its base text. */
  ghost predicate Grounded(ledger: Ledger, p: Path, base: Text, version: ResourceVersion) {
    version.ZedVectorClock? ==> (p, version.entries) in ledger && ledger[(p, version.entries)] == base
  }

  /** The versions of a browser's copy and backup of `p` are what they claim. */
  ghost predicate BrowserOk(digest: Ssh.Digest, s: State, ledger: Ledger, p: Path) {
    && (p in s.copies ==> Grounded(ledger, p, s.copies[p].base, s.copies[p].version))
    && (p in s.backups ==> Grounded(ledger, p, s.backups[p].base, s.backups[p].version))
    && Ssh.VersionsOk(digest, s, p)
  }

  ghost predicate AllBrowserOk(digest: Ssh.Digest, s: State, ledger: Ledger) {
    Invariant(s) && forall p: Path :: BrowserOk(digest, s, ledger, p)
  }

  ghost predicate BrowsersOk(w: World) {
    forall i | i in w.browsers :: AllBrowserOk(w.digest, w.browsers[i], w.ledger)
  }

  ghost predicate WorldOk(w: World) {
    Ssh.CollisionFree(w.digest) && SessionOk(w) && BrowsersOk(w)
  }

  /** A file is read for browser `i`, which comes to `s'`. */
  ghost function Fetched(w: World, reuse: bool, i: nat, p: Path, route: Route, s': State): World
    requires SessionOk(w) && p in w.session.peer.files
  {
    if route == ViaSsh then w.(browsers := w.browsers[i := s'])
    else
      OpenAgrees(w.session, reuse, p);
      var session := BufferOpened(w.session, reuse, p).0;
      World(w.digest, w.browsers[i := s'], session, Handed(session.peer, w.ledger, p))
  }

  /** The version a file that is read comes with. */
  ghost function FetchedVersion(w: World, reuse: bool, p: Path, route: Route): ResourceVersion
    requires SessionOk(w) && p in w.session.peer.files
  {
    if route == ViaSsh then Ssh.VersionOf(w.digest, w.session.peer.files[p])
    else
      OpenAgrees(w.session, reuse, p);
      ZedVectorClock(BufferOpened(w.session, reuse, p).1.savedVersion)
  }

  ghost function FileSaved(w: World, reuse: bool, p: Path, content: Text, route: Route): World
    requires SessionOk(w) && p in w.session.peer.files
  {
    if route == ViaSsh then w.(session := WrittenElsewhere(w.session, p, content))
    else
      OpenAgrees(w.session, reuse, p);
      w.(session := OverwriteViaProxy(w.session, reuse, p, content))
  }

  /** How the session answers whether `p` still has `version`: it opens the buffer, or reads the file. */
  ghost function Synced(w: World, reuse: bool, p: Path, version: ResourceVersion): (Session, SyncStatus)
    requires SessionOk(w)
  {
    if p !in w.session.peer.files then (w.session, Missing)
    else if !version.ZedVectorClock? then
      (w.session, Ssh.SyncStatusOf(w.digest, w.session.peer.files, p, version).0)
    else
      OpenAgrees(w.session, reuse, p);
      var (session, b) := BufferOpened(w.session, reuse, p);
      (session, if ZedVectorClock(b.savedVersion) == version then Unchanged else RemoteChanged)
  }

  /** A new peer on the same files, and a new client: clocks, buffers and cache are gone. */
  function Restarted(s: Session): Session {
    Session(Peer(s.peer.files, map[], map[], 100, map[]), map[])
  }

  /** No version but the first was ever handed out, and where that one was, the file has not changed since. */
  predicate AtFirstVersion(files: map<Path, Text>, ledger: Ledger) {
    forall k | k in ledger :: StillFirst(files, k.0, k.1, ledger[k])
  }

  predicate StillFirst(files: map<Path, Text>, p: Path, v: Clock, text: Text) {
    p in files && Timestamp(v, REPLICA) <= 1 && (v == INITIAL_CLOCK ==> text == files[p])
  }

  function WrittenElsewhere(s: Session, p: Path, text: Text): Session {
    s.(peer := s.peer.(files := s.peer.files[p := text]))
  }

  /** The session has no buffer of the file open, and has handed out no text under its present clock. */
  predicate Unopened(w: World, p: Path) {
    p !in w.session.peer.latest && (p, ClockOf(w.session.peer, p)) !in w.ledger
  }

  ghost function Answered(s: State, p: Path, reply: ProxyReply): State {
    match reply
    case ProxyConflict(_) => SaveCompleted(s, p, SaveConflict)
    case ProxyAccepted(_, _, version) => SaveCompleted(s, p, Saved(ZedVectorClock(version)))
    case ProxyRefused(_) => s
  }

  ghost function Saving(w: World, reuse: bool, i: nat, p: Path): World
    requires SessionOk(w) && i in w.browsers && p in w.session.peer.files
  {
    if PayloadOf(w.browsers[i], p).baseVersion.ZedVectorClock? then SavingViaProxy(w, reuse, i, p)
    else SavingOverSsh(w, i, p)
  }

  ghost function SavingViaProxy(w: World, reuse: bool, i: nat, p: Path): World
    requires SessionOk(w) && i in w.browsers && p in w.session.peer.files
  {
    var (session, reply) := SaveViaProxy(w.session, reuse, PayloadOf(w.browsers[i], p));
    World(w.digest, w.browsers[i := Answered(w.browsers[i], p, reply)], session,
          if reply.ProxyAccepted? && p in session.peer.files then Handed(session.peer, w.ledger, p) else w.ledger)
  }

  /** Browser `i` and the files, as module SshSave sees them. */
  function SshWorld(w: World, i: nat): Ssh.World
    requires i in w.browsers
  {
    Ssh.World(w.browsers[i], w.session.peer.files)
  }

  ghost function SavingOverSsh(w: World, i: nat, p: Path): World
    requires i in w.browsers && p in w.session.peer.files
  {
    var saved := Ssh.Saving(w.digest, SshWorld(w, i), p);
    w.(browsers := w.browsers[i := saved.browser], session := WrittenElsewhere(w.session, p, saved.files[p]))
  }

  /** Writing `text` past the proxy is safe: it changes nothing, or nobody has seen the file. */
  predicate MayWrite(w: World, p: Path, text: Text)
    requires p in w.session.peer.files
  {
    text == w.session.peer.files[p] || Unopened(w, p)
  }

  ghost predicate WorldAllowed(w: World, e: WorldEvent) {
    match e
    case Local(i, p, event) => i in w.browsers && KeepsBase(event) && Allowed(w.browsers[i], p, event)
    case Open(i, p, _, chunks) =>
      i in w.browsers && p in w.session.peer.files && Concat(chunks) == w.session.peer.files[p]
    case Save(i, p) =>
      && i in w.browsers && p in w.session.peer.files && p in w.browsers[i].copies
      && !Unsettled(w.browsers[i].copies[p])
      && (!w.browsers[i].copies[p].version.ZedVectorClock? ==>
            MayWrite(w, p, Ssh.Saving(w.digest, SshWorld(w, i), p).files[p]))
    case Reload(i, p, _) => i in w.browsers && p in w.session.peer.files
    case OpenWhole(i, p, _) => i in w.browsers && p in w.session.peer.files
    case SaveWhole(i, p, route) =>
      && i in w.browsers && p in w.session.peer.files
      && (route == ViaSsh ==> MayWrite(w, p, Content(w.browsers[i], p)))
    case SaveFile(p, content, route) =>
      p in w.session.peer.files && (route == ViaSsh ==> MayWrite(w, p, content))
    case SyncAndRestore(i, p) =>
      i in w.browsers && p in w.browsers[i].backups && Allowed(w.browsers[i], p, ERestore(true))
    case WriteElsewhere(p, text) => p in w.session.peer.files && MayWrite(w, p, text)
    case Restart => AtFirstVersion(w.session.peer.files, w.ledger)
  }

  ghost function WorldStep(w: World, reuse: bool, e: WorldEvent): World
    requires SessionOk(w) && WorldAllowed(w, e)
  {
    match e
    case Local(i, p, event) => w.(browsers := w.browsers[i := Step(w.browsers[i], p, event)])
    case Open(i, p, route, chunks) =>
      Fetched(w, reuse, i, p, route, Loaded(w.browsers[i], p, chunks, FetchedVersion(w, reuse, p, route)))
    case Save(i, p) => Saving(w, reuse, i, p)
    case Reload(i, p, route) =>
      var text, version := w.session.peer.files[p], FetchedVersion(w, reuse, p, route);
      Fetched(w, reuse, i, p, route, Reloaded(w.browsers[i], p, text, version))
    case OpenWhole(i, p, route) =>
      Fetched(w, reuse, i, p, route, OpenedWhole(w.browsers[i], p, w.session.peer.files[p]))
    case SaveWhole(i, p, route) =>
      var saved := FileSaved(w, reuse, p, Content(w.browsers[i], p), route);
      saved.(browsers := w.browsers[i := SavedWhole(w.browsers[i], p)])
    case SaveFile(p, content, route) => FileSaved(w, reuse, p, content, route)
    case SyncAndRestore(i, p) => SyncedAndRestored(w, reuse, i, p)
    case WriteElsewhere(p, text) => w.(session := WrittenElsewhere(w.session, p, text))
    case Restart => w.(session := Restarted(w.session))
  }

  /** The browser asks after a backup's version and restores it, marked by the answer. */
  ghost function SyncedAndRestored(w: World, reuse: bool, i: nat, p: Path): World
    requires SessionOk(w) && i in w.browsers && p in w.browsers[i].backups
  {
    var (session, status) := Synced(w, reuse, p, w.browsers[i].backups[p].version);
    w.(session := session, browsers := w.browsers[i := Restore(w.browsers[i], p, status != Unchanged)])
  }

  // ---- One save ----

  /** What a save through the proxy does, in terms of the peer's text and clock alone. */
  lemma {:induction false} SaveViaProxyFacts(s: Session, reuse: bool, payload: SavePayload)
    requires Agrees(s) && payload.path in s.peer.files && AllDescend(payload.batches)
    ensures var p := payload.path;
            var (s', reply) := SaveViaProxy(s, reuse, payload);
            var t, v := s.peer.files[p], ClockOf(s.peer, p);
            var c := Compile(t, v, payload.batches);
            && Agrees(s')
            && if ZedVectorClock(v) != payload.baseVersion then
                 reply == ProxyConflict(v) && SameTexts(s.peer, s'.peer)
               else if c.Ok? && |Utf8(c.value.text)| == payload.expectedLength then
                 && reply == ProxyAccepted(LastNumber(payload.batches), payload.expectedLength, c.value.version)
                 && s'.peer.files == s.peer.files[p := c.value.text]
                 && forall q: Path :: ClockOf(s'.peer, q) == if q == p then c.value.version else ClockOf(s.peer, q)
               else
                 reply.ProxyRefused? && SameTexts(s.peer, s'.peer)
  {
    OpenAgrees(s, reuse, payload.path);
    var (opened', b) := BufferOpened(s, reuse, payload.path);
    assert AgreesOn(opened', payload.path);
    BatchSaveAgrees(opened', payload.path, payload.batches, payload.expectedLength);
  }

  ghost predicate SameTexts(peer: Peer, peer': Peer) {
    peer'.files == peer.files && forall q: Path :: ClockOf(peer', q) == ClockOf(peer, q)
  }

  lemma {:induction false} WireDescends(pending: seq<ClientBatch>)
    ensures Descends(pending) ==> AllDescend(Wire(pending))
  {}

  /** A settled copy compiles to exactly the text it shows. */
  lemma {:induction false} LogCompiles(s: State, p: Path, v: Clock)
    requires PathOk(s, p) && p in s.copies && !Unsettled(s.copies[p])
    ensures var c := s.copies[p];
            && AllDescend(Wire(c.pending))
            && Compile(c.base, v, Wire(c.pending)).Ok?
              && Compile(c.base, v, Wire(c.pending)).value.text == Content(s, p)
  {
    var c := s.copies[p];
    WireDescends(c.pending);
    AppliersAgree(c.base, v, Wire(c.pending));
  }

  /** No lost update: a save is accepted exactly when the copy's version is still the file's; then the
      file held the very text the user started from and now holds what the user sees. Otherwise the save
      is answered with a conflict and neither the file nor what the user sees changes. */
  ghost predicate NoUpdateLost(w: World, reuse: bool, i: nat, p: Path)
    requires SessionOk(w) && WorldAllowed(w, Save(i, p)) && w.browsers[i].copies[p].version.ZedVectorClock?
  {
    var c, shown, files := w.browsers[i].copies[p], Content(w.browsers[i], p), w.session.peer.files;
    var reply, w' := SaveViaProxy(w.session, reuse, PayloadOf(w.browsers[i], p)).1, Saving(w, reuse, i, p);
    && Content(w'.browsers[i], p) == shown
    && if c.version.entries == ClockOf(w.session.peer, p) then
         && files[p] == c.base && reply.ProxyAccepted? && w'.session.peer.files == files[p := shown]
         && w'.browsers[i].copies[p].base == shown && w'.browsers[i].copies[p].pending == []
         && w'.browsers[i].copies[p].version == ZedVectorClock(ClockOf(w'.session.peer, p))
       else
         && reply.ProxyConflict? && w'.session.peer.files == files
         && w'.browsers[i].copies[p].pending == c.pending && w'.browsers[i].copies[p].conflict
  }

  lemma {:induction false} SaveIsSafe(w: World, reuse: bool, i: nat, p: Path)
    requires WorldOk(w) && WorldAllowed(w, Save(i, p)) && w.browsers[i].copies[p].version.ZedVectorClock?
    ensures NoUpdateLost(w, reuse, i, p)
  {
    hide Agrees, LedgerOk, BrowsersOk, SaveViaProxy, SaveCompleted;
    SaveReply(w, reuse, i, p);
    AnsweredShows(w.browsers[i], p, SaveViaProxy(w.session, reuse, PayloadOf(w.browsers[i], p)).1);
  }

  /** The reply to such a save and the files it leaves. */
  lemma {:induction false} SaveReply(w: World, reuse: bool, i: nat, p: Path)
    requires WorldOk(w) && WorldAllowed(w, Save(i, p)) && w.browsers[i].copies[p].version.ZedVectorClock?
    ensures var c, shown, files := w.browsers[i].copies[p], Content(w.browsers[i], p), w.session.peer.files;
            var (session, reply) := SaveViaProxy(w.session, reuse, PayloadOf(w.browsers[i], p));
            if c.version.entries == ClockOf(w.session.peer, p) then
              && files[p] == c.base && reply.ProxyAccepted? && session.peer.files == files[p := shown]
              && reply.version == ClockOf(session.peer, p)
            else reply.ProxyConflict? && session.peer.files == files
  {
    var s := w.browsers[i];
    assert AllBrowserOk(w.digest, s, w.ledger) && PathOk(s, p) && BrowserOk(w.digest, s, w.ledger, p);
    LogCompiles(s, p, ClockOf(w.session.peer, p));
    SaveViaProxyFacts(w.session, reuse, PayloadOf(s, p));
    assert Recorded(w.session.peer, w.ledger, p, s.copies[p].version.entries);
  }

  lemma {:induction false} AnsweredShows(s: State, p: Path, reply: ProxyReply)
    requires p in s.copies
    ensures var s' := Answered(s, p, reply);
            && Content(s', p) == Content(s, p) && p in s'.copies
            && (reply.ProxyAccepted? ==>
                  && s'.copies[p].base == Content(s, p) && s'.copies[p].pending == []
                  && s'.copies[p].version == ZedVectorClock(reply.version))
            && (reply.ProxyConflict? ==> s'.copies[p].pending == s.copies[p].pending && s'.copies[p].conflict)
  {}

  /** A save that is refused, for whatever batches in order, changes neither what any browser holds nor any file
      or clock. */
  lemma {:induction false} RefusedChangesNothing(w: World, reuse: bool, i: nat, p: Path)
    requires SessionOk(w) && i in w.browsers && p in w.session.peer.files
    requires AllDescend(PayloadOf(w.browsers[i], p).batches)
    ensures SaveViaProxy(w.session, reuse, PayloadOf(w.browsers[i], p)).1.ProxyRefused? ==>
              var w' := SavingViaProxy(w, reuse, i, p);
              w'.browsers == w.browsers && SameTexts(w.session.peer, w'.session.peer) && w'.ledger == w.ledger
  {
    SaveViaProxyFacts(w.session, reuse, PayloadOf(w.browsers[i], p));
    assert w.browsers[i := w.browsers[i]] == w.browsers;
  }

  /** The same for a copy that came over SSH, whose version is a digest: its save writes what the user sees
      over the very text the user started from, or changes nothing and reports a conflict. */
  ghost predicate NoUpdateLostOverSsh(w: World, i: nat, p: Path)
    requires i in w.browsers && p in w.browsers[i].copies && p in w.session.peer.files
  {
    var c, shown, files := w.browsers[i].copies[p], Content(w.browsers[i], p), w.session.peer.files;
    var w' := SavingOverSsh(w, i, p);
    && Content(w'.browsers[i], p) == shown && p in w'.browsers[i].copies
    && if files[p] == c.base then
         && w'.session.peer.files == files[p := shown]
         && w'.browsers[i].copies[p].base == shown && w'.browsers[i].copies[p].pending == []
         && w'.browsers[i].copies[p].version == Ssh.VersionOf(w.digest, shown)
       else
         && w'.session.peer.files == files
         && w'.browsers[i].copies[p].pending == c.pending && w'.browsers[i].copies[p].conflict
  }

  lemma {:induction false} SaveOverSshIsSafe(w: World, i: nat, p: Path)
    requires WorldOk(w) && WorldAllowed(w, Save(i, p)) && w.browsers[i].copies[p].version.SshStat?
    ensures NoUpdateLostOverSsh(w, i, p)
  {
    var s := w.browsers[i];
    assert AllBrowserOk(w.digest, s, w.ledger);
    assert Ssh.WorldOk(w.digest, SshWorld(w, i)) by {
      forall q: Path
        ensures Ssh.VersionsOk(w.digest, s, q)
      {
        assert BrowserOk(w.digest, s, w.ledger, q);
      }
    }
    Ssh.SaveIsSafe(w.digest, SshWorld(w, i), p);
    assert w.session.peer.files[p := w.session.peer.files[p]] == w.session.peer.files;
  }

  // ---- Whole runs ----

  lemma {:induction false} BrowserMoved(w: World, i: nat, s': State, ledger: Ledger, p: Path)
    requires BrowsersOk(w) && i in w.browsers
    requires forall k | k in w.ledger :: k in ledger && ledger[k] == w.ledger[k]
    requires Invariant(s') && BrowserOk(w.digest, s', ledger, p)
    requires forall q | q != p :: SameAt(w.browsers[i], s', q)
    ensures BrowsersOk(World(w.digest, w.browsers[i := s'], w.session, ledger))
  {
    forall j | j in w.browsers
      ensures AllBrowserOk(w.digest, w.browsers[i := s'][j], ledger)
    {
      assert AllBrowserOk(w.digest, w.browsers[j], w.ledger);
      var t := w.browsers[i := s'][j];
      forall q: Path
        ensures BrowserOk(w.digest, t, ledger, q)
      {
        assert BrowserOk(w.digest, w.browsers[j], w.ledger, q);
        if j == i && q != p { assert SameAt(w.browsers[i], s', q); }
      }
    }
  }

  lemma {:induction false} LocalOk(w: World, i: nat, p: Path, e: Event)
    requires WorldOk(w) && WorldAllowed(w, Local(i, p, e))
    ensures WorldOk(w.(browsers := w.browsers[i := Step(w.browsers[i], p, e)]))
  {
    var s := w.browsers[i];
    assert AllBrowserOk(w.digest, s, w.ledger) && BrowserOk(w.digest, s, w.ledger, p);
    StepKeepsInvariant(s, p, e);
    BasesKept(s, p, e);
    forall q | q != p
      ensures SameAt(s, Step(s, p, e), q)
    {
      StepIsLocal(s, p, e, q);
    }
    BrowserMoved(w, i, Step(s, p, e), w.ledger, p);
  }

  /** A browser's state after it was given the file's text, under its version or none. */
  lemma {:induction false} FetchedOk(w: World, reuse: bool, i: nat, p: Path, route: Route, s': State)
    requires WorldOk(w) && i in w.browsers && p in w.session.peer.files
    requires Invariant(s') && p in s'.copies && s'.copies[p].base == w.session.peer.files[p] && p !in s'.backups
    requires s'.copies[p].version == UnknownVersion || s'.copies[p].version == FetchedVersion(w, reuse, p, route)
    requires forall q | q != p :: SameAt(w.browsers[i], s', q)
    ensures var w' := Fetched(w, reuse, i, p, route, s');
            WorldOk(w') && SameTexts(w.session.peer, w'.session.peer) && w'.browsers == w.browsers[i := s']
    ensures FetchedVersion(w, reuse, p, route) ==
            if route == ViaSsh then SshStat(|Utf8(w.session.peer.files[p])|, w.digest(w.session.peer.files[p]))
            else ZedVectorClock(ClockOf(w.session.peer, p))
  {
    if route == ViaSsh {
      BrowserMoved(w, i, s', w.ledger, p);
    } else {
      OpenAgrees(w.session, reuse, p);
      var session := BufferOpened(w.session, reuse, p).0;
      LedgerUnmoved(w.session.peer, session.peer, w.ledger);
      HandedOk(session.peer, w.ledger, p);
      BrowserMoved(w, i, s', Handed(session.peer, w.ledger, p), p);
    }
  }

  /** What a browser has once a file has come to it: its text as base and content, nothing logged, under the
      session's clock of it or its digest, as the route says, and under none if it came whole. No file, no clock and
      no other browser moves. */
  lemma {:induction false} FetchedExactly(w: World, reuse: bool, i: nat, p: Path, route: Route, e: WorldEvent)
    requires WorldOk(w) && WorldAllowed(w, e)
    requires e == Reload(i, p, route) || e == OpenWhole(i, p, route) || (e.Open? && e == Open(i, p, route, e.chunks))
    ensures var w', text := WorldStep(w, reuse, e), w.session.peer.files[p];
            && WorldOk(w') && SameTexts(w.session.peer, w'.session.peer) && w'.browsers.Keys == w.browsers.Keys
            && (forall j | j in w.browsers && j != i :: w'.browsers[j] == w.browsers[j])
            && p in w'.browsers[i].copies && Content(w'.browsers[i], p) == text
            && var c := w'.browsers[i].copies[p];
               && c.base == text && c.pending == [] && !c.dirty && !c.conflict
               && c.version == if e.OpenWhole? then UnknownVersion
                               else if route == ViaSsh then SshStat(|Utf8(text)|, w.digest(text))
                               else ZedVectorClock(ClockOf(w.session.peer, p))
  {
    hide Loaded, Reloaded, OpenedWhole, Fetched, FetchedVersion, SameTexts;
    var s, text, v := w.browsers[i], w.session.peer.files[p], FetchedVersion(w, reuse, p, route);
    assert AllBrowserOk(w.digest, s, w.ledger);
    match e {
      case Open(_, _, _, chunks) =>
        LoadedOk(s, p, chunks, v);
        FetchedOk(w, reuse, i, p, route, Loaded(s, p, chunks, v));
      case Reload(_, _, _) =>
        ReloadedOk(s, p, text, v);
        FetchedOk(w, reuse, i, p, route, Reloaded(s, p, text, v));
      case _ =>
        OpenedWholeOk(s, p, text);
        FetchedOk(w, reuse, i, p, route, OpenedWhole(s, p, text));
    }
  }

  /** A whole-file save writes its content and a later version. */
  lemma {:induction false} OverwriteFacts(s: Session, reuse: bool, p: Path, content: Text)
    requires Agrees(s) && p in s.peer.files
    ensures reuse && p in s.peer.latest ==> s.peer.latest[p] in s.cache
    ensures var s' := OverwriteViaProxy(s, reuse, p, content);
            && Agrees(s') && s'.peer.files == s.peer.files[p := content]
            && forall q: Path :: ClockOf(s'.peer, q) == if q == p then Incremented(ClockOf(s.peer, p), REPLICA)
              else ClockOf(s.peer, q)
  {
    OpenAgrees(s, reuse, p);
    var (opened', b) := BufferOpened(s, reuse, p);
    assert AgreesOn(opened', p);
    OverwriteAgrees(opened', p, content);
  }

  lemma {:induction false} FileSaveOk(w: World, reuse: bool, p: Path, content: Text, route: Route)
    requires WorldOk(w) && WorldAllowed(w, SaveFile(p, content, route))
    ensures WorldOk(FileSaved(w, reuse, p, content, route))
    ensures var w' := FileSaved(w, reuse, p, content, route);
            && w'.session.peer.files == w.session.peer.files[p := content]
            && w' == w.(session := w'.session)
  {
    if route == ViaSsh {
      WriteElsewhereExactly(w, p, content);
    } else {
      OverwriteFacts(w.session, reuse, p, content);
      var v := ClockOf(w.session.peer, p);
      IncrementedTimestamp(v, REPLICA, REPLICA);
      LedgerAfterWrite(w.session.peer, OverwriteViaProxy(w.session, reuse, p, content).peer, w.ledger, p, content,
        Incremented(v, REPLICA));
    }
  }

  /** A whole-file save of browser `i` writes what its user sees, whatever the file held, and what was written is
      its new base; no other file and no other browser is touched. */
  lemma {:induction false} SavedWholeExactly(w: World, reuse: bool, i: nat, p: Path, route: Route)
    requires WorldOk(w) && WorldAllowed(w, SaveWhole(i, p, route))
    ensures var shown, w' := Content(w.browsers[i], p), WorldStep(w, reuse, SaveWhole(i, p, route));
            && WorldOk(w') && w'.session.peer.files == w.session.peer.files[p := shown]
            && w'.browsers.Keys == w.browsers.Keys
            && (forall j | j in w.browsers && j != i :: w'.browsers[j] == w.browsers[j])
            && p in w'.browsers[i].copies && Content(w'.browsers[i], p) == shown
            && w'.browsers[i].copies[p].base == shown && w'.browsers[i].copies[p].pending == []
  {
    hide FileSaved;
    assert AllBrowserOk(w.digest, w.browsers[i], w.ledger);
    FileSaveOk(w, reuse, p, Content(w.browsers[i], p), route);
    SavedWholeOk(w.browsers[i], p);
    var saved := FileSaved(w, reuse, p, Content(w.browsers[i], p), route);
    BrowserMoved(saved, i, SavedWhole(w.browsers[i], p), w.ledger, p);
  }

  // ---- Status requests ----

  lemma {:induction false} SyncOk(w: World, reuse: bool, i: nat, p: Path)
    requires WorldOk(w) && WorldAllowed(w, SyncAndRestore(i, p))
    ensures WorldOk(SyncedAndRestored(w, reuse, i, p))
    ensures SyncedAndRestored(w, reuse, i, p).session.peer.files == w.session.peer.files
    ensures forall q: Path :: ClockOf(SyncedAndRestored(w, reuse, i, p).session.peer, q) == ClockOf(w.session.peer, q)
  {
    var version := w.browsers[i].backups[p].version;
    var (session, status) := Synced(w, reuse, p, version);
    LocalOk(w, i, p, ERestore(status != Unchanged));
    if p in w.session.peer.files && version.ZedVectorClock? {
      OpenAgrees(w.session, reuse, p);
      LedgerUnmoved(w.session.peer, session.peer, w.ledger);
    }
  }

  /** What the session answers after a version, for any file and any version: missing exactly for a file that is
      gone, unchanged exactly if the version is the one the session would hand out, a clock for a clock and a
      digest for anything else. No text and no clock moves, and only a clock opens a buffer. */
  lemma {:induction false} SyncedExactly(w: World, reuse: bool, p: Path, version: ResourceVersion)
    requires SessionOk(w)
    ensures var (session, status) := Synced(w, reuse, p, version);
            var files := w.session.peer.files;
            && Agrees(session) && SameTexts(w.session.peer, session.peer)
            && (status == Missing <==> p !in files)
            && (status == Unchanged <==>
                  p in files &&
                  version == if version.ZedVectorClock? then ZedVectorClock(ClockOf(w.session.peer, p))
                             else SshStat(|Utf8(files[p])|, w.digest(files[p])))
            && (!version.ZedVectorClock? ==> session == w.session)
  {
    if p in w.session.peer.files { OpenAgrees(w.session, reuse, p); }
  }

  /** A save without a version to compare is always a conflict: it reaches no file, opens no buffer, and what the
      user sees and its log stay. */
  lemma {:induction false} UnknownVersionSave(w: World, reuse: bool, i: nat, p: Path)
    requires SessionOk(w) && i in w.browsers && p in w.session.peer.files
    requires CopyOf(w.browsers[i], p).version == UnknownVersion
    ensures var s, w' := w.browsers[i], Saving(w, reuse, i, p);
            && w'.session == w.session && w'.ledger == w.ledger && w'.browsers.Keys == w.browsers.Keys
            && (forall j | j in w.browsers && j != i :: w'.browsers[j] == w.browsers[j])
            && p in w'.browsers[i].copies && w'.browsers[i].copies[p] == CopyOf(s, p).(conflict := true)
            && Content(w'.browsers[i], p) == Content(s, p)
  {
    var files := w.session.peer.files;
    assert files[p := files[p]] == files;
  }

  /** A copy restored after its version was asked for is marked as conflicting, besides where its backup
      already was, exactly when that version is no longer the file's; if it is, the file holds the very base
      of the backup. The next save writes the backed-up text over that base, or nothing. */
  lemma {:induction false} RestoreAfterSync(w: World, reuse: bool, i: nat, p: Path)
    requires WorldOk(w) && WorldAllowed(w, SyncAndRestore(i, p)) && p in w.session.peer.files
    requires w.browsers[i].backups[p].dirty && w.browsers[i].backups[p].version.ZedVectorClock?
    ensures var r, files := w.browsers[i].backups[p], w.session.peer.files;
            var current, w' := r.version.entries == ClockOf(w.session.peer, p), SyncedAndRestored(w, reuse, i, p);
            && (current ==> files[p] == r.base)
            && w'.browsers[i].copies[p].conflict == (r.conflict || !current) && Content(w'.browsers[i], p) == r.current
            && SessionOk(w') && WorldAllowed(w', Save(i, p))
            && Saving(w', reuse, i, p).session.peer.files == if current then files[p := r.current] else files
  {
    hide Agrees, LedgerOk, AllBrowserOk, BrowserOk, Synced, Restore, Saving;
    SyncOk(w, reuse, i, p);
    SyncedFacts(w, reuse, i, p);
    var w' := SyncedAndRestored(w, reuse, i, p);
    SaveIsSafe(w', reuse, i, p);
    SavedThroughProxy(w', reuse, i, p);
  }

  lemma {:induction false} SyncedFacts(w: World, reuse: bool, i: nat, p: Path)
    requires WorldOk(w) && WorldAllowed(w, SyncAndRestore(i, p)) && p in w.session.peer.files
    requires w.browsers[i].backups[p].dirty && w.browsers[i].backups[p].version.ZedVectorClock?
    ensures var r, s' := w.browsers[i].backups[p], SyncedAndRestored(w, reuse, i, p).browsers[i];
            var current := r.version.entries == ClockOf(w.session.peer, p);
            && (current ==> w.session.peer.files[p] == r.base)
            && p in s'.copies && s'.copies[p].version == r.version && s'.copies[p].base == r.base
            && s'.copies[p].conflict == (r.conflict || !current) && !Unsettled(s'.copies[p])
            && Content(s', p) == r.current
  {
    var s, r := w.browsers[i], w.browsers[i].backups[p];
    assert AllBrowserOk(w.digest, s, w.ledger) && BrowserOk(w.digest, s, w.ledger, p);
    assert Recorded(w.session.peer, w.ledger, p, r.version.entries);
    OpenAgrees(w.session, reuse, p);
    var moved := Synced(w, reuse, p, r.version).1 != Unchanged;
    assert moved <==> r.version.entries != ClockOf(w.session.peer, p);
    assert Restore(s, p, moved).copies[p] == RestoredCopy(CopyOf(s, p), r, moved);
  }

  lemma {:induction false} SavedThroughProxy(w: World, reuse: bool, i: nat, p: Path)
    requires SessionOk(w) && i in w.browsers && p in w.session.peer.files
    requires CopyOf(w.browsers[i], p).version.ZedVectorClock?
    ensures Saving(w, reuse, i, p) == SavingViaProxy(w, reuse, i, p)
  {}

  // ---- Writes past the proxy, and restarts ----

  /** A write past the session keeps cache, peer and handed-out versions consistent exactly when it changes
      nothing, or nobody has seen the file in this session. */
  lemma {:induction false} WriteElsewhereExactly(w: World, p: Path, text: Text)
    requires SessionOk(w) && p in w.session.peer.files
    ensures SessionOk(w.(session := WrittenElsewhere(w.session, p, text))) <==>
            MayWrite(w, p, text)
  {
    var s, s' := w.session, WrittenElsewhere(w.session, p, text);
    var v := ClockOf(s.peer, p);
    assert AgreesOn(s, p) && Recorded(s.peer, w.ledger, p, v);
    if text == s.peer.files[p] {
      assert s'.peer.files == s.peer.files;
    } else if Unopened(w, p) {
      forall q: Path
        ensures AgreesOn(s', q)
      {
        assert AgreesOn(s, q);
      }
      forall q: Path, u: Clock
        ensures Recorded(s'.peer, w.ledger, q, u)
      {
        assert Recorded(s.peer, w.ledger, q, u);
      }
    } else {
      assert !AgreesOn(s', p) || !Recorded(s'.peer, w.ledger, p, v);
    }
  }

  /** A restarted peer counts from the first version again: equal versions go on meaning equal texts exactly
      when no later version was handed out and what was handed out is still there. */
  lemma {:induction false} RestartExactly(w: World)
    requires SessionOk(w)
    ensures SessionOk(w.(session := Restarted(w.session))) <==> AtFirstVersion(w.session.peer.files, w.ledger)
  {
    var s' := Restarted(w.session);
    if AtFirstVersion(w.session.peer.files, w.ledger) {
      forall q: Path, u: Clock
        ensures Recorded(s'.peer, w.ledger, q, u)
      {
        if (q, u) in w.ledger { assert StillFirst(w.session.peer.files, q, u, w.ledger[(q, u)]); }
      }
    } else {
      var k :| k in w.ledger && !StillFirst(w.session.peer.files, k.0, k.1, w.ledger[k]);
      assert (k.0, k.1) == k && !Recorded(s'.peer, w.ledger, k.0, k.1);
    }
  }

  /** A copy that carries the file's version is saved without a conflict whatever its base is: its batches are
      compiled over the file's own text, and written if only the length is the one the browser expects. */
  lemma {:induction false} EqualVersionSave(session: Session, reuse: bool, s: State, p: Path)
    requires Agrees(session) && p in session.peer.files && PathOk(s, p) && p in s.copies
    requires s.copies[p].version == ZedVectorClock(ClockOf(session.peer, p))
    ensures var files, batches, expected := session.peer.files, Wire(s.copies[p].pending), |Utf8(Content(s, p))|;
            var compiled := Compile(files[p], ClockOf(session.peer, p), batches);
            var (s', reply) := SaveViaProxy(session, reuse, PayloadOf(s, p));
            if compiled.Ok? && |Utf8(compiled.value.text)| == expected then
              && reply == ProxyAccepted(LastNumber(batches), expected, compiled.value.version)
              && s'.peer.files == files[p := compiled.value.text]
            else reply.ProxyRefused? && s'.peer.files == files
  {
    WireDescends(s.copies[p].pending);
    SaveViaProxyFacts(session, reuse, PayloadOf(s, p));
  }

  /** What a save finds after a restart. A copy at the first version is taken for current whatever the file
      holds by now; with no edits of its own it is even told it was saved, if only the lengths agree. */
  lemma {:induction false} SaveAfterRestart(w: World, reuse: bool, i: nat, p: Path)
    requires WorldOk(w) && WorldAllowed(w, Save(i, p)) && w.browsers[i].copies[p].version.ZedVectorClock?
    ensures Agrees(Restarted(w.session))
    ensures var c, shown, files := w.browsers[i].copies[p], Content(w.browsers[i], p), w.session.peer.files;
            var (s', reply) := SaveViaProxy(Restarted(w.session), reuse, PayloadOf(w.browsers[i], p));
            && (reply.ProxyConflict? <==> c.version.entries != INITIAL_CLOCK)
            && (!reply.ProxyConflict? && files[p] == c.base ==>
              reply.ProxyAccepted? && s'.peer.files == files[p := shown])
            && (!reply.ProxyConflict? && c.pending == [] ==>
                 s'.peer.files == files && (reply.ProxyAccepted? <==> |Utf8(files[p])| == |Utf8(shown)|))
            && (!reply.ProxyConflict? ==>
                 var compiled := Compile(files[p], INITIAL_CLOCK, Wire(c.pending));
                 if compiled.Ok? && |Utf8(compiled.value.text)| == |Utf8(shown)| then
                   && reply == ProxyAccepted(LastNumber(Wire(c.pending)), |Utf8(shown)|, compiled.value.version)
                   && s'.peer.files == files[p := compiled.value.text]
                 else reply.ProxyRefused? && s'.peer.files == files)
  {
    var s, c := w.browsers[i], w.browsers[i].copies[p];
    assert AllBrowserOk(w.digest, s, w.ledger) && PathOk(s, p);
    LogCompiles(s, p, INITIAL_CLOCK);
    SaveViaProxyFacts(Restarted(w.session), reuse, PayloadOf(s, p));
    if c.version.entries == INITIAL_CLOCK { EqualVersionSave(Restarted(w.session), reuse, s, p); }
    if c.pending == [] {
      assert Wire(c.pending) == [];
      assert w.session.peer.files[p := w.session.peer.files[p]] == w.session.peer.files;
    }
  }

  /** The session side of a save, for any payload. */
  lemma {:induction false} SaveSessionOk(s: Session, ledger: Ledger, reuse: bool, payload: SavePayload)
    requires Agrees(s) && LedgerOk(s.peer, ledger) && payload.path in s.peer.files && AllDescend(payload.batches)
    ensures var (s', reply) := SaveViaProxy(s, reuse, payload);
            && Agrees(s') && LedgerOk(s'.peer, ledger)
            && (reply.ProxyAccepted? ==>
              payload.path in s'.peer.files && ClockOf(s'.peer, payload.path) == reply.version)
  {
    var p, v := payload.path, ClockOf(s.peer, payload.path);
    var (s', reply) := SaveViaProxy(s, reuse, payload);
    SaveViaProxyFacts(s, reuse, payload);
    if reply.ProxyAccepted? {
      var c := Compile(s.peer.files[p], v, payload.batches).value;
      OperationClocks(s.peer.files[p], v, payload.batches);
      LedgerAfterWrite(s.peer, s'.peer, ledger, p, c.text, c.version);
    } else {
      LedgerUnmoved(s.peer, s'.peer, ledger);
    }
  }

  lemma {:induction false} SaveOk(w: World, reuse: bool, i: nat, p: Path)
    requires WorldOk(w) && WorldAllowed(w, Save(i, p))
    ensures WorldOk(Saving(w, reuse, i, p))
  {
    if w.browsers[i].copies[p].version.ZedVectorClock? {
      SaveViaProxyOk(w, reuse, i, p);
    } else {
      SaveOverSshOk(w, i, p);
    }
  }

  lemma {:induction false} SaveOverSshOk(w: World, i: nat, p: Path)
    requires WorldOk(w) && WorldAllowed(w, Save(i, p)) && !w.browsers[i].copies[p].version.ZedVectorClock?
    ensures WorldOk(SavingOverSsh(w, i, p))
  {
    var s, saved := w.browsers[i], Ssh.Saving(w.digest, SshWorld(w, i), p);
    assert AllBrowserOk(w.digest, s, w.ledger);
    assert Ssh.WorldOk(w.digest, SshWorld(w, i)) by {
      forall q: Path
        ensures Ssh.VersionsOk(w.digest, s, q)
      {
        assert BrowserOk(w.digest, s, w.ledger, q);
      }
    }
    Ssh.SavingOk(w.digest, SshWorld(w, i), p);
    assert Ssh.VersionsOk(w.digest, saved.browser, p);
    WriteElsewhereExactly(w, p, saved.files[p]);
    assert BrowserOk(w.digest, s, w.ledger, p);
    SavedIsLocal(w, i, p);
    BrowserMoved(w.(session := WrittenElsewhere(w.session, p, saved.files[p])), i, saved.browser, w.ledger, p);
  }

  lemma {:induction false} SavedIsLocal(w: World, i: nat, p: Path)
    requires i in w.browsers && p in w.session.peer.files && p in w.browsers[i].copies
    ensures var s, s' := w.browsers[i], Ssh.Saving(w.digest, SshWorld(w, i), p).browser;
            && (forall q | q != p :: SameAt(s, s', q))
            && (p in s'.copies && s'.copies[p].version.ZedVectorClock? ==>
                  s'.copies[p].version == s.copies[p].version && s'.copies[p].base == s.copies[p].base)
            && (p in s'.backups ==> p in s.backups && s'.backups[p] == s.backups[p])
  {
    var s := w.browsers[i];
    match Ssh.SaveOver(w.digest, w.session.peer.files[p], PayloadOf(s, p)).0 {
      case Conflict(_) => StepLocalAll(s, p, ESaveCompleted(SaveConflict));
      case Accepted(_, _, version) => StepLocalAll(s, p, ESaveCompleted(Saved(version)));
      case _ =>
    }
  }

  lemma {:induction false} SaveViaProxyOk(w: World, reuse: bool, i: nat, p: Path)
    requires WorldOk(w) && WorldAllowed(w, Save(i, p)) && w.browsers[i].copies[p].version.ZedVectorClock?
    ensures WorldOk(SavingViaProxy(w, reuse, i, p))
  {
    var s := w.browsers[i];
    var (session, reply) := SaveViaProxy(w.session, reuse, PayloadOf(s, p));
    assert AllBrowserOk(w.digest, s, w.ledger) && PathOk(s, p);
    WireDescends(s.copies[p].pending);
    SaveSessionOk(w.session, w.ledger, reuse, PayloadOf(s, p));
    SaveReply(w, reuse, i, p);
    if reply.ProxyAccepted? {
      AcceptedOk(w, i, p, session, reply);
    } else {
      LocalOk(w, i, p, ESaveCompleted(SaveConflict));
    }
  }

  lemma {:induction false} AcceptedOk(w: World, i: nat, p: Path, session: Session, reply: ProxyReply)
    requires WorldOk(w) && i in w.browsers && p in w.browsers[i].copies
    requires Agrees(session) && LedgerOk(session.peer, w.ledger) && reply.ProxyAccepted?
    requires p in session.peer.files && session.peer.files[p] == Content(w.browsers[i], p)
    requires ClockOf(session.peer, p) == reply.version
    ensures WorldOk(World(w.digest, w.browsers[i := Answered(w.browsers[i], p, reply)], session,
              Handed(session.peer, w.ledger, p)))
  {
    var s, e := w.browsers[i], ESaveCompleted(Saved(ZedVectorClock(reply.version)));
    assert AllBrowserOk(w.digest, s, w.ledger);
    HandedOk(session.peer, w.ledger, p);
    StepKeepsInvariant(s, p, e);
    StepLocalAll(s, p, e);
    BrowserMoved(w, i, Answered(s, p, reply), Handed(session.peer, w.ledger, p), p);
  }

  lemma {:induction false} StepLocalAll(s: State, p: Path, e: Event)
    ensures forall q | q != p :: SameAt(s, Step(s, p, e), q)
  {
    forall q | q != p
      ensures SameAt(s, Step(s, p, e), q)
    {
      StepIsLocal(s, p, e, q);
    }
  }

  lemma {:induction false} WorldStepOk(w: World, reuse: bool, e: WorldEvent)
    requires WorldOk(w) && WorldAllowed(w, e)
    ensures WorldOk(WorldStep(w, reuse, e))
  {
    match e {
      case Local(i, p, event) => LocalOk(w, i, p, event);
      case Open(i, p, route, _) => FetchedExactly(w, reuse, i, p, route, e);
      case Save(i, p) => SaveOk(w, reuse, i, p);
      case Reload(i, p, route) => FetchedExactly(w, reuse, i, p, route, e);
      case OpenWhole(i, p, route) => FetchedExactly(w, reuse, i, p, route, e);
      case SaveWhole(i, p, route) => SavedWholeExactly(w, reuse, i, p, route);
      case SaveFile(p, content, route) => FileSaveOk(w, reuse, p, content, route);
      case SyncAndRestore(i, p) => SyncOk(w, reuse, i, p);
      case WriteElsewhere(p, text) => WriteElsewhereExactly(w, p, text);
      case Restart => RestartExactly(w);
    }
  }

  /** `trace` is a run: each world follows from the one before by the event between them. */
  ghost predicate IsRun(reuse: bool, trace: seq<World>, events: seq<WorldEvent>) {
    && |trace| == |events| + 1
    && forall k | 0 <= k < |events| :: Follows(reuse, trace[k], events[k], trace[k + 1])
  }

  ghost predicate Follows(reuse: bool, w: World, e: WorldEvent, w': World) {
    SessionOk(w) ==> WorldAllowed(w, e) && w' == WorldStep(w, reuse, e)
  }

  /** Every interleaving of local work, loads, batch saves and whole-file saves by any number of browsers
      keeps the world consistent, so every save in it is safe in the sense of SaveIsSafe. */
  lemma {:induction false} RunIsSafe(reuse: bool, trace: seq<World>, events: seq<WorldEvent>, k: nat)
    requires IsRun(reuse, trace, events) && WorldOk(trace[0]) && k <= |events|
    ensures WorldOk(trace[k])
  {
    hide SessionOk, BrowsersOk, WorldAllowed, WorldStep;
    if k > 0 {
      RunIsSafe(reuse, trace, events, k - 1);
      assert Follows(reuse, trace[k - 1], events[k - 1], trace[k]);
      WorldStepOk(trace[k - 1], reuse, events[k - 1]);
    }
  }

  /** A fresh session with any files and any number of fresh browsers. */
  ghost predicate IsFresh(w: World) {
    && Ssh.CollisionFree(w.digest) && (forall i | i in w.browsers :: w.browsers[i] == EMPTY_STATE)
    && w.session == Session(Peer(w.session.peer.files, map[], map[], 100, map[]), map[]) && w.ledger == map[]
  }

  lemma {:induction false} FreshWorldOk(w: World)
    requires IsFresh(w)
    ensures WorldOk(w)
  {
    EmptyStateOk();
  }

  /** The end-to-end claim: from fresh browsers on a fresh session, after any run, whatever copy is saved
      next, no update is lost. */
  lemma {:induction false} EndToEndSave(reuse: bool, trace: seq<World>, events: seq<WorldEvent>, i: nat, p: Path)
    requires IsRun(reuse, trace, events) && IsFresh(trace[0])
    requires WorldAllowed(trace[|events|], Save(i, p))
    ensures var w, version := trace[|events|], trace[|events|].browsers[i].copies[p].version;
            && SessionOk(w)
            && (version.ZedVectorClock? ==> NoUpdateLost(w, reuse, i, p))
            && (version.SshStat? ==> NoUpdateLostOverSsh(w, i, p))
  {
    var w := trace[|events|];
    FreshWorldOk(trace[0]);
    RunIsSafe(reuse, trace, events, |events|);
    if w.browsers[i].copies[p].version.ZedVectorClock? { SaveIsSafe(w, reuse, i, p); }
    if w.browsers[i].copies[p].version.SshStat? { SaveOverSshIsSafe(w, i, p); }
  }
}
