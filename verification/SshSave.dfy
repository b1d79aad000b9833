/** Saving over SSH: the gateway compares versions, replays the browser's batches over the remote text,
    checks the length and writes. Together with the browser's log: what the user sees is what is saved. */
module SshSave {
  import opened Unicode
  import opened Edits
  import opened TextEdits
  import opened WorkingCopies
  import opened PendingLog
  import opened StepEffects
  import opened LogLimits
  import opened WorkingCopyServices

  datatype SaveReply =
    | Conflict(current: ResourceVersion)
    | Accepted(appliedSeq: nat, bytesWritten: nat, version: ResourceVersion)
    | Refused(error: EditError)
    | ReadFailed

  type Digest = Text -> nat

  function VersionOf(digest: Digest, t: Text): ResourceVersion {
    SshStat(|Utf8(t)|, digest(t))
  }

  /** No two texts of one length share a digest. */
  ghost predicate CollisionFree(digest: Digest) {
    forall a: Text, b: Text | digest(a) == digest(b) && |Utf8(a)| == |Utf8(b)| :: a == b
  }

  /** The reply to a save, and the text the remote file is left with. */
  ghost function SaveOver(digest: Digest, remote: Text, payload: SavePayload): (SaveReply, Text) {
    var current := VersionOf(digest, remote);
    if current != payload.baseVersion then (Conflict(current), remote)
    else
      match ApplyBatches(remote, payload.batches)
      case Err(e) => (Refused(e), remote)
      case Ok(next) =>
        if |Utf8(next)| != payload.expectedLength then
          (Refused(UnexpectedLength(payload.expectedLength, |Utf8(next)|)), remote)
        else (Accepted(LastNumber(payload.batches), |Utf8(next)|, VersionOf(digest, next)), next)
  }

  /** What makes a save acceptable: the version is that of the text, the batches apply, and the length fits. */
  ghost predicate Acceptable(digest: Digest, remote: Text, payload: SavePayload) {
    && payload.baseVersion == SshStat(|Utf8(remote)|, digest(remote))
    && ApplyBatches(remote, payload.batches).Ok?
    && |Utf8(ApplyBatches(remote, payload.batches).value)| == payload.expectedLength
  }

  /** For any payload: it is accepted exactly when it is acceptable, and then the file is left at the batches
      applied to its text. A conflict is exactly a version that is not that of the text. Whatever is not
      accepted leaves the file as it was, and says why. */
  lemma {:induction false} SaveOverExactly(digest: Digest, remote: Text, payload: SavePayload)
    ensures var (reply, next) := SaveOver(digest, remote, payload);
            var current, applied := SshStat(|Utf8(remote)|, digest(remote)), ApplyBatches(remote, payload.batches);
            && (reply.Accepted? <==> Acceptable(digest, remote, payload))
            && (reply.Accepted? ==>
                  && next == applied.value && reply.bytesWritten == |Utf8(next)|
                  && reply.version == SshStat(|Utf8(next)|, digest(next)))
            && (reply.Accepted? ==> IsHighest(payload.batches, reply.appliedSeq))
            && (reply.Conflict? <==> payload.baseVersion != current) && (reply.Conflict? ==> reply.current == current)
            && (!reply.Accepted? ==> next == remote)
            && (reply.Refused? ==>
                  reply.error == if applied.Err? then applied.error
                                 else UnexpectedLength(payload.expectedLength, |Utf8(applied.value)|))
  {
    if ApplyBatches(remote, payload.batches).Ok? { NumbersRise(remote, payload.batches); }
  }

  /** The largest number of the batches, 0 if there are none. */
  predicate IsHighest(batches: seq<Batch>, n: nat) {
    && (forall i | 0 <= i < |batches| :: batches[i].number <= n)
    && if batches == [] then n == 0 else exists i | 0 <= i < |batches| :: batches[i].number == n
  }

  class RemoteFiles {
    var files: map<Path, Text>
    const digest: Digest

    constructor (digest: Digest, files: map<Path, Text>)
      ensures this.digest == digest && this.files == files
    {
      this.digest := digest;
      this.files := files;
    }

    method SaveBufferViaTransport(request: SavePayload) returns (reply: SaveReply)
      modifies this
      ensures request.path !in old(files) ==> reply == ReadFailed && files == old(files)
      ensures request.path in old(files) ==>
                var (r, next) := SaveOver(digest, old(files)[request.path], request);
                reply == r && files == old(files)[request.path := next]
      ensures !reply.Accepted? ==> files == old(files)
      ensures reply.Accepted? <==>
                request.path in old(files) && Acceptable(digest, old(files)[request.path], request)
      ensures reply.Accepted? ==>
                && files == old(files)[request.path := ApplyBatches(old(files)[request.path], request.batches).value]
                && IsHighest(request.batches, reply.appliedSeq)
    {
      if request.path in files { SaveOverExactly(digest, files[request.path], request); }
      if request.path !in files {
        return ReadFailed;
      }
      var content := files[request.path];
      assert files == files[request.path := content];
      var current := VersionOf(digest, content);
      if current != request.baseVersion {
        return Conflict(current);
      }
      var applied := ApplyTextChangeBatches(content, request.batches);
      if applied.Err? {
        return Refused(applied.error);
      }
      var next := applied.value;
      if |Utf8(next)| != request.expectedLength {
        return Refused(UnexpectedLength(request.expectedLength, |Utf8(next)|));
      }
      files := files[request.path := next];
      NumbersRise(content, request.batches);
      var appliedSeq := HighestNumber(request.batches);
      return Accepted(appliedSeq, |Utf8(next)|, VersionOf(digest, next));
    }
  }

  /** In an accepted list every number is at most the last one. */
  lemma {:induction false} NumbersRise(t: Text, batches: seq<Batch>)
    requires ApplyBatches(t, batches).Ok?
    ensures forall i | 0 <= i < |batches| :: batches[i].number <= LastNumber(batches)
  {
    if batches != [] {
      var init := batches[..|batches| - 1];
      NumbersRise(t, init);
      assert forall i | 0 <= i < |init| :: init[i] == batches[i];
    }
  }

  /** The largest number of a list, 0 for an empty one. */
  method HighestNumber(batches: seq<Batch>) returns (highest: nat)
    ensures forall i | 0 <= i < |batches| :: batches[i].number <= highest
    ensures highest == 0 || exists i | 0 <= i < |batches| :: batches[i].number == highest
    ensures batches == [] ==> highest == 0
  {
    highest := 0;
    for k := 0 to |batches|
      invariant forall i | 0 <= i < k :: batches[i].number <= highest
      invariant highest == 0 || exists i | 0 <= i < k :: batches[i].number == highest
    {
      if batches[k].number > highest { highest := batches[k].number; }
    }
  }

  // ---- One save ----

  /** The gateway accepts what the browser sends, and writes what the browser shows, whenever the
      remote text is still the copy's base. */
  lemma {:induction false} SaveWritesWhatIsShown(digest: Digest, s: State, p: Path)
    requires PathOk(s, p) && p in s.copies && !Unsettled(s.copies[p])
    requires s.copies[p].version == VersionOf(digest, s.copies[p].base)
    ensures var shown := Content(s, p);
            SaveOver(digest, s.copies[p].base, PayloadOf(s, p)) ==
            (Accepted(|s.copies[p].pending|, |Utf8(shown)|, VersionOf(digest, shown)), shown)
  {
    LastNumberOfLog(s.copies[p].pending);
  }

  // ---- The browser and the remote files together ----

  datatype World = World(browser: State, files: map<Path, Text>)

  datatype WorldEvent =
    | Local(event: Event)
    | Open(chunks: seq<Text>)
    | Save
    | SaveInterrupted(text: Text)
    | Reload
    | OpenWhole
    | SaveWhole
    | WrittenElsewhere(text: Text)

  /** A save, its version check, its write and its answer taken as one step. */
  ghost function Saving(digest: Digest, w: World, p: Path): World
    requires p in w.files
  {
    var (reply, next) := SaveOver(digest, w.files[p], PayloadOf(w.browser, p));
    var browser :=
      match reply
      case Conflict(_) => SaveCompleted(w.browser, p, SaveConflict)
      case Accepted(_, _, version) => SaveCompleted(w.browser, p, Saved(version))
      case _ => w.browser;
    World(browser, w.files[p := next])
  }

  /** The same save with another writer between its read and its write. */
  ghost function SavingInterrupted(digest: Digest, w: World, p: Path, text: Text): World
    requires p in w.files
  {
    var saved := Saving(digest, w, p);
    var accepted := SaveOver(digest, w.files[p], PayloadOf(w.browser, p)).0.Accepted?;
    World(saved.browser, w.files[p := if accepted then saved.files[p] else text])
  }

  ghost function WorldStep(digest: Digest, w: World, p: Path, e: WorldEvent): World {
    match e
    case Local(event) => w.(browser := Step(w.browser, p, event))
    case Open(chunks) =>
      if p in w.files then w.(browser := Loaded(w.browser, p, chunks, VersionOf(digest, w.files[p]))) else w
    case Save => if p in w.files then Saving(digest, w, p) else w
    case SaveInterrupted(text) => if p in w.files then SavingInterrupted(digest, w, p, text) else w
    case Reload =>
      if p in w.files then w.(browser := Reloaded(w.browser, p, w.files[p], VersionOf(digest, w.files[p]))) else w
    case OpenWhole => if p in w.files then w.(browser := OpenedWhole(w.browser, p, w.files[p])) else w
    case SaveWhole => World(SavedWhole(w.browser, p), w.files[p := Content(w.browser, p)])
    case WrittenElsewhere(text) => w.(files := w.files[p := text])
  }

  ghost predicate WorldAllowed(w: World, p: Path, e: WorldEvent) {
    match e
    case Local(event) => KeepsBase(event) && Allowed(w.browser, p, event)
    case Open(chunks) => p in w.files ==> Concat(chunks) == w.files[p]
    case Save => p in w.browser.copies && !Unsettled(w.browser.copies[p])
    case SaveInterrupted(_) => p in w.browser.copies && !Unsettled(w.browser.copies[p])
    case SaveWhole => p in w.browser.copies && !Unsettled(w.browser.copies[p])
    case _ => true
  }

  /** An SSH version on a copy or a backup is the version of its base text. */
  ghost predicate Versioned(digest: Digest, base: Text, version: ResourceVersion) {
    version.SshStat? ==> version == VersionOf(digest, base)
  }

  ghost predicate VersionsOk(digest: Digest, s: State, p: Path) {
    && (p in s.copies ==> Versioned(digest, s.copies[p].base, s.copies[p].version))
    && (p in s.backups ==> Versioned(digest, s.backups[p].base, s.backups[p].version))
  }

  ghost predicate WorldOk(digest: Digest, w: World) {
    Invariant(w.browser) && forall p: Path :: VersionsOk(digest, w.browser, p)
  }

  /** Every save in a consistent world either writes what the user sees over exactly the text the user
      started from, or changes nothing and reports a conflict. It is never refused. */
  lemma {:induction false} SaveIsSafe(digest: Digest, w: World, p: Path)
    requires CollisionFree(digest) && WorldOk(digest, w) && WorldAllowed(w, p, Save)
    requires p in w.files && w.browser.copies[p].version.SshStat?
    ensures var c, w' := w.browser.copies[p], Saving(digest, w, p);
            var reply := SaveOver(digest, w.files[p], PayloadOf(w.browser, p)).0;
            && Content(w'.browser, p) == Content(w.browser, p)
            && if w.files[p] == c.base then
                 && reply.Accepted? && w'.files == w.files[p := Content(w.browser, p)]
                 && w'.browser.copies[p].base == Content(w.browser, p) && w'.browser.copies[p].pending == []
                 && w'.browser.copies[p].version == VersionOf(digest, w'.files[p])
               else
                 && reply.Conflict? && w'.files == w.files
                 && w'.browser.copies[p].pending == c.pending && w'.browser.copies[p].conflict
  {
    assert PathOk(w.browser, p) && VersionsOk(digest, w.browser, p);
    if w.files[p] == w.browser.copies[p].base {
      SaveWritesWhatIsShown(digest, w.browser, p);
    } else {
      assert VersionOf(digest, w.files[p]) != w.browser.copies[p].version;
      assert w.files[p := w.files[p]] == w.files;
    }
  }

  /** A save that is refused, for whatever reason, changes neither the browser nor any file. */
  lemma {:induction false} RefusedChangesNothing(digest: Digest, w: World, p: Path)
    requires p in w.files
    ensures SaveOver(digest, w.files[p], PayloadOf(w.browser, p)).0.Refused? ==> Saving(digest, w, p) == w
  {
    assert w.files[p := w.files[p]] == w.files;
  }

  // ---- Whole runs ----

  lemma {:induction false} BaseKept(digest: Digest, s: State, p: Path, e: Event)
    requires VersionsOk(digest, s, p) && KeepsBase(e)
    ensures VersionsOk(digest, Step(s, p, e), p)
  {
    BasesKept(s, p, e);
  }

  lemma {:induction false} SavingOk(digest: Digest, w: World, p: Path)
    requires CollisionFree(digest) && WorldOk(digest, w) && WorldAllowed(w, p, Save) && p in w.files
    ensures WorldOk(digest, Saving(digest, w, p))
  {
    assert PathOk(w.browser, p) && VersionsOk(digest, w.browser, p);
    var reply := SaveOver(digest, w.files[p], PayloadOf(w.browser, p)).0;
    if w.browser.copies[p].version == VersionOf(digest, w.files[p]) {
      SaveWritesWhatIsShown(digest, w.browser, p);
      SavedOk(digest, w.browser, p);
    } else {
      LocalOk(digest, w, p, ESaveCompleted(SaveConflict));
    }
  }

  lemma {:induction false} SavedOk(digest: Digest, s: State, p: Path)
    requires WorldOk(digest, World(s, map[])) && p in s.copies
    ensures WorldOk(digest, World(SaveCompleted(s, p, Saved(VersionOf(digest, Content(s, p)))), map[]))
  {
    var e := ESaveCompleted(Saved(VersionOf(digest, Content(s, p))));
    StepKeepsInvariant(s, p, e);
    forall q: Path
      ensures VersionsOk(digest, Step(s, p, e), q)
    {
      assert VersionsOk(digest, s, q);
      if q != p { StepIsLocal(s, p, e, q); }
    }
  }

  lemma {:induction false} LocalOk(digest: Digest, w: World, p: Path, e: Event)
    requires WorldOk(digest, w) && KeepsBase(e) && Allowed(w.browser, p, e)
    ensures WorldOk(digest, w.(browser := Step(w.browser, p, e)))
  {
    StepKeepsInvariant(w.browser, p, e);
    forall q: Path
      ensures VersionsOk(digest, Step(w.browser, p, e), q)
    {
      assert VersionsOk(digest, w.browser, q);
      if q == p { BaseKept(digest, w.browser, p, e); } else { StepIsLocal(w.browser, p, e, q); }
    }
  }

  /** What the browser has once a file has come over SSH: its text as base and content, nothing logged, under its
      digest, or under none if it came whole. */
  lemma {:induction false} FetchedExactly(digest: Digest, w: World, p: Path, e: WorldEvent)
    requires WorldOk(digest, w) && WorldAllowed(w, p, e) && (e.Open? || e.Reload? || e.OpenWhole?) && p in w.files
    ensures var w', text := WorldStep(digest, w, p, e), w.files[p];
            && WorldOk(digest, w') && w'.files == w.files
            && p in w'.browser.copies && Content(w'.browser, p) == text
            && var c := w'.browser.copies[p];
               && c.base == text && c.pending == [] && !c.dirty && !c.conflict
               && c.version == if e.OpenWhole? then UnknownVersion else SshStat(|Utf8(text)|, digest(text))
  {
    var s, text, v := w.browser, w.files[p], VersionOf(digest, w.files[p]);
    match e {
      case Open(chunks) => LoadedOk(s, p, chunks, v);
      case Reload => ReloadedOk(s, p, text, v);
      case _ => OpenedWholeOk(s, p, text);
    }
    VersionsAfterLoad(digest, s, p, WorldStep(digest, w, p, e).browser);
  }

  /** A whole-file save writes what the user sees, whatever the file held, and what was written is the new base. */
  lemma {:induction false} SavedWholeExactly(digest: Digest, w: World, p: Path)
    requires WorldOk(digest, w)
    ensures var shown, w' := Content(w.browser, p), WorldStep(digest, w, p, SaveWhole);
            && WorldOk(digest, w') && w'.files == w.files[p := shown]
            && p in w'.browser.copies && Content(w'.browser, p) == shown
            && w'.browser.copies[p].base == shown && w'.browser.copies[p].pending == []
  {
    SavedWholeOk(w.browser, p);
    VersionsAfterLoad(digest, w.browser, p, SavedWhole(w.browser, p));
  }

  lemma {:induction false} VersionsAfterLoad(digest: Digest, s: State, p: Path, s': State)
    requires forall q: Path :: VersionsOk(digest, s, q)
    requires p in s'.copies && Versioned(digest, s'.copies[p].base, s'.copies[p].version) && p !in s'.backups
    requires forall q | q != p :: SameAt(s, s', q)
    ensures forall q: Path :: VersionsOk(digest, s', q)
  {
    forall q: Path
      ensures VersionsOk(digest, s', q)
    {
      assert VersionsOk(digest, s, q);
      if q != p { assert SameAt(s, s', q); }
    }
  }

  ghost function WorldRun(digest: Digest, w: World, events: seq<(Path, WorldEvent)>): World {
    if events == [] then w
    else
      var (p, e) := events[|events| - 1];
      WorldStep(digest, WorldRun(digest, w, events[..|events| - 1]), p, e)
  }

  ghost predicate WorldRunAllowed(digest: Digest, w: World, events: seq<(Path, WorldEvent)>) {
    events == [] ||
    var init := events[..|events| - 1];
    var (p, e) := events[|events| - 1];
    WorldRunAllowed(digest, w, init) && WorldAllowed(WorldRun(digest, w, init), p, e)
  }

  /** Whatever users, the network and other writers do, the world stays consistent; so in every
      reachable world the next save is safe in the sense of SaveIsSafe. */
  lemma {:induction false} WorldRunOk(digest: Digest, w: World, events: seq<(Path, WorldEvent)>)
    requires CollisionFree(digest) && WorldOk(digest, w) && WorldRunAllowed(digest, w, events)
    ensures WorldOk(digest, WorldRun(digest, w, events))
  {
    if events != [] {
      var init := events[..|events| - 1];
      var (p, e) := events[|events| - 1];
      WorldRunOk(digest, w, init);
      var reached := WorldRun(digest, w, init);
      match e {
        case Local(event) => LocalOk(digest, reached, p, event);
        case Save => if p in reached.files { SavingOk(digest, reached, p); }
        case SaveInterrupted(_) => if p in reached.files { SavingOk(digest, reached, p); }
        case WrittenElsewhere(_) =>
        case SaveWhole => SavedWholeExactly(digest, reached, p);
        case _ => if p in reached.files { FetchedExactly(digest, reached, p, e); }
      }
    }
  }

  /** What another writer puts in the file between the read and the write of a save is overwritten by what the
      user sees exactly when the save is accepted, that is when the file held the copy's base at the read. */
  lemma {:induction false} InterruptedSaveExactly(digest: Digest, w: World, p: Path, text: Text)
    requires CollisionFree(digest) && WorldOk(digest, w) && WorldAllowed(w, p, SaveInterrupted(text)) && p in w.files
    requires w.browser.copies[p].version.SshStat?
    ensures var c, shown, w' := w.browser.copies[p], Content(w.browser, p), SavingInterrupted(digest, w, p, text);
            && w'.files == w.files[p := if w.files[p] == c.base then shown else text]
            && (w'.files[p] == text <==> w.files[p] != c.base || text == shown)
            && (w.files[p] != c.base ==> w'.browser.copies[p].conflict && w'.browser.copies[p].pending == c.pending)
  {
    SaveIsSafe(digest, w, p);
  }

  /** The end-to-end claim: from an empty browser, through any run, a settled copy that came over SSH
      is saved as shown if the remote file still holds its base, and otherwise nothing is written. */
  lemma {:induction false} EndToEndSave(digest: Digest, files: map<Path, Text>, events: seq<(Path, WorldEvent)>,
      p: Path)
    requires CollisionFree(digest) && WorldRunAllowed(digest, World(EMPTY_STATE, files), events)
    requires var w := WorldRun(digest, World(EMPTY_STATE, files), events);
             p in w.files && WorldAllowed(w, p, Save) && w.browser.copies[p].version.SshStat?
    ensures var w := WorldRun(digest, World(EMPTY_STATE, files), events);
            Saving(digest, w, p).files ==
            if w.files[p] == w.browser.copies[p].base then w.files[p := Content(w.browser, p)] else w.files
  {
    EmptyStateOk();
    WorldRunOk(digest, World(EMPTY_STATE, files), events);
    SaveIsSafe(digest, WorldRun(digest, World(EMPTY_STATE, files), events), p);
  }

  // ---- Restoring after the remote was asked ----

  /** How the gateway answers whether a file still has the version a backup was taken from. */
  function SyncStatusOf(digest: Digest, files: map<Path, Text>, p: Path, version: ResourceVersion)
    : (SyncStatus, Option<ResourceVersion>)
  {
    if p !in files then (Missing, None)
    else
      var current := VersionOf(digest, files[p]);
      (if current == version then Unchanged else RemoteChanged, Some(current))
  }

  /** A file that is gone is missing; any other is unchanged exactly when the version is that of its text, and the
      answer brings the version it has. */
  lemma {:induction false} SyncExactly(digest: Digest, files: map<Path, Text>, p: Path, version: ResourceVersion)
    ensures var (status, current) := SyncStatusOf(digest, files, p, version);
            && (status == Missing <==> p !in files) && (status == Missing <==> current == None)
            && (p in files ==>
                  && current == Some(SshStat(|Utf8(files[p])|, digest(files[p])))
                  && (status == Unchanged <==> current == Some(version)))
  {}

  /** A restored copy is marked as conflicting, besides where its backup already was, exactly when the
      remote text is no longer its base; and its next save writes the backed-up text over that base, or
      nothing. */
  lemma {:induction false} RestoreAfterSync(digest: Digest, w: World, p: Path)
    requires CollisionFree(digest) && WorldOk(digest, w) && p in w.files
    requires p in w.browser.backups && w.browser.backups[p].dirty && w.browser.backups[p].version.SshStat?
    requires Fits(w.browser.backups[p].base)
    requires p in w.browser.models ==> w.browser.models[p] == w.browser.backups[p].current
    ensures var r := w.browser.backups[p];
            var status := SyncStatusOf(digest, w.files, p, r.version).0;
            var w' := w.(browser := Restore(w.browser, p, status != Unchanged));
            && (status == Unchanged <==> w.files[p] == r.base)
            && w'.browser.copies[p].conflict == (r.conflict || w.files[p] != r.base)
            && Content(w'.browser, p) == r.current
            && Saving(digest, w', p).files == if w.files[p] == r.base then w.files[p := r.current] else w.files
  {
    var r := w.browser.backups[p];
    assert VersionsOk(digest, w.browser, p);
    var moved := SyncStatusOf(digest, w.files, p, r.version).0 != Unchanged;
    LocalOk(digest, w, p, ERestore(moved));
    SaveIsSafe(digest, w.(browser := Restore(w.browser, p, moved)), p);
  }

  /** Restored under an editor that shows another text, a buffer is saved wrongly: if the two texts end
      alike, the user appends to the one, and the gateway writes the other with the addition. */
  lemma {:induction false} RestoreOverModelWritesOther(digest: Digest, s: State, p: Path, ins: Text)
    requires PathOk(s, p) && p in s.backups && s.backups[p].dirty && Fits(s.backups[p].base)
    requires s.backups[p].version == VersionOf(digest, s.backups[p].base)
    requires p in s.models && s.models[p] != s.backups[p].current && Fits(s.models[p])
    requires SameEnd(s.models[p], s.backups[p].current)
    ensures var r, shown := s.backups[p], s.models[p];
            var s' := UserEdit(Restore(s, p, false), p, [InsertionAtEnd(shown, ins)], shown + ins, User);
            var (reply, written) := SaveOver(digest, r.base, PayloadOf(s', p));
            reply.Accepted? && written == r.current + ins && Content(s', p) == shown + ins != written
  {
    RestoreOverModelDiverges(s, p, false, ins);
  }

  /** Completion clears the whole log, so a save answered after further edits leaves the copy's base
      equal to the written text exactly when those edits changed nothing. `sent` is the state when the
      payload was taken, `now` the state when the answer arrives. */
  lemma {:induction false} LateCompletionExactly(digest: Digest, sent: State, now: State, p: Path)
    requires CollisionFree(digest) && PathOk(sent, p) && PathOk(now, p)
    ensures var written := Content(sent, p);
            var c := SaveCompleted(now, p, Saved(VersionOf(digest, written))).copies[p];
            && c.pending == [] && c.base == Content(now, p)
            && (c.base == written <==> Content(now, p) == Content(sent, p))
            && (Versioned(digest, c.base, c.version) <==> Content(now, p) == Content(sent, p))
  {}

  /** What the next save of such a copy does: the log is gone, so the gateway replays nothing over the
      written text. It refuses the save over the length, or, when the lengths happen to agree, accepts
      it and the late edits are lost. */
  lemma {:induction false} LateEditsNotSaved(digest: Digest, sent: State, now: State, p: Path)
    ensures var written, shown := Content(sent, p), Content(now, p);
            var after := SaveCompleted(now, p, Saved(VersionOf(digest, written)));
            SaveOver(digest, written, PayloadOf(after, p)) ==
            (if |Utf8(shown)| == |Utf8(written)| then Accepted(0, |Utf8(written)|, VersionOf(digest, written))
             else Refused(UnexpectedLength(|Utf8(shown)|, |Utf8(written)|)), written)
  {
    assert Wire([]) == [];
    assert ApplyBatches(Content(sent, p), []) == Ok(Content(sent, p));
  }
}
