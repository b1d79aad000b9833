/** The pending-log invariant over whole runs of the working-copy service: replaying a copy's pending
    batches over its base, with every check the gateway makes, yields its current text. */
module PendingLog {
  import opened Unicode
  import opened Edits
  import opened TextEdits
  import opened MonacoOrder
  import opened BrowserText
  import opened WorkingCopies

  ghost predicate Numbered(pending: seq<ClientBatch>) {
    forall i | 0 <= i < |pending| :: pending[i].number == i + 1
  }

  /** The gateway, given `base` and the batches, accepts them and arrives at `current`. */
  ghost predicate Replays(base: Text, pending: seq<ClientBatch>, current: Text) {
    Numbered(pending) && ApplyBatches(base, Wire(pending)) == Ok(current)
  }

  ghost predicate LogOk(c: WorkingCopy) {
    Replays(c.base, c.pending, c.current)
  }

  /** Within each batch offsets never rise. */
  predicate Descends(pending: seq<ClientBatch>) {
    forall i | 0 <= i < |pending| :: OffsetsDescend(pending[i].changes)
  }

  /** A copy the editor neither edits nor saves: its text is still streaming in, failed to, or was cut. */
  predicate Unsettled(c: WorkingCopy) {
    c.loading || c.readOnly
  }

  ghost predicate CopyOk(s: State, p: Path) {
    p in s.copies ==>
      var c := s.copies[p];
      && c.current == (if p in s.contents then s.contents[p] else [])
      && (p in s.models ==> s.models[p] == c.current)
      && (LogOk(c) || (Unsettled(c) && c.pending == []))
      && (c.loading ==> c.pending == [])
      && Descends(c.pending)
  }

  ghost predicate BackupOk(s: State, p: Path) {
    p in s.backups ==>
      var r := s.backups[p];
      Descends(r.pending) && (r.pending == [] || Replays(r.base, r.pending, r.current))
  }

  ghost predicate PathOk(s: State, p: Path) {
    (p in s.contents || p in s.models ==> p in s.copies) && CopyOk(s, p) && BackupOk(s, p)
  }

  ghost predicate Invariant(s: State) {
    forall p: Path :: PathOk(s, p)
  }

  // ---- One operation on the service ----

  datatype Event =
    | EStartLoading
    | EAppendChunk(chunk: Text)
    | EFinishLoading(version: ResourceVersion, readOnly: bool)
    | EFailLoading
    | ESetContent(value: Text, markClean: bool)
    | EAttachEditor(value: Text)
    | EDetachModel
    | EMarkSaved(saved: Option<Text>, newVersion: Option<ResourceVersion>)
    | EMarkDirty
    | EUserEdit(changes: seq<Change>, after: Text, source: Source)
    | EOfflineEdit(edits: seq<WorkspaceEdit>, source: Source)
    | ESaveCompleted(outcome: SaveOutcome)
    | EDiscard
    | ERevert(reloaded: Text)
    | EWriteBackup
    | ERestore(remoteMoved: bool)

  function Step(s: State, p: Path, e: Event): State {
    match e
    case EStartLoading => StartLoading(s, p)
    case EAppendChunk(chunk) => AppendChunk(s, p, chunk)
    case EFinishLoading(version, readOnly) => FinishLoading(s, p, version, readOnly)
    case EFailLoading => FailLoading(s, p)
    case ESetContent(value, markClean) => SetContent(s, p, value, markClean)
    case EAttachEditor(value) => AttachEditor(s, p, value)
    case EDetachModel => DetachModel(s, p)
    case EMarkSaved(saved, newVersion) => MarkSaved(s, p, saved, newVersion)
    case EMarkDirty => MarkDirty(s, p)
    case EUserEdit(changes, after, source) => UserEdit(s, p, changes, after, source)
    case EOfflineEdit(edits, source) => OfflineEdit(s, p, edits, source)
    case ESaveCompleted(outcome) => SaveCompleted(s, p, outcome)
    case EDiscard => Discard(s, p)
    case ERevert(reloaded) => Revert(s, p, reloaded)
    case EWriteBackup => WriteBackup(s, p)
    case ERestore(remoteMoved) => Restore(s, p, remoteMoved)
  }

  /** The ends of every edit are places of `t`, and the ranges come last first. */
  ghost predicate EditsInOrder(t: Text, edits: seq<WorkspaceEdit>) {
    var changes := EditsToChanges(t, edits);
    && (forall k | 0 <= k < |changes| ::
          && OffsetPlace(t, changes[k].offset).Ok?
          && OffsetPlace(t, changes[k].offset + changes[k].length).Ok?
          && changes[k].offset + changes[k].length <= USIZE_MAX)
    && (forall a, b | 0 <= a < b < |changes| :: changes[b].offset + changes[b].length <= changes[a].offset)
  }

  /** What the environment keeps to: the editor reports edits of settled copies in its own order, with
      the value they lead to; chunks arrive while a copy is loading; a whole text is put in
      place only as clean or unchanged; a buffer is discarded, marked saved or restored only where no
      live model shows another text. */
  ghost predicate Allowed(s: State, p: Path, e: Event) {
    match e
    case EUserEdit(changes, after, _) =>
      && p in s.models && p in s.copies && !Unsettled(s.copies[p])
      && MonacoBatch(s.copies[p].current, changes) && after == Substitute(s.copies[p].current, changes)
    case EOfflineEdit(edits, _) =>
      p !in s.models && !Unsettled(CopyOf(s, p)) && EditsInOrder(Content(s, p), edits)
    case EAppendChunk(_) => p in s.copies && s.copies[p].loading
    case ESetContent(value, markClean) => markClean || value == Content(s, p)
    case EMarkSaved(saved, _) => p in s.models ==> saved.GetOr(s.models[p]) == s.models[p]
    case EDiscard => p in s.models ==> s.models[p] == CopyOf(s, p).base
    case ERestore(_) =>
      p in s.backups && s.backups[p].dirty ==>
        Fits(s.backups[p].base) && (p in s.models ==> s.models[p] == s.backups[p].current)
    case _ => true
  }

  /** Every text the browser can hold is far shorter than the gateway's largest index. */
  predicate Fits(t: Text) {
    Units(t, |t|) <= USIZE_MAX
  }

  // ---- The log, one batch longer ----

  lemma {:induction false} WirePush(pending: seq<ClientBatch>, b: ClientBatch)
    ensures Wire(pending + [b]) == Wire(pending) + [ToWire(b)]
  {}

  lemma {:induction false} LastNumberOfLog(pending: seq<ClientBatch>)
    requires Numbered(pending)
    ensures LastNumber(Wire(pending)) == |pending| && NextNumber(pending) == |pending| + 1
  {}

  lemma {:induction false} PushBatch(base: Text, pending: seq<ClientBatch>, current: Text, b: ClientBatch, after: Text)
    requires Replays(base, pending, current)
    requires b.number == NextNumber(pending) && ApplyChanges(current, b.changes) == Ok(after)
    ensures Replays(base, pending + [b], after)
  {
    WirePush(pending, b);
    LastNumberOfLog(pending);
    var w := Wire(pending) + [ToWire(b)];
    assert w[..|w| - 1] == Wire(pending);
  }

  lemma {:induction false} EmptyLog(base: Text)
    ensures Replays(base, [], base)
  {
    assert Wire([]) == [];
  }

  /** The snapshot batch alone turns the base into the current text, whatever both are. */
  lemma {:induction false} SnapshotReplays(base: Text, current: Text)
    requires Fits(base)
    ensures Replays(base, [SnapshotBatch(base, current)], current)
  {
    var b := SnapshotBatch(base, current);
    SnapshotAccepted(base, b.changes[0], current);
    EmptyLog(base);
    PushBatch(base, [], base, b, current);
    assert [] + [b] == [b];
  }

  lemma {:induction false} SnapshotAccepted(base: Text, c: Change, current: Text)
    requires Fits(base)
    requires var length := Units(base, |base|);
             c == Change(Position(0, 0), LspPosition(base, length), 0, length, current)
    ensures ApplyChanges(base, [c]) == Ok(current)
  {
    assert Splice(base, 0, |base|, current) == current;
    hide *;
    WholeTextLocated(base, c, current);
    ChangeAccepted(base, c);
    OneChange(base, c);
  }

  lemma {:induction false} WholeTextLocated(base: Text, c: Change, current: Text)
    requires Fits(base)
    requires var length := Units(base, |base|);
             c == Change(Position(0, 0), LspPosition(base, length), 0, length, current)
    ensures Locates(base, c, 0, |base|)
  {
    assert PositionOf(base, 0) == Position(0, 0) && Units(base, 0) == 0;
    hide LspPosition, PositionOf, Units;
    LspPositionAt(base, |base|);
  }

  lemma {:induction false} OneChange(t: Text, c: Change)
    ensures ApplyChanges(t, [c]) == ApplyChange(t, c)
  {
    assert [c][..0] == [];
    assert ApplyChanges(t, []) == Ok(t);
  }

  /** Ranges computed from valid offsets describe the text: an ordered workspace edit is a Monaco batch. */
  lemma {:induction false} OrderedEditsAreBatch(t: Text, edits: seq<WorkspaceEdit>)
    requires EditsInOrder(t, edits)
    ensures MonacoBatch(t, EditsToChanges(t, edits))
  {
    var changes := EditsToChanges(t, edits);
    forall k | 0 <= k < |changes|
      ensures ChangePlaces(t, changes[k]).Ok?
    {
      var c := changes[k];
      OffsetAndPositionAgree(t, c.offset);
      OffsetAndPositionAgree(t, c.offset + c.length);
    }
  }

  // ---- What a batch carries ----

  /** The syntax-tree edits of a batch in editor order are right, one for each change, though all are computed
      against the text before the batch. */
  lemma {:induction false} BatchEditsRight(before: Text, changes: seq<Change>)
    requires MonacoBatch(before, changes)
    ensures EditsRight(before, changes, TreeSitterEdits(before, changes))
  {
    forall k | 0 <= k < |changes|
      ensures EditRight(before, changes, k, TreeSitterEdits(before, changes)[k])
    {
      EditRightAt(before, changes, k);
    }
  }

  lemma {:induction false} EditRightAt(before: Text, changes: seq<Change>, k: nat)
    requires MonacoBatch(before, changes) && k < |changes|
    ensures EditRight(before, changes, k, TreeSitterEdits(before, changes)[k])
  {
    BatchTreeSitterEdits(before, changes, k);
  }

  /** So are those of the batch that replaces a whole base. */
  lemma {:induction false} SnapshotEditsRight(base: Text, current: Text)
    requires Fits(base)
    ensures var b := SnapshotBatch(base, current);
            MonacoBatch(base, b.changes) && EditsRight(base, b.changes, b.treeSitterEdits)
  {
    var b := SnapshotBatch(base, current);
    var c := b.changes[0];
    WholeTextLocated(base, c, current);
    ChangeAccepted(base, c);
    BatchEditsRight(base, b.changes);
    assert b.treeSitterEdits == TreeSitterEdits(base, b.changes);
  }

  /** What the changes of a workspace edit say: each replaces, by the edit's text or nothing, the scalars between
      the places the edit names, an edit without an offset those at the end. */
  ghost predicate SaysEdit(t: Text, e: WorkspaceEdit, c: Change) {
    && c.text == (match e.text case Some(ins) => ins case None => [])
    && exists i, j | 0 <= i <= j <= |t| ::
         && Locates(t, c, i, j)
         && (match e.offset case Some(offset) => Units(t, i) == offset case None => i == |t|)
         && (match e.length case Some(length) => Units(t, j) - Units(t, i) == length case None => j == i)
  }

  lemma {:induction false} ChangesSayEdits(t: Text, edits: seq<WorkspaceEdit>)
    requires EditsInOrder(t, edits)
    ensures var changes := EditsToChanges(t, edits);
            |changes| == |edits| && forall k | 0 <= k < |edits| :: SaysEdit(t, edits[k], changes[k])
  {
    OrderedEditsAreBatch(t, edits);
    forall k | 0 <= k < |edits|
      ensures SaysEdit(t, edits[k], EditsToChanges(t, edits)[k])
    {
      ChangeSaysEdit(t, edits, k);
    }
  }

  lemma {:induction false} ChangeSaysEdit(t: Text, edits: seq<WorkspaceEdit>, k: nat)
    requires MonacoBatch(t, EditsToChanges(t, edits)) && k < |edits|
    ensures SaysEdit(t, edits[k], EditsToChanges(t, edits)[k])
  {
    var c := EditsToChanges(t, edits)[k];
    var (i, j) := ChangePlaces(t, c).value;
    assert Locates(t, c, i, j);
    CoordinatesAgree(t, i, |t|);
    CoordinatesAgree(t, i, j);
  }

  // ---- Every operation keeps the invariant ----

  /** Nothing the service holds for `q` differs. */
  predicate SameAt(s: State, s': State, q: Path) {
    && (q in s.copies <==> q in s'.copies) && (q in s.copies ==> s.copies[q] == s'.copies[q])
    && (q in s.contents <==> q in s'.contents) && (q in s.contents ==> s.contents[q] == s'.contents[q])
    && (q in s.models <==> q in s'.models) && (q in s.models ==> s.models[q] == s'.models[q])
    && (q in s.backups <==> q in s'.backups) && (q in s.backups ==> s.backups[q] == s'.backups[q])
  }

  lemma {:induction false} LoadIsLocal(s: State, p: Path, e: Event, q: Path)
    requires q != p && (e.EStartLoading? || e.EAppendChunk? || e.EFinishLoading? || e.EFailLoading? || e.EDetachModel?)
    ensures SameAt(s, Step(s, p, e), q)
  {}

  lemma {:induction false} SetIsLocal(s: State, p: Path, e: Event, q: Path)
    requires q != p && (e.ESetContent? || e.ERevert? || e.EDiscard?)
    ensures SameAt(s, Step(s, p, e), q)
  {}

  lemma {:induction false} AttachIsLocal(s: State, p: Path, v: Text, q: Path)
    requires q != p
    ensures SameAt(s, AttachEditor(s, p, v), q)
  {}

  lemma {:induction false} EditIsLocal(s: State, p: Path, e: Event, q: Path)
    requires q != p && (e.EUserEdit? || e.EOfflineEdit? || e.EMarkDirty?)
    ensures SameAt(s, Step(s, p, e), q)
  {}

  lemma {:induction false} SaveIsLocal(s: State, p: Path, e: Event, q: Path)
    requires q != p && (e.EMarkSaved? || e.ESaveCompleted? || e.EWriteBackup? || e.ERestore?)
    ensures SameAt(s, Step(s, p, e), q)
  {}

  lemma {:induction false} StepIsLocal(s: State, p: Path, e: Event, q: Path)
    requires q != p
    ensures SameAt(s, Step(s, p, e), q)
  {
    if e.EStartLoading? || e.EAppendChunk? || e.EFinishLoading? || e.EFailLoading? || e.EDetachModel? {
      LoadIsLocal(s, p, e, q);
    } else if e.ESetContent? || e.ERevert? || e.EDiscard? {
      SetIsLocal(s, p, e, q);
    } else if e.EAttachEditor? {
      AttachIsLocal(s, p, e.value, q);
    } else if e.EUserEdit? || e.EOfflineEdit? || e.EMarkDirty? {
      EditIsLocal(s, p, e, q);
    } else {
      SaveIsLocal(s, p, e, q);
    }
  }

  lemma {:induction false} StartLoadingOk(s: State, p: Path)
    requires PathOk(s, p)
    ensures PathOk(StartLoading(s, p), p)
  {}

  lemma {:induction false} AppendChunkOk(s: State, p: Path, chunk: Text)
    requires PathOk(s, p) && Allowed(s, p, EAppendChunk(chunk))
    ensures PathOk(AppendChunk(s, p, chunk), p)
  {}

  lemma {:induction false} FailLoadingOk(s: State, p: Path)
    requires PathOk(s, p)
    ensures PathOk(FailLoading(s, p), p)
  {
    EmptyLog([]);
  }

  lemma {:induction false} DetachModelOk(s: State, p: Path)
    requires PathOk(s, p)
    ensures PathOk(DetachModel(s, p), p)
  {}

  lemma {:induction false} FinishLoadingOk(s: State, p: Path, version: ResourceVersion, readOnly: bool)
    requires PathOk(s, p)
    ensures PathOk(FinishLoading(s, p, version, readOnly), p)
  {
    EmptyLog(Content(s, p));
  }

  lemma {:induction false} SetContentOk(s: State, p: Path, v: Text, markClean: bool)
    requires PathOk(s, p) && Allowed(s, p, ESetContent(v, markClean))
    ensures PathOk(SetContent(s, p, v, markClean), p)
  {
    EmptyLog([]);
    EmptyLog(v);
  }

  /** Mounting an editor leaves the copy's text and log as they were, whatever the model held. */
  lemma {:induction false} AttachEditorOk(s: State, p: Path, v: Text)
    requires PathOk(s, p)
    ensures PathOk(AttachEditor(s, p, v), p)
    ensures AttachEditor(s, p, v).copies[p] == CopyOf(s, p)
    ensures AttachEditor(s, p, v).models[p] == Content(s, p)
  {
    EmptyLog([]);
    AttachedShows(s, p, v);
  }

  lemma {:induction false} AttachedShows(s: State, p: Path, v: Text)
    requires Content(s, p) == CopyOf(s, p).current
    ensures var c, s' := CopyOf(s, p), AttachEditor(s, p, v);
            && p in s'.copies && s'.copies[p] == c && p in s'.contents && s'.contents[p] == c.current
            && p in s'.models && s'.models[p] == c.current && s'.backups == s.backups
  {
    var attached, c := AttachModel(s, p, v), CopyOf(s, p);
    assert attached.copies[p] == c.(current := v) && attached.contents[p] == v && attached.models[p] == v;
    assert attached.copies[p].(current := c.current) == c;
    PutBack(attached, p, c.current);
  }

  lemma {:induction false} PutBack(s: State, p: Path, v: Text)
    requires p in s.copies && p in s.models
    ensures var s' := SetContent(s, p, v, false);
            && p in s'.copies && s'.copies[p] == s.copies[p].(current := v) && p in s'.contents && s'.contents[p] == v
            && p in s'.models && s'.models[p] == v && s'.backups == s.backups
  {}

  lemma {:induction false} MarkSavedOk(s: State, p: Path, saved: Option<Text>, version: Option<ResourceVersion>)
    requires PathOk(s, p) && Allowed(s, p, EMarkSaved(saved, version))
    ensures PathOk(MarkSaved(s, p, saved, version), p)
  {
    EmptyLog(saved.GetOr(Content(s, p)));
  }

  lemma {:induction false} SaveCompletedOk(s: State, p: Path, outcome: SaveOutcome)
    requires PathOk(s, p)
    ensures PathOk(SaveCompleted(s, p, outcome), p)
  {
    EmptyLog([]);
    EmptyLog(Content(s, p));
  }

  lemma {:induction false} DiscardOk(s: State, p: Path)
    requires PathOk(s, p) && Allowed(s, p, EDiscard)
    ensures PathOk(Discard(s, p), p)
  {
    EmptyLog(CopyOf(s, p).base);
  }

  lemma {:induction false} RevertOk(s: State, p: Path, v: Text)
    requires PathOk(s, p)
    ensures PathOk(Revert(s, p, v), p)
  {
    EmptyLog(v);
  }

  lemma {:induction false} MarkDirtyOk(s: State, p: Path)
    requires PathOk(s, p)
    ensures PathOk(MarkDirty(s, p), p)
  {
    EmptyLog([]);
  }

  lemma {:induction false} UserEditOk(s: State, p: Path, changes: seq<Change>, after: Text, source: Source)
    requires PathOk(s, p) && Allowed(s, p, EUserEdit(changes, after, source))
    ensures PathOk(UserEdit(s, p, changes, after, source), p)
  {
    var c := s.copies[p];
    var b := NewBatch(c.pending, c.current, changes, source);
    SequentialIsSimultaneous(c.current, changes);
    PushBatch(c.base, c.pending, c.current, b, after);
  }

  lemma {:induction false} OfflineCopy(s: State, p: Path, edits: seq<WorkspaceEdit>, source: Source)
    ensures var t, copy, changes := Content(s, p), CopyOf(s, p), EditsToChanges(Content(s, p), edits);
            var after := OfflineEdit(s, p, edits, source).copies[p];
            && after.base == copy.base && after.current == AfterChanges(t, changes)
            && after.pending == copy.pending + [NewBatch(copy.pending, t, changes, source)]
  {}

  /** An ordered list of edits, added to the log. */
  lemma {:induction false} OrderedEditsLogged(c: WorkingCopy, edits: seq<WorkspaceEdit>, source: Source)
    requires LogOk(c) && Descends(c.pending) && EditsInOrder(c.current, edits)
    ensures var changes := EditsToChanges(c.current, edits);
            var pending := c.pending + [NewBatch(c.pending, c.current, changes, source)];
            Replays(c.base, pending, AfterChanges(c.current, changes)) && Descends(pending)
  {
    var changes := EditsToChanges(c.current, edits);
    OrderedEditsAreBatch(c.current, edits);
    SequentialIsSimultaneous(c.current, changes);
    BrowserMatchesGateway(c.current, changes);
    assert OffsetsDescend(changes);
    PushBatch(c.base, c.pending, c.current, NewBatch(c.pending, c.current, changes, source),
      AfterChanges(c.current, changes));
  }

  lemma {:induction false} OfflineEditOk(s: State, p: Path, edits: seq<WorkspaceEdit>, source: Source)
    requires PathOk(s, p) && Allowed(s, p, EOfflineEdit(edits, source))
    ensures PathOk(OfflineEdit(s, p, edits, source), p)
  {
    var c := CopyOf(s, p);
    assert LogOk(c) by { if p !in s.copies { EmptyLog([]); } }
    OrderedEditsLogged(c, edits, source);
    OfflineCopy(s, p, edits, source);
  }

  lemma {:induction false} RestoredLog(r: BackupRecord)
    requires r.dirty && Fits(r.base) && (r.pending == [] || Replays(r.base, r.pending, r.current))
    ensures Replays(r.base, RestoredPending(r), r.current)
  {
    SnapshotReplays(r.base, r.current);
    EmptyLog(r.base);
  }

  lemma {:induction false} RestoreOk(s: State, p: Path, remoteMoved: bool)
    requires PathOk(s, p) && Allowed(s, p, ERestore(remoteMoved))
    ensures PathOk(Restore(s, p, remoteMoved), p)
  {
    if p in s.backups && s.backups[p].dirty {
      var r := s.backups[p];
      RestoredLog(r);
      assert Descends(RestoredPending(r));
      var s' := Restore(s, p, remoteMoved);
      assert s'.copies[p] == RestoredCopy(CopyOf(s, p), r, remoteMoved) && s'.contents[p] == r.current;
      assert s'.backups == s.backups && s'.models == s.models;
    }
  }

  lemma {:induction false} WriteBackupOk(s: State, p: Path)
    requires PathOk(s, p)
    ensures PathOk(WriteBackup(s, p), p)
  {
    EmptyLog([]);
  }

  lemma {:induction false} StepOk(s: State, p: Path, e: Event)
    requires PathOk(s, p) && Allowed(s, p, e)
    ensures PathOk(Step(s, p, e), p)
  {
    match e {
      case EUserEdit(changes, after, source) => UserEditOk(s, p, changes, after, source);
      case EOfflineEdit(edits, source) => OfflineEditOk(s, p, edits, source);
      case ERestore(remoteMoved) => RestoreOk(s, p, remoteMoved);
      case EWriteBackup => WriteBackupOk(s, p);
      case EFinishLoading(version, readOnly) => FinishLoadingOk(s, p, version, readOnly);
      case ESetContent(v, markClean) => SetContentOk(s, p, v, markClean);
      case EAttachEditor(v) => AttachEditorOk(s, p, v);
      case EMarkSaved(saved, version) => MarkSavedOk(s, p, saved, version);
      case ESaveCompleted(outcome) => SaveCompletedOk(s, p, outcome);
      case EDiscard => DiscardOk(s, p);
      case ERevert(v) => RevertOk(s, p, v);
      case EMarkDirty => MarkDirtyOk(s, p);
      case EStartLoading => StartLoadingOk(s, p);
      case EAppendChunk(chunk) => AppendChunkOk(s, p, chunk);
      case EFailLoading => FailLoadingOk(s, p);
      case EDetachModel => DetachModelOk(s, p);
    }
  }

  lemma {:induction false} StepKeepsInvariant(s: State, p: Path, e: Event)
    requires Invariant(s) && Allowed(s, p, e)
    ensures Invariant(Step(s, p, e))
  {
    var s' := Step(s, p, e);
    forall q: Path
      ensures PathOk(s', q)
    {
      assert PathOk(s, q);
      if q == p { StepOk(s, p, e); } else { StepIsLocal(s, p, e, q); }
    }
  }

  // ---- Whole runs ----

  function Run(s: State, events: seq<(Path, Event)>): State {
    if events == [] then s
    else
      var (p, e) := events[|events| - 1];
      Step(Run(s, events[..|events| - 1]), p, e)
  }

  ghost predicate AllowedRun(s: State, events: seq<(Path, Event)>) {
    events == [] ||
    var init := events[..|events| - 1];
    var (p, e) := events[|events| - 1];
    AllowedRun(s, init) && Allowed(Run(s, init), p, e)
  }

  lemma {:induction false} RunKeepsInvariant(s: State, events: seq<(Path, Event)>)
    requires Invariant(s) && AllowedRun(s, events)
    ensures Invariant(Run(s, events))
  {
    if events != [] {
      var init := events[..|events| - 1];
      var (p, e) := events[|events| - 1];
      RunKeepsInvariant(s, init);
      StepKeepsInvariant(Run(s, init), p, e);
    }
  }

  const EMPTY_STATE := State(map[], map[], map[], map[])

  lemma {:induction false} EmptyStateOk()
    ensures Invariant(EMPTY_STATE)
  {}
}
