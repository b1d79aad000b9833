/** The browser's working copies as values: one transition function per operation of the service, and
    the invariant that ties each copy's pending log to its base and current text. */
module WorkingCopies {
  import opened Unicode
  import opened Edits
  import opened BrowserText

  datatype ClientBatch = ClientBatch(number: nat, source: Source, changes: seq<Change>,
      treeSitterEdits: seq<TreeSitterEdit>)

  datatype WorkingCopy = WorkingCopy(
    base: Text, version: ResourceVersion, current: Text, pending: seq<ClientBatch>,
    dirty: bool, conflict: bool, loading: bool, loadError: bool, readOnly: bool)

  datatype BackupRecord = BackupRecord(
    base: Text, version: ResourceVersion, current: Text, pending: seq<ClientBatch>, dirty: bool, conflict: bool)

  /** Working copies, the plain contents map, the values of the live editor models, and stored backups. */
  datatype State = State(
    copies: map<Path, WorkingCopy>, contents: map<Path, Text>,
    models: map<Path, Text>, backups: map<Path, BackupRecord>)

  /** An edit whose missing parts default to an insertion at the end. */
  datatype WorkspaceEdit = WorkspaceEdit(offset: Option<nat>, length: Option<nat>, text: Option<Text>)

  datatype SaveOutcome = SaveConflict | Saved(version: ResourceVersion)

  /** A server's answer as it comes: a saved answer may name another path, or no version. */
  datatype SaveAnswer =
    | ConflictAnswer
    | SavedAnswer(path: Option<Path>, version: Option<ResourceVersion>)
    | OtherAnswer

  // ---- Batches ----

  function ToWire(b: ClientBatch): Batch {
    Batch(b.number, b.source, b.changes)
  }

  function Wire(batches: seq<ClientBatch>): seq<Batch> {
    seq(|batches|, i requires 0 <= i < |batches| => ToWire(batches[i]))
  }

  function NextNumber(pending: seq<ClientBatch>): nat {
    (if pending == [] then 0 else pending[|pending| - 1].number) + 1
  }

  function TreeSitterEdits(before: Text, changes: seq<Change>): seq<TreeSitterEdit> {
    seq(|changes|, i requires 0 <= i < |changes| =>
      ToTreeSitterEdit(before, changes[i].offset, changes[i].length, changes[i].text))
  }

  function NewBatch(pending: seq<ClientBatch>, before: Text, changes: seq<Change>, source: Source): ClientBatch {
    ClientBatch(NextNumber(pending), source, changes, TreeSitterEdits(before, changes))
  }

  /** One batch that replaces the whole base. */
  function SnapshotBatch(base: Text, current: Text): ClientBatch {
    var length := Units(base, |base|);
    var change := Change(Position(0, 0), LspPosition(base, length), 0, length, current);
    ClientBatch(1, User, [change], [ToTreeSitterEdit(base, 0, length, current)])
  }

  function EditsToChanges(before: Text, edits: seq<WorkspaceEdit>): seq<Change> {
    seq(|edits|, i requires 0 <= i < |edits| =>
      var offset := edits[i].offset.GetOr(Units(before, |before|));
      var length := edits[i].length.GetOr(0);
      Change(LspPosition(before, offset), LspPosition(before, offset + length), offset, length,
        edits[i].text.GetOr([])))
  }

  // ---- Transitions ----

  function Fresh(s: State, p: Path): WorkingCopy {
    var current := if p in s.contents then s.contents[p] else [];
    WorkingCopy([], UnknownVersion, current, [], false, false, false, false, false)
  }

  /** The copy of `p`, made on first use. */
  function CopyOf(s: State, p: Path): WorkingCopy {
    if p in s.copies then s.copies[p] else Fresh(s, p)
  }

  function Content(s: State, p: Path): Text {
    if p in s.models then s.models[p]
    else if p in s.copies then s.copies[p].current
    else if p in s.contents then s.contents[p]
    else []
  }

  /** Store a copy, and its text in the contents map. */
  function Store(s: State, p: Path, c: WorkingCopy): State {
    s.(copies := s.copies[p := c], contents := s.contents[p := c.current])
  }

  /** Give the live model, if there is one, the value `v`. */
  function ModelTo(s: State, p: Path, v: Text): State {
    if p in s.models then s.(models := s.models[p := v]) else s
  }

  function WithoutBackup(s: State, p: Path): State {
    s.(backups := s.backups - {p})
  }

  function StartLoading(s: State, p: Path): State {
    var c := CopyOf(s, p).(current := [], pending := [], dirty := false, conflict := false,
                           loading := true, loadError := false, readOnly := true);
    ModelTo(Store(s, p, c), p, [])
  }

  function AppendChunk(s: State, p: Path, chunk: Text): State {
    var next := (if p in s.contents then s.contents[p] else []) + chunk;
    var c := CopyOf(s, p).(current := next, loading := true, readOnly := true);
    ModelTo(Store(s, p, c), p, (if p in s.models then s.models[p] else []) + chunk)
  }

  function FinishLoading(s: State, p: Path, version: ResourceVersion, readOnly: bool): State {
    var value := Content(s, p);
    var c := CopyOf(s, p).(base := value, version := version, current := value, pending := [],
                           dirty := false, conflict := false, loading := false, readOnly := readOnly);
    WithoutBackup(Store(s, p, c), p)
  }

  function FailLoading(s: State, p: Path): State {
    s.(copies := s.copies[p := CopyOf(s, p).(loading := false, loadError := true, readOnly := true)])
  }

  function SetContent(s: State, p: Path, v: Text, markClean: bool): State {
    var c := CopyOf(s, p).(current := v);
    var put := ModelTo(Store(s, p, c), p, v);
    if markClean then WithoutBackup(put.(copies := put.copies[p := c.(base := v, dirty := false, pending := [])]), p)
    else put
  }

  function AttachModel(s: State, p: Path, v: Text): State {
    Store(s.(models := s.models[p := v]), p, CopyOf(s, p).(current := v))
  }

  /** What the editor pane does on mount: attach the model, then put back the content it replaced. */
  function AttachEditor(s: State, p: Path, v: Text): State {
    var shown := Content(s, p);
    var attached := AttachModel(s, p, v);
    if v != shown then SetContent(attached, p, shown, false) else attached
  }

  function DetachModel(s: State, p: Path): State {
    if p !in s.models then s
    else
      var v := s.models[p];
      var kept := s.(contents := s.contents[p := v], models := s.models - {p});
      if p in s.copies then kept.(copies := s.copies[p := s.copies[p].(current := v)]) else kept
  }

  function MarkSaved(s: State, p: Path, value: Option<Text>, version: Option<ResourceVersion>): State {
    var v := value.GetOr(Content(s, p));
    var c := CopyOf(s, p);
    WithoutBackup(Store(s, p, c.(base := v, version := version.GetOr(c.version), current := v, pending := [],
                                 dirty := false, conflict := false)), p)
  }

  function MarkDirty(s: State, p: Path): State {
    s.(copies := s.copies[p := CopyOf(s, p).(dirty := true)])
  }

  /** The model reports `changes`; the model already holds its new value. */
  function ModelChanged(s: State, p: Path, changes: seq<Change>, source: Source): State {
    var c := CopyOf(s, p);
    var after := if p in s.models then s.models[p] else AfterChanges(c.current, changes);
    var batch := NewBatch(c.pending, c.current, changes, source);
    Store(s, p, c.(current := after, pending := c.pending + [batch], dirty := true))
  }

  /** The user types: the model takes the value `v` and reports how. */
  function UserEdit(s: State, p: Path, changes: seq<Change>, v: Text, source: Source): State {
    ModelChanged(s.(models := s.models[p := v]), p, changes, source)
  }

  /** A workspace edit on a buffer that no editor shows. */
  function OfflineEdit(s: State, p: Path, edits: seq<WorkspaceEdit>, source: Source): State {
    var before, c := Content(s, p), CopyOf(s, p);
    var changes := EditsToChanges(before, edits);
    Store(s, p, c.(current := AfterChanges(before, changes),
                   pending := c.pending + [NewBatch(c.pending, before, changes, source)], dirty := true))
  }

  function SaveCompleted(s: State, p: Path, outcome: SaveOutcome): State {
    match outcome
    case SaveConflict => s.(copies := s.copies[p := CopyOf(s, p).(conflict := true)])
    case Saved(version) => MarkSaved(s, p, Some(Content(s, p)), Some(version))
  }

  /** What the service makes of an answer to the save of `p`: a saved answer is taken for the path it names,
      with the text of `p`. */
  function SaveAnswered(s: State, p: Path, a: SaveAnswer): State {
    match a
    case ConflictAnswer => SaveCompleted(s, p, SaveConflict)
    case SavedAnswer(answered, version) => MarkSaved(s, answered.GetOr(p), Some(Content(s, p)), version)
    case OtherAnswer => s
  }

  function Discard(s: State, p: Path): State {
    var c := CopyOf(s, p);
    WithoutBackup(Store(s, p, c.(current := c.base, dirty := false, conflict := false, pending := [])), p)
  }

  function Revert(s: State, p: Path, v: Text): State {
    var c := CopyOf(s, p).(base := v, current := v, dirty := false, conflict := false, pending := [], loading := false);
    WithoutBackup(ModelTo(Store(s, p, c), p, v), p)
  }

  function WriteBackup(s: State, p: Path): State {
    var c := CopyOf(s, p);
    if !c.dirty && !c.conflict then s.(copies := s.copies[p := c])
    else
      s.(copies := s.copies[p := c],
         backups := s.backups[p := BackupRecord(c.base, c.version, Content(s, p), c.pending, true, c.conflict)])
  }

  function RestoredPending(r: BackupRecord): seq<ClientBatch> {
    if r.dirty && r.pending == [] && r.base != r.current then [SnapshotBatch(r.base, r.current)] else r.pending
  }

  function RestoredCopy(c: WorkingCopy, r: BackupRecord, remoteMoved: bool): WorkingCopy {
    c.(base := r.base, version := r.version, current := r.current, pending := RestoredPending(r),
       dirty := r.dirty, conflict := r.conflict || remoteMoved, loading := false, readOnly := false)
  }

  /** Bring back the backup of `p`; a record without batches gets one that replaces the whole base. */
  function Restore(s: State, p: Path, remoteMoved: bool): State {
    if p !in s.backups || !s.backups[p].dirty then s
    else
      Store(s, p, RestoredCopy(CopyOf(s, p), s.backups[p], remoteMoved))
  }
}
