/** What each operation of the working-copy service does to one side of a copy at a time: base, version, what is
    shown, the log, the flags and the backup; what the dirty flag tells, over every run; and what the sequences of
    operations come to that the application makes to load, take back and exchange whole files. */
module StepEffects {
  import opened Unicode
  import opened Edits
  import opened BrowserText
  import opened WorkingCopies
  import opened PendingLog

  /** The record that a restore of `p` brings back. */
  predicate Restorable(s: State, p: Path) {
    p in s.backups && s.backups[p].dirty
  }

  /** A load that finishes, a save, a revert and a clean whole text give a copy a new base; a restore brings back
      the backup's. Nothing else touches it. */
  lemma {:induction false} BaseAfter(s: State, p: Path, e: Event)
    ensures CopyOf(Step(s, p, e), p).base ==
            match e
            case EFinishLoading(_, _) => Content(s, p)
            case ESetContent(v, clean) => if clean then v else CopyOf(s, p).base
            case EMarkSaved(saved, _) => if saved.Some? then saved.value else Content(s, p)
            case ESaveCompleted(outcome) => if outcome.Saved? then Content(s, p) else CopyOf(s, p).base
            case ERevert(v) => v
            case ERestore(_) => if Restorable(s, p) then s.backups[p].base else CopyOf(s, p).base
            case _ => CopyOf(s, p).base
  {
    if e.EAttachEditor? { AttachKeeps(s, p, e.value); }
  }

  /** The version changes with a finished load and with a save that brings one, and is restored with its base. */
  lemma {:induction false} VersionAfter(s: State, p: Path, e: Event)
    ensures CopyOf(Step(s, p, e), p).version ==
            match e
            case EFinishLoading(version, _) => version
            case EMarkSaved(_, version) => if version.Some? then version.value else CopyOf(s, p).version
            case ESaveCompleted(outcome) => if outcome.Saved? then outcome.version else CopyOf(s, p).version
            case ERestore(_) => if Restorable(s, p) then s.backups[p].version else CopyOf(s, p).version
            case _ => CopyOf(s, p).version
  {
    if e.EAttachEditor? { AttachKeeps(s, p, e.value); }
  }

  /** An edit logs one batch more; a load, a save, a discard, a revert and a clean whole text empty the log; a
      restore brings back the backup's, or one batch in its place. */
  lemma {:induction false} LogAfter(s: State, p: Path, e: Event)
    ensures var before, after := CopyOf(s, p).pending, CopyOf(Step(s, p, e), p).pending;
            match e
            case EUserEdit(_, _, _) => |after| == |before| + 1 && before <= after
            case EOfflineEdit(_, _) => |after| == |before| + 1 && before <= after
            case EStartLoading => after == []
            case EFinishLoading(_, _) => after == []
            case ESetContent(_, clean) => after == if clean then [] else before
            case EMarkSaved(_, _) => after == []
            case ESaveCompleted(outcome) => after == if outcome.Saved? then [] else before
            case EDiscard => after == []
            case ERevert(_) => after == []
            case ERestore(_) =>
              if !Restorable(s, p) then after == before
              else if s.backups[p].pending != [] || s.backups[p].base == s.backups[p].current then
                after == s.backups[p].pending
              else |after| == 1 && after[0].number == 1 && |after[0].changes| == 1
                   && after[0].changes[0].text == s.backups[p].current
            case _ => after == before
  {
    if e.EAttachEditor? { AttachKeeps(s, p, e.value); }
  }

  lemma {:induction false} DirtyAfter(s: State, p: Path, e: Event)
    ensures CopyOf(Step(s, p, e), p).dirty ==
            match e
            case EUserEdit(_, _, _) => true
            case EOfflineEdit(_, _) => true
            case EMarkDirty => true
            case EStartLoading => false
            case EFinishLoading(_, _) => false
            case ESetContent(_, clean) => !clean && CopyOf(s, p).dirty
            case EMarkSaved(_, _) => false
            case ESaveCompleted(outcome) => outcome.SaveConflict? && CopyOf(s, p).dirty
            case EDiscard => false
            case ERevert(_) => false
            case ERestore(_) => Restorable(s, p) || CopyOf(s, p).dirty
            case _ => CopyOf(s, p).dirty
  {
    if e.EAttachEditor? { AttachKeeps(s, p, e.value); }
  }

  /** A conflict comes from a save that meets one or from a restore, and goes with a load, a save, a discard or a
      revert. */
  lemma {:induction false} ConflictAfter(s: State, p: Path, e: Event)
    ensures CopyOf(Step(s, p, e), p).conflict ==
            match e
            case EStartLoading => false
            case EFinishLoading(_, _) => false
            case EMarkSaved(_, _) => false
            case ESaveCompleted(outcome) => outcome.SaveConflict?
            case EDiscard => false
            case ERevert(_) => false
            case ERestore(moved) => if Restorable(s, p) then s.backups[p].conflict || moved else CopyOf(s, p).conflict
            case _ => CopyOf(s, p).conflict
  {
    if e.EAttachEditor? { AttachKeeps(s, p, e.value); }
  }

  /** When a copy can be edited and saved: never while it loads or after a load that failed, again once a load
      finishes whole or a backup is restored. */
  lemma {:induction false} LockAfter(s: State, p: Path, e: Event)
    ensures var c, c' := CopyOf(s, p), CopyOf(Step(s, p, e), p);
            match e
            case EStartLoading => c'.loading && c'.readOnly && !c'.loadError
            case EAppendChunk(_) => c'.loading && c'.readOnly
            case EFinishLoading(_, readOnly) => !c'.loading && c'.readOnly == readOnly
            case EFailLoading => !c'.loading && c'.readOnly && c'.loadError
            case ERevert(_) => !c'.loading && c'.readOnly == c.readOnly
            case ERestore(_) =>
              if Restorable(s, p) then !Unsettled(c') else c'.loading == c.loading && c'.readOnly == c.readOnly
            case _ => SameLock(c, c')
  {
    LockKept(s, p, e);
    EditKeepsLock(s, p, e);
  }

  predicate SameLock(c: WorkingCopy, c': WorkingCopy) {
    c'.loading == c.loading && c'.readOnly == c.readOnly && c'.loadError == c.loadError
  }

  lemma {:induction false} LockKept(s: State, p: Path, e: Event)
    ensures e.ESetContent? || e.EAttachEditor? || e.EDetachModel? || e.EDiscard? ==>
              SameLock(CopyOf(s, p), CopyOf(Step(s, p, e), p))
  {
    if e.EAttachEditor? { AttachKeeps(s, p, e.value); }
  }

  lemma {:induction false} EditKeepsLock(s: State, p: Path, e: Event)
    ensures e.EMarkSaved? || e.EMarkDirty? || e.EUserEdit? || e.EOfflineEdit? || e.ESaveCompleted?
            || e.EWriteBackup? ==>
              SameLock(CopyOf(s, p), CopyOf(Step(s, p, e), p))
  {}

  /** A backup is written with all there is to restore, and is gone once the text is clean again. */
  lemma {:induction false} BackupAfter(s: State, p: Path, e: Event)
    ensures var c, s' := CopyOf(s, p), Step(s, p, e);
            match e
            case EWriteBackup =>
              if c.dirty || c.conflict then
                && p in s'.backups
                && s'.backups[p] == BackupRecord(c.base, c.version, Content(s, p), c.pending, true, c.conflict)
              else s'.backups == s.backups
            case EFinishLoading(_, _) => p !in s'.backups
            case ESetContent(_, clean) => if clean then p !in s'.backups else s'.backups == s.backups
            case EMarkSaved(_, _) => p !in s'.backups
            case ESaveCompleted(outcome) => if outcome.Saved? then p !in s'.backups else s'.backups == s.backups
            case EDiscard => p !in s'.backups
            case ERevert(_) => p !in s'.backups
            case _ => s'.backups == s.backups
  {}

  /** What the user sees changes only by editing, loading, a whole text put in, a discard, a revert or a restore
      of a buffer that no editor shows. */
  lemma {:induction false} ShownAfter(s: State, p: Path, e: Event)
    requires PathOk(s, p)
    ensures Content(Step(s, p, e), p) ==
            match e
            case EUserEdit(_, after, _) => after
            case EOfflineEdit(edits, _) =>
              if p in s.models then s.models[p] else AfterChanges(Content(s, p), EditsToChanges(Content(s, p), edits))
            case EStartLoading => []
            case EAppendChunk(chunk) => Content(s, p) + chunk
            case ESetContent(v, _) => v
            case EMarkSaved(saved, _) =>
              if p !in s.models && saved.Some? then saved.value else Content(s, p)
            case EDiscard => if p in s.models then s.models[p] else CopyOf(s, p).base
            case ERevert(v) => v
            case ERestore(_) => if p !in s.models && Restorable(s, p) then s.backups[p].current else Content(s, p)
            case _ => Content(s, p)
  {
    hide EditsToChanges, AfterChanges, ToTreeSitterEdit;
    if e.EAttachEditor? { AttachedShows(s, p, e.value); }
  }

  /** What the service keeps for a path besides its copy, and answers with if there is none: an editor that closes
      leaves its text there, and every other operation that puts in a text puts it there too. */
  lemma {:induction false} KeptAfter(s: State, p: Path, e: Event)
    ensures var s' := Step(s, p, e);
            match e
            case EDetachModel =>
              if p in s.models then p in s'.contents && s'.contents[p] == s.models[p] else s'.contents == s.contents
            case EFailLoading => s'.contents == s.contents
            case EMarkDirty => s'.contents == s.contents
            case EWriteBackup => s'.contents == s.contents
            case ESaveCompleted(outcome) => outcome.SaveConflict? ==> s'.contents == s.contents
            case ERestore(_) => if Restorable(s, p) then HoldsCurrent(s', p) else s'.contents == s.contents
            case _ => HoldsCurrent(s', p)
  {
    if e.EAttachEditor? && e.value != Content(s, p) {
      PutBack(AttachModel(s, p, e.value), p, Content(s, p));
    }
  }

  predicate HoldsCurrent(s: State, p: Path) {
    p in s.copies && p in s.contents && s.contents[p] == s.copies[p].current
  }

  lemma {:induction false} AttachKeeps(s: State, p: Path, v: Text)
    ensures var c, s' := CopyOf(s, p), AttachEditor(s, p, v);
            && p in s'.copies && s'.copies[p].(current := []) == c.(current := []) && s'.backups == s.backups
  {
    var attached := AttachModel(s, p, v);
    assert attached.copies[p] == CopyOf(s, p).(current := v);
    if v != Content(s, p) { PutBack(attached, p, Content(s, p)); }
  }

  /** A copy made on first use is empty but for what the contents map has, clean and editable. */
  lemma {:induction false} FreshIsClean(s: State, p: Path)
    requires p !in s.copies
    ensures var c := CopyOf(s, p);
            && c.base == [] && c.version == UnknownVersion && c.pending == []
            && c.current == (if p in s.contents then s.contents[p] else [])
            && !c.dirty && !c.conflict && !c.loading && !c.loadError && !c.readOnly
  {}

  /** An answer that is neither a conflict nor a save changes nothing; a conflict marks the copy and leaves all
      else, the log included. */
  lemma {:induction false} AnswerExactly(s: State, p: Path)
    ensures SaveAnswered(s, p, OtherAnswer) == s
    ensures SaveAnswered(s, p, ConflictAnswer) == s.(copies := s.copies[p := CopyOf(s, p).(conflict := true)])
  {}

  // ---- What a clean copy is ----

  /** A copy that is not dirty has nothing in its log, and, unless its text is incomplete, holds its base. */
  predicate CleanHoldsBase(c: WorkingCopy) {
    !c.dirty ==> c.pending == [] && (Unsettled(c) || c.current == c.base)
  }

  predicate CleanAt(s: State, p: Path) {
    && (p in s.copies ==> CleanHoldsBase(s.copies[p]))
    && (p in s.backups ==> s.backups[p].dirty)
  }

  /** The operations keep that: nothing a user did can be missing from the log of a copy that is called clean. */
  lemma {:induction false} StepKeepsClean(s: State, p: Path, e: Event)
    requires PathOk(s, p) && CleanAt(s, p) && Allowed(s, p, e)
    ensures CleanAt(Step(s, p, e), p)
  {
    if e.EAttachEditor? {
      AttachEditorOk(s, p, e.value);
      AttachKeeps(s, p, e.value);
    } else if e.EUserEdit? || e.EOfflineEdit? || e.EMarkDirty? || e.ESaveCompleted? || e.EWriteBackup? || e.ERestore? {
      EditKeepsClean(s, p, e);
    } else {
      LoadKeepsClean(s, p, e);
    }
  }

  lemma {:induction false} EditKeepsClean(s: State, p: Path, e: Event)
    requires e.EUserEdit? || e.EOfflineEdit? || e.EMarkDirty? || e.ESaveCompleted? || e.EWriteBackup? || e.ERestore?
    requires PathOk(s, p) && CleanAt(s, p) && Allowed(s, p, e)
    ensures CleanAt(Step(s, p, e), p)
  {
    hide Content, ToTreeSitterEdit, EditsToChanges, AfterChanges;
  }

  lemma {:induction false} LoadKeepsClean(s: State, p: Path, e: Event)
    requires !(e.EUserEdit? || e.EOfflineEdit? || e.EMarkDirty? || e.ESaveCompleted? || e.EWriteBackup? || e.ERestore?)
    requires !e.EAttachEditor? && PathOk(s, p) && CleanAt(s, p) && Allowed(s, p, e)
    ensures CleanAt(Step(s, p, e), p)
  {}

  lemma {:induction false} RunKeepsClean(events: seq<(Path, Event)>, p: Path)
    requires AllowedRun(EMPTY_STATE, events)
    ensures CleanAt(Run(EMPTY_STATE, events), p)
  {
    if events != [] {
      var init := events[..|events| - 1];
      var (q, e) := events[|events| - 1];
      RunKeepsClean(init, p);
      var s := Run(EMPTY_STATE, init);
      EmptyStateOk();
      RunKeepsInvariant(EMPTY_STATE, init);
      assert PathOk(s, p);
      if q == p { StepKeepsClean(s, p, e); } else { StepIsLocal(s, q, e, p); }
    }
  }

  /** Over every run from the start: a buffer that is not dirty and can be edited shows exactly its base, so that
      closing it loses nothing. */
  lemma {:induction false} CleanShowsBase(events: seq<(Path, Event)>, p: Path)
    requires AllowedRun(EMPTY_STATE, events)
    requires var s := Run(EMPTY_STATE, events);
             p in s.copies && !s.copies[p].dirty && !Unsettled(s.copies[p])
    ensures var s := Run(EMPTY_STATE, events);
            Content(s, p) == s.copies[p].base && s.copies[p].pending == []
  {
    RunKeepsClean(events, p);
    EmptyStateOk();
    RunKeepsInvariant(EMPTY_STATE, events);
    assert PathOk(Run(EMPTY_STATE, events), p);
  }

  // ---- Loads, reverts and whole files: the application's sequences of operations ----

  function Concat(chunks: seq<Text>): Text {
    if chunks == [] then [] else Concat(chunks[..|chunks| - 1]) + chunks[|chunks| - 1]
  }

  function AppendChunks(s: State, p: Path, chunks: seq<Text>): State {
    if chunks == [] then s
    else AppendChunk(AppendChunks(s, p, chunks[..|chunks| - 1]), p, chunks[|chunks| - 1])
  }

  /** A complete load: the chunks, then the version of the whole text. */
  function Loaded(s: State, p: Path, chunks: seq<Text>, version: ResourceVersion): State {
    FinishLoading(AppendChunks(StartLoading(s, p), p, chunks), p, version, false)
  }

  /** What the application does to take back a conflicting file: finish a load with the new version, then
      put in the text that was read. */
  function Reloaded(s: State, p: Path, v: Text, version: ResourceVersion): State {
    Revert(FinishLoading(s, p, version, false), p, v)
  }

  /** What it does when buffers cannot be streamed: put in the whole text, mark it saved, and leave it
      under a marker that equals no version. The editor then takes the file for loaded and editable. */
  function OpenedWhole(s: State, p: Path, v: Text): State {
    var s' := MarkSaved(SetContent(s, p, v, false), p, Some(v), Some(UnknownVersion));
    s'.(copies := s'.copies[p := s'.copies[p].(loading := false, readOnly := false)])
  }

  /** What it does when such a file has been written whole. */
  function SavedWhole(s: State, p: Path): State {
    MarkSaved(s, p, Some(Content(s, p)), Some(UnknownVersion))
  }

  /** Operations that leave the base text and its version alone. The others come with an exchange with the
      gateway: a load, a save, a reload, or the reading and writing of a whole file. */
  predicate KeepsBase(e: Event) {
    match e
    case EFinishLoading(_, _) => false
    case EMarkSaved(_, _) => false
    case ESaveCompleted(outcome) => outcome.SaveConflict?
    case ERevert(_) => false
    case ESetContent(_, markClean) => !markClean
    case _ => true
  }

  lemma {:induction false} ChunksArrive(s: State, p: Path, chunks: seq<Text>)
    requires PathOk(s, p)
    ensures var s' := AppendChunks(StartLoading(s, p), p, chunks);
            && PathOk(s', p) && p in s'.copies && s'.copies[p].loading && !s'.copies[p].loadError
            && Content(s', p) == Concat(chunks) && s'.backups == s.backups
  {
    if chunks == [] {
      StartLoadingOk(s, p);
    } else {
      var init, last := chunks[..|chunks| - 1], chunks[|chunks| - 1];
      ChunksArrive(s, p, init);
      AppendChunkOk(AppendChunks(StartLoading(s, p), p, init), p, last);
    }
  }

  lemma {:induction false} ChunksAreLocal(s: State, p: Path, chunks: seq<Text>, q: Path)
    requires q != p
    ensures SameAt(s, AppendChunks(StartLoading(s, p), p, chunks), q)
  {
    if chunks == [] {
      StepIsLocal(s, p, EStartLoading, q);
    } else {
      var init, last := chunks[..|chunks| - 1], chunks[|chunks| - 1];
      ChunksAreLocal(s, p, init, q);
      StepIsLocal(AppendChunks(StartLoading(s, p), p, init), p, EAppendChunk(last), q);
    }
  }

  /** A finished load shows, and keeps as its base, exactly the streamed text. */
  lemma {:induction false} LoadedOk(s: State, p: Path, chunks: seq<Text>, version: ResourceVersion)
    requires Invariant(s)
    ensures var s' := Loaded(s, p, chunks, version);
            && Invariant(s') && p in s'.copies && s'.copies[p].base == Content(s', p) == Concat(chunks)
            && !Unsettled(s'.copies[p])
            && s'.copies[p].version == version && s'.copies[p].pending == [] && p !in s'.backups
            && !s'.copies[p].dirty && !s'.copies[p].conflict
            && forall q | q != p :: SameAt(s, s', q)
  {
    hide StartLoading, AppendChunks;
    assert PathOk(s, p);
    ChunksArrive(s, p, chunks);
    var arrived := AppendChunks(StartLoading(s, p), p, chunks);
    FinishLoadingOk(arrived, p, version, false);
    forall q | q != p
      ensures SameAt(s, Loaded(s, p, chunks, version), q) && PathOk(Loaded(s, p, chunks, version), q)
    {
      assert PathOk(s, q);
      ChunksAreLocal(s, p, chunks, q);
      StepIsLocal(arrived, p, EFinishLoading(version, false), q);
    }
  }

  lemma {:induction false} ReloadedOk(s: State, p: Path, v: Text, version: ResourceVersion)
    requires Invariant(s)
    ensures var s' := Reloaded(s, p, v, version);
            && Invariant(s') && p in s'.copies && s'.copies[p].base == Content(s', p) == v && !Unsettled(s'.copies[p])
            && s'.copies[p].version == version && s'.copies[p].pending == [] && p !in s'.backups
            && !s'.copies[p].dirty && !s'.copies[p].conflict
            && forall q | q != p :: SameAt(s, s', q)
  {
    var finished := FinishLoading(s, p, version, false);
    StepKeepsInvariant(s, p, EFinishLoading(version, false));
    StepKeepsInvariant(finished, p, ERevert(v));
    forall q | q != p
      ensures SameAt(s, Reloaded(s, p, v, version), q)
    {
      StepIsLocal(s, p, EFinishLoading(version, false), q);
      StepIsLocal(finished, p, ERevert(v), q);
    }
  }

  lemma {:induction false} OpenedWholeOk(s: State, p: Path, v: Text)
    requires Invariant(s)
    ensures var s' := OpenedWhole(s, p, v);
            && Invariant(s') && p in s'.copies && s'.copies[p].base == Content(s', p) == v && !Unsettled(s'.copies[p])
            && s'.copies[p].version == UnknownVersion && s'.copies[p].pending == [] && p !in s'.backups
            && !s'.copies[p].dirty && !s'.copies[p].conflict
            && forall q | q != p :: SameAt(s, s', q)
  {
    var put := SetContent(s, p, v, false);
    forall q | q != p
      ensures SameAt(s, OpenedWhole(s, p, v), q) && PathOk(OpenedWhole(s, p, v), q)
    {
      assert PathOk(s, q);
      StepIsLocal(s, p, ESetContent(v, false), q);
      StepIsLocal(put, p, EMarkSaved(Some(v), Some(UnknownVersion)), q);
    }
    assert PathOk(s, p);
    EmptyLog(v);
  }

  lemma {:induction false} SavedWholeOk(s: State, p: Path)
    requires Invariant(s)
    ensures var s' := SavedWhole(s, p);
            && Invariant(s') && p in s'.copies && s'.copies[p].base == Content(s', p) == Content(s, p)
            && s'.copies[p].version == UnknownVersion && s'.copies[p].pending == [] && p !in s'.backups
            && !s'.copies[p].dirty && !s'.copies[p].conflict
            && forall q | q != p :: SameAt(s, s', q)
  {
    var e := EMarkSaved(Some(Content(s, p)), Some(UnknownVersion));
    assert PathOk(s, p);
    StepKeepsInvariant(s, p, e);
    forall q | q != p
      ensures SameAt(s, SavedWhole(s, p), q)
    {
      StepIsLocal(s, p, e, q);
    }
  }

  /** Where a copy's base and version can come from in an operation that keeps them: the copy or the
      backup of the same path, or the untouched copy made on first use. */
  ghost predicate BaseFrom(s: State, p: Path, base: Text, version: ResourceVersion) {
    || (base == CopyOf(s, p).base && version == CopyOf(s, p).version)
    || (p in s.backups && base == s.backups[p].base && version == s.backups[p].version)
  }

  ghost predicate BasesFrom(s: State, s': State, p: Path) {
    && (p in s'.copies ==> BaseFrom(s, p, s'.copies[p].base, s'.copies[p].version))
    && (p in s'.backups ==> BaseFrom(s, p, s'.backups[p].base, s'.backups[p].version))
  }

  lemma {:induction false} BasesKept(s: State, p: Path, e: Event)
    requires KeepsBase(e)
    ensures BasesFrom(s, Step(s, p, e), p)
  {
    hide Step;
    BaseAfter(s, p, e);
    VersionAfter(s, p, e);
    BackupAfter(s, p, e);
  }
}
