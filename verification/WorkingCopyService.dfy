/** The working-copy service as the browser runs it: an object whose maps are updated step by step,
    proved to make exactly the transitions of module WorkingCopies. */
module WorkingCopyServices {
  import opened Unicode
  import opened Edits
  import opened TextEdits
  import opened MonacoOrder
  import opened BrowserText
  import opened WorkingCopies
  import opened PendingLog

  datatype SyncStatus = Unchanged | RemoteChanged | Missing

  datatype SavePayload = SavePayload(path: Path, baseVersion: ResourceVersion, batches: seq<Batch>, expectedLength: nat)

  class WorkingCopyService {
    var workingCopies: map<Path, WorkingCopy>
    var contents: map<Path, Text>
    var liveModels: map<Path, Text>
    var backups: map<Path, BackupRecord>
    var applyingRemoteChanges: set<Path>
    var queuedModelChangeSources: map<Path, Source>

    ghost function View(): State
      reads this
    {
      State(workingCopies, contents, liveModels, backups)
    }

    /** No model is being overwritten by the service itself. */
    ghost predicate Idle()
      reads this
    {
      applyingRemoteChanges == {}
    }

    constructor ()
      ensures View() == State(map[], map[], map[], map[]) && Idle() && queuedModelChangeSources == map[]
    {
      workingCopies, contents, liveModels, backups := map[], map[], map[], map[];
      applyingRemoteChanges, queuedModelChangeSources := {}, map[];
    }

    method EnsureWorkingCopy(path: Path) returns (copy: WorkingCopy)
      modifies `workingCopies
      ensures copy == CopyOf(old(View()), path)
      ensures View() == old(View()).(copies := old(workingCopies)[path := copy])
    {
      if path in workingCopies {
        copy := workingCopies[path];
        assert workingCopies == workingCopies[path := copy];
      } else {
        var current := if path in contents then contents[path] else [];
        copy := WorkingCopy([], UnknownVersion, current, [], false, false, false, false, false);
        workingCopies := workingCopies[path := copy];
      }
    }

    method GetContent(path: Path) returns (content: Text)
      ensures content == Content(View(), path)
    {
      if path in liveModels {
        return liveModels[path];
      }
      if path in workingCopies {
        return workingCopies[path].current;
      }
      return if path in contents then contents[path] else [];
    }

    /** The model reports a change. While the service itself writes the model, reports are ignored. */
    method OnModelContentChanged(path: Path, changes: seq<Change>, reported: Source) returns (r: Option<ClientBatch>)
      modifies `workingCopies, `contents, `queuedModelChangeSources
      ensures path !in applyingRemoteChanges ==>
                r.Some? && IsBatchOf(r.value, CopyOf(old(View()), path), changes,
                                     if path in old(queuedModelChangeSources) then old(queuedModelChangeSources)[path]
                                     else reported)
      ensures path in applyingRemoteChanges ==>
                r == None && View() == old(View()) && queuedModelChangeSources == old(queuedModelChangeSources)
      ensures path !in applyingRemoteChanges ==>
                && View() == ModelChanged(old(View()), path, changes,
                  SourceOf(old(queuedModelChangeSources), path, reported))
                && r == Some(LastBatchOf(View(), path))
                && queuedModelChangeSources == old(queuedModelChangeSources) - {path}
    {
      if path in applyingRemoteChanges {
        return None;
      }
      var source := reported;
      if path in queuedModelChangeSources {
        source := queuedModelChangeSources[path];
      }
      queuedModelChangeSources := queuedModelChangeSources - {path};
      var batch := LogChanges(path, changes, source);
      return Some(batch);
    }

    method LogChanges(path: Path, changes: seq<Change>, source: Source) returns (batch: ClientBatch)
      modifies `workingCopies, `contents
      ensures View() == ModelChanged(old(View()), path, changes, source)
      ensures batch == LastBatchOf(View(), path)
      ensures IsBatchOf(batch, CopyOf(old(View()), path), changes, source)
    {
      var copy := EnsureWorkingCopy(path);
      hide IsBatchOf, TreeSitterEdits, AfterChanges;
      NewBatchIs(copy, changes, source);
      var before := copy.current;
      batch := ClientBatch(NextNumber(copy.pending), source, changes, TreeSitterEdits(before, changes));
      var after;
      if path in liveModels {
        after := liveModels[path];
      } else {
        after := ApplyChangesInBrowser(before, changes);
      }
      hide Store;
      StoreOver(old(View()), path, copy, copy.(current := after, pending := copy.pending + [batch], dirty := true));
      copy := copy.(current := after, pending := copy.pending + [batch], dirty := true);
      SetCopy(path, copy);
    }

    /** Put `value` in the live model; the model's report of it is not a user's edit. */
    method ReplaceModelContent(path: Path, value: Text, report: seq<Change>)
      requires Idle()
      modifies this
      ensures Idle() && queuedModelChangeSources == old(queuedModelChangeSources)
      ensures View() == ModelTo(old(View()), path, value)
    {
      if path !in liveModels || liveModels[path] == value {
        assert path in liveModels ==> liveModels == liveModels[path := value];
        return;
      }
      applyingRemoteChanges := applyingRemoteChanges + {path};
      liveModels := liveModels[path := value];
      var ignored := OnModelContentChanged(path, report, User);
      applyingRemoteChanges := applyingRemoteChanges - {path};
    }

    method SetCopy(path: Path, copy: WorkingCopy)
      modifies `workingCopies, `contents
      ensures View() == Store(old(View()), path, copy)
    {
      workingCopies := workingCopies[path := copy];
      contents := contents[path := copy.current];
    }

    method DeleteBackup(path: Path)
      modifies `backups
      ensures View() == WithoutBackup(old(View()), path)
    {
      backups := backups - {path};
    }

    method StartLoading(path: Path, report: seq<Change>)
      requires Idle()
      modifies this
      ensures queuedModelChangeSources == old(queuedModelChangeSources)
      ensures Idle() && View() == WorkingCopies.StartLoading(old(View()), path)
    {
      var copy := EnsureWorkingCopy(path);
      copy := copy.(current := [], pending := [], dirty := false, conflict := false);
      copy := copy.(loading := true, loadError := false, readOnly := true);
      ghost var stored := Store(old(View()), path, copy);
      SetCopy(path, copy);
      assert View() == stored;
      ReplaceModelContent(path, [], report);
    }

    method AppendChunk(path: Path, value: Text, report: seq<Change>)
      requires Idle()
      modifies this
      ensures queuedModelChangeSources == old(queuedModelChangeSources)
      ensures Idle() && View() == WorkingCopies.AppendChunk(old(View()), path, value)
    {
      var copy := EnsureWorkingCopy(path);
      var next := (if path in contents then contents[path] else []) + value;
      SetCopy(path, copy.(current := next, loading := true, readOnly := true));
      if path in liveModels {
        ReplaceModelContent(path, liveModels[path] + value, report);
      }
    }

    method FinishLoading(path: Path, version: ResourceVersion, readOnly: bool, truncated: bool)
      modifies this
      ensures applyingRemoteChanges == old(applyingRemoteChanges)
      ensures queuedModelChangeSources == old(queuedModelChangeSources)
      ensures View() == WorkingCopies.FinishLoading(old(View()), path, version, readOnly || truncated)
    {
      var value := GetContent(path);
      var copy := EnsureWorkingCopy(path);
      copy := copy.(base := value, version := version, conflict := false, current := value, dirty := false,
                    pending := [], loading := false, readOnly := readOnly || truncated);
      SetCopy(path, copy);
      assert View() == Store(old(View()), path, copy);
      DeleteBackup(path);
    }

    method FailLoading(path: Path)
      modifies this
      ensures applyingRemoteChanges == old(applyingRemoteChanges)
      ensures queuedModelChangeSources == old(queuedModelChangeSources)
      ensures View() == WorkingCopies.FailLoading(old(View()), path)
    {
      var copy := EnsureWorkingCopy(path);
      workingCopies := workingCopies[path := copy.(loadError := true, loading := false, readOnly := true)];
    }

    method SetContent(path: Path, value: Text, markClean: bool, report: seq<Change>)
      requires Idle()
      modifies this
      ensures queuedModelChangeSources == old(queuedModelChangeSources)
      ensures Idle() && View() == WorkingCopies.SetContent(old(View()), path, value, markClean)
    {
      var copy := EnsureWorkingCopy(path);
      copy := copy.(current := value);
      ghost var stored := Store(old(View()), path, copy);
      SetCopy(path, copy);
      assert View() == stored;
      ReplaceModelContent(path, value, report);
      assert View() == ModelTo(stored, path, value);
      if markClean {
        CleanCopy(path, copy.(base := value, dirty := false, pending := []));
      }
    }

    method CleanCopy(path: Path, copy: WorkingCopy)
      modifies `workingCopies, `backups
      ensures View() == WithoutBackup(old(View()).(copies := old(workingCopies)[path := copy]), path)
    {
      workingCopies := workingCopies[path := copy];
      DeleteBackup(path);
    }

    /** The editor pane mounts: the shown content survives, whatever the model held. */
    method AttachEditor(path: Path, model: Text, report: seq<Change>)
      requires Idle()
      modifies this
      ensures queuedModelChangeSources == old(queuedModelChangeSources)
      ensures Idle() && View() == WorkingCopies.AttachEditor(old(View()), path, model)
    {
      var shown := GetContent(path);
      AttachModel(path, model);
      if model != shown {
        SetContent(path, shown, false, report);
      }
    }

    method AttachModel(path: Path, model: Text)
      modifies `workingCopies, `contents, `liveModels
      ensures View() == WorkingCopies.AttachModel(old(View()), path, model)
    {
      liveModels := liveModels[path := model];
      var copy := EnsureWorkingCopy(path);
      SetCopy(path, copy.(current := model));
    }

    method DetachModel(path: Path)
      modifies `workingCopies, `contents, `liveModels
      ensures View() == WorkingCopies.DetachModel(old(View()), path)
    {
      if path in liveModels {
        var value := liveModels[path];
        contents := contents[path := value];
        if path in workingCopies {
          workingCopies := workingCopies[path := workingCopies[path].(current := value)];
        }
        liveModels := liveModels - {path};
      }
    }

    method MarkSaved(path: Path, value: Option<Text>, version: Option<ResourceVersion>)
      modifies this
      ensures applyingRemoteChanges == old(applyingRemoteChanges)
      ensures queuedModelChangeSources == old(queuedModelChangeSources)
      ensures View() == WorkingCopies.MarkSaved(old(View()), path, value, version)
    {
      var shown := GetContent(path);
      var content := value.GetOr(shown);
      var copy := EnsureWorkingCopy(path);
      copy := copy.(base := content, version := version.GetOr(copy.version), conflict := false);
      copy := copy.(current := content, dirty := false, pending := []);
      SetCopy(path, copy);
      assert View() == Store(old(View()), path, copy);
      DeleteBackup(path);
    }

    method MarkDirty(path: Path)
      modifies `workingCopies
      ensures View() == WorkingCopies.MarkDirty(old(View()), path)
    {
      var copy := EnsureWorkingCopy(path);
      workingCopies := workingCopies[path := copy.(dirty := true)];
    }

    /** Edit a buffer no editor shows: locate the edits, log them, apply them. */
    method EditClosed(path: Path, edits: seq<WorkspaceEdit>, source: Source) returns (batch: ClientBatch)
      requires path !in liveModels
      modifies `workingCopies, `contents
      ensures View() == OfflineEdit(old(View()), path, edits, source) && batch == LastBatchOf(View(), path)
      ensures EditsInOrder(Content(old(View()), path), edits) ==> SaysEdits(batch, Content(old(View()), path), edits)
      ensures batch.source == source
      ensures Numbered(CopyOf(old(View()), path).pending) ==> batch.number == |CopyOf(old(View()), path).pending| + 1
    {
      hide SaysEdit, EditsRight, EditsInOrder, EditsToChanges, TreeSitterEdits, AfterChanges, Wire;
      SaidEdits(Content(View(), path), edits);
      var before := GetContent(path);
      var changes := EditsToChanges(before, edits);
      var copy := EnsureWorkingCopy(path);
      batch := ClientBatch(NextNumber(copy.pending), source, changes, TreeSitterEdits(before, changes));
      var next := ApplyChangesInBrowser(before, changes);
      copy := copy.(current := next, pending := copy.pending + [batch], dirty := true);
      SetCopy(path, copy);
      assert View() == Store(old(View()), path, copy);
    }

    /** Edit a buffer. If an editor shows it, the edits go to the editor, which reports what they changed, if
        they changed anything: the changes and its new text. The source waits for that report, or, if none
        comes, for the next. */
    method ApplyWorkspaceEdit(path: Path, edits: seq<WorkspaceEdit>, source: Source,
        report: Option<(seq<Change>, Text)>)
      returns (r: Option<ClientBatch>)
      requires Idle()
      modifies this
      ensures Idle()
      ensures path !in old(liveModels) ==>
                && View() == OfflineEdit(old(View()), path, edits, source) && r == Some(LastBatchOf(View(), path))
                && queuedModelChangeSources == old(queuedModelChangeSources)
      ensures path in old(liveModels) && report == None ==>
                r == None && View() == old(View())
                && queuedModelChangeSources == old(queuedModelChangeSources)[path := source]
      ensures path in old(liveModels) && report.Some? ==>
                && r == None && View() == UserEdit(old(View()), path, report.value.0, report.value.1, source)
                && queuedModelChangeSources == old(queuedModelChangeSources) - {path}
    {
      if path !in liveModels {
        var batch := EditClosed(path, edits, source);
        return Some(batch);
      }
      queuedModelChangeSources := queuedModelChangeSources[path := source];
      if report.Some? {
        liveModels := liveModels[path := report.value.1];
        var reported := OnModelContentChanged(path, report.value.0, User);
      }
      return None;
    }

    method GetSavePayload(path: Path) returns (payload: SavePayload)
      modifies `workingCopies
      ensures payload == PayloadOf(old(View()), path)
      ensures var pending := CopyOf(old(View()), path).pending;
              && payload.path == path && payload.baseVersion == CopyOf(old(View()), path).version
              && payload.expectedLength == |Utf8(Content(old(View()), path))| && |payload.batches| == |pending|
              && forall k | 0 <= k < |pending| ::
                   payload.batches[k] == Batch(pending[k].number, pending[k].source, pending[k].changes)
      ensures View() == old(View()).(copies := old(workingCopies)[path := CopyOf(old(View()), path)])
    {
      ghost var s := View();
      var copy := EnsureWorkingCopy(path);
      var content := GetContent(path);
      payload := SavePayload(path, copy.version, Wire(copy.pending), |Utf8(content)|);
    }

    method HandleSaveComplete(path: Path, answer: SaveAnswer)
      modifies this
      ensures applyingRemoteChanges == old(applyingRemoteChanges)
      ensures queuedModelChangeSources == old(queuedModelChangeSources)
      ensures View() == SaveAnswered(old(View()), path, answer)
      ensures answer == OtherAnswer ==> View() == old(View())
      ensures answer == ConflictAnswer ==>
                var c := CopyOf(old(View()), path);
                View() == old(View()).(copies := old(workingCopies)[path := c.(conflict := true)])
    {
      match answer {
        case ConflictAnswer =>
          var copy := EnsureWorkingCopy(path);
          workingCopies := workingCopies[path := copy.(conflict := true)];
        case SavedAnswer(answered, version) =>
          var content := GetContent(path);
          MarkSaved(answered.GetOr(path), Some(content), version);
        case OtherAnswer =>
      }
    }

    method Discard(path: Path)
      modifies this
      ensures applyingRemoteChanges == old(applyingRemoteChanges)
      ensures queuedModelChangeSources == old(queuedModelChangeSources)
      ensures View() == WorkingCopies.Discard(old(View()), path)
    {
      var copy := EnsureWorkingCopy(path);
      SetCopy(path, copy.(current := copy.base, dirty := false, conflict := false, pending := []));
      DeleteBackup(path);
    }

    method Revert(path: Path, content: Text, report: seq<Change>)
      requires Idle()
      modifies this
      ensures queuedModelChangeSources == old(queuedModelChangeSources)
      ensures Idle() && View() == WorkingCopies.Revert(old(View()), path, content)
    {
      var copy := EnsureWorkingCopy(path);
      copy := copy.(base := content, conflict := false, current := content, dirty := false, pending := [],
                    loading := false);
      ghost var stored := Store(old(View()), path, copy);
      SetCopy(path, copy);
      assert View() == stored;
      ReplaceModelContent(path, content, report);
      assert View() == ModelTo(stored, path, content);
      DeleteBackup(path);
    }

    method WriteBackup(path: Path)
      modifies `workingCopies, `backups
      ensures View() == WorkingCopies.WriteBackup(old(View()), path)
    {
      var copy := EnsureWorkingCopy(path);
      if !copy.dirty && !copy.conflict {
        return;
      }
      var content := GetContent(path);
      backups := backups[path := BackupRecord(copy.base, copy.version, content, copy.pending, true, copy.conflict)];
    }

    /** Bring back every dirty record of the store, noting which remote files moved meanwhile. */
    method RestoreWorkspace(statuses: map<Path, SyncStatus>)
      modifies `workingCopies, `contents
      ensures backups == old(backups)
      ensures forall p :: RestoredAt(old(View()), View(), statuses, p)
      ensures forall p | p in old(backups) && old(backups)[p].dirty ::
                && p in workingCopies
                && var asked := p in statuses && (statuses[p] == RemoteChanged || statuses[p] == Missing);
                   workingCopies[p].conflict == (old(backups)[p].conflict || asked)
    {
      var todo := set p | p in backups && backups[p].dirty;
      hide Restore;
      NothingRestored(View(), statuses, todo);
      while todo != {}
        invariant backups == old(backups) && RestoredBut(old(View()), View(), statuses, todo)
        decreases todo
      {
        var path :| path in todo;
        RestoredOneMore(old(View()), View(), statuses, todo, path);
        RestoreRecord(path, path in statuses && statuses[path] != Unchanged);
        todo := todo - {path};
      }
      forall p | p in old(backups) && old(backups)[p].dirty
        ensures p in workingCopies
        ensures workingCopies[p].conflict ==
                (old(backups)[p].conflict || (p in statuses
                  && (statuses[p] == RemoteChanged || statuses[p] == Missing)))
      {
        RestoredConflict(old(View()), View(), statuses, p);
      }
    }

    method RestoreRecord(path: Path, remoteMoved: bool)
      requires path in backups && backups[path].dirty
      modifies `workingCopies, `contents
      ensures View() == Restore(old(View()), path, remoteMoved)
    {
      var record := backups[path];
      var copy := EnsureWorkingCopy(path);
      var pending := RestoredPending(record);
      ghost var restored := RestoredCopy(copy, record, remoteMoved);
      copy := copy.(base := record.base, version := record.version, conflict := record.conflict || remoteMoved);
      copy := copy.(current := record.current, dirty := record.dirty, pending := pending,
                    loading := false, readOnly := false);
      assert copy == restored;
      SetCopy(path, copy);
    }
  }

  /** What is stored for a path replaces its copy, whatever that was. */
  lemma {:induction false} StoreOver(s: State, p: Path, before: WorkingCopy, after: WorkingCopy)
    ensures Store(s.(copies := s.copies[p := before]), p, after) == Store(s, p, after)
    ensures p in Store(s, p, after).copies && Store(s, p, after).copies[p] == after
  {
    assert s.copies[p := before][p := after] == s.copies[p := after];
  }

  /** The batch for `changes`: next in number, from `source`, with the right syntax-tree edits for changes in
      editor order. */
  ghost predicate IsBatchOf(batch: ClientBatch, copy: WorkingCopy, changes: seq<Change>, source: Source) {
    && batch.changes == changes && batch.source == source
    && (Numbered(copy.pending) ==> batch.number == |copy.pending| + 1)
    && (MonacoBatch(copy.current, changes) ==> EditsRight(copy.current, changes, batch.treeSitterEdits))
  }

  lemma {:induction false} NewBatchIs(copy: WorkingCopy, changes: seq<Change>, source: Source)
    ensures IsBatchOf(NewBatch(copy.pending, copy.current, changes, source), copy, changes, source)
  {
    if MonacoBatch(copy.current, changes) { BatchEditsRight(copy.current, changes); }
  }

  /** A batch that says exactly the edits, with the right syntax-tree edits. */
  ghost predicate SaysEdits(batch: ClientBatch, t: Text, edits: seq<WorkspaceEdit>) {
    && |batch.changes| == |edits| && (forall k | 0 <= k < |edits| :: SaysEdit(t, edits[k], batch.changes[k]))
    && EditsRight(t, batch.changes, batch.treeSitterEdits)
  }

  lemma {:induction false} SaidEdits(t: Text, edits: seq<WorkspaceEdit>)
    ensures EditsInOrder(t, edits) ==>
              var changes := EditsToChanges(t, edits);
              && |changes| == |edits| && (forall k | 0 <= k < |edits| :: SaysEdit(t, edits[k], changes[k]))
              && EditsRight(t, changes, TreeSitterEdits(t, changes))
  {
    if EditsInOrder(t, edits) {
      ChangesSayEdits(t, edits);
      OrderedEditsAreBatch(t, edits);
      BatchEditsRight(t, EditsToChanges(t, edits));
    }
  }

  /** A source queued by a workspace edit takes precedence over the reported one. */
  function SourceOf(queued: map<Path, Source>, path: Path, reported: Source): Source {
    if path in queued then queued[path] else reported
  }

  ghost function LastBatchOf(s: State, p: Path): ClientBatch
    requires p in s.copies && s.copies[p].pending != []
  {
    s.copies[p].pending[|s.copies[p].pending| - 1]
  }

  predicate SameCopyAt(s: State, s': State, p: Path) {
    && (p in s.copies <==> p in s'.copies) && (p in s.copies ==> s.copies[p] == s'.copies[p])
    && (p in s.contents <==> p in s'.contents) && (p in s.contents ==> s.contents[p] == s'.contents[p])
  }

  /** In `s'`, `p` is as restoring it alone would leave it; paths without a dirty record are untouched. */
  ghost predicate RestoredAt(s: State, s': State, statuses: map<Path, SyncStatus>, p: Path) {
    SameCopyAt(Restore(s, p, RemoteMoved(statuses, p)), s', p)
  }

  lemma {:induction false} RestoredConflict(s: State, s': State, statuses: map<Path, SyncStatus>, p: Path)
    requires RestoredAt(s, s', statuses, p) && p in s.backups && s.backups[p].dirty
    ensures p in s'.copies && s'.copies[p].conflict == (s.backups[p].conflict || RemoteMoved(statuses, p))
  {}

  /** On the way from `s` to `s'` all that is to be restored has been but for `todo`, which is untouched. */
  ghost predicate RestoredBut(s: State, s': State, statuses: map<Path, SyncStatus>, todo: set<Path>) {
    && s.backups == s'.backups && (forall p | p in todo :: p in s.backups && s.backups[p].dirty)
    && forall p :: if p in todo then SameCopyAt(s, s', p) else RestoredAt(s, s', statuses, p)
  }

  lemma {:induction false} NothingRestored(s: State, statuses: map<Path, SyncStatus>, todo: set<Path>)
    requires todo == set p | p in s.backups && s.backups[p].dirty
    ensures RestoredBut(s, s, statuses, todo)
  {}

  /** Restoring `path` reads and writes only what the service holds for it. */
  lemma {:induction false} RestoredOneMore(s: State, s': State, statuses: map<Path, SyncStatus>, todo: set<Path>,
      path: Path)
    requires RestoredBut(s, s', statuses, todo) && path in todo
    ensures RestoredBut(s, Restore(s', path, RemoteMoved(statuses, path)), statuses, todo - {path})
  {
    assert SameCopyAt(s, s', path);
    var restored := Restore(s', path, RemoteMoved(statuses, path));
    forall p
      ensures if p in todo - {path} then SameCopyAt(s, restored, p) else RestoredAt(s, restored, statuses, p)
    {
      if p != path { assert SameCopyAt(s', restored, p); }
    }
  }

  predicate RemoteMoved(statuses: map<Path, SyncStatus>, p: Path) {
    p in statuses && statuses[p] != Unchanged
  }

  function PayloadOf(s: State, p: Path): SavePayload {
    SavePayload(p, CopyOf(s, p).version, Wire(CopyOf(s, p).pending), |Utf8(Content(s, p))|)
  }
}
