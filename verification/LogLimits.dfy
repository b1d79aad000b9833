/** Where the pending log stops describing the text, exactly: operations that are safe only under a
    condition, with the condition, and a list of edits that the gateway refuses. */
module LogLimits {
  import opened Unicode
  import opened Edits
  import opened TextEdits
  import opened MonacoOrder
  import opened BrowserText
  import opened WorkingCopies
  import opened PendingLog

  /** Putting in a whole text without marking it clean records no batch: the log still describes the
      copy exactly when the text did not change. */
  lemma {:induction false} SetContentExactly(s: State, p: Path, v: Text)
    requires PathOk(s, p) && LogOk(CopyOf(s, p))
    ensures LogOk(SetContent(s, p, v, false).copies[p]) <==> v == CopyOf(s, p).current
  {
    var c := CopyOf(s, p);
    assert SetContent(s, p, v, false).copies[p] == c.(current := v);
    assert ApplyBatches(c.base, Wire(c.pending)) == Ok(c.current);
  }

  /** Discarding does not touch a live model: the service stays consistent exactly when there is none,
      or it already shows the base text. */
  lemma {:induction false} DiscardExactly(s: State, p: Path)
    requires PathOk(s, p)
    ensures PathOk(Discard(s, p), p) <==> (p in s.models ==> s.models[p] == CopyOf(s, p).base)
  {
    EmptyLog(CopyOf(s, p).base);
  }

  /** Closing a dirty tab discards its copy and then keeps the text of the editor that goes away: the copy
      is left describing what it holds exactly when the editor showed the base text. */
  lemma {:induction false} CloseTabExactly(s: State, p: Path)
    requires PathOk(s, p) && p in s.models
    ensures var c := DetachModel(Discard(s, p), p).copies[p];
            && c.pending == [] && !c.dirty && c.current == s.models[p]
            && (LogOk(c) <==> s.models[p] == CopyOf(s, p).base)
  {
    EmptyLog(CopyOf(s, p).base);
  }

  /** An answer that names the saved path, or none, completes the save. One that names another path `q`
      leaves the saved copy as dirty as it was and calls its text saved under `q`: consistent exactly when no
      editor shows `q` with another text. */
  lemma {:induction false} AnsweredPathExactly(s: State, p: Path, answered: Option<Path>, version: ResourceVersion)
    requires PathOk(s, p) && PathOk(s, answered.GetOr(p))
    ensures var q, s' := answered.GetOr(p), SaveAnswered(s, p, SavedAnswer(answered, Some(version)));
            && (q == p ==> s' == SaveCompleted(s, p, Saved(version)))
            && (q != p ==> SameAt(s, s', p))
            && (PathOk(s', q) <==> (q in s.models ==> s.models[q] == Content(s, p)))
  {
    var q, v := answered.GetOr(p), Content(s, p);
    EmptyLog(v);
    if q != p { SaveIsLocal(s, q, EMarkSaved(Some(v), Some(version)), p); }
  }

  // ---- Workspace edits on a closed buffer ----

  /** The browser's conversion of the offset into a string index leaves it where it is. */
  predicate IsPlace(t: Text, offset: nat) {
    Units(t, Ceiling(t, offset)) == offset
  }

  lemma {:induction false} PlacesAreFound(t: Text, offset: nat)
    ensures IsPlace(t, offset) <==> OffsetPlace(t, offset).Ok?
  {
    if IsPlace(t, offset) {
      OffsetPlaceAt(t, Ceiling(t, offset));
    } else if OffsetPlace(t, offset).Ok? {
      CeilingAt(t, OffsetPlace(t, offset).value);
    }
  }

  predicate EndsArePlaces(t: Text, c: Change) {
    IsPlace(t, c.offset) && IsPlace(t, c.offset + c.length) && c.offset + c.length <= USIZE_MAX
  }

  /** Both ends are places of `u`, and have there the positions they were given. */
  predicate InPlace(u: Text, c: Change) {
    EndsArePlaces(u, c) && LspPosition(u, c.offset) == c.start && LspPosition(u, c.offset + c.length) == c.end
  }

  /** Every change is in place in the text that the browser has when it comes to it. */
  predicate EachInPlace(t: Text, changes: seq<Change>) {
    changes == [] ||
    var init, last := changes[..|changes| - 1], changes[|changes| - 1];
    EachInPlace(t, init) && InPlace(AfterChanges(t, init), last)
  }

  /** One workspace edit on a closed buffer keeps the log exactly when both its ends are places of the
      text; an end inside a surrogate pair or past the end is moved by the browser and refused by the
      gateway. */
  lemma {:induction false} SingleEditExactly(s: State, p: Path, e: WorkspaceEdit, source: Source)
    requires PathOk(s, p) && LogOk(CopyOf(s, p)) && p !in s.models
    ensures LogOk(OfflineEdit(s, p, [e], source).copies[p]) <==>
            EndsArePlaces(Content(s, p), EditsToChanges(Content(s, p), [e])[0])
  {
    var t, changes := Content(s, p), EditsToChanges(Content(s, p), [e]);
    OfflineEditExactly(s, p, [e], source);
    OneInPlace(t, changes);
  }

  lemma {:induction false} OneInPlace(t: Text, changes: seq<Change>)
    requires |changes| == 1
    requires changes[0].start == LspPosition(t, changes[0].offset)
    requires changes[0].end == LspPosition(t, changes[0].offset + changes[0].length)
    ensures EachInPlace(t, changes) <==> EndsArePlaces(t, changes[0])
  {
    assert changes[..0] == [] && AfterChanges(t, []) == t && EachInPlace(t, []);
  }

  /** Any workspace edit on a closed buffer keeps the log exactly when, taking its changes one after
      another, each still names in the running text the places and positions it was given in the first. */
  lemma {:induction false} OfflineEditExactly(s: State, p: Path, edits: seq<WorkspaceEdit>, source: Source)
    requires PathOk(s, p) && LogOk(CopyOf(s, p)) && p !in s.models
    ensures LogOk(OfflineEdit(s, p, edits, source).copies[p]) <==>
            EachInPlace(Content(s, p), EditsToChanges(Content(s, p), edits))
  {
    var t, copy := Content(s, p), CopyOf(s, p);
    var changes := EditsToChanges(t, edits);
    OfflineCopy(s, p, edits, source);
    LastBatch(copy, NewBatch(copy.pending, t, changes, source), AfterChanges(t, changes));
    AcceptedInPlace(t, changes);
  }

  /** The gateway accepts a change list exactly when every change is in place. */
  lemma {:induction false} AcceptedInPlace(t: Text, changes: seq<Change>)
    ensures EachInPlace(t, changes) <==> ApplyChanges(t, changes).Ok?
    ensures EachInPlace(t, changes) ==> ApplyChanges(t, changes) == Ok(AfterChanges(t, changes))
  {
    if changes != [] {
      var init, last := changes[..|changes| - 1], changes[|changes| - 1];
      AcceptedInPlace(t, init);
      var u := AfterChanges(t, init);
      AcceptedChange(u, last);
      if InPlace(u, last) { ChangeMatchesGateway(u, last); }
    }
  }

  lemma {:induction false} AcceptedChange(u: Text, c: Change)
    ensures InPlace(u, c) <==> ApplyChange(u, c).Ok?
  {
    if InPlace(u, c) { InPlaceAccepted(u, c); }
    if ApplyChange(u, c).Ok? {
      var (i, j) := ChangePlaces(u, c).value;
      PositionsOfPlaces(u, i, j);
      CeilingAt(u, i);
      CeilingAt(u, j);
    }
  }

  lemma {:induction false} InPlaceAccepted(u: Text, c: Change)
    requires InPlace(u, c)
    ensures ApplyChange(u, c).Ok?
  {
    PlacesAreFound(u, c.offset);
    PlacesAreFound(u, c.offset + c.length);
    var i, j := OffsetPlace(u, c.offset).value, OffsetPlace(u, c.offset + c.length).value;
    PositionsOfPlaces(u, i, j);
    assert Locates(u, c, i, j);
    ChangeAccepted(u, c);
  }

  lemma {:induction false} PositionsOfPlaces(u: Text, i: nat, j: nat)
    requires i <= |u| && j <= |u| && Units(u, i) <= Units(u, j)
    ensures LspPosition(u, Units(u, i)) == PositionOf(u, i) && LspPosition(u, Units(u, j)) == PositionOf(u, j) && i <= j
  {
    LspPositionAt(u, i);
    LspPositionAt(u, j);
    CoordinatesAgree(u, j, i);
  }

  /** With one more batch the log is right exactly when the gateway's answer to that batch is. */
  lemma {:induction false} LastBatch(c: WorkingCopy, b: ClientBatch, after: Text)
    requires LogOk(c) && b.number == NextNumber(c.pending)
    ensures Replays(c.base, c.pending + [b], after) <==> ApplyChanges(c.current, b.changes) == Ok(after)
  {
    WirePush(c.pending, b);
    LastNumberOfLog(c.pending);
    var w := Wire(c.pending) + [ToWire(b)];
    assert w[..|w| - 1] == Wire(c.pending);
  }

  /** Edits in ascending order are all described in the text before the first, and the gateway, reading
      the second after the first, refuses it: a line break put in front of the text moves every later
      place to another line. */
  lemma {:induction false} AscendingEditsRefused(t: Text, ins: Text)
    requires Rows(t, |t|) == 0 && |t| > 0 && Fits(t)
    ensures var edits := [WorkspaceEdit(Some(0), Some(0), Some([NEWLINE])),
                          WorkspaceEdit(Some(Units(t, |t|)), Some(0), Some(ins))];
            ApplyChanges(t, EditsToChanges(t, edits)).Err?
  {
    var edits := [WorkspaceEdit(Some(0), Some(0), Some([NEWLINE])),
      WorkspaceEdit(Some(Units(t, |t|)), Some(0), Some(ins))];
    var changes := EditsToChanges(t, edits);
    assert changes[1].start.line == 0 && changes[1].start.character > 0 by {
      LspPositionAt(t, |t|);
      NoBreaks(t);
      UnitsMonotone(t, 0, |t|);
    }
    assert ApplyChanges(t, changes[..1]) == Ok([NEWLINE] + t) by { BreakInFront(t, changes[0], changes[..1]); }
    SecondEditMisplaced([NEWLINE] + t, changes[1]);
  }

  lemma {:induction false} BreakInFront(t: Text, c: Change, changes: seq<Change>)
    requires changes == [c] && c.offset == c.length == 0 && c.text == [NEWLINE]
    requires c.start == c.end == LspPosition(t, 0)
    ensures ApplyChanges(t, changes) == Ok([NEWLINE] + t)
  {
    LspPositionAt(t, 0);
    assert Locates(t, c, 0, 0);
    ChangeAccepted(t, c);
    OneChange(t, c);
    assert Splice(t, 0, 0, [NEWLINE]) == [NEWLINE] + t;
  }

  lemma {:induction false} SecondEditMisplaced(u: Text, c: Change)
    requires u != [] && u[0] == NEWLINE && c.start.line == 0 && c.start.character > 0
    ensures ApplyChange(u, c).Err?
  {
    ChangeAccepted(u, c);
    assert Rows(u, 1) == 1;
    forall i: nat, j: nat
      ensures !Locates(u, c, i, j)
    {
      if 0 < i <= |u| { RowsMonotone(u, 1, i); }
    }
  }

  // ---- Backup and restore ----

  /** What a later session finds: only the stored backups. */
  function Reopened(s: State): State {
    State(map[], map[], map[], s.backups)
  }

  /** Restoring a backup gives back the copy's text, base, version and batches. */
  lemma {:induction false} RestoreRoundTrip(s: State, p: Path, remoteMoved: bool)
    requires PathOk(s, p) && p in s.copies && LogOk(s.copies[p])
    requires s.copies[p].dirty || s.copies[p].conflict
    ensures var r := Restore(Reopened(WriteBackup(s, p)), p, remoteMoved);
            && p in r.copies
            && var c, c' := s.copies[p], r.copies[p];
               && c'.base == c.base && c'.version == c.version && c'.pending == c.pending && c'.current == c.current
               && c'.dirty && c'.conflict == (c.conflict || remoteMoved)
               && Content(r, p) == Content(s, p) && LogOk(c')
  {
    var c := s.copies[p];
    if c.pending == [] {
      assert Wire(c.pending) == [];
    }
  }

  /** A dirty record whose batches were lost is restored with a log all the same. */
  lemma {:induction false} RestoreWithoutBatches(s: State, p: Path, remoteMoved: bool)
    requires p in s.backups && s.backups[p].dirty && s.backups[p].pending == [] && Fits(s.backups[p].base)
    ensures var c := Restore(s, p, remoteMoved).copies[p];
            LogOk(c) && c.current == s.backups[p].current && c.base == s.backups[p].base
  {
    SnapshotReplays(s.backups[p].base, s.backups[p].current);
    EmptyLog(s.backups[p].base);
  }

  // ---- Restoring under an attached editor ----

  /** Restoring does not touch a live model: the service stays consistent exactly when there is none, or
      it already shows the backed-up text. */
  lemma {:induction false} RestoreExactly(s: State, p: Path, remoteMoved: bool)
    requires PathOk(s, p) && p in s.backups && s.backups[p].dirty && Fits(s.backups[p].base)
    ensures PathOk(Restore(s, p, remoteMoved), p) <==> (p in s.models ==> s.models[p] == s.backups[p].current)
  {
    if p in s.models ==> s.models[p] == s.backups[p].current {
      RestoreOk(s, p, remoteMoved);
    }
  }

  /** Two texts whose ends have the same coordinates. */
  predicate SameEnd(t: Text, u: Text) {
    Units(t, |t|) == Units(u, |u|) && Bytes(t, |t|) == Bytes(u, |u|) && PositionOf(t, |t|) == PositionOf(u, |u|)
  }

  function InsertionAtEnd(t: Text, ins: Text): Change {
    Change(PositionOf(t, |t|), PositionOf(t, |t|), Units(t, |t|), 0, ins)
  }

  /** Appending is an edit in editor order, on its text and on every text that ends at the same place. */
  lemma {:induction false} AppendedAtEnd(t: Text, u: Text, ins: Text)
    requires SameEnd(t, u) && Fits(t)
    ensures MonacoBatch(u, [InsertionAtEnd(t, ins)]) && Substitute(u, [InsertionAtEnd(t, ins)]) == u + ins
  {
    var c := InsertionAtEnd(t, ins);
    assert Locates(u, c, |u|, |u|);
    assert Splice(u, |u|, |u|, ins) == u + ins;
    OneLocated(u, c, |u|, |u|);
  }

  lemma {:induction false} OneLocated(u: Text, c: Change, i: nat, j: nat)
    requires Locates(u, c, i, j)
    ensures MonacoBatch(u, [c]) && Substitute(u, [c]) == Splice(u, i, j, c.text)
  {
    ChangeAccepted(u, c);
    OneChange(u, c);
    SequentialIsSimultaneous(u, [c]);
  }

  /** What goes wrong otherwise: the editor goes on showing `shown`, the log is that of the backed-up
      text, and the next edit is logged on top of it. If both texts end alike, appending to the shown text
      leaves a log that the gateway replays to another text, of the very length the browser expects. */
  lemma {:induction false} RestoreOverModelDiverges(s: State, p: Path, remoteMoved: bool, ins: Text)
    requires PathOk(s, p) && p in s.backups && s.backups[p].dirty && Fits(s.backups[p].base)
    requires p in s.models && s.models[p] != s.backups[p].current && Fits(s.models[p])
    requires SameEnd(s.models[p], s.backups[p].current)
    ensures var r, shown := s.backups[p], s.models[p];
            var changes := [InsertionAtEnd(shown, ins)];
            var s' := UserEdit(Restore(s, p, remoteMoved), p, changes, shown + ins, User);
            && MonacoBatch(shown, changes) && Substitute(shown, changes) == shown + ins == Content(s', p)
            && s'.copies[p].base == r.base && s'.copies[p].version == r.version
            && Replays(r.base, s'.copies[p].pending, r.current + ins)
            && r.current + ins != shown + ins && |Utf8(r.current + ins)| == |Utf8(shown + ins)|
  {
    var r, shown := s.backups[p], s.models[p];
    var c := InsertionAtEnd(shown, ins);
    AppendedAtEnd(shown, shown, ins);
    AppendedAtEnd(shown, r.current, ins);
    SequentialIsSimultaneous(r.current, [c]);
    RestoredLog(r);
    var pending := RestoredPending(r);
    PushBatch(r.base, pending, r.current, NewBatch(pending, r.current, [c], User), r.current + ins);
    AppendedTexts(shown, r.current, ins);
  }

  lemma {:induction false} AppendedTexts(t: Text, u: Text, ins: Text)
    requires t != u && SameEnd(t, u)
    ensures t + ins != u + ins && |Utf8(t + ins)| == |Utf8(u + ins)|
  {
    Utf8Length(t + ins);
    Utf8Length(u + ins);
    ConcatLengths(t, ins);
    ConcatLengths(u, ins);
    if |t| == |u| {
      var k :| 0 <= k < |t| && t[k] != u[k];
      assert (t + ins)[k] != (u + ins)[k];
    }
  }

  lemma {:induction false} RunPush(s: State, events: seq<(Path, Event)>, p: Path, e: Event)
    requires AllowedRun(s, events) && Allowed(Run(s, events), p, e)
    ensures AllowedRun(s, events + [(p, e)]) && Run(s, events + [(p, e)]) == Step(Run(s, events), p, e)
  {
    assert (events + [(p, e)])[..|events|] == events;
  }

  /** Such a state is reached by ordinary work: load a file of one character, replace it, let the backup be
      written, and take the replacement back before the next backup. */
  lemma {:induction false} RestoreOverModelReached(p: Path, x: Scalar, z: Scalar, version: ResourceVersion)
    returns (events: seq<(Path, Event)>)
    requires x != z && x != NEWLINE && z != NEWLINE && Width16(x) == Width16(z) && Width8(x) == Width8(z)
    ensures AllowedRun(EMPTY_STATE, events)
    ensures var s := Run(EMPTY_STATE, events);
            && PathOk(s, p) && p in s.models && s.models[p] == [x] && p in s.backups
            && s.backups[p].base == [x] && s.backups[p].current == [z] && s.backups[p].dirty
            && s.backups[p].version == version && SameEnd([x], [z]) && Fits([x])
  {
    events := LoadedAndShown(p, x, version);
    var shown := Run(EMPTY_STATE, events);
    EmptyStateOk();
    ReplacedWhole(x, z);
    ReplacedWhole(z, x);
    RunPush(EMPTY_STATE, events, p, EUserEdit([Whole(x, z)], [z], User));
    events := events + [(p, EUserEdit([Whole(x, z)], [z], User))];
    RunPush(EMPTY_STATE, events, p, EWriteBackup);
    events := events + [(p, EWriteBackup)];
    RunPush(EMPTY_STATE, events, p, EUserEdit([Whole(z, x)], [x], User));
    events := events + [(p, EUserEdit([Whole(z, x)], [x], User))];
    RunKeepsInvariant(EMPTY_STATE, events);
  }

  lemma {:induction false} LoadedAndShown(p: Path, x: Scalar, version: ResourceVersion)
      returns (events: seq<(Path, Event)>)
    ensures AllowedRun(EMPTY_STATE, events)
    ensures var s := Run(EMPTY_STATE, events);
            && p in s.models && s.models[p] == [x] && p in s.copies && !Unsettled(s.copies[p])
            && s.copies[p].base == [x] && s.copies[p].current == [x] && s.copies[p].version == version
  {
    events := [];
    RunPush(EMPTY_STATE, events, p, EStartLoading);
    events := events + [(p, EStartLoading)];
    RunPush(EMPTY_STATE, events, p, EAppendChunk([x]));
    events := events + [(p, EAppendChunk([x]))];
    RunPush(EMPTY_STATE, events, p, EFinishLoading(version, false));
    events := events + [(p, EFinishLoading(version, false))];
    assert Content(Run(EMPTY_STATE, events), p) == [x];
    RunPush(EMPTY_STATE, events, p, EAttachEditor([x]));
    events := events + [(p, EAttachEditor([x]))];
  }

  /** Replacing the one character of a text. */
  function Whole(x: Scalar, z: Scalar): Change {
    Change(Position(0, 0), PositionOf([x], 1), 0, Width16(x), [z])
  }

  lemma {:induction false} OneCharacter(x: Scalar)
    requires x != NEWLINE
    ensures Units([x], 1) == Width16(x) && Bytes([x], 1) == Width8(x) && PositionOf([x], 1) == Position(0, Width16(x))
  {
    assert Rows([x], 1) == Rows([x], 0) && LineStart([x], 1) == LineStart([x], 0);
  }

  lemma {:induction false} ReplacedWhole(x: Scalar, z: Scalar)
    requires x != NEWLINE && z != NEWLINE && Width16(x) == Width16(z) && Width8(x) == Width8(z)
    ensures MonacoBatch([x], [Whole(x, z)]) && Substitute([x], [Whole(x, z)]) == [z]
    ensures SameEnd([x], [z]) && Fits([x])
  {
    var c := Whole(x, z);
    OneCharacter(x);
    OneCharacter(z);
    assert Locates([x], c, 0, 1);
    OneLocated([x], c, 0, 1);
    assert Splice([x], 0, 1, [z]) == [z];
  }
}
