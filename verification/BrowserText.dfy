/** The browser's text arithmetic: JavaScript strings indexed by UTF-16 code units, the positions sent
    to the gateway and the byte points sent to the syntax tree. */
module BrowserText {
  import opened Unicode
  import opened Edits
  import opened TextEdits
  import opened MonacoOrder

  /** First place whose UTF-16 offset reaches `target`, else the end. */
  ghost predicate IsCeiling(t: Text, target: nat, k: nat) {
    && k <= |t|
    && (k == 0 || Units(t, k - 1) < target)
    && (k == |t| || target <= Units(t, k))
  }

  function Ceiling(t: Text, target: nat): (k: nat)
    ensures IsCeiling(t, target, k)
  {
    if t == [] then 0
    else
      var init := t[..|t| - 1];
      assert forall k: nat | k <= |init| :: Units(init, k) == Units(t, k) by {
        forall k: nat | k <= |init| ensures Units(init, k) == Units(t, k) {
          assert init[..k] == t[..k];
          SamePrefix(init, t, k);
        }
      }
      if Units(t, |t| - 1) < target then |t| else Ceiling(init, target)
  }

  lemma {:induction false} CeilingUnique(t: Text, target: nat, j: nat, k: nat)
    requires IsCeiling(t, target, j) && IsCeiling(t, target, k)
    ensures j == k
  {
    if j < k {
      UnitsMonotone(t, j, k - 1);
    } else if k < j {
      UnitsMonotone(t, k, j - 1);
    }
  }

  lemma {:induction false} CeilingAt(t: Text, k: nat)
    requires k <= |t|
    ensures Ceiling(t, Units(t, k)) == k
  {
    if k > 0 { CoordinatesAgree(t, k - 1, k); }
    CeilingUnique(t, Units(t, k), k, Ceiling(t, Units(t, k)));
  }

  /** String index of the first place at or after `target`, else the string's length. */
  method Utf16OffsetToStringIndex(content: Text, target: nat) returns (index: nat)
    ensures index == Units(content, Ceiling(content, target))
  {
    var offset, stringIndex := 0, 0;
    for k := 0 to |content|
      invariant offset == stringIndex == Units(content, k)
      invariant k == 0 || Units(content, k - 1) < target
    {
      if offset >= target {
        CeilingUnique(content, target, k, Ceiling(content, target));
        return stringIndex;
      }
      offset := offset + Width16(content[k]);
      stringIndex := stringIndex + Width16(content[k]);
    }
    CeilingUnique(content, target, |content|, Ceiling(content, target));
    return offset;
  }

  /** Place with string index `index`. */
  function IndexPlace(t: Text, index: nat): (k: nat)
    requires OffsetPlace(t, index).Ok?
    ensures k <= |t| && Units(t, k) == index
  {
    OffsetPlaceAt(t, Ceiling(t, index));
    CeilingAt(t, OffsetPlace(t, index).value);
    Ceiling(t, index)
  }

  /** The text after one change: ends that miss a place are moved up to the next one. */
  function AfterChange(t: Text, c: Change): Text {
    CeilingOrder(t, c.offset, c.offset + c.length);
    Splice(t, Ceiling(t, c.offset), Ceiling(t, c.offset + c.length), c.text)
  }

  lemma {:induction false} CeilingOrder(t: Text, lo: nat, hi: nat)
    requires lo <= hi
    ensures Ceiling(t, lo) <= Ceiling(t, hi)
  {
    if Ceiling(t, lo) > 0 && Ceiling(t, hi) < |t| {
      CoordinatesAgree(t, Ceiling(t, lo) - 1, Ceiling(t, hi));
    }
  }

  function AfterChanges(t: Text, changes: seq<Change>): Text {
    if changes == [] then t else AfterChange(AfterChanges(t, changes[..|changes| - 1]), changes[|changes| - 1])
  }

  /** Where the gateway accepts a change list, the browser computes the same text. */
  lemma {:induction false} BrowserMatchesGateway(t: Text, changes: seq<Change>)
    requires ApplyChanges(t, changes).Ok?
    ensures AfterChanges(t, changes) == ApplyChanges(t, changes).value
  {
    if changes != [] {
      var init, last := changes[..|changes| - 1], changes[|changes| - 1];
      BrowserMatchesGateway(t, init);
      ChangeMatchesGateway(ApplyChanges(t, init).value, last);
    }
  }

  lemma {:induction false} ChangeMatchesGateway(t: Text, change: Change)
    requires ApplyChange(t, change).Ok?
    ensures AfterChange(t, change) == ApplyChange(t, change).value
  {
    var (i, j) := ChangePlaces(t, change).value;
    CeilingAt(t, i);
    CeilingAt(t, j);
  }

  lemma {:induction false} OneMoreChange(t: Text, changes: seq<Change>, n: nat)
    requires n < |changes|
    ensures AfterChanges(t, changes[..n + 1]) == AfterChange(AfterChanges(t, changes[..n]), changes[n])
  {
    assert changes[..n + 1][..n] == changes[..n] && changes[..n + 1][n] == changes[n];
  }

  /** Cutting the string at the converted indices is the splice. */
  lemma {:induction false} SplicedByIndex(t: Text, c: Change)
    ensures var i, j := Ceiling(t, c.offset), Ceiling(t, c.offset + c.length);
            && OffsetPlace(t, Units(t, i)).Ok? && OffsetPlace(t, Units(t, j)).Ok?
            && t[..IndexPlace(t, Units(t, i))] + c.text + t[IndexPlace(t, Units(t, j))..] == AfterChange(t, c)
  {
    var i, j := Ceiling(t, c.offset), Ceiling(t, c.offset + c.length);
    CeilingOrder(t, c.offset, c.offset + c.length);
    OffsetPlaceAt(t, i);
    OffsetPlaceAt(t, j);
    CeilingAt(t, i);
    CeilingAt(t, j);
  }

  method ApplyChangesInBrowser(content: Text, changes: seq<Change>) returns (next: Text)
    ensures next == AfterChanges(content, changes)
  {
    next := content;
    for n := 0 to |changes|
      invariant next == AfterChanges(content, changes[..n])
    {
      var change := changes[n];
      var start := Utf16OffsetToStringIndex(next, change.offset);
      var end := Utf16OffsetToStringIndex(next, change.offset + change.length);
      SplicedByIndex(next, change);
      OneMoreChange(content, changes, n);
      next := next[..IndexPlace(next, start)] + change.text + next[IndexPlace(next, end)..];
    }
    assert changes[..|changes|] == changes;
  }

  // ---- Positions ----

  /** Line and UTF-16 column of `target`, counted from the last line break before it. */
  function LspPosition(t: Text, target: nat): Position {
    var k := Ceiling(t, target);
    LineBeforeTarget(t, target);
    Position(Rows(t, k), target - Units(t, LineStart(t, k)))
  }

  lemma {:induction false} LineBeforeTarget(t: Text, target: nat)
    ensures Units(t, LineStart(t, Ceiling(t, target))) <= target
  {
    var k := Ceiling(t, target);
    var ls := LineStart(t, k);
    LineStartRow(t, k);
    if ls == k && k > 0 {
      assert Width16(t[k - 1]) == 1;
    } else if ls < k {
      UnitsMonotone(t, ls, k - 1);
    }
  }

  method OffsetToLspPosition(content: Text, target: nat) returns (p: Position)
    ensures p == LspPosition(content, target)
  {
    var line, lineStartOffset, offset := 0, 0, 0;
    var k := 0;
    while k < |content|
      invariant k <= |content| && offset == Units(content, k)
      invariant k == 0 || Units(content, k - 1) < target
      invariant line == Rows(content, k) && lineStartOffset == Units(content, LineStart(content, k))
      decreases |content| - k
    {
      if offset >= target {
        break;
      }
      var c := content[k];
      if c == NEWLINE {
        line := line + 1;
        lineStartOffset := offset + 1;
      }
      offset := offset + Width16(c);
      k := k + 1;
    }
    CeilingUnique(content, target, k, Ceiling(content, target));
    LineBeforeTarget(content, target);
    p := Position(line, target - lineStartOffset);
  }

  lemma {:induction false} LspPositionAt(t: Text, k: nat)
    requires k <= |t|
    ensures LspPosition(t, Units(t, k)) == PositionOf(t, k)
  {
    CeilingAt(t, k);
  }

  /** Offset and position lookups agree on every offset, valid or not: the position the browser
      computes from an offset is found by the gateway exactly when the offset is, at the same place. */
  lemma {:induction false} OffsetAndPositionAgree(t: Text, target: nat)
    ensures PositionPlace(t, LspPosition(t, target)).Ok? <==> OffsetPlace(t, target).Ok?
    ensures OffsetPlace(t, target).Ok? ==> PositionPlace(t, LspPosition(t, target)) == OffsetPlace(t, target)
    ensures OffsetPlace(t, target) == Err(OffsetSplitsPair) ==>
              PositionPlace(t, LspPosition(t, target)) == Err(CharacterSplitsPair)
    ensures OffsetPlace(t, target) == Err(OffsetOutside) ==>
              PositionPlace(t, LspPosition(t, target)) == Err(CharacterOutside)
  {
    match OffsetPlace(t, target) {
      case Ok(k) =>
        LspPositionAt(t, k);
        PositionPlaceAt(t, k);
      case Err(e) =>
        NoPlaceForOffset(t, target);
        if e == OffsetSplitsPair {
          SplitPosition(t, target);
        } else {
          OutsidePosition(t, target);
        }
    }
  }

  lemma {:induction false} NoPlaceForOffset(t: Text, target: nat)
    requires OffsetPlace(t, target).Err?
    ensures PositionPlace(t, LspPosition(t, target)).Err?
    ensures PositionPlace(t, LspPosition(t, target)) != Err(LineOutside)
  {
    var k := Ceiling(t, target);
    RowsMonotone(t, k, |t|);
    forall m: nat | m <= |t|
      ensures PositionOf(t, m) != LspPosition(t, target)
    {
      OffsetPlaceAt(t, m);
      if Rows(t, m) == Rows(t, k) {
        if m <= k { SameLine(t, m, k); } else { SameLine(t, k, m); }
      }
    }
  }

  lemma {:induction false} SplitPosition(t: Text, target: nat)
    requires OffsetPlace(t, target) == Err(OffsetSplitsPair)
    ensures PositionPlace(t, LspPosition(t, target)) == Err(CharacterSplitsPair)
  {
    NoPlaceForOffset(t, target);
    var k := SplitScalar(t, target);
    assert IsCeiling(t, target, k + 1);
    CeilingUnique(t, target, k + 1, Ceiling(t, target));
    assert Width16(t[k]) == 2;
    UnitsMonotone(t, LineStart(t, k), k);
    assert SplitsAt(t, LspPosition(t, target), k);
  }

  lemma {:induction false} OutsidePosition(t: Text, target: nat)
    requires OffsetPlace(t, target) == Err(OffsetOutside)
    ensures PositionPlace(t, LspPosition(t, target)) == Err(CharacterOutside)
  {
    NoPlaceForOffset(t, target);
    if t != [] { UnitsMonotone(t, |t| - 1, |t|); }
    CeilingUnique(t, target, |t|, Ceiling(t, target));
    var p := LspPosition(t, target);
    forall k: nat | k < |t|
      ensures !SplitsAt(t, p, k)
    {
      UnitsMonotone(t, k + 1, |t|);
      if Rows(t, k) == Rows(t, |t|) { SameLine(t, k, |t|); }
    }
  }

  // ---- Byte points for the syntax tree ----

  /** A row and a column in UTF-8 bytes. */
  datatype Point = Point(row: nat, column: nat)

  function PointOf(t: Text, k: nat): Point
    requires k <= |t|
  {
    BytesMonotone(t, LineStart(t, k), k);
    Point(Rows(t, k), Bytes(t, k) - Bytes(t, LineStart(t, k)))
  }

  /** `content.split('\n')`. */
  function Lines(t: Text): (lines: seq<Text>)
    ensures |lines| == Rows(t, |t|) + 1
  {
    if t == [] then [[]]
    else
      var init, last := t[..|t| - 1], t[|t| - 1];
      SamePrefix(init, t, |init|);
      var lines := Lines(init);
      if last == NEWLINE then lines + [[]] else lines[|lines| - 1 := lines[|lines| - 1] + [last]]
  }

  /** The line holding place `k` continues the text from that line's start. */
  lemma {:induction false} LineOfPlace(t: Text, k: nat)
    requires k <= |t|
    ensures Rows(t, k) < |Lines(t)| && t[LineStart(t, k)..k] <= Lines(t)[Rows(t, k)]
    ensures k == |t| ==> t[LineStart(t, k)..k] == Lines(t)[Rows(t, k)]
  {
    if k == |t| {
      LastLine(t);
      assert t[LineStart(t, k)..k] == t[LineStart(t, k)..];
    } else {
      var init := t[..|t| - 1];
      LineOfPlace(init, k);
      LinesGrow(t);
      hide Lines, LineStart, Rows;
      assert init[..k] == t[..k];
      SamePrefix(init, t, k);
      assert init[LineStart(t, k)..k] == t[LineStart(t, k)..k];
    }
  }

  lemma {:induction false} LastLine(t: Text)
    ensures t[LineStart(t, |t|)..] == Lines(t)[Rows(t, |t|)]
  {
    if t != [] {
      var init, last := t[..|t| - 1], t[|t| - 1];
      LastLine(init);
      SamePrefix(init, t, |init|);
      if last != NEWLINE {
        assert t[LineStart(t, |init|)..] == init[LineStart(t, |init|)..] + [last];
      }
    }
  }

  /** One more scalar makes a line longer or adds one. */
  lemma {:induction false} LinesGrow(t: Text)
    requires t != []
    ensures var lines, grown := Lines(t[..|t| - 1]), Lines(t);
            |lines| <= |grown| && forall r | 0 <= r < |lines| :: lines[r] <= grown[r]
  {
    hide Rows;
  }

  /** `line.slice(0, n)`, for an `n` between scalars. */
  function SliceUnits(line: Text, n: nat): Text {
    line[..Ceiling(line, n)]
  }

  function TreeSitterPoint(t: Text, target: nat): Point {
    var position := LspPosition(t, target);
    var lines := Lines(t);
    var line := if position.line < |lines| then lines[position.line] else [];
    Point(position.line, |Utf8(SliceUnits(line, position.character))|)
  }

  lemma {:induction false} TreeSitterPointAt(t: Text, k: nat)
    requires k <= |t|
    ensures TreeSitterPoint(t, Units(t, k)) == PointOf(t, k)
  {
    LspPositionAt(t, k);
    LineOfPlace(t, k);
    var ls := LineStart(t, k);
    var head, line := t[ls..k], Lines(t)[Rows(t, k)];
    HeadLengths(t, ls, k);
    SliceAt(line, head, PositionOf(t, k).character);
    Utf8Length(head);
  }

  lemma {:induction false} SliceAt(line: Text, head: Text, n: nat)
    requires head <= line && Units(head, |head|) == n
    ensures SliceUnits(line, n) == head
  {
    assert line[..|head|] == head[..|head|];
    SamePrefix(line, head, |head|);
    CeilingAt(line, |head|);
  }

  lemma {:induction false} HeadLengths(t: Text, i: nat, k: nat)
    requires i <= k <= |t|
    ensures Units(t[i..k], k - i) == Units(t, k) - Units(t, i)
    ensures Bytes(t[i..k], k - i) == Bytes(t, k) - Bytes(t, i)
  {
    ConcatLengths(t[..i], t[i..k]);
    assert t[..i] + t[i..k] == t[..k];
    CutLengths(t, i);
    CutLengths(t, k);
  }

  datatype TreeSitterEdit = TreeSitterEdit(
    startIndex: nat, oldEndIndex: nat, newEndIndex: nat,
    startPosition: Point, oldEndPosition: Point, newEndPosition: Point)

  function Utf8Index(t: Text, target: nat): nat {
    |Utf8(t[..Ceiling(t, target)])|
  }

  function ToTreeSitterEdit(t: Text, offset: nat, length: nat, text: Text): TreeSitterEdit {
    AssembleEdit(
      Utf8Index(t, offset),
      Utf8Index(t, offset + length),
      |Utf8(text)|,
      TreeSitterPoint(t, offset),
      TreeSitterPoint(t, offset + length),
      TreeSitterPoint(text, Units(text, |text|)))
  }

  function AssembleEdit(startIndex: nat, oldEndIndex: nat, inserted: nat, start: Point, oldEnd: Point,
      insertedEnd: Point): TreeSitterEdit {
    TreeSitterEdit(startIndex, oldEndIndex, startIndex + inserted, start, oldEnd, PointAfter(start, insertedEnd))
  }

  /** Where text ending at `inserted` ends once it is put at `start`. */
  function PointAfter(start: Point, inserted: Point): Point {
    if inserted.row == 0 then Point(start.row, start.column + inserted.column)
    else Point(start.row + inserted.row, inserted.column)
  }

  /** The edit that turns `t` into the text with scalars `i` to `j` replaced, every index and point
      read off the old and the new text from scratch. */
  function EditFromScratch(t: Text, i: nat, j: nat, text: Text): TreeSitterEdit
    requires i <= j <= |t|
  {
    var after := Splice(t, i, j, text);
    TreeSitterEdit(Bytes(t, i), Bytes(t, j), Bytes(after, i + |text|), PointOf(t, i), PointOf(t, j),
      PointOf(after, i + |text|))
  }

  lemma {:induction false} Utf8IndexAt(t: Text, k: nat)
    requires k <= |t|
    ensures Utf8Index(t, Units(t, k)) == Bytes(t, k)
  {
    CeilingAt(t, k);
    Utf8Length(t[..k]);
    CutLengths(t, k);
  }

  /** The end of the inserted text, seen in the new text. */
  lemma {:induction false} InsertedEnd(t: Text, i: nat, j: nat, text: Text)
    requires i <= j <= |t|
    ensures var after, n := Splice(t, i, j, text), i + |text|;
            Bytes(after, n) == Bytes(t, i) + Bytes(text, |text|)
              && PointOf(after, n) == PointAfter(PointOf(t, i), PointOf(text, |text|))
  {
    hide Bytes, Splice, Rows, LineStart;
    var head, after, n := t[..i] + text, Splice(t, i, j, text), i + |text|;
    SpliceStarts(t, i, j, text);
    assert head == head[..n];
    SamePrefix(after, head, n);
    SamePrefix(t, t[..i], i);
    ConcatCoordinates(t[..i], text, |text|);
    if Rows(text, |text|) == 0 {
      SamePrefixAt(t, after, i, LineStart(t, i));
      NoBreaks(text);
      assert LineStart(after, n) == LineStart(t, i) && Rows(after, n) == Rows(t, i);
    } else {
      var m := LineStart(text, |text|);
      SamePrefixAt(after, head, n, i + m);
      ConcatCoordinates(t[..i], text, m);
      assert LineStart(after, n) == i + m && Bytes(after, i + m) == Bytes(t, i) + Bytes(text, m);
    }
  }

  lemma {:induction false} SpliceStarts(t: Text, i: nat, j: nat, text: Text)
    requires i <= j <= |t|
    ensures i + |text| <= |Splice(t, i, j, text)| && Splice(t, i, j, text)[..i + |text|] == t[..i] + text
    ensures Splice(t, i, j, text)[..i] == t[..i]
  {}

  lemma {:induction false} SamePrefixAt(t: Text, u: Text, n: nat, k: nat)
    requires k <= n <= |t| && n <= |u| && t[..n] == u[..n]
    ensures Bytes(t, k) == Bytes(u, k)
  {
    assert t[..k] == t[..n][..k] == u[..n][..k] == u[..k];
    SamePrefix(t, u, k);
  }

  lemma {:induction false} NoBreaks(t: Text)
    requires Rows(t, |t|) == 0
    ensures LineStart(t, |t|) == 0 && Bytes(t, 0) == 0
  {
    SameLine(t, 0, |t|);
  }

  /** The edit computed from offsets is the edit read off both texts, for any inserted text. */
  lemma {:induction false} TreeSitterEditCorrect(t: Text, i: nat, j: nat, offset: nat, length: nat, text: Text)
    requires i <= j <= |t| && Units(t, i) == offset && Units(t, j) == offset + length
    ensures ToTreeSitterEdit(t, offset, length, text) == EditFromScratch(t, i, j, text)
  {
    hide *;
    EditByParts(t, i, j, text);
    EditByOffsets(t, i, j, offset, length, text);
  }

  lemma {:induction false} EditByOffsets(t: Text, i: nat, j: nat, offset: nat, length: nat, text: Text)
    requires i <= j <= |t| && Units(t, i) == offset && Units(t, j) == offset + length
    ensures ToTreeSitterEdit(t, offset, length, text) ==
            AssembleEdit(Bytes(t, i), Bytes(t, j), Bytes(text, |text|), PointOf(t, i), PointOf(t, j),
              PointOf(text, |text|))
  {
    PlaceParts(t, i, offset);
    PlaceParts(t, j, offset + length);
    PlaceParts(text, |text|, Units(text, |text|));
    Utf8Length(text);
    SameParts(t, i, j, offset, length, text);
  }

  lemma {:induction false} PlaceParts(t: Text, k: nat, target: nat)
    requires k <= |t| && Units(t, k) == target
    ensures Utf8Index(t, target) == Bytes(t, k) && TreeSitterPoint(t, target) == PointOf(t, k)
  {
    Utf8IndexAt(t, k);
    TreeSitterPointAt(t, k);
  }

  lemma {:induction false} SameParts(t: Text, i: nat, j: nat, offset: nat, length: nat, text: Text)
    requires i <= j <= |t|
    requires Utf8Index(t, offset) == Bytes(t, i) && TreeSitterPoint(t, offset) == PointOf(t, i)
    requires Utf8Index(t, offset + length) == Bytes(t, j) && TreeSitterPoint(t, offset + length) == PointOf(t, j)
    requires |Utf8(text)| == Bytes(text, |text|)
    requires TreeSitterPoint(text, Units(text, |text|)) == PointOf(text, |text|)
    ensures ToTreeSitterEdit(t, offset, length, text) ==
            AssembleEdit(Bytes(t, i), Bytes(t, j), Bytes(text, |text|), PointOf(t, i), PointOf(t, j),
              PointOf(text, |text|))
  {}

  lemma {:induction false} EditByParts(t: Text, i: nat, j: nat, text: Text)
    requires i <= j <= |t|
    ensures EditFromScratch(t, i, j, text) ==
            AssembleEdit(Bytes(t, i), Bytes(t, j), Bytes(text, |text|), PointOf(t, i), PointOf(t, j),
              PointOf(text, |text|))
  {
    InsertedEnd(t, i, j, text);
  }

  /** In an editor-ordered batch the edits are all computed against the text before the batch; each is
      still right for the text it meets, with every earlier change already made. */
  lemma {:induction false} BatchTreeSitterEdits(t: Text, changes: seq<Change>, n: nat)
    requires MonacoBatch(t, changes) && n < |changes|
    ensures MonacoBatch(t, changes[..n]) && ApplyChanges(t, changes[..n]).Ok?
    ensures var u, c := ApplyChanges(t, changes[..n]).value, changes[n];
            && ChangePlaces(u, c) == ChangePlaces(t, c)
            && var (i, j) := ChangePlaces(u, c).value;
               ToTreeSitterEdit(t, c.offset, c.length, c.text) == EditFromScratch(u, i, j, c.text)
  {
    var init, c := changes[..n], changes[n];
    PrefixesAreBatches(t, changes, n);
    SequentialIsSimultaneous(t, init);
    RunningText(t, init, c);
    var (i, j) := ChangePlaces(t, c).value;
    RunningEdit(t, init, c, i, j);
    TreeSitterEditCorrect(t, i, j, c.offset, c.length, c.text);
  }

  /** The edits of a change list: one for each change, every index and point read off from scratch in the
      texts before and after that change. */
  ghost predicate EditsRight(before: Text, changes: seq<Change>, edits: seq<TreeSitterEdit>) {
    |edits| == |changes| && forall k | 0 <= k < |changes| :: EditRight(before, changes, k, edits[k])
  }

  ghost predicate EditRight(before: Text, changes: seq<Change>, k: nat, edit: TreeSitterEdit)
    requires k < |changes|
  {
    && ApplyChanges(before, changes[..k]).Ok?
    && var u := ApplyChanges(before, changes[..k]).value;
       && ChangePlaces(u, changes[k]).Ok?
       && var (i, j) := ChangePlaces(u, changes[k]).value;
          edit == EditFromScratch(u, i, j, changes[k].text)
  }

  lemma {:induction false} PrefixesAreBatches(t: Text, changes: seq<Change>, n: nat)
    requires MonacoBatch(t, changes) && n < |changes|
    ensures MonacoBatch(t, changes[..n]) && MonacoBatch(t, changes[..n] + [changes[n]])
  {
    assert changes[..n] + [changes[n]] == changes[..n + 1];
  }

  /** The edit of the next change reads the same from the running text. */
  lemma {:induction false} RunningEdit(t: Text, init: seq<Change>, c: Change, i: nat, j: nat)
    requires MonacoBatch(t, init) && MonacoBatch(t, init + [c]) && ChangePlaces(t, c) == Ok((i, j))
    ensures j <= |Substitute(t, init)|
    ensures EditFromScratch(t, i, j, c.text) == EditFromScratch(Substitute(t, init), i, j, c.text)
  {
    var u, lo := Substitute(t, init), Low(t, init);
    assert j <= lo by {
      PrefixIsBatch(t, init + [c]);
      assert (init + [c])[..|init|] == init;
    }
    assert u[..lo] == t[..lo];
    EditSeesPrefixOnly(t, u, i, j, lo, c.text);
  }

  lemma {:induction false} EditSeesPrefixOnly(t: Text, u: Text, i: nat, j: nat, n: nat, text: Text)
    requires i <= j <= n <= |t| && n <= |u| && t[..n] == u[..n]
    ensures EditFromScratch(t, i, j, text) == EditFromScratch(u, i, j, text)
  {
    SamePoint(t, u, i, n);
    SamePoint(t, u, j, n);
    InsertedEnd(t, i, j, text);
    InsertedEnd(u, i, j, text);
  }

  lemma {:induction false} SamePoint(t: Text, u: Text, k: nat, n: nat)
    requires k <= n <= |t| && n <= |u| && t[..n] == u[..n]
    ensures Bytes(t, k) == Bytes(u, k) && PointOf(t, k) == PointOf(u, k)
  {
    assert t[..k] == t[..n][..k] == u[..n][..k] == u[..k];
    SamePrefix(t, u, k);
    SamePrefixAt(t, u, k, LineStart(t, k));
  }
}
