/** The gateway's text applier: each change is located twice, by UTF-16 offset and by position,
    and refused unless both name the same bytes. */
module TextEdits {
  import opened Unicode
  import opened Edits

  // ---- What the lookups mean: places named by a coordinate ----

  /** The place whose UTF-16 offset is `target`. */
  ghost function OffsetPlace(t: Text, target: nat): (r: Edit<nat>)
    ensures r.Ok? ==> r.value <= |t| && Units(t, r.value) == target
  {
    if exists k: nat | k <= |t| :: Units(t, k) == target then
      var k: nat :| k <= |t| && Units(t, k) == target; Ok(k)
    else if Units(t, |t|) < target then
      Err(OffsetOutside)
    else
      Err(OffsetSplitsPair)
  }

  /** A character count that falls between the two code units of scalar `k`. */
  ghost predicate SplitsAt(t: Text, p: Position, k: nat)
    requires k < |t|
  {
    PositionOf(t, k).line == p.line
      && PositionOf(t, k).character < p.character < PositionOf(t, k).character + Width16(t[k])
  }

  /** The place whose (line, character) pair is `p`. */
  ghost function PositionPlace(t: Text, p: Position): (r: Edit<nat>)
    ensures r.Ok? ==> r.value <= |t| && PositionOf(t, r.value) == p
  {
    if exists k: nat | k <= |t| :: PositionOf(t, k) == p then
      var k: nat :| k <= |t| && PositionOf(t, k) == p; Ok(k)
    else if Rows(t, |t|) < p.line then
      Err(LineOutside)
    else if exists k: nat | k < |t| :: SplitsAt(t, p, k) then
      Err(CharacterSplitsPair)
    else
      Err(CharacterOutside)
  }

  /** The byte index of a looked-up place. */
  ghost function InBytes(t: Text, r: Edit<nat>): Edit<nat>
    requires r.Ok? ==> r.value <= |t|
  {
    match r
    case Ok(k) => Ok(Bytes(t, k))
    case Err(e) => Err(e)
  }

  lemma {:induction false} OffsetPlaceAt(t: Text, k: nat)
    requires k <= |t|
    ensures OffsetPlace(t, Units(t, k)) == Ok(k)
  {
    var m := OffsetPlace(t, Units(t, k)).value;
    CoordinatesAgree(t, k, m);
  }

  lemma {:induction false} OffsetPlaceInside(t: Text, k: nat, target: nat)
    requires k < |t| && Units(t, k) < target < Units(t, k + 1)
    ensures OffsetPlace(t, target) == Err(OffsetSplitsPair)
  {
    UnitsMonotone(t, k + 1, |t|);
    forall m: nat | m <= |t|
      ensures Units(t, m) != target
    {
      CoordinatesAgree(t, k, m);
      CoordinatesAgree(t, m, k + 1);
    }
  }

  lemma {:induction false} OffsetPlaceOutside(t: Text, target: nat)
    requires Units(t, |t|) < target
    ensures OffsetPlace(t, target) == Err(OffsetOutside)
  {
    forall m: nat | m <= |t|
      ensures Units(t, m) != target
    {
      UnitsMonotone(t, m, |t|);
    }
  }

  lemma {:induction false} PositionPlaceAt(t: Text, k: nat)
    requires k <= |t|
    ensures PositionPlace(t, PositionOf(t, k)) == Ok(k)
  {
    var m := PositionPlace(t, PositionOf(t, k)).value;
    CoordinatesAgree(t, k, m);
  }

  /** Scalars `ls` up to `le` are one whole line of `t`, without its line break. */
  ghost predicate WholeLine(t: Text, ls: nat, le: nat) {
    && ls <= le <= |t|
    && (ls == 0 || t[ls - 1] == NEWLINE)
    && (le == |t| || t[le] == NEWLINE)
    && NEWLINE !in t[ls..le]
  }

  /** Inside a line, characters are the UTF-16 offsets of the line's own text. */
  lemma {:induction false} InsideLine(t: Text, ls: nat, le: nat, j: nat)
    requires WholeLine(t, ls, le) && j <= le - ls
    ensures Rows(t, ls + j) == Rows(t, ls) && LineStart(t, ls + j) == ls
    ensures Units(t, ls + j) == Units(t, ls) + Units(t[ls..le], j)
    ensures Bytes(t, ls + j) == Bytes(t, ls) + Bytes(t[ls..le], j)
    ensures PositionOf(t, ls + j) == Position(Rows(t, ls), Units(t[ls..le], j))
  {
    if j > 0 {
      InsideLine(t, ls, le, j - 1);
      assert t[ls..le][j - 1] == t[ls + j - 1];
    }
  }

  lemma {:induction false} OutsideLine(t: Text, ls: nat, le: nat, k: nat)
    requires WholeLine(t, ls, le) && k <= |t| && Rows(t, k) == Rows(t, ls)
    ensures ls <= k <= le
  {
    if k < ls {
      RowsMonotone(t, k, ls - 1);
    } else if le < k {
      InsideLine(t, ls, le, le - ls);
      RowsMonotone(t, le + 1, k);
    }
  }

  /** How an offset lookup inside a line answers a position lookup. */
  ghost function OnLine(r: Edit<nat>, ls: nat): Edit<nat> {
    match r
    case Ok(j) => Ok(ls + j)
    case Err(e) => Err(if e == OffsetSplitsPair then CharacterSplitsPair else CharacterOutside)
  }

  lemma {:induction false} PositionPlaceOnLine(t: Text, ls: nat, le: nat, character: nat)
    requires WholeLine(t, ls, le)
    ensures PositionPlace(t, Position(Rows(t, ls), character)) == OnLine(OffsetPlace(t[ls..le], character), ls)
  {
    RowsMonotone(t, ls, |t|);
    match OffsetPlace(t[ls..le], character) {
      case Ok(j) =>
        InsideLine(t, ls, le, j);
        PositionPlaceAt(t, ls + j);
      case Err(e) =>
        NoPlaceOnLine(t, ls, le, character);
        if e == OffsetSplitsPair {
          SplitOnLine(t, ls, le, character);
        } else {
          NoSplitOnLine(t, ls, le, character);
        }
    }
  }

  lemma {:induction false} SplitOnLine(t: Text, ls: nat, le: nat, character: nat)
    requires WholeLine(t, ls, le) && OffsetPlace(t[ls..le], character) == Err(OffsetSplitsPair)
    ensures exists k: nat | k < |t| :: SplitsAt(t, Position(Rows(t, ls), character), k)
  {
    var j := SplitScalar(t[ls..le], character);
    InsideLine(t, ls, le, j);
    assert SplitsAt(t, Position(Rows(t, ls), character), ls + j);
  }

  lemma {:induction false} NoPlaceOnLine(t: Text, ls: nat, le: nat, character: nat)
    requires WholeLine(t, ls, le) && OffsetPlace(t[ls..le], character).Err?
    ensures !exists k: nat | k <= |t| :: PositionOf(t, k) == Position(Rows(t, ls), character)
  {
    forall k: nat | k <= |t|
      ensures PositionOf(t, k) != Position(Rows(t, ls), character)
    {
      if Rows(t, k) == Rows(t, ls) {
        OutsideLine(t, ls, le, k);
        InsideLine(t, ls, le, k - ls);
        OffsetPlaceAt(t[ls..le], k - ls);
      }
    }
  }

  lemma {:induction false} NoSplitOnLine(t: Text, ls: nat, le: nat, character: nat)
    requires WholeLine(t, ls, le) && OffsetPlace(t[ls..le], character) == Err(OffsetOutside)
    ensures !exists k: nat | k < |t| :: SplitsAt(t, Position(Rows(t, ls), character), k)
  {
    forall k: nat | k < |t|
      ensures !SplitsAt(t, Position(Rows(t, ls), character), k)
    {
      if Rows(t, k) == Rows(t, ls) {
        OutsideLine(t, ls, le, k);
        InsideLine(t, ls, le, k - ls);
        if k < le {
          ScalarInside(t[ls..le], k - ls, character);
          assert t[ls..le][k - ls] == t[k];
        }
      }
    }
  }

  lemma {:induction false} ScalarInside(line: Text, k: nat, character: nat)
    requires k < |line| && OffsetPlace(line, character) == Err(OffsetOutside)
    ensures Units(line, k) + Width16(line[k]) < character
  {
    UnitsMonotone(line, k + 1, |line|);
  }

  lemma {:induction false} SplitScalar(t: Text, target: nat) returns (k: nat)
    requires OffsetPlace(t, target) == Err(OffsetSplitsPair)
    ensures k < |t| && Units(t, k) < target < Units(t, k + 1)
  {
    OffsetPlaceAt(t, 0);
    k := 0;
    while Units(t, k + 1) < target
      invariant k < |t| && Units(t, k) < target
      decreases |t| - k
    {
      OffsetPlaceAt(t, k + 1);
      if k + 1 == |t| { assert false; }
      k := k + 1;
    }
    OffsetPlaceAt(t, k + 1);
  }

  // ---- The lookups as the gateway computes them ----

  method Utf16OffsetToByteIndex(content: Text, target: nat) returns (r: Edit<nat>)
    ensures r == InBytes(content, OffsetPlace(content, target))
  {
    var utf16Offset, byteIndex := 0, 0;
    for k := 0 to |content|
      invariant utf16Offset == Units(content, k) <= target
      invariant byteIndex == Bytes(content, k)
    {
      if utf16Offset == target {
        OffsetPlaceAt(content, k);
        return Ok(byteIndex);
      }
      utf16Offset := utf16Offset + Width16(content[k]);
      if utf16Offset > target {
        OffsetPlaceInside(content, k, target);
        return Err(OffsetSplitsPair);
      }
      byteIndex := byteIndex + Width8(content[k]);
    }
    if utf16Offset == target {
      OffsetPlaceAt(content, |content|);
      return Ok(byteIndex);
    }
    OffsetPlaceOutside(content, target);
    return Err(OffsetOutside);
  }

  /** First line break at or after byte `lineStart`, else the end of the text. */
  method LineEnd(content: Text, ghost ls: nat, lineStart: nat) returns (ghost le: nat, end: nat)
    requires ls <= |content| && lineStart == Bytes(content, ls)
    ensures ls <= le <= |content| && end == Bytes(content, le)
    ensures NEWLINE !in content[ls..le] && (le == |content| || content[le] == NEWLINE)
  {
    var bytes := Utf8(content);
    Utf8Length(content);
    BytesMonotone(content, ls, |content|);
    le, end := ls, lineStart;
    while end < |bytes| && bytes[end] != NEWLINE
      invariant ls <= le <= |content| && forall m | ls <= m < le :: content[m] != NEWLINE
      invariant ByteOf(content, le, end)
    {
      Utf8Byte(content, le, end);
      end := end + 1;
      if end == Bytes(content, le + 1) {
        le := le + 1;
      }
    }
    if end < |bytes| {
      Utf8Byte(content, le, end);
    } else if le < |content| {
      BytesMonotone(content, le + 1, |content|);
    }
  }

  /** Byte `index` belongs to scalar `k`, or both are at the end. */
  ghost predicate ByteOf(t: Text, k: nat, index: nat) {
    && k <= |t|
    && Bytes(t, k) <= index
    && (if k < |t| then index < Bytes(t, k + 1) && (t[k] == NEWLINE ==> index == Bytes(t, k)) else index == Bytes(t, k))
  }

  lemma {:induction false} EndOfLine(t: Text, ls: nat, le: nat)
    requires ls <= le <= |t|
    ensures Bytes(t, le) == Bytes(t, ls) + Bytes(t[ls..le], le - ls)
  {
    ConcatCoordinates(t[..ls], t[ls..le], le - ls);
    assert t[..le] == t[..ls] + t[ls..le];
    SamePrefix(t, t[..ls], ls);
    SamePrefix(t, t[..le], le);
  }

  method LineCharacterToByteIndex(content: Text, lineStart: nat, lineEnd: nat, target: nat) returns (r: Edit<nat>)
    requires OnBoundary(content, lineStart) && OnBoundary(content, lineEnd) && lineStart <= lineEnd
    ensures ScalarIndex(content, lineStart) <= ScalarIndex(content, lineEnd)
    ensures var ls := ScalarIndex(content, lineStart);
            var line := content[ls..ScalarIndex(content, lineEnd)];
            var p := OffsetPlace(line, target);
            r == if p.Ok? then Ok(lineStart + Bytes(line, p.value)) else OnLine(p, ls)
  {
    var ls, le := ScalarIndex(content, lineStart), ScalarIndex(content, lineEnd);
    CoordinatesAgree(content, le, ls);
    var line := content[ls..le];
    var utf16Offset, relative := 0, 0;
    for k := 0 to |line|
      invariant utf16Offset == Units(line, k) <= target
      invariant relative == Bytes(line, k)
    {
      if utf16Offset == target {
        OffsetPlaceAt(line, k);
        return Ok(lineStart + relative);
      }
      utf16Offset := utf16Offset + Width16(line[k]);
      if utf16Offset > target {
        OffsetPlaceInside(line, k, target);
        return Err(CharacterSplitsPair);
      }
      relative := relative + Width8(line[k]);
    }
    if utf16Offset == target {
      OffsetPlaceAt(line, |line|);
      EndOfLine(content, ls, le);
      return Ok(lineEnd);
    }
    OffsetPlaceOutside(line, target);
    return Err(CharacterOutside);
  }

  method PositionToByteIndex(content: Text, target: Position) returns (r: Edit<nat>)
    ensures r == InBytes(content, PositionPlace(content, target))
  {
    var line, lineStart, index := 0, 0, 0;
    var bytes := Utf8(content);
    Utf8Length(content);
    ghost var ls, k := 0, 0;
    while index < |bytes|
      invariant ByteOf(content, k, index)
      invariant ls == LineStart(content, k) && lineStart == Bytes(content, ls)
      invariant line == Rows(content, k) <= target.line
    {
      if line == target.line {
        r := CharacterOnLine(content, k, lineStart, target);
        return;
      }
      Utf8Byte(content, k, index);
      if bytes[index] == NEWLINE {
        EncodeShape(content[k]);
        line := line + 1;
        index := index + 1;
        lineStart := index;
        k := k + 1;
        ls := k;
      } else {
        index := index + 1;
        if index == Bytes(content, k + 1) { k := k + 1; }
      }
    }
    if line == target.line {
      r := CharacterOnLine(content, k, lineStart, target);
      return;
    }
    if k < |content| { BytesMonotone(content, k + 1, |content|); }
    LineOutsideExactly(content, target);
    return Err(LineOutside);
  }

  /** The line's text from its start to its break, searched for the wanted character. */
  method CharacterOnLine(content: Text, ghost k: nat, lineStart: nat, target: Position) returns (r: Edit<nat>)
    requires k <= |content| && lineStart == Bytes(content, LineStart(content, k))
    requires Rows(content, k) == target.line
    ensures r == InBytes(content, PositionPlace(content, target))
  {
    ghost var ls := LineStart(content, k);
    LineStartRow(content, k);
    var le, lineEnd := LineEnd(content, ls, lineStart);
    BytesMonotone(content, ls, le);
    r := LineCharacterToByteIndex(content, lineStart, lineEnd, target.character);
    assert ScalarIndex(content, lineStart) == ls by { CoordinatesAgree(content, ls, ScalarIndex(content, lineStart)); }
    assert ScalarIndex(content, lineEnd) == le by { CoordinatesAgree(content, le, ScalarIndex(content, lineEnd)); }
    AnswerInBytes(content, ls, le, target);
  }

  lemma {:induction false} AnswerInBytes(t: Text, ls: nat, le: nat, p: Position)
    requires WholeLine(t, ls, le) && Rows(t, ls) == p.line
    ensures var r, line := OffsetPlace(t[ls..le], p.character), t[ls..le];
            InBytes(t, PositionPlace(t, p)) == if r.Ok? then Ok(Bytes(t, ls) + Bytes(line, r.value)) else OnLine(r, ls)
  {
    PositionPlaceOnLine(t, ls, le, p.character);
    match OffsetPlace(t[ls..le], p.character) {
      case Ok(j) => InsideLine(t, ls, le, j);
      case Err(_) =>
    }
  }

  // ---- What applying a change means ----

  /** `c` names the scalars from `i` up to `j` of `t`, both ways. */
  ghost predicate Locates(t: Text, c: Change, i: nat, j: nat) {
    && i <= j <= |t|
    && Units(t, i) == c.offset && Units(t, j) == c.offset + c.length <= USIZE_MAX
    && PositionOf(t, i) == c.start && PositionOf(t, j) == c.end
  }

  /** The places a change names, or the first check it fails. */
  ghost function ChangePlaces(t: Text, c: Change): (r: Edit<(nat, nat)>)
    ensures r.Ok? ==> Locates(t, c, r.value.0, r.value.1)
  {
    var i :- OffsetPlace(t, c.offset);
    if c.offset + c.length > USIZE_MAX then
      Err(LengthOverflow)
    else
      var j :- OffsetPlace(t, c.offset + c.length);
      var p :- PositionPlace(t, c.start);
      var q :- PositionPlace(t, c.end);
      CoordinatesAgree(t, j, i);
      if p != i || q != j then Err(PositionMismatch) else Ok((i, j))
  }

  ghost function ApplyChange(t: Text, c: Change): Edit<Text> {
    var p :- ChangePlaces(t, c);
    Ok(Splice(t, p.0, p.1, c.text))
  }

  /** Changes one after another, each on the text the previous ones left. */
  ghost function ApplyChanges(t: Text, changes: seq<Change>): Edit<Text> {
    if changes == [] then Ok(t)
    else
      var u :- ApplyChanges(t, changes[..|changes| - 1]);
      ApplyChange(u, changes[|changes| - 1])
  }

  function LastNumber(batches: seq<Batch>): nat {
    if batches == [] then 0 else batches[|batches| - 1].number
  }

  /** Batches one after another; their numbers must rise. */
  ghost function ApplyBatches(t: Text, batches: seq<Batch>): Edit<Text> {
    if batches == [] then Ok(t)
    else
      var init, last := batches[..|batches| - 1], batches[|batches| - 1];
      var u :- ApplyBatches(t, init);
      if last.number <= LastNumber(init) then Err(SeqNotIncreasing(last.number, LastNumber(init)))
      else ApplyChanges(u, last.changes)
  }

  /** A change is accepted exactly when both its descriptions name one range of the text. */
  lemma {:induction false} ChangeAccepted(t: Text, c: Change)
    ensures ApplyChange(t, c).Ok? <==> exists i: nat, j: nat :: Locates(t, c, i, j)
    ensures forall i: nat, j: nat | Locates(t, c, i, j) :: ApplyChange(t, c) == Ok(Splice(t, i, j, c.text))
  {
    forall i: nat, j: nat | Locates(t, c, i, j)
      ensures ApplyChange(t, c) == Ok(Splice(t, i, j, c.text))
    {
      OffsetPlaceAt(t, i);
      OffsetPlaceAt(t, j);
      PositionPlaceAt(t, i);
      PositionPlaceAt(t, j);
    }
  }

  /** A line is outside the text exactly when it comes after the last one. */
  lemma {:induction false} LineOutsideExactly(t: Text, p: Position)
    ensures PositionPlace(t, p) == Err(LineOutside) <==> Rows(t, |t|) < p.line
  {
    forall k: nat | k <= |t|
      ensures Rows(t, k) <= Rows(t, |t|)
    {
      RowsMonotone(t, k, |t|);
    }
  }

  /** What a refused change is refused for: its offsets are looked up before its positions, the start before the
      end, and only a change whose four lookups all succeed is refused for a mismatch. */
  lemma {:induction false} FirstFailure(t: Text, c: Change)
    requires ApplyChange(t, c).Err?
    ensures var error, end := ApplyChange(t, c).error, c.offset + c.length;
            && (OffsetPlace(t, c.offset).Err? ==> error == OffsetPlace(t, c.offset).error)
            && (OffsetPlace(t, c.offset).Ok? && end > USIZE_MAX ==> error == LengthOverflow)
            && (OffsetPlace(t, c.offset).Ok? && end <= USIZE_MAX && OffsetPlace(t, end).Err? ==>
                  error == OffsetPlace(t, end).error)
            && (OffsetPlace(t, c.offset).Ok? && end <= USIZE_MAX && OffsetPlace(t, end).Ok? ==>
                  && (PositionPlace(t, c.start).Err? ==> error == PositionPlace(t, c.start).error)
                  && (PositionPlace(t, c.start).Ok? && PositionPlace(t, c.end).Err? ==>
                        error == PositionPlace(t, c.end).error)
                  && (PositionPlace(t, c.start).Ok? && PositionPlace(t, c.end).Ok? ==> error == PositionMismatch))
  {}

  /** A batch is refused for its number exactly when the batches before it apply and the number does not rise. */
  lemma {:induction false} NumberRefused(t: Text, batches: seq<Batch>, b: Batch)
    requires ApplyBatches(t, batches).Ok?
    ensures var last := if batches == [] then 0 else batches[|batches| - 1].number;
            (b.number <= last ==> ApplyBatches(t, batches + [b]) == Err(SeqNotIncreasing(b.number, last)))
            && (b.number > last ==>
                  ApplyBatches(t, batches + [b]) == ApplyChanges(ApplyBatches(t, batches).value, b.changes))
  {
    assert (batches + [b])[..|batches|] == batches;
  }

  lemma {:induction false} ApplyChangesConcat(t: Text, a: seq<Change>, b: seq<Change>)
    ensures var u := ApplyChanges(t, a);
            ApplyChanges(t, a + b) == if u.Ok? then ApplyChanges(u.value, b) else u
  {
    if b == [] {
      assert a + b == a;
    } else {
      var b' := b[..|b| - 1];
      ApplyChangesConcat(t, a, b');
      assert (a + b)[..|a + b| - 1] == a + b';
    }
  }

  // ---- Applying changes as the gateway does it ----

  /** A growable string, edited in place through byte indices. */
  class StringBuffer {
    var text: Text

    constructor (text: Text)
      ensures this.text == text
    {
      this.text := text;
    }

    method ReplaceRange(start: nat, end: nat, ins: Text)
      requires OnBoundary(text, start) && OnBoundary(text, end) && start <= end
      modifies this
      ensures ScalarIndex(old(text), start) <= ScalarIndex(old(text), end)
      ensures text == Splice(old(text), ScalarIndex(old(text), start), ScalarIndex(old(text), end), ins)
      ensures end <= |Utf8(old(text))|
      ensures Utf8(text) == Utf8(old(text))[..start] + Utf8(ins) + Utf8(old(text))[end..]
    {
      var i, j := ScalarIndex(text, start), ScalarIndex(text, end);
      CoordinatesAgree(text, j, i);
      SpliceBytes(text, i, j, ins);
      text := text[..i] + ins + text[j..];
    }
  }

  /** Both lookups of both ends of a change, compared. */
  method LocateChange(t: Text, change: Change) returns (r: Edit<(nat, nat)>)
    ensures var p := ChangePlaces(t, change);
            r == if p.Ok? then Ok((Bytes(t, p.value.0), Bytes(t, p.value.1))) else Err(p.error)
  {
    var start :- Utf16OffsetToByteIndex(t, change.offset);
    if change.offset + change.length > USIZE_MAX {
      return Err(LengthOverflow);
    }
    var end :- Utf16OffsetToByteIndex(t, change.offset + change.length);
    var rangeStart :- PositionToByteIndex(t, change.start);
    var rangeEnd :- PositionToByteIndex(t, change.end);
    CoordinatesAgree(t, OffsetPlace(t, change.offset).value, PositionPlace(t, change.start).value);
    CoordinatesAgree(t, OffsetPlace(t, change.offset + change.length).value, PositionPlace(t, change.end).value);
    if rangeStart != start || rangeEnd != end {
      return Err(PositionMismatch);
    }
    return Ok((start, end));
  }

  /** Apply one change in place, or leave the text alone and say why. */
  method ApplyTextChange(content: StringBuffer, change: Change) returns (r: Edit<()>)
    modifies content
    ensures var u := ApplyChange(old(content.text), change);
            if u.Ok? then r == Ok(()) && content.text == u.value
            else r == Err(u.error) && content.text == old(content.text)
  {
    var range :- LocateChange(content.text, change);
    var (start, end) := range;
    ghost var t := content.text;
    ghost var (i, j) := ChangePlaces(t, change).value;
    BytesMonotone(t, i, j);
    if start > end {
      r := Err(StartAfterEnd);
    } else {
      assert ScalarIndex(t, start) == i && ScalarIndex(t, end) == j by {
        CoordinatesAgree(t, i, ScalarIndex(t, start));
        CoordinatesAgree(t, j, ScalarIndex(t, end));
      }
      content.ReplaceRange(start, end, change.text);
      r := Ok(());
    }
  }

  method ApplyTextChangeBatches(base: Text, batches: seq<Batch>) returns (r: Edit<Text>)
    ensures r == ApplyBatches(base, batches)
  {
    var content := new StringBuffer(base);
    var previous := 0;
    for b := 0 to |batches|
      invariant ApplyBatches(base, batches[..b]) == Ok(content.text)
      invariant previous == LastNumber(batches[..b])
      invariant fresh(content)
    {
      BatchPrefix(base, batches, b);
      var batch := batches[b];
      if batch.number <= previous {
        BatchesFail(base, batches, b + 1);
        return Err(SeqNotIncreasing(batch.number, previous));
      }
      previous := batch.number;
      ghost var t := content.text;
      for i := 0 to |batch.changes|
        invariant ApplyChanges(t, batch.changes[..i]) == Ok(content.text)
      {
        assert batch.changes[..i + 1][..i] == batch.changes[..i];
        var applied := ApplyTextChange(content, batch.changes[i]);
        if applied.Err? {
          ChangesFail(t, batch.changes, i + 1);
          BatchesFail(base, batches, b + 1);
          return Err(applied.error);
        }
      }
      assert batch.changes[..|batch.changes|] == batch.changes;
    }
    assert batches[..|batches|] == batches;
    return Ok(content.text);
  }

  lemma {:induction false} BatchPrefix(t: Text, batches: seq<Batch>, n: nat)
    requires n < |batches|
    ensures batches[..n + 1][..n] == batches[..n] && batches[..n + 1][n] == batches[n]
  {}

  /** The first failure decides. */
  lemma {:induction false} BatchesFail(t: Text, batches: seq<Batch>, n: nat)
    requires n <= |batches| && ApplyBatches(t, batches[..n]).Err?
    ensures ApplyBatches(t, batches) == ApplyBatches(t, batches[..n])
    decreases |batches| - n
  {
    if n < |batches| {
      BatchPrefix(t, batches, n);
      BatchesFail(t, batches, n + 1);
    } else {
      assert batches[..n] == batches;
    }
  }

  lemma {:induction false} ChangesFail(t: Text, changes: seq<Change>, n: nat)
    requires n <= |changes| && ApplyChanges(t, changes[..n]).Err?
    ensures ApplyChanges(t, changes) == ApplyChanges(t, changes[..n])
    decreases |changes| - n
  {
    if n < |changes| {
      assert changes[..n + 1][..n] == changes[..n];
      ChangesFail(t, changes, n + 1);
    } else {
      assert changes[..n] == changes;
    }
  }
}
