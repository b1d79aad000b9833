/** Replaying operations: ranges sorted by descending start and spliced one after another, as the client
    does to the operations of a chunk and the peer to the client's own. */
module Replays {
  import opened Unicode
  import opened Edits
  import opened TextEdits
  import opened MonacoOrder
  import opened ProxyOps

  datatype Replacement = Replacement(start: nat, end: nat, text: Text)

  /** A range that is refused, or one that cuts a character and so stops the program. */
  datatype ReplayError = InvalidRange | CutsCharacter

  type Replay = Result<Text, ReplayError>

  function Min(a: nat, b: nat): nat {
    if a < b then a else b
  }

  /** Ranges paired with texts, as far as both go. */
  function Paired(ranges: seq<Range>, texts: seq<Text>): seq<Replacement> {
    seq(Min(|ranges|, |texts|), i requires 0 <= i < Min(|ranges|, |texts|) =>
      Replacement(ranges[i].start, ranges[i].end, texts[i]))
  }

  // ---- The stable sort by descending start ----

  function Inserted(s: seq<Replacement>, x: Replacement): seq<Replacement> {
    if s == [] then [x]
    else if s[0].start < x.start then [x] + s
    else [s[0]] + Inserted(s[1..], x)
  }

  function Sorted(s: seq<Replacement>): seq<Replacement> {
    if s == [] then [] else Inserted(Sorted(s[..|s| - 1]), s[|s| - 1])
  }

  predicate Descending(s: seq<Replacement>) {
    forall i, j | 0 <= i < j < |s| :: s[j].start <= s[i].start
  }

  function StartingAt(s: seq<Replacement>, start: nat): seq<Replacement> {
    if s == [] then [] else StartingAt(s[..|s| - 1], start) + if s[|s| - 1].start == start then [s[|s| - 1]] else []
  }

  /** `Sorted` is the stable descending sort: ordered, a permutation, and equal starts keep their order. */
  lemma {:induction false} SortedIsStable(s: seq<Replacement>, start: nat)
    ensures Descending(Sorted(s)) && multiset(Sorted(s)) == multiset(s)
    ensures StartingAt(Sorted(s), start) == StartingAt(s, start)
  {
    SortedDescends(s);
    SortedPermutes(s);
    SortedKeepsTies(s, start);
  }

  lemma {:induction false} SortedDescends(s: seq<Replacement>)
    ensures Descending(Sorted(s))
  {
    if s != [] {
      SortedDescends(s[..|s| - 1]);
      InsertedDescends(Sorted(s[..|s| - 1]), s[|s| - 1]);
    }
  }

  lemma {:induction false} SortedPermutes(s: seq<Replacement>)
    ensures multiset(Sorted(s)) == multiset(s)
  {
    if s != [] {
      var init, last := s[..|s| - 1], s[|s| - 1];
      SortedPermutes(init);
      InsertedPermutes(Sorted(init), last);
      assert s == init + [last];
    }
  }

  lemma {:induction false} SortedKeepsTies(s: seq<Replacement>, start: nat)
    ensures StartingAt(Sorted(s), start) == StartingAt(s, start)
  {
    if s != [] {
      SortedKeepsTies(s[..|s| - 1], start);
      SortedDescends(s[..|s| - 1]);
      InsertedKeepsTies(Sorted(s[..|s| - 1]), s[|s| - 1], start);
    }
  }

  lemma {:induction false} InsertedDescends(s: seq<Replacement>, x: Replacement)
    requires Descending(s)
    ensures Descending(Inserted(s, x))
  {
    if s != [] && s[0].start >= x.start {
      InsertedDescends(s[1..], x);
      InsertedBelow(s[1..], x, s[0].start);
    }
  }

  lemma {:induction false} InsertedPermutes(s: seq<Replacement>, x: Replacement)
    ensures multiset(Inserted(s, x)) == multiset(s) + multiset{x}
  {
    if s != [] {
      assert s == [s[0]] + s[1..];
      if s[0].start >= x.start { InsertedPermutes(s[1..], x); }
    }
  }

  lemma {:induction false} InsertedKeepsTies(s: seq<Replacement>, x: Replacement, start: nat)
    requires Descending(s)
    ensures StartingAt(Inserted(s, x), start) == StartingAt(s, start) + if x.start == start then [x] else []
  {
    if s == [] {
      assert [x][..0] == [];
    } else if s[0].start < x.start {
      assert ([x] + s)[1..] == s;
      StartingAtHead([x] + s, start);
      if x.start == start { NoneStartingAbove(s, start); }
    } else {
      var rest := Inserted(s[1..], x);
      InsertedKeepsTies(s[1..], x, start);
      StartingAtHead(s, start);
      assert ([s[0]] + rest)[1..] == rest;
      StartingAtHead([s[0]] + rest, start);
    }
  }

  lemma {:induction false} StartingAtHead(s: seq<Replacement>, start: nat)
    requires s != []
    ensures StartingAt(s, start) == (if s[0].start == start then [s[0]] else []) + StartingAt(s[1..], start)
  {
    if |s| > 1 {
      StartingAtHead(s[..|s| - 1], start);
      assert s[..|s| - 1][1..] == s[1..][..|s| - 2];
    } else {
      assert s[..0] == [] && s[1..] == [];
    }
  }

  lemma {:induction false} NoneStartingAbove(s: seq<Replacement>, start: nat)
    requires forall i | 0 <= i < |s| :: s[i].start < start
    ensures StartingAt(s, start) == []
  {
    if s != [] { NoneStartingAbove(s[..|s| - 1], start); }
  }

  lemma {:induction false} InsertedBelow(s: seq<Replacement>, x: Replacement, top: nat)
    requires x.start <= top && forall i | 0 <= i < |s| :: s[i].start <= top
    ensures forall i | 0 <= i < |Inserted(s, x)| :: Inserted(s, x)[i].start <= top
  {
    if s != [] && s[0].start >= x.start {
      InsertedBelow(s[1..], x, top);
    }
  }

  /** On a list already descending the sort does nothing. */
  lemma {:induction false} SortedUnchanged(s: seq<Replacement>)
    requires Descending(s)
    ensures Sorted(s) == s
  {
    if s != [] {
      var init, last := s[..|s| - 1], s[|s| - 1];
      SortedUnchanged(init);
      InsertedLast(init, last);
      assert s == init + [last];
    }
  }

  lemma {:induction false} InsertedLast(s: seq<Replacement>, x: Replacement)
    requires forall i | 0 <= i < |s| :: x.start <= s[i].start
    ensures Inserted(s, x) == s + [x]
  {
    if s != [] {
      InsertedLast(s[1..], x);
      assert [s[0]] + (s[1..] + [x]) == s + [x];
    }
  }

  // ---- Replaying ----

  function Replace(t: Text, x: Replacement): Replay {
    if x.start > x.end || x.end > |Utf8(t)| then Err(InvalidRange)
    else if !IsCharBoundary(Utf8(t), x.start) || !IsCharBoundary(Utf8(t), x.end) then Err(CutsCharacter)
    else
      BoundaryIsPlace(t, x.start);
      BoundaryIsPlace(t, x.end);
      CoordinatesAgree(t, ScalarIndex(t, x.end), ScalarIndex(t, x.start));
      Ok(Splice(t, ScalarIndex(t, x.start), ScalarIndex(t, x.end), x.text))
  }

  /** In bytes: a range that is turned round or reaches past the end is invalid, one that does not lie on
      boundaries cuts a character, and any other is replaced by the new bytes and leaves the rest. */
  lemma {:induction false} ReplaceExactly(t: Text, x: Replacement)
    ensures Replace(t, x) == Err(InvalidRange) <==> x.start > x.end || x.end > |Utf8(t)|
    ensures Replace(t, x) == Err(CutsCharacter) <==>
            x.start <= x.end <= |Utf8(t)| && !(OnBoundary(t, x.start) && OnBoundary(t, x.end))
    ensures Replace(t, x).Ok? ==>
              Utf8(Replace(t, x).value) == Utf8(t)[..x.start] + Utf8(x.text) + Utf8(t)[x.end..]
  {
    BoundaryIsPlace(t, x.start);
    BoundaryIsPlace(t, x.end);
    if Replace(t, x).Ok? {
      CoordinatesAgree(t, ScalarIndex(t, x.end), ScalarIndex(t, x.start));
      SpliceBytes(t, ScalarIndex(t, x.start), ScalarIndex(t, x.end), x.text);
    }
  }

  function ReplaceAll(t: Text, s: seq<Replacement>): Replay {
    if s == [] then Ok(t)
    else
      var u :- ReplaceAll(t, s[..|s| - 1]);
      Replace(u, s[|s| - 1])
  }

  function ApplyEdit(t: Text, op: Operation): Replay {
    match op
    case EditOperation(_, _, _, ranges, newText) => ReplaceAll(t, Sorted(Paired(ranges, newText)))
    case OtherOperation => Ok(t)
  }

  function ApplyAll(t: Text, operations: seq<Operation>): Replay {
    if operations == [] then Ok(t)
    else
      var u :- ApplyAll(t, operations[..|operations| - 1]);
      ApplyEdit(u, operations[|operations| - 1])
  }

  /** Replace one range in place, through its byte indices. */
  method ReplaceInPlace(content: StringBuffer, x: Replacement) returns (r: Result<(), ReplayError>)
    modifies content
    ensures var u := Replace(old(content.text), x);
            if u.Ok? then r == Ok(()) && content.text == u.value
              else r == Err(u.error) && content.text == old(content.text)
  {
    var bytes := Utf8(content.text);
    if x.start > x.end || x.end > |bytes| {
      return Err(InvalidRange);
    }
    if !IsCharBoundary(bytes, x.start) || !IsCharBoundary(bytes, x.end) {
      return Err(CutsCharacter);
    }
    BoundaryIsPlace(content.text, x.start);
    BoundaryIsPlace(content.text, x.end);
    content.ReplaceRange(x.start, x.end, x.text);
    return Ok(());
  }

  method ApplyOperations(base: Text, operations: seq<Operation>) returns (r: Replay)
    ensures r == ApplyAll(base, operations)
  {
    var content := new StringBuffer(base);
    for n := 0 to |operations|
      invariant ApplyAll(base, operations[..n]) == Ok(content.text)
      invariant fresh(content)
    {
      OneMoreOperation(base, operations, n);
      if operations[n].OtherOperation? {
        continue;
      }
      var replaced := ReplaceInOrder(content, Sorted(Paired(operations[n].ranges, operations[n].newText)));
      if replaced.Err? {
        ApplyAllFails(base, operations, n + 1);
        return Err(replaced.error);
      }
    }
    assert operations[..|operations|] == operations;
    return Ok(content.text);
  }

  lemma {:induction false} OneMoreOperation(t: Text, operations: seq<Operation>, n: nat)
    requires n < |operations| && ApplyAll(t, operations[..n]).Ok?
    ensures ApplyAll(t, operations[..n + 1]) == ApplyEdit(ApplyAll(t, operations[..n]).value, operations[n])
  {
    assert operations[..n + 1][..n] == operations[..n];
  }

  method ReplaceInOrder(content: StringBuffer, replacements: seq<Replacement>) returns (r: Result<(), ReplayError>)
    modifies content
    ensures var u := ReplaceAll(old(content.text), replacements);
            if u.Ok? then r == Ok(()) && content.text == u.value else r == Err(u.error)
  {
    ghost var t := content.text;
    for i := 0 to |replacements|
      invariant ReplaceAll(t, replacements[..i]) == Ok(content.text)
    {
      OneMoreReplacement(t, replacements, i);
      var replaced := ReplaceInPlace(content, replacements[i]);
      if replaced.Err? {
        ReplaceAllFails(t, replacements, i + 1);
        return Err(replaced.error);
      }
    }
    assert replacements[..|replacements|] == replacements;
    return Ok(());
  }

  lemma {:induction false} OneMoreReplacement(t: Text, s: seq<Replacement>, i: nat)
    requires i < |s| && ReplaceAll(t, s[..i]).Ok?
    ensures ReplaceAll(t, s[..i + 1]) == Replace(ReplaceAll(t, s[..i]).value, s[i])
  {
    assert s[..i + 1][..i] == s[..i];
  }

  lemma {:induction false} ReplaceAllFails(t: Text, s: seq<Replacement>, n: nat)
    requires n <= |s| && ReplaceAll(t, s[..n]).Err?
    ensures ReplaceAll(t, s) == ReplaceAll(t, s[..n])
    decreases |s| - n
  {
    if n < |s| {
      assert s[..n + 1][..n] == s[..n];
      ReplaceAllFails(t, s, n + 1);
    } else {
      assert s[..n] == s;
    }
  }

  lemma {:induction false} ApplyAllFails(t: Text, operations: seq<Operation>, n: nat)
    requires n <= |operations| && ApplyAll(t, operations[..n]).Err?
    ensures ApplyAll(t, operations) == ApplyAll(t, operations[..n])
    decreases |operations| - n
  {
    if n < |operations| {
      assert operations[..n + 1][..n] == operations[..n];
      ApplyAllFails(t, operations, n + 1);
    } else {
      assert operations[..n] == operations;
    }
  }

  // ---- Compiling, then replaying ----

  predicate AllDescend(batches: seq<Batch>) {
    forall k | 0 <= k < |batches| :: OffsetsDescend(batches[k].changes)
  }

  /** One range, compiled and replayed in the text it was compiled in. */
  lemma {:induction false} ReplaceCompiled(u: Text, c: Change)
    requires CompileChange(u, c).Ok?
    ensures var (range, after) := CompileChange(u, c).value;
            Replace(u, Replacement(range.start, range.end, c.text)) == Ok(after)
  {
    var i, j := CompiledPlaces(u, c);
    ReplaceAtPlaces(u, i, j, c.text);
  }

  lemma {:induction false} CompiledPlaces(u: Text, c: Change) returns (i: nat, j: nat)
    requires CompileChange(u, c).Ok?
    ensures i <= j <= |u| && Bytes(u, i) <= Bytes(u, j)
    ensures CompileChange(u, c) == Ok((Range(Bytes(u, i), Bytes(u, j)), Splice(u, i, j, c.text)))
  {
    i, j := OffsetPlace(u, c.offset).value, OffsetPlace(u, c.offset + c.length).value;
    CoordinatesAgree(u, j, i);
    BytesMonotone(u, i, j);
  }

  lemma {:induction false} ReplaceAtPlaces(u: Text, i: nat, j: nat, ins: Text)
    requires i <= j <= |u|
    ensures Replace(u, Replacement(Bytes(u, i), Bytes(u, j), ins)) == Ok(Splice(u, i, j, ins))
  {
    UnitsMonotone(u, i, j);
    RangeOfPlaces(u, i, j);
    BoundaryIsPlace(u, Bytes(u, i));
    BoundaryIsPlace(u, Bytes(u, j));
  }

  /** Unsorted, the compiled ranges replay the list exactly: every range lies on character boundaries of
      the running text. */
  lemma {:induction false} ReplayInOrder(t: Text, changes: seq<Change>)
    requires CompileChanges(t, changes).Ok?
    ensures var (ranges, after) := CompileChanges(t, changes).value;
            |ranges| == |changes| && ReplaceAll(t, Paired(ranges, NewTexts(changes))) == Ok(after)
  {
    if changes != [] {
      var init, last := changes[..|changes| - 1], changes[|changes| - 1];
      assert changes == init + [last];
      ReplayInOrder(t, init);
      ReplayOneMore(t, init, last);
    }
  }

  lemma {:induction false} ReplayOneMore(t: Text, init: seq<Change>, last: Change)
    requires CompileChanges(t, init + [last]).Ok? && CompileChanges(t, init).Ok?
    requires var (ranges, u) := CompileChanges(t, init).value;
             |ranges| == |init| && ReplaceAll(t, Paired(ranges, NewTexts(init))) == Ok(u)
    ensures var (ranges, after) := CompileChanges(t, init + [last]).value;
            |ranges| == |init + [last]| && ReplaceAll(t, Paired(ranges, NewTexts(init + [last]))) == Ok(after)
  {
    CompiledOneMore(t, init, last);
    var (ranges, u) := CompileChanges(t, init).value;
    var (range, after) := CompileChange(u, last).value;
    ReplaceCompiled(u, last);
    PairedPush(ranges, range, init, last);
    ReplaceOneMore(t, Paired(ranges, NewTexts(init)), Replacement(range.start, range.end, last.text));
  }

  lemma {:induction false} CompiledOneMore(t: Text, init: seq<Change>, last: Change)
    requires CompileChanges(t, init + [last]).Ok?
    ensures CompileChanges(t, init).Ok?
    ensures var (ranges, u) := CompileChanges(t, init).value;
            && CompileChange(u, last).Ok?
            && CompileChanges(t, init + [last]) ==
               Ok((ranges + [CompileChange(u, last).value.0], CompileChange(u, last).value.1))
  {
    assert (init + [last])[..|init|] == init;
  }

  lemma {:induction false} ReplaceOneMore(t: Text, s: seq<Replacement>, x: Replacement)
    requires ReplaceAll(t, s).Ok?
    ensures ReplaceAll(t, s + [x]) == Replace(ReplaceAll(t, s).value, x)
  {
    assert (s + [x])[..|s|] == s;
  }

  lemma {:induction false} PairedPush(ranges: seq<Range>, range: Range, changes: seq<Change>, c: Change)
    requires |ranges| == |changes|
    ensures var s, x := Paired(ranges, NewTexts(changes)), Replacement(range.start, range.end, c.text);
            Paired(ranges + [range], NewTexts(changes + [c])) == s + [x]
  {}

  /** Descending offsets compile to descending byte ranges, though each is read in another text. */
  lemma {:induction false} RangesDescend(t: Text, changes: seq<Change>)
    requires CompileChanges(t, changes).Ok? && OffsetsDescend(changes)
    ensures var ranges := CompileChanges(t, changes).value.0;
            |ranges| == |changes| && forall a, b | 0 <= a < b < |ranges| :: ranges[b].start <= ranges[a].start
    ensures changes != [] ==>
              var (ranges, u) := CompileChanges(t, changes).value;
              var c := changes[|changes| - 1];
              OffsetPlace(u, c.offset).Ok? && Bytes(u, OffsetPlace(u, c.offset).value) == ranges[|ranges| - 1].start
  {
    if changes != [] {
      var init, last := changes[..|changes| - 1], changes[|changes| - 1];
      RangesDescend(t, init);
      var u := CompileChanges(t, init).value.1;
      StartStays(u, last);
      if init != [] {
        StartBelow(u, init[|init| - 1].offset, last);
      }
    }
  }

  /** The start of a change is still where it was after the change. */
  lemma {:induction false} StartStays(u: Text, c: Change)
    requires CompileChange(u, c).Ok?
    ensures var (range, after) := CompileChange(u, c).value;
            OffsetPlace(after, c.offset).Ok? && Bytes(after, OffsetPlace(after, c.offset).value) == range.start
  {
    var i := OffsetPlace(u, c.offset).value;
    var after := CompileChange(u, c).value.1;
    assert u[..i] == after[..i];
    SamePrefix(u, after, i);
    OffsetPlaceAt(after, i);
  }

  lemma {:induction false} StartBelow(u: Text, offset: nat, c: Change)
    requires CompileChange(u, c).Ok? && OffsetPlace(u, offset).Ok? && c.offset <= offset
    ensures CompileChange(u, c).value.0.start <= Bytes(u, OffsetPlace(u, offset).value)
  {
    CoordinatesAgree(u, OffsetPlace(u, offset).value, OffsetPlace(u, c.offset).value);
  }

  lemma {:induction false} ReplayBatch(done: Compiled, b: Batch)
    requires CompileBatch(done, b).Ok? && OffsetsDescend(b.changes) && b.changes != []
    ensures var c := CompileBatch(done, b).value;
            ApplyEdit(done.text, c.operations[|c.operations| - 1]) == Ok(c.text)
  {
    var (ranges, after) := CompileChanges(done.text, b.changes).value;
    RangesDescend(done.text, b.changes);
    ReplayInOrder(done.text, b.changes);
    SortedUnchanged(Paired(ranges, NewTexts(b.changes)));
  }

  /** Compile and replay: a peer that applies the operations arrives at the text the client computed. */
  lemma {:induction false} CompileThenReplay(base: Text, v: Clock, batches: seq<Batch>)
    requires Compile(base, v, batches).Ok? && AllDescend(batches)
    ensures ApplyAll(base, Compile(base, v, batches).value.operations) == Ok(Compile(base, v, batches).value.text)
  {
    if batches != [] {
      var init, last := batches[..|batches| - 1], batches[|batches| - 1];
      CompileThenReplay(base, v, init);
      var done, c := Compile(base, v, init).value, Compile(base, v, batches).value;
      if last.changes != [] {
        assert OffsetsDescend(batches[|batches| - 1].changes);
        ReplayBatch(done, last);
        assert c.operations[..|c.operations| - 1] == done.operations;
      }
    }
  }

  /** Without the order the sort rearranges the ranges and the replay arrives elsewhere: in a text of
      two ASCII characters, one batch inserts `x` at the start, then `y` two units on. */
  lemma {:induction false} AscendingRangesDiverge(t: Text, v: Clock, b: Batch, x: Scalar, y: Scalar)
    requires IsAscii(t) && |t| == 2 && x < 0x80 && y < 0x80 && y != t[1]
    requires b.number > 0 && |b.changes| == 2 && Inserts(b.changes[0], 0, [x]) && Inserts(b.changes[1], 2, [y])
    ensures Compile(t, v, [b]).Ok?
    ensures var c := Compile(t, v, [b]).value;
            ApplyAll(t, c.operations) == Ok([x, t[0], t[1], y]) && c.text == [x, t[0], y, t[1]]
              && c.text != [x, t[0], t[1], y]
  {
    var u := [x, t[0], t[1]];
    CompileInsertion(t, b.changes[0], 0, [x]);
    CompileInsertion(u, b.changes[1], 2, [y]);
    assert Splice(t, 0, 0, [x]) == u && Splice(u, 2, 2, [y]) == [x, t[0], y, t[1]];
    CompilePair(t, v, b);
    var op := Compile(t, v, [b]).value.operations[0];
    var first, second := Replacement(0, 0, [x]), Replacement(2, 2, [y]);
    assert Paired(op.ranges, op.newText) == [first, second];
    SortedPair(first, second);
    AscendingReplay(t, x, y);
    assert ApplyAll(t, []) == Ok(t) && [op][..0] == [];
  }

  lemma {:induction false} AscendingReplay(t: Text, x: Scalar, y: Scalar)
    requires IsAscii(t) && |t| == 2 && x < 0x80 && y < 0x80
    ensures ReplaceAll(t, [Replacement(2, 2, [y]), Replacement(0, 0, [x])]) == Ok([x, t[0], t[1], y])
  {
    var first, second, w := Replacement(0, 0, [x]), Replacement(2, 2, [y]), [t[0], t[1], y];
    assert Replace(t, second) == Ok(w) by { ReplaceAscii(t, second); assert Splice(t, 2, 2, [y]) == w; }
    assert Replace(w, first) == Ok([x, t[0], t[1], y])
      by { ReplaceAscii(w, first); assert Splice(w, 0, 0, [x]) == [x, t[0], t[1], y]; }
    TwoReplacements(t, second, first);
  }

  predicate Inserts(c: Change, offset: nat, ins: Text) {
    c.offset == offset && c.length == 0 && c.text == ins
  }

  lemma {:induction false} CompileInsertion(u: Text, c: Change, k: nat, ins: Text)
    requires IsAscii(u) && k <= |u| && k <= USIZE_MAX && Inserts(c, k, ins)
    ensures CompileChange(u, c) == Ok((Range(k, k), Splice(u, k, k, ins)))
  {
    AsciiBytes(u, k);
    OffsetPlaceAt(u, k);
  }

  /** One batch of two changes compiles to one operation of two ranges. */
  lemma {:induction false} CompilePair(t: Text, v: Clock, b: Batch)
    requires b.number > 0 && |b.changes| == 2
    requires CompileChange(t, b.changes[0]).Ok?
    requires CompileChange(CompileChange(t, b.changes[0]).value.1, b.changes[1]).Ok?
    ensures Compile(t, v, [b]).Ok?
    ensures var c, first := Compile(t, v, [b]).value, CompileChange(t, b.changes[0]).value;
            var second := CompileChange(first.1, b.changes[1]).value;
            && |c.operations| == 1 && c.operations[0].EditOperation? && c.text == second.1
            && c.operations[0].ranges == [first.0, second.0]
            && c.operations[0].newText == [b.changes[0].text, b.changes[1].text]
  {
    var init := b.changes[..1];
    assert init[..0] == [] && b.changes[..|b.changes| - 1] == init;
    assert CompileChanges(t, []) == Ok(([], t));
    assert CompileChanges(t, init).value.0 == [CompileChange(t, b.changes[0]).value.0];
    assert [b][..0] == [] && Compile(t, v, []) == Ok(Compiled([], t, v));
  }

  lemma {:induction false} SortedPair(a: Replacement, b: Replacement)
    requires a.start < b.start
    ensures Sorted([a, b]) == [b, a]
  {
    assert [a, b][..1] == [a] && [a][..0] == [];
    assert Sorted([]) == [];
  }

  predicate IsAscii(t: Text) { forall i | 0 <= i < |t| :: t[i] < 0x80 }

  lemma {:induction false} AsciiBytes(t: Text, k: nat)
    requires IsAscii(t) && k <= |t|
    ensures Bytes(t, k) == k && Units(t, k) == k
  {
    if k > 0 { AsciiBytes(t, k - 1); }
  }

  lemma {:induction false} Ascii(t: Text)
    requires IsAscii(t)
    ensures |Utf8(t)| == |t|
  {
    Utf8Length(t);
    AsciiBytes(t, |t|);
  }

  lemma {:induction false} ReplaceAscii(t: Text, x: Replacement)
    requires IsAscii(t) && x.start <= x.end <= |t|
    ensures Replace(t, x) == Ok(Splice(t, x.start, x.end, x.text))
  {
    Ascii(t);
    AsciiBytes(t, x.start);
    AsciiBytes(t, x.end);
    BoundaryIsPlace(t, x.start);
    BoundaryIsPlace(t, x.end);
    AsciiBytes(t, ScalarIndex(t, x.start));
    AsciiBytes(t, ScalarIndex(t, x.end));
  }

  lemma {:induction false} TwoReplacements(t: Text, x: Replacement, y: Replacement)
    requires Replace(t, x).Ok?
    ensures ReplaceAll(t, [x, y]) == Replace(Replace(t, x).value, y)
  {
    assert [x, y][..1] == [x] && [x][..0] == [];
    assert ReplaceAll(t, []) == Ok(t);
  }

  // ---- The two appliers ----

  /** Positions and offsets of `c` name the same places of `u`. */
  ghost predicate RangeMatches(u: Text, c: Change) {
    PositionPlace(u, c.start) == OffsetPlace(u, c.offset)
      && PositionPlace(u, c.end) == OffsetPlace(u, c.offset + c.length)
  }

  /** Every range matches in the text it meets. */
  ghost predicate ChangesMatch(t: Text, changes: seq<Change>) {
    changes == [] ||
    var init := changes[..|changes| - 1];
    ChangesMatch(t, init) && (CompileChanges(t, init).Ok? ==>
      RangeMatches(CompileChanges(t, init).value.1, changes[|changes| - 1]))
  }

  ghost predicate BatchesMatch(t: Text, v: Clock, batches: seq<Batch>) {
    batches == [] ||
    var init := batches[..|batches| - 1];
    BatchesMatch(t, v, init) && (Compile(t, v, init).Ok? ==>
      ChangesMatch(Compile(t, v, init).value.text, batches[|batches| - 1].changes))
  }

  lemma {:induction false} OneChangeAgrees(u: Text, c: Change)
    ensures ApplyChange(u, c).Ok? <==> CompileChange(u, c).Ok? && RangeMatches(u, c)
    ensures ApplyChange(u, c).Ok? ==> ApplyChange(u, c).value == CompileChange(u, c).value.1
  {}

  lemma {:induction false} ChangesAgree(t: Text, changes: seq<Change>)
    ensures ApplyChanges(t, changes).Ok? <==> CompileChanges(t, changes).Ok? && ChangesMatch(t, changes)
    ensures ApplyChanges(t, changes).Ok? ==> ApplyChanges(t, changes).value == CompileChanges(t, changes).value.1
  {
    if changes != [] {
      var init, last := changes[..|changes| - 1], changes[|changes| - 1];
      ChangesAgree(t, init);
      if CompileChanges(t, init).Ok? {
        OneChangeAgrees(CompileChanges(t, init).value.1, last);
      }
    }
  }

  /** The cross-checking applier accepts exactly what the compiler accepts with matching ranges, and both
      arrive at one text. */
  lemma {:induction false} AppliersAgree(t: Text, v: Clock, batches: seq<Batch>)
    ensures ApplyBatches(t, batches).Ok? <==> Compile(t, v, batches).Ok? && BatchesMatch(t, v, batches)
    ensures ApplyBatches(t, batches).Ok? ==> ApplyBatches(t, batches).value == Compile(t, v, batches).value.text
  {
    if batches != [] {
      var init, last := batches[..|batches| - 1], batches[|batches| - 1];
      AppliersAgree(t, v, init);
      if Compile(t, v, init).Ok? {
        ChangesAgree(Compile(t, v, init).value.text, last.changes);
      }
    }
  }

  /** They also fail alike: a change that does not compile is refused by the cross-checking applier for the very
      same reason. */
  lemma {:induction false} OneChangeFailsAlike(u: Text, c: Change)
    ensures CompileChange(u, c).Err? ==> ApplyChange(u, c) == Err(CompileChange(u, c).error)
  {
    if CompileChange(u, c).Err? { FirstFailure(u, c); }
  }

  lemma {:induction false} ChangesFailAlike(t: Text, changes: seq<Change>)
    requires ChangesMatch(t, changes) && CompileChanges(t, changes).Err?
    ensures ApplyChanges(t, changes) == Err(CompileChanges(t, changes).error)
  {
    var init, last := changes[..|changes| - 1], changes[|changes| - 1];
    ChangesAgree(t, init);
    if CompileChanges(t, init).Ok? {
      OneChangeFailsAlike(CompileChanges(t, init).value.1, last);
    } else {
      ChangesFailAlike(t, init);
    }
  }

  /** For whole saves whose ranges match: one outcome, text or error. */
  lemma {:induction false} AppliersFailAlike(t: Text, v: Clock, batches: seq<Batch>)
    requires BatchesMatch(t, v, batches) && Compile(t, v, batches).Err?
    ensures ApplyBatches(t, batches) == Err(Compile(t, v, batches).error)
  {
    var init, last := batches[..|batches| - 1], batches[|batches| - 1];
    AppliersAgree(t, v, init);
    if Compile(t, v, init).Ok? {
      if last.number > LastNumber(init) { ChangesFailAlike(Compile(t, v, init).value.text, last.changes); }
    } else {
      AppliersFailAlike(t, v, init);
    }
  }
}
