/** Compiling change batches into the proxy's vector-clocked operations, and replaying such operations. */
module ProxyOps {
  import opened Unicode
  import opened Edits
  import opened TextEdits

  // ---- Vector clocks ----

  /** The replica this client writes as. */
  const REPLICA: nat := 1

  function Timestamp(v: Clock, replica: nat): nat {
    if v == [] then 0 else if v[0].replicaId == replica then v[0].timestamp else Timestamp(v[1..], replica)
  }

  function Incremented(v: Clock, replica: nat): Clock {
    if v == [] then [ClockEntry(replica, 1)]
    else if v[0].replicaId == replica then [ClockEntry(replica, v[0].timestamp + 1)] + v[1..]
    else [v[0]] + Incremented(v[1..], replica)
  }

  /** Incrementing moves one replica's timestamp by one and no other. */
  lemma {:induction false} IncrementedTimestamp(v: Clock, replica: nat, q: nat)
    ensures Timestamp(Incremented(v, replica), q) == Timestamp(v, q) + if q == replica then 1 else 0
  {
    if v != [] && v[0].replicaId != replica {
      IncrementedTimestamp(v[1..], replica, q);
      assert Incremented(v, replica)[1..] == Incremented(v[1..], replica);
    } else if v != [] {
      assert Incremented(v, replica)[1..] == v[1..];
    }
  }

  /** Incrementing touches the first entry of the replica, or adds one. */
  lemma {:induction false} IncrementedAt(v: Clock, replica: nat, i: nat)
    requires i <= |v| && (forall k | 0 <= k < i :: v[k].replicaId != replica)
    requires i < |v| ==> v[i].replicaId == replica
    ensures Incremented(v, replica) ==
            if i < |v| then v[i := ClockEntry(replica, v[i].timestamp + 1)] else v + [ClockEntry(replica, 1)]
  {
    if v != [] && i > 0 {
      IncrementedAt(v[1..], replica, i - 1);
    }
  }

  method IncrementVersion(current: Clock, replica: nat) returns (version: Clock)
    ensures version == Incremented(current, replica)
  {
    version := current;
    var i := 0;
    while i < |version| && version[i].replicaId != replica
      invariant 0 <= i <= |version| && version == current
      invariant forall k | 0 <= k < i :: current[k].replicaId != replica
    {
      i := i + 1;
    }
    IncrementedAt(current, replica, i);
    if i < |version| {
      version := version[i := ClockEntry(replica, version[i].timestamp + 1)];
    } else {
      version := version + [ClockEntry(replica, 1)];
    }
  }

  // ---- Operations ----

  datatype Compiled = Compiled(operations: seq<Operation>, text: Text, version: Clock)

  /** Byte ranges of a change list, each read in the text the earlier changes left, and the final text. */
  ghost function CompileChanges(t: Text, changes: seq<Change>): Edit<(seq<Range>, Text)> {
    if changes == [] then Ok(([], t))
    else
      var done :- CompileChanges(t, changes[..|changes| - 1]);
      var last :- CompileChange(done.1, changes[|changes| - 1]);
      Ok((done.0 + [last.0], last.1))
  }

  ghost function CompileChange(u: Text, c: Change): Edit<(Range, Text)> {
    var i :- OffsetPlace(u, c.offset);
    if c.offset + c.length > USIZE_MAX then Err(LengthOverflow)
    else
      var j :- OffsetPlace(u, c.offset + c.length);
      CoordinatesAgree(u, j, i);
      Ok((Range(Bytes(u, i), Bytes(u, j)), Splice(u, i, j, c.text)))
  }

  function NewTexts(changes: seq<Change>): seq<Text> {
    seq(|changes|, i requires 0 <= i < |changes| => changes[i].text)
  }

  /** One operation per batch that changes anything. */
  ghost function Compile(base: Text, version: Clock, batches: seq<Batch>): Edit<Compiled> {
    if batches == [] then Ok(Compiled([], base, version))
    else
      var init, last := batches[..|batches| - 1], batches[|batches| - 1];
      var done :- Compile(base, version, init);
      if last.number <= LastNumber(init) then Err(SeqNotIncreasing(last.number, LastNumber(init)))
      else CompileBatch(done, last)
  }

  ghost function CompileBatch(done: Compiled, b: Batch): Edit<Compiled> {
    if b.changes == [] then Ok(done)
    else
      var edit :- CompileChanges(done.text, b.changes);
      var next := Incremented(done.version, REPLICA);
      var op := EditOperation(REPLICA, Timestamp(next, REPLICA), done.version, edit.0, NewTexts(b.changes));
      Ok(Compiled(done.operations + [op], edit.1, next))
  }

  /** The clock after a peer has applied edits, one increment each. */
  function Advanced(version: Clock, operations: seq<Operation>): Clock {
    if operations == [] then version
    else
      var v, op := Advanced(version, operations[..|operations| - 1]), operations[|operations| - 1];
      if op.EditOperation? then Incremented(v, op.replicaId) else v
  }

  // ---- Compilation as the client does it ----

  method OperationsFromBatches(base: Text, baseVersion: Clock, batches: seq<Batch>) returns (r: Edit<Compiled>)
    ensures r == Compile(base, baseVersion, batches)
  {
    var content := new StringBuffer(base);
    var version := baseVersion;
    var operations := [];
    var previous := 0;
    for b := 0 to |batches|
      invariant Compile(base, baseVersion, batches[..b]) == Ok(Compiled(operations, content.text, version))
      invariant previous == LastNumber(batches[..b])
      invariant fresh(content)
    {
      BatchPrefix(base, batches, b);
      var batch := batches[b];
      if batch.number <= previous {
        CompileFails(base, baseVersion, batches, b + 1);
        return Err(SeqNotIncreasing(batch.number, previous));
      }
      previous := batch.number;
      if batch.changes == [] {
        continue;
      }
      ghost var done := Compiled(operations, content.text, version);
      var nextVersion := IncrementVersion(version, REPLICA);
      var lamport := Timestamp(nextVersion, REPLICA);
      var edit := CompileInPlace(content, batch.changes);
      assert Compile(base, baseVersion, batches[..b + 1]) == CompileBatch(done, batch);
      if edit.Err? {
        CompileFails(base, baseVersion, batches, b + 1);
        return Err(edit.error);
      }
      operations := operations + [EditOperation(REPLICA, lamport, version, edit.value.0, edit.value.1)];
      version := nextVersion;
      assert CompileBatch(done, batch) == Ok(Compiled(operations, content.text, version));
    }
    assert batches[..|batches|] == batches;
    return Ok(Compiled(operations, content.text, version));
  }

  /** Splice every change into the text, remembering its byte range. */
  method CompileInPlace(content: StringBuffer, changes: seq<Change>) returns (r: Edit<(seq<Range>, seq<Text>)>)
    modifies content
    ensures var c := CompileChanges(old(content.text), changes);
            if c.Ok? then r == Ok((c.value.0, NewTexts(changes))) && content.text == c.value.1 else r == Err(c.error)
  {
    var ranges, newText := [], [];
    ghost var t := content.text;
    for n := 0 to |changes|
      invariant CompileChanges(t, changes[..n]) == Ok((ranges, content.text))
      invariant newText == NewTexts(changes[..n])
    {
      OneMoreCompiled(t, changes, n);
      var range := SpliceOffsets(content, changes[n]);
      if range.Err? {
        CompileChangesFails(t, changes, n + 1);
        return Err(range.error);
      }
      ranges := ranges + [range.value];
      newText := newText + [changes[n].text];
    }
    assert changes[..|changes|] == changes;
    return Ok((ranges, newText));
  }

  lemma {:induction false} OneMoreCompiled(t: Text, changes: seq<Change>, n: nat)
    requires n < |changes| && CompileChanges(t, changes[..n]).Ok?
    ensures var (ranges, u) := CompileChanges(t, changes[..n]).value;
            var last := CompileChange(u, changes[n]);
            CompileChanges(t, changes[..n + 1]) ==
            if last.Ok? then Ok((ranges + [last.value.0], last.value.1)) else Err(last.error)
    ensures NewTexts(changes[..n + 1]) == NewTexts(changes[..n]) + [changes[n].text]
  {
    assert changes[..n + 1][..n] == changes[..n];
  }

  /** Locate a change by its offsets alone and splice it in. */
  method SpliceOffsets(content: StringBuffer, change: Change) returns (r: Edit<Range>)
    modifies content
    ensures var c := CompileChange(old(content.text), change);
            if c.Ok? then r == Ok(c.value.0) && content.text == c.value.1 else r == Err(c.error)
  {
    ghost var u := content.text;
    var start :- Utf16OffsetToByteIndex(content.text, change.offset);
    if change.offset + change.length > USIZE_MAX {
      return Err(LengthOverflow);
    }
    var end :- Utf16OffsetToByteIndex(content.text, change.offset + change.length);
    ghost var i, j := OffsetPlace(u, change.offset).value, OffsetPlace(u, change.offset + change.length).value;
    RangeOfPlaces(u, i, j);
    assert CompileChange(u, change) == Ok((Range(start, end), Splice(u, i, j, change.text)));
    content.ReplaceRange(start, end, change.text);
    return Ok(Range(start, end));
  }

  /** The byte range of two places, and the places read back from it. */
  lemma {:induction false} RangeOfPlaces(u: Text, i: nat, j: nat)
    requires i <= |u| && j <= |u| && Units(u, i) <= Units(u, j)
    ensures i <= j && Bytes(u, i) <= Bytes(u, j)
    ensures OnBoundary(u, Bytes(u, i)) && ScalarIndex(u, Bytes(u, i)) == i
    ensures OnBoundary(u, Bytes(u, j)) && ScalarIndex(u, Bytes(u, j)) == j
  {
    CoordinatesAgree(u, j, i);
    CoordinatesAgree(u, i, ScalarIndex(u, Bytes(u, i)));
    CoordinatesAgree(u, j, ScalarIndex(u, Bytes(u, j)));
  }

  lemma {:induction false} CompileFails(base: Text, v: Clock, batches: seq<Batch>, n: nat)
    requires n <= |batches| && Compile(base, v, batches[..n]).Err?
    ensures Compile(base, v, batches) == Compile(base, v, batches[..n])
    decreases |batches| - n
  {
    if n < |batches| {
      BatchPrefix(base, batches, n);
      CompileFails(base, v, batches, n + 1);
    } else {
      assert batches[..n] == batches;
    }
  }

  lemma {:induction false} CompileChangesFails(t: Text, changes: seq<Change>, n: nat)
    requires n <= |changes| && CompileChanges(t, changes[..n]).Err?
    ensures CompileChanges(t, changes) == Err(CompileChanges(t, changes[..n]).error)
    decreases |changes| - n
  {
    if n < |changes| {
      assert changes[..n + 1][..n] == changes[..n];
      CompileChangesFails(t, changes, n + 1);
    } else {
      assert changes[..n] == changes;
    }
  }

  // ---- Timestamps ----

  predicate Changing(b: Batch) { b.changes != [] }

  function CountChanging(batches: seq<Batch>): nat {
    if batches == [] then 0
    else CountChanging(batches[..|batches| - 1]) + if Changing(batches[|batches| - 1]) then 1 else 0
  }

  /** `c` continues a history that started at clock `v`: operations numbered without gaps, each one
      past the clock it was made at; a peer that applies them arrives at the same clock; no other
      replica's time moved. */
  ghost predicate Continues(v: Clock, c: Compiled) {
    && c.version == Advanced(v, c.operations)
    && Timestamp(c.version, REPLICA) == Timestamp(v, REPLICA) + |c.operations|
    && (forall q | q != REPLICA :: Timestamp(c.version, q) == Timestamp(v, q))
    && forall k | 0 <= k < |c.operations| :: NumberedAfter(v, c.operations, k)
  }

  /** Operation `k` is this client's, carries the whole clock as it is after the operations before it, every
      replica's entry included, and the timestamp that comes next. */
  ghost predicate NumberedAfter(v: Clock, operations: seq<Operation>, k: nat)
    requires k < |operations|
  {
    var op := operations[k];
    && op.EditOperation? && op.replicaId == REPLICA && op.lamport == Timestamp(v, REPLICA) + k + 1
    && op.version == Advanced(v, operations[..k])
    && Timestamp(op.version, REPLICA) == Timestamp(v, REPLICA) + k
    && forall q | q != REPLICA :: Timestamp(op.version, q) == Timestamp(v, q)
  }

  /** One more operation, at the clock the others lead to. */
  lemma {:induction false} OneMoreOperation(v: Clock, operations: seq<Operation>, op: Operation, k: nat)
    requires k < |operations| && NumberedAfter(v, operations, k)
    ensures NumberedAfter(v, operations + [op], k)
  {
    assert (operations + [op])[..k] == operations[..k];
  }

  lemma {:induction false} BatchClock(v: Clock, done: Compiled, b: Batch)
    requires Continues(v, done) && CompileBatch(done, b).Ok?
    ensures Continues(v, CompileBatch(done, b).value)
  {
    var c := CompileBatch(done, b).value;
    if b.changes != [] {
      var last := c.operations[|done.operations|];
      assert c.operations[..|c.operations| - 1] == done.operations && c.operations == done.operations + [last];
      IncrementedTimestamp(done.version, REPLICA, REPLICA);
      forall k | 0 <= k < |done.operations|
        ensures NumberedAfter(v, c.operations, k)
      {
        OneMoreOperation(v, done.operations, last, k);
      }
      forall q | q != REPLICA
        ensures Timestamp(c.version, q) == Timestamp(v, q)
      {
        IncrementedTimestamp(done.version, REPLICA, q);
      }
    }
  }

  /** The clocks of a compiled save. One operation per batch that changes anything; a save without
      such a batch leaves text and clock alone. */
  lemma {:induction false} OperationClocks(base: Text, v: Clock, batches: seq<Batch>)
    requires Compile(base, v, batches).Ok?
    ensures var c := Compile(base, v, batches).value;
            && Continues(v, c) && |c.operations| == CountChanging(batches)
            && (c.operations == [] ==> c.text == base && c.version == v)
  {
    if batches != [] {
      var init, last := batches[..|batches| - 1], batches[|batches| - 1];
      OperationClocks(base, v, init);
      BatchClock(v, Compile(base, v, init).value, last);
    }
  }

  /** Batches that compile have rising numbers, so the last is the highest. */
  lemma {:induction false} CompiledNumbersRise(base: Text, v: Clock, batches: seq<Batch>)
    requires Compile(base, v, batches).Ok?
    ensures forall i, j | 0 <= i < j < |batches| :: batches[i].number < batches[j].number
    ensures forall i | 0 <= i < |batches| :: 0 < batches[i].number <= LastNumber(batches)
  {
    if batches != [] {
      var init := batches[..|batches| - 1];
      CompiledNumbersRise(base, v, init);
      assert forall i | 0 <= i < |init| :: init[i] == batches[i];
    }
  }
}
