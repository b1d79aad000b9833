/** Cutting text and files into pieces: chunks that never split a character, a prefix that fits a limit, and
    the bounded streaming of a remote file. */
module Chunking {
  import opened Unicode
  import opened Edits
  import opened WorkingCopies
  import opened PendingLog
  import opened StepEffects

  /** The longest prefix of whole scalars that fits `limit` bytes. */
  ghost predicate LongestFit(t: Text, k: nat, limit: nat) {
    k <= |t| && Bytes(t, k) <= limit && (k < |t| ==> limit < Bytes(t, k + 1))
  }

  /** Step back from `end` to the last boundary not after it. */
  method BoundaryBefore(t: Text, floor: nat, end: nat) returns (e: nat, ghost k: nat)
    requires end <= Bytes(t, |t|) && floor <= end && OnBoundary(t, floor)
    ensures floor <= e <= end && k <= |t| && e == Bytes(t, k) && end - e <= 3
    ensures LongestFit(t, k, end)
  {
    var bytes := Utf8(t);
    Utf8Length(t);
    e := end;
    k := |t|;
    if end < |bytes| { k := ScalarHolding(t, end); }
    assert k < |t| ==> Bytes(t, k + 1) <= Bytes(t, k) + 4;
    NothingBetween(t, floor, end, k);
    while e > floor && !IsCharBoundary(bytes, e)
      invariant Bytes(t, k) <= e <= end && floor <= Bytes(t, k)
      decreases e
    {
      if e == Bytes(t, k) { BoundaryIsPlace(t, e); }
      e := e - 1;
    }
    if e > floor {
      BoundaryIsPlace(t, e);
      OnlyPlace(t, k, e);
    }
  }

  lemma {:induction false} NothingBetween(t: Text, floor: nat, end: nat, k: nat)
    requires OnBoundary(t, floor) && floor <= end && k <= |t|
    requires k < |t| ==> end < Bytes(t, k + 1)
    requires k == |t| ==> floor <= Bytes(t, k)
    ensures floor <= Bytes(t, k)
  {
    if k < |t| {
      CoordinatesAgree(t, ScalarIndex(t, floor), k + 1);
      CoordinatesAgree(t, k, ScalarIndex(t, floor));
    }
  }

  lemma {:induction false} OnlyPlace(t: Text, k: nat, e: nat)
    requires OnBoundary(t, e) && k <= |t| && Bytes(t, k) <= e
    requires if k < |t| then e < Bytes(t, k + 1) else e == Bytes(t, k)
    ensures e == Bytes(t, k)
  {
    var m := ScalarIndex(t, e);
    if k < |t| { CoordinatesAgree(t, m, k + 1); }
    CoordinatesAgree(t, m, k);
  }

  /** Cut a text to a number of bytes: the longest prefix that fits, at most three bytes short. */
  method TruncateUtf8(content: Text, maxBytes: nat) returns (prefix: Text, truncated: bool)
    ensures truncated <==> |Utf8(content)| > maxBytes
    ensures !truncated ==> prefix == content
    ensures truncated ==> |prefix| < |content| && prefix == content[..|prefix|]
    ensures truncated ==> LongestFit(content, |prefix|, maxBytes) && maxBytes - 3 <= |Utf8(prefix)| <= maxBytes
  {
    Utf8Length(content);
    if |Utf8(content)| <= maxBytes {
      return content, false;
    }
    assert Bytes(content, 0) == 0;
    var end, k := BoundaryBefore(content, 0, maxBytes);
    CoordinatesAgree(content, k, ScalarIndex(content, end));
    Utf8Length(content[..k]);
    CutLengths(content, k);
    return content[..ScalarIndex(content, end)], true;
  }

  datatype Chunk = Chunk(offset: nat, bytes: seq<Byte>)

  /** Scalars `i` to `j` of `t`, as one chunk sent under the limit `limit`. */
  ghost predicate ChunkOf(t: Text, c: Chunk, i: nat, j: nat, limit: nat) {
    && i < j <= |t|
    && c.offset == Bytes(t, i) && c.bytes == Utf8(t[i..j])
    && (|c.bytes| <= limit || j == i + 1)
    && (j < |t| && limit >= 4 ==> limit - 3 <= |c.bytes|)
  }

  function Limit(n: nat, initialBytes: nat, chunkBytes: nat): (r: nat)
    ensures n == 0 ==> r >= initialBytes && r >= 1 && (r == initialBytes || r == 1)
    ensures n > 0 ==> r >= chunkBytes && r >= 1 && (r == chunkBytes || r == 1)
  {
    var limit := if n == 0 then initialBytes else chunkBytes;
    if limit < 1 then 1 else limit
  }

  /** The chunks of a text, cut at the places `cuts`, first 0 and last the end. */
  ghost predicate ChunksOf(t: Text, chunks: seq<Chunk>, cuts: seq<nat>, initialBytes: nat, chunkBytes: nat) {
    && |cuts| == |chunks| + 1 && cuts[0] == 0 && cuts[|chunks|] <= |t|
    && forall n | 0 <= n < |chunks| :: ChunkOf(t, chunks[n], cuts[n], cuts[n + 1], Limit(n, initialBytes, chunkBytes))
  }

  /** The end of the next chunk: the last boundary within the limit, or else the end of one scalar. */
  method ChunkEnd(t: Text, offset: nat, limit: nat) returns (end: nat, ghost i: nat, ghost j: nat)
    requires OnBoundary(t, offset) && offset < Bytes(t, |t|) && limit >= 1
    ensures i < j <= |t| && offset == Bytes(t, i) && end == Bytes(t, j)
    ensures OnBoundary(t, end) && offset < end
    ensures end - offset <= limit || j == i + 1
    ensures j < |t| && limit >= 4 ==> limit - 3 <= end - offset
  {
    var bytes := Utf8(t);
    Utf8Length(t);
    i := ScalarIndex(t, offset);
    end := if offset + limit < |bytes| then offset + limit else |bytes|;
    ghost var wanted := end;
    end, j := BoundaryBefore(t, offset, end);
    if wanted == |bytes| && j < |t| { BytesMonotone(t, j + 1, |t|); }
    CoordinatesAgree(t, i, j);
    if end == offset {
      j := i + 1;
      end := NextBoundary(t, i, offset);
    }
  }

  /** Step forward from the start of a scalar to its end. */
  method NextBoundary(t: Text, ghost i: nat, offset: nat) returns (end: nat)
    requires i < |t| && offset == Bytes(t, i)
    ensures end == Bytes(t, i + 1)
  {
    var bytes := Utf8(t);
    Utf8Length(t);
    BytesMonotone(t, i, i + 1);
    BytesMonotone(t, i + 1, |t|);
    end := offset + 1;
    while end < |bytes| && !IsCharBoundary(bytes, end)
      invariant offset < end <= Bytes(t, i + 1)
      decreases |bytes| - end
    {
      if end == Bytes(t, i + 1) { BoundaryIsPlace(t, end); }
      end := end + 1;
    }
    if end < Bytes(t, i + 1) {
      BoundaryIsPlace(t, end);
      InsideScalar(t, i, end);
    }
  }

  lemma {:induction false} InsideScalar(t: Text, i: nat, e: nat)
    requires i < |t| && Bytes(t, i) < e < Bytes(t, i + 1)
    ensures !OnBoundary(t, e)
  {
    if OnBoundary(t, e) { OnlyPlace(t, i, e); }
  }

  method StreamBufferContent(content: Text, initialBytes: nat, chunkBytes: nat)
      returns (chunks: seq<Chunk>, ghost cuts: seq<nat>)
    ensures ChunksOf(content, chunks, cuts, initialBytes, chunkBytes) && cuts[|chunks|] == |content|
    ensures Joined(chunks) == Utf8(content) && Contiguous(chunks)
  {
    var bytes := Utf8(content);
    Utf8Length(content);
    var offset, nextChunkBytes := 0, if initialBytes < 1 then 1 else initialBytes;
    chunks, cuts := [], [0];
    while offset < |bytes|
      invariant ChunksOf(content, chunks, cuts, initialBytes, chunkBytes)
      invariant offset == Bytes(content, cuts[|chunks|]) <= |bytes|
      invariant nextChunkBytes == Limit(|chunks|, initialBytes, chunkBytes)
      decreases |bytes| - offset
    {
      var end, i, j := ChunkEnd(content, offset, nextChunkBytes);
      ChunkAppended(content, chunks, cuts, i, j, initialBytes, chunkBytes);
      chunks := chunks + [Chunk(offset, bytes[offset..end])];
      cuts := cuts + [j];
      offset := end;
      nextChunkBytes := if chunkBytes < 1 then 1 else chunkBytes;
    }
    CoordinatesAgree(content, cuts[|chunks|], |content|);
    ChunksJoin(content, chunks, cuts, initialBytes, chunkBytes);
    assert content[..|content|] == content;
  }

  lemma {:induction false} ChunkAppended(t: Text, chunks: seq<Chunk>, cuts: seq<nat>, i: nat, j: nat,
      initialBytes: nat, chunkBytes: nat)
    requires ChunksOf(t, chunks, cuts, initialBytes, chunkBytes)
    requires i < j <= |t| && Bytes(t, i) == Bytes(t, cuts[|chunks|])
    requires var limit, n := Limit(|chunks|, initialBytes, chunkBytes), Bytes(t, j) - Bytes(t, i);
             (n <= limit || j == i + 1) && (j < |t| && limit >= 4 ==> limit - 3 <= n)
    ensures Bytes(t, i) <= Bytes(t, j) <= |Utf8(t)|
    ensures var c := Chunk(Bytes(t, i), Utf8(t)[Bytes(t, i)..Bytes(t, j)]);
            ChunksOf(t, chunks + [c], cuts + [j], initialBytes, chunkBytes)
  {
    CoordinatesAgree(t, i, cuts[|chunks|]);
    BytesBetween(t, i, j);
    var c := Chunk(Bytes(t, i), Utf8(t)[Bytes(t, i)..Bytes(t, j)]);
    assert ChunkOf(t, c, i, j, Limit(|chunks|, initialBytes, chunkBytes));
  }

  lemma {:induction false} BytesBetween(t: Text, i: nat, j: nat)
    requires i <= j <= |t|
    ensures Bytes(t, i) <= Bytes(t, j) <= |Utf8(t)|
    ensures Utf8(t)[Bytes(t, i)..Bytes(t, j)] == Utf8(t[i..j])
    ensures |Utf8(t[i..j])| == Bytes(t, j) - Bytes(t, i)
  {
    BytesMonotone(t, i, j);
    Utf8Cut(t, j);
    Utf8Cut(t[..j], i);
    SamePrefix(t, t[..j], i);
    assert t[..j][..i] == t[..i];
    SamePrefix(t, t[..j], j);
  }

  function Joined(chunks: seq<Chunk>): seq<Byte> {
    if chunks == [] then [] else Joined(chunks[..|chunks| - 1]) + chunks[|chunks| - 1].bytes
  }

  /** Non-empty chunks, each starting where the ones before it end. */
  predicate Contiguous(chunks: seq<Chunk>) {
    chunks == [] ||
    var init, last := chunks[..|chunks| - 1], chunks[|chunks| - 1];
    Contiguous(init) && last.bytes != [] && last.offset == |Joined(init)|
  }

  /** The texts between the cuts. */
  function Texts(t: Text, cuts: seq<nat>): seq<Text> {
    if |cuts| < 2 then []
    else
      var i, j := cuts[|cuts| - 2], cuts[|cuts| - 1];
      Texts(t, cuts[..|cuts| - 1]) + [if i <= j <= |t| then t[i..j] else []]
  }

  /** The chunks follow each other without gaps and joined give the encoding of the text. */
  lemma {:induction false} ChunksJoin(t: Text, chunks: seq<Chunk>, cuts: seq<nat>, initialBytes: nat, chunkBytes: nat)
    requires ChunksOf(t, chunks, cuts, initialBytes, chunkBytes)
    ensures Joined(chunks) == Utf8(t[..cuts[|chunks|]]) && Contiguous(chunks)
  {
    if chunks != [] {
      var m := |chunks| - 1;
      ChunksJoin(t, chunks[..m], cuts[..m + 1], initialBytes, chunkBytes);
      assert ChunkOf(t, chunks[m], cuts[m], cuts[m + 1], Limit(m, initialBytes, chunkBytes));
      LastChunk(t, cuts[m], cuts[m + 1]);
    }
  }

  lemma {:induction false} LastChunk(t: Text, i: nat, j: nat)
    requires i < j <= |t|
    ensures Utf8(t[..j]) == Utf8(t[..i]) + Utf8(t[i..j]) && |Utf8(t[..i])| == Bytes(t, i) && Utf8(t[i..j]) != []
  {
    assert t[..i] + t[i..j] == t[..j];
    Utf8Concat(t[..i], t[i..j]);
    Utf8Length(t[..i]);
    CutLengths(t, i);
    BytesBetween(t, i, j);
    BytesMonotone(t, i, j);
  }

  /** Each chunk decodes on its own, and the decoded texts joined give the text. */
  lemma {:induction false} TextsJoin(t: Text, chunks: seq<Chunk>, cuts: seq<nat>, initialBytes: nat, chunkBytes: nat)
    requires ChunksOf(t, chunks, cuts, initialBytes, chunkBytes)
    ensures |Texts(t, cuts)| == |chunks| && Concat(Texts(t, cuts)) == t[..cuts[|chunks|]]
    ensures forall n | 0 <= n < |chunks| :: chunks[n].bytes == Utf8(Texts(t, cuts)[n])
  {
    if chunks != [] {
      var m := |chunks| - 1;
      TextsJoin(t, chunks[..m], cuts[..m + 1], initialBytes, chunkBytes);
      var i, j := cuts[m], cuts[m + 1];
      assert ChunkOf(t, chunks[m], i, j, Limit(m, initialBytes, chunkBytes));
      LastText(t, cuts, i, j);
      OneMoreChunk(chunks, Texts(t, cuts[..m + 1]), t[i..j]);
    }
  }

  lemma {:induction false} OneMoreChunk(chunks: seq<Chunk>, texts: seq<Text>, last: Text)
    requires |chunks| == |texts| + 1 && chunks[|texts|].bytes == Utf8(last)
    requires forall n | 0 <= n < |texts| :: chunks[..|texts|][n].bytes == Utf8(texts[n])
    ensures forall n | 0 <= n < |chunks| :: chunks[n].bytes == Utf8((texts + [last])[n])
  {
    forall n | 0 <= n < |chunks|
      ensures chunks[n].bytes == Utf8((texts + [last])[n])
    {
      if n < |texts| { assert chunks[..|texts|][n] == chunks[n]; }
    }
  }

  lemma {:induction false} LastText(t: Text, cuts: seq<nat>, i: nat, j: nat)
    requires |cuts| >= 2 && cuts[|cuts| - 2] == i <= j == cuts[|cuts| - 1] <= |t|
    ensures var texts := Texts(t, cuts[..|cuts| - 1]);
            && Texts(t, cuts) == texts + [t[i..j]]
            && (Concat(texts) == t[..i] ==> Concat(Texts(t, cuts)) == t[..j])
  {
    var texts := Texts(t, cuts[..|cuts| - 1]) + [t[i..j]];
    assert texts[..|texts| - 1] == Texts(t, cuts[..|cuts| - 1]);
    assert t[..i] + t[i..j] == t[..j];
  }

  /** Streaming a text and loading the chunks: the browser's copy starts from exactly that text. */
  lemma {:induction false} StreamedLoad(
    t: Text, chunks: seq<Chunk>, cuts: seq<nat>, initialBytes: nat, chunkBytes: nat,
    s: State, p: Path, version: ResourceVersion)
    requires ChunksOf(t, chunks, cuts, initialBytes, chunkBytes) && cuts[|chunks|] == |t| && Invariant(s)
    ensures var s' := Loaded(s, p, Texts(t, cuts), version);
            Invariant(s') && s'.copies[p].base == Content(s', p) == t && s'.copies[p].version == version
  {
    TextsJoin(t, chunks, cuts, initialBytes, chunkBytes);
    assert t[..|t|] == t;
    LoadedOk(s, p, Texts(t, cuts), version);
  }

  // ---- Bounded streaming of a remote file ----

  /** How many bytes a read returns is up to the transport: at least one while any are left. */
  function ReadSize(size: nat, wanted: nat, left: nat): nat {
    var bounded := if size < 1 then 1 else if size < wanted then size else wanted;
    if bounded < left then bounded else left
  }

  function Least(a: nat, b: nat): nat { if a < b then a else b }

  predicate Within(chunks: seq<Chunk>, initialBytes: nat, chunkBytes: nat) {
    forall n | 0 <= n < |chunks| :: |chunks[n].bytes| <= Limit(n, initialBytes, chunkBytes)
  }

  /** What the transport and the receiver do: the sizes of the reads, `None` for one that fails; which chunks
      the receiver takes; and whether the remote command ends well. */
  datatype Transport = Transport(sizes: nat -> Option<nat>, takes: nat -> bool, succeeds: bool)

  ghost predicate IsReliable(transport: Transport) {
    transport.succeeds && (forall n: nat :: transport.sizes(n).Some?) && (forall n: nat :: transport.takes(n))
  }

  /** The first `n` reads brought something and the receiver took it. */
  ghost predicate WentWell(transport: Transport, n: nat) {
    forall k | 0 <= k < n :: transport.sizes(k).Some? && transport.takes(k)
  }

  /** Stream a file up to `maxBytes`; `summary` is how many bytes were read and whether the file was cut. */
  method StreamFile(file: seq<Byte>, transport: Transport, initialChunkBytes: nat, chunkBytes: nat, maxBytes: nat)
    returns (chunks: seq<Chunk>, summary: Option<(nat, bool)>)
    ensures PrefixOf(file, chunks, |Joined(chunks)|, initialChunkBytes, chunkBytes) && |Joined(chunks)| <= maxBytes
    ensures summary.Some? ==>
              && summary.value.0 == Least(|file|, maxBytes) == |Joined(chunks)|
              && (summary.value.1 <==> |file| >= maxBytes && file != [])
    ensures IsReliable(transport) ==> summary.Some?
    ensures WentWell(transport, |chunks|)
    ensures summary.Some? && !summary.value.1 ==> transport.sizes(|chunks|).Some? && transport.succeeds
    ensures summary == None ==>
              transport.sizes(|chunks|) == None || !transport.takes(|chunks|) || !transport.succeeds
  {
    var bytesRead, truncated, failed := 0, false, false;
    chunks := [];
    var n := 0;
    while !truncated && !failed
      invariant SoFar(file, chunks, bytesRead, truncated, initialChunkBytes, chunkBytes, maxBytes)
      invariant WentWell(transport, |chunks|) && (!truncated && !failed ==> n == |chunks|)
      invariant failed ==> !transport.takes(|chunks|)
      decreases |file| - bytesRead, !truncated, !failed
    {
      var wanted := Limit(if bytesRead == 0 then 0 else 1, initialChunkBytes, chunkBytes);
      var size := transport.sizes(n);
      if size == None {
        failed := true;
        break;
      }
      var read := ReadSize(size.value, wanted, |file| - bytesRead);
      n := n + 1;
      if read == 0 {
        failed := !transport.succeeds;
        break;
      }
      chunks, bytesRead, truncated, failed :=
        Forward(file, transport, chunks, bytesRead, read, initialChunkBytes, chunkBytes, maxBytes);
    }
    return chunks, if failed then None else Some((bytesRead, truncated));
  }

  /** Pass on what was read, as far as the size limit allows and if the receiver takes it. */
  method Forward(file: seq<Byte>, transport: Transport, chunks: seq<Chunk>, bytesRead: nat, read: nat,
      initialBytes: nat, chunkBytes: nat, maxBytes: nat)
    returns (chunks': seq<Chunk>, bytesRead': nat, truncated: bool, failed: bool)
    requires SoFar(file, chunks, bytesRead, false, initialBytes, chunkBytes, maxBytes)
    requires 0 < read <= Limit(if bytesRead == 0 then 0 else 1, initialBytes, chunkBytes) && bytesRead + read <= |file|
    ensures SoFar(file, chunks', bytesRead', truncated, initialBytes, chunkBytes, maxBytes)
    ensures bytesRead <= bytesRead' <= |file| && (bytesRead' == bytesRead ==> truncated || failed)
    ensures failed ==> chunks' == chunks && !transport.takes(|chunks|)
    ensures chunks' != chunks ==> |chunks'| == |chunks| + 1 && transport.takes(|chunks|)
    ensures !truncated && !failed ==> chunks' != chunks
  {
    chunks', bytesRead', truncated, failed := chunks, bytesRead, false, false;
    var buffer := file[bytesRead..bytesRead + read];
    var usable := Least(read, maxBytes - bytesRead);
    if usable == 0 {
      truncated := true;
    } else if !transport.takes(|chunks|) {
      failed := true;
    } else {
      PushChunk(file, chunks, bytesRead, buffer, usable, initialBytes, chunkBytes);
      chunks' := chunks + [Chunk(bytesRead, buffer[..usable])];
      bytesRead' := bytesRead + usable;
      truncated := usable < read || bytesRead' >= maxBytes;
    }
  }

  /** What has been passed on, and that the limit is reached only in a file that is cut. */
  predicate SoFar(file: seq<Byte>, chunks: seq<Chunk>, bytesRead: nat, truncated: bool,
      initialBytes: nat, chunkBytes: nat, maxBytes: nat) {
    && PrefixOf(file, chunks, bytesRead, initialBytes, chunkBytes)
    && bytesRead <= maxBytes && (bytesRead > 0 && !truncated ==> bytesRead < maxBytes)
    && (bytesRead == 0 <==> chunks == []) && (truncated ==> bytesRead == maxBytes && file != [])
  }

  /** The chunks follow each other within their limits and make up the first `n` bytes. */
  predicate PrefixOf(file: seq<Byte>, chunks: seq<Chunk>, n: nat, initialBytes: nat, chunkBytes: nat) {
    && n <= |file| && Joined(chunks) == file[..n] && n == |Joined(chunks)|
    && Contiguous(chunks) && Within(chunks, initialBytes, chunkBytes)
  }

  /** One more chunk, the first `size` bytes of what was read. */
  lemma {:induction false} PushChunk(
    file: seq<Byte>, chunks: seq<Chunk>, from: nat, buffer: seq<Byte>, size: nat, initialBytes: nat, chunkBytes: nat)
    requires PrefixOf(file, chunks, from, initialBytes, chunkBytes)
    requires from + |buffer| <= |file| && buffer == file[from..from + |buffer|]
    requires 0 < size <= |buffer| && size <= Limit(|chunks|, initialBytes, chunkBytes)
    ensures PrefixOf(file, chunks + [Chunk(from, buffer[..size])], from + size, initialBytes, chunkBytes)
  {
    var all := chunks + [Chunk(from, buffer[..size])];
    assert all[..|all| - 1] == chunks;
    SlicesJoin(file, from, buffer, size);
  }

  lemma {:induction false} SlicesJoin(file: seq<Byte>, from: nat, buffer: seq<Byte>, size: nat)
    requires size <= |buffer| && from + |buffer| <= |file| && buffer == file[from..from + |buffer|]
    ensures file[..from + size] == file[..from] + buffer[..size]
  {
    assert buffer[..size] == file[from..from + size];
    assert file[..from + size] == file[..from] + file[from..from + size];
  }
}
