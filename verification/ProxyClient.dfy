/** The proxy client and its reference peer as objects, proved to make the transitions of module
    ProxySessions. */
module ProxyClients {
  import opened Unicode
  import opened Edits
  import opened TextEdits
  import opened ProxyOps
  import opened Replays
  import opened ProxySessions

  /** The reference peer: files on disk, a clock per path, and the buffers it has opened. `reuse` makes it
      answer a path it has opened before with the same id, as the client's cache expects of the real peer;
      the reference peer never does. */
  class FakeProxy {
    const reuse: bool
    var files: map<Path, Text>
    var pathVersions: map<Path, Clock>
    var buffers: map<nat, OpenedPath>
    var nextBufferId: nat
    var latest: map<Path, nat>
    /** Every operation the peer was sent, and every version a save asked for. */
    ghost var sent: seq<Operation>
    ghost var asked: seq<Clock>

    constructor (reuse: bool, files: map<Path, Text>)
      ensures this.reuse == reuse && View() == Peer(files, map[], map[], 100, map[])
      ensures sent == [] && asked == []
    {
      this.reuse, this.files := reuse, files;
      pathVersions, buffers, nextBufferId, latest := map[], map[], 100, map[];
      sent, asked := [], [];
    }

    ghost function View(): Peer
      reads this
    {
      Peer(files, pathVersions, buffers, nextBufferId, latest)
    }

    /** The id of the buffer, and its text and clock if they are streamed. A file that cannot be read ends the
        peer. */
    method OpenBufferByPath(path: Path) returns (answer: Option<(nat, Option<(Text, Clock)>)>)
      modifies this
      ensures sent == old(sent) && asked == old(asked)
      ensures answer == None <==> path !in old(files) && !(reuse && path in old(latest))
      ensures answer == None ==> View() == old(View())
      ensures answer.Some? ==>
                var (id, streamed) := answer.value;
                && (View(), id) == PeerOpened(old(View()), reuse, path)
                && streamed == if reuse && path in old(latest) then None
                               else Some((files[path], buffers[id].savedVersion))
    {
      if reuse && path in latest {
        return Some((latest[path], None));
      }
      if path !in files {
        return None;
      }
      var id := nextBufferId;
      nextBufferId := nextBufferId + 1;
      if path !in pathVersions {
        pathVersions := pathVersions[path := INITIAL_CLOCK];
      }
      assert pathVersions == old(pathVersions)[path := ClockOf(old(View()), path)];
      buffers := buffers[id := OpenedPath(path, pathVersions[path])];
      latest := latest[path := id];
      return Some((id, Some((files[path], pathVersions[path]))));
    }

    /** Apply every edit to the file's text, then write it back; a bad edit stops the peer before the write. */
    method UpdateBuffer(id: nat, operations: seq<Operation>) returns (acked: bool)
      modifies this
      ensures acked <==> PeerUpdated(old(View()), id, operations).Ok?
      ensures acked ==> View() == PeerUpdated(old(View()), id, operations).value
      ensures !acked ==> files == old(files) && pathVersions == old(pathVersions)
      ensures sent == old(sent) + operations && asked == old(asked)
    {
      sent := sent + operations;
      if id !in buffers || buffers[id].path !in files {
        return false;
      }
      var path, version := buffers[id].path, buffers[id].savedVersion;
      var content := new StringBuffer(files[path]);
      for n := 0 to |operations|
        invariant fresh(content)
        invariant View() == old(View()) && sent == old(sent) + operations && asked == old(asked)
        invariant ApplyAll(files[path], operations[..n]) == Ok(content.text)
        invariant version == Advanced(buffers[id].savedVersion, operations[..n])
      {
        assert operations[..n + 1][..n] == operations[..n];
        var op := operations[n];
        if op.EditOperation? {
          var applied := ReplaceInOrder(content, Sorted(Paired(op.ranges, op.newText)));
          if applied.Err? {
            ApplyAllFails(files[path], operations, n + 1);
            return false;
          }
          version := IncrementVersion(version, op.replicaId);
        }
      }
      assert operations[..|operations|] == operations;
      files := files[path := content.text];
      buffers := buffers[id := OpenedPath(path, version)];
      pathVersions := pathVersions[path := version];
      return true;
    }

    method SaveBuffer(id: nat, next: Clock) returns (version: Clock)
      modifies `asked
      ensures version == PeerSaved(View(), id, next)
      ensures version == if id in buffers then buffers[id].savedVersion else next
      ensures asked == old(asked) + [next]
    {
      asked := asked + [next];
      return if id in buffers then buffers[id].savedVersion else next;
    }
  }

  class ProxyClient {
    const proxy: FakeProxy
    var openedBuffers: map<nat, OpenedBuffer>

    constructor (proxy: FakeProxy)
      ensures this.proxy == proxy && openedBuffers == map[]
    {
      this.proxy := proxy;
      openedBuffers := map[];
    }

    ghost function View(): Session
      reads this, proxy
    {
      Session(proxy.View(), openedBuffers)
    }

    /** Ask for the buffer; a cached one is returned as it is, any other is read from the stream. */
    method OpenBufferByPath(path: Path) returns (r: Result<OpenedBuffer, SessionError>)
      requires proxy.reuse && path in proxy.latest ==> path in proxy.files && proxy.latest[path] in openedBuffers
      modifies this, proxy
      ensures proxy.sent == old(proxy.sent) && proxy.asked == old(proxy.asked)
      ensures path !in old(proxy.files) ==> r == Err(PeerFailed) && View() == old(View())
      ensures path in old(proxy.files) ==> r.Ok? && (View(), r.value) == BufferOpened(old(View()), proxy.reuse, path)
    {
      var answer := proxy.OpenBufferByPath(path);
      if answer == None {
        return Err(PeerFailed);
      }
      var (id, streamed) := answer.value;
      if id in openedBuffers {
        return Ok(openedBuffers[id]);
      }
      var (text, version) := streamed.value;
      var content := ApplyOperations(text, []);
      var buffer := OpenedBuffer(id, path, content.value, version);
      openedBuffers := openedBuffers[id := buffer];
      return Ok(buffer);
    }

    /** Compile, check the length, update, save, cache. A request refused for its batches or its length
        changes neither side. */
    method ApplyBatchesAndSave(buffer: OpenedBuffer, batches: seq<Batch>, expectedLength: nat)
      returns (r: Result<(Clock, Text), SessionError>)
      modifies this, proxy
      ensures var saved := BatchesSaved(old(View()), buffer, batches, expectedLength);
              if saved.Ok? then r == Ok((saved.value.version, saved.value.text)) && View() == saved.value.session
              else r == Err(saved.error) && (saved.error.BadRequest? ==> View() == old(View()))
      ensures r.Err? ==> openedBuffers == old(openedBuffers) && proxy.files == old(proxy.files)
      ensures r.Err? && r.error.BadRequest? ==> proxy.sent == old(proxy.sent) && proxy.asked == old(proxy.asked)
      ensures (r.Err? ==> !r.error.BadRequest?) ==>
                exists c :: && Continues(buffer.savedVersion, c) && |c.operations| == CountChanging(batches)
                            && proxy.sent == old(proxy.sent) + c.operations
                            && (r.Ok? ==> proxy.asked == old(proxy.asked) + [c.version])
    {
      var compiled := OperationsFromBatches(buffer.baseText, buffer.savedVersion, batches);
      if compiled.Err? {
        return Err(BadRequest(compiled.error));
      }
      var c := compiled.value;
      OperationClocks(buffer.baseText, buffer.savedVersion, batches);
      if |Utf8(c.text)| != expectedLength {
        return Err(BadRequest(UnexpectedLength(expectedLength, |Utf8(c.text)|)));
      }
      var version := UpdateAndSave(buffer, c);
      return if version.Ok? then Ok((version.value, c.text)) else Err(version.error);
    }

    method UpdateAndSave(buffer: OpenedBuffer, c: Compiled) returns (r: Result<Clock, SessionError>)
      modifies this, proxy
      ensures var saved := Written(old(View()), buffer, c);
              if saved.Ok? then r == Ok(saved.value.version) && View() == saved.value.session
              else r == Err(saved.error)
      ensures r.Err? ==> openedBuffers == old(openedBuffers) && proxy.files == old(proxy.files)
      ensures r.Err? ==> r.error == PeerFailed
      ensures proxy.sent == old(proxy.sent) + c.operations
      ensures proxy.asked == old(proxy.asked) + if r.Ok? then [c.version] else []
    {
      if c.operations != [] {
        var acked := proxy.UpdateBuffer(buffer.id, c.operations);
        if !acked {
          return Err(PeerFailed);
        }
      }
      var version := proxy.SaveBuffer(buffer.id, c.version);
      openedBuffers := openedBuffers[buffer.id := OpenedBuffer(buffer.id, buffer.path, c.text, version)];
      return Ok(version);
    }

    method OverwriteAndSave(buffer: OpenedBuffer, content: Text) returns (r: Result<Clock, SessionError>)
      modifies this, proxy
      ensures var saved := Overwritten(old(View()), buffer, content);
              if saved.Ok? then r == Ok(saved.value.version) && View() == saved.value.session
              else r == Err(saved.error)
      ensures r.Err? ==> openedBuffers == old(openedBuffers) && proxy.files == old(proxy.files)
      ensures exists c :: && Continues(buffer.savedVersion, c) && |c.operations| == 1
                          && proxy.sent == old(proxy.sent) + c.operations
                          && (r.Ok? ==> proxy.asked == old(proxy.asked) + [c.version])
                          && c.operations[0].EditOperation?
                          && c.operations[0].ranges == [Range(0, |Utf8(buffer.baseText)|)]
                          && c.operations[0].newText == [content]
    {
      OverwriteClocks(buffer, content);
      var next := IncrementVersion(buffer.savedVersion, REPLICA);
      var length := |Utf8(buffer.baseText)|;
      var op := EditOperation(REPLICA, Timestamp(next, REPLICA), buffer.savedVersion, [Range(0, length)], [content]);
      r := UpdateAndSave(buffer, Compiled([op], content, next));
    }
  }
}

/** The session's save, under its lock: open, compare versions, apply and save. */
module ProxyGateway {
  import opened Edits
  import opened TextEdits
  import opened WorkingCopyServices
  import opened ProxyOps
  import opened Replays
  import opened ProxySessions
  import opened ProxyClients
  import opened Collaboration

  method SaveBufferViaProxy(client: ProxyClient, request: SavePayload) returns (reply: ProxyReply)
    requires Agrees(client.View())
    modifies client, client.proxy
    ensures request.path !in old(client.proxy.files) ==>
              reply == ProxyRefused(PeerFailed) && client.View() == old(client.View())
    ensures request.path in old(client.proxy.files) ==>
              var (session, answer) := SaveViaProxy(old(client.View()), client.proxy.reuse, request);
              reply == answer && (reply != ProxyRefused(PeerFailed) ==> client.View() == session)
    ensures AllDescend(request.batches) && request.path in old(client.proxy.files) ==> reply != ProxyRefused(PeerFailed)
    ensures !reply.ProxyAccepted? ==> client.proxy.files == old(client.proxy.files)
    ensures reply.ProxyAccepted? ==>
              && (forall k | 0 <= k < |request.batches| :: request.batches[k].number <= reply.appliedSeq)
              && if request.batches == [] then reply.appliedSeq == 0
                 else exists k | 0 <= k < |request.batches| :: request.batches[k].number == reply.appliedSeq
  {
    hide Compile, Written, BufferOpened, Continues, AllDescend, Advanced;
    assert AgreesOn(client.View(), request.path);
    if request.path in client.proxy.files { OpenAgrees(client.View(), client.proxy.reuse, request.path); }
    var opening := client.OpenBufferByPath(request.path);
    if opening.Err? {
      return ProxyRefused(opening.error);
    }
    var buffer := opening.value;
    if ZedVectorClock(buffer.savedVersion) != request.baseVersion {
      return ProxyConflict(buffer.savedVersion);
    }
    if AllDescend(request.batches) {
      assert AgreesOn(client.View(), request.path);
      BatchSaveAgrees(client.View(), request.path, request.batches, request.expectedLength);
    }
    var saved := client.ApplyBatchesAndSave(buffer, request.batches, request.expectedLength);
    if saved.Err? {
      return ProxyRefused(saved.error);
    }
    CompiledNumbersRise(buffer.baseText, buffer.savedVersion, request.batches);
    return ProxyAccepted(LastNumber(request.batches), |Unicode.Utf8(saved.value.1)|, saved.value.0);
  }
}
