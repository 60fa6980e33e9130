/** The sending side of one transfer (internal/drop/sender.go). */
module Sender {
  import opened Common
  import opened Protocol
  import opened Channel

  datatype SendError =
    | InvalidMetadata | ConnectionLost | UnexpectedMessage | Undecodable | SendFailed
    | AckIdMismatch | Rejected(bytes: int) | BadOffset | NotSeekable | ShortPayload
    | CompleteIdMismatch | CountMismatch | ChecksumMismatch

  /** The payload reader: its whole content and what it will still return. Only a seekable one can serve a resume. */
  class Reader {
    const content: Bytes
    const seekable: bool
    var rest: Bytes

    constructor (content: Bytes, seekable: bool)
      ensures this.content == content && this.seekable == seekable && rest == content
    {
      this.content, this.seekable, rest := content, seekable, content;
    }

    method ReadFull(n: nat) returns (data: Bytes)
      modifies this
      ensures data + rest == old(rest) && |data| <= n && (|data| < n ==> rest == [])
    {
      data := rest[..Min(n, |rest|)];
      rest := rest[|data|..];
    }

    method Rewind()
      requires seekable
      modifies this
      ensures rest == content
    {
      rest := content;
    }
  }

  // ----- what is sent

  /** What goes out for one payload: the chunks, and the cumulative byte counts reported after each. */
  datatype Out = Out(chunks: seq<DropData>, reports: seq<int>)

  /**
   * Adds `data` to `out`, as full chunks numbered from `index` and one final chunk
   * carrying the payload digest; `offset` bytes lie before `data`.
   */
  function Emit(out: Out, digest: Digest, id: string, data: Bytes, index: int, offset: int, c: int): Out
    requires c > 0
    decreases |data|
  {
    if |data| <= c
    then Out(out.chunks + [DropData(id, index, data, true, Some(digest))],
             if data == [] then out.reports else out.reports + [offset + |data|])
    else Emit(Out(out.chunks + [DropData(id, index, data[..c], false, None)], out.reports + [offset + c]),
              digest, id, data[c..], index + 1, offset + c, c)
  }

  /** Everything sent for `body` from offset `k` on. */
  function Outgoing(h: HashFn, id: string, body: Bytes, k: nat, c: int): Out
    requires c > 0 && k <= |body|
  {
    Emit(Out([], []), h(body), id, body[k..], k / c, k, c)
  }

  function Normalized(m: DropSend, freshId: string): DropSend {
    var m := if m.dropId == "" then m.(dropId := freshId) else m;
    m.(chunkSize := NegotiatedChunk(m))
  }

  // ----- what is awaited

  function AwaitAck(m: DropSend, inbox: seq<Msg>): Result<DropAck, SendError> {
    match Next(inbox).0
    case None => Err(ConnectionLost)
    case Some(AckMsg(ack)) =>
      if ack.dropId != m.dropId then Err(AckIdMismatch)
      else if !ack.accepted then Err(Rejected(0))
      else if ack.receivedBytes < 0 || (m.size > 0 && ack.receivedBytes > m.size) then Err(BadOffset)
      else Ok(ack)
    case Some(Garbled) => Err(Undecodable)
    case Some(_) => Err(UnexpectedMessage)
  }

  function AwaitComplete(m: DropSend, sha: Digest, inbox: seq<Msg>): Result<DropComplete, SendError> {
    match Next(inbox).0
    case None => Err(ConnectionLost)
    case Some(CompleteMsg(comp)) =>
      if comp.dropId != m.dropId then Err(CompleteIdMismatch)
      else if !comp.success then Err(Rejected(comp.bytes))
      else if comp.bytes < 0 || (m.size > 0 && comp.bytes != m.size) then Err(CountMismatch)
      else if comp.sha != Some(sha) then Err(ChecksumMismatch)
      else Ok(comp)
    case Some(Garbled) => Err(Undecodable)
    case Some(_) => Err(UnexpectedMessage)
  }

  /** The acknowledgement a sender goes on with. */
  predicate GoodAck(m: DropSend, msg: Option<Msg>) {
    && msg.Some? && msg.value.AckMsg?
    && var ack := msg.value.ack;
       ack.dropId == m.dropId && ack.accepted && 0 <= ack.receivedBytes && (m.size > 0 ==> ack.receivedBytes <= m.size)
  }

  /** The receipt a sender takes for success. */
  predicate GoodReceipt(m: DropSend, sha: Digest, msg: Option<Msg>) {
    && msg.Some? && msg.value.CompleteMsg?
    && var c := msg.value.complete;
       c.dropId == m.dropId && c.success && 0 <= c.bytes && (m.size > 0 ==> c.bytes == m.size) && c.sha == Some(sha)
  }

  /** What one send attempt leaves behind: its result, the messages sent and the progress reported. */
  datatype Sending = Sending(result: Result<DropComplete, SendError>, outbox: seq<Msg>, progress: seq<int>)

  function OffsetError(m: DropSend, k: int, content: Bytes, seekable: bool): Option<SendError> {
    if k <= 0 then None
    else if m.chunkSize <= 0 || k % m.chunkSize != 0 then Some(BadOffset)
    else if !seekable then Some(NotSeekable)
    else if k > |content| then Some(ShortPayload)
    else None
  }

  /** The bytes this attempt is about: what the reader still returns, or the whole content when resuming. */
  function Body(content: Bytes, rest: Bytes, k: int): Bytes {
    if k > 0 then content else rest
  }

  function Send(h: HashFn, m0: DropSend, freshId: string, content: Bytes, rest: Bytes, seekable: bool,
                inbox: seq<Msg>, sends: nat): Sending
  {
    var m := Normalized(m0, freshId);
    if !ValidMetadata(m) then Sending(Err(InvalidMetadata), [], [])
    else if sends == 0 then Sending(Err(SendFailed), [], [])
    else match AwaitAck(m, inbox)
      case Err(e) => Sending(Err(e), [SendMsg(m)], [])
      case Ok(ack) =>
        var k := ack.receivedBytes;
        if OffsetError(m, k, content, seekable).Some?
        then Sending(Err(OffsetError(m, k, content, seekable).value), [SendMsg(m)], [])
        else
          var body := Body(content, rest, k);
          var out := Outgoing(h, m.dropId, body, k, m.chunkSize);
          var n := Min(|out.chunks|, sends - 1);
          Sending(if n < |out.chunks| then Err(SendFailed) else AwaitComplete(m, h(body), Next(inbox).1),
                  [SendMsg(m)] + DataMsgs(out.chunks[..n]), out.reports[..Min(n, |out.reports|)])
  }

  // ----- the sender itself

  method ReceiveAck(conn: Conn, m: DropSend) returns (answer: Result<DropAck, SendError>)
    modifies conn`inbox, conn`echoes
    ensures answer == AwaitAck(m, old(conn.inbox)) && conn.inbox == Next(old(conn.inbox)).1
    ensures answer.Ok? <==> GoodAck(m, Next(old(conn.inbox)).0)
    ensures answer.Ok? ==> Next(old(conn.inbox)).0 == Some(AckMsg(answer.value))
  {
    var reply := conn.Receive();
    match reply {
      case None => return Err(ConnectionLost);
      case Some(AckMsg(ack)) =>
        if ack.dropId != m.dropId { return Err(AckIdMismatch); }
        if !ack.accepted { return Err(Rejected(0)); }
        if ack.receivedBytes < 0 || (m.size > 0 && ack.receivedBytes > m.size) { return Err(BadOffset); }
        return Ok(ack);
      case Some(Garbled) => return Err(Undecodable);
      case Some(_) => return Err(UnexpectedMessage);
    }
  }

  /** Hashes the bytes the receiver already has and leaves the reader at the resume offset. */
  method SeekPayload(m: DropSend, payload: Reader, k: nat) returns (prefix: Result<Bytes, SendError>)
    requires m.chunkSize > 0
    modifies payload
    ensures match OffsetError(m, k, payload.content, payload.seekable)
            case Some(e) => prefix == Err(e)
            case None =>
              var body := Body(payload.content, old(payload.rest), k);
              && k <= |body| && prefix == Ok(body[..k])
              && payload.rest == body[k..]
  {
    if k == 0 { return Ok([]); }
    if k % m.chunkSize != 0 { return Err(BadOffset); }
    if !payload.seekable { return Err(NotSeekable); }
    payload.Rewind();
    var read := payload.ReadFull(k);
    if |read| < k { return Err(ShortPayload); }
    return Ok(read);
  }

  /** What is left goes out as the final chunk. */
  lemma EmitLast(out: Out, digest: Digest, id: string, current: Bytes, index: int, offset: int, c: int)
    requires 0 < c && |current| <= c && |out.reports| == |out.chunks|
    ensures var r := Emit(out, digest, id, current, index, offset, c);
            && r.chunks == out.chunks + [DropData(id, index, current, true, Some(digest))]
            && r.reports == (if current == [] then out.reports else out.reports + [offset + |current|])
            && r.chunks[..|out.chunks|] == out.chunks && r.reports[..|out.reports|] == out.reports
  {
  }

  /** Whatever is already out stays a prefix of the whole. */
  lemma {:induction false} EmitExtends(out: Out, digest: Digest, id: string, data: Bytes, index: int, offset: int,
                                       c: int)
    requires c > 0 && |out.reports| == |out.chunks|
    ensures var r := Emit(out, digest, id, data, index, offset, c);
            && |r.chunks| > |out.chunks| && r.chunks[..|out.chunks|] == out.chunks
            && |r.reports| == (if data == [] then |r.chunks| - 1 else |r.chunks|)
               && r.reports[..|out.reports|] == out.reports
    decreases |data|
  {
    if |data| <= c {
    } else {
      var out' := Out(out.chunks + [DropData(id, index, data[..c], false, None)], out.reports + [offset + c]);
      EmitExtends(out', digest, id, data[c..], index + 1, offset + c, c);
      var r := Emit(out', digest, id, data[c..], index + 1, offset + c, c);
      assert out.chunks == out'.chunks[..|out.chunks|] == r.chunks[..|out'.chunks|][..|out.chunks|];
      assert out.reports == out'.reports[..|out.reports|] == r.reports[..|out'.reports|][..|out.reports|];
    }
  }

  /** A full chunk with more behind it goes out as it is. */
  lemma EmitStep(out: Out, digest: Digest, id: string, current: Bytes, rest: Bytes, index: int, offset: int, c: int)
    requires c == |current| > 0 && rest != [] && |out.reports| == |out.chunks|
    ensures Emit(out, digest, id, current + rest, index, offset, c)
         == Emit(Out(out.chunks + [DropData(id, index, current, false, None)], out.reports + [offset + c]),
                 digest, id, rest, index + 1, offset + c, c)
    ensures var r := Emit(out, digest, id, current + rest, index, offset, c);
            && |r.chunks| > |out.chunks| && r.chunks[..|out.chunks|] == out.chunks
            && |r.reports| > |out.reports| && r.reports[..|out.reports|] == out.reports
  {
    assert (current + rest)[..c] == current && (current + rest)[c..] == rest;
    EmitExtends(out, digest, id, current + rest, index, offset, c);
  }

  /** The read-ahead loop: a full chunk is sent once it is known not to be the last. */
  method SendChunks(h: HashFn, conn: Conn, m: DropSend, payload: Reader, ghost body: Bytes, k: nat, prefix: Bytes)
    returns (ok: bool, hashed: Bytes, progress: seq<int>)
    requires m.chunkSize > 0 && k <= |body| && prefix == body[..k] && payload.rest == body[k..]
    modifies conn`outbox, conn`sendsLeft, payload
    ensures var out := Outgoing(h, m.dropId, body, k, m.chunkSize);
            var n := Min(|out.chunks|, old(conn.sendsLeft));
            && ok == (n == |out.chunks|)
            && conn.outbox == old(conn.outbox) + DataMsgs(out.chunks[..n])
            && progress == out.reports[..Min(n, |out.reports|)]
            && (ok ==> hashed == body)
  {
    hide Emit; hide DataMsgs;
    var c := m.chunkSize;
    ghost var out := Outgoing(h, m.dropId, body, k, c);
    ghost var base := conn.outbox;
    NoMsgs();
    ghost var done: seq<DropData> := [];
    var index, sent := k / c, k;
    progress := [];
    var current := payload.ReadFull(c);
    hashed := prefix + current;
    assert hashed + payload.rest == body;
    while |current| == c
      invariant |current| <= c && (|current| < c ==> payload.rest == [])
      invariant hashed + payload.rest == body && |hashed| == sent + |current|
      invariant out == Emit(Out(done, progress), h(body), m.dropId, current + payload.rest, index, sent, c)
      invariant |progress| == |done| && conn.outbox == base + DataMsgs(done)
      invariant conn.sendsLeft == old(conn.sendsLeft) - |done|
      decreases |payload.rest|, |current|
    {
      var next := payload.ReadFull(c);
      if next == [] { break; }
      EmitStep(Out(done, progress), h(body), m.dropId, current, next + payload.rest, index, sent, c);
      var chunk := DropData(m.dropId, index, current, false, None);
      ok := conn.SendChunk(chunk, base, done);
      if !ok { return; }
      done := done + [chunk];
      sent := sent + |current|;
      progress := progress + [sent];
      hashed := hashed + next;
      index, current := index + 1, next;
    }
    assert current + payload.rest == current && hashed + payload.rest == hashed;
    EmitLast(Out(done, progress), h(body), m.dropId, current, index, sent, c);
    ok := conn.SendChunk(DropData(m.dropId, index, current, true, Some(h(hashed))), base, done);
    if !ok { return; }
    if current != [] { progress := progress + [sent + |current|]; }
    assert out.chunks[..|out.chunks|] == out.chunks && out.reports[..|out.reports|] == out.reports;
  }

  method CheckReceipt(conn: Conn, m: DropSend, sha: Digest) returns (result: Result<DropComplete, SendError>)
    modifies conn`inbox, conn`echoes
    ensures result == AwaitComplete(m, sha, old(conn.inbox))
    ensures result.Ok? <==> GoodReceipt(m, sha, Next(old(conn.inbox)).0)
    ensures result.Ok? ==> Next(old(conn.inbox)).0 == Some(CompleteMsg(result.value))
  {
    var reply := conn.Receive();
    match reply {
      case None => return Err(ConnectionLost);
      case Some(CompleteMsg(comp)) =>
        if comp.dropId != m.dropId { return Err(CompleteIdMismatch); }
        if !comp.success { return Err(Rejected(comp.bytes)); }
        if comp.bytes < 0 || (m.size > 0 && comp.bytes != m.size) { return Err(CountMismatch); }
        if comp.sha != Some(sha) { return Err(ChecksumMismatch); }
        return Ok(comp);
      case Some(Garbled) => return Err(Undecodable);
      case Some(_) => return Err(UnexpectedMessage);
    }
  }

  /** SendDrop: negotiates, streams with one chunk of read-ahead, and checks the receipt. */
  method SendDrop(h: HashFn, conn: Conn, meta: DropSend, freshId: string, payload: Reader)
    returns (result: Result<DropComplete, SendError>, progress: seq<int>)
    modifies conn, payload
    ensures var s := Send(h, meta, freshId, payload.content, old(payload.rest), payload.seekable, old(conn.inbox),
              old(conn.sendsLeft));
            result == s.result && conn.outbox == old(conn.outbox) + s.outbox && progress == s.progress
  {
    hide AwaitAck; hide AwaitComplete; hide Outgoing; hide OffsetError; hide DataMsgs; hide ValidMetadata;
    progress := [];
    var m := Normalized(meta, freshId);
    if !ValidMetadata(m) { return Err(InvalidMetadata), progress; }
    var sent := conn.Send(SendMsg(m));
    if !sent { return Err(SendFailed), progress; }
    var answer := ReceiveAck(conn, m);
    if answer.Err? { return Err(answer.error), progress; }
    var k := answer.value.receivedBytes;
    ghost var body := Body(payload.content, payload.rest, k);
    var prefix := SeekPayload(m, payload, k);
    if prefix.Err? { return Err(prefix.error), progress; }
    var ok, hashed;
    ok, hashed, progress := SendChunks(h, conn, m, payload, body, k, prefix.value);
    if !ok { return Err(SendFailed), progress; }
    result := CheckReceipt(conn, m, h(hashed));
  }
}
