/** Sender and receiver together: end-to-end safety, rejection of damaged streams, completeness. */
module Transfers {
  import opened Common
  import opened Protocol
  import opened Channel
  import opened Files
  import opened Quotas
  import opened Ledger
  import opened Receiver
  import opened Reception
  import opened Sender

  // ----- the shape of what the sender emits

  const NOTHING: Out := Out([], [])

  /** What is already out does not influence what follows. */
  lemma {:induction false} EmitAppends(out: Out, digest: Digest, id: string, data: Bytes, index: int, offset: int,
                                       c: int)
    requires c > 0
    ensures var e := Emit(NOTHING, digest, id, data, index, offset, c);
            Emit(out, digest, id, data, index, offset, c) == Out(out.chunks + e.chunks, out.reports + e.reports)
    decreases |data|
  {
    if |data| <= c {
    } else {
      var x := DropData(id, index, data[..c], false, None);
      EmitAppends(Out(out.chunks + [x], out.reports + [offset + c]), digest, id, data[c..], index + 1, offset + c, c);
      EmitAppends(Out([x], [offset + c]), digest, id, data[c..], index + 1, offset + c, c);
      var e := Emit(NOTHING, digest, id, data[c..], index + 1, offset + c, c);
      assert [] + [x] == [x] && [] + [offset + c] == [offset + c];
      assert out.chunks + [x] + e.chunks == out.chunks + ([x] + e.chunks);
      assert out.reports + [offset + c] + e.reports == out.reports + ([offset + c] + e.reports);
    }
  }

  /** Full chunks at consecutive indices, one final chunk with the digest, together exactly the data. */
  ghost predicate Shape(cs: seq<DropData>, digest: Digest, id: string, data: Bytes, index: int, c: int) {
    && cs != []
    && (forall i | 0 <= i < |cs| :: cs[i].dropId == id && cs[i].index == index + i && (cs[i].final <==> i == |cs| - 1))
    && (forall i | 0 <= i < |cs| - 1 :: |cs[i].data| == c)
    && |cs[|cs| - 1].data| <= c && cs[|cs| - 1].sha == Some(digest)
    && Payload(cs) == data
  }

  /** Reports climb strictly from `offset` and end at the last byte; without data there is none. */
  ghost predicate Climbs(reports: seq<int>, offset: int, end: int) {
    && (forall i | 0 <= i < |reports| :: offset < reports[i] <= end)
    && (forall i, j | 0 <= i < j < |reports| :: reports[i] < reports[j])
    && (if offset == end then reports == [] else reports != [] && reports[|reports| - 1] == end)
  }

  /** Emitting more than one chunk: the first, then the rest. */
  lemma EmitFirst(digest: Digest, id: string, data: Bytes, index: int, offset: int, c: int)
    requires c > 0 && |data| > c
    ensures var e := Emit(NOTHING, digest, id, data, index, offset, c);
            var f := Emit(NOTHING, digest, id, data[c..], index + 1, offset + c, c);
            e == Out([DropData(id, index, data[..c], false, None)] + f.chunks, [offset + c] + f.reports)
  {
    var x := DropData(id, index, data[..c], false, None);
    EmitAppends(Out([x], [offset + c]), digest, id, data[c..], index + 1, offset + c, c);
    assert [] + [x] == [x] && [] + [offset + c] == [offset + c];
  }

  lemma ShapeCons(x: DropData, rest: seq<DropData>, digest: Digest, id: string, data: Bytes, index: int, c: int)
    requires 0 < c < |data| && x == DropData(id, index, data[..c], false, None)
    requires Shape(rest, digest, id, data[c..], index + 1, c)
    ensures Shape([x] + rest, digest, id, data, index, c)
  {
    var cs := [x] + rest;
    assert cs[1..] == rest;
    assert Payload(cs) == data[..c] + data[c..] == data;
    forall i | 0 <= i < |cs|
      ensures cs[i].dropId == id && cs[i].index == index + i && (cs[i].final <==> i == |cs| - 1)
              && (i < |cs| - 1 ==> |cs[i].data| == c)
    {
      if i > 0 { assert cs[i] == rest[i - 1]; }
    }
  }

  lemma {:induction false} EmitShape(digest: Digest, id: string, data: Bytes, index: int, offset: int, c: int)
    requires c > 0
    ensures Shape(Emit(NOTHING, digest, id, data, index, offset, c).chunks, digest, id, data, index, c)
    decreases |data|
  {
    var cs := Emit(NOTHING, digest, id, data, index, offset, c).chunks;
    if |data| <= c {
      assert Payload(cs) == data + Payload(cs[1..]);
    } else {
      var rest := Emit(NOTHING, digest, id, data[c..], index + 1, offset + c, c).chunks;
      EmitShape(digest, id, data[c..], index + 1, offset + c, c);
      EmitFirst(digest, id, data, index, offset, c);
      ShapeCons(cs[0], rest, digest, id, data, index, c);
    }
  }

  lemma {:induction false} EmitClimbs(digest: Digest, id: string, data: Bytes, index: int, offset: int, c: int)
    requires c > 0
    ensures Climbs(Emit(NOTHING, digest, id, data, index, offset, c).reports, offset, offset + |data|)
    decreases |data|
  {
    if |data| <= c {
    } else {
      EmitClimbs(digest, id, data[c..], index + 1, offset + c, c);
      EmitFirst(digest, id, data, index, offset, c);
    }
  }

  /** The metadata as it is sent: with a fresh drop id if it has none, and with the chunk size in effect. */
  ghost predicate IsSentAs(m0: DropSend, freshId: string, m: DropSend) {
    && m == m0.(dropId := m.dropId, chunkSize := m.chunkSize)
    && (if m0.dropId == "" then m.dropId == freshId else m.dropId == m0.dropId)
    && (if m0.chunkSize > 0 then m.chunkSize == m0.chunkSize else m.chunkSize == 0x10_0000)
  }

  lemma OffsetFits(m: DropSend, k: int, content: Bytes, rest: Bytes, seekable: bool)
    requires k >= 0
    ensures OffsetError(m, k, content, seekable).None? <==>
              k == 0 || (m.chunkSize > 0 && k % m.chunkSize == 0 && seekable && k <= |content|)
    ensures OffsetError(m, k, content, seekable).None? ==> k <= |Body(content, rest, k)|
  {
  }

  lemma OutgoingIds(h: HashFn, id: string, body: Bytes, k: nat, c: int)
    requires c > 0 && k <= |body|
    ensures var cs := Outgoing(h, id, body, k, c).chunks; forall i | 0 <= i < |cs| :: cs[i].dropId == id
  {
    EmitShape(h(body), id, body[k..], k / c, k, c);
  }

  /** What a sender says: first its metadata, if they are admitted, then nothing but chunks of that transfer. */
  lemma SendsItsMetadataFirst(h: HashFn, m0: DropSend, freshId: string, m: DropSend, content: Bytes, rest: Bytes,
                              seekable: bool, inbox: seq<Msg>, sends: nat)
    requires IsSentAs(m0, freshId, m)
    ensures var t := Send(h, m0, freshId, content, rest, seekable, inbox, sends);
            && (t.outbox == [] <==> sends == 0 || !Admitted(m))
            && (t.outbox != [] ==>
                  && t.outbox[0] == SendMsg(m)
                  && forall i | 1 <= i < |t.outbox| :: t.outbox[i].DataMsg? && t.outbox[i].chunk.dropId == m.dropId)
  {
    hide Outgoing; hide OffsetError; hide AwaitComplete;
    MetadataIsValidIff(m);
    assert Normalized(m0, freshId) == m;
    if ValidMetadata(m) && AwaitAck(m, inbox).Ok? {
      var k := AwaitAck(m, inbox).value.receivedBytes;
      if OffsetError(m, k, content, seekable).None? {
        OffsetFits(m, k, content, rest, seekable);
        OutgoingIds(h, m.dropId, Body(content, rest, k), k, m.chunkSize);
      }
    }
  }

  /**
   * A sender succeeds exactly if its metadata are admitted, the first reply
   * accepts them at an offset it can serve, every chunk from there goes out, and
   * the second reply is a receipt with the digest of its payload.
   */
  lemma SendSucceedsIff(h: HashFn, m0: DropSend, freshId: string, m: DropSend, content: Bytes, rest: Bytes,
                        seekable: bool, inbox: seq<Msg>, sends: nat)
    requires IsSentAs(m0, freshId, m)
    ensures Send(h, m0, freshId, content, rest, seekable, inbox, sends).result.Ok? <==>
              && Admitted(m) && GoodAck(m, Next(inbox).0)
              && var k := Next(inbox).0.value.ack.receivedBytes;
                 var body := if k == 0 then rest else content;
                 && (k > 0 ==> seekable && k % m.chunkSize == 0) && k <= |body|
                 && sends > |Outgoing(h, m.dropId, body, k, m.chunkSize).chunks|
                 && GoodReceipt(m, h(body), Next(Next(inbox).1).0)
  {
    hide Outgoing; hide OffsetError; hide ValidMetadata; hide Admitted;
    MetadataIsValidIff(m);
    assert Normalized(m0, freshId) == m;
    if AwaitAck(m, inbox).Ok? { OffsetFits(m, AwaitAck(m, inbox).value.receivedBytes, content, rest, seekable); }
  }

  // ----- end-to-end safety

  /** An accepted loop ended on a chunk whose digest is that of the bytes the destination now starts with. */
  lemma {:induction false} AcceptedLoop(h: HashFn, job: Job, p: Progress, a: Account, inbox: seq<Msg>)
    returns (c: DropData)
    requires LoopInv(job, p) && Loop(h, job, p, a, inbox).verdict.Accepted?
    ensures var q := Loop(h, job, p, a, inbox).p;
            && DataMsg(c) in inbox && c.final && c.sha == Some(h(q.hashed))
            && Extends(p, q) && (job.size > 0 ==> q.total == job.size)
    decreases |inbox|
  {
    hide Absorb;
    match inbox[0]
    case Heartbeat => c := AcceptedLoop(h, job, p, a, inbox[1..]);
    case DataMsg(x) =>
      var s := Absorb(h, job, p, a, x);
      AbsorbKeepsInv(h, job, p, a, x);
      if s.verdict.More? {
        c := AcceptedLoop(h, job, s.p, s.a, inbox[1..]);
      } else {
        c := x;
      }
    case _ =>
  }

  lemma AppendsChunk(p: Progress, data: Bytes, before: Bytes)
    requires p.dest.kind.Stream? && p.dest.content == before + p.hashed && Fits(p.dest, data)
    ensures Written(p.dest, data).kind.Stream? && Written(p.dest, data).content == before + (p.hashed + data)
  {
    assert data[..|data|] == data;
  }

  /** A plain writer has taken exactly what was hashed. */
  lemma {:induction false} LoopAppends(h: HashFn, job: Job, p: Progress, a: Account, inbox: seq<Msg>, before: Bytes)
    requires p.dest.kind.Stream? && p.dest.content == before + p.hashed
    requires Loop(h, job, p, a, inbox).verdict.Accepted?
    ensures var q := Loop(h, job, p, a, inbox).p; q.dest.kind.Stream? && q.dest.content == before + q.hashed
    decreases |inbox|
  {
    hide Credited; hide CreditError; hide ChunkError; hide FinalError;
    match inbox[0]
    case Heartbeat => LoopAppends(h, job, p, a, inbox[1..], before);
    case DataMsg(c) =>
      var s := Absorb(h, job, p, a, c);
      if Fits(p.dest, c.data) { AppendsChunk(p, c.data, before); }
      if s.verdict.More? { LoopAppends(h, job, s.p, s.a, inbox[1..], before); }
    case _ =>
  }

  /** The last chunk of every stream in the channel carries the digest of `payload`. */
  ghost predicate AuthenticDigests(h: HashFn, payload: Bytes, inbox: seq<Msg>) {
    forall c | DataMsg(c) in inbox && c.final :: c.sha == Some(h(payload))
  }

  /** The declared metadata of an attempt that got as far as its first message. */
  function Declared(s: Setup): Option<DropSend> {
    match Next(s.inbox).0
    case Some(SendMsg(m)) => Some(m)
    case _ => None
  }

  lemma {:induction false} NextIsInInbox(inbox: seq<Msg>)
    requires Next(inbox).0.Some?
    ensures Next(inbox).0.value in inbox
    decreases |inbox|
  {
    if inbox[0].Heartbeat? { NextIsInInbox(inbox[1..]); }
  }

  lemma {:induction false} NextKeepsMessages(inbox: seq<Msg>, m: Msg)
    requires m in Next(inbox).1
    ensures m in inbox
    decreases |inbox|
  {
    if inbox[0].Heartbeat? { NextKeepsMessages(inbox[1..], m); }
  }

  /**
   * What publication implies, whatever the channel did to the chunks: the
   * destination starts with bytes that hash like the payload, and is no longer
   * than these bytes and what it held before.
   */
  lemma PublishedPrefix(h: HashFn, s: Setup, payload: Bytes) returns (hashed: Bytes)
    requires Receive(h, s).published && s.dest.Some? && s.dest.value.kind.Seekable?
    requires AuthenticDigests(h, payload, s.inbox)
    ensures var r := Receive(h, s);
            && Declared(s).Some? && r.dest.Some? && h(hashed) == h(payload)
            && |hashed| <= |r.dest.value.content| == Max(|s.dest.value.content|, |hashed|)
            && r.dest.value.content[..|hashed|] == hashed
            && (Declared(s).value.size > 0 ==> |r.dest.value.content| == |hashed| == Declared(s).value.size)
  {
    var (first, rest) := Next(s.inbox);
    var m := first.value.send;
    var d := s.dest.value;
    var found := Lookup(s.ledger, m.key);
    assert found.None?;
    var job := NewJob(s.cfg, m, found);
    var a := OpenAccount(s.quota, s.peer, m.size);
    var k := AckOffset(s.cfg, job, d);
    StartSatisfiesInv(s.cfg, m, found, d);
    var st := Loop(h, job, Start(job, k, d), a, rest);
    var c := AcceptedLoop(h, job, Start(job, k, d), a, rest);
    NextKeepsMessages(s.inbox, DataMsg(c));
    hashed := st.p.hashed;
  }

  /**
   * End-to-end safety for a declared size: a published destination is the
   * payload, whatever it held before, whatever was resumed and whatever the
   * channel did to the chunks, unless the two exhibit a digest collision.
   */
  lemma EndToEndSafety(h: HashFn, s: Setup, payload: Bytes)
    requires Receive(h, s).published && s.dest.Some? && s.dest.value.kind.Seekable?
    requires AuthenticDigests(h, payload, s.inbox)
    requires Declared(s).Some? && Declared(s).value.size > 0
    ensures var r := Receive(h, s);
            && r.dest.Some? && |r.dest.value.content| == Declared(s).value.size
            && (r.dest.value.content == payload || Collision(h, r.dest.value.content, payload))
  {
    var hashed := PublishedPrefix(h, s, payload);
    var content := Receive(h, s).dest.value.content;
    assert content == content[..|hashed|];
  }

  /**
   * The same for a plain writer, of a declared or an unknown size: a publication
   * has appended the payload to it, or bytes that collide with the payload.
   */
  lemma StreamSafety(h: HashFn, s: Setup, payload: Bytes) returns (hashed: Bytes)
    requires Receive(h, s).published && s.dest.Some? && s.dest.value.kind.Stream?
    requires AuthenticDigests(h, payload, s.inbox)
    ensures var r := Receive(h, s);
            && r.dest.Some? && r.dest.value.content == s.dest.value.content + hashed
            && (hashed == payload || Collision(h, hashed, payload))
  {
    hide ChunkError; hide FinalError; hide Absorb;
    var (first, rest) := Next(s.inbox);
    var m := first.value.send;
    var d := s.dest.value;
    var job := NewJob(s.cfg, m, None);
    var a := OpenAccount(s.quota, s.peer, m.size);
    var k := AckOffset(s.cfg, job, d);
    StartSatisfiesInv(s.cfg, m, None, d);
    var p := Start(job, k, d);
    assert d.content == d.content + [];
    LoopAppends(h, job, p, a, rest, d.content);
    var c := AcceptedLoop(h, job, p, a, rest);
    NextKeepsMessages(s.inbox, DataMsg(c));
    hashed := Loop(h, job, p, a, rest).p.hashed;
  }

  /**
   * Without a declared size the whole destination is the payload exactly when it
   * was not longer than the payload before: a stale tail is not noticed. The one
   * other possibility is that what was written collides with the payload.
   */
  lemma UndeclaredSizeSafeIff(h: HashFn, s: Setup, payload: Bytes) returns (hashed: Bytes)
    requires Receive(h, s).published && s.dest.Some? && s.dest.value.kind.Seekable?
    requires AuthenticDigests(h, payload, s.inbox)
    requires Declared(s).Some? && Declared(s).value.size == 0
    ensures var r := Receive(h, s);
            && r.dest.Some? && hashed <= r.dest.value.content
            && (|| Collision(h, hashed, payload)
                || (r.dest.value.content == payload <==> |s.dest.value.content| <= |payload|))
  {
    hashed := PublishedPrefix(h, s, payload);
    var content := Receive(h, s).dest.value.content;
    if hashed == payload && |s.dest.value.content| <= |payload| { assert content == content[..|hashed|]; }
  }

  /** A stale tail does survive: a three-byte file receives a one-byte transfer of unknown size. */
  lemma StaleTailSurvives()
    ensures var h: HashFn := x => x;
            var meta := DropSend("d", FileDrop, "", 0, "", 1, None, "", "", true);
            var s := Setup(Config(0, 0, 0), [SendMsg(meta), DataMsg(DropData("d", 0, [7], true, Some([7])))], 2,
                           Some(Dest(Seekable, [1, 2, 3], 0, 9)), None, "", None, Delivers);
            Receive(h, s).published && Receive(h, s).dest == Some(Dest(Seekable, [7, 2, 3], 1, 8))
  {
    var h: HashFn := x => x;
    var meta := DropSend("d", FileDrop, "", 0, "", 1, None, "", "", true);
    var c := DropData("d", 0, [7], true, Some([7]));
    var d := Dest(Seekable, [1, 2, 3], 0, 9);
    var s := Setup(Config(0, 0, 0), [SendMsg(meta), DataMsg(c)], 2, Some(d), None, "", None, Delivers);
    assert s.inbox[1..] == [DataMsg(c)] && s.inbox[1..][0] == DataMsg(c);
    var job := NewJob(s.cfg, meta, None);
    var p := Start(job, 0, d);
    assert p == Progress(0, 0, [], d);
    assert Written(d, c.data) == Dest(Seekable, [7, 2, 3], 1, 8);
    assert p.hashed + c.data == [7];
    assert Absorb(h, job, p, Unmetered, c)
             == State(Accepted, Progress(1, 1, [7], Dest(Seekable, [7, 2, 3], 1, 8)), Unmetered);
    assert Loop(h, job, p, Unmetered, [DataMsg(c)]) == Absorb(h, job, p, Unmetered, c);
    assert Next(s.inbox) == (Some(SendMsg(meta)), [DataMsg(c)]);
  }

  // ----- loss, repetition, reordering

  /** Only the sender's own stream, complete and in order, is ever accepted out of its chunks. */
  lemma OnlyTheWholeStream(h: HashFn, job: Job, p: Progress, a: Account, ds: seq<DropData>,
                           cs: seq<DropData>, digest: Digest, data: Bytes)
    requires Shape(cs, digest, job.dropId, data, p.index, job.chunk)
    requires Acceptable(h, job, p, a, ds)
    requires forall c | c in ds :: c in cs
    ensures ds == cs
  {
    forall i | 0 <= i < |ds| ensures i < |cs| && ds[i] == cs[i] {
      assert ds[i] in cs;
      var j :| 0 <= j < |cs| && cs[j] == ds[i];
      assert j == i;
    }
    assert ds[|ds| - 1].final;
  }

  /**
   * Any loss, repetition or reordering of the sender's chunks fails: if the
   * receiver accepts a channel that carries only this sender's chunks, then it
   * read exactly the whole stream, in order.
   */
  lemma DamagedStreamsFail(h: HashFn, job: Job, p: Progress, a: Account, inbox: seq<Msg>, body: Bytes, k: nat)
    returns (n: nat)
    requires job.chunk > 0 && k <= |body| && p.index == k / job.chunk
    requires forall c | c in Chunks(inbox) :: c in Outgoing(h, job.dropId, body, k, job.chunk).chunks
    requires Loop(h, job, p, a, inbox).verdict.Accepted?
    ensures n <= |Chunks(inbox)| && Chunks(inbox)[..n] == Outgoing(h, job.dropId, body, k, job.chunk).chunks
  {
    AcceptsIff(h, job, p, a, inbox);
    n :| 0 < n <= |Chunks(inbox)| && Acceptable(h, job, p, a, Chunks(inbox)[..n]);
    EmitShape(h(body), job.dropId, body[k..], k / job.chunk, k, job.chunk);
    OnlyTheWholeStream(h, job, p, a, Chunks(inbox)[..n], Outgoing(h, job.dropId, body, k, job.chunk).chunks,
        h(body), body[k..]);
  }

  // ----- completeness

  /**
   * What a transfer needs to go through: valid metadata within the limits, the
   * right declared size (or none), a destination already holding the payload's
   * first k bytes, quota, room, a working publication and a live channel. A
   * duplicate needs the recorded digest instead of a destination.
   */
  ghost predicate Compatible(h: HashFn, s: Setup, m: DropSend, payload: Bytes) {
    var found := Lookup(s.ledger, m.key);
    var job := NewJob(s.cfg, m, found);
    var d := if found.Some? then DISCARD else if s.dest.Some? then s.dest.value else DISCARD;
    var k := AckOffset(s.cfg, job, d);
    var a := OpenAccount(s.quota, s.peer, m.size);
    && m.dropId != "" && m.chunkSize > 0 && s.sends >= 2 && s.hook.Delivers?
    && MetaError(s.cfg, m, found).None?
    && (s.quota.Some? ==> AcquireError(s.quota.value, s.peer, m.size).None?)
    && (found.None? ==> s.dest.Some?)
    && (found.Some? ==> found.value.sha == h(payload))
    && DestError(s.cfg, job, d).None? && ResumeError(job, k, d).None?
    && 0 <= k <= |payload| && (k > 0 ==> d.content[..k] == payload[..k])
    && (m.size == 0 || m.size == |payload|)
    && WithinDeclaredLimits(job, |payload|)
    && HasCapacity(Start(job, k, d), a, |payload| - k)
  }

  /** The offset at which a compatible transfer starts. */
  ghost function StartOffset(s: Setup, m: DropSend): int {
    var found := Lookup(s.ledger, m.key);
    var d := if found.Some? then DISCARD else if s.dest.Some? then s.dest.value else DISCARD;
    AckOffset(s.cfg, NewJob(s.cfg, m, found), d)
  }

  // ----- what a transfer needs, from its configuration

  /**
   * The configured limits allow `n` bytes: 0 stands for 5 GiB and, for a text, 10
   * MiB; a negative limit is none. The text limit is for texts only.
   */
  ghost predicate Allowed(cfg: Config, kind: DropKind, n: int) {
    && (cfg.maxSize == 0 ==> n <= 5_368_709_120)
    && (cfg.maxSize > 0 ==> n <= cfg.maxSize)
    && (kind == TextDrop && cfg.maxTextSize == 0 ==> n <= 10_485_760)
    && (kind == TextDrop && cfg.maxTextSize > 0 ==> n <= cfg.maxTextSize)
  }

  /** The ledger has a record under the transfer's key. */
  ghost predicate HasRecord(s: Setup, m: DropSend) {
    m.key != "" && s.ledger.Some? && m.key in s.ledger.value
  }

  /** The record is of the same metadata. */
  ghost predicate IsRecordOf(e: Entry, m: DropSend) {
    && e.kind == m.kind && e.name == m.name && e.size == m.size && e.mimeType == m.mimeType
    && e.chunkSize == m.chunkSize && e.headHash == m.headHash
  }

  /**
   * The destination continues at `k`, the explicit offset or else its position, on
   * a chunk border; it holds the payload up to there, is no longer than a declared
   * size and takes the rest.
   */
  ghost predicate Continues(d: Dest, received: int, m: DropSend, payload: Bytes, k: nat) {
    && m.chunkSize > 0 && k == (if received > 0 then received else if d.kind.Seekable? then d.pos else 0)
    && k <= |payload| && k % m.chunkSize == 0
    && (k > 0 ==> d.kind.Seekable? && k <= |d.content| && d.content[..k] == payload[..k])
    && (m.size > 0 && d.kind.Seekable? ==> |d.content| <= m.size)
    && (!d.kind.Discard? ==> |payload| - k <= d.room)
  }

  /** The quota admits the transfer, and one of unknown size may also grow by the `more` bytes it receives. */
  ghost predicate QuotaTakes(q: Quota, rawPeer: string, size: int, more: nat) {
    exists peer, n ::
      && IsPeerKey(rawPeer, peer) && IsFirstReservation(q.limits, size, n) && HasRoom(q, peer, 1, n)
      && (size == 0 && more > 0 ==> HasRoom(q, peer, 1, n + more))
  }

  /** Everything a transfer of `payload` that starts at byte `k` depends on. */
  ghost predicate Ready(h: HashFn, s: Setup, m: DropSend, payload: Bytes, k: nat) {
    && Admitted(m) && m.dropId != "" && m.chunkSize > 0 && (m.size == 0 || m.size == |payload|)
    && s.sends >= 2 && s.hook.Delivers?
    && Allowed(s.cfg, m.kind, |payload|)
    && 0 <= s.cfg.receivedBytes && (m.size > 0 ==> s.cfg.receivedBytes <= m.size)
    && (if HasRecord(s, m)
        then var e := s.ledger.value[m.key]; IsRecordOf(e, m) && e.sha == h(payload) && k == 0
        else s.dest.Some? && Continues(s.dest.value, s.cfg.receivedBytes, m, payload, k))
    && (s.quota.Some? ==> QuotaTakes(s.quota.value, s.peer, m.size, |payload| - k))
  }

  lemma LimitsAre(cfg: Config, m: DropSend, found: Option<Entry>, n: nat)
    ensures m.size == 0 || m.size == n ==>
              (WithinDeclaredLimits(NewJob(cfg, m, found), n) <==> Allowed(cfg, m.kind, n))
  {
  }

  lemma MetadataPasses(cfg: Config, m: DropSend, found: Option<Entry>, n: nat)
    requires m.chunkSize > 0 && (m.size == 0 || m.size == n) && Allowed(cfg, m.kind, n)
    ensures MetaError(cfg, m, found).None? <==>
              && Admitted(m) && 0 <= cfg.receivedBytes && (m.size > 0 ==> cfg.receivedBytes <= m.size)
              && (found.Some? ==> IsRecordOf(found.value, m))
  {
    hide ValidMetadata; hide Admitted;
    MetadataIsValidIff(m);
  }

  lemma RecordIsFound(s: Setup, m: DropSend)
    requires Admitted(m)
    ensures Lookup(s.ledger, m.key) == if HasRecord(s, m) then Some(s.ledger.value[m.key]) else None
  {
    MetadataIsValidIff(m);
    if m.key != "" { ValidKeyIsNotBlank(m.key); }
  }

  lemma DestinationPasses(cfg: Config, m: DropSend, d: Dest, payload: Bytes, k: nat)
    requires m.chunkSize > 0 && (m.size == 0 || m.size == |payload|)
    requires 0 <= cfg.receivedBytes && (m.size > 0 ==> cfg.receivedBytes <= m.size)
    ensures var job := NewJob(cfg, m, None);
            Continues(d, cfg.receivedBytes, m, payload, k) <==>
              && k == AckOffset(cfg, job, d) && k <= |payload|
              && DestError(cfg, job, d).None? && ResumeError(job, k, d).None?
              && (k > 0 ==> d.content[..k] == payload[..k])
              && (d.kind.Discard? || |payload| - k <= d.room)
  {
    assert 0 % m.chunkSize == 0;
  }

  lemma DuplicatePasses(cfg: Config, m: DropSend, e: Entry)
    requires 0 <= cfg.receivedBytes && (m.size > 0 ==> cfg.receivedBytes <= m.size)
    ensures var job := NewJob(cfg, m, Some(e));
            && AckOffset(cfg, job, DISCARD) == 0 && DestError(cfg, job, DISCARD).None?
            && ResumeError(job, 0, DISCARD).None?
  {
  }

  lemma QuotaPasses(q: Quota, rawPeer: string, size: int, more: nat)
    requires size >= 0
    ensures var a := OpenAccount(Some(q), rawPeer, size);
            QuotaTakes(q, rawPeer, size, more) <==>
              AcquireError(q, rawPeer, size).None? && CreditError(a, more).None?
  {
    var peer, n := NormalizePeer(rawPeer), Reservation(q.limits, size);
    AdmissionTerms(q.limits, rawPeer, size);
    AdmittedIff(q, rawPeer, size, peer, n);
    var charged := Acquired(q, rawPeer, size);
    GrowsIff(charged, NewLease(q.limits, rawPeer, size), more);
    assert HasRoom(q, peer, 1, n) ==>
        (HasRoom(q, peer, 1, n + more) <==>
           HasRoom(charged.(limits := Quotas.Limits(0, q.limits.maxBytes, 0, q.limits.maxPeerBytes)), peer, 0, more));
    if QuotaTakes(q, rawPeer, size, more) {
      var p, x :| && IsPeerKey(rawPeer, p) && IsFirstReservation(q.limits, size, x) && HasRoom(q, p, 1, x)
                  && (size == 0 && more > 0 ==> HasRoom(q, p, 1, x + more));
      assert p == peer && x == n;
    }
  }

  /** Compatible is exactly this, at the offset at which the transfer starts. */
  lemma CompatibleIff(h: HashFn, s: Setup, m: DropSend, payload: Bytes, k: nat)
    ensures Ready(h, s, m, payload, k) <==> Compatible(h, s, m, payload) && k == StartOffset(s, m)
  {
    hide MetaError; hide DestError; hide ResumeError; hide WithinDeclaredLimits; hide AcquireError; hide QuotaTakes;
    hide Allowed; hide Continues; hide Admitted; hide AckOffset; hide IsRecordOf; hide Lookup;
    var found := Lookup(s.ledger, m.key);
    LimitsAre(s.cfg, m, found, |payload|);
    if m.chunkSize > 0 && (m.size == 0 || m.size == |payload|) && Allowed(s.cfg, m.kind, |payload|) {
      MetadataPasses(s.cfg, m, found, |payload|);
      if Admitted(m) { RecordIsFound(s, m); }
      if MetaError(s.cfg, m, found).None? {
        if found.Some? { DuplicatePasses(s.cfg, m, found.value); }
        if s.dest.Some? { DestinationPasses(s.cfg, m, s.dest.value, payload, k); }
        if s.quota.Some? && k <= |payload| { QuotaPasses(s.quota.value, s.peer, m.size, |payload| - k); }
      }
    }
  }

  lemma CompatibleMetadata(h: HashFn, s: Setup, m: DropSend, payload: Bytes)
    requires Compatible(h, s, m, payload)
    ensures ValidMetadata(m) && 0 <= StartOffset(s, m) <= |payload| && StartOffset(s, m) % m.chunkSize == 0
  {
    assert 0 % m.chunkSize == 0;
  }

  lemma {:induction false} ChunksOfDataMsgs(cs: seq<DropData>)
    ensures Chunks(DataMsgs(cs)) == cs
  {
    if cs == [] {
    } else {
      assert DataMsgs(cs)[1..] == DataMsgs(cs[1..]);
      ChunksOfDataMsgs(cs[1..]);
    }
  }

  /** The receiver's loop takes the sender's whole stream. */
  lemma LoopTakesStream(h: HashFn, job: Job, p: Progress, a: Account, payload: Bytes, k: nat)
    requires LoopInv(job, p) && p.total == k <= |payload| && p.hashed == payload[..k] && p.index == k / job.chunk
    requires WithinDeclaredLimits(job, |payload|) && HasCapacity(p, a, |payload| - k)
    requires job.recorded.Some? ==> h(payload) == job.recorded.value
    ensures var st := Loop(h, job, p, a, DataMsgs(Outgoing(h, job.dropId, payload, k, job.chunk).chunks));
            st.verdict.Accepted? && st.p.hashed == payload
  {
    var cs := Outgoing(h, job.dropId, payload, k, job.chunk).chunks;
    EmitShape(h(payload), job.dropId, payload[k..], k / job.chunk, k, job.chunk);
    assert payload[..k] + payload[k..] == payload;
    assert cs[..|cs|] == cs;
    assert Acceptable(h, job, p, a, cs);
    AcceptablePrefixIsAccepted(h, job, p, a, cs, |cs|);
    ChunksOfDataMsgs(cs);
    HeartbeatsDoNotMatter(h, job, p, a, DataMsgs(cs));
  }

  /** The receiver's half of a compatible exchange. */
  lemma ReceiverCompletes(h: HashFn, s: Setup, m: DropSend, payload: Bytes)
    requires Compatible(h, s, m, payload)
    ensures var k := StartOffset(s, m);
            var chunks := Outgoing(h, m.dropId, payload, k, m.chunkSize).chunks;
            var r := Receive(h, s.(inbox := [SendMsg(m)] + DataMsgs(chunks)));
            var dup := Lookup(s.ledger, m.key).Some?;
            && r.result == Ok(Receipt(|payload|, h(payload), dup))
            && r.published == !dup
            && r.replies == [AckMsg(DropAck(m.dropId, true, k)),
                 CompleteMsg(DropComplete(m.dropId, true, |payload|, Some(h(payload)), dup))]
  {
    hide Loop; hide Outgoing; hide LoopInv; hide MetaError; hide AcquireError; hide DestError; hide ResumeError;
    hide WithinDeclaredLimits; hide HasCapacity; hide Released; hide AckOffset;
    var k := StartOffset(s, m);
    var found := Lookup(s.ledger, m.key);
    var d := if found.Some? then DISCARD else s.dest.value;
    var job := NewJob(s.cfg, m, found);
    var a := OpenAccount(s.quota, s.peer, m.size);
    var data := DataMsgs(Outgoing(h, m.dropId, payload, k, m.chunkSize).chunks);
    assert ([SendMsg(m)] + data)[1..] == data;
    StartSatisfiesInv(s.cfg, m, found, d);
    var p := Start(job, k, d);
    LoopTakesStream(h, job, p, a, payload, k);
    var c := AcceptedLoop(h, job, p, a, data);
  }

  lemma OutgoingReports(h: HashFn, id: string, body: Bytes, k: nat, c: int)
    requires c > 0 && k <= |body|
    ensures var out := Outgoing(h, id, body, k, c);
            |out.reports| <= |out.chunks| && Climbs(out.reports, k, |body|)
  {
    EmitClimbs(h(body), id, body[k..], k / c, k, c);
    EmitExtends(NOTHING, h(body), id, body[k..], k / c, k, c);
  }

  /** The sender's half: acknowledged at offset k and told of success, it has sent everything. */
  lemma SenderCompletes(h: HashFn, m: DropSend, payload: Bytes, k: nat, dup: bool)
    requires m.dropId != "" && m.chunkSize > 0 && ValidMetadata(m)
    requires k <= |payload| && k % m.chunkSize == 0 && (m.size == 0 || m.size == |payload|)
    ensures var done := DropComplete(m.dropId, true, |payload|, Some(h(payload)), dup);
            var chunks := Outgoing(h, m.dropId, payload, k, m.chunkSize).chunks;
            var t := Send(h, m, "", payload, payload, true,
                  [AckMsg(DropAck(m.dropId, true, k)), CompleteMsg(done)], |chunks| + 1);
            && t.result == Ok(done)
            && t.outbox == [SendMsg(m)] + DataMsgs(chunks)
            && Climbs(t.progress, k, |payload|)
  {
    hide Outgoing; hide Climbs;
    var out := Outgoing(h, m.dropId, payload, k, m.chunkSize);
    var comp := CompleteMsg(DropComplete(m.dropId, true, |payload|, Some(h(payload)), dup));
    OutgoingReports(h, m.dropId, payload, k, m.chunkSize);
    assert out.chunks[..|out.chunks|] == out.chunks && out.reports[..|out.reports|] == out.reports;
    assert [AckMsg(DropAck(m.dropId, true, k)), comp][1..] == [comp];
    assert Normalized(m, "") == m;
  }

  lemma SentAlike(h: HashFn, m0: DropSend, freshId: string, m: DropSend, payload: Bytes, inbox: seq<Msg>, sends: nat)
    requires IsSentAs(m0, freshId, m) && m.dropId != "" && m.chunkSize > 0
    ensures Send(h, m0, freshId, payload, payload, true, inbox, sends)
         == Send(h, m, "", payload, payload, true, inbox, sends)
  {
    assert Normalized(m0, freshId) == m == Normalized(m, "");
  }

  /**
   * Protocol completeness: no receiver check rejects a transfer for which
   * everything is ready, both sides end in success, and the reported progress
   * climbs strictly from the offset to the payload length.
   */
  lemma Completeness(h: HashFn, s: Setup, m0: DropSend, freshId: string, m: DropSend, payload: Bytes, k: nat)
    requires IsSentAs(m0, freshId, m) && Ready(h, s, m, payload, k)
    ensures var toReceiver := [SendMsg(m)] + DataMsgs(Outgoing(h, m.dropId, payload, k, m.chunkSize).chunks);
            var r := Receive(h, s.(inbox := toReceiver));
            var t := Send(h, m0, freshId, payload, payload, true, r.replies, |toReceiver|);
            var dup := HasRecord(s, m);
            && r.result == Ok(Receipt(|payload|, h(payload), dup)) && r.published == !dup
            && r.replies == [AckMsg(DropAck(m.dropId, true, k)),
                 CompleteMsg(DropComplete(m.dropId, true, |payload|, Some(h(payload)), dup))]
            && t.result == Ok(DropComplete(m.dropId, true, |payload|, Some(h(payload)), dup))
            && t.outbox == toReceiver
            && Climbs(t.progress, k, |payload|)
  {
    hide Receive; hide Send; hide Outgoing; hide Compatible; hide StartOffset; hide Lookup; hide Continues;
    hide Allowed; hide QuotaTakes; hide Admitted;
    CompatibleIff(h, s, m, payload, k);
    RecordIsFound(s, m);
    CompatibleMetadata(h, s, m, payload);
    ReceiverCompletes(h, s, m, payload);
    SenderCompletes(h, m, payload, k, HasRecord(s, m));
    var out := Outgoing(h, m.dropId, payload, k, m.chunkSize);
    SentAlike(h, m0, freshId, m, payload, [AckMsg(DropAck(m.dropId, true, k)),
        CompleteMsg(DropComplete(m.dropId, true, |payload|, Some(h(payload)), HasRecord(s, m)))], |out.chunks| + 1);
  }

  // ----- what an accepted transfer kept to

  lemma {:induction false} AcceptedWithinLimits(h: HashFn, job: Job, p: Progress, a: Account, inbox: seq<Msg>)
    requires Loop(h, job, p, a, inbox).verdict.Accepted?
    ensures WithinDeclaredLimits(job, Loop(h, job, p, a, inbox).p.total)
    decreases |inbox|
  {
    hide Credited; hide CreditError; hide Written; hide Fits;
    match inbox[0]
    case Heartbeat => AcceptedWithinLimits(h, job, p, a, inbox[1..]);
    case DataMsg(c) =>
      var s := Absorb(h, job, p, a, c);
      if s.verdict.More? { AcceptedWithinLimits(h, job, s.p, s.a, inbox[1..]); }
    case _ =>
  }

  lemma TransferWithinLimits(h: HashFn, m: DropSend, job: Job, s: Setup, d: Dest, a: Account, rest: seq<Msg>)
    requires job.chunk > 0 && Transfer(h, m, job, s, d, a, rest).result.Ok?
    ensures WithinDeclaredLimits(job, Transfer(h, m, job, s, d, a, rest).result.value.bytes)
  {
    hide Loop; hide WithinDeclaredLimits;
    AcceptedWithinLimits(h, job, Start(job, AckOffset(s.cfg, job, d), d), a, rest);
  }

  /**
   * The converse for every channel: whatever a receiver accepts was described by
   * admitted metadata, has the declared size if there is one, and is within the
   * limits of its configuration.
   */
  lemma AcceptedIsAllowed(h: HashFn, s: Setup)
    requires Receive(h, s).result.Ok?
    ensures Declared(s).Some?
    ensures var m, n := Declared(s).value, Receive(h, s).result.value.bytes;
            && Admitted(m) && (m.size > 0 ==> n == m.size) && (n >= 0 ==> Allowed(s.cfg, m.kind, n))
            && 0 <= s.cfg.receivedBytes && (m.size > 0 ==> s.cfg.receivedBytes <= m.size)
  {
    hide Transfer; hide AcquireError; hide OpenAccount; hide ClosedQuota; hide ValidMetadata; hide Admitted;
    hide Matches;
    var (first, rest) := Next(s.inbox);
    var m := first.value.send;
    var found := Lookup(s.ledger, m.key);
    var d := if found.Some? || s.dest.None? then DISCARD else s.dest.value;
    MetadataIsValidIff(m);
    TransferWithinLimits(h, m, NewJob(s.cfg, m, found), s, d, OpenAccount(s.quota, s.peer, m.size), rest);
  }
}
