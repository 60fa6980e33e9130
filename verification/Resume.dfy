/** The resume rule (internal/drop/resume.go), the staging slot (internal/hub/hub.go) and what survives a crash. */
module Resume {
  import opened Common
  import opened Protocol
  import opened Channel
  import opened Files
  import opened Quotas
  import opened Ledger
  import opened Receiver
  import opened Reception
  import opened Sender
  import opened Transfers

  const HEAD_HASH_SIZE: int := 64 * 1024

  /** How much of a partial with this content and size may be resumed. */
  function ResumePrefix(h: HashFn, content: Bytes, partSize: nat, m: DropSend): (k: int) {
    var c := NegotiatedChunk(m);
    var valid := partSize / c * c;
    if m.size <= 0 || valid <= 0 || valid >= m.size || m.headHash.None? then 0
    else if valid < HEAD_HASH_SIZE then valid
    else if |content| < HEAD_HASH_SIZE || h(content[..HEAD_HASH_SIZE]) != m.headHash.value then 0
    else valid
  }

  /** The bytes of the whole chunks among the first `n`; a chunk size of 0 selects 1 MiB. */
  ghost function WholeChunkBytes(n: nat, m: DropSend): int {
    n - n % if m.chunkSize > 0 then m.chunkSize else 0x10_0000
  }

  /**
   * What the rule promises: there is a head digest, the whole chunks are some but
   * not all of the declared size, and they are below 64 KiB or the first 64 KiB
   * of the partial have that digest.
   */
  ghost predicate MayResume(h: HashFn, content: Bytes, partSize: nat, m: DropSend) {
    var whole := WholeChunkBytes(partSize, m);
    && m.headHash.Some? && 0 < whole < m.size
    && (whole < 65536 || (|content| >= 65536 && h(content[..65536]) == m.headHash.value))
  }

  lemma WholeChunksAre(n: nat, m: DropSend)
    ensures NegotiatedChunk(m) > 0 && n / NegotiatedChunk(m) * NegotiatedChunk(m) == WholeChunkBytes(n, m)
    ensures 0 <= WholeChunkBytes(n, m) <= n
  {
    var c := NegotiatedChunk(m);
    assert n == n / c * c + n % c;
  }

  /** A partial is resumed exactly if the rule allows it, and then at the end of its whole chunks. */
  lemma ResumesIff(h: HashFn, content: Bytes, partSize: nat, m: DropSend)
    ensures var k := ResumePrefix(h, content, partSize, m);
            k == if MayResume(h, content, partSize, m) then WholeChunkBytes(partSize, m) else 0
    ensures MayResume(h, content, partSize, m) ==> 0 < WholeChunkBytes(partSize, m) <= partSize
  {
    WholeChunksAre(partSize, m);
  }

  /** Whether the rule looks at the head at all; if it does, the reader's position moves. */
  predicate ReadsHead(partSize: nat, m: DropSend) {
    var valid := partSize / NegotiatedChunk(m) * NegotiatedChunk(m);
    HEAD_HASH_SIZE <= valid < m.size && m.headHash.Some?
  }

  /** Where the reader stands after the decision. */
  function PositionAfter(pos: nat, length: nat, partSize: nat, m: DropSend): nat {
    if ReadsHead(partSize, m) then Min(HEAD_HASH_SIZE, length) else pos
  }

  /** ResumePrefix on an open partial. Its position is not always restored. */
  method DecideResume(h: HashFn, f: Destination, partSize: nat, m: DropSend) returns (k: nat)
    requires f.kind.Seekable?
    modifies f
    ensures k == ResumePrefix(h, f.content, partSize, m)
    ensures k > 0 <==> MayResume(h, f.content, partSize, m)
    ensures k > 0 ==> k == WholeChunkBytes(partSize, m)
    ensures f.View() == old(f.View()).(pos := PositionAfter(old(f.pos), |f.content|, partSize, m))
  {
    ResumesIff(h, f.content, partSize, m);
    var c := NegotiatedChunk(m);
    var valid := partSize / c * c;
    if m.size <= 0 || valid <= 0 || valid >= m.size || m.headHash.None? { return 0; }
    if valid < HEAD_HASH_SIZE { return valid; }
    f.Seek(0);
    var head := f.Read(HEAD_HASH_SIZE);
    if |head| < HEAD_HASH_SIZE { return 0; }
    if h(head) != m.headHash.value { return 0; }
    return valid;
  }

  /**
   * The position survives exactly if the head is not compared or the reader was
   * already behind it, and is behind it otherwise; a partial of one 64 KiB chunk is
   * the smallest case where it does not.
   */
  lemma PositionRestoredIff(pos: nat, length: nat, partSize: nat, m: DropSend)
    ensures var whole := WholeChunkBytes(partSize, m);
            var head := if length < 65536 then length else 65536;
            var after := PositionAfter(pos, length, partSize, m);
            && (after == pos <==> !(m.headHash.Some? && 65536 <= whole < m.size) || pos == head)
            && (after == pos || after == head)
    ensures var moved := DropSend("d", FileDrop, "", 0x2_0000, "", 0x1_0000, Some(Zeros(DIGEST_SIZE)), "", "", true);
            PositionAfter(0, 0x1_0000, 0x1_0000, moved) == 0x1_0000
  {
    WholeChunksAre(partSize, m);
    assert 0x1_0000 / 0x1_0000 * 0x1_0000 == 0x1_0000;
  }

  lemma RemainderOfMultiple(q: int, p: int, r: int, c: int)
    requires 0 <= r < c && q * c == p * c + r
    ensures r == 0
  {
    var d := q - p;
    assert d * c == r;
    assert d >= 1 ==> d * c >= c;
    assert d <= -1 ==> d * c <= -c;
  }

  lemma MultipleHasNoRemainder(q: int, c: int)
    requires c > 0
    ensures q * c % c == 0
  {
    RemainderOfMultiple(q, q * c / c, q * c % c, c);
  }

  /** The offset is chunk-aligned, within the partial and within the declared size. */
  lemma ResumePrefixIsAligned(h: HashFn, content: Bytes, m: DropSend)
    ensures var k := ResumePrefix(h, content, |content|, m);
            0 <= k <= |content| && k % NegotiatedChunk(m) == 0 && (m.size > 0 ==> k <= m.size)
  {
    var c := NegotiatedChunk(m);
    var q := |content| / c;
    MultipleHasNoRemainder(q, c);
    MultipleHasNoRemainder(0, c);
    assert |content| == q * c + |content| % c;
  }

  // ----- the staging slot of one drop

  datatype Manifest = Manifest(dropId: string, kind: DropKind, name: string, size: int, mimeType: string,
                               chunkSize: int, headHash: Option<Digest>)

  function NewManifest(m: DropSend): Manifest {
    Manifest(m.dropId, m.kind, m.name, m.size, m.mimeType, NegotiatedChunk(m), m.headHash)
  }

  /** The sidecar describes the same transfer. */
  predicate ManifestMatches(x: Manifest, m: DropSend) {
    && x.dropId == m.dropId && x.kind == m.kind && x.name == m.name && x.size == m.size
    && x.mimeType == m.mimeType && x.chunkSize == NegotiatedChunk(m) && x.headHash == m.headHash
  }

  /** Both describe one transfer: every recorded field agrees, and so does the chunk size in effect. */
  ghost predicate Describe(a: DropSend, b: DropSend) {
    && a.dropId == b.dropId && a.kind == b.kind && a.name == b.name && a.size == b.size
    && a.mimeType == b.mimeType && a.headHash == b.headHash
    && (|| a.chunkSize == b.chunkSize || (a.chunkSize <= 0 && b.chunkSize <= 0)
        || (a.chunkSize <= 0 && b.chunkSize == 0x10_0000) || (a.chunkSize == 0x10_0000 && b.chunkSize <= 0))
  }

  /** The sidecar written for one attempt is recognised by another exactly if they describe one transfer. */
  lemma SidecarRecognisedIff(a: DropSend, b: DropSend, x: Manifest)
    ensures ManifestMatches(NewManifest(a), b) <==> Describe(a, b)
    ensures ManifestMatches(x, b) <==> x == NewManifest(b)
  {
  }

  /** A partial on disk and its sidecar. */
  datatype Slot = Slot(part: Option<Bytes>, manifest: Option<Manifest>)

  /** What OnMeta hands to the receiver: the kept prefix, or None when the sidecar belongs to another transfer. */
  function Reopened(h: HashFn, slot: Slot, m: DropSend): Option<Bytes> {
    if slot.manifest.Some? && !ManifestMatches(slot.manifest.value, m) then None
    else if slot.manifest.None? || slot.part.None? then Some([])
    else
      var content := slot.part.value;
      var k := ResumePrefix(h, content, |content|, m);
      if 0 < k <= |content| then Some(content[..k]) else Some([])
  }

  /**
   * What a slot is opened as: refused if its sidecar is another one than this
   * transfer's, otherwise with the whole chunks the rule lets it keep, or empty.
   */
  ghost predicate OpensAs(h: HashFn, slot: Slot, m: DropSend, kept: Option<Bytes>) {
    if slot.manifest.Some? && slot.manifest.value != NewManifest(m) then kept.None?
    else if slot.manifest.Some? && slot.part.Some? && MayResume(h, slot.part.value, |slot.part.value|, m)
    then var whole := WholeChunkBytes(|slot.part.value|, m);
         0 < whole <= |slot.part.value| && kept == Some(slot.part.value[..whole])
    else kept == Some([])
  }

  lemma ReopenedIff(h: HashFn, slot: Slot, m: DropSend, kept: Option<Bytes>)
    ensures kept == Reopened(h, slot, m) <==> OpensAs(h, slot, m, kept)
  {
    if slot.manifest.Some? { SidecarRecognisedIff(m, m, slot.manifest.value); }
    if slot.part.Some? { ResumesIff(h, slot.part.value, |slot.part.value|, m); }
  }

  /** The file operation that fails while a slot is opened. */
  datatype OpenFault =
    | NoFault
    | SidecarUnreadable
    | PartUnusable
    | PartVanished
    | TruncateFails
    | SeekFails
    | CreateFails
    | SidecarFails

  /** What opening may leave behind, wherever it fails or the process dies. */
  ghost predicate MayBeLeftByOpen(left: Slot, before: Slot, kept: Option<Bytes>, sidecar: Manifest) {
    && left.part in {before.part, None, Some([]), kept}
    && left.manifest in {before.manifest, None, Some(sidecar)}
    && (kept.None? ==> left == before)
  }

  class StagingSlot {
    var part: Destination?
    var manifest: Option<Manifest>

    ghost function View(): Slot
      reads this, part
    {
      Slot(if part == null then None else Some(part.content), manifest)
    }

    /**
     * The resume branch of OnMeta: reuse, truncate and seek the partial, or start
     * a new one; then write the sidecar. Any of the file operations may fail.
     */
    method Open(h: HashFn, m: DropSend, room: nat, fault: OpenFault) returns (f: Destination?)
      requires part != null ==> part.kind.Seekable?
      modifies this, part
      ensures part != null ==> part.kind.Seekable?
      ensures MayBeLeftByOpen(View(), old(View()), Reopened(h, old(View()), m), NewManifest(m))
      ensures f != null ==>
                && f == part && f.kind.Seekable? && f.pos == |f.content| && manifest == Some(NewManifest(m))
                && (f.content == [] || Reopened(h, old(View()), m) == Some(f.content))
      ensures fault.NoFault? ==>
                var kept := Reopened(h, old(View()), m);
                && (f == null <==> kept.None?)
                && (f == null ==> View() == old(View()))
                && (f != null ==> f.content == kept.value)
      ensures fault.NoFault? ==> OpensAs(h, old(View()), m, if f == null then None else Some(f.content))
      ensures fault.SidecarUnreadable? || fault.PartUnusable? ==> f == null && View() == old(View())
    {
      ReopenedIff(h, View(), m, Reopened(h, View(), m));
      if fault.SidecarUnreadable? { return null; }
      if manifest.Some? && !ManifestMatches(manifest.value, m) { return null; }
      if fault.PartUnusable? { return null; }
      f := null;
      if part != null && manifest.Some? && !fault.PartVanished? {
        ResumePrefixIsAligned(h, part.content, m);
        var k := DecideResume(h, part, |part.content|, m);
        if k > 0 {
          if fault.TruncateFails? { return null; }
          part.Truncate(k);
          if fault.SeekFails? { return null; }
          part.Seek(k);
          f := part;
        }
      }
      var createdNew := f == null;
      if createdNew {
        part := null;
        if fault.CreateFails? { return null; }
        f := new Destination(Seekable, [], 0, room);
        part := f;
      }
      if fault.SidecarFails? {
        if createdNew { part, manifest := null, None; }
        return null;
      }
      manifest := Some(NewManifest(m));
    }
  }

  // ----- attempts, crashes, and what is kept

  /**
   * One attempt at a transfer: the receiver's circumstances other than the
   * destination, and how many bytes the disk still takes before a write comes up
   * short. The channel may end anywhere.
   */
  datatype Attempt = Attempt(setup: Setup, room: nat)

  /** The bytes of a genuine chunk of `payload` lie where its index says. */
  ghost predicate Genuine(c: DropData, payload: Bytes, chunk: int) {
    var at := c.index * chunk;
    c.index >= 0 && chunk > 0 && 0 <= at && at + |c.data| <= |payload| && c.data == payload[at..at + |c.data|]
  }

  ghost predicate IsPrefix(content: Bytes, payload: Bytes) {
    |content| <= |payload| && content == payload[..|content|]
  }

  /** Every chunk the sender emits from an aligned offset is genuine. */
  lemma {:induction false} EmittedIsGenuine(digest: Digest, id: string, payload: Bytes, index: nat, offset: nat,
                                            c: int, x: DropData)
    requires c > 0 && offset == index * c <= |payload|
    requires x in Emit(NOTHING, digest, id, payload[offset..], index, offset, c).chunks
    ensures Genuine(x, payload, c)
    decreases |payload| - offset
  {
    var data := payload[offset..];
    if |data| <= c {
    } else {
      EmitFirst(digest, id, data, index, offset, c);
      assert data[c..] == payload[offset + c..];
      assert (index + 1) * c == index * c + c;
      if x != DropData(id, index, data[..c], false, None) {
        EmittedIsGenuine(digest, id, payload, index + 1, offset + c, c, x);
      }
    }
  }

  /** An honest sender resuming at an aligned offset sends only genuine chunks. */
  lemma SenderIsGenuine(h: HashFn, id: string, payload: Bytes, k: nat, c: int, x: DropData)
    requires c > 0 && k <= |payload| && k % c == 0
    requires x in Outgoing(h, id, payload, k, c).chunks
    ensures Genuine(x, payload, c)
  {
    EmittedIsGenuine(h(payload), id, payload, k / c, k, c, x);
  }

  /** Writing the payload's next bytes behind a prefix of it, in whole or in part. */
  lemma WriteKeepsPrefix(d: Dest, data: Bytes, payload: Bytes)
    requires d.kind.Seekable? && d.pos == |d.content| && IsPrefix(d.content, payload)
    requires d.pos + |data| <= |payload| && data == payload[d.pos..d.pos + |data|]
    ensures var w := Written(d, data);
            && w.kind.Seekable? && IsPrefix(w.content, payload)
            && (Fits(d, data) ==> w.content == d.content + data)
  {
    var n := Min(|data|, d.room);
    OverlayExtendsPrefix(d.content, d.pos, data[..n]);
    assert payload[..d.pos] + payload[d.pos..d.pos + |data|][..n] == payload[..d.pos + n];
    var w := Written(d, data);
    assert w.content == w.content[..d.pos + n];
    assert n == |data| ==> data[..n] == data;
  }

  /** One chunk, written in whole or torn, keeps the file a prefix. */
  lemma AbsorbKeepsPrefix(h: HashFn, job: Job, p: Progress, a: Account, c: DropData, payload: Bytes)
    requires LoopInv(job, p) && p.dest.kind.Seekable? && |p.dest.content| == p.total && IsPrefix(p.hashed, payload)
    requires Genuine(c, payload, job.chunk)
    ensures var s := Absorb(h, job, p, a, c);
            && s.p.dest.kind.Seekable? && IsPrefix(s.p.dest.content, payload)
            && (!s.verdict.Failed? ==>
                  && |s.p.dest.content| == s.p.total && s.p.hashed == s.p.dest.content
                  && (s.verdict.Accepted? && job.size > 0 ==> s.p.total == job.size))
  {
    hide Written; hide Credited; hide CreditError;
    assert p.dest.content == p.hashed by { assert p.dest.content == p.dest.content[..p.total]; }
    if ChunkError(job, p.index, p.total, c).None? { WriteKeepsPrefix(p.dest, c.data, payload); }
  }

  /** Whatever genuine chunks arrive, and wherever the attempt is cut off, the file stays a prefix of the payload. */
  lemma {:induction false} LoopKeepsPrefix(h: HashFn, job: Job, p: Progress, a: Account, inbox: seq<Msg>,
                                           payload: Bytes)
    requires LoopInv(job, p) && p.dest.kind.Seekable? && |p.dest.content| == p.total && IsPrefix(p.hashed, payload)
    requires forall c | DataMsg(c) in inbox :: Genuine(c, payload, job.chunk)
    ensures var st := Loop(h, job, p, a, inbox);
            && st.p.dest.kind.Seekable?
            && IsPrefix(st.p.dest.content, payload)
            && (st.verdict.Accepted? && job.size == |payload| ==> st.p.dest.content == payload)
    decreases |inbox|
  {
    if inbox == [] {
    } else {
      match inbox[0]
      case Heartbeat => LoopKeepsPrefix(h, job, p, a, inbox[1..], payload);
      case DataMsg(c) =>
        var s := Absorb(h, job, p, a, c);
        AbsorbKeepsPrefix(h, job, p, a, c, payload);
        AbsorbKeepsInv(h, job, p, a, c);
        if s.verdict.More? { LoopKeepsPrefix(h, job, s.p, s.a, inbox[1..], payload); }
      case _ =>
    }
  }

  /** The receiver got as far as asking for a destination, and not for a duplicate. */
  predicate AsksForDestination(s: Setup) {
    match Next(s.inbox).0
    case Some(SendMsg(m)) =>
      && Lookup(s.ledger, m.key).None?
      && MetaError(s.cfg, m, None).None?
      && (s.quota.Some? ==> AcquireError(s.quota.value, s.peer, m.size).None?)
    case _ => false
  }

  function Opened(content: Bytes, room: nat): Dest { Dest(Seekable, content, |content|, room) }

  /**
   * The slot after an attempt that ran to its end: emptied by publication, otherwise
   * what was written; an empty partial is removed.
   */
  function After(h: HashFn, slot: Slot, t: Attempt): Slot {
    if !AsksForDestination(t.setup) then slot
    else
      var m := Next(t.setup.inbox).0.value.send;
      match Reopened(h, slot, m)
      case None => slot
      case Some(content) =>
        var r := Receive(h, t.setup.(dest := Some(Opened(content, t.room))));
        if r.published || r.dest.None? || r.dest.value.content == [] then Slot(None, None)
        else Slot(Some(r.dest.value.content), Some(NewManifest(m)))
  }

  /**
   * Every slot an attempt may leave behind, also when the process dies in the
   * middle or a clean-up step fails: the partial is as before, gone, new, cut to
   * the kept prefix, or as far as the attempt got, which includes a published
   * copy; and with each of these the sidecar is the old one, the new one, or
   * missing. Dying between two chunks is an attempt whose channel ended there.
   */
  ghost predicate MayLeave(h: HashFn, slot: Slot, t: Attempt, left: Slot) {
    if !AsksForDestination(t.setup) then left == slot
    else
      var m := Next(t.setup.inbox).0.value.send;
      match Reopened(h, slot, m)
      case None => left == slot
      case Some(content) =>
        var r := Receive(h, t.setup.(dest := Some(Opened(content, t.room))));
        && (|| MayBeLeftByOpen(left, slot, Some(content), NewManifest(m))
            || (&& r.dest.Some? && left.part == Some(r.dest.value.content)
                && left.manifest in {slot.manifest, None, Some(NewManifest(m))}))
  }

  lemma {:induction false} LoopHasItsDestination(h: HashFn, job: Job, p: Progress, a: Account, inbox: seq<Msg>)
    ensures Loop(h, job, p, a, inbox).verdict != Failed(NoDestination)
    decreases |inbox|
  {
    hide Credited; hide CreditError; hide Written;
    if inbox == [] {
    } else {
      match inbox[0]
      case Heartbeat => LoopHasItsDestination(h, job, p, a, inbox[1..]);
      case DataMsg(c) =>
        var s := Absorb(h, job, p, a, c);
        if s.verdict.More? { LoopHasItsDestination(h, job, s.p, s.a, inbox[1..]); }
      case _ =>
    }
  }

  lemma TransferHasItsDestination(h: HashFn, m: DropSend, job: Job, s: Setup, d: Dest, a: Account, rest: seq<Msg>)
    requires job.chunk > 0
    ensures Transfer(h, m, job, s, d, a, rest).result != Err(NoDestination)
    ensures job.recorded.Some? ==> !Transfer(h, m, job, s, d, a, rest).published
  {
    hide Loop;
    var k := AckOffset(s.cfg, job, d);
    if k >= 0 && ResumeError(job, k, d).None? { LoopHasItsDestination(h, job, Start(job, k, d), a, rest); }
  }

  lemma MetadataHasItsOwnErrors(cfg: Config, m: DropSend, found: Option<Entry>)
    ensures MetaError(cfg, m, found) != Some(NoDestination)
  {
  }

  /** A destination is asked for exactly if the attempt fails for want of one when it gets none. */
  lemma AsksIff(h: HashFn, s: Setup)
    ensures AsksForDestination(s) <==> Receive(h, s.(dest := None)).result == Err(NoDestination)
    ensures !AsksForDestination(s) ==> Receive(h, s).dest == s.dest && !Receive(h, s).published
  {
    hide Transfer; hide MetaError; hide AcquireError; hide Released;
    var (first, rest) := Next(s.inbox);
    if first.Some? && first.value.SendMsg? {
      var m := first.value.send;
      var found := Lookup(s.ledger, m.key);
      MetadataHasItsOwnErrors(s.cfg, m, found);
      TransferHasItsDestination(h, m, NewJob(s.cfg, m, found), s.(dest := None), DISCARD,
          OpenAccount(s.quota, s.peer, m.size), rest);
      TransferHasItsDestination(h, m, NewJob(s.cfg, m, found), s, DISCARD,
          OpenAccount(s.quota, s.peer, m.size), rest);
    }
  }

  /** An orderly end is one of the possible ones. */
  lemma OrderlyEndIsPossible(h: HashFn, slot: Slot, t: Attempt)
    ensures MayLeave(h, slot, t, After(h, slot, t))
  {
    hide Receive; hide Reopened; hide AsksForDestination;
  }

  /** What an attempt publishes, if it publishes. */
  function Publishes(h: HashFn, slot: Slot, t: Attempt): Option<Bytes> {
    if !AsksForDestination(t.setup) then None
    else
      match Reopened(h, slot, Next(t.setup.inbox).0.value.send)
      case None => None
      case Some(content) =>
        var r := Receive(h, t.setup.(dest := Some(Opened(content, t.room))));
        if r.published && r.dest.Some? then Some(r.dest.value.content) else None
  }

  /** A retry of one transfer of `payload`: metadata `m`, no explicit offset, and only genuine chunks in the channel. */
  ghost predicate RetryOf(m: DropSend, payload: Bytes, t: Attempt) {
    && t.setup.cfg.receivedBytes == 0
    && m.size == |payload| > 0
    && (forall x | SendMsg(x) in t.setup.inbox :: x == m)
    && (forall c | DataMsg(c) in t.setup.inbox :: Genuine(c, payload, NegotiatedChunk(m)))
  }

  /**
   * Attempts one after the other on one slot, with any crash in each; `slots` are
   * what each finds, and the last leaves.
   */
  ghost predicate IsRetryRun(h: HashFn, m: DropSend, payload: Bytes, ts: seq<Attempt>, slots: seq<Slot>) {
    && |slots| == |ts| + 1 && slots[0] == Slot(None, None)
    && forall i | 0 <= i < |ts| :: RetryOf(m, payload, ts[i]) && MayLeave(h, slots[i], ts[i], slots[i + 1])
  }

  /** The partial is a prefix of the payload, and the sidecar is that of the transfer. */
  ghost predicate HoldsPrefix(slot: Slot, m: DropSend, payload: Bytes) {
    && (slot.part.Some? ==> IsPrefix(slot.part.value, payload))
    && (slot.manifest.Some? ==> slot.manifest.value == NewManifest(m))
  }

  lemma EmptySlotHoldsPrefix(m: DropSend, payload: Bytes)
    ensures HoldsPrefix(Slot(None, None), m, payload)
  {
  }

  /** The slot is never refused to its own transfer, and what is reopened is a chunk-aligned prefix of the payload. */
  lemma ReopenedIsAlignedPrefix(h: HashFn, slot: Slot, m: DropSend, payload: Bytes)
    requires HoldsPrefix(slot, m, payload)
    ensures var kept := Reopened(h, slot, m);
            kept.Some? && IsPrefix(kept.value, payload) && |kept.value| % NegotiatedChunk(m) == 0
  {
    if slot.part.Some? { ResumePrefixIsAligned(h, slot.part.value, m); }
    MultipleHasNoRemainder(0, NegotiatedChunk(m));
  }

  lemma RetrySendsItsMetadata(m: DropSend, payload: Bytes, t: Attempt)
    requires RetryOf(m, payload, t) && AsksForDestination(t.setup)
    ensures Next(t.setup.inbox).0 == Some(SendMsg(m))
    ensures forall d :: AsksForDestination(t.setup.(dest := d))
  {
    NextIsInInbox(t.setup.inbox);
  }

  lemma ReceiveKeepsPrefix(h: HashFn, s: Setup, m: DropSend, payload: Bytes, d: Dest)
    requires s.dest == Some(d) && d == Opened(d.content, d.room) && IsPrefix(d.content, payload)
    requires AsksForDestination(s) && Next(s.inbox).0 == Some(SendMsg(m))
    requires s.cfg.receivedBytes == 0 && m.size == |payload| > 0
    requires forall c | DataMsg(c) in s.inbox :: Genuine(c, payload, NegotiatedChunk(m))
    ensures var r := Receive(h, s);
            r.dest.Some? && IsPrefix(r.dest.value.content, payload) && (r.published ==> r.dest.value.content == payload)
  {
    var rest := Next(s.inbox).1;
    var job := NewJob(s.cfg, m, None);
    var a := OpenAccount(s.quota, s.peer, m.size);
    var k := AckOffset(s.cfg, job, d);
    if DestError(s.cfg, job, d).None? && ResumeError(job, k, d).None? {
      StartSatisfiesInv(s.cfg, m, None, d);
      forall c | DataMsg(c) in rest ensures Genuine(c, payload, job.chunk) { NextKeepsMessages(s.inbox, DataMsg(c)); }
      assert d.content[..k] == d.content;
      LoopKeepsPrefix(h, job, Start(job, k, d), a, rest, payload);
    }
  }

  /** One attempt, cut off anywhere, keeps the slot a prefix; if it publishes, it publishes the payload. */
  lemma AttemptKeepsPrefix(h: HashFn, slot: Slot, m: DropSend, payload: Bytes, t: Attempt, left: Slot)
    requires HoldsPrefix(slot, m, payload) && RetryOf(m, payload, t) && MayLeave(h, slot, t, left)
    ensures HoldsPrefix(left, m, payload)
    ensures Publishes(h, slot, t).Some? ==> Publishes(h, slot, t).value == payload
  {
    hide Receive; hide Reopened; hide AsksForDestination;
    if AsksForDestination(t.setup) {
      RetrySendsItsMetadata(m, payload, t);
      ReopenedIsAlignedPrefix(h, slot, m, payload);
      var d := Opened(Reopened(h, slot, m).value, t.room);
      ReceiveKeepsPrefix(h, t.setup.(dest := Some(d)), m, payload, d);
    }
  }

  /**
   * Crash and resume: over any number of attempts, each cut off at any byte of
   * any chunk and at any step around it, the slot holds a prefix of the payload,
   * the next attempt is not refused and resumes a chunk-aligned prefix, and
   * whatever is published is the payload.
   */
  lemma {:induction false} CrashAndResume(h: HashFn, m: DropSend, payload: Bytes, ts: seq<Attempt>, slots: seq<Slot>,
                                          n: nat)
    requires IsRetryRun(h, m, payload, ts, slots) && n <= |ts|
    ensures HoldsPrefix(slots[n], m, payload)
    ensures var kept := Reopened(h, slots[n], m);
            kept.Some? && IsPrefix(kept.value, payload) && |kept.value| % NegotiatedChunk(m) == 0
    ensures n < |ts| ==> var p := Publishes(h, slots[n], ts[n]); p.Some? ==> p.value == payload
    decreases n
  {
    hide MayLeave; hide Publishes; hide Reopened; hide RetryOf; hide HoldsPrefix;
    if n == 0 {
      EmptySlotHoldsPrefix(m, payload);
    } else {
      CrashAndResume(h, m, payload, ts, slots, n - 1);
      AttemptKeepsPrefix(h, slots[n - 1], m, payload, ts[n - 1], slots[n]);
    }
    ReopenedIsAlignedPrefix(h, slots[n], m, payload);
    if n < |ts| { AttemptKeepsPrefix(h, slots[n], m, payload, ts[n], slots[n + 1]); }
  }

  /**
   * A retry loses less than one chunk of an honest partial, unless the partial
   * already reaches the declared size in whole chunks: then it starts again.
   */
  lemma ResumeKeepsWholeChunks(h: HashFn, slot: Slot, m: DropSend, payload: Bytes)
    requires slot.part.Some? && IsPrefix(slot.part.value, payload) && slot.manifest == Some(NewManifest(m))
    requires m.size == |payload| > 0
    requires m.headHash.Some? && (|payload| >= HEAD_HASH_SIZE ==> m.headHash.value == h(payload[..HEAD_HASH_SIZE]))
    ensures var n := |slot.part.value|;
            var whole := WholeChunkBytes(n, m);
            && Reopened(h, slot, m).Some?
            && |Reopened(h, slot, m).value| == (if whole < m.size then whole else 0)
            && n - whole < NegotiatedChunk(m)
  {
    hide ResumePrefix;
    var content := slot.part.value;
    ResumesIff(h, content, |content|, m);
    WholeChunksAre(|content|, m);
    if |content| >= HEAD_HASH_SIZE {
      assert content[..HEAD_HASH_SIZE] == payload[..HEAD_HASH_SIZE];
    }
  }

  /**
   * An attempt that ended in order and published nothing leaves what it wrote, and
   * the next attempt resumes all its whole chunks; a publication empties the slot.
   */
  lemma InterruptedAttemptIsResumed(h: HashFn, slot: Slot, t: Attempt, m: DropSend, payload: Bytes)
    requires HoldsPrefix(slot, m, payload) && RetryOf(m, payload, t) && AsksForDestination(t.setup)
    requires m.headHash.Some? && (|payload| >= 65536 ==> m.headHash.value == h(payload[..65536]))
    ensures var kept := Reopened(h, slot, m);
            var left := After(h, slot, t);
            && kept.Some?
            && var r := Receive(h, t.setup.(dest := Some(Opened(kept.value, t.room))));
               && r.dest.Some?
               && (r.published ==> left == Slot(None, None))
               && (!r.published && r.dest.value.content != [] ==>
                     var whole := WholeChunkBytes(|r.dest.value.content|, m);
                     && left.part == Some(r.dest.value.content) && left.manifest == Some(NewManifest(m))
                     && 0 <= whole <= |payload|
                     && Reopened(h, left, m) == Some(payload[..if whole < m.size then whole else 0]))
  {
    hide Receive; hide Reopened; hide AsksForDestination; hide ResumePrefix;
    RetrySendsItsMetadata(m, payload, t);
    ReopenedIsAlignedPrefix(h, slot, m, payload);
    var d := Opened(Reopened(h, slot, m).value, t.room);
    ReceiveKeepsPrefix(h, t.setup.(dest := Some(d)), m, payload, d);
    var r := Receive(h, t.setup.(dest := Some(d)));
    var left := After(h, slot, t);
    if !r.published && r.dest.value.content != [] {
      ResumeKeepsWholeChunks(h, left, m, payload);
      ReopenedIsAlignedPrefix(h, left, m, payload);
      WholeChunksAre(|r.dest.value.content|, m);
    }
  }
}
