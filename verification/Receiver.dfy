/**
 * The receiving side of one transfer (internal/drop/receiver.go): negotiation,
 * the chunk loop as a step function, and when a chunk stream is accepted.
 */
module Receiver {
  import opened Common
  import opened Protocol
  import opened Files
  import opened Quotas
  import opened Ledger

  const DEFAULT_MAX_SIZE: int := 5 * 1024 * 1024 * 1024
  const DEFAULT_MAX_TEXT: int := 10 * 1024 * 1024

  datatype Reject =
    | BadMetadata | OverMaxSize | OverTextSize | NegativeOffset | OffsetBeyondSize | KeyReuse
    | QuotaRefused(error: QuotaError) | NoDestination | DestinationTooLong
    | Misaligned | NotRewindable | ShortPartial
    | ConnectionLost | UnexpectedMessage | Undecodable
    | WrongDropId | OversizedChunk | ShortChunk | BeyondDeclaredSize | OutOfOrder | WriteFailed
    | FinalSizeMismatch | MissingDigest | DigestMismatch | RecordedDigestMismatch
    | PublicationFailed | SendFailed

  datatype Config = Config(maxSize: int, maxTextSize: int, receivedBytes: int)

  /** 0 selects the default, a negative value no limit; the result 0 means no limit. */
  function EffectiveLimit(configured: int, default: int): int {
    if configured == 0 then default else if configured < 0 then 0 else configured
  }

  /** The constants of one chunk loop; `recorded` is the published digest when this is a duplicate. */
  datatype Job = Job(dropId: string, isText: bool, size: int, chunk: int, maxSize: int, maxText: int,
                     recorded: Option<Digest>)

  /** The loop's variables; `hashed` is what the running digest has absorbed. */
  datatype Progress = Progress(index: int, total: int, hashed: Bytes, dest: Dest)

  /** The reservation the attempt holds, if the receiver meters transfers. */
  datatype Account = Unmetered | Metered(quota: Quota, lease: Lease)

  // ----- one chunk

  predicate OverLimit(limit: int, n: int) { limit > 0 && n > limit }

  /** The checks made before a chunk's bytes are touched, in the program's order. */
  function ChunkError(job: Job, index: int, total: int, c: DropData): Option<Reject> {
    var n := total + |c.data|;
    if c.dropId != job.dropId then Some(WrongDropId)
    else if |c.data| > job.chunk then Some(OversizedChunk)
    else if !c.final && |c.data| != job.chunk then Some(ShortChunk)
    else if OverLimit(job.size, n) then Some(BeyondDeclaredSize)
    else if c.index != index then Some(OutOfOrder)
    else if OverLimit(job.maxSize, n) then Some(OverMaxSize)
    else if job.isText && OverLimit(job.maxText, n) then Some(OverTextSize)
    else None
  }

  /** The checks made on the final chunk. */
  function FinalError(h: HashFn, job: Job, total: int, hashed: Bytes, c: DropData): Option<Reject> {
    if job.size > 0 && total != job.size then Some(FinalSizeMismatch)
    else if c.sha.None? then Some(MissingDigest)
    else if h(hashed) != c.sha.value then Some(DigestMismatch)
    else if job.recorded.Some? && h(hashed) != job.recorded.value then Some(RecordedDigestMismatch)
    else None
  }

  /** The reason given for refusing a chunk applies to it, and none is given exactly if no check fails. */
  lemma ChunkReasons(job: Job, index: int, total: int, c: DropData)
    ensures var n := total + |c.data|;
            match ChunkError(job, index, total, c)
            case None =>
              && c.dropId == job.dropId && c.index == index
              && |c.data| <= job.chunk && (!c.final ==> |c.data| == job.chunk)
              && (job.size > 0 ==> n <= job.size) && (job.maxSize > 0 ==> n <= job.maxSize)
              && (job.isText && job.maxText > 0 ==> n <= job.maxText)
            case Some(WrongDropId) => c.dropId != job.dropId
            case Some(OversizedChunk) => |c.data| > job.chunk
            case Some(ShortChunk) => !c.final && |c.data| < job.chunk
            case Some(BeyondDeclaredSize) => 0 < job.size < n
            case Some(OutOfOrder) => c.index != index
            case Some(OverMaxSize) => 0 < job.maxSize < n
            case Some(OverTextSize) => job.isText && 0 < job.maxText < n
            case _ => false
  {
  }

  /** The same for the checks on the final chunk. */
  lemma FinalReasons(h: HashFn, job: Job, total: int, hashed: Bytes, c: DropData)
    ensures match FinalError(h, job, total, hashed, c)
            case None =>
              && (job.size > 0 ==> total == job.size) && c.sha == Some(h(hashed))
              && (job.recorded.Some? ==> job.recorded.value == h(hashed))
            case Some(FinalSizeMismatch) => job.size > 0 && total != job.size
            case Some(MissingDigest) => c.sha.None?
            case Some(DigestMismatch) => c.sha.Some? && c.sha.value != h(hashed)
            case Some(RecordedDigestMismatch) => job.recorded.Some? && job.recorded.value != h(hashed)
            case _ => false
  {
  }

  function Credited(a: Account, n: int): Account {
    if a.Unmetered? then a else var (q, l) := Grown(a.quota, a.lease, n); Metered(q, l)
  }

  function CreditError(a: Account, n: int): Option<QuotaError> {
    if a.Metered? && GrowRefused(a.quota, a.lease, n) then GrowError(a.quota, a.lease.peer, n) else None
  }

  datatype Verdict = More | Accepted | Failed(reason: Reject)

  datatype State = State(verdict: Verdict, p: Progress, a: Account)

  /** One iteration of the chunk loop on a decoded chunk. */
  function Absorb(h: HashFn, job: Job, p: Progress, a: Account, c: DropData): State {
    var n := |c.data|;
    if ChunkError(job, p.index, p.total, c).Some? then State(Failed(ChunkError(job, p.index, p.total, c).value), p, a)
    else if n > 0 && CreditError(a, n).Some? then State(Failed(QuotaRefused(CreditError(a, n).value)), p, a)
    else
      var a' := Credited(a, n);
      var d' := Written(p.dest, c.data);
      if !Fits(p.dest, c.data) then State(Failed(WriteFailed), p.(dest := d'), a')
      else
        var p' := Progress(p.index + 1, p.total + n, p.hashed + c.data, d');
        if !c.final then State(More, p', a')
        else if FinalError(h, job, p'.total, p'.hashed, c).Some?
        then State(Failed(FinalError(h, job, p'.total, p'.hashed, c).value), p', a')
        else State(Accepted, p', a')
  }

  /** The chunk loop over everything the channel will still deliver before it dies. */
  function Loop(h: HashFn, job: Job, p: Progress, a: Account, inbox: seq<Msg>): (r: State)
    ensures !r.verdict.More?
    decreases |inbox|
  {
    if inbox == [] then State(Failed(ConnectionLost), p, a)
    else match inbox[0]
      case Heartbeat => Loop(h, job, p, a, inbox[1..])
      case DataMsg(c) =>
        var s := Absorb(h, job, p, a, c);
        if s.verdict.More? then Loop(h, job, s.p, s.a, inbox[1..]) else s
      case Garbled => State(Failed(Undecodable), p, a)
      case _ => State(Failed(UnexpectedMessage), p, a)
  }

  // ----- negotiation

  /** Everything checked before capacity is reserved. `found` is the ledger's entry for the key. */
  function MetaError(cfg: Config, m: DropSend, found: Option<Entry>): Option<Reject> {
    if !ValidMetadata(m) then Some(BadMetadata)
    else if m.size > 0 && OverLimit(EffectiveLimit(cfg.maxSize, DEFAULT_MAX_SIZE), m.size) then Some(OverMaxSize)
    else if m.kind == TextDrop && OverLimit(EffectiveLimit(cfg.maxTextSize, DEFAULT_MAX_TEXT), m.size)
    then Some(OverTextSize)
    else if cfg.receivedBytes < 0 then Some(NegativeOffset)
    else if m.size > 0 && cfg.receivedBytes > m.size then Some(OffsetBeyondSize)
    else if found.Some? && !Matches(found.value, m) then Some(KeyReuse)
    else None
  }

  /**
   * The reason given for refusing metadata applies to them, and none is given
   * exactly if no check fails; a limit of 0 is 5 GiB, or 10 MiB for a text.
   */
  lemma MetadataReasons(cfg: Config, m: DropSend, found: Option<Entry>)
    ensures match MetaError(cfg, m, found)
            case None =>
              && Admitted(m)
              && (cfg.maxSize == 0 ==> m.size <= 5_368_709_120) && (cfg.maxSize > 0 ==> m.size <= cfg.maxSize)
              && (m.kind == TextDrop && cfg.maxTextSize == 0 ==> m.size <= 10_485_760)
              && (m.kind == TextDrop && cfg.maxTextSize > 0 ==> m.size <= cfg.maxTextSize)
              && cfg.receivedBytes >= 0 && (m.size > 0 ==> cfg.receivedBytes <= m.size)
              && (found.Some? ==>
                    && found.value.kind == m.kind && found.value.name == m.name && found.value.size == m.size
                    && found.value.mimeType == m.mimeType && found.value.headHash == m.headHash
                    && found.value.chunkSize == if m.chunkSize > 0 then m.chunkSize else 0x10_0000)
            case Some(BadMetadata) => !Admitted(m)
            case Some(OverMaxSize) =>
              m.size > (if cfg.maxSize == 0 then 5_368_709_120 else cfg.maxSize) && cfg.maxSize >= 0
            case Some(OverTextSize) =>
              && m.kind == TextDrop && cfg.maxTextSize >= 0
              && m.size > (if cfg.maxTextSize == 0 then 10_485_760 else cfg.maxTextSize)
            case Some(NegativeOffset) => cfg.receivedBytes < 0
            case Some(OffsetBeyondSize) => 0 < m.size < cfg.receivedBytes
            case Some(KeyReuse) =>
              found.Some? && (found.value.kind != m.kind || found.value.name != m.name || found.value.size != m.size
                              || found.value.mimeType != m.mimeType || found.value.headHash != m.headHash
                              || found.value.chunkSize != if m.chunkSize > 0 then m.chunkSize else 0x10_0000)
            case _ => false
  {
    hide ValidMetadata; hide Admitted;
    MetadataIsValidIff(m);
  }

  function NewJob(cfg: Config, m: DropSend, found: Option<Entry>): Job {
    Job(m.dropId, m.kind == TextDrop, m.size, NegotiatedChunk(m),
        EffectiveLimit(cfg.maxSize, DEFAULT_MAX_SIZE), EffectiveLimit(cfg.maxTextSize, DEFAULT_MAX_TEXT),
        if found.Some? then Some(found.value.sha) else None)
  }

  /** The offset read from the configuration or from the destination's position. */
  function Offset(cfg: Config, d: Dest): int {
    if cfg.receivedBytes == 0 && d.kind.Seekable? && d.pos > 0 then d.pos else cfg.receivedBytes
  }

  /** The offset the acknowledgement advertises: a duplicate always starts again. */
  function AckOffset(cfg: Config, job: Job, d: Dest): int {
    if job.recorded.Some? then 0 else Offset(cfg, d)
  }

  /** The destination checks made before the acknowledgement. */
  function DestError(cfg: Config, job: Job, d: Dest): Option<Reject> {
    if job.size > 0 && d.kind.Seekable? && |d.content| > job.size then Some(DestinationTooLong)
    else if Offset(cfg, d) < 0 || OverLimit(job.size, Offset(cfg, d)) then Some(OffsetBeyondSize)
    else None
  }

  /** The resume checks made after the acknowledgement. */
  function ResumeError(job: Job, k: int, d: Dest): Option<Reject> {
    if k <= 0 then None
    else if job.chunk <= 0 || k % job.chunk != 0 then Some(Misaligned)
    else if !d.kind.Seekable? then Some(NotRewindable)
    else if |d.content| < k then Some(ShortPartial)
    else None
  }

  /** The reasons given for refusing a destination or an offset apply to them. */
  lemma StartReasons(cfg: Config, job: Job, k: int, d: Dest)
    ensures match DestError(cfg, job, d)
            case None => job.size > 0 && d.kind.Seekable? ==> |d.content| <= job.size
            case Some(DestinationTooLong) => d.kind.Seekable? && 0 < job.size < |d.content|
            case Some(OffsetBeyondSize) =>
              var at := if cfg.receivedBytes != 0 || !d.kind.Seekable? then cfg.receivedBytes else d.pos;
              at < 0 || 0 < job.size < at
            case _ => false
    ensures match ResumeError(job, k, d)
            case None => k > 0 ==> d.kind.Seekable? && k <= |d.content| && job.chunk > 0 && k % job.chunk == 0
            case Some(Misaligned) => k > 0 && (job.chunk <= 0 || k % job.chunk != 0)
            case Some(NotRewindable) => k > 0 && !d.kind.Seekable?
            case Some(ShortPartial) => d.kind.Seekable? && |d.content| < k
            case _ => false
  {
  }

  /** The loop's variables at its first iteration. */
  function Start(job: Job, k: int, d: Dest): Progress
    requires k >= 0 && job.chunk > 0 && ResumeError(job, k, d).None?
  {
    Progress(k / job.chunk, k, if k == 0 then [] else d.content[..k], if k == 0 then d else d.(pos := k))
  }

  // ----- what every iteration keeps

  /**
   * Total bytes are the index times the chunk size, the digest covers exactly
   * them, and a seekable destination holds them as its prefix with the position
   * right behind.
   */
  ghost predicate LoopInv(job: Job, p: Progress) {
    && job.chunk > 0
    && p.index >= 0
    && p.total == p.index * job.chunk == |p.hashed|
    && (p.dest.kind.Seekable? ==>
          && p.dest.pos == p.total <= |p.dest.content|
          && p.dest.content[..p.total] == p.hashed
          && (job.size > 0 ==> |p.dest.content| <= job.size))
  }

  lemma WholeChunks(k: nat, c: int)
    requires c > 0 && (k == 0 || k % c == 0)
    ensures k / c * c == k && k / c >= 0
  {
    assert k == k / c * c + k % c;
  }

  /** An offset that passes the resume checks is where the loop invariant holds. */
  lemma StartIsAligned(job: Job, k: nat, d: Dest)
    requires job.chunk > 0 && ResumeError(job, k, d).None?
    requires k == 0 && d.kind.Seekable? ==> d.pos == 0
    requires d.kind.Seekable? && job.size > 0 ==> |d.content| <= job.size
    ensures LoopInv(job, Start(job, k, d))
  {
    WholeChunks(k, job.chunk);
  }

  lemma StartSatisfiesInv(cfg: Config, m: DropSend, found: Option<Entry>, d: Dest)
    requires MetaError(cfg, m, found).None?
    requires var job := NewJob(cfg, m, found);
             && (job.recorded.Some? ==> d.kind.Discard?)
             && DestError(cfg, job, d).None? && ResumeError(job, AckOffset(cfg, job, d), d).None?
    ensures var job := NewJob(cfg, m, found);
            var k := AckOffset(cfg, job, d);
            k >= 0 && LoopInv(job, Start(job, k, d)) && Start(job, k, d).total == k
  {
    hide EffectiveLimit; hide Matches; hide ValidKey; hide LoopInv;
    var job := NewJob(cfg, m, found);
    var k := AckOffset(cfg, job, d);
    assert job.chunk > 0 && k >= 0;
    StartIsAligned(job, k, d);
  }

  /** `q` came from `p` by writing at the end of its prefix. */
  ghost predicate Extends(p: Progress, q: Progress) {
    && p.total <= q.total == |q.hashed|
    && q.dest.kind == p.dest.kind
    && (p.dest.kind.Seekable? ==>
          && q.total <= |q.dest.content| == Max(|p.dest.content|, q.total)
          && q.dest.content[..q.total] == q.hashed)
  }

  /** A continuing iteration keeps the invariant; the accepting one leaves everything but alignment. */
  lemma AbsorbKeepsInv(h: HashFn, job: Job, p: Progress, a: Account, c: DropData)
    requires LoopInv(job, p)
    ensures var s := Absorb(h, job, p, a, c);
            && (s.verdict.More? ==> LoopInv(job, s.p) && Extends(p, s.p))
            && (s.verdict.Accepted? ==>
                  && Extends(p, s.p)
                  && c.final && c.sha == Some(h(s.p.hashed))
                  && (job.size > 0 ==> s.p.total == job.size))
  {
    if p.dest.kind.Seekable? {
      OverlayExtendsPrefix(p.dest.content, p.dest.pos, c.data);
    }
    assert c.data[..|c.data|] == c.data;
    assert (p.index + 1) * job.chunk == p.index * job.chunk + job.chunk;
  }

  // ----- exact acceptance

  /** The chunks the loop would see: heartbeats are skipped, anything else ends the stream. */
  function Chunks(inbox: seq<Msg>): seq<DropData>
    decreases |inbox|
  {
    if inbox == [] then []
    else match inbox[0]
      case Heartbeat => Chunks(inbox[1..])
      case DataMsg(c) => [c] + Chunks(inbox[1..])
      case _ => []
  }

  function Payload(cs: seq<DropData>): Bytes {
    if cs == [] then [] else cs[0].data + Payload(cs[1..])
  }

  /** Full chunks at consecutive indices, then one final chunk. */
  ghost predicate WellFormed(job: Job, first: int, cs: seq<DropData>) {
    && cs != []
    && (forall i | 0 <= i < |cs| :: cs[i].dropId == job.dropId && cs[i].index == first + i)
    && (forall i | 0 <= i < |cs| - 1 :: !cs[i].final && |cs[i].data| == job.chunk)
    && cs[|cs| - 1].final && |cs[|cs| - 1].data| <= job.chunk
  }

  predicate WithinDeclaredLimits(job: Job, total: int) {
    && (job.size > 0 ==> total == job.size)
    && !OverLimit(job.maxSize, total)
    && !(job.isText && OverLimit(job.maxText, total))
  }

  /** Capacity for `n` more bytes: the reservation can grow by them and the device takes them. */
  ghost predicate HasCapacity(p: Progress, a: Account, n: nat) {
    && CreditError(a, n).None?
    && (p.dest.kind.Discard? || n <= p.dest.room)
  }

  /** What the documentation promises about an accepted stream, without the loop. */
  ghost predicate Acceptable(h: HashFn, job: Job, p: Progress, a: Account, cs: seq<DropData>) {
    && WellFormed(job, p.index, cs)
    && WithinDeclaredLimits(job, p.total + |Payload(cs)|)
    && HasCapacity(p, a, |Payload(cs)|)
    && cs[|cs| - 1].sha == Some(h(p.hashed + Payload(cs)))
    && (job.recorded.Some? ==> h(p.hashed + Payload(cs)) == job.recorded.value)
  }

  /** The loop on bare chunks. */
  function LoopChunks(h: HashFn, job: Job, p: Progress, a: Account, cs: seq<DropData>): State
    decreases |cs|
  {
    if cs == [] then State(Failed(ConnectionLost), p, a)
    else
      var s := Absorb(h, job, p, a, cs[0]);
      if s.verdict.More? then LoopChunks(h, job, s.p, s.a, cs[1..]) else s
  }

  lemma {:induction false} HeartbeatsDoNotMatter(h: HashFn, job: Job, p: Progress, a: Account, inbox: seq<Msg>)
    ensures var s := Loop(h, job, p, a, inbox);
            var t := LoopChunks(h, job, p, a, Chunks(inbox));
            && (s.verdict.Accepted? <==> t.verdict.Accepted?)
            && s.p == t.p && s.a == t.a
    decreases |inbox|
  {
    if inbox == [] {
    } else {
      match inbox[0]
      case Heartbeat => HeartbeatsDoNotMatter(h, job, p, a, inbox[1..]);
      case DataMsg(c) =>
        var s := Absorb(h, job, p, a, c);
        assert Chunks(inbox)[1..] == Chunks(inbox[1..]);
        HeartbeatsDoNotMatter(h, job, s.p, s.a, inbox[1..]);
      case _ =>
    }
  }

  /** Reserving in two steps is refused exactly when reserving the sum is. */
  lemma CreditIsAdditive(a: Account, m: nat, n: nat)
    ensures CreditError(a, m + n).None? <==> CreditError(a, m).None? && CreditError(Credited(a, m), n).None?
    ensures CreditError(a, m).None? && CreditError(Credited(a, m), n).None? ==>
              Credited(Credited(a, m), n) == Credited(a, m + n)
  {
  }

  lemma WellFormedIsSome(job: Job, first: int, cs: seq<DropData>)
    ensures WellFormed(job, first, cs) ==> cs != []
  {
  }

  /** A stream is well formed if its first chunk fits and the rest is well formed from the next index on. */
  lemma WellFormedStep(job: Job, first: int, cs: seq<DropData>)
    requires |cs| > 1
    ensures WellFormed(job, first, cs) <==>
              && cs[0].dropId == job.dropId && cs[0].index == first && !cs[0].final && |cs[0].data| == job.chunk
              && WellFormed(job, first + 1, cs[1..])
  {
    var rest := cs[1..];
    assert rest[|rest| - 1] == cs[|cs| - 1];
    if WellFormed(job, first + 1, rest) && cs[0].dropId == job.dropId && cs[0].index == first && !cs[0].final
       && |cs[0].data| == job.chunk {
      forall i | 0 <= i < |cs| ensures cs[i].dropId == job.dropId && cs[i].index == first + i {
        if i > 0 { assert cs[i] == rest[i - 1]; }
      }
      forall i | 0 <= i < |cs| - 1 ensures !cs[i].final && |cs[i].data| == job.chunk {
        if i > 0 { assert cs[i] == rest[i - 1]; }
      }
    }
    if WellFormed(job, first, cs) {
      forall i | 0 <= i < |rest| ensures rest[i].dropId == job.dropId && rest[i].index == first + 1 + i {
        assert rest[i] == cs[i + 1];
      }
    }
  }

  /** A full, non-final chunk that passes the checks reduces acceptance of the stream to acceptance of the rest. */
  lemma AcceptableStep(h: HashFn, job: Job, p: Progress, a: Account, cs: seq<DropData>)
    requires |cs| > 1 && job.chunk > 0
    requires Absorb(h, job, p, a, cs[0]).verdict.More?
    ensures var s := Absorb(h, job, p, a, cs[0]);
            Acceptable(h, job, p, a, cs) <==> Acceptable(h, job, s.p, s.a, cs[1..])
  {
    hide WellFormed;
    var s := Absorb(h, job, p, a, cs[0]);
    var c, rest := cs[0], cs[1..];
    assert p.hashed + (c.data + Payload(rest)) == (p.hashed + c.data) + Payload(rest);
    CreditIsAdditive(a, |c.data|, |Payload(rest)|);
    assert rest[|rest| - 1] == cs[|cs| - 1];
    WellFormedStep(job, p.index, cs);
    WellFormedIsSome(job, p.index + 1, rest);
  }

  /** When a stream is acceptable, its first chunk of several is absorbed without objection. */
  lemma FirstChunkPasses(h: HashFn, job: Job, p: Progress, a: Account, cs: seq<DropData>)
    requires |cs| > 1 && Acceptable(h, job, p, a, cs)
    ensures Absorb(h, job, p, a, cs[0]).verdict.More?
  {
    CreditIsAdditive(a, |cs[0].data|, |Payload(cs[1..])|);
    assert p.total + |cs[0].data| <= p.total + |Payload(cs)|;
  }

  lemma SingleChunk(h: HashFn, job: Job, p: Progress, a: Account, c: DropData)
    requires job.chunk > 0
    ensures Absorb(h, job, p, a, c).verdict.Accepted? <==> Acceptable(h, job, p, a, [c])
  {
    assert Payload([c]) == c.data + Payload([c][1..]) == c.data;
    CreditIsAdditive(a, 0, |c.data|);
  }

  lemma PayloadHead(cs: seq<DropData>)
    requires cs != []
    ensures Payload(cs) == cs[0].data + Payload(cs[1..]) && Payload([]) == []
  {
  }

  /** Whatever an iteration goes on with, or accepts, has been hashed. */
  lemma AbsorbHashes(h: HashFn, job: Job, p: Progress, a: Account, c: DropData)
    ensures var s := Absorb(h, job, p, a, c); !s.verdict.Failed? ==> s.p.hashed == p.hashed + c.data
  {
  }

  /** An acceptable prefix is accepted, whatever follows it. */
  lemma {:induction false} AcceptablePrefixIsAccepted(h: HashFn, job: Job, p: Progress, a: Account, cs: seq<DropData>,
                                                      n: nat)
    requires job.chunk > 0 && 0 < n <= |cs| && Acceptable(h, job, p, a, cs[..n])
    ensures LoopChunks(h, job, p, a, cs).verdict.Accepted?
    ensures LoopChunks(h, job, p, a, cs).p.hashed == p.hashed + Payload(cs[..n])
    decreases n
  {
    hide Absorb; hide Acceptable; hide Payload;
    var s := Absorb(h, job, p, a, cs[0]);
    AbsorbHashes(h, job, p, a, cs[0]);
    PayloadHead(cs[..n]);
    assert cs[..n][1..] == cs[1..][..n - 1];
    if n == 1 {
      assert cs[..1] == [cs[0]];
      SingleChunk(h, job, p, a, cs[0]);
      assert cs[1..][..0] == [];
    } else {
      FirstChunkPasses(h, job, p, a, cs[..n]);
      AcceptableStep(h, job, p, a, cs[..n]);
      AcceptablePrefixIsAccepted(h, job, s.p, s.a, cs[1..], n - 1);
      assert s.p.hashed + Payload(cs[1..][..n - 1]) == p.hashed + (cs[0].data + Payload(cs[1..][..n - 1]));
    }
  }

  /** Whatever is accepted had an acceptable prefix. */
  lemma {:induction false} AcceptedHasAcceptablePrefix(h: HashFn, job: Job, p: Progress, a: Account, cs: seq<DropData>)
    returns (n: nat)
    requires job.chunk > 0 && LoopChunks(h, job, p, a, cs).verdict.Accepted?
    ensures 0 < n <= |cs| && Acceptable(h, job, p, a, cs[..n])
    decreases |cs|
  {
    var s := Absorb(h, job, p, a, cs[0]);
    assert cs[..1] == [cs[0]];
    if s.verdict.More? {
      var m := AcceptedHasAcceptablePrefix(h, job, s.p, s.a, cs[1..]);
      n := m + 1;
      assert cs[..n][1..] == cs[1..][..m];
      AcceptableStep(h, job, p, a, cs[..n]);
    } else {
      n := 1;
      SingleChunk(h, job, p, a, cs[0]);
    }
  }

  /** Exact acceptance for everything a channel can deliver. */
  lemma AcceptsIff(h: HashFn, job: Job, p: Progress, a: Account, inbox: seq<Msg>)
    requires job.chunk > 0
    ensures Loop(h, job, p, a, inbox).verdict.Accepted?
       <==> exists n :: 0 < n <= |Chunks(inbox)| && Acceptable(h, job, p, a, Chunks(inbox)[..n])
  {
    HeartbeatsDoNotMatter(h, job, p, a, inbox);
    var cs := Chunks(inbox);
    if LoopChunks(h, job, p, a, cs).verdict.Accepted? {
      var n := AcceptedHasAcceptablePrefix(h, job, p, a, cs);
    }
    forall n | 0 < n <= |cs| && Acceptable(h, job, p, a, cs[..n])
      ensures LoopChunks(h, job, p, a, cs).verdict.Accepted?
    {
      AcceptablePrefixIsAccepted(h, job, p, a, cs, n);
    }
  }
}
