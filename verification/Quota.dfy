/** The receive quota shared by concurrent transfers (internal/drop/quota.go). */
module Quotas {
  import opened Common
  import opened Protocol

  const MAX_QUOTA_BYTES: int := 0x7FFF_FFFF_FFFF_FFFF

  datatype Limits = Limits(maxTransfers: int, maxBytes: int, maxPeerTransfers: int, maxPeerBytes: int)
  datatype Usage = Usage(transfers: int, bytes: int)
  datatype Quota = Quota(limits: Limits, transfers: int, bytes: int, peers: map<string, Usage>)
  datatype Lease = Lease(peer: string, bytes: int, unknown: bool, released: bool)

  datatype QuotaError =
    | NegativeSize
    | CounterOverflow
    | TooManyTransfers
    | TooManyPeerTransfers
    | ByteBudget
    | PeerByteBudget

  function Empty(limits: Limits): Quota { Quota(limits, 0, 0, map[]) }

  function NormalizePeer(peer: string): string {
    if |peer| > 256 then peer[..256] else peer
  }

  function UsageOf(q: Quota, peer: string): Usage {
    if peer in q.peers then q.peers[peer] else Usage(0, 0)
  }

  /** What a transfer of the declared size reserves; an unknown size (0) starts with one chunk. */
  function Reservation(limits: Limits, declared: int): int {
    if declared != 0 then declared
    else
      var r := DEFAULT_CHUNK_SIZE;
      var r := if limits.maxBytes > 0 then Min(r, limits.maxBytes) else r;
      if limits.maxPeerBytes > 0 then Min(r, limits.maxPeerBytes) else r
  }

  /** Why `n` more bytes for `peer` do not fit, if they do not. */
  function BytesError(q: Quota, peer: string, n: int): Option<QuotaError> {
    var u := UsageOf(q, peer);
    if q.limits.maxBytes > 0 && (q.bytes > q.limits.maxBytes || n > q.limits.maxBytes - q.bytes) then Some(ByteBudget)
    else if q.limits.maxPeerBytes > 0 && (u.bytes > q.limits.maxPeerBytes || n > q.limits.maxPeerBytes - u.bytes)
    then Some(PeerByteBudget)
    else None
  }

  predicate Overflows(q: Quota, peer: string, n: int) {
    n > 0 && (q.bytes > MAX_QUOTA_BYTES - n || UsageOf(q, peer).bytes > MAX_QUOTA_BYTES - n)
  }

  function AcquireError(q: Quota, rawPeer: string, declared: int): Option<QuotaError> {
    var peer := NormalizePeer(rawPeer);
    var n := Reservation(q.limits, declared);
    if declared < 0 then Some(NegativeSize)
    else if Overflows(q, peer, n) then Some(CounterOverflow)
    else if q.limits.maxTransfers > 0 && q.transfers >= q.limits.maxTransfers then Some(TooManyTransfers)
    else if q.limits.maxPeerTransfers > 0 && UsageOf(q, peer).transfers >= q.limits.maxPeerTransfers
    then Some(TooManyPeerTransfers)
    else BytesError(q, peer, n)
  }

  // ----- what admission means

  /** The key under which a peer is counted: its first 256 characters. */
  ghost predicate IsPeerKey(rawPeer: string, peer: string) {
    peer <= rawPeer && |peer| == if |rawPeer| < 256 then |rawPeer| else 256
  }

  /** The size if it is declared; otherwise 1 MiB, or the smaller of the byte budgets if that is less. */
  ghost predicate IsFirstReservation(limits: Limits, declared: int, n: int) {
    if declared != 0 then n == declared
    else
      && n <= 0x10_0000 && (limits.maxBytes > 0 ==> n <= limits.maxBytes)
      && (limits.maxPeerBytes > 0 ==> n <= limits.maxPeerBytes)
      && (n == 0x10_0000 || (limits.maxBytes > 0 && n == limits.maxBytes)
          || (limits.maxPeerBytes > 0 && n == limits.maxPeerBytes))
  }

  lemma AdmissionTerms(limits: Limits, rawPeer: string, declared: int)
    ensures IsPeerKey(rawPeer, NormalizePeer(rawPeer))
    ensures IsFirstReservation(limits, declared, Reservation(limits, declared))
    ensures forall n :: IsFirstReservation(limits, declared, n) ==> n == Reservation(limits, declared)
    ensures declared >= 0 ==> Reservation(limits, declared) > 0
  {
  }

  /** Room for `t` more transfers and `n` more bytes of one peer; a limit that is not positive is none. */
  ghost predicate HasRoom(q: Quota, peer: string, t: int, n: int) {
    var u := if peer in q.peers then q.peers[peer] else Usage(0, 0);
    && q.bytes + n <= 0x7FFF_FFFF_FFFF_FFFF && u.bytes + n <= 0x7FFF_FFFF_FFFF_FFFF
    && (q.limits.maxTransfers > 0 ==> q.transfers + t <= q.limits.maxTransfers)
    && (q.limits.maxPeerTransfers > 0 ==> u.transfers + t <= q.limits.maxPeerTransfers)
    && (q.limits.maxBytes > 0 ==> q.bytes + n <= q.limits.maxBytes)
    && (q.limits.maxPeerBytes > 0 ==> u.bytes + n <= q.limits.maxPeerBytes)
  }

  /** A transfer is admitted exactly if its size is not negative and there is room for it. */
  lemma AdmittedIff(q: Quota, rawPeer: string, declared: int, peer: string, n: int)
    requires IsPeerKey(rawPeer, peer) && IsFirstReservation(q.limits, declared, n)
    ensures AcquireError(q, rawPeer, declared).None? <==> declared >= 0 && HasRoom(q, peer, 1, n)
  {
    AdmissionTerms(q.limits, rawPeer, declared);
    assert peer == NormalizePeer(rawPeer);
    hide NormalizePeer; hide Reservation; hide IsFirstReservation;
  }

  /** The first limit that is exceeded, in the order in which they are looked at, is the one reported. */
  lemma RefusalNamesTheLimit(q: Quota, rawPeer: string, declared: int, peer: string, n: int)
    requires IsPeerKey(rawPeer, peer) && IsFirstReservation(q.limits, declared, n)
    ensures var u := if peer in q.peers then q.peers[peer] else Usage(0, 0);
            match AcquireError(q, rawPeer, declared)
            case None => declared >= 0
            case Some(NegativeSize) => declared < 0
            case Some(CounterOverflow) =>
              declared >= 0 && (q.bytes + n > 0x7FFF_FFFF_FFFF_FFFF || u.bytes + n > 0x7FFF_FFFF_FFFF_FFFF)
            case Some(TooManyTransfers) => 0 < q.limits.maxTransfers <= q.transfers
            case Some(TooManyPeerTransfers) =>
              && 0 < q.limits.maxPeerTransfers <= u.transfers
              && HasRoom(q.(limits := Limits(q.limits.maxTransfers, 0, 0, 0)), peer, 1, n)
            case Some(ByteBudget) =>
              && 0 < q.limits.maxBytes < q.bytes + n
              && HasRoom(q.(limits := q.limits.(maxBytes := 0, maxPeerBytes := 0)), peer, 1, n)
            case Some(PeerByteBudget) =>
              && 0 < q.limits.maxPeerBytes < u.bytes + n
              && HasRoom(q.(limits := q.limits.(maxPeerBytes := 0)), peer, 1, n)
  {
    AdmissionTerms(q.limits, rawPeer, declared);
    assert peer == NormalizePeer(rawPeer);
    hide NormalizePeer; hide Reservation; hide IsFirstReservation;
  }

  function GrowError(q: Quota, peer: string, n: int): Option<QuotaError> {
    if Overflows(q, peer, n) then Some(CounterOverflow) else BytesError(q, peer, n)
  }

  /** Adds `t` transfers and `n` bytes to the global and to the peer's counters. */
  function Charge(q: Quota, peer: string, t: int, n: int): Quota {
    var u := UsageOf(q, peer);
    q.(transfers := q.transfers + t, bytes := q.bytes + n,
       peers := q.peers[peer := Usage(u.transfers + t, u.bytes + n)])
  }

  function NewLease(limits: Limits, rawPeer: string, declared: int): Lease {
    Lease(NormalizePeer(rawPeer), Reservation(limits, declared), declared == 0, false)
  }

  function Acquired(q: Quota, rawPeer: string, declared: int): Quota {
    var l := NewLease(q.limits, rawPeer, declared);
    Charge(q, l.peer, 1, l.bytes)
  }

  /** AddBytes changes nothing for a declared size or a non-positive count. */
  predicate Grows(l: Lease, n: int) { l.unknown && n > 0 }

  function Grown(q: Quota, l: Lease, n: int): (Quota, Lease) {
    if Grows(l, n) && GrowError(q, l.peer, n).None?
    then (Charge(q, l.peer, 0, n), l.(bytes := l.bytes + n))
    else (q, l)
  }

  predicate GrowRefused(q: Quota, l: Lease, n: int) {
    Grows(l, n) && GrowError(q, l.peer, n).Some?
  }

  /** A lease of an unknown size grows exactly if there is room; any other lease takes every chunk as it is. */
  lemma GrowsIff(q: Quota, l: Lease, n: int)
    ensures var bytesOnly := q.(limits := Limits(0, q.limits.maxBytes, 0, q.limits.maxPeerBytes));
            GrowRefused(q, l, n) <==> l.unknown && n > 0 && !HasRoom(bytesOnly, l.peer, 0, n)
    ensures var (q', l') := Grown(q, l, n);
            l' == (if l.unknown && n > 0 && !GrowRefused(q, l, n) then l.(bytes := l.bytes + n) else l)
  {
  }

  /** Release with the program's saturating subtractions; a second Release does nothing. */
  function Released(q: Quota, l: Lease): (Quota, Lease) {
    if l.released then (q, l)
    else
      var u := UsageOf(q, l.peer);
      var u' := Usage(if u.transfers > 0 then u.transfers - 1 else u.transfers,
                      if u.bytes >= l.bytes then u.bytes - l.bytes else 0);
      (Quota(q.limits,
             if q.transfers > 0 then q.transfers - 1 else q.transfers,
             if q.bytes >= l.bytes then q.bytes - l.bytes else 0,
             if u' == Usage(0, 0) then q.peers - {l.peer} else q.peers[l.peer := u']),
       l.(released := true))
  }

  /** None of Release's saturating branches would be taken. */
  ghost predicate ReleaseIsExact(q: Quota, l: Lease) {
    && q.transfers > 0 && q.bytes >= l.bytes
    && UsageOf(q, l.peer).transfers > 0 && UsageOf(q, l.peer).bytes >= l.bytes
  }

  // ----- the books: a quota together with every lease it ever issued

  datatype Books = Books(quota: Quota, leases: seq<Lease>)

  /** Whether a lease counts towards `who`: one peer, or everybody when None. */
  predicate Counts(l: Lease, who: Option<string>) {
    !l.released && (who.None? || l.peer == who.value)
  }

  ghost function LiveBytes(ls: seq<Lease>, who: Option<string>): int {
    if ls == [] then 0
    else LiveBytes(ls[..|ls| - 1], who) + if Counts(ls[|ls| - 1], who) then ls[|ls| - 1].bytes else 0
  }

  ghost function LiveCount(ls: seq<Lease>, who: Option<string>): nat {
    if ls == [] then 0
    else LiveCount(ls[..|ls| - 1], who) + if Counts(ls[|ls| - 1], who) then 1 else 0
  }

  ghost predicate Conserved(b: Books) {
    && (forall l | l in b.leases :: l.bytes > 0)
    && b.quota.transfers == LiveCount(b.leases, None)
    && b.quota.bytes == LiveBytes(b.leases, None)
    && (forall p :: UsageOf(b.quota, p) == Usage(LiveCount(b.leases, Some(p)), LiveBytes(b.leases, Some(p))))
    && (forall p :: p in b.quota.peers <==> LiveCount(b.leases, Some(p)) > 0)
  }

  ghost predicate WithinLimits(q: Quota) {
    && q.bytes <= MAX_QUOTA_BYTES
    && (q.limits.maxTransfers > 0 ==> q.transfers <= q.limits.maxTransfers)
    && (q.limits.maxBytes > 0 ==> q.bytes <= q.limits.maxBytes)
    && forall p ::
      var u := UsageOf(q, p);
      && u.bytes <= MAX_QUOTA_BYTES
      && (q.limits.maxPeerTransfers > 0 ==> u.transfers <= q.limits.maxPeerTransfers)
      && (q.limits.maxPeerBytes > 0 ==> u.bytes <= q.limits.maxPeerBytes)
  }

  ghost predicate Sound(b: Books) { Conserved(b) && WithinLimits(b.quota) }

  datatype Op = AcquireOp(peer: string, declared: int) | GrowOp(lease: nat, n: int) | ReleaseOp(lease: nat)

  ghost function Apply(b: Books, op: Op): Books {
    match op
    case AcquireOp(peer, declared) =>
      if AcquireError(b.quota, peer, declared).Some? then b
      else Books(Acquired(b.quota, peer, declared), b.leases + [NewLease(b.quota.limits, peer, declared)])
    case GrowOp(i, n) =>
      if i >= |b.leases| then b
      else var (q, l) := Grown(b.quota, b.leases[i], n); Books(q, b.leases[i := l])
    case ReleaseOp(i) =>
      if i >= |b.leases| then b
      else var (q, l) := Released(b.quota, b.leases[i]); Books(q, b.leases[i := l])
  }

  /** AddBytes is only called by the transfer that still holds the lease. */
  ghost predicate Legal(b: Books, op: Op) {
    op.GrowOp? && op.lease < |b.leases| ==> !b.leases[op.lease].released
  }

  ghost function Run(b: Books, ops: seq<Op>): Books
    decreases |ops|
  {
    if ops == [] then b else Run(Apply(b, ops[0]), ops[1..])
  }

  ghost predicate LegalRun(b: Books, ops: seq<Op>)
    decreases |ops|
  {
    ops == [] || (Legal(b, ops[0]) && LegalRun(Apply(b, ops[0]), ops[1..]))
  }

  lemma {:induction false} SumsNonNegative(ls: seq<Lease>, who: Option<string>)
    requires forall l | l in ls :: l.bytes > 0
    ensures LiveBytes(ls, who) >= 0
    ensures LiveCount(ls, who) == 0 ==> LiveBytes(ls, who) == 0
  {
    if ls == [] {
    } else {
      SumsNonNegative(ls[..|ls| - 1], who);
    }
  }

  /** Replacing one lease moves each sum by exactly that lease's change. */
  lemma {:induction false} SumsAfterUpdate(ls: seq<Lease>, i: nat, l: Lease, who: Option<string>)
    requires i < |ls|
    ensures LiveBytes(ls[i := l], who) == LiveBytes(ls, who)
              - (if Counts(ls[i], who) then ls[i].bytes else 0) + (if Counts(l, who) then l.bytes else 0)
    ensures LiveCount(ls[i := l], who) == LiveCount(ls, who)
              - (if Counts(ls[i], who) then 1 else 0) + (if Counts(l, who) then 1 else 0)
  {
    var n := |ls| - 1;
    if i == n {
      assert ls[i := l][..n] == ls[..n];
    } else {
      assert ls[i := l][..n] == ls[..n][i := l];
      SumsAfterUpdate(ls[..n], i, l, who);
    }
  }

  /** A live lease is contained in the sums it counts towards. */
  lemma LiveLeaseBelowSums(ls: seq<Lease>, i: nat, who: Option<string>)
    requires i < |ls| && Counts(ls[i], who)
    requires forall l | l in ls :: l.bytes > 0
    ensures LiveBytes(ls, who) >= ls[i].bytes && LiveCount(ls, who) > 0
  {
    var ls' := ls[i := ls[i].(released := true)];
    SumsAfterUpdate(ls, i, ls[i].(released := true), who);
    assert forall l | l in ls' :: l.bytes > 0;
    SumsNonNegative(ls', who);
  }

  lemma SumsAfterAppend(ls: seq<Lease>, l: Lease, who: Option<string>)
    ensures LiveBytes(ls + [l], who) == LiveBytes(ls, who) + (if Counts(l, who) then l.bytes else 0)
    ensures LiveCount(ls + [l], who) == LiveCount(ls, who) + (if Counts(l, who) then 1 else 0)
  {
    assert (ls + [l])[..|ls|] == ls;
  }

  /** The sums over `ls` are those over the old leases with `t` leases and `n` bytes more for `peer`. */
  ghost predicate SumsMove(before: seq<Lease>, ls: seq<Lease>, peer: string, t: int, n: int) {
    forall who: Option<string> {:trigger LiveBytes(ls, who)} {:trigger LiveCount(ls, who)} ::
      var mine := who.None? || who.value == peer;
      && LiveBytes(ls, who) == LiveBytes(before, who) + (if mine then n else 0)
      && LiveCount(ls, who) == LiveCount(before, who) + (if mine then t else 0)
  }

  /** Charging the counters by what the sums move keeps the books conserved. */
  lemma ChargeKeepsConserved(b: Books, ls: seq<Lease>, peer: string, t: int, n: int)
    requires Conserved(b) && (forall l | l in ls :: l.bytes > 0)
    requires SumsMove(b.leases, ls, peer, t, n) && LiveCount(ls, Some(peer)) > 0
    ensures Conserved(Books(Charge(b.quota, peer, t, n), ls))
  {
    hide LiveBytes; hide LiveCount;
  }

  /** Charging what was admitted stays within the limits. */
  lemma ChargeKeepsLimits(q: Quota, peer: string, t: int, n: int)
    requires WithinLimits(q) && n >= 0 && !Overflows(q, peer, n) && BytesError(q, peer, n).None?
    requires t == 0 || (t == 1 && (q.limits.maxTransfers > 0 ==> q.transfers < q.limits.maxTransfers)
                        && (q.limits.maxPeerTransfers > 0 ==> UsageOf(q, peer).transfers < q.limits.maxPeerTransfers))
    ensures WithinLimits(Charge(q, peer, t, n))
  {
    forall p ensures UsageOf(Charge(q, peer, t, n), p) ==
                       (var u := UsageOf(q, p); if p == peer then Usage(u.transfers + t, u.bytes + n) else u) {}
  }

  lemma AppendMovesSums(ls: seq<Lease>, l: Lease)
    requires !l.released
    ensures SumsMove(ls, ls + [l], l.peer, 1, l.bytes) && LiveCount(ls + [l], Some(l.peer)) > 0
  {
    forall who ensures
      && LiveBytes(ls + [l], who) == LiveBytes(ls, who) + (if who.None? || who.value == l.peer then l.bytes else 0)
      && LiveCount(ls + [l], who) == LiveCount(ls, who) + (if who.None? || who.value == l.peer then 1 else 0)
    { SumsAfterAppend(ls, l, who); }
  }

  lemma LeasesPositive(b: Books)
    requires Conserved(b)
    ensures forall l | l in b.leases :: l.bytes > 0
  {
  }

  lemma AcquireKeepsSound(b: Books, peer: string, declared: int)
    requires Sound(b)
    ensures Sound(Apply(b, AcquireOp(peer, declared)))
  {
    hide Conserved; hide WithinLimits; hide Charge; hide SumsMove; hide Overflows; hide BytesError; hide NormalizePeer;
    if AcquireError(b.quota, peer, declared).None? {
      var l := NewLease(b.quota.limits, peer, declared);
      AppendMovesSums(b.leases, l);
      LeasesPositive(b);
      ChargeKeepsConserved(b, b.leases + [l], l.peer, 1, l.bytes);
      ChargeKeepsLimits(b.quota, l.peer, 1, l.bytes);
    }
  }

  lemma UpdateMovesSums(ls: seq<Lease>, i: nat, n: nat)
    requires i < |ls| && !ls[i].released && forall x | x in ls :: x.bytes > 0
    ensures var ls' := ls[i := ls[i].(bytes := ls[i].bytes + n)];
            SumsMove(ls, ls', ls[i].peer, 0, n) && LiveCount(ls', Some(ls[i].peer)) > 0
  {
    var l := ls[i].(bytes := ls[i].bytes + n);
    forall who ensures
      && LiveBytes(ls[i := l], who) == LiveBytes(ls, who) + (if who.None? || who.value == l.peer then n else 0)
      && LiveCount(ls[i := l], who) == LiveCount(ls, who)
    { SumsAfterUpdate(ls, i, l, who); }
    LiveLeaseBelowSums(ls, i, Some(l.peer));
  }

  lemma GrowKeepsSound(b: Books, i: nat, n: int)
    requires Sound(b) && Legal(b, GrowOp(i, n))
    ensures Sound(Apply(b, GrowOp(i, n)))
  {
    hide Conserved; hide WithinLimits; hide Charge; hide SumsMove; hide Overflows; hide BytesError; hide LiveCount;
    if i < |b.leases| && Grows(b.leases[i], n) && GrowError(b.quota, b.leases[i].peer, n).None? {
      var l := b.leases[i].(bytes := b.leases[i].bytes + n);
      LeasesPositive(b);
      UpdateMovesSums(b.leases, i, n);
      ChargeKeepsConserved(b, b.leases[i := l], l.peer, 0, n);
      ChargeKeepsLimits(b.quota, l.peer, 0, n);
    } else if i < |b.leases| {
      assert b.leases[i := b.leases[i]] == b.leases;
    }
  }

  /** Every live lease can be given back without touching a saturating branch. */
  lemma ReleaseNeverSaturates(b: Books, i: nat)
    requires Conserved(b) && i < |b.leases| && !b.leases[i].released
    ensures ReleaseIsExact(b.quota, b.leases[i])
  {
    LiveLeaseBelowSums(b.leases, i, None);
    LiveLeaseBelowSums(b.leases, i, Some(b.leases[i].peer));
  }

  lemma ReleaseKeepsConserved(b: Books, i: nat)
    requires Conserved(b) && i < |b.leases| && !b.leases[i].released
    ensures Conserved(Apply(b, ReleaseOp(i)))
  {
    hide LiveBytes; hide LiveCount;
    ReleaseNeverSaturates(b, i);
    var x, l := b.leases[i], b.leases[i].(released := true);
    var ls := b.leases[i := l];
    assert forall y | y in ls :: y.bytes > 0;
    forall who ensures
      && LiveBytes(ls, who) == LiveBytes(b.leases, who) - (if who.None? || who.value == x.peer then l.bytes else 0)
      && LiveCount(ls, who) == LiveCount(b.leases, who) - (if who.None? || who.value == x.peer then 1 else 0)
      && (LiveCount(ls, who) == 0 ==> LiveBytes(ls, who) == 0)
    {
      SumsAfterUpdate(b.leases, i, l, who);
      SumsNonNegative(ls, who);
    }
  }

  lemma LowerCountersWithinLimits(q: Quota, l: Lease)
    requires WithinLimits(q) && l.bytes > 0 && ReleaseIsExact(q, l)
    ensures WithinLimits(Released(q, l).0)
  {
    var q' := Released(q, l).0;
    forall p
      ensures UsageOf(q', p).transfers <= UsageOf(q, p).transfers && UsageOf(q', p).bytes <= UsageOf(q, p).bytes
    {
      assert p != l.peer ==> UsageOf(q', p) == UsageOf(q, p);
    }
  }

  lemma ReleaseKeepsSound(b: Books, i: nat)
    requires Sound(b)
    ensures Sound(Apply(b, ReleaseOp(i)))
  {
    if i < |b.leases| && !b.leases[i].released {
      ReleaseKeepsConserved(b, i);
      ReleaseNeverSaturates(b, i);
      LowerCountersWithinLimits(b.quota, b.leases[i]);
    } else if i < |b.leases| {
      assert b.leases[i := b.leases[i]] == b.leases;
    }
  }

  /** Over every run, the counters are the sums over live leases and no limit is exceeded. */
  lemma {:induction false} ConservationOverRuns(b: Books, ops: seq<Op>)
    requires Sound(b) && LegalRun(b, ops)
    ensures Sound(Run(b, ops))
    decreases |ops|
  {
    if ops == [] {
    } else {
      match ops[0] {
        case AcquireOp(p, d) => AcquireKeepsSound(b, p, d);
        case GrowOp(i, n) => GrowKeepsSound(b, i, n);
        case ReleaseOp(i) => ReleaseKeepsSound(b, i);
      }
      ConservationOverRuns(Apply(b, ops[0]), ops[1..]);
    }
  }

  lemma EmptyIsSound(limits: Limits)
    ensures Sound(Books(Empty(limits), []))
  {
  }

  lemma {:induction false} NothingLive(ls: seq<Lease>, who: Option<string>)
    requires forall l | l in ls :: l.released
    ensures LiveCount(ls, who) == 0 && LiveBytes(ls, who) == 0
  {
    if ls == [] {
    } else {
      NothingLive(ls[..|ls| - 1], who);
    }
  }

  lemma {:induction false} LimitsNeverChange(b: Books, ops: seq<Op>)
    ensures Run(b, ops).quota.limits == b.quota.limits
    decreases |ops|
  {
    if ops == [] {
    } else {
      LimitsNeverChange(Apply(b, ops[0]), ops[1..]);
    }
  }

  /** Once every lease is released, the quota is as it was when created. */
  lemma AllReleasedRestoresEmpty(limits: Limits, ops: seq<Op>)
    requires LegalRun(Books(Empty(limits), []), ops)
    requires forall l | l in Run(Books(Empty(limits), []), ops).leases :: l.released
    ensures Run(Books(Empty(limits), []), ops).quota == Empty(limits)
  {
    var b := Run(Books(Empty(limits), []), ops);
    EmptyIsSound(limits);
    ConservationOverRuns(Books(Empty(limits), []), ops);
    LimitsNeverChange(Books(Empty(limits), []), ops);
    NothingLive(b.leases, None);
    forall p ensures p !in b.quota.peers { NothingLive(b.leases, Some(p)); }
    assert b.quota.peers == map[];
  }

  /** AddBytes keeps the books exactly when the lease is still held or the call has no effect. */
  lemma GrowConservesIff(b: Books, i: nat, n: int)
    requires Sound(b) && i < |b.leases|
    ensures Conserved(Apply(b, GrowOp(i, n)))
       <==> !b.leases[i].released || !Grows(b.leases[i], n) || GrowError(b.quota, b.leases[i].peer, n).Some?
  {
    var b' := Apply(b, GrowOp(i, n));
    if !b.leases[i].released {
      GrowKeepsSound(b, i, n);
    } else if GrowRefused(b.quota, b.leases[i], n) || !Grows(b.leases[i], n) {
      assert b.leases[i := b.leases[i]] == b.leases;
    } else {
      SumsAfterUpdate(b.leases, i, b'.leases[i], None);
    }
  }

  /** Growing after Release leaks: nothing is live, yet bytes stay reserved. */
  lemma GrowAfterReleaseLeaks()
    ensures var ops := [AcquireOp("p", 0), ReleaseOp(0), GrowOp(0, 5)];
            var b := Run(Books(Empty(Limits(0, 0, 0, 0)), []), ops);
            |b.leases| == 1 && b.leases[0].released && b.quota.bytes == 5
  {
    var b0 := Books(Empty(Limits(0, 0, 0, 0)), []);
    var b1 := Apply(b0, AcquireOp("p", 0));
    var b2 := Apply(b1, ReleaseOp(0));
    var b3 := Apply(b2, GrowOp(0, 5));
    var ops := [AcquireOp("p", 0), ReleaseOp(0), GrowOp(0, 5)];
    assert ops[1..] == [ReleaseOp(0), GrowOp(0, 5)] && ops[1..][1..] == [GrowOp(0, 5)] && ops[1..][1..][1..] == [];
    assert Run(b0, ops) == Run(b1, ops[1..]) == Run(b2, ops[1..][1..]) == Run(b3, []);
  }

  // ----- the objects of the program

  class TransferQuota {
    const limits: Limits
    var activeTransfers: int
    var activeBytes: int
    var peers: map<string, Usage>

    ghost function View(): Quota
      reads this
    {
      Quota(limits, activeTransfers, activeBytes, peers)
    }

    constructor (limits: Limits)
      ensures View() == Empty(limits)
    {
      this.limits := limits;
      activeTransfers, activeBytes, peers := 0, 0, map[];
    }

    /** The bytes reserved at first: all of a declared size, one chunk of an unknown one. */
    method Reserve(declared: int) returns (reservation: int)
      ensures reservation == Reservation(limits, declared)
    {
      reservation := declared;
      if declared == 0 {
        reservation := DEFAULT_CHUNK_SIZE;
        if limits.maxBytes > 0 && reservation > limits.maxBytes { reservation := limits.maxBytes; }
        if limits.maxPeerBytes > 0 && reservation > limits.maxPeerBytes { reservation := limits.maxPeerBytes; }
      }
    }

    method Acquire(rawPeer: string, declared: int) returns (r: Result<TransferLease, QuotaError>)
      modifies this
      ensures AcquireError(old(View()), rawPeer, declared).Some? ==>
                && View() == old(View())
                && r == Err(AcquireError(old(View()), rawPeer, declared).value)
      ensures AcquireError(old(View()), rawPeer, declared).None? ==>
                && View() == Acquired(old(View()), rawPeer, declared)
                && r.Ok? && fresh(r.value) && r.value.quota == this
                && r.value.View() == NewLease(limits, rawPeer, declared)
    {
      hide NormalizePeer; hide Reservation;
      var peer := NormalizePeer(rawPeer);
      if declared < 0 { return Err(NegativeSize); }
      var reservation := Reserve(declared);
      var unknown := declared == 0;
      var usage := if peer in peers then peers[peer] else Usage(0, 0);
      assert usage == UsageOf(View(), peer);
      if reservation > 0
         && (activeBytes > MAX_QUOTA_BYTES - reservation || usage.bytes > MAX_QUOTA_BYTES - reservation) {
        return Err(CounterOverflow);
      }
      if limits.maxTransfers > 0 && activeTransfers >= limits.maxTransfers { return Err(TooManyTransfers); }
      if limits.maxPeerTransfers > 0 && usage.transfers >= limits.maxPeerTransfers { return Err(TooManyPeerTransfers); }
      if limits.maxBytes > 0 && (activeBytes > limits.maxBytes || reservation > limits.maxBytes - activeBytes) {
        return Err(ByteBudget);
      }
      if limits.maxPeerBytes > 0
         && (usage.bytes > limits.maxPeerBytes || reservation > limits.maxPeerBytes - usage.bytes) {
        return Err(PeerByteBudget);
      }
      activeTransfers := activeTransfers + 1;
      activeBytes := activeBytes + reservation;
      peers := peers[peer := Usage(usage.transfers + 1, usage.bytes + reservation)];
      var lease := new TransferLease(this, peer, reservation, unknown);
      return Ok(lease);
    }
  }

  class TransferLease {
    const quota: TransferQuota
    const peer: string
    var bytes: int
    const unknown: bool
    var released: bool

    ghost function View(): Lease
      reads this
    {
      Lease(peer, bytes, unknown, released)
    }

    constructor (quota: TransferQuota, peer: string, bytes: int, unknown: bool)
      ensures this.quota == quota && View() == Lease(peer, bytes, unknown, false)
    {
      this.quota, this.peer, this.bytes, this.unknown := quota, peer, bytes, unknown;
      released := false;
    }

    method AddBytes(n: int) returns (r: Option<QuotaError>)
      modifies this, quota
      ensures (quota.View(), View()) == Grown(old(quota.View()), old(View()), n)
      ensures r.Some? <==> GrowRefused(old(quota.View()), old(View()), n)
      ensures r.Some? ==> r == GrowError(old(quota.View()), peer, n)
    {
      if n <= 0 || !unknown { return None; }
      var usage := if peer in quota.peers then quota.peers[peer] else Usage(0, 0);
      if quota.activeBytes > MAX_QUOTA_BYTES - n || usage.bytes > MAX_QUOTA_BYTES - n { return Some(CounterOverflow); }
      var lim := quota.limits;
      if lim.maxBytes > 0 && (quota.activeBytes > lim.maxBytes || n > lim.maxBytes - quota.activeBytes) {
        return Some(ByteBudget);
      }
      if lim.maxPeerBytes > 0 && (usage.bytes > lim.maxPeerBytes || n > lim.maxPeerBytes - usage.bytes) {
        return Some(PeerByteBudget);
      }
      quota.activeBytes := quota.activeBytes + n;
      quota.peers := quota.peers[peer := Usage(usage.transfers, usage.bytes + n)];
      bytes := bytes + n;
      return None;
    }

    method Release()
      modifies this, quota
      ensures (quota.View(), View()) == Released(old(quota.View()), old(View()))
    {
      if released { return; }
      released := true;
      if quota.activeTransfers > 0 { quota.activeTransfers := quota.activeTransfers - 1; }
      quota.activeBytes := if quota.activeBytes >= bytes then quota.activeBytes - bytes else 0;
      var usage := if peer in quota.peers then quota.peers[peer] else Usage(0, 0);
      if usage.transfers > 0 { usage := usage.(transfers := usage.transfers - 1); }
      usage := usage.(bytes := if usage.bytes >= bytes then usage.bytes - bytes else 0);
      if usage.transfers == 0 && usage.bytes == 0 {
        quota.peers := quota.peers - {peer};
      } else {
        quota.peers := quota.peers[peer := usage];
      }
    }
  }
}
