/** Any number of concurrent receive attempts sharing one quota: what is written never exceeds the budgets. */
module ByteBound {
  import opened Common
  import opened Protocol
  import opened Files
  import opened Quotas
  import opened Ledger
  import opened Receiver
  import opened Reception
  import Channel

  /** A running attempt; `room0` is the room its destination had at the start, so the difference is what it wrote. */
  datatype Active = Active(job: Job, p: Progress, room0: nat, finished: bool) {
    function Wrote(): int { room0 - p.dest.room }
  }

  /** The quota's books and, for each lease ever issued, the attempt that holds it. */
  datatype Sys = Sys(books: Books, acts: seq<Active>)

  datatype Step =
    | Begin(peer: string, job: Job, p: Progress)
    | Deliver(attempt: nat, chunk: DropData)
    | End(attempt: nat)

  /** One step of one attempt, in any interleaving: admission, one chunk through the receive loop, or the release. */
  function Next(h: HashFn, s: Sys, t: Step): Sys {
    match t
    case Begin(peer, job, p) =>
      if AcquireError(s.books.quota, peer, job.size).Some? then s
      else Sys(Books(Acquired(s.books.quota, peer, job.size),
                     s.books.leases + [NewLease(s.books.quota.limits, peer, job.size)]),
               s.acts + [Active(job, p, p.dest.room, false)])
    case Deliver(i, c) =>
      if i >= |s.acts| || i >= |s.books.leases| || s.acts[i].finished || s.books.leases[i].released then s
      else
        var act := s.acts[i];
        var r := Absorb(h, act.job, act.p, Metered(s.books.quota, s.books.leases[i]), c);
        Sys(Books(r.a.quota, s.books.leases[i := r.a.lease]), s.acts[i := act.(p := r.p, finished := !r.verdict.More?)])
    case End(i) =>
      if i >= |s.books.leases| then s
      else
        var (q, l) := Released(s.books.quota, s.books.leases[i]);
        s.(books := Books(q, s.books.leases[i := l]))
  }

  function Reach(h: HashFn, s: Sys, ts: seq<Step>): Sys
    decreases |ts|
  {
    if ts == [] then s else Reach(h, Next(h, s, ts[0]), ts[1..])
  }

  /** Attempts begin where the loop invariant holds, with a declared or unknown size. */
  ghost predicate Admissible(t: Step) {
    t.Begin? ==> t.job.size >= 0 && LoopInv(t.job, t.p) && (t.job.size > 0 ==> t.p.total <= t.job.size)
  }

  /** An attempt's writes are covered by its lease. */
  ghost predicate Covered(act: Active, l: Lease) {
    && 0 <= act.Wrote() <= l.bytes
    && act.job.size >= 0 && (l.unknown <==> act.job.size == 0)
    && (act.job.size > 0 ==> l.bytes == act.job.size && (!act.finished ==> act.Wrote() <= act.p.total))
  }

  ghost predicate Inv(s: Sys) {
    && Sound(s.books)
    && |s.acts| == |s.books.leases|
    && forall i | 0 <= i < |s.acts| :: Covered(s.acts[i], s.books.leases[i])
  }

  /** One chunk: the lease grows before the write, and by no less. */
  lemma AbsorbStaysCovered(h: HashFn, act: Active, q: Quota, l: Lease, c: DropData)
    requires Covered(act, l) && !act.finished
    ensures var r := Absorb(h, act.job, act.p, Metered(q, l), c);
            && r.a.Metered?
            && Covered(act.(p := r.p, finished := !r.verdict.More?), r.a.lease)
            && ((r.a.quota, r.a.lease) == (q, l) || (r.a.quota, r.a.lease) == Grown(q, l, |c.data|))
  {
  }

  lemma AcquiredLeaseCovers(q: Quota, peer: string, job: Job, p: Progress)
    requires job.size >= 0 && LoopInv(job, p) && AcquireError(q, peer, job.size).None?
    ensures Covered(Active(job, p, p.dest.room, false), NewLease(q.limits, peer, job.size))
  {
  }

  lemma ReleaseKeepsCover(q: Quota, l: Lease, act: Active)
    requires Covered(act, l)
    ensures Covered(act, Released(q, l).1)
  {
  }

  lemma StepKeepsInv(h: HashFn, s: Sys, t: Step)
    requires Inv(s) && Admissible(t)
    ensures Inv(Next(h, s, t))
  {
    hide Sound; hide Absorb; hide AcquireError; hide Acquired; hide Grown; hide Released;
    match t
    case Begin(peer, job, p) =>
      AcquireKeepsSound(s.books, peer, job.size);
      if AcquireError(s.books.quota, peer, job.size).None? { AcquiredLeaseCovers(s.books.quota, peer, job, p); }
    case Deliver(i, c) =>
      if i < |s.acts| && !s.acts[i].finished && !s.books.leases[i].released {
        AbsorbStaysCovered(h, s.acts[i], s.books.quota, s.books.leases[i], c);
        GrowKeepsSound(s.books, i, |c.data|);
        assert s.books.leases[i := s.books.leases[i]] == s.books.leases;
        assert s.books == Books(s.books.quota, s.books.leases);
      }
    case End(i) =>
      ReleaseKeepsSound(s.books, i);
      if i < |s.books.leases| { ReleaseKeepsCover(s.books.quota, s.books.leases[i], s.acts[i]); }
  }

  /** One attempt after its admission, with nobody else taking a step. */
  function Deliveries(i: nat, cs: seq<DropData>): seq<Step> {
    seq(|cs|, k requires 0 <= k < |cs| => Deliver(i, cs[k]))
  }

  lemma {:induction false} FinishedStays(h: HashFn, s: Sys, i: nat, cs: seq<DropData>)
    requires i < |s.acts| && s.acts[i].finished
    ensures Reach(h, s, Deliveries(i, cs)) == s
    decreases |cs|
  {
    if cs == [] {
    } else {
      assert Deliveries(i, cs)[1..] == Deliveries(i, cs[1..]);
      FinishedStays(h, s, i, cs[1..]);
    }
  }

  /** The steps of an attempt are the receive loop: undisturbed, they write and reserve what it does. */
  lemma {:induction false} DeliveriesAreTheLoop(h: HashFn, s: Sys, i: nat, cs: seq<DropData>)
    requires i < |s.acts| == |s.books.leases| && !s.acts[i].finished && !s.books.leases[i].released
    ensures var t := Reach(h, s, Deliveries(i, cs));
            var a := Metered(s.books.quota, s.books.leases[i]);
            && i < |t.acts| == |t.books.leases|
            && t.acts[i].p == LoopChunks(h, s.acts[i].job, s.acts[i].p, a, cs).p
            && Metered(t.books.quota, t.books.leases[i]) == LoopChunks(h, s.acts[i].job, s.acts[i].p, a, cs).a
    decreases |cs|
  {
    hide GrowError; hide Charge; hide Written; hide ChunkError; hide FinalError;
    if cs == [] {
    } else {
      assert Deliveries(i, cs)[0] == Deliver(i, cs[0]) && Deliveries(i, cs)[1..] == Deliveries(i, cs[1..]);
      var t := Next(h, s, Deliver(i, cs[0]));
      if t.acts[i].finished { FinishedStays(h, t, i, cs[1..]); } else { DeliveriesAreTheLoop(h, t, i, cs[1..]); }
    }
  }

  /** Admission opens an account of its own for the attempt and starts it where it was told to. */
  lemma BeginOpens(h: HashFn, s: Sys, peer: string, job: Job, p: Progress)
    requires |s.acts| == |s.books.leases| && AcquireError(s.books.quota, peer, job.size).None?
    ensures var t := Next(h, s, Begin(peer, job, p));
            var i := |s.acts|;
            && |t.acts| == |t.books.leases| == i + 1 && t.acts[..i] == s.acts && t.books.leases[..i] == s.books.leases
            && t.acts[i] == Active(job, p, p.dest.room, false) && !t.books.leases[i].released
            && Metered(t.books.quota, t.books.leases[i]) == OpenAccount(Some(s.books.quota), peer, job.size)
  {
  }

  // ----- the bound

  /** Bytes written by the attempts that still hold a lease counting towards `who`. */
  ghost function LiveWrites(ls: seq<Lease>, acts: seq<Active>, who: Option<string>): int
    requires |ls| == |acts|
  {
    if ls == [] then 0
    else
      var n := |ls| - 1;
      LiveWrites(ls[..n], acts[..n], who) + if Counts(ls[n], who) then acts[n].Wrote() else 0
  }

  lemma {:induction false} WritesBelowLeases(ls: seq<Lease>, acts: seq<Active>, who: Option<string>)
    requires |ls| == |acts| && forall i | 0 <= i < |ls| :: Covered(acts[i], ls[i])
    ensures 0 <= LiveWrites(ls, acts, who) <= LiveBytes(ls, who)
  {
    if ls == [] {
    } else {
      WritesBelowLeases(ls[..|ls| - 1], acts[..|ls| - 1], who);
    }
  }

  lemma StepKeepsLimits(h: HashFn, s: Sys, t: Step)
    ensures Next(h, s, t).books.quota.limits == s.books.quota.limits
  {
  }

  lemma {:induction false} ReachKeepsInv(h: HashFn, s: Sys, ts: seq<Step>)
    requires Inv(s) && forall t | t in ts :: Admissible(t)
    ensures Inv(Reach(h, s, ts)) && Reach(h, s, ts).books.quota.limits == s.books.quota.limits
    decreases |ts|
  {
    hide Inv; hide Admissible;
    if ts == [] {
    } else {
      StepKeepsInv(h, s, ts[0]);
      StepKeepsLimits(h, s, ts[0]);
      ReachKeepsInv(h, Next(h, s, ts[0]), ts[1..]);
    }
  }

  /**
   * System-wide bound: in every reachable state the live attempts' writes stay
   * within the total and the per-peer byte budgets, for declared and unknown
   * sizes alike.
   */
  lemma BudgetsBoundAllWrites(h: HashFn, limits: Limits, ts: seq<Step>, peer: string)
    requires forall t | t in ts :: Admissible(t)
    ensures var s := Reach(h, Sys(Books(Empty(limits), []), []), ts);
            && |s.acts| == |s.books.leases|
            && (forall i | 0 <= i < |s.acts| :: s.acts[i].Wrote() <= s.books.leases[i].bytes)
            && (limits.maxBytes > 0 ==> LiveWrites(s.books.leases, s.acts, None) <= limits.maxBytes)
            && (limits.maxPeerBytes > 0 ==> LiveWrites(s.books.leases, s.acts, Some(peer)) <= limits.maxPeerBytes)
  {
    var s0 := Sys(Books(Empty(limits), []), []);
    var s := Reach(h, s0, ts);
    EmptyIsSound(limits);
    ReachKeepsInv(h, s0, ts);
    WritesBelowLeases(s.books.leases, s.acts, None);
    WritesBelowLeases(s.books.leases, s.acts, Some(peer));
    assert UsageOf(s.books.quota, peer).bytes == LiveBytes(s.books.leases, Some(peer));
  }

  // ----- one attempt from beginning to end

  /** A quota as its operations leave it: counters are not negative, and only peers with live transfers are listed. */
  ghost predicate Tidy(q: Quota) {
    q.transfers >= 0 && q.bytes >= 0 && forall p | p in q.peers :: q.peers[p].transfers > 0 && q.peers[p].bytes >= 0
  }

  lemma SoundIsTidy(b: Books)
    requires Sound(b)
    ensures Tidy(b.quota)
  {
    SumsNonNegative(b.leases, None);
    forall p | p in b.quota.peers ensures b.quota.peers[p].transfers > 0 && b.quota.peers[p].bytes >= 0 {
      SumsNonNegative(b.leases, Some(p));
      assert UsageOf(b.quota, p) == b.quota.peers[p];
    }
  }

  /** The account is `before` with one more transfer of `peer`, charged with what the lease holds. */
  ghost predicate ChargedOn(before: Option<Quota>, peer: string, a: Account) {
    match a
    case Unmetered => before.None?
    case Metered(q, l) =>
      && before.Some? && !l.released && l.peer == peer && l.bytes > 0
      && q == Charge(before.value, peer, 1, l.bytes)
  }

  lemma CreditKeepsCharge(before: Option<Quota>, peer: string, a: Account, n: nat)
    requires ChargedOn(before, peer, a)
    ensures ChargedOn(before, peer, Credited(a, n))
  {
    if a.Metered? {
      var u := UsageOf(before.value, peer);
      var u' := Usage(u.transfers + 1, u.bytes + a.lease.bytes + n);
      assert a.quota.peers[peer := u'] == before.value.peers[peer := u'];
    }
  }

  lemma {:induction false} LoopKeepsCharge(h: HashFn, job: Job, p: Progress, a: Account, inbox: seq<Msg>,
                                           before: Option<Quota>, peer: string)
    requires ChargedOn(before, peer, a)
    ensures ChargedOn(before, peer, Loop(h, job, p, a, inbox).a)
    decreases |inbox|
  {
    hide ChargedOn; hide Credited; hide ChunkError; hide FinalError;
    if inbox == [] {
    } else {
      match inbox[0]
      case Heartbeat => LoopKeepsCharge(h, job, p, a, inbox[1..], before, peer);
      case DataMsg(c) =>
        CreditKeepsCharge(before, peer, a, |c.data|);
        var s := Absorb(h, job, p, a, c);
        if s.verdict.More? { LoopKeepsCharge(h, job, s.p, s.a, inbox[1..], before, peer); }
      case _ =>
    }
  }

  lemma ReleaseUndoesCharge(before: Option<Quota>, peer: string, a: Account)
    requires (before.Some? ==> Tidy(before.value)) && ChargedOn(before, peer, a)
    ensures ClosedQuota(a) == before
  {
    if a.Metered? {
      var peers := before.value.peers;
      if peer in peers {
        assert a.quota.peers[peer := peers[peer]] == peers;
      } else {
        assert a.quota.peers - {peer} == peers;
      }
    }
  }

  lemma MetaErrorChecksSize(cfg: Config, m: DropSend, found: Option<Entry>)
    ensures MetaError(cfg, m, found).None? ==> m.size >= 0
  {
  }

  /** Every attempt, however it ends, leaves the quota exactly as it found it. */
  lemma AttemptRestoresQuota(h: HashFn, s: Setup)
    requires s.quota.Some? ==> Tidy(s.quota.value)
    ensures Receive(h, s).quota == s.quota
  {
    hide Loop; hide MetaError; hide AcquireError; hide Released; hide Charge; hide ResumeError;
    var (first, rest) := Channel.Next(s.inbox);
    if first.Some? && first.value.SendMsg? {
      var m := first.value.send;
      var found := Lookup(s.ledger, m.key);
      if MetaError(s.cfg, m, found).None? && (s.quota.Some? ==> AcquireError(s.quota.value, s.peer, m.size).None?) {
        var job := NewJob(s.cfg, m, found);
        var a := OpenAccount(s.quota, s.peer, m.size);
        var d := if found.Some? || s.dest.None? then DISCARD else s.dest.value;
        var k := AckOffset(s.cfg, job, d);
        MetaErrorChecksSize(s.cfg, m, found);
        ReleaseUndoesCharge(s.quota, NormalizePeer(s.peer), a);
        if k >= 0 && ResumeError(job, k, d).None? {
          LoopKeepsCharge(h, job, Start(job, k, d), a, rest, s.quota, NormalizePeer(s.peer));
          ReleaseUndoesCharge(s.quota, NormalizePeer(s.peer), Loop(h, job, Start(job, k, d), a, rest).a);
        }
      }
    }
  }

  /**
   * After any legal run of acquisitions, growths and releases, one more attempt
   * leaves the quota as that run left it.
   */
  lemma AttemptRestoresQuotaAfterRun(h: HashFn, limits: Quotas.Limits, ops: seq<Op>, s: Setup)
    requires LegalRun(Books(Empty(limits), []), ops)
    requires s.quota == Some(Run(Books(Empty(limits), []), ops).quota)
    ensures Receive(h, s).quota == s.quota
  {
    hide Receive;
    EmptyIsSound(limits);
    ConservationOverRuns(Books(Empty(limits), []), ops);
    SoundIsTidy(Run(Books(Empty(limits), []), ops));
    AttemptRestoresQuota(h, s);
  }
}
