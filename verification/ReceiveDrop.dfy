/** The receiver as it runs: ReceiveDrop over a channel, a destination, the quota and the ledger. */
module ReceiveDrops {
  import opened Common
  import opened Protocol
  import opened Channel
  import opened Files
  import opened Quotas
  import opened Ledger
  import opened Receiver
  import opened Reception

  ghost function AccountOf(lease: TransferLease?): Account
    reads lease, if lease == null then {} else {lease.quota}
  {
    if lease == null then Unmetered else Metered(lease.quota.View(), lease.View())
  }

  ghost function QuotaOf(q: TransferQuota?): Option<Quota>
    reads q
  {
    if q == null then None else Some(q.View())
  }

  ghost function DestOf(d: Destination?): Option<Dest>
    reads d
  {
    if d == null then None else Some(d.View())
  }

  ghost function LedgerOf(t: Tombstones?): Option<Entries>
    reads t
  {
    if t == null then None else Some(t.entries)
  }

  lemma CreditNothing(a: Account)
    ensures Credited(a, 0) == a
  {
  }

  lemma {:induction false} LoopSkipsHeartbeats(h: HashFn, job: Job, p: Progress, a: Account, inbox: seq<Msg>)
    ensures var (m, rest) := Next(inbox);
            Loop(h, job, p, a, inbox)
              == if m.None? then State(Failed(ConnectionLost), p, a) else Loop(h, job, p, a, [m.value] + rest)
    decreases |inbox|
  {
    if inbox == [] {
    } else {
      if inbox[0].Heartbeat? { LoopSkipsHeartbeats(h, job, p, a, inbox[1..]); }
      else { assert [inbox[0]] + inbox[1..] == inbox; }
    }
  }

  /** Receives and absorbs chunks until the final one, an error, or the channel's end. */
  method ReceiveChunks(h: HashFn, job: Job, conn: Conn, d: Destination, lease: TransferLease?,
                       index0: int, total0: int, hashed0: Bytes)
    returns (failure: Option<Reject>, total: int, hashed: Bytes)
    modifies conn`inbox, conn`echoes, d, if lease == null then {} else {lease, lease.quota}
    ensures var st := Loop(h, job, Progress(index0, total0, hashed0, old(d.View())), old(AccountOf(lease)),
              old(conn.inbox));
            && st.verdict == (if failure.None? then Accepted else Failed(failure.value))
            && total == st.p.total && hashed == st.p.hashed
            && d.View() == st.p.dest && AccountOf(lease) == st.a
  {
    hide ChunkError; hide FinalError; hide Written; hide Fits; hide GrowError; hide Charge;
    var index := index0;
    total, hashed := total0, hashed0;
    ghost var goal := Loop(h, job, Progress(index, total, hashed, d.View()), AccountOf(lease), conn.inbox);
    while true
      invariant goal == Loop(h, job, Progress(index, total, hashed, d.View()), AccountOf(lease), conn.inbox)
      decreases |conn.inbox|
    {
      LoopSkipsHeartbeats(h, job, Progress(index, total, hashed, d.View()), AccountOf(lease), conn.inbox);
      var msg := conn.Receive();
      match msg {
        case None => return Some(ConnectionLost), total, hashed;
        case Some(DataMsg(c)) =>
          var n := |c.data|;
          var objection := ChunkError(job, index, total, c);
          if objection.Some? { return objection, total, hashed; }
          if n > 0 {
            if lease != null {
              var refused := lease.AddBytes(n);
              if refused.Some? { return Some(QuotaRefused(refused.value)), total, hashed; }
            }
            var written := d.Write(c.data);
            if written != n { return Some(WriteFailed), total, hashed; }
            hashed := hashed + c.data;
            total := total + n;
          }
          if n == 0 {
            assert hashed + c.data == hashed && c.data == [];
            WritingNothing(d.View());
            CreditNothing(AccountOf(lease));
          }
          index := index + 1;
          if c.final {
            return FinalError(h, job, total, hashed, c), total, hashed;
          }
        case Some(Garbled) => return Some(Undecodable), total, hashed;
        case Some(_) => return Some(UnexpectedMessage), total, hashed;
      }
    }
  }

  /** Hashes the bytes already there and leaves the destination at the resume point. */
  method PrepareResume(job: Job, d: Destination, k: nat) returns (r: Result<Bytes, Reject>)
    requires job.chunk > 0
    modifies d
    ensures match ResumeError(job, k, old(d.View()))
            case Some(e) =>
              && r == Err(e)
              && d.View() == if e == ShortPartial then old(d.View()).(pos := |old(d.View()).content|) else old(d.View())
            case None =>
              var p := Start(job, k, old(d.View()));
              r == Ok(p.hashed) && d.View() == p.dest
  {
    if k == 0 { return Ok([]); }
    if k % job.chunk != 0 { return Err(Misaligned); }
    if !d.kind.Seekable? { return Err(NotRewindable); }
    d.Seek(0);
    var prefix := d.Read(k);
    if |prefix| < k { return Err(ShortPartial); }
    d.Seek(k);
    return Ok(prefix);
  }

  /** The ledger holds what recording `e` leaves, or is untouched when nothing is recorded. */
  ghost predicate Remembers(before: Option<Entries>, e: Option<Entry>, ledger: Tombstones?, now: nat)
    reads ledger
  {
    if e.None? || ledger == null then LedgerOf(ledger) == before
    else before.Some? && IsRecorded(before.value, e.value, now, ledger.maxAge, ledger.maxEntries, ledger.entries)
  }

  lemma NothingRemembered(ledger: Tombstones?, now: nat)
    ensures Remembers(LedgerOf(ledger), None, ledger, now)
  {
  }

  /** After the last chunk: the publication hook, the ledger, the success reply. */
  method FinishTransfer(h: HashFn, m: DropSend, job: Job, conn: Conn, ledger: Tombstones?, now: nat, hook: Hook,
                        total: int, hashed: Bytes, ghost s: Setup, ghost p: Progress, ghost a: Account)
    returns (result: Result<Receipt, Reject>, published: bool)
    requires ledger != null ==> WellKeyed(ledger.entries)
    requires s.ledger.Some? == (ledger != null) && s.hook == hook
    requires p.total == total && p.hashed == hashed
    modifies conn`outbox, conn`sendsLeft, ledger
    ensures ledger != null ==> WellKeyed(ledger.entries)
    ensures var e := Finish(h, m, job, s, old(conn.sendsLeft), p, a);
            && result == e.result && published == e.published
            && conn.outbox == old(conn.outbox) + e.reply
            && e.dest == p.dest && e.account == a
            && Remembers(old(LedgerOf(ledger)), e.recorded, ledger, now)
  {
    var sha := h(hashed);
    var duplicate := job.recorded.Some?;
    if !duplicate && !hook.Delivers? {
      var sent := conn.Send(CompleteMsg(DropComplete(m.dropId, false, total, Some(sha), false)));
      return Err(PublicationFailed), hook.DeliversThenFails?;
    }
    published := !duplicate;
    if !duplicate && ledger != null && m.key != "" {
      ledger.Record(NewEntry(m, sha, total), now);
    }
    var ok := conn.Send(CompleteMsg(DropComplete(m.dropId, true, total, Some(sha), duplicate)));
    result := if ok then Ok(Receipt(total, sha, duplicate)) else Err(SendFailed);
  }

  method ReportFailure(conn: Conn, m: DropSend, r: Reject, total: int)
    modifies conn`outbox, conn`sendsLeft
    ensures conn.outbox == old(conn.outbox) + FailureReply(old(conn.sendsLeft), m.dropId, r, total, None)
  {
    if r != ConnectionLost {
      var sent := conn.Send(CompleteMsg(DropComplete(m.dropId, false, FailureBytes(r, total), None, false)));
    }
  }

  method ConcludeTransfer(h: HashFn, m: DropSend, job: Job, conn: Conn, d: Destination, lease: TransferLease?,
                          ledger: Tombstones?, now: nat, hook: Hook, k: nat, ghost s: Setup)
    returns (result: Result<Receipt, Reject>, published: bool, ghost e: Ending)
    requires job.chunk > 0 && (ledger != null ==> WellKeyed(ledger.entries))
    requires s.hook == hook && s.ledger == LedgerOf(ledger)
    modifies conn, d, ledger, if lease == null then {} else {lease, lease.quota}
    ensures ledger != null ==> WellKeyed(ledger.entries)
    ensures e == Conclude(h, m, job, s, old(conn.sendsLeft), k, old(d.View()), old(AccountOf(lease)), old(conn.inbox))
    ensures && result == e.result && published == e.published
            && conn.outbox == old(conn.outbox) + e.reply
            && d.View() == e.dest && AccountOf(lease) == e.account
            && Remembers(old(LedgerOf(ledger)), e.recorded, ledger, now)
  {
    hide Loop; hide Finish; hide Remembers; hide WellKeyed; hide ResumeError;
    NothingRemembered(ledger, now);
    e := Conclude(h, m, job, s, conn.sendsLeft, k, d.View(), AccountOf(lease), conn.inbox);
    var prefix := PrepareResume(job, d, k);
    if prefix.Err? {
      ReportFailure(conn, m, prefix.error, k);
      return Err(prefix.error), false, e;
    }
    ghost var st := Loop(h, job, Start(job, k, old(d.View())), AccountOf(lease), conn.inbox);
    var failure, total, hashed := ReceiveChunks(h, job, conn, d, lease, k / job.chunk, k, prefix.value);
    if failure.Some? {
      ReportFailure(conn, m, failure.value, total);
      return Err(failure.value), false, e;
    }
    result, published := FinishTransfer(h, m, job, conn, ledger, now, hook, total, hashed, s, st.p, st.a);
  }

  method TransferInto(h: HashFn, cfg: Config, m: DropSend, job: Job, conn: Conn, d: Destination, lease: TransferLease?,
                      ledger: Tombstones?, now: nat, hook: Hook, ghost s: Setup)
    returns (result: Result<Receipt, Reject>, published: bool, ghost e: Ending)
    requires job.chunk > 0 && (ledger != null ==> WellKeyed(ledger.entries))
    requires s.cfg == cfg && s.sends == conn.sendsLeft && s.hook == hook && s.ledger == LedgerOf(ledger)
    modifies conn, d, ledger, if lease == null then {} else {lease, lease.quota}
    ensures ledger != null ==> WellKeyed(ledger.entries)
    ensures e == Transfer(h, m, job, s, old(d.View()), old(AccountOf(lease)), old(conn.inbox))
    ensures && result == e.result && published == e.published
            && conn.outbox == old(conn.outbox) + e.reply
            && d.View() == e.dest && AccountOf(lease) == e.account
            && Remembers(old(LedgerOf(ledger)), e.recorded, ledger, now)
  {
    hide Conclude; hide Remembers; hide WellKeyed; hide AccountOf;
    e := Transfer(h, m, job, s, d.View(), AccountOf(lease), conn.inbox);
    NothingRemembered(ledger, now);
    var objection := DestError(cfg, job, d.View());
    if objection.Some? {
      var sent := conn.Send(Refusal(m));
      return Err(objection.value), false, e;
    }
    var k := AckOffset(cfg, job, d.View());
    var acked := conn.Send(AckMsg(DropAck(m.dropId, true, k)));
    if !acked { return Err(SendFailed), false, e; }
    ghost var tail;
    result, published, tail := ConcludeTransfer(h, m, job, conn, d, lease, ledger, now, hook, k, s);
    assert e == tail.(reply := [AckMsg(DropAck(m.dropId, true, k))] + tail.reply);
  }

  /** Runs the transfer and releases the lease however it ends. */
  method UseLease(h: HashFn, cfg: Config, m: DropSend, found: Option<Entry>, conn: Conn, dest: Destination?,
                  lease: TransferLease?, ledger: Tombstones?, now: nat, hook: Hook, ghost s: Setup)
    returns (result: Result<Receipt, Reject>, published: bool)
    requires ledger != null ==> WellKeyed(ledger.entries)
    requires s.cfg == cfg && s.sends == conn.sendsLeft && s.dest == DestOf(dest) && s.ledger == LedgerOf(ledger)
             && s.hook == hook
    requires NegotiatedChunk(m) > 0
    modifies conn, dest, ledger, if lease == null then {} else {lease, lease.quota}
    ensures ledger != null ==> WellKeyed(ledger.entries)
    ensures var r := Underwrite(h, m, s, found, old(AccountOf(lease)), old(conn.inbox));
            && result == r.result && published == r.published
            && conn.outbox == old(conn.outbox) + r.replies
            && DestOf(dest) == r.dest && r.quota == (if lease == null then None else Some(lease.quota.View()))
            && Remembers(old(LedgerOf(ledger)), r.recorded, ledger, now)
  {
    hide Transfer; hide Remembers; hide WellKeyed; hide Released;
    NothingRemembered(ledger, now);
    var target := dest;
    if found.Some? { target := new Destination(Discard, [], 0, 0); }
    if target == null {
      var sent := conn.Send(Refusal(m));
      result, published := Err(NoDestination), false;
    } else {
      ghost var e;
      result, published, e := TransferInto(h, cfg, m, NewJob(cfg, m, found), conn, target, lease, ledger, now, hook, s);
    }
    if lease != null { lease.Release(); }
  }

  /** Checks metadata, the ledger and the quota, then runs the transfer under a lease that is always released. */
  method AdmitTransfer(h: HashFn, cfg: Config, m: DropSend, conn: Conn, dest: Destination?, quota: TransferQuota?,
                       peer: string, ledger: Tombstones?, now: nat, hook: Hook, ghost s: Setup)
    returns (result: Result<Receipt, Reject>, published: bool, ghost r: Reception)
    requires ledger != null ==> WellKeyed(ledger.entries)
    requires s.cfg == cfg && s.sends == conn.sendsLeft && s.dest == DestOf(dest) && s.quota == QuotaOf(quota)
    requires s.peer == peer && s.ledger == LedgerOf(ledger) && s.hook == hook
    modifies conn, dest, quota, ledger
    ensures ledger != null ==> WellKeyed(ledger.entries)
    ensures r == Admit(h, m, s, old(conn.inbox))
    ensures && result == r.result && published == r.published
            && conn.outbox == old(conn.outbox) + r.replies
            && DestOf(dest) == r.dest && QuotaOf(quota) == r.quota
            && Remembers(old(LedgerOf(ledger)), r.recorded, ledger, now)
  {
    hide Remembers; hide WellKeyed; hide AcquireError; hide Acquired; hide NewLease; hide Released; hide Underwrite;
    hide IsInk;
    NothingRemembered(ledger, now);
    published, r := false, Admit(h, m, s, conn.inbox);
    var found := None;
    if ledger != null && m.key != "" { found := ledger.Lookup(m.key); }
    var objection := MetaError(cfg, m, found);
    if objection.Some? {
      var sent := conn.Send(Refusal(m));
      return Err(objection.value), false, r;
    }
    var lease: TransferLease? := null;
    if quota != null {
      var granted := quota.Acquire(peer, m.size);
      if granted.Err? {
        var sent := conn.Send(Refusal(m));
        return Err(QuotaRefused(granted.error)), false, r;
      }
      lease := granted.value;
    }
    result, published := UseLease(h, cfg, m, found, conn, dest, lease, ledger, now, hook, s);
  }

  /** ReceiveDrop: one receive attempt, from the first message to the last reply. */
  method ReceiveDrop(h: HashFn, cfg: Config, conn: Conn, dest: Destination?, quota: TransferQuota?, peer: string,
                     ledger: Tombstones?, now: nat, hook: Hook)
    returns (result: Result<Receipt, Reject>, published: bool)
    requires ledger != null ==> WellKeyed(ledger.entries)
    modifies conn, dest, quota, ledger
    ensures ledger != null ==> WellKeyed(ledger.entries)
    ensures var r := Receive(h, Setup(cfg, old(conn.inbox), old(conn.sendsLeft), old(DestOf(dest)), old(QuotaOf(quota)),
                                      peer, old(LedgerOf(ledger)), hook));
            && result == r.result && published == r.published
            && conn.outbox == old(conn.outbox) + r.replies
            && DestOf(dest) == r.dest && QuotaOf(quota) == r.quota
            && Remembers(old(LedgerOf(ledger)), r.recorded, ledger, now)
  {
    hide Admit; hide Remembers; hide WellKeyed; hide DestOf; hide QuotaOf; hide LedgerOf;
    NothingRemembered(ledger, now);
    var first := conn.Receive();
    match first {
      case None => return Err(ConnectionLost), false;
      case Some(SendMsg(m)) =>
        ghost var s := Setup(cfg, old(conn.inbox), conn.sendsLeft, DestOf(dest), QuotaOf(quota), peer,
                    LedgerOf(ledger), hook);
        ghost var r;
        result, published, r := AdmitTransfer(h, cfg, m, conn, dest, quota, peer, ledger, now, hook, s);
      case Some(Garbled) => return Err(Undecodable), false;
      case Some(_) => return Err(UnexpectedMessage), false;
    }
  }
}
