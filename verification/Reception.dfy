/**
 * ReceiveDrop as a whole (internal/drop/receiver.go:228-757): what one attempt
 * answers, writes, reserves and records.
 */
module Reception {
  import opened Common
  import opened Protocol
  import opened Files
  import opened Quotas
  import opened Ledger
  import opened Receiver
  import opened Channel

  /** What the publication hook does when it is called: it may also deliver the file and report an error afterwards. */
  datatype Hook = Delivers | DeliversThenFails | Refuses

  /** Everything one attempt depends on: its channel, its destination and the stores shared with other attempts. */
  datatype Setup = Setup(
    cfg: Config, inbox: seq<Msg>, sends: nat, dest: Option<Dest>,
    quota: Option<Quota>, peer: string, ledger: Option<Entries>, hook: Hook)

  datatype Receipt = Receipt(bytes: int, sha: Digest, duplicate: bool)

  /**
   * What one attempt leaves behind. `verified` is the digest of an accepted stream,
   * `published` whether a file was delivered, and `recorded` the entry handed to
   * the ledger, before it is stamped.
   */
  datatype Reception = Reception(
    result: Result<Receipt, Reject>, replies: seq<Msg>, dest: Option<Dest>, quota: Option<Quota>,
    verified: Option<Digest>, published: bool, recorded: Option<Entry>)

  const DISCARD: Dest := Dest(Discard, [], 0, 0)

  function Lookup(ledger: Option<Entries>, key: string): Option<Entry> {
    if ledger.Some? && key != "" then Find(ledger.value, key) else None
  }

  function Refusal(m: DropSend): Msg { AckMsg(DropAck(m.dropId, false, 0)) }

  /** Some refusals report the bytes received so far, others report none. */
  function FailureBytes(r: Reject, total: int): int {
    match r
    case OversizedChunk | ShortChunk | BeyondDeclaredSize | FinalSizeMismatch | MissingDigest => 0
    case Misaligned | NotRewindable | ShortPartial => 0
    case _ => total
  }

  /** A message that is sent if the channel still carries it, and dropped silently otherwise. */
  function Say(sends: nat, msg: Msg): seq<Msg> {
    if sends > 0 then [msg] else []
  }

  /** The completion sent when the attempt fails after the acknowledgement; a dead channel gets none. */
  function FailureReply(sends: nat, id: string, r: Reject, total: int, sha: Option<Digest>): seq<Msg> {
    if r == ConnectionLost then []
    else Say(sends, CompleteMsg(DropComplete(id, false, FailureBytes(r, total), sha, false)))
  }

  function OpenAccount(quota: Option<Quota>, peer: string, size: int): Account {
    if quota.None? then Unmetered
    else Metered(Acquired(quota.value, peer, size), NewLease(quota.value.limits, peer, size))
  }

  function ClosedQuota(a: Account): Option<Quota> {
    if a.Unmetered? then None else Some(Released(a.quota, a.lease).0)
  }

  /** How an acknowledged attempt ends; `reply` follows the acknowledgement. */
  datatype Ending = Ending(
    result: Result<Receipt, Reject>, reply: seq<Msg>, dest: Dest, account: Account,
    verified: Option<Digest>, published: bool, recorded: Option<Entry>)

  /** After the last chunk: publish, record, acknowledge. */
  function Finish(h: HashFn, m: DropSend, job: Job, s: Setup, sends: nat, p: Progress, a: Account): Ending {
    var sha := h(p.hashed);
    var duplicate := job.recorded.Some?;
    if !duplicate && !s.hook.Delivers? then
      Ending(Err(PublicationFailed), FailureReply(sends, m.dropId, PublicationFailed, p.total, Some(sha)),
             p.dest, a, Some(sha), s.hook.DeliversThenFails?, None)
    else
      Ending(
        if sends == 0 then Err(SendFailed) else Ok(Receipt(p.total, sha, duplicate)),
        Say(sends, CompleteMsg(DropComplete(m.dropId, true, p.total, Some(sha), duplicate))),
        p.dest, a, Some(sha), !duplicate,
        if !duplicate && s.ledger.Some? && m.key != "" then Some(NewEntry(m, sha, p.total)) else None)
  }

  /** After the acknowledgement of offset `k`: resume, run the loop, finish. */
  function Conclude(h: HashFn, m: DropSend, job: Job, s: Setup, sends: nat, k: nat, d: Dest, a: Account,
                    rest: seq<Msg>): Ending
    requires job.chunk > 0
  {
    match ResumeError(job, k, d)
    case Some(r) =>
      Ending(Err(r), FailureReply(sends, m.dropId, r, k, None),
             if r == ShortPartial then d.(pos := |d.content|) else d, a, None, false, None)
    case None =>
      var st := Loop(h, job, Start(job, k, d), a, rest);
      match st.verdict
      case Accepted => Finish(h, m, job, s, sends, st.p, st.a)
      case Failed(r) =>
        Ending(Err(r), FailureReply(sends, m.dropId, r, st.p.total, None), st.p.dest, st.a, None, false, None)
  }

  /** After admission: check the destination, acknowledge, conclude. */
  function Transfer(h: HashFn, m: DropSend, job: Job, s: Setup, d: Dest, a: Account, rest: seq<Msg>): Ending
    requires job.chunk > 0
  {
    match DestError(s.cfg, job, d)
    case Some(r) => Ending(Err(r), Say(s.sends, Refusal(m)), d, a, None, false, None)
    case None =>
      if s.sends == 0 then Ending(Err(SendFailed), [], d, a, None, false, None)
      else
        var k := AckOffset(s.cfg, job, d);
        var e := Conclude(h, m, job, s, s.sends - 1, k, d, a, rest);
        e.(reply := [AckMsg(DropAck(m.dropId, true, k))] + e.reply)
  }

  /** Runs the transfer under an open account, which is closed however it ends. */
  function Underwrite(h: HashFn, m: DropSend, s: Setup, found: Option<Entry>, a: Account, rest: seq<Msg>): Reception {
    if found.None? && s.dest.None? then
      Reception(Err(NoDestination), Say(s.sends, Refusal(m)), s.dest, ClosedQuota(a), None, false, None)
    else
      var e := Transfer(h, m, NewJob(s.cfg, m, found), s, if found.Some? then DISCARD else s.dest.value, a, rest);
      Reception(e.result, e.reply, if found.Some? then s.dest else Some(e.dest), ClosedQuota(e.account),
                e.verified, e.published, e.recorded)
  }

  function Admit(h: HashFn, m: DropSend, s: Setup, rest: seq<Msg>): Reception {
    var found := Lookup(s.ledger, m.key);
    var refused := Reception(Err(BadMetadata), Say(s.sends, Refusal(m)), s.dest, s.quota, None, false, None);
    if MetaError(s.cfg, m, found).Some? then refused.(result := Err(MetaError(s.cfg, m, found).value))
    else if s.quota.Some? && AcquireError(s.quota.value, s.peer, m.size).Some? then
      refused.(result := Err(QuotaRefused(AcquireError(s.quota.value, s.peer, m.size).value)))
    else
      Underwrite(h, m, s, found, OpenAccount(s.quota, s.peer, m.size), rest)
  }

  function Receive(h: HashFn, s: Setup): Reception {
    var (first, rest) := Next(s.inbox);
    var lost := Reception(Err(ConnectionLost), [], s.dest, s.quota, None, false, None);
    match first
    case None => lost
    case Some(SendMsg(m)) => Admit(h, m, s, rest)
    case Some(Garbled) => lost.(result := Err(Undecodable))
    case Some(_) => lost.(result := Err(UnexpectedMessage))
  }
}
