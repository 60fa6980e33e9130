/** What a success reported to the sender is worth. */
module Receipts {
  import opened Common
  import opened Protocol
  import opened Channel
  import opened Files
  import Quotas
  import opened Ledger
  import opened Receiver
  import opened Reception
  import opened Sender
  import opened Transfers
  import AtMostOnce

  /**
   * The destination starts with the bytes the receipt counts, with the digest it
   * states; if the size was declared that is all of it.
   */
  ghost predicate Backs(h: HashFn, content: Bytes, size: int, c: DropComplete) {
    && 0 <= c.bytes <= |content| && c.sha == Some(h(content[..c.bytes]))
    && (size > 0 ==> c.bytes == |content| == size)
  }

  /** The same for the part of an attempt that follows admission. */
  lemma SuccessEnding(h: HashFn, cfg: Config, m: DropSend, found: Option<Entry>, s: Setup, d: Dest, a: Account,
                      rest: seq<Msg>,
                      c: DropComplete)
    requires s.cfg == cfg && MetaError(cfg, m, found).None? && (found.Some? ==> d == DISCARD)
    requires CompleteMsg(c) in Transfer(h, m, NewJob(cfg, m, found), s, d, a, rest).reply && c.success
    ensures var e := Transfer(h, m, NewJob(cfg, m, found), s, d, a, rest);
            && c.duplicate == found.Some? == !e.published
            && (c.duplicate ==> c.sha == Some(found.value.sha))
            && (d.kind.Seekable? ==> Backs(h, e.dest.content, m.size, c))
  {
    hide Loop; hide MetaError; hide LoopInv;
    var job := NewJob(cfg, m, found);
    var k := AckOffset(cfg, job, d);
    StartSatisfiesInv(cfg, m, found, d);
    var p := Start(job, k, d);
    var last := AcceptedLoop(h, job, p, a, rest);
    if found.Some? { AtMostOnce.AcceptedMatchesRecord(h, job, p, a, rest); }
    var q := Loop(h, job, p, a, rest).p;
    if d.kind.Seekable? && m.size > 0 { assert q.dest.content == q.dest.content[..q.total]; }
  }

  /** The refusals that report no bytes whatever has arrived. */
  ghost predicate ReportsNothing(r: Reject) {
    || r.OversizedChunk? || r.ShortChunk? || r.BeyondDeclaredSize? || r.FinalSizeMismatch? || r.MissingDigest?
    || r.Misaligned? || r.NotRewindable? || r.ShortPartial?
  }

  /**
   * What a receiver answers to metadata: nothing on a dead channel; a refusal at
   * offset 0, and then the destination is untouched; or an acceptance, followed by
   * one completion unless the channel died. The completion tells the truth about
   * the attempt, and only a failed publication reports a digest with a failure.
   */
  ghost predicate Answers(sends: nat, m: DropSend, result: Result<Receipt, Reject>, replies: seq<Msg>,
                          untouched: bool)
  {
    if sends == 0 then replies == [] && result.Err?
    else
      && 1 <= |replies| <= 2 && replies[0].AckMsg? && replies[0].ack.dropId == m.dropId
      && var ack := replies[0].ack;
         if !ack.accepted
         then replies == [AckMsg(DropAck(m.dropId, false, 0))] && result.Err? && untouched
         else
           && 0 <= ack.receivedBytes && (m.size > 0 ==> ack.receivedBytes <= m.size)
           && (|replies| == 1 <==> sends == 1 || result == Err(Reject.ConnectionLost))
           && (sends == 1 ==> result.Err?)
           && (|replies| == 2 ==>
                 && replies[1].CompleteMsg?
                 && var c := replies[1].complete;
                    && c.dropId == m.dropId && c.success == result.Ok?
                    && (c.success ==> c.sha.Some? && result == Ok(Receipt(c.bytes, c.sha.value, c.duplicate)))
                    && (!c.success ==>
                          && !c.duplicate && (c.sha.Some? <==> result == Err(PublicationFailed))
                          && (if ReportsNothing(result.error) then c.bytes == 0 else c.bytes >= ack.receivedBytes)))
  }

  lemma {:induction false} LoopCountsUp(h: HashFn, job: Job, p: Progress, a: Account, inbox: seq<Msg>)
    ensures var st := Loop(h, job, p, a, inbox);
            st.p.total >= p.total && st.verdict != Failed(PublicationFailed)
    decreases |inbox|
  {
    hide Credited; hide CreditError; hide Written;
    if inbox == [] {
    } else {
      match inbox[0]
      case Heartbeat => LoopCountsUp(h, job, p, a, inbox[1..]);
      case DataMsg(c) =>
        var s := Absorb(h, job, p, a, c);
        if s.verdict.More? { LoopCountsUp(h, job, s.p, s.a, inbox[1..]); }
      case _ =>
    }
  }

  lemma ConcludeAnswers(h: HashFn, m: DropSend, job: Job, s: Setup, sends: nat, k: nat, d: Dest, a: Account,
                        rest: seq<Msg>)
    requires job.chunk > 0
    ensures var e := Conclude(h, m, job, s, sends, k, d, a, rest);
            && |e.reply| <= 1
            && (|e.reply| == 0 <==> sends == 0 || e.result == Err(Reject.ConnectionLost))
            && (sends == 0 ==> e.result.Err?)
            && (ResumeError(job, k, d).Some? ==>
                  && e.dest.content == d.content && !e.published
                  && e.dest.pos == if k > |d.content| && e.result == Err(ShortPartial) then |d.content| else d.pos)
            && (|e.reply| == 1 ==>
                  && e.reply[0].CompleteMsg?
                  && var c := e.reply[0].complete;
                     && c.dropId == m.dropId && c.success == e.result.Ok?
                     && (c.success ==> c.sha.Some? && e.result == Ok(Receipt(c.bytes, c.sha.value, c.duplicate)))
                     && (!c.success ==>
                           && !c.duplicate && (c.sha.Some? <==> e.result == Err(PublicationFailed))
                           && (if ReportsNothing(e.result.error) then c.bytes == 0 else c.bytes >= k)))
  {
    hide Absorb;
    if ResumeError(job, k, d).None? { LoopCountsUp(h, job, Start(job, k, d), a, rest); }
  }

  /** The same for the part of an attempt that follows admission. */
  lemma TransferAnswers(h: HashFn, m: DropSend, job: Job, s: Setup, d: Dest, a: Account, rest: seq<Msg>)
    requires job.chunk > 0 && job.size == m.size && (job.recorded.Some? ==> d == DISCARD)
    requires m.size > 0 ==> 0 <= s.cfg.receivedBytes <= m.size
    ensures var e := Transfer(h, m, job, s, d, a, rest);
            Answers(s.sends, m, e.result, e.reply, e.dest == d && !e.published)
  {
    hide Conclude;
    var k := AckOffset(s.cfg, job, d);
    if k >= 0 && s.sends > 0 { ConcludeAnswers(h, m, job, s, s.sends - 1, k, d, a, rest); }
  }

  lemma MetadataFacts(cfg: Config, m: DropSend, found: Option<Entry>)
    requires MetaError(cfg, m, found).None?
    ensures m.size > 0 ==> 0 <= cfg.receivedBytes <= m.size
  {
  }

  lemma ReceiverAnswers(h: HashFn, s: Setup)
    ensures var r := Receive(h, s);
            if Declared(s).Some?
            then Answers(s.sends, Declared(s).value, r.result, r.replies, r.dest == s.dest && !r.published)
            else r.replies == [] && r.result.Err?
  {
    hide Transfer; hide MetaError; hide Quotas.AcquireError; hide OpenAccount; hide ClosedQuota;
    var (first, rest) := Next(s.inbox);
    if first.Some? && first.value.SendMsg? {
      var m := first.value.send;
      var found := Lookup(s.ledger, m.key);
      if MetaError(s.cfg, m, found).None? {
        MetadataFacts(s.cfg, m, found);
        var d := if found.Some? || s.dest.None? then DISCARD else s.dest.value;
        TransferAnswers(h, m, NewJob(s.cfg, m, found), s, d, OpenAccount(s.quota, s.peer, m.size), rest);
      }
    }
  }

  /** A success reply is sent only after publication, or for a duplicate with the recorded digest. */
  lemma SuccessReplyIsBacked(h: HashFn, s: Setup, c: DropComplete)
    requires CompleteMsg(c) in Receive(h, s).replies && c.success
    ensures Declared(s).Some?
    ensures var m := Declared(s).value;
            var r := Receive(h, s);
            var found := Lookup(s.ledger, m.key);
            && c.duplicate == found.Some? == !r.published
            && (c.duplicate ==> c.sha == Some(found.value.sha) && r.dest == s.dest)
            && (!c.duplicate && s.dest.Some? && s.dest.value.kind.Seekable? ==>
                  r.dest.Some? && Backs(h, r.dest.value.content, m.size, c))
  {
    hide Transfer; hide MetaError; hide Quotas.AcquireError; hide OpenAccount; hide ClosedQuota; hide Backs;
    var (first, rest) := Next(s.inbox);
    var m := first.value.send;
    var found := Lookup(s.ledger, m.key);
    var d := if found.Some? then DISCARD else s.dest.value;
    SuccessEnding(h, s.cfg, m, found, s, d, OpenAccount(s.quota, s.peer, m.size), rest, c);
  }

  /**
   * If the sender reports success, then whatever the channel did to the chunks,
   * the receiver published bytes with the digest of the sender's payload, all of
   * the destination when the size was declared, or had recorded that digest.
   */
  lemma SenderSuccessIsTrue(h: HashFn, s: Setup, meta: DropSend, freshId: string, payload: Bytes, seekable: bool,
                            inbox: seq<Msg>, sends: nat)
    requires forall x | x in inbox :: x in Receive(h, s).replies
    requires Send(h, meta, freshId, payload, payload, seekable, inbox, sends).result.Ok?
    ensures Declared(s).Some?
    ensures var c := Send(h, meta, freshId, payload, payload, seekable, inbox, sends).result.value;
            var r := Receive(h, s);
            var m := Declared(s).value;
            var found := Lookup(s.ledger, m.key);
            && c.sha == Some(h(payload))
            && (c.duplicate ==> found.Some? && found.value.sha == h(payload))
            && (!c.duplicate ==> r.published)
            && (!c.duplicate && s.dest.Some? && s.dest.value.kind.Seekable? ==>
                  r.dest.Some? && Backs(h, r.dest.value.content, m.size, c))
  {
    hide Receive; hide Backs; hide Outgoing;
    var rest := Next(inbox).1;
    var c := Send(h, meta, freshId, payload, payload, seekable, inbox, sends).result.value;
    assert Next(rest).0 == Some(CompleteMsg(c)) && c.success;
    NextIsInInbox(rest);
    NextKeepsMessages(inbox, CompleteMsg(c));
    SuccessReplyIsBacked(h, s, c);
  }
}
