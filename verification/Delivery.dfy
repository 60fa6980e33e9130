/** The Hub's publication hook (internal/hub/hub.go, finalizePartFile) inside a receive attempt. */
module Delivery {
  import opened Common
  import opened Protocol
  import opened Channel
  import opened Files
  import Quotas
  import opened Ledger
  import opened Receiver
  import opened Reception
  import opened ReceiveDrops
  import opened Transfers
  import opened Publication

  /** A hook that delivers has verified the size and the digest it was given. */
  ghost predicate HookAgrees(h: HashFn, hook: Hook, content: Bytes, sha: Digest, size: int) {
    !hook.Refuses? ==> h(content) == sha && (size > 0 ==> |content| == size)
  }

  /** The file is delivered under a name that was not there, and every state on the way was safe. */
  ghost predicate NewFile(d: Directory, start: Listing, since: nat, part: string, content: Bytes, name: Option<string>)
    reads d
  {
    && AllSafe(d.trace, since, start, part, content, name)
    && CrashSafe(start, d.files, part, content, name)
    && (name.Some? ==> name.value !in start && name.value in d.files && d.files[name.value] == content)
  }

  /** Best effort: the delivered name stays as it is. */
  method RemovePartial(d: Directory, ghost start: Listing, ghost since: nat, part: string, ghost content: Bytes,
                       ghost name: string)
    requires since <= |d.trace| && part in start && name != part && NewFile(d, start, since, part, content, Some(name))
    modifies d
    ensures since <= |d.trace| && NewFile(d, start, since, part, content, Some(name))
  {
    d.Remove(part);
  }

  /**
   * finalizePartFile as the hook calls it: publish, close, remove the partial.
   * A close that fails is reported although the file is delivered; a partial
   * that cannot be removed is not.
   */
  method FinalizePartFile(h: HashFn, d: Directory, source: Destination, part: string, base: string, ext: string,
                          sha: Digest,
                          size: int, random: (nat, nat) -> Option<Draw>, sameRoot: bool, sourceOk: bool, closeOk: bool)
    returns (hook: Hook, name: Option<string>)
    requires source.kind.Seekable?
    requires part in d.files && d.files[part] == source.content && '/' in part && OrdinaryLeaf(base + ext)
    modifies d, source
    ensures source.content == old(source.content)
    ensures HookAgrees(h, hook, source.content, sha, size) && (hook.Refuses? <==> name.None?)
    ensures hook.Delivers? ==> closeOk
    ensures |old(d.trace)| <= |d.trace| && NewFile(d, old(d.files), |old(d.trace)|, part, source.content, name)
    ensures name.None? ==> part in d.files
  {
    if !sourceOk { return Refuses, None; }
    source.Seek(0);
    var r, renamed := PublishPartFile(h, d, source, part, base, ext, Some(sha), size, random, sameRoot);
    if r.Err? { return Refuses, None; }
    if !closeOk { return DeliversThenFails, Some(r.value); }
    if !renamed { RemovePartial(d, old(d.files), |old(d.trace)|, part, source.content, r.value); }
    return Delivers, Some(r.value);
  }

  /**
   * The end of a receive attempt with the real hook. A success that is not a
   * duplicate means that a new name holds bytes with the digest the receiver
   * computed and, for a declared size, of that size.
   */
  method FinishTransferAtHub(h: HashFn, m: DropSend, job: Job, conn: Conn, ledger: Tombstones?, now: nat, total: int,
                             hashed: Bytes,
                             d: Directory, source: Destination, part: string, base: string, ext: string,
                             random: (nat, nat) -> Option<Draw>, sameRoot: bool, sourceOk: bool, closeOk: bool,
                             ghost s: Setup, ghost p: Progress, ghost a: Account)
    returns (result: Result<Receipt, Reject>, published: bool, hook: Hook, name: Option<string>)
    requires ledger != null ==> WellKeyed(ledger.entries)
    requires s.ledger.Some? == (ledger != null) && job.recorded.None?
    requires p.total == total && p.hashed == hashed && p.dest == source.View()
    requires source.kind.Seekable?
    requires part in d.files && d.files[part] == source.content && '/' in part && OrdinaryLeaf(base + ext)
    modifies conn`outbox, conn`sendsLeft, ledger, d, source
    ensures ledger != null ==> WellKeyed(ledger.entries)
    ensures HookAgrees(h, hook, p.dest.content, h(hashed), m.size)
    ensures var e := Finish(h, m, job, s.(hook := hook), old(conn.sendsLeft), p, a);
            && result == e.result && published == e.published
            && conn.outbox == old(conn.outbox) + e.reply
            && Remembers(old(LedgerOf(ledger)), e.recorded, ledger, now)
    ensures published <==> name.Some?
    ensures |old(d.trace)| <= |d.trace| && NewFile(d, old(d.files), |old(d.trace)|, part, p.dest.content, name)
    ensures published ==> h(d.files[name.value]) == h(hashed) && (m.size > 0 ==> |d.files[name.value]| == m.size)
  {
    hook, name := FinalizePartFile(h, d, source, part, base, ext, h(hashed), m.size, random, sameRoot, sourceOk,
        closeOk);
    result, published := FinishTransfer(h, m, job, conn, ledger, now, hook, total, hashed, s.(hook := hook), p, a);
  }

  // ----- the whole attempt

  /** The attempt's hook is one that agrees with what the attempt hands to it. */
  ghost predicate RealHook(h: HashFn, s: Setup) {
    var r := Receive(h, s);
    r.published && r.verified.Some? && r.dest.Some? && Declared(s).Some? ==>
      HookAgrees(h, s.hook, r.dest.value.content, r.verified.value, Declared(s).value.size)
  }

  /** What an accepted stream was verified against is the payload's digest. */
  lemma VerifiedIsAuthentic(h: HashFn, s: Setup, payload: Bytes)
    requires Receive(h, s).verified.Some? && AuthenticDigests(h, payload, s.inbox)
    ensures Declared(s).Some? && Receive(h, s).verified == Some(h(payload))
  {
    hide Loop; hide MetaError; hide DestError; hide ResumeError; hide AckOffset;
    var (first, rest) := Next(s.inbox);
    var m := first.value.send;
    var found := Lookup(s.ledger, m.key);
    var job := NewJob(s.cfg, m, found);
    var d := if found.Some? then DISCARD else s.dest.value;
    var a := OpenAccount(s.quota, s.peer, m.size);
    var k := AckOffset(s.cfg, job, d);
    StartSatisfiesInv(s.cfg, m, found, d);
    var c := AcceptedLoop(h, job, Start(job, k, d), a, rest);
    NextKeepsMessages(s.inbox, DataMsg(c));
  }

  lemma PublishedIsVerified(h: HashFn, s: Setup)
    ensures Receive(h, s).published ==> Receive(h, s).verified.Some? && !s.hook.Refuses?
  {
    hide Loop; hide MetaError; hide DestError; hide ResumeError; hide AckOffset; hide Quotas.AcquireError;
  }

  /**
   * With the real hook, declared and unknown sizes are alike: what is delivered
   * is the payload, whatever the destination held before and whatever the channel
   * did to the chunks, unless the two exhibit a digest collision.
   */
  lemma DeliveredFileIsPayload(h: HashFn, s: Setup, payload: Bytes)
    requires Receive(h, s).published && s.dest.Some? && s.dest.value.kind.Seekable?
    requires AuthenticDigests(h, payload, s.inbox) && RealHook(h, s)
    ensures var r := Receive(h, s);
            r.dest.Some? && (r.dest.value.content == payload || Collision(h, r.dest.value.content, payload))
  {
    hide Receive;
    var hashed := PublishedPrefix(h, s, payload);
    PublishedIsVerified(h, s);
    VerifiedIsAuthentic(h, s, payload);
  }

  /** In particular a stale tail, which the bare receiver does not notice without a declared size, is not delivered. */
  lemma StaleTailIsRefused(h: HashFn, s: Setup, payload: Bytes)
    requires s.dest.Some? && s.dest.value.kind.Seekable? && |s.dest.value.content| > |payload|
    requires AuthenticDigests(h, payload, s.inbox) && RealHook(h, s)
    ensures var r := Receive(h, s);
            r.published ==> r.dest.Some? && Collision(h, r.dest.value.content, payload)
  {
    hide Receive;
    if Receive(h, s).published {
      var hashed := PublishedPrefix(h, s, payload);
      DeliveredFileIsPayload(h, s, payload);
    }
  }
}
