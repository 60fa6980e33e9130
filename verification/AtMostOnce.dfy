/** At-most-once publication over runs of attempts that share a ledger. */
module AtMostOnce {
  import opened Common
  import opened Protocol
  import opened Channel
  import opened Files
  import opened Quotas
  import opened Ledger
  import opened Receiver
  import opened Reception
  import opened Transfers

  /** One attempt; the ledger it finds is the run's, and `now` is when it finishes. */
  datatype Try = Try(setup: Setup, now: nat)

  function Outcome(h: HashFn, t: Try, es: Entries): Reception {
    Receive(h, t.setup.(ledger := Some(es)))
  }

  datatype Limits = Limits(maxAge: nat, maxEntries: nat)

  /**
   * Attempts in the order in which they finish, what came of each, the ledger
   * before each of these finishes and after the last, and for each attempt how
   * many others had finished when it looked up its key.
   */
  datatype History = History(tries: seq<Try>, looks: seq<nat>, outcomes: seq<Reception>, ledgers: seq<Entries>) {
    predicate Aligned() {
      && |looks| == |outcomes| == |tries| && |ledgers| == |tries| + 1
      && forall i | 0 <= i < |looks| :: looks[i] <= i
    }
  }

  ghost predicate Recorded(lim: Limits, e: Option<Entry>, now: nat, es: Entries, es': Entries) {
    if e.None? then es' == es else IsRecorded(es, e.value, now, lim.maxAge, lim.maxEntries, es')
  }

  /**
   * Any interleaving of attempts that share a ledger: each decides on the ledger
   * it looked up, whichever attempts finish in between; records are applied as
   * attempts finish, and the clock never goes back.
   */
  ghost predicate IsRun(h: HashFn, lim: Limits, r: History) {
    && r.Aligned() && r.ledgers[0] == map[]
    && lim.maxAge > 0 && lim.maxEntries > 0
    && (forall i | 0 <= i < |r.tries| :: r.tries[i].now > 0)
    && (forall i, j | 0 <= i <= j < |r.tries| :: r.tries[i].now <= r.tries[j].now)
    && (forall i {:trigger Outcome(h, r.tries[i], r.ledgers[r.looks[i]])} | 0 <= i < |r.tries| ::
          r.outcomes[i] == Outcome(h, r.tries[i], r.ledgers[r.looks[i]]))
    && forall i | 0 <= i < |r.tries| ::
         Recorded(lim, r.outcomes[i].recorded, r.tries[i].now, r.ledgers[i], r.ledgers[i + 1])
  }

  /** Attempt i published under key `k` and left its record. */
  ghost predicate PublishedUnder(r: History, i: nat, k: string)
    requires i < |r.outcomes|
  {
    var e := r.outcomes[i].recorded;
    e.Some? && e.value.key == k
  }

  /** Attempt i delivered a file under key `k`, whatever its hook reported afterwards. */
  ghost predicate DeliveredUnder(r: History, i: nat, k: string)
    requires r.Aligned() && i < |r.tries|
  {
    r.outcomes[i].published && Declared(r.tries[i].setup).Some? && Declared(r.tries[i].setup).value.key == k
  }

  lemma {:induction false} AcceptedMatchesRecord(h: HashFn, job: Job, p: Progress, a: Account, inbox: seq<Msg>)
    requires Loop(h, job, p, a, inbox).verdict.Accepted? && job.recorded.Some?
    ensures h(Loop(h, job, p, a, inbox).p.hashed) == job.recorded.value
    decreases |inbox|
  {
    match inbox[0]
    case Heartbeat => AcceptedMatchesRecord(h, job, p, a, inbox[1..]);
    case DataMsg(c) =>
      var s := Absorb(h, job, p, a, c);
      if s.verdict.More? { AcceptedMatchesRecord(h, job, s.p, s.a, inbox[1..]); }
    case _ =>
  }

  lemma MetaErrorChecksKeyAndRecord(cfg: Config, m: DropSend, found: Option<Entry>)
    ensures MetaError(cfg, m, found).None? ==>
              (m.key == "" || ValidKey(m.key)) && (found.Some? ==> Matches(found.value, m))
  {
  }

  /** Only an accepted transfer that is not a duplicate publishes; it records unless the hook failed. */
  lemma TransferFacts(h: HashFn, m: DropSend, job: Job, s: Setup, d: Dest, a: Account, rest: seq<Msg>)
    requires job.chunk > 0
    ensures var e := Transfer(h, m, job, s, d, a, rest);
            && (e.published <==> e.verified.Some? && job.recorded.None? && !s.hook.Refuses?)
            && (e.recorded.Some? <==> e.published && s.hook.Delivers? && s.ledger.Some? && m.key != "")
            && (e.recorded.Some? ==>
                  && e.recorded.value.key == m.key && e.recorded.value.completedAt == 0
                  && e.verified == Some(e.recorded.value.sha))
            && (e.result.Ok? ==>
                  && e.verified == Some(e.result.value.sha)
                  && (e.published ==> s.hook.Delivers?)
                  && (!e.published ==> job.recorded == e.verified))
  {
    hide Loop;
    var k := AckOffset(s.cfg, job, d);
    if DestError(s.cfg, job, d).None? && ResumeError(job, k, d).None? && job.recorded.Some? {
      if Loop(h, job, Start(job, k, d), a, rest).verdict.Accepted? {
        AcceptedMatchesRecord(h, job, Start(job, k, d), a, rest);
      }
    }
  }

  /** What one attempt's outcome says about the ledger it looked up. */
  lemma AttemptFacts(h: HashFn, t: Try, es: Entries)
    ensures var r := Outcome(h, t, es);
            && (r.verified.Some? ==>
                  && Declared(t.setup).Some?
                  && var k := Declared(t.setup).value.key;
                  && (k == "" || ValidKey(k))
                  && (r.published <==> (k == "" || k !in es) && !t.setup.hook.Refuses?)
                  && (r.recorded.Some? <==> k != "" && k !in es && t.setup.hook.Delivers?))
            && (r.published || r.recorded.Some? || r.result.Ok? ==> r.verified.Some?)
            && (r.recorded.Some? ==>
                  && r.recorded.value.key == Declared(t.setup).value.key && ValidKey(r.recorded.value.key)
                  && r.recorded.value.completedAt == 0
                  && r.verified == Some(r.recorded.value.sha))
            && (r.result.Ok? ==>
                  && r.verified == Some(r.result.value.sha)
                  && (r.published ==> t.setup.hook.Delivers?)
                  && (!r.published ==>
                        var m := Declared(t.setup).value;
                        m.key in es && Matches(es[m.key], m) && es[m.key].sha == r.result.value.sha))
  {
    hide Transfer; hide MetaError; hide Matches; hide AcquireError; hide OpenAccount; hide ClosedQuota;
    var s := t.setup.(ledger := Some(es));
    var (first, rest) := Next(s.inbox);
    if first.Some? && first.value.SendMsg? {
      var m := first.value.send;
      var found := Lookup(s.ledger, m.key);
      if ValidKey(m.key) { ValidKeyIsNotBlank(m.key); }
      MetaErrorChecksKeyAndRecord(s.cfg, m, found);
      var d := if found.Some? || s.dest.None? then DISCARD else s.dest.value;
      TransferFacts(h, m, NewJob(s.cfg, m, found), s, d, OpenAccount(s.quota, s.peer, m.size), rest);
    }
  }

  /** The record attempt i left, with its time. */
  ghost function RecordOf(r: History, i: nat): Entry
    requires i < |r.outcomes| && i < |r.tries| && r.outcomes[i].recorded.Some?
  {
    Stamped(r.outcomes[i].recorded.value, r.tries[i].now)
  }

  /** Entry `e` under `k` is the record of a publication before attempt n. */
  ghost predicate Sourced(r: History, n: nat, k: string, e: Entry)
    requires r.Aligned() && n <= |r.tries|
  {
    exists i :: 0 <= i < n && PublishedUnder(r, i, k) && e == RecordOf(r, i)
  }

  /** Every retained record is that of a publication earlier in the run. */
  lemma {:induction false} RecordsAreSourced(h: HashFn, lim: Limits, r: History, n: nat, k: string)
    requires IsRun(h, lim, r) && n <= |r.tries| && k in r.ledgers[n]
    ensures Sourced(r, n, k, r.ledgers[n][k])
    decreases n
  {
    hide Expired;
    var i := n - 1;
    assert Recorded(lim, r.outcomes[i].recorded, r.tries[i].now, r.ledgers[i], r.ledgers[n]);
    var e := r.outcomes[i].recorded;
    if e.Some? && e.value.key == k && r.ledgers[n][k] == RecordOf(r, i) {
      assert PublishedUnder(r, i, k);
    } else {
      assert k in r.ledgers[i] && r.ledgers[i][k] == r.ledgers[n][k];
      RecordsAreSourced(h, lim, r, i, k);
      var x :| 0 <= x < i && PublishedUnder(r, x, k) && r.ledgers[i][k] == RecordOf(r, x);
      assert PublishedUnder(r, x, k);
    }
  }

  /**
   * The exact condition, for every interleaving: an attempt whose stream is
   * accepted delivers if and only if its key was absent when it looked and the
   * hook does not refuse, and it leaves a record if and only if in addition the
   * hook reports success.
   */
  lemma PublishesIffUnrecorded(h: HashFn, lim: Limits, r: History, j: nat, k: string)
    requires IsRun(h, lim, r) && j < |r.tries| && r.outcomes[j].verified.Some?
    requires Declared(r.tries[j].setup).Some? && Declared(r.tries[j].setup).value.key == k != ""
    ensures DeliveredUnder(r, j, k) <==> k !in r.ledgers[r.looks[j]] && !r.tries[j].setup.hook.Refuses?
    ensures PublishedUnder(r, j, k) <==> k !in r.ledgers[r.looks[j]] && r.tries[j].setup.hook.Delivers?
  {
    hide Outcome;
    AttemptFacts(h, r.tries[j], r.ledgers[r.looks[j]]);
  }

  /** Whatever its hook does, an attempt that finds a record under its key delivers nothing. */
  lemma RetainedKeyDoesNotPublish(h: HashFn, lim: Limits, r: History, j: nat, k: string)
    requires IsRun(h, lim, r) && j < |r.tries| && k in r.ledgers[r.looks[j]] && k != ""
    ensures !PublishedUnder(r, j, k) && !DeliveredUnder(r, j, k)
  {
    hide Outcome;
    AttemptFacts(h, r.tries[j], r.ledgers[r.looks[j]]);
  }

  /**
   * Every success under a key is for published content: either this attempt
   * published it, or one that had finished before it looked, under the same key
   * and the same metadata, published content with the digest now acknowledged.
   */
  lemma SuccessIsForPublishedContent(h: HashFn, lim: Limits, r: History, j: nat)
    requires IsRun(h, lim, r) && j < |r.tries|
    requires r.outcomes[j].result.Ok? && !r.outcomes[j].published
    ensures Declared(r.tries[j].setup).Some?
    ensures var m := Declared(r.tries[j].setup).value;
            exists i :: && 0 <= i < r.looks[j] && PublishedUnder(r, i, m.key)
                        && Matches(r.outcomes[i].recorded.value, m)
                        && r.outcomes[i].recorded.value.sha == r.outcomes[j].result.value.sha
  {
    hide Outcome;
    var n := r.looks[j];
    AttemptFacts(h, r.tries[j], r.ledgers[n]);
    var m := Declared(r.tries[j].setup).value;
    RecordsAreSourced(h, lim, r, n, m.key);
    var i :| 0 <= i < n && PublishedUnder(r, i, m.key) && r.ledgers[n][m.key] == RecordOf(r, i);
    assert PublishedUnder(r, i, m.key);
  }

  /** Keys other than `k` published before attempt j at `since` or later. */
  ghost function OtherKeys(r: History, j: nat, since: nat, k: string): set<string>
    requires r.Aligned() && j <= |r.tries|
  {
    set i | 0 <= i < j && r.outcomes[i].recorded.Some? && r.tries[i].now >= since
      && r.outcomes[i].recorded.value.key != k
      :: r.outcomes[i].recorded.value.key
  }

  lemma SourceIsRecent(h: HashFn, lim: Limits, r: History, n: nat, x: string, e: Entry, since: nat, k: string)
    requires IsRun(h, lim, r) && n <= |r.tries| && Sourced(r, n, x, e) && e.completedAt >= since && x != k
    ensures x in OtherKeys(r, n, since, k)
  {
    hide Outcome; hide Recorded;
    var i :| 0 <= i < n && PublishedUnder(r, i, x) && e == RecordOf(r, i);
    AttemptFacts(h, r.tries[i], r.ledgers[r.looks[i]]);
  }

  /** Retained records no older than `since` are those of other keys published since. */
  lemma RecentRecordsAreOthers(h: HashFn, lim: Limits, r: History, n: nat, since: nat, k: string)
    requires IsRun(h, lim, r) && n <= |r.tries| && k !in r.ledgers[n]
    requires forall x | x in r.ledgers[n] :: r.ledgers[n][x].completedAt >= since
    ensures r.ledgers[n].Keys <= OtherKeys(r, n, since, k)
  {
    hide Outcome; hide Sourced; hide OtherKeys; hide Recorded;
    forall x | x in r.ledgers[n] ensures x in OtherKeys(r, n, since, k) {
      RecordsAreSourced(h, lim, r, n, x);
      SourceIsRecent(h, lim, r, n, x, r.ledgers[n][x], since, k);
    }
  }

  /** A record vanishes in one step only by age or because enough other keys are at least as recent. */
  lemma VanishingRecord(h: HashFn, lim: Limits, r: History, n: nat, k: string, since: nat)
    requires IsRun(h, lim, r) && n < |r.tries| && 0 < since <= r.tries[n].now
    requires r.outcomes[n].recorded.Some?
    requires var added := r.ledgers[n][r.outcomes[n].recorded.value.key := RecordOf(r, n)];
             k in added && added[k].completedAt == since
    requires k !in r.ledgers[n + 1]
    ensures r.tries[n].now - since > lim.maxAge || |OtherKeys(r, n + 1, since, k)| >= lim.maxEntries
  {
    hide Outcome; hide Sourced; hide OtherKeys;
    var now, kept := r.tries[n].now, r.ledgers[n + 1];
    AttemptFacts(h, r.tries[n], r.ledgers[r.looks[n]]);
    var e := r.outcomes[n].recorded.value;
    ValidKeyIsNotBlank(e.key);
    assert Recorded(lim, r.outcomes[n].recorded, now, r.ledgers[n], kept);
    var added := r.ledgers[n][e.key := RecordOf(r, n)];
    if !Expired(added[k], now, lim.maxAge) {
      assert k in Unexpired(added, now, lim.maxAge);
      assert forall x | x in kept :: kept[x].completedAt >= since;
      RecentRecordsAreOthers(h, lim, r, n + 1, since, k);
      SubsetCardinality(kept.Keys, OtherKeys(r, n + 1, since, k));
    }
  }

  /** One finishing attempt leaves the record of `k` in place unless it has expired or is crowded out. */
  lemma RecordStaysOnce(h: HashFn, lim: Limits, r: History, x: nat, k: string, since: nat)
    requires IsRun(h, lim, r) && x < |r.tries| && 0 < since <= r.tries[x].now
    requires if PublishedUnder(r, x, k) then since == r.tries[x].now
             else k in r.ledgers[x] && r.ledgers[x][k].completedAt == since
    ensures || (k in r.ledgers[x + 1] && r.ledgers[x + 1][k].completedAt == since)
            || r.tries[x].now - since > lim.maxAge
            || |OtherKeys(r, x + 1, since, k)| >= lim.maxEntries
  {
    hide Outcome; hide Expired; hide OtherKeys;
    AttemptFacts(h, r.tries[x], r.ledgers[r.looks[x]]);
    assert Recorded(lim, r.outcomes[x].recorded, r.tries[x].now, r.ledgers[x], r.ledgers[x + 1]);
    var e := r.outcomes[x].recorded;
    if e.Some? {
      ValidKeyIsNotBlank(e.value.key);
      if k !in r.ledgers[x + 1] { VanishingRecord(h, lim, r, x, k, since); }
    }
  }

  lemma OtherKeysGrow(r: History, j: nat, since: nat, k: string)
    requires r.Aligned() && j < |r.tries|
    ensures |OtherKeys(r, j, since, k)| <= |OtherKeys(r, j + 1, since, k)|
  {
    SubsetCardinality(OtherKeys(r, j, since, k), OtherKeys(r, j + 1, since, k));
  }

  /** After attempt i published under `k`, the record stays unless it expires or is crowded out. */
  lemma {:induction false} RecordStays(h: HashFn, lim: Limits, r: History, i: nat, n: nat, k: string)
    requires IsRun(h, lim, r) && i < n <= |r.tries| && PublishedUnder(r, i, k)
    requires forall x | i < x < n :: !PublishedUnder(r, x, k)
    ensures || (k in r.ledgers[n] && r.ledgers[n][k].completedAt == r.tries[i].now)
            || r.tries[n - 1].now - r.tries[i].now > lim.maxAge
            || |OtherKeys(r, n, r.tries[i].now, k)| >= lim.maxEntries
    decreases n
  {
    hide Outcome; hide Recorded; hide OtherKeys;
    var x, since := n - 1, r.tries[i].now;
    if i == x {
      RecordStaysOnce(h, lim, r, x, k, since);
    } else {
      RecordStays(h, lim, r, i, x, k);
      OtherKeysGrow(r, x, since, k);
      assert r.tries[x - 1].now <= r.tries[x].now && !PublishedUnder(r, x, k);
      if k in r.ledgers[x] && r.ledgers[x][k].completedAt == since { RecordStaysOnce(h, lim, r, x, k, since); }
    }
  }

  /**
   * A publication's record is gone only after the retention time, or after as many
   * other keys as the ledger has places.
   */
  lemma {:induction false} RecordIsGone(h: HashFn, lim: Limits, r: History, i: nat, n: nat, k: string)
    requires IsRun(h, lim, r) && i < n <= |r.tries| && PublishedUnder(r, i, k) && k !in r.ledgers[n]
    ensures || r.tries[n - 1].now - r.tries[i].now > lim.maxAge
            || |OtherKeys(r, n, r.tries[i].now, k)| >= lim.maxEntries
    decreases n - i
  {
    hide Outcome; hide Recorded;
    if x :| i < x < n && PublishedUnder(r, x, k) {
      RecordIsGone(h, lim, r, x, n, k);
      SubsetCardinality(OtherKeys(r, n, r.tries[x].now, k), OtherKeys(r, n, r.tries[i].now, k));
    } else {
      RecordStays(h, lim, r, i, n, k);
    }
  }

  /**
   * At most once, for every interleaving: if a key is published by i and again
   * delivered by j, then j looked up the key before i had finished, or the record
   * was gone when it looked.
   */
  lemma PublishesAtMostOnce(h: HashFn, lim: Limits, r: History, i: nat, j: nat, k: string)
    requires IsRun(h, lim, r) && i < j < |r.tries|
    requires PublishedUnder(r, i, k) && (PublishedUnder(r, j, k) || DeliveredUnder(r, j, k))
    ensures var n := r.looks[j];
            || n <= i
            || r.tries[n - 1].now - r.tries[i].now > lim.maxAge
            || |OtherKeys(r, n, r.tries[i].now, k)| >= lim.maxEntries
  {
    hide Outcome; hide Recorded;
    AttemptFacts(h, r.tries[i], r.ledgers[r.looks[i]]);
    if r.looks[j] > i {
      if k in r.ledgers[r.looks[j]] { RetainedKeyDoesNotPublish(h, lim, r, j, k); }
      RecordIsGone(h, lim, r, i, r.looks[j], k);
    }
  }

  /**
   * The same for files: two deliveries under one key need one more excuse, a hook
   * that failed after it had delivered.
   */
  lemma DeliversAtMostOnce(h: HashFn, lim: Limits, r: History, i: nat, j: nat, k: string)
    requires IsRun(h, lim, r) && i < j < |r.tries| && k != ""
    requires DeliveredUnder(r, i, k) && DeliveredUnder(r, j, k)
    ensures var n := r.looks[j];
            || r.tries[i].setup.hook.DeliversThenFails?
            || n <= i
            || r.tries[n - 1].now - r.tries[i].now > lim.maxAge
            || |OtherKeys(r, n, r.tries[i].now, k)| >= lim.maxEntries
  {
    hide Outcome; hide Recorded;
    AttemptFacts(h, r.tries[i], r.ledgers[r.looks[i]]);
    if !r.tries[i].setup.hook.DeliversThenFails? { PublishesAtMostOnce(h, lim, r, i, j, k); }
  }

  /** Attempts under one key that do not overlap: each looks only after the other has finished. */
  ghost predicate SameKeySerial(r: History, k: string) {
    && r.Aligned()
    && forall i, j | 0 <= i < j < |r.tries| && DeliveredUnder(r, i, k) && DeliveredUnder(r, j, k) :: i < r.looks[j]
  }

  /** With other keys in any interleaving, serial attempts under one key deliver once per retained record. */
  lemma SerialKeyDeliversOnce(h: HashFn, lim: Limits, r: History, i: nat, j: nat, k: string)
    requires IsRun(h, lim, r) && SameKeySerial(r, k) && i < j < |r.tries| && k != ""
    requires DeliveredUnder(r, i, k) && r.tries[i].setup.hook.Delivers?
    requires r.tries[j].now - r.tries[i].now <= lim.maxAge
    requires |OtherKeys(r, j, r.tries[i].now, k)| < lim.maxEntries
    ensures !DeliveredUnder(r, j, k)
  {
    hide Outcome; hide Recorded;
    if DeliveredUnder(r, j, k) {
      var n := r.looks[j];
      SubsetCardinality(OtherKeys(r, n, r.tries[i].now, k), OtherKeys(r, j, r.tries[i].now, k));
      assert r.tries[n - 1].now <= r.tries[j].now;
      DeliversAtMostOnce(h, lim, r, i, j, k);
    }
  }

  /** An attempt under the key "key" that carries `data` as its one chunk. */
  function Single(id: string, relPath: string, data: Bytes, es: Entries): Setup {
    var m := DropSend(id, FileDrop, "", 0, "", 1, None, "key", relPath, true);
    Setup(Config(0, 0, 0), [SendMsg(m), DataMsg(DropData(id, 0, data, true, Some(data)))], 2,
          Some(Dest(Stream, [], 0, 9)), None, "", Some(es), Delivers)
  }

  lemma SingleNext(id: string, relPath: string, data: Bytes, es: Entries)
    ensures var s := Single(id, relPath, data, es); Next(s.inbox) == (Some(s.inbox[0]), [s.inbox[1]])
  {
    assert Single(id, relPath, data, es).inbox[1..] == [Single(id, relPath, data, es).inbox[1]];
  }

  lemma SinglePublishes(id: string, relPath: string, data: Bytes, hook: Hook)
    requires |data| == 1 && !hook.Refuses?
    ensures var s := Single(id, relPath, data, map[]).(hook := hook);
            var r := Receive(x => x, s);
            && r.published && (r.result.Ok? <==> hook.Delivers?)
            && r.recorded == if hook.Delivers? then Some(NewEntry(s.inbox[0].send, data, 1)) else None
  {
    var h: HashFn := x => x;
    var s := Single(id, relPath, data, map[]).(hook := hook);
    var meta, c, d := s.inbox[0].send, s.inbox[1].chunk, s.dest.value;
    assert ValidKey("key");
    SingleNext(id, relPath, data, map[]);
    var job := NewJob(s.cfg, meta, None);
    var p := Start(job, 0, d);
    assert p == Progress(0, 0, [], d) && p.hashed + c.data == data;
    assert Absorb(h, job, p, Unmetered, c).verdict.Accepted?;
    assert Loop(h, job, p, Unmetered, [DataMsg(c)]) == Absorb(h, job, p, Unmetered, c);
  }

  /** A hook that fails after it has delivered leaves no record, so that a retry of the same transfer delivers again. */
  lemma FailedHookDeliversTwice()
    ensures var h: HashFn := x => x;
            var s := Single("d", "", [7], map[]);
            var one := Receive(h, s.(hook := DeliversThenFails));
            && one.published && one.result.Err? && one.recorded.None?
            && Receive(h, s).published
  {
    SinglePublishes("d", "", [7], DeliversThenFails);
    SinglePublishes("d", "", [7], Delivers);
    assert Single("d", "", [7], map[]).(hook := Delivers) == Single("d", "", [7], map[]);
  }

  /**
   * The ledger is consulted when an attempt starts and written when it ends. Two
   * attempts that both start on an empty ledger both publish under one key; had
   * the second started on the ledger the first left, it would not have.
   */
  lemma OverlappingAttemptsPublishTwice()
    ensures var h: HashFn := x => x;
            var one := Receive(h, Single("d", "", [7], map[]));
            var two := Receive(h, Single("e", "", [8], map[]));
            && one.published && one.recorded.Some? && one.recorded.value.key == "key"
            && two.published && two.recorded.Some? && two.recorded.value.key == "key"
            && !Receive(h, Single("e", "", [8], map["key" := Stamped(one.recorded.value, 1)])).published
  {
    var h: HashFn := x => x;
    SinglePublishes("d", "", [7], Delivers);
    SinglePublishes("e", "", [8], Delivers);
    var e := Receive(h, Single("d", "", [7], map[])).recorded.value;
    AttemptFacts(h, Try(Single("e", "", [8], map[]), 1), map["key" := Stamped(e, 1)]);
  }

  // ----- what counts as the same transfer

  /** The metadata the ledger compares. */
  predicate SameCompared(m: DropSend, x: DropSend) {
    && m.kind == x.kind && m.name == x.name && m.size == x.size && m.mimeType == x.mimeType
    && NegotiatedChunk(m) == NegotiatedChunk(x) && m.headHash == x.headHash
  }

  /** The metadata that says what is transferred and where it goes. */
  predicate SameTransfer(m: DropSend, x: DropSend) { SameCompared(m, x) && m.relPath == x.relPath }

  /** A record matches metadata if and only if the compared fields agree, whatever the relative paths. */
  lemma RecordMatchesIff(m: DropSend, sha: Digest, n: int, now: nat, x: DropSend)
    ensures Matches(Stamped(NewEntry(m, sha, n), now), x) <==> SameCompared(m, x)
  {
  }

  /**
   * "Any difference fails closed" holds of a pair exactly when the relative paths
   * agree or a compared field differs.
   */
  lemma AnyDifferenceFailsIff(m: DropSend, sha: Digest, n: int, now: nat, x: DropSend)
    ensures (!SameTransfer(m, x) ==> !Matches(Stamped(NewEntry(m, sha, n), now), x))
       <==> m.relPath == x.relPath || !SameCompared(m, x)
  {
    RecordMatchesIff(m, sha, n, now, x);
  }

  /** One final chunk with the recorded digest is all a duplicate needs. */
  lemma OneChunkDuplicate(h: HashFn, job: Job, c: DropData)
    requires c == DropData(job.dropId, 0, c.data, true, Some(h(c.data))) && |c.data| == job.chunk == 1
    requires job.recorded == Some(h(c.data)) && job.size == 0 && job.maxSize > 0 && !job.isText
    ensures Loop(h, job, Progress(0, 0, [], DISCARD), Unmetered, [DataMsg(c)])
         == State(Accepted, Progress(1, 1, c.data, DISCARD), Unmetered)
  {
    assert [] + c.data == c.data;
    assert [DataMsg(c)][1..] == [];
  }

  /** A record that matches turns the attempt into a duplicate. */
  lemma SingleIsDuplicate(id: string, relPath: string, data: Bytes, e: Entry)
    requires |data| == 1 && e.sha == data
    requires Matches(e, Single(id, relPath, data, map["key" := e]).inbox[0].send)
    ensures var s := Single(id, relPath, data, map["key" := e]);
            var r := Receive(x => x, s);
            && r.result == Ok(Receipt(1, data, true)) && !r.published && r.dest == s.dest
            && r.replies == [AckMsg(DropAck(id, true, 0)), CompleteMsg(DropComplete(id, true, 1, Some(data), true))]
  {
    hide Matches; hide NewEntry; hide Absorb; hide Loop;
    var h: HashFn := x => x;
    var s := Single(id, relPath, data, map["key" := e]);
    var meta, c := s.inbox[0].send, s.inbox[1].chunk;
    SingleNext(id, relPath, data, map["key" := e]);
    assert ValidKey("key");
    ValidKeyIsNotBlank("key");
    var job := NewJob(s.cfg, meta, Some(e));
    var p := Start(job, 0, DISCARD);
    assert p == Progress(0, 0, [], DISCARD);
    OneChunkDuplicate(h, job, c);
  }

  /**
   * Two files of one directory with the same name and bytes: sent under one key,
   * the second is acknowledged as a duplicate and nothing appears at its place.
   */
  lemma OtherPathIsTakenForDuplicate()
    ensures var h: HashFn := x => x;
            var one := Receive(h, Single("d", "a/f", [7], map[]));
            && one.published && one.recorded.Some?
            && var s := Single("e", "b/f", [7], map["key" := Stamped(one.recorded.value, 1)]);
            && !SameTransfer(Single("d", "a/f", [7], map[]).inbox[0].send, s.inbox[0].send)
            && var two := Receive(h, s);
            && two.result == Ok(Receipt(1, [7], true)) && !two.published && two.dest == s.dest
            && two.replies == [AckMsg(DropAck("e", true, 0)), CompleteMsg(DropComplete("e", true, 1, Some([7]), true))]
  {
    hide Receive;
    SinglePublishes("d", "a/f", [7], Delivers);
    SingleIsDuplicate("e", "b/f", [7], Stamped(Receive(x => x, Single("d", "a/f", [7], map[])).recorded.value, 1));
  }
}
