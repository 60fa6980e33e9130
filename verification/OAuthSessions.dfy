/** Single-owner coalescing of identical sign-in requests with a replay window (internal/bridge/session.go). */
module OAuthSessions {
  import opened Common

  const MAX_REPLAY: int := 256
  const MAX_ACTIVE: int := 128
  const DEFAULT_WINDOW: int := 120 * 1_000_000_000

  /** `key` is the request it was created for; `closes` counts how often its done channel was closed. */
  datatype Session = Session(key: string, closed: bool, success: bool, err: Option<string>, closes: nat)

  /** When each completed request stops being replayable. */
  type Replays = map<string, int>

  /** `sessions` are all session objects ever created; leases and `active` refer to them by index. */
  datatype State = State(active: map<string, nat>, recent: Replays, sessions: seq<Session>, window: int)

  datatype Lease =
    | Owner(session: nat)
    | Joiner(session: nat)
    | Replayed
    | TooMany

  function Unexpired(r: Replays, now: int): Replays {
    map k | k in r && now <= r[k] :: r[k]
  }

  /** Pruning drops what has expired and, above the capacity, entries that expire no later than any kept one. */
  ghost predicate IsPruned(r: Replays, now: int, r': Replays) {
    var live := Unexpired(r, now);
    && r'.Keys <= live.Keys
    && (forall k | k in r' :: r'[k] == live[k])
    && (|live| <= MAX_REPLAY ==> r' == live)
    && (|live| > MAX_REPLAY ==>
          |r'| == MAX_REPLAY && forall k, k' | k in live && k !in r' && k' in r' :: live[k] <= r'[k'])
  }

  /** The lease granted once the replay records are pruned. */
  function Granted(s: State, key: string): Lease {
    if key in s.recent then Replayed
    else if key in s.active then Joiner(s.active[key])
    else if |s.active| >= MAX_ACTIVE then TooMany
    else Owner(|s.sessions|)
  }

  function AfterGrant(s: State, key: string): State {
    if Granted(s, key).Owner?
    then s.(active := s.active[key := |s.sessions|], sessions := s.sessions + [Session(key, false, false, None, 0)])
    else s
  }

  ghost predicate Acquires(s: State, key: string, now: int, lease: Lease, s': State) {
    && IsPruned(s.recent, now, s'.recent)
    && lease == Granted(s.(recent := s'.recent), key)
    && s' == AfterGrant(s.(recent := s'.recent), key)
  }

  /** A finish takes effect only for the owner of the key's current, still open session. */
  predicate Finishes(s: State, key: string, lease: Lease) {
    lease.Owner? && key in s.active && s.active[key] == lease.session
    && lease.session < |s.sessions| && !s.sessions[lease.session].closed
  }

  function Closed(x: Session, err: Option<string>): Session {
    Session(x.key, true, err.None?, err, x.closes + 1)
  }

  ghost predicate Finished(s: State, key: string, lease: Lease, err: Option<string>, now: int, s': State) {
    if !Finishes(s, key, lease) then s' == s
    else
      && s'.active == s.active - {key}
      && s'.sessions == s.sessions[lease.session := Closed(s.sessions[lease.session], err)]
      && s'.window == s.window
      && (if err.None? then IsPruned(s.recent[key := now + s.window], now, s'.recent) else s'.recent == s.recent)
  }

  /** What waiting on a lease returns once the session is done. */
  function WaitResult(s: State, lease: Lease): Result<(), string>
    requires lease.Owner? || lease.Joiner? ==> lease.session < |s.sessions| && s.sessions[lease.session].closed
  {
    match lease
    case Replayed => Ok(())
    case TooMany => Err("OAuth session has no completion state")
    case _ =>
      var x := s.sessions[lease.session];
      if x.success then Ok(()) else if x.err.Some? then Err(x.err.value) else Err("OAuth session failed")
  }

  // ----- the manager

  method DropExpired(r: Replays, now: int) returns (live: Replays)
    ensures live == Unexpired(r, now)
  {
    live := r;
    var todo := r.Keys;
    while todo != {}
      invariant todo <= r.Keys
      invariant forall k :: k in live <==> k in r && (k in todo || now <= r[k])
      invariant forall k | k in live :: live[k] == r[k]
      decreases todo
    {
      var k :| k in todo;
      if now > r[k] { live := live - {k}; }
      todo := todo - {k};
    }
  }

  method EarliestExpiry(r: Replays) returns (oldest: string)
    requires r != map[]
    ensures oldest in r && forall k | k in r :: r[oldest] <= r[k]
  {
    var todo := r.Keys;
    oldest :| oldest in r;
    while todo != {}
      invariant todo <= r.Keys && oldest in r
      invariant forall k | k in r && k !in todo :: r[oldest] <= r[k]
      decreases todo
    {
      var k :| k in todo;
      if r[k] < r[oldest] { oldest := k; }
      todo := todo - {k};
    }
  }

  class OAuthSessionManager {
    var active: map<string, nat>
    var recent: Replays
    var sessions: seq<Session>
    const window: int

    ghost function View(): State
      reads this
    {
      State(active, recent, sessions, window)
    }

    /** A window that is not positive selects the default of two minutes. */
    constructor (requested: int)
      ensures View() == State(map[], map[], [], if requested > 0 then requested else DEFAULT_WINDOW)
    {
      active, recent, sessions := map[], map[], [];
      window := if requested > 0 then requested else DEFAULT_WINDOW;
    }

    method Acquire(key: string, now: int) returns (lease: Lease)
      modifies this
      ensures Acquires(old(View()), key, now, lease, View())
      ensures lease == Replayed <==> key in recent
      ensures key !in recent && key in old(active) ==> lease == Joiner(old(active)[key])
      ensures lease == TooMany <==> key !in recent && key !in old(active) && |old(active)| >= 128
      ensures lease.Owner? ==>
                && lease.session == |old(sessions)| && active == old(active)[key := lease.session]
                && sessions == old(sessions) + [Session(key, false, false, None, 0)]
      ensures !lease.Owner? ==> active == old(active) && sessions == old(sessions)
    {
      Prune(now);
      if key in recent { return Replayed; }
      if key in active { return Joiner(active[key]); }
      if |active| >= MAX_ACTIVE { return TooMany; }
      lease := Owner(|sessions|);
      active := active[key := |sessions|];
      sessions := sessions + [Session(key, false, false, None, 0)];
    }

    /** What a caller gets that waits until the session is done. */
    method Wait(lease: Lease) returns (r: Result<(), string>)
      requires lease.Owner? || lease.Joiner? ==> lease.session < |sessions| && sessions[lease.session].closed
      ensures r == WaitResult(View(), lease)
    {
      if lease.Replayed? { return Ok(()); }
      if lease.TooMany? { return Err("OAuth session has no completion state"); }
      var x := sessions[lease.session];
      if x.success { return Ok(()); }
      if x.err.Some? { return Err(x.err.value); }
      return Err("OAuth session failed");
    }

    method Finish(key: string, lease: Lease, err: Option<string>, now: int)
      modifies this
      ensures Finished(old(View()), key, lease, err, now, View())
    {
      hide IsPruned; hide Closed;
      if !lease.Owner? { return; }
      if key !in active || active[key] != lease.session { return; }
      if lease.session >= |sessions| || sessions[lease.session].closed { return; }
      sessions := sessions[lease.session := Closed(sessions[lease.session], err)];
      active := active - {key};
      if err.None? {
        recent := recent[key := now + window];
        Prune(now);
      }
    }

    method Prune(now: int)
      modifies this`recent
      ensures IsPruned(old(recent), now, recent)
    {
      var live := DropExpired(recent, now);
      recent := live;
      while |recent| > MAX_REPLAY
        invariant recent.Keys <= live.Keys && forall k | k in recent :: recent[k] == live[k]
        invariant |live| <= MAX_REPLAY ==> recent == live
        invariant |live| > MAX_REPLAY ==> |recent| >= MAX_REPLAY
        invariant forall k, k' | k in live && k !in recent && k' in recent :: live[k] <= recent[k']
        decreases |recent|
      {
        var oldest := EarliestExpiry(recent);
        assert (recent - {oldest}).Keys == recent.Keys - {oldest};
        recent := recent - {oldest};
      }
    }
  }

  // ----- runs

  /** A call, with the lease that an acquisition was granted. */
  datatype Op =
    | AcquireOp(key: string, now: int, lease: Lease)
    | FinishOp(key: string, lease: Lease, err: Option<string>, now: int)

  ghost predicate Step(s: State, op: Op, s': State) {
    match op
    case AcquireOp(key, now, lease) => Acquires(s, key, now, lease, s')
    case FinishOp(key, lease, err, now) => Finished(s, key, lease, err, now, s')
  }

  ghost predicate IsRun(window: int, ops: seq<Op>, ss: seq<State>) {
    && |ss| == |ops| + 1 && ss[0] == State(map[], map[], [], window)
    && forall i | 0 <= i < |ops| :: Step(ss[i], ops[i], ss[i + 1])
  }

  ghost predicate SessionInv(s: State, x: Session, i: nat) {
    && (x.closed <==> x.closes > 0)
    && x.closes <= 1
    && (x.closes == 0 ==> x.key in s.active && s.active[x.key] == i)
  }

  /** An active key has its own open session; every other session was closed once; the maps are disjoint and bounded. */
  ghost predicate Inv(s: State) {
    && s.active.Keys !! s.recent.Keys
    && |s.active| <= MAX_ACTIVE && |s.recent| <= MAX_REPLAY
    && (forall k | k in s.active ::
          && s.active[k] < |s.sessions|
          && s.sessions[s.active[k]].key == k && s.sessions[s.active[k]].closes == 0)
    && forall i | 0 <= i < |s.sessions| :: SessionInv(s, s.sessions[i], i)
  }

  lemma AcquireKeepsInv(s: State, key: string, now: int, lease: Lease, s': State)
    requires Inv(s) && Acquires(s, key, now, lease, s')
    ensures Inv(s')
  {
    if lease.Owner? {
      assert |s'.active| == |s.active| + 1;
      forall i | 0 <= i < |s.sessions| ensures SessionInv(s', s'.sessions[i], i) {
        assert SessionInv(s, s.sessions[i], i);
      }
    }
  }

  lemma FinishKeepsInv(s: State, key: string, lease: Lease, err: Option<string>, now: int, s': State)
    requires Inv(s) && Finished(s, key, lease, err, now, s')
    ensures Inv(s')
  {
    if Finishes(s, key, lease) {
      SubsetCardinality(s'.active.Keys, s.active.Keys);
      forall i | 0 <= i < |s'.sessions| ensures SessionInv(s', s'.sessions[i], i) {
        assert SessionInv(s, s.sessions[i], i);
      }
    }
  }

  lemma InitialInv(window: int)
    ensures Inv(State(map[], map[], [], window))
  {
  }

  /**
   * Over every run: an active key is never replayable, the sizes stay within 128
   * and 256, every session's channel is closed at most once, and a session that
   * is not closed is the one and only session of an active key.
   */
  lemma {:induction false} RunsKeepInv(window: int, ops: seq<Op>, ss: seq<State>, n: nat)
    requires IsRun(window, ops, ss) && n <= |ops|
    ensures Inv(ss[n]) && |ss[n].active| <= 128 && |ss[n].recent| <= 256
    decreases n
  {
    hide Inv; hide Acquires; hide Finished;
    if n == 0 {
      InitialInv(window);
    } else {
      RunsKeepInv(window, ops, ss, n - 1);
      assert Step(ss[n - 1], ops[n - 1], ss[n]);
      match ops[n - 1]
      case AcquireOp(key, now, lease) => AcquireKeepsInv(ss[n - 1], key, now, lease, ss[n]);
      case FinishOp(key, lease, err, now) => FinishKeepsInv(ss[n - 1], key, lease, err, now, ss[n]);
    }
  }

  /** Step n is the owner of session i finishing it. */
  ghost predicate OwnerFinishes(ops: seq<Op>, ss: seq<State>, n: nat, i: nat)
    requires n < |ops| && n < |ss|
  {
    ops[n].FinishOp? && Finishes(ss[n], ops[n].key, ops[n].lease) && ops[n].lease == Owner(i)
  }

  lemma StepKeepsClosed(s: State, op: Op, s': State, i: nat)
    requires Step(s, op, s') && i < |s.sessions| && s.sessions[i].closed
    ensures i < |s'.sessions| && s'.sessions[i] == s.sessions[i]
  {
  }

  lemma ClosedIsNotFinished(ops: seq<Op>, ss: seq<State>, n: nat, i: nat)
    requires n < |ops| && n < |ss| && i < |ss[n].sessions| && ss[n].sessions[i].closed
    ensures !OwnerFinishes(ops, ss, n, i)
  {
  }

  lemma AcquireClosesNothing(s: State, key: string, now: int, lease: Lease, s': State, i: nat)
    requires Acquires(s, key, now, lease, s') && i < |s'.sessions| && s'.sessions[i].closed
    ensures i < |s.sessions| && s.sessions[i].closed
  {
    hide IsPruned;
  }

  lemma FinishClosesItsOwn(s: State, key: string, lease: Lease, err: Option<string>, now: int, s': State, i: nat)
    requires Inv(s) && Finished(s, key, lease, err, now, s') && i < |s'.sessions| && s'.sessions[i].closed
    requires i < |s.sessions| ==> !s.sessions[i].closed
    ensures Finishes(s, key, lease) && lease == Owner(i)
    ensures s'.sessions[i] == Session(key, true, err.None?, err, 1)
  {
    hide IsPruned; hide SessionInv;
  }

  /** A session becomes closed only by its owner finishing it. */
  lemma StepCloses(s: State, op: Op, s': State, i: nat)
    requires Inv(s) && Step(s, op, s') && i < |s'.sessions| && s'.sessions[i].closed
    requires i < |s.sessions| ==> !s.sessions[i].closed
    ensures op.FinishOp? && Finishes(s, op.key, op.lease) && op.lease == Owner(i)
    ensures s'.sessions[i] == Session(op.key, true, op.err.None?, op.err, 1)
  {
    hide Acquires; hide Finished; hide Inv; hide Finishes;
    match op
    case AcquireOp(key, now, lease) => AcquireClosesNothing(s, key, now, lease, s', i);
    case FinishOp(key, lease, err, now) => FinishClosesItsOwn(s, key, lease, err, now, s', i);
  }

  lemma {:induction false} ClosedStaysClosed(window: int, ops: seq<Op>, ss: seq<State>, m: nat, n: nat, i: nat)
    requires IsRun(window, ops, ss) && m <= n <= |ops| && i < |ss[m].sessions| && ss[m].sessions[i].closed
    ensures i < |ss[n].sessions| && ss[n].sessions[i] == ss[m].sessions[i]
    decreases n
  {
    if m == n {
    } else {
      ClosedStaysClosed(window, ops, ss, m, n - 1, i);
      assert Step(ss[n - 1], ops[n - 1], ss[n]);
    }
  }

  lemma OpenWasNotFinished(window: int, ops: seq<Op>, ss: seq<State>, n: nat, i: nat)
    requires IsRun(window, ops, ss) && n <= |ops| && (i < |ss[n].sessions| ==> !ss[n].sessions[i].closed)
    ensures forall x | 0 <= x < n :: !OwnerFinishes(ops, ss, x, i)
  {
    forall x: nat | x < n ensures !OwnerFinishes(ops, ss, x, i) {
      assert Step(ss[x], ops[x], ss[x + 1]);
      if i < |ss[x + 1].sessions| && ss[x + 1].sessions[i].closed { ClosedStaysClosed(window, ops, ss, x + 1, n, i); }
    }
  }

  /**
   * Every waiter gets the owner's result: once a session is closed, exactly one
   * earlier step closed it, that step was its owner finishing, and what any
   * joiner reads from then on is the owner's outcome.
   */
  lemma {:induction false} WaitersGetOwnersResult(window: int, ops: seq<Op>, ss: seq<State>, n: nat, i: nat)
    returns (f: nat)
    requires IsRun(window, ops, ss) && n <= |ops| && i < |ss[n].sessions| && ss[n].sessions[i].closed
    ensures f < n && OwnerFinishes(ops, ss, f, i) && ops[f].lease == Owner(i)
    ensures ss[n].sessions[i] == Session(ops[f].key, true, ops[f].err.None?, ops[f].err, 1)
    ensures WaitResult(ss[n], Joiner(i)) == (if ops[f].err.None? then Ok(()) else Err(ops[f].err.value))
    ensures forall x | 0 <= x < n && x != f :: !OwnerFinishes(ops, ss, x, i)
    decreases n
  {
    hide Inv; hide Step; hide Finishes;
    var p := n - 1;
    assert Step(ss[p], ops[p], ss[n]);
    RunsKeepInv(window, ops, ss, p);
    if i < |ss[p].sessions| && ss[p].sessions[i].closed {
      f := WaitersGetOwnersResult(window, ops, ss, p, i);
      StepKeepsClosed(ss[p], ops[p], ss[n], i);
      ClosedIsNotFinished(ops, ss, p, i);
    } else {
      f := p;
      StepCloses(ss[p], ops[p], ss[n], i);
      OpenWasNotFinished(window, ops, ss, p, i);
    }
  }

  // ----- who joins whom

  /** Step m makes its caller the owner of session i, created for `key`. */
  ghost predicate Opens(ops: seq<Op>, m: int, key: string, i: nat) {
    0 <= m < |ops| && ops[m].AcquireOp? && ops[m].key == key && ops[m].lease == Owner(i)
  }

  /** The owner of session i reports the outcome of `key`. */
  ghost predicate Reports(op: Op, key: string, i: nat) { op.FinishOp? && op.key == key && op.lease == Owner(i) }

  /** Nobody has reported for the sign-in between the two steps. */
  ghost predicate Unreported(ops: seq<Op>, m: int, n: int, key: string, i: nat) {
    forall x | m < x < n && 0 <= x < |ops| :: !Reports(ops[x], key, i)
  }

  ghost predicate IsActive(s: State, key: string, i: nat) {
    && key in s.active && s.active[key] == i
    && i < |s.sessions| && s.sessions[i] == Session(key, false, false, None, 0)
  }

  lemma OpeningActivates(s: State, op: Op, s': State)
    requires Step(s, op, s') && op.AcquireOp? && op.lease.Owner?
    ensures IsActive(s', op.key, op.lease.session)
  {
  }

  lemma AcquireKeepsActive(s: State, key: string, now: int, lease: Lease, s': State, k: string, i: nat)
    requires IsActive(s, k, i) && Acquires(s, key, now, lease, s')
    ensures IsActive(s', k, i)
  {
  }

  lemma FinishKeepsActive(s: State, key: string, lease: Lease, err: Option<string>, now: int, s': State,
                          k: string, i: nat)
    requires IsActive(s, k, i) && Finished(s, key, lease, err, now, s') && !(key == k && lease == Owner(i))
    requires key in s.active && s.active[key] == i ==> key == k
    ensures IsActive(s', k, i)
  {
    hide IsPruned;
  }

  lemma StepKeepsActive(s: State, op: Op, s': State, key: string, i: nat)
    requires Inv(s) && Step(s, op, s') && IsActive(s, key, i) && !Reports(op, key, i)
    ensures IsActive(s', key, i)
  {
    assert forall k | k in s.active && s.active[k] == i :: k == key;
    hide Inv; hide IsActive; hide Acquires; hide Finished;
    match op
    case AcquireOp(k, now, lease) => AcquireKeepsActive(s, k, now, lease, s', key, i);
    case FinishOp(k, lease, err, now) => FinishKeepsActive(s, k, lease, err, now, s', key, i);
  }

  /** A sign-in stays open until its owner reports. */
  lemma {:induction false} OpenUntilReported(window: int, ops: seq<Op>, ss: seq<State>, m: nat, n: nat, key: string,
                                             i: nat)
    requires IsRun(window, ops, ss) && Opens(ops, m, key, i) && m < n <= |ops| && Unreported(ops, m, n, key, i)
    ensures IsActive(ss[n], key, i)
    decreases n
  {
    hide Inv; hide IsActive; hide Step; hide Reports;
    var p := n - 1;
    assert Step(ss[p], ops[p], ss[n]);
    if m == p {
      OpeningActivates(ss[p], ops[p], ss[n]);
    } else {
      OpenUntilReported(window, ops, ss, m, p, key, i);
      RunsKeepInv(window, ops, ss, p);
      StepKeepsActive(ss[p], ops[p], ss[n], key, i);
    }
  }

  /** One step back from an active key. */
  lemma StepBackFromActive(s: State, op: Op, s': State, key: string)
    requires Inv(s) && Step(s, op, s') && key in s'.active
    ensures var i := s'.active[key];
            || (op.AcquireOp? && op.key == key && op.lease == Owner(i))
            || (key in s.active && s.active[key] == i && !Reports(op, key, i))
  {
    hide IsPruned;
  }

  /** An active key was granted to an owner who has not reported yet. */
  lemma {:induction false} ActiveWasOpened(window: int, ops: seq<Op>, ss: seq<State>, n: nat, key: string)
    returns (m: nat)
    requires IsRun(window, ops, ss) && n <= |ops| && key in ss[n].active
    ensures m < n && Opens(ops, m, key, ss[n].active[key]) && Unreported(ops, m, n, key, ss[n].active[key])
    decreases n
  {
    hide Inv; hide Step; hide Reports;
    var p := n - 1;
    var i := ss[n].active[key];
    assert Step(ss[p], ops[p], ss[n]);
    RunsKeepInv(window, ops, ss, p);
    StepBackFromActive(ss[p], ops[p], ss[n], key);
    if Opens(ops, p, key, i) {
      m := p;
    } else {
      m := ActiveWasOpened(window, ops, ss, p, key);
    }
  }

  /** What Acquire answers, by the maps it found. */
  lemma LeaseOf(s: State, op: Op, s': State)
    requires Inv(s) && Step(s, op, s') && op.AcquireOp?
    ensures forall i: nat :: op.lease == Joiner(i) <==> op.key in s.active && s.active[op.key] == i
    ensures op.lease == TooMany <==> op.key !in s.active && op.key !in s'.recent && |s.active| == 128
    ensures op.lease == Replayed ==> op.key in s.recent && op.now <= s.recent[op.key]
    ensures op.key in s'.recent ==> op.lease == Replayed
  {
  }

  /**
   * Coalescing: a caller joins session i exactly if some earlier caller was made
   * its owner for the same key and has not reported since.
   */
  lemma JoinsIff(window: int, ops: seq<Op>, ss: seq<State>, n: nat, i: nat)
    requires IsRun(window, ops, ss) && n < |ops| && ops[n].AcquireOp?
    ensures ops[n].lease == Joiner(i)
       <==> exists m :: m < n && Opens(ops, m, ops[n].key, i) && Unreported(ops, m, n, ops[n].key, i)
  {
    hide Inv; hide Step; hide Unreported;
    var key := ops[n].key;
    assert Step(ss[n], ops[n], ss[n + 1]);
    RunsKeepInv(window, ops, ss, n);
    LeaseOf(ss[n], ops[n], ss[n + 1]);
    if ops[n].lease == Joiner(i) {
      var m := ActiveWasOpened(window, ops, ss, n, key);
    }
    forall m | m < n && Opens(ops, m, key, i) && Unreported(ops, m, n, key, i) ensures ops[n].lease == Joiner(i) {
      OpenUntilReported(window, ops, ss, m, n, key, i);
    }
  }

  /** A caller is turned away exactly if 128 other sign-ins are open and its own key is neither open nor replayable. */
  lemma RefusedIff(window: int, ops: seq<Op>, ss: seq<State>, n: nat)
    requires IsRun(window, ops, ss) && n < |ops| && ops[n].AcquireOp?
    ensures ops[n].lease == TooMany
       <==> ops[n].key !in ss[n].active && ops[n].key !in ss[n + 1].recent && |ss[n].active| == 128
    ensures ops[n].lease == TooMany ==> ss[n + 1].active == ss[n].active && ss[n + 1].sessions == ss[n].sessions
  {
    assert Step(ss[n], ops[n], ss[n + 1]);
    RunsKeepInv(window, ops, ss, n);
    LeaseOf(ss[n], ops[n], ss[n + 1]);
  }

  lemma ReportCloses(s: State, key: string, i: nat, err: Option<string>, now: int, s': State)
    requires IsActive(s, key, i) && Finished(s, key, Owner(i), err, now, s')
    ensures i < |s'.sessions| && s'.sessions[i] == Session(key, true, err.None?, err, 1) && key !in s'.active
    ensures err.None? ==> IsPruned(s.recent[key := now + s.window], now, s'.recent)
  {
    hide IsPruned;
  }

  /** The owner's first report takes effect, whatever happened since the sign-in was opened. */
  lemma FirstReportCloses(window: int, ops: seq<Op>, ss: seq<State>, m: nat, f: nat, key: string, i: nat)
    requires IsRun(window, ops, ss) && m < f < |ops|
    requires Opens(ops, m, key, i) && Unreported(ops, m, f, key, i) && Reports(ops[f], key, i)
    ensures i < |ss[f + 1].sessions|
    ensures ss[f + 1].sessions[i] == Session(key, true, ops[f].err.None?, ops[f].err, 1) && key !in ss[f + 1].active
  {
    hide IsActive; hide Finished;
    OpenUntilReported(window, ops, ss, m, f, key, i);
    assert Step(ss[f], ops[f], ss[f + 1]);
    ReportCloses(ss[f], key, i, ops[f].err, ops[f].now, ss[f + 1]);
  }

  /** A finish changes anything only if it is the first report of a sign-in opened for its key. */
  lemma OnlyFirstReportsCount(window: int, ops: seq<Op>, ss: seq<State>, f: nat) returns (m: nat)
    requires IsRun(window, ops, ss) && f < |ops| && ops[f].FinishOp? && ss[f + 1] != ss[f]
    ensures m < f && ops[f].lease.Owner?
    ensures Opens(ops, m, ops[f].key, ops[f].lease.session)
    ensures Unreported(ops, m, f, ops[f].key, ops[f].lease.session)
  {
    hide IsPruned; hide Unreported;
    assert Step(ss[f], ops[f], ss[f + 1]);
    m := ActiveWasOpened(window, ops, ss, f, ops[f].key);
  }

  lemma NotReportedBefore(ops: seq<Op>, m: nat, n: nat, f: nat, key: string, i: nat)
    requires Unreported(ops, m, n, key, i) && m < f < |ops| && Reports(ops[f], key, i)
    ensures n <= f
  {
  }

  /** The first report between two steps, if there is one. */
  lemma {:induction false} FirstReport(ops: seq<Op>, m: nat, n: nat, key: string, i: nat) returns (f: nat)
    requires m <= n <= |ops| && !Unreported(ops, m, n, key, i)
    ensures m < f < n && Reports(ops[f], key, i) && Unreported(ops, m, f, key, i)
    decreases n
  {
    hide Reports;
    if Unreported(ops, m, n - 1, key, i) {
      f := n - 1;
    } else {
      f := FirstReport(ops, m, n - 1, key, i);
    }
  }

  /**
   * Every joiner gets its owner's result: who joins session i waits for the one
   * who was made its owner for the same key before, and once the session is done
   * gets what that owner reported first, after the joiner had joined.
   */
  lemma JoinerGetsOwnersOutcome(window: int, ops: seq<Op>, ss: seq<State>, n: nat, done: nat, i: nat)
    returns (m: nat, f: nat)
    requires IsRun(window, ops, ss) && n < done <= |ops| && ops[n].AcquireOp? && ops[n].lease == Joiner(i)
    requires i < |ss[done].sessions| && ss[done].sessions[i].closed
    ensures m < n < f < done && Opens(ops, m, ops[n].key, i)
    ensures Reports(ops[f], ops[n].key, i) && Unreported(ops, m, f, ops[n].key, i)
    ensures WaitResult(ss[done], ops[n].lease) == (if ops[f].err.None? then Ok(()) else Err(ops[f].err.value))
  {
    hide Step; hide Unreported;
    var key := ops[n].key;
    JoinsIff(window, ops, ss, n, i);
    m :| 0 <= m < n && Opens(ops, m, key, i) && Unreported(ops, m, n, key, i);
    if Unreported(ops, m, done, key, i) { OpenUntilReported(window, ops, ss, m, done, key, i); }
    f := FirstReport(ops, m, done, key, i);
    NotReportedBefore(ops, m, n, f, key, i);
    FirstReportCloses(window, ops, ss, m, f, key, i);
    ClosedStaysClosed(window, ops, ss, f + 1, done, i);
  }

  // ----- replay

  /** Step f is the first, successful report of a sign-in for `key`. */
  ghost predicate Succeeds(ops: seq<Op>, ss: seq<State>, f: int, key: string)
    requires |ss| == |ops| + 1
  {
    && 0 <= f < |ops| && ops[f].FinishOp? && ops[f].key == key && ops[f].err.None?
    && exists m, i :: m < f && ops[f].lease == Owner(i) && Opens(ops, m, key, i) && Unreported(ops, m, f, key, i)
  }

  lemma StepBackFromRecord(s: State, op: Op, s': State, key: string)
    requires Step(s, op, s') && key in s'.recent
    ensures || (key in s.recent && s'.recent[key] == s.recent[key])
            || (&& op.FinishOp? && op.key == key && op.err.None? && op.lease.Owner?
                && key in s.active && s.active[key] == op.lease.session
                && s'.recent[key] == op.now + s.window)
  {
  }

  lemma {:induction false} WindowStays(window: int, ops: seq<Op>, ss: seq<State>, n: nat)
    requires IsRun(window, ops, ss) && n <= |ops|
    ensures ss[n].window == window
    decreases n
  {
    hide IsPruned;
    if n == 0 {
    } else {
      WindowStays(window, ops, ss, n - 1);
      assert Step(ss[n - 1], ops[n - 1], ss[n]);
    }
  }

  lemma {:induction false} RecordIsOfSuccess(window: int, ops: seq<Op>, ss: seq<State>, n: nat, key: string)
    returns (f: nat)
    requires IsRun(window, ops, ss) && n <= |ops| && key in ss[n].recent
    ensures f < n && Succeeds(ops, ss, f, key) && ss[n].recent[key] == ops[f].now + window
    decreases n
  {
    hide Step; hide Opens; hide Unreported;
    var p := n - 1;
    assert Step(ss[p], ops[p], ss[n]);
    StepBackFromRecord(ss[p], ops[p], ss[n], key);
    if key in ss[p].recent && ss[n].recent[key] == ss[p].recent[key] {
      f := RecordIsOfSuccess(window, ops, ss, p, key);
    } else {
      f := p;
      WindowStays(window, ops, ss, p);
      var m := ActiveWasOpened(window, ops, ss, p, key);
    }
  }

  /** A caller is told of an earlier success only if there was one for its key, no longer ago than the window. */
  lemma ReplayIsOfSuccess(window: int, ops: seq<Op>, ss: seq<State>, n: nat) returns (f: nat)
    requires IsRun(window, ops, ss) && n < |ops| && ops[n].AcquireOp? && ops[n].lease == Replayed
    ensures f < n && Succeeds(ops, ss, f, ops[n].key) && ops[n].now <= ops[f].now + window
    ensures WaitResult(ss[n + 1], ops[n].lease) == Ok(())
  {
    hide Inv; hide Step; hide Succeeds;
    RunsKeepInv(window, ops, ss, n);
    assert Step(ss[n], ops[n], ss[n + 1]);
    LeaseOf(ss[n], ops[n], ss[n + 1]);
    f := RecordIsOfSuccess(window, ops, ss, n, ops[n].key);
  }

  // ----- second owners

  /** Step n grants ownership of `key`. */
  ghost predicate GrantsOwner(ops: seq<Op>, ss: seq<State>, n: nat, key: string)
    requires n < |ops| && n + 1 < |ss|
  {
    ops[n].AcquireOp? && ops[n].key == key && ops[n].lease.Owner?
  }

  /** Step n is a failing finish of `key`. */
  ghost predicate Fails(ops: seq<Op>, ss: seq<State>, n: nat, key: string)
    requires n < |ops| && n < |ss|
  {
    ops[n].FinishOp? && ops[n].key == key && Finishes(ss[n], key, ops[n].lease) && ops[n].err.Some?
  }

  /** The replay records step n prunes: those it found and, if it is a successful finish, the new one. */
  ghost function Pruned(ops: seq<Op>, ss: seq<State>, n: nat): Replays
    requires n < |ops| && n < |ss|
  {
    var op := ops[n];
    if op.FinishOp? && op.err.None? && Finishes(ss[n], op.key, op.lease)
    then ss[n].recent[op.key := op.now + ss[n].window]
    else ss[n].recent
  }

  /** Step n drops the replay record of `key`: it expired, or 256 records that expire no earlier are kept instead. */
  ghost predicate DropsRecord(ops: seq<Op>, ss: seq<State>, n: nat, key: string)
    requires n < |ops| && n + 1 < |ss|
  {
    var now, before, after := ops[n].now, Pruned(ops, ss, n), ss[n + 1].recent;
    && key in before && key !in after
    && (now > before[key] || (|after| == 256 && forall k | k in after :: after[k] >= before[key]))
  }

  ghost predicate Releases(ops: seq<Op>, ss: seq<State>, n: nat, key: string)
    requires n < |ops| && n + 1 < |ss|
  {
    Fails(ops, ss, n, key) || DropsRecord(ops, ss, n, key)
  }

  lemma UndroppedStays(s: State, op: Op, s': State, ops: seq<Op>, ss: seq<State>, p: nat, key: string)
    requires p < |ops| && p + 1 < |ss| && s == ss[p] && op == ops[p] && s' == ss[p + 1] && Step(s, op, s')
    requires key in s.active || key in s.recent
    requires !Releases(ops, ss, p, key)
    ensures key in s'.active || key in s'.recent
  {
    if key in s.recent || (op.FinishOp? && op.key == key && Finishes(s, key, op.lease)) {
      var before := Pruned(ops, ss, p);
      assert key in before && op.now <= before[key] ==> key in Unexpired(before, op.now);
    }
  }

  lemma RecordStays(s: State, op: Op, s': State, ops: seq<Op>, ss: seq<State>, p: nat, key: string)
    requires p < |ops| && p + 1 < |ss| && s == ss[p] && op == ops[p] && s' == ss[p + 1] && Step(s, op, s')
    requires Inv(s) && key in s.recent && !DropsRecord(ops, ss, p, key)
    ensures key in s'.recent
  {
    var before := Pruned(ops, ss, p);
    assert key in before && op.now <= before[key] ==> key in Unexpired(before, op.now);
  }

  lemma {:induction false} RecordStaysUntilDropped(window: int, ops: seq<Op>, ss: seq<State>, m: nat, n: nat,
                                                   key: string)
    requires IsRun(window, ops, ss) && m <= n <= |ops| && key in ss[m].recent
    requires forall x | m <= x < n :: !DropsRecord(ops, ss, x, key)
    ensures key in ss[n].recent
    decreases n
  {
    hide Inv; hide Step; hide DropsRecord;
    if m == n {
    } else {
      RecordStaysUntilDropped(window, ops, ss, m, n - 1, key);
      RunsKeepInv(window, ops, ss, n - 1);
      RecordStays(ss[n - 1], ops[n - 1], ss[n], ops, ss, n - 1, key);
    }
  }

  lemma SuccessIsRecorded(s: State, op: Op, s': State, ops: seq<Op>, ss: seq<State>, f: nat, i: nat)
    requires f < |ops| && f + 1 < |ss| && s == ss[f] && op == ops[f] && s' == ss[f + 1] && Step(s, op, s')
    requires Reports(op, op.key, i) && op.err.None? && IsActive(s, op.key, i)
    requires !DropsRecord(ops, ss, f, op.key)
    ensures op.key in s'.recent
  {
    var before := Pruned(ops, ss, f);
    assert op.now <= before[op.key] ==> op.key in Unexpired(before, op.now);
  }

  /** After a success every caller with that key is told so, until the record expires or is crowded out. */
  lemma SuccessIsReplayed(window: int, ops: seq<Op>, ss: seq<State>, f: nat, n: nat)
    requires IsRun(window, ops, ss) && f < n < |ops| && ops[f].FinishOp? && Succeeds(ops, ss, f, ops[f].key)
    requires ops[n].AcquireOp? && ops[n].key == ops[f].key
    requires forall x | f <= x <= n :: !DropsRecord(ops, ss, x, ops[f].key)
    ensures ops[n].lease == Replayed
  {
    hide Inv; hide Step; hide DropsRecord; hide Unreported;
    var key := ops[f].key;
    var m, i :| m < f && ops[f].lease == Owner(i) && Opens(ops, m, key, i) && Unreported(ops, m, f, key, i);
    OpenUntilReported(window, ops, ss, m, f, key, i);
    SuccessIsRecorded(ss[f], ops[f], ss[f + 1], ops, ss, f, i);
    RecordStaysUntilDropped(window, ops, ss, f + 1, n + 1, key);
    RunsKeepInv(window, ops, ss, n);
    LeaseOf(ss[n], ops[n], ss[n + 1]);
  }

  /** A key that is owned or replayable stays so until a step fails it or drops its record. */
  lemma {:induction false} ClaimedStaysClaimed(window: int, ops: seq<Op>, ss: seq<State>, m: nat, n: nat, key: string)
    requires IsRun(window, ops, ss) && m <= n <= |ops|
    requires key in ss[m].active || key in ss[m].recent
    requires forall x | m <= x < n :: !Releases(ops, ss, x, key)
    ensures key in ss[n].active || key in ss[n].recent
    decreases n
  {
    if m == n {
    } else {
      var p := n - 1;
      ClaimedStaysClaimed(window, ops, ss, m, p, key);
      assert Step(ss[p], ops[p], ss[n]);
      assert !Releases(ops, ss, p, key);
      UndroppedStays(ss[p], ops[p], ss[n], ops, ss, p, key);
    }
  }

  /**
   * A second owner of a key appears only after the first failed, or after its
   * replay record expired or was evicted.
   */
  lemma SecondOwnerOnlyAfterRelease(window: int, ops: seq<Op>, ss: seq<State>, i: nat, j: nat, key: string)
    returns (n: nat)
    requires IsRun(window, ops, ss) && i < j < |ops|
    requires GrantsOwner(ops, ss, i, key) && GrantsOwner(ops, ss, j, key)
    ensures i < n <= j && Releases(ops, ss, n, key)
  {
    assert Step(ss[i], ops[i], ss[i + 1]);
    assert Step(ss[j], ops[j], ss[j + 1]);
    if x: nat :| i < x < j && Releases(ops, ss, x, key) {
      n := x;
    } else {
      ClaimedStaysClaimed(window, ops, ss, i + 1, j, key);
      n := j;
      assert key in ss[j].recent && (ops[j].now <= ss[j].recent[key] ==> key in Unexpired(ss[j].recent, ops[j].now));
    }
  }
}
