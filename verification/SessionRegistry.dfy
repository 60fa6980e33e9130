/** In-flight sign-ins and their scoped cancellation (internal/bridge/session_registry.go). */
module SessionRegistries {
  import opened Common

  const DEFAULT_MAX: int := 128

  /** `serial` tells one registered session object from every other. */
  datatype SessionInfo = SessionInfo(
    requestId: string, flowId: string, callbackPort: int, peer: string, state: string, startedAt: int, serial: nat)

  type Sessions = map<string, SessionInfo>

  /** `signalled` collects every session whose cancel function was called, `issued` counts the registrations. */
  datatype State = State(sessions: Sessions, signalled: multiset<SessionInfo>, issued: nat)

  /** Whether `peer` may release the session: the same fingerprint, or neither side has one. */
  predicate BelongsTo(info: SessionInfo, peer: string) {
    var owner := TrimSpace(info.peer);
    var requester := TrimSpace(peer);
    if owner == "" || requester == "" then owner == "" && requester == ""
    else Fold(owner) == Fold(requester)
  }

  /** The two trimmed fingerprints agree character by character up to ASCII case. */
  ghost predicate SamePeer(owner: string, requester: string) {
    EqualUpToCase(TrimSpace(owner), TrimSpace(requester))
  }

  /** A session belongs to the requester of the same fingerprint; a blank one is that of blank requesters only. */
  lemma BelongsToIff(info: SessionInfo, peer: string)
    ensures BelongsTo(info, peer) <==> SamePeer(info.peer, peer)
    ensures TrimSpace(info.peer) == "" ==> (BelongsTo(info, peer) <==> TrimSpace(peer) == "")
    ensures TrimSpace(peer) == "" ==> (BelongsTo(info, peer) <==> TrimSpace(info.peer) == "")
  {
    FoldIsEqualUpToCase(TrimSpace(info.peer), TrimSpace(peer));
  }

  /** A session is filed under the trimmed id, and the requester is its owner. */
  ghost predicate OwnerNames(s: State, id: string, peer: string) {
    TrimSpace(id) in s.sessions && SamePeer(s.sessions[TrimSpace(id)].peer, peer)
  }

  /** The named session, and no other, is gone and was signalled, or nothing changed. */
  ghost predicate CancelsNamed(s: State, id: string, taken: Option<SessionInfo>, t: State) {
    match taken
    case None => t == s
    case Some(x) =>
      && TrimSpace(id) in s.sessions && x == s.sessions[TrimSpace(id)]
      && t.sessions == s.sessions - {TrimSpace(id)} && t.signalled == s.signalled + multiset{x}
  }

  /** What a bulk cancellation is after. */
  datatype Target = OnFlow(flow: string) | OnPort(port: int, exclude: string) | Everything

  predicate Selects(t: Target, id: string, info: SessionInfo) {
    match t
    case OnFlow(flow) => TrimSpace(flow) != "" && info.flowId == TrimSpace(flow)
    case OnPort(port, exclude) => port > 0 && info.callbackPort == port && id != TrimSpace(exclude)
    case Everything => true
  }

  function Released(m: Sessions, t: Target, peer: string): set<string> {
    set id | id in m && Selects(t, id, m[id]) && BelongsTo(m[id], peer)
  }

  function Infos(m: Sessions, ids: set<string>): set<SessionInfo>
    requires ids <= m.Keys
  {
    set id | id in ids :: m[id]
  }

  function AfterCancel(s: State, id: string, peer: string): State {
    var key := TrimSpace(id);
    if key in s.sessions && BelongsTo(s.sessions[key], peer)
    then s.(sessions := s.sessions - {key}, signalled := s.signalled + multiset{s.sessions[key]})
    else s
  }

  /** The named sessions gone and each signalled once. */
  function Without(s: State, ids: set<string>): State
    requires ids <= s.sessions.Keys
  {
    s.(sessions := s.sessions - ids, signalled := s.signalled + multiset(Infos(s.sessions, ids)))
  }

  function AfterBulk(s: State, t: Target, peer: string): State {
    var ids := Released(s.sessions, t, peer);
    Without(s, ids)
  }

  /** Every session is filed under its own trimmed, non-empty request id. */
  ghost predicate Filed(m: Sessions) {
    forall id | id in m :: m[id].requestId == id && id != "" && TrimSpace(id) == id
  }

  function Started(info: SessionInfo, now: int, serial: nat): SessionInfo {
    info.(requestId := TrimSpace(info.requestId), startedAt := now, serial := serial,
          state := if info.state == "" then "waiting_for_browser" else info.state)
  }

  /** The session under its trimmed id, started `now`, waiting for the browser unless a state was given. */
  ghost predicate IsRegistered(x: SessionInfo, info: SessionInfo, now: int) {
    && x.requestId == TrimSpace(info.requestId) && x.startedAt == now
    && x.flowId == info.flowId && x.callbackPort == info.callbackPort && x.peer == info.peer
    && (info.state != "" ==> x.state == info.state)
    && (info.state == "" ==> x.state == "waiting_for_browser")
  }

  /** A request id is needed, and a free place unless the id is already filed. */
  predicate Registers(s: State, info: SessionInfo, max: int) {
    var id := TrimSpace(info.requestId);
    id != "" && (id in s.sessions || |s.sessions| < max)
  }

  function AfterRegister(s: State, info: SessionInfo, now: int): State {
    s.(sessions := s.sessions[TrimSpace(info.requestId) := Started(info, now, s.issued)], issued := s.issued + 1)
  }

  lemma TrimIsIdempotent(x: string)
    ensures TrimSpace(TrimSpace(x)) == TrimSpace(x)
  {
  }

  lemma RegisterKeepsFiled(s: State, info: SessionInfo, now: int)
    requires Filed(s.sessions)
    ensures TrimSpace(info.requestId) != "" ==> Filed(AfterRegister(s, info, now).sessions)
  {
    TrimIsIdempotent(info.requestId);
  }

  function AfterUnregister(s: State, id: string): State { s.(sessions := s.sessions - {id}) }

  /** The list names the released sessions, each once. */
  ghost predicate IsReleased(list: seq<SessionInfo>, m: Sessions, ids: set<string>) {
    ids <= m.Keys && multiset(list) == multiset(Infos(m, ids)) && |list| == |ids|
  }

  lemma NoneGone(s: State)
    ensures Without(s, {}) == s && IsReleased([], s.sessions, {})
  {
    assert Infos(s.sessions, {}) == {};
    assert s.sessions - {} == s.sessions;
  }

  /** Session records are distinct because each carries its own request id. */
  lemma OneMoreInfo(m: Sessions, ids: set<string>, id: string)
    requires Filed(m) && ids <= m.Keys && id in m && id !in ids
    ensures multiset(Infos(m, ids + {id})) == multiset(Infos(m, ids)) + multiset{m[id]}
  {
    assert m[id] !in Infos(m, ids) by {
      forall x | x in ids ensures m[x] != m[id] { assert m[x].requestId == x; }
    }
    assert Infos(m, ids + {id}) == Infos(m, ids) + {m[id]};
  }

  lemma OneMoreReleased(list: seq<SessionInfo>, m: Sessions, ids: set<string>, id: string)
    requires Filed(m) && IsReleased(list, m, ids) && id in m && id !in ids
    ensures IsReleased(list + [m[id]], m, ids + {id})
  {
    hide Infos;
    OneMoreInfo(m, ids, id);
  }

  lemma WithoutOneMore(s: State, gone: set<string>, id: string)
    requires Filed(s.sessions) && gone <= s.sessions.Keys && id in s.sessions && id !in gone
    ensures var t, u := Without(s, gone), Without(s, gone + {id});
            && u == t.(sessions := t.sessions - {id}, signalled := t.signalled + multiset{s.sessions[id]})
            && TrimSpace(id) == id && id in t.sessions && t.sessions[id] == s.sessions[id] && u != t
  {
    hide TrimSpace; hide Infos;
    OneMoreInfo(s.sessions, gone, id);
    assert s.sessions - gone - {id} == s.sessions - (gone + {id});
    assert id in (s.sessions - gone) && id !in (s.sessions - (gone + {id}));
  }

  /** Cancelling one more of the collected sessions. */
  lemma CancelOne(s: State, gone: set<string>, released: seq<SessionInfo>, id: string, peer: string)
    requires Filed(s.sessions) && gone <= s.sessions.Keys && id in s.sessions && id !in gone
    requires IsReleased(released, s.sessions, gone)
    ensures AfterCancel(Without(s, gone), id, peer)
              == Without(s, if BelongsTo(s.sessions[id], peer) then gone + {id} else gone)
    ensures BelongsTo(s.sessions[id], peer) <==> OwnerNames(Without(s, gone), id, peer)
    ensures TrimSpace(id) == id && id in Without(s, gone).sessions && Without(s, gone).sessions[id] == s.sessions[id]
    ensures IsReleased(released + [s.sessions[id]], s.sessions, gone + {id})
  {
    hide TrimSpace; hide BelongsTo; hide SamePeer; hide Without; hide IsReleased;
    BelongsToIff(s.sessions[id], peer);
    OneMoreReleased(released, s.sessions, gone, id);
    WithoutOneMore(s, gone, id);
  }

  lemma NothingSelected(s: State, t: Target, peer: string)
    requires forall id, info :: !Selects(t, id, info)
    ensures AfterBulk(s, t, peer) == s && Released(s.sessions, t, peer) == {}
  {
    var ids := Released(s.sessions, t, peer);
    assert ids == {} && Infos(s.sessions, ids) == {};
    assert s.sessions - ids == s.sessions;
  }

  class SessionRegistry {
    var sessions: Sessions
    ghost var signalled: multiset<SessionInfo>
    var issued: nat
    const max: int

    ghost predicate Valid()
      reads this
    {
      Filed(sessions) && |sessions| <= max
    }

    ghost function View(): State
      reads this
    {
      State(sessions, signalled, issued)
    }

    constructor ()
      ensures Valid() && View() == State(map[], multiset{}, 0) && max == DEFAULT_MAX
    {
      sessions, signalled, issued, max := map[], multiset{}, 0, DEFAULT_MAX;
    }

    method Register(info: SessionInfo, now: int) returns (ok: bool)
      requires Valid()
      modifies this
      ensures Valid()
      ensures ok == Registers(old(View()), info, max)
      ensures View() == if ok then AfterRegister(old(View()), info, now) else old(View())
      ensures var id := TrimSpace(info.requestId);
              && ok == (id != "" && (id in old(sessions) || |old(sessions)| < max))
              && (ok ==> id in sessions && IsRegistered(sessions[id], info, now)
                         && sessions == old(sessions)[id := sessions[id]])
    {
      hide TrimSpace; hide Filed;
      RegisterKeepsFiled(View(), info, now);
      var id := TrimSpace(info.requestId);
      if id == "" { return false; }
      if id !in sessions && |sessions| >= max { return false; }
      sessions := sessions[id := Started(info, now, issued)];
      issued := issued + 1;
      return true;
    }

    /** The function Register returns: it removes whatever is filed under the request id. */
    method Unregister(id: string)
      requires Valid()
      modifies this
      ensures Valid() && View() == AfterUnregister(old(View()), id)
    {
      SubsetCardinality((sessions - {id}).Keys, sessions.Keys);
      sessions := sessions - {id};
    }

    method Cancel(requestId: string, peer: string) returns (r: Option<SessionInfo>)
      requires Valid()
      modifies this
      ensures Valid() && View() == AfterCancel(old(View()), requestId, peer)
      ensures r.Some? <==> OwnerNames(old(View()), requestId, peer)
      ensures CancelsNamed(old(View()), requestId, r, View())
    {
      var id := TrimSpace(requestId);
      if id !in sessions { return None; }
      BelongsToIff(sessions[id], peer);
      if !BelongsTo(sessions[id], peer) { return None; }
      r := Some(sessions[id]);
      SubsetCardinality((sessions - {id}).Keys, sessions.Keys);
      signalled := signalled + multiset{sessions[id]};
      sessions := sessions - {id};
    }

    /** Cancels the collected ids one by one and lists the sessions released. */
    method CancelEach(ids: set<string>, peer: string) returns (released: seq<SessionInfo>, ghost gone: set<string>)
      requires Valid() && ids <= sessions.Keys
      modifies this
      ensures Valid() && gone <= ids && View() == Without(old(View()), gone)
      ensures forall id | id in ids :: id in gone <==> BelongsTo(old(sessions)[id], peer)
      ensures IsReleased(released, old(sessions), gone)
    {
      hide Without; hide IsReleased; hide AfterCancel; hide BelongsTo; hide TrimSpace; hide Filed;
      hide OwnerNames; hide CancelsNamed;
      ghost var before := View();
      gone := {};
      released := [];
      var todo := ids;
      NoneGone(before);
      while todo != {}
        invariant Valid() && todo <= ids && gone <= ids - todo
        invariant forall id | id in ids - todo :: id in gone <==> BelongsTo(before.sessions[id], peer)
        invariant View() == Without(before, gone) && IsReleased(released, before.sessions, gone)
        decreases todo
      {
        var id :| id in todo;
        CancelOne(before, gone, released, id, peer);
        var r := Cancel(id, peer);
        if r.Some? {
          gone := gone + {id};
          released := released + [r.value];
        }
        todo := todo - {id};
      }
    }

    /** Collects the selected ids, then cancels them. */
    method CancelSelected(t: Target, peer: string) returns (released: seq<SessionInfo>)
      requires Valid()
      modifies this
      ensures Valid() && View() == AfterBulk(old(View()), t, peer)
      ensures IsReleased(released, old(sessions), Released(old(sessions), t, peer))
    {
      hide Without; hide IsReleased; hide BelongsTo; hide Filed; hide Selects;
      var ids := set id | id in sessions && Selects(t, id, sessions[id]);
      ghost var gone;
      released, gone := CancelEach(ids, peer);
      assert gone == Released(old(sessions), t, peer);
    }

    method CancelByFlow(flow: string, peer: string) returns (count: nat)
      requires Valid()
      modifies this
      ensures Valid() && View() == AfterBulk(old(View()), OnFlow(flow), peer)
      ensures count == |Released(old(sessions), OnFlow(flow), peer)|
    {
      if TrimSpace(flow) == "" {
        NothingSelected(View(), OnFlow(flow), peer);
        return 0;
      }
      var released := CancelSelected(OnFlow(flow), peer);
      count := |released|;
    }

    method CancelOnPort(port: int, peer: string, exclude: string) returns (released: seq<SessionInfo>)
      requires Valid()
      modifies this
      ensures Valid() && View() == AfterBulk(old(View()), OnPort(port, exclude), peer)
      ensures IsReleased(released, old(sessions), Released(old(sessions), OnPort(port, exclude), peer))
    {
      if port <= 0 {
        NothingSelected(View(), OnPort(port, exclude), peer);
        return [];
      }
      released := CancelSelected(OnPort(port, exclude), peer);
    }

    method CancelAll(peer: string) returns (released: seq<SessionInfo>)
      requires Valid()
      modifies this
      ensures Valid() && View() == AfterBulk(old(View()), Everything, peer)
      ensures IsReleased(released, old(sessions), Released(old(sessions), Everything, peer))
    {
      released := CancelSelected(Everything, peer);
    }
  }

  // ----- what cancellation can and cannot reach

  /** After CancelOnPort the excluded session is as it was, and no other session of that peer holds the port. */
  lemma PortIsFreed(s: State, port: int, peer: string, exclude: string, id: string)
    requires port > 0 && Filed(s.sessions)
    ensures var m := AfterBulk(s, OnPort(port, exclude), peer).sessions;
            && (id == TrimSpace(exclude) && id in s.sessions ==> id in m && m[id] == s.sessions[id])
            && (id in m && m[id].callbackPort == port && SamePeer(m[id].peer, peer) ==> id == TrimSpace(exclude))
            && (id in s.sessions && id !in m ==>
                 s.sessions[id].callbackPort == port && SamePeer(s.sessions[id].peer, peer) && id != TrimSpace(exclude))
  {
    hide BelongsTo; hide SamePeer; hide TrimSpace;
    if id in s.sessions { BelongsToIff(s.sessions[id], peer); }
  }

  datatype Op =
    | RegisterOp(info: SessionInfo, now: int)
    | UnregisterOp(id: string)
    | CancelOp(id: string, peer: string)
    | BulkOp(target: Target, peer: string)

  function Apply(s: State, op: Op): State {
    match op
    case RegisterOp(info, now) => if Registers(s, info, DEFAULT_MAX) then AfterRegister(s, info, now) else s
    case UnregisterOp(id) => AfterUnregister(s, id)
    case CancelOp(id, peer) => AfterCancel(s, id, peer)
    case BulkOp(t, peer) => AfterBulk(s, t, peer)
  }

  function Run(s: State, ops: seq<Op>): State {
    if ops == [] then s else Apply(Run(s, ops[..|ops| - 1]), ops[|ops| - 1])
  }

  /** The operation does not concern the session: another request id is registered or ended, or another peer cancels. */
  ghost predicate Foreign(op: Op, id: string, owner: SessionInfo) {
    match op
    case RegisterOp(info, _) => TrimSpace(info.requestId) != id
    case UnregisterOp(other) => other != id
    case CancelOp(_, peer) => !SamePeer(owner.peer, peer)
    case BulkOp(_, peer) => !SamePeer(owner.peer, peer)
  }

  lemma ApplyKeepsFiled(s: State, op: Op)
    requires Filed(s.sessions)
    ensures Filed(Apply(s, op).sessions)
  {
    if op.RegisterOp? { RegisterKeepsFiled(s, op.info, op.now); }
  }

  lemma ForeignLeavesSession(s: State, op: Op, id: string)
    requires Filed(s.sessions) && id in s.sessions && Foreign(op, id, s.sessions[id])
    ensures var t := Apply(s, op);
            && id in t.sessions && t.sessions[id] == s.sessions[id]
            && t.signalled[s.sessions[id]] == s.signalled[s.sessions[id]]
  {
    hide BelongsTo; hide SamePeer; hide TrimSpace;
    BelongsToIff(s.sessions[id], match op case CancelOp(_, peer) => peer case BulkOp(_, peer) => peer case _ => "");
    if op.BulkOp? {
      var ids := Released(s.sessions, op.target, op.peer);
      forall x | x in ids ensures s.sessions[x] != s.sessions[id] { assert s.sessions[x].requestId == x; }
      assert s.sessions[id] !in Infos(s.sessions, ids);
    }
    if op.CancelOp? && TrimSpace(op.id) in s.sessions {
      assert s.sessions[TrimSpace(op.id)].requestId == TrimSpace(op.id);
    }
  }

  /** No sequence of operations by others, whatever they cancel, touches or signals a peer's session. */
  lemma {:induction false} OthersCannotCancel(s: State, ops: seq<Op>, id: string)
    requires Filed(s.sessions) && id in s.sessions
    requires forall op | op in ops :: Foreign(op, id, s.sessions[id])
    ensures var t := Run(s, ops);
            && Filed(t.sessions)
            && id in t.sessions && t.sessions[id] == s.sessions[id]
            && t.signalled[s.sessions[id]] == s.signalled[s.sessions[id]]
  {
    hide Apply; hide Foreign; hide Filed;
    if ops == [] {
    } else {
      var n := |ops| - 1;
      OthersCannotCancel(s, ops[..n], id);
      var t := Run(s, ops[..n]);
      assert ops[n] in ops;
      ApplyKeepsFiled(t, ops[n]);
      ForeignLeavesSession(t, ops[n], id);
    }
  }

  /** The session is filed under its own request id. */
  ghost predicate Holds(s: State, info: SessionInfo) {
    info.requestId in s.sessions && s.sessions[info.requestId] == info
  }

  /** The session is gone and was signalled once more if `taken`; otherwise neither. */
  ghost predicate TakenIff(s: State, t: State, info: SessionInfo, taken: bool) {
    && (Holds(t, info) <==> Holds(s, info) && !taken)
    && t.signalled[info] == s.signalled[info] + if taken then 1 else 0
  }

  /** The operation asks for this session, in the name of its owner. */
  ghost predicate OwnerAsks(op: Op, info: SessionInfo) {
    match op
    case RegisterOp(_, _) => false
    case UnregisterOp(_) => false
    case CancelOp(id, peer) => TrimSpace(id) == info.requestId && SamePeer(info.peer, peer)
    case BulkOp(OnFlow(flow), peer) =>
      TrimSpace(flow) != "" && info.flowId == TrimSpace(flow) && SamePeer(info.peer, peer)
    case BulkOp(OnPort(port, exclude), peer) =>
      port > 0 && info.callbackPort == port && info.requestId != TrimSpace(exclude) && SamePeer(info.peer, peer)
    case BulkOp(Everything, peer) => SamePeer(info.peer, peer)
  }

  /** A named cancellation takes the session exactly if its owner asks for it, and no other. */
  lemma CancelTakesExactlyItsOwn(s: State, id: string, peer: string, info: SessionInfo)
    requires Filed(s.sessions)
    ensures TakenIff(s, AfterCancel(s, id, peer), info, Holds(s, info) && OwnerAsks(CancelOp(id, peer), info))
  {
    hide BelongsTo; hide SamePeer; hide TrimSpace;
    BelongsToIff(info, peer);
    if TrimSpace(id) in s.sessions { assert s.sessions[TrimSpace(id)].requestId == TrimSpace(id); }
  }

  /**
   * A bulk cancellation takes exactly the requester's sessions of the flow, on the
   * port, or all of them: each is gone and signalled once more, every other
   * session stays and is not signalled.
   */
  lemma BulkTakesExactlyItsOwn(s: State, t: Target, peer: string, info: SessionInfo)
    requires Filed(s.sessions)
    ensures TakenIff(s, AfterBulk(s, t, peer), info, Holds(s, info) && OwnerAsks(BulkOp(t, peer), info))
  {
    hide BelongsTo; hide SamePeer; hide TrimSpace;
    BelongsToIff(info, peer);
    var ids := Released(s.sessions, t, peer);
    assert info in Infos(s.sessions, ids) <==> Holds(s, info) && info.requestId in ids by {
      forall x | x in ids && s.sessions[x] == info ensures x == info.requestId { assert s.sessions[x].requestId == x; }
    }
  }

  lemma ApplyTakes(s: State, op: Op, info: SessionInfo)
    requires Filed(s.sessions)
    requires op.RegisterOp? ==> TrimSpace(op.info.requestId) != info.requestId
    requires op.UnregisterOp? ==> op.id != info.requestId
    ensures TakenIff(s, Apply(s, op), info, Holds(s, info) && OwnerAsks(op, info))
  {
    hide AfterCancel; hide AfterBulk; hide TrimSpace; hide SamePeer;
    match op
    case RegisterOp(_, _) =>
    case UnregisterOp(_) =>
    case CancelOp(id, peer) => CancelTakesExactlyItsOwn(s, id, peer, info);
    case BulkOp(t, peer) => BulkTakesExactlyItsOwn(s, t, peer, info);
  }

  /**
   * Over every run in which its id is not registered anew or ended: a live session
   * is gone, and its cancel function called, exactly if its owner asked for it at
   * some step, and the function is called once however often the owner asks.
   */
  lemma {:induction false} ReleasedIffOwnerAsked(s: State, ops: seq<Op>, info: SessionInfo)
    requires Filed(s.sessions) && Holds(s, info)
    requires forall op | op in ops && op.RegisterOp? :: TrimSpace(op.info.requestId) != info.requestId
    requires forall op | op in ops && op.UnregisterOp? :: op.id != info.requestId
    ensures Filed(Run(s, ops).sessions)
    ensures TakenIff(s, Run(s, ops), info, exists op | op in ops :: OwnerAsks(op, info))
  {
    hide Apply; hide OwnerAsks; hide Filed; hide Holds; hide TrimSpace;
    if ops == [] {
    } else {
      var n := |ops| - 1;
      var front, op := ops[..n], ops[n];
      assert ops == front + [op];
      ReleasedIffOwnerAsked(s, front, info);
      ApplyKeepsFiled(Run(s, front), op);
      ApplyTakes(Run(s, front), op, info);
    }
  }

  /** In every reachable state at most 128 sessions are open, each under its own trimmed id. */
  lemma {:induction false} RunsStayBounded(ops: seq<Op>)
    ensures var t := Run(State(map[], multiset{}, 0), ops); |t.sessions| <= 128 && Filed(t.sessions)
  {
    hide TrimSpace; hide Released; hide Started;
    if ops == [] {
    } else {
      var n := |ops| - 1;
      RunsStayBounded(ops[..n]);
      var s := Run(State(map[], multiset{}, 0), ops[..n]);
      var t := Apply(s, ops[n]);
      ApplyKeepsFiled(s, ops[n]);
      if ops[n].RegisterOp? {
        assert t.sessions.Keys <= s.sessions.Keys + {TrimSpace(ops[n].info.requestId)};
      } else {
        assert t.sessions.Keys <= s.sessions.Keys;
        SubsetCardinality(t.sessions.Keys, s.sessions.Keys);
      }
    }
  }

  /** The operation registers a session under `id`. */
  predicate RegistersId(s: State, op: Op, id: string) {
    op.RegisterOp? && TrimSpace(op.info.requestId) == id && Registers(s, op.info, DEFAULT_MAX)
  }

  /** What one operation does to the session under `id`. */
  lemma ApplyToSession(s: State, op: Op, id: string)
    ensures var t := Apply(s, op);
            && t.issued >= s.issued
            && (RegistersId(s, op, id) ==>
                  && id in t.sessions && t.sessions[id].serial == s.issued
                  && IsRegistered(t.sessions[id], op.info, op.now))
            && (!RegistersId(s, op, id) && id in t.sessions ==> id in s.sessions && t.sessions[id] == s.sessions[id])
  {
  }

  /** Whatever is open was admitted by one of the operations, with that one's data, and never taken away since. */
  lemma {:induction false} OpenSessionsWereRegistered(ops: seq<Op>, id: string) returns (i: nat)
    requires id in Run(State(map[], multiset{}, 0), ops).sessions
    ensures i < |ops| && ops[i].RegisterOp?
    ensures IsRegistered(Run(State(map[], multiset{}, 0), ops).sessions[id], ops[i].info, ops[i].now)
    ensures TrimSpace(ops[i].info.requestId) == id
    ensures forall j | i < j < |ops| ::
              var t := Run(State(map[], multiset{}, 0), ops[..j]);
              id in t.sessions && t.sessions[id] == Run(State(map[], multiset{}, 0), ops).sessions[id]
  {
    hide TrimSpace; hide Apply; hide IsRegistered;
    var s0 := State(map[], multiset{}, 0);
    if ops == [] {
    } else {
      var n := |ops| - 1;
      var front := ops[..n];
      var s, t := Run(s0, front), Run(s0, ops);
      ApplyToSession(s, ops[n], id);
      if RegistersId(s, ops[n], id) {
        i := n;
      } else {
        i := OpenSessionsWereRegistered(front, id);
        forall j | i < j < n ensures ops[..j] == front[..j] {}
      }
    }
  }

  // ----- the unregister function of one registration

  /** The operation takes the session under `id` away. */
  predicate TakesAway(s: State, op: Op, id: string) { id in s.sessions && id !in Apply(s, op).sessions }

  ghost predicate NewerAt(s: State, ops: seq<Op>, id: string, i: nat)
    requires i < |ops|
  {
    && RegistersId(Run(s, ops[..i]), ops[i], id)
    && forall j | i < j < |ops| :: !TakesAway(Run(s, ops[..j]), ops[j], id)
  }

  /** Some operation registered another session under `id`, and none has taken it away since. */
  ghost predicate NewerIsLive(s: State, ops: seq<Op>, id: string) {
    exists i | 0 <= i < |ops| :: NewerAt(s, ops, id, i)
  }

  lemma NewerAtStep(s: State, front: seq<Op>, op: Op, id: string, i: nat)
    requires i < |front|
    ensures NewerAt(s, front + [op], id, i) <==> NewerAt(s, front, id, i) && !TakesAway(Run(s, front), op, id)
  {
    hide Apply; hide RegistersId; hide TakesAway; hide Run;
    var ops, n := front + [op], |front|;
    assert ops[..i] == front[..i] && ops[..n] == front && ops[n] == op && ops[i] == front[i];
    forall j | i < j < n ensures TakesAway(Run(s, ops[..j]), ops[j], id)
        == TakesAway(Run(s, front[..j]), front[j], id) {
      assert ops[..j] == front[..j];
    }
  }

  lemma NewerIsLiveStep(s: State, front: seq<Op>, op: Op, id: string)
    ensures NewerIsLive(s, front + [op], id)
       <==> RegistersId(Run(s, front), op, id) || (NewerIsLive(s, front, id) && !TakesAway(Run(s, front), op, id))
  {
    hide Apply; hide RegistersId; hide TakesAway; hide Run;
    var ops, n := front + [op], |front|;
    assert forall i | 0 <= i <= n :: ops[..i] == front[..i];
    assert front[..n] == front;
    forall i | 0 <= i < n
      ensures NewerAt(s, ops, id, i) <==> NewerAt(s, front, id, i) && !TakesAway(Run(s, front), op, id)
    {
      NewerAtStep(s, front, op, id, i);
    }
    assert NewerAt(s, ops, id, n) <==> RegistersId(Run(s, front), op, id);
  }

  /** Over any run after a registration, what is filed under the id is newer exactly if a newer one is still live. */
  lemma {:induction false} FiledIsNewerIff(s: State, ops: seq<Op>, id: string, mine: nat)
    requires id in s.sessions && s.sessions[id].serial == mine < s.issued
    ensures var t := Run(s, ops);
            && t.issued > mine
            && (id in t.sessions && t.sessions[id].serial != mine <==> NewerIsLive(s, ops, id))
  {
    hide Apply; hide RegistersId;
    if ops == [] {
    } else {
      var n := |ops| - 1;
      var front, op := ops[..n], ops[n];
      FiledIsNewerIff(s, front, id, mine);
      ApplyToSession(Run(s, front), op, id);
      NewerIsLiveStep(s, front, op, id);
      assert ops == front + [op];
    }
  }

  /**
   * The unregister function of a registration removes its own session, or
   * nothing, if and only if no later session under the same request id is live:
   * registered in between and not taken away since.
   */
  lemma UnregisterTakesOwnIff(s: State, info: SessionInfo, now: int, ops: seq<Op>)
    requires Registers(s, info, DEFAULT_MAX)
    ensures var id := TrimSpace(info.requestId);
            var t := Run(AfterRegister(s, info, now), ops);
            (forall x | x in t.sessions && x !in AfterUnregister(t, id).sessions :: t.sessions[x].serial == s.issued)
              <==> !NewerIsLive(AfterRegister(s, info, now), ops, id)
  {
    hide Run; hide NewerIsLive;
    var id := TrimSpace(info.requestId);
    var t := Run(AfterRegister(s, info, now), ops);
    FiledIsNewerIff(AfterRegister(s, info, now), ops, id, s.issued);
    assert forall x | x in t.sessions && x !in AfterUnregister(t, id).sessions :: x == id;
    assert id in t.sessions ==> id !in AfterUnregister(t, id).sessions;
  }

  /** In particular it is safe as long as nobody registers the id again. */
  lemma UnregisterIsSafeWithoutReuse(s: State, info: SessionInfo, now: int, ops: seq<Op>)
    requires Registers(s, info, DEFAULT_MAX)
    requires forall op | op in ops && op.RegisterOp? :: TrimSpace(op.info.requestId) != TrimSpace(info.requestId)
    ensures var id := TrimSpace(info.requestId);
            var t := Run(AfterRegister(s, info, now), ops);
            forall x | x in t.sessions && x !in AfterUnregister(t, id).sessions :: t.sessions[x].serial == s.issued
  {
    hide Run;
    UnregisterTakesOwnIff(s, info, now, ops);
    assert forall i | 0 <= i < |ops| :: ops[i] in ops;
  }

  /** A second registration that was cancelled again leaves nothing for the first one's unregister to remove. */
  lemma CancelledReuseIsHarmless()
    ensures var info := SessionInfo("r", "", 0, "", "", 0, 0);
            var t := Run(AfterRegister(State(map[], multiset{}, 0), info, 1), [RegisterOp(info, 2), CancelOp("r", "")]);
            AfterUnregister(t, "r") == t
  {
    var info := SessionInfo("r", "", 0, "", "", 0, 0);
    var s := AfterRegister(State(map[], multiset{}, 0), info, 1);
    var ops := [RegisterOp(info, 2), CancelOp("r", "")];
    assert TrimSpace("r") == "r" && TrimSpace("") == "";
    assert ops[..1] == [RegisterOp(info, 2)] && [RegisterOp(info, 2)][..0] == [];
    var t := Run(s, [RegisterOp(info, 2)]);
    assert t == Apply(Run(s, []), RegisterOp(info, 2));
    assert Run(s, ops) == Apply(t, CancelOp("r", ""));
    assert "r" !in Run(s, ops).sessions;
    assert Run(s, ops).sessions - {"r"} == Run(s, ops).sessions;
  }

  /** Two registrations of one id: the first one's unregister removes the second, live session. */
  lemma LateUnregisterTakesNewer()
    ensures var info := SessionInfo("r", "", 0, "", "", 0, 0);
            var t := Run(AfterRegister(State(map[], multiset{}, 0), info, 1), [RegisterOp(info, 2)]);
            "r" in t.sessions && t.sessions["r"].serial == 1 && "r" !in AfterUnregister(t, "r").sessions
  {
    var info := SessionInfo("r", "", 0, "", "", 0, 0);
    var s := AfterRegister(State(map[], multiset{}, 0), info, 1);
    assert TrimSpace("r") == "r";
    assert [RegisterOp(info, 2)][..0] == [];
    assert Run(s, [RegisterOp(info, 2)]) == Apply(Run(s, []), RegisterOp(info, 2));
  }
}
