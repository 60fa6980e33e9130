/** The Hub's event log (internal/hub/logger.go): the ring buffer, the broadcaster and the logger that orders them. */
module EventLog {
  import opened Common

  const DEFAULT_RING_SIZE: int := 200
  const MAX_CLIENTS: int := 32
  const CHANNEL_CAPACITY: int := 64

  datatype LogEvent = LogEvent(id: nat, text: string)

  /** The last `n` elements, or all of them. */
  function LastN<T>(s: seq<T>, n: nat): seq<T> {
    if |s| <= n then s else s[|s| - n..]
  }

  lemma LastNWhole<T>(s: seq<T>, n: nat)
    requires |s| <= n
    ensures LastN(s, n) == s
  {
  }

  lemma NextSlot(i: nat, n: nat)
    requires i < n
    ensures (i + 1) % n == if i + 1 == n then 0 else i + 1
  {
  }

  /** Overwriting the oldest slot and moving the start on drops the oldest element and appends the new one. */
  lemma RotateSlots<T>(a: seq<T>, e: T, start: nat)
    requires start < |a|
    ensures var b := a[start := e];
            var s := if start + 1 == |a| then 0 else start + 1;
            b[s..] + b[..s] == (a[start..] + a[..start])[1..] + [e]
  {
  }

  lemma LastNFull<T>(s: seq<T>, e: T, n: nat)
    requires |s| == n > 0
    ensures LastN(s + [e], n) == s[1..] + [e]
  {
  }

  /** Keeping the last n of what was kept is keeping the last n of everything. */
  lemma LastNAppend<T>(s: seq<T>, e: T, n: nat)
    requires n > 0
    ensures LastN(LastN(s, n) + [e], n) == LastN(s + [e], n)
  {
    if |s| > n { assert (s[|s| - n..] + [e])[1..] == (s + [e])[|s| + 1 - n..]; }
  }

  class RingBuffer {
    const capacity: nat
    const events: array<LogEvent>
    var start: nat
    var count: nat
    /** Everything appended since the last Clear. */
    ghost var history: seq<LogEvent>

    ghost predicate Shape()
      reads this
    {
      && 0 < capacity == events.Length
      && count <= capacity && start < capacity
      && (count < capacity ==> start == 0)
    }

    /** The stored events, oldest first. */
    ghost function Contents(): seq<LogEvent>
      requires Shape()
      reads this, events
    {
      if count < capacity then events[..][..count] else events[..][start..] + events[..][..start]
    }

    /** The slots hold the last `capacity` events of the history, in order. */
    ghost predicate Valid()
      reads this, events
    {
      Shape() && Contents() == LastN(history, capacity)
    }

    constructor (requested: int)
      ensures Valid() && fresh(events) && history == []
      ensures capacity == if requested <= 0 then DEFAULT_RING_SIZE else requested
    {
      capacity := if requested <= 0 then DEFAULT_RING_SIZE else requested;
      events := new LogEvent[if requested <= 0 then DEFAULT_RING_SIZE else requested];
      start, count, history := 0, 0, [];
    }

    method Append(e: LogEvent)
      requires Valid()
      modifies this, events
      ensures Valid() && history == old(history) + [e]
    {
      ghost var before := Contents();
      if count < capacity {
        events[count] := e;
        count := count + 1;
        assert events[..count] == old(events[..count]) + [e];
        LastNWhole(before + [e], capacity);
      } else {
        events[start] := e;
        NextSlot(start, capacity);
        LastNFull(before, e, capacity);
        start := (start + 1) % capacity;
        RotateSlots(old(events[..]), e, old(start));
        assert events[..] == old(events[..])[old(start) := e];
      }
      assert Contents() == LastN(before + [e], capacity);
      LastNAppend(history, e, capacity);
      history := history + [e];
    }

    /** The last min(n, capacity) of the n events appended since the last Clear, across every wrap-around. */
    method GetRecent() returns (r: seq<LogEvent>)
      requires Valid()
      ensures r == LastN(history, capacity)
    {
      if count < capacity { return events[..count]; }
      return events[start..] + events[..start];
    }

    method Clear()
      requires Valid()
      modifies this
      ensures Valid() && history == []
    {
      start, count, history := 0, 0, [];
    }
  }

  // ----- the logger

  /** A non-blocking send to a subscriber channel: a full channel loses the event. */
  function Offer<T>(queue: seq<T>, e: T): seq<T> {
    if |queue| < CHANNEL_CAPACITY then queue + [e] else queue
  }

  /** The ids are consecutive and end at `last`. */
  ghost predicate ConsecutiveIds(es: seq<LogEvent>, last: nat) {
    |es| <= last && forall i | 0 <= i < |es| :: es[i].id == last - |es| + 1 + i
  }

  lemma NextIdIsConsecutive(es: seq<LogEvent>, e: LogEvent)
    requires e.id > 0 && ConsecutiveIds(es, e.id - 1)
    ensures ConsecutiveIds(es + [e], e.id)
  {
  }

  class EventLogger {
    const ring: RingBuffer
    var nextId: nat
    var clients: map<nat, seq<LogEvent>>

    /** The stored ids are consecutive and end at the last one issued. */
    ghost predicate Valid()
      reads this, ring, ring.events
    {
      && ring.Valid() && |clients| <= MAX_CLIENTS
      && ConsecutiveIds(ring.history, nextId)
    }

    constructor (capacity: int)
      ensures Valid() && ring.history == [] && clients == map[] && nextId == 0
      ensures fresh(ring) && fresh(ring.events)
    {
      ring := new RingBuffer(capacity);
      nextId, clients := 0, map[];
    }

    /** Registers a channel unless the client budget is used up. */
    method TrySubscribe(ch: nat) returns (ok: bool)
      requires Valid() && ch !in clients
      modifies this
      ensures Valid() && nextId == old(nextId)
      ensures ok == (|old(clients)| < MAX_CLIENTS)
      ensures clients == if ok then old(clients)[ch := []] else old(clients)
    {
      if |clients| >= MAX_CLIENTS { return false; }
      clients := clients[ch := []];
      return true;
    }

    method Unsubscribe(ch: nat)
      requires Valid()
      modifies this
      ensures Valid() && nextId == old(nextId)
      ensures clients == old(clients) - {ch}
    {
      if ch in clients { clients := clients - {ch}; }
    }

    /** Assigns the next id, stores the event and offers it to every client, as one ordered transaction. */
    method Log(text: string) returns (e: LogEvent)
      requires Valid()
      modifies this, ring, ring.events
      ensures Valid() && e == LogEvent(old(nextId) + 1, text) && nextId == e.id
      ensures ring.history == old(ring.history) + [e]
      ensures clients.Keys == old(clients.Keys)
      ensures forall ch | ch in clients :: clients[ch] == Offer(old(clients)[ch], e)
    {
      hide ConsecutiveIds; hide LastN;
      nextId := nextId + 1;
      e := LogEvent(nextId, text);
      NextIdIsConsecutive(ring.history, e);
      ring.Append(e);
      Broadcast(e);
    }

    /** A client's loop receives the next event from its channel. */
    method Receive(ch: nat) returns (e: LogEvent)
      requires Valid() && ch in clients && clients[ch] != []
      modifies this`clients
      ensures Valid() && clients == old(clients)[ch := old(clients)[ch][1..]] && e == old(clients)[ch][0]
    {
      e := clients[ch][0];
      clients := clients[ch := clients[ch][1..]];
    }

    method Broadcast(e: LogEvent)
      modifies this`clients
      ensures clients.Keys == old(clients.Keys)
      ensures forall ch | ch in clients :: clients[ch] == Offer(old(clients)[ch], e)
    {
      var todo := clients.Keys;
      while todo != {}
        invariant todo <= clients.Keys == old(clients.Keys)
        invariant forall ch | ch in clients ::
                    clients[ch] == if ch in todo then old(clients)[ch] else Offer(old(clients)[ch], e)
        decreases todo
      {
        var ch :| ch in todo;
        clients := clients[ch := Offer(clients[ch], e)];
        todo := todo - {ch};
      }
    }
  }
}

/**
 * One subscriber's stream under every interleaving with concurrent Log calls
 * (internal/hub/logger.go, HandleEvents), following the Last-Event-ID mechanism
 * in section 9.2 of the HTML Living Standard.
 */
module EventReplay {
  import opened Common
  import opened EventLog

  /** Before the snapshot, writing the snapshot, or draining the channel. */
  datatype Phase = Subscribed | Replaying | Live

  /**
   * A subscriber. `lastId` is the presented Last-Event-ID (0 when absent), `last`
   * the highest id sent. The remaining fields only describe what happened:
   * `since` is the last id broadcast before subscribing, the snapshot held the
   * ids above `low` up to `top`, and `dropped` are the ids a full channel lost.
   */
  datatype Sub = Sub(phase: Phase, queue: seq<nat>, replay: seq<nat>, last: nat, delivered: seq<nat>,
                     lastId: nat, since: nat, low: nat, top: nat, consumed: nat, dropped: set<nat>)

  /** `pending` is an id already in the ring but not yet broadcast: Log holds its ordering lock across both. */
  datatype State = State(capacity: nat, nextId: nat, ring: seq<nat>, pending: bool, sub: Option<Sub>)

  datatype Step = LogAppend | LogBroadcast | Subscribe(lastId: nat) | Snapshot | ReplayOne | DrainOne

  function Init(capacity: nat): State { State(capacity, 0, [], false, None) }

  function LastBroadcast(s: State): int { if s.pending then s.nextId - 1 else s.nextId }

  /** Sending skips ids at or below the last one sent. */
  function Sent(u: Sub, id: nat): Sub {
    if id <= u.last then u else u.(last := id, delivered := u.delivered + [id])
  }

  /** A full channel loses the id. */
  function Offered(u: Sub, id: nat): Sub {
    u.(queue := Offer(u.queue, id), dropped := if |u.queue| < CHANNEL_CAPACITY then u.dropped else u.dropped + {id})
  }

  /** Taking the next id from the channel. */
  function Drained(u: Sub): Sub
    requires u.queue != []
  {
    Sent(u, u.queue[0]).(queue := u.queue[1..], consumed := u.queue[0])
  }

  /** One atomic step; a step that is not enabled changes nothing. */
  function Next(s: State, t: Step): State {
    match t
    case LogAppend =>
      if s.pending then s
      else s.(nextId := s.nextId + 1, ring := LastN<nat>(s.ring + [s.nextId + 1], s.capacity), pending := true)
    case LogBroadcast =>
      if !s.pending then s
      else if s.sub.None? then s.(pending := false)
      else
        s.(pending := false, sub := Some(Offered(s.sub.value, s.nextId)))
    case Subscribe(lastId) =>
      if s.sub.Some? then s
      else
        var b := if s.pending && s.nextId > 0 then s.nextId - 1 else s.nextId;
        s.(sub := Some(Sub(Subscribed, [], [], lastId, [], lastId, b, 0, 0, b, {})))
    case Snapshot =>
      if s.sub.None? || !s.sub.value.phase.Subscribed? then s
      else
        var u := s.sub.value;
        if u.lastId > 0
        then s.(sub := Some(u.(phase := Replaying, replay := s.ring, top := s.nextId,
                               low := if |s.ring| <= s.nextId then s.nextId - |s.ring| else 0)))
        else s.(sub := Some(u.(phase := Live, top := u.since, low := u.since)))
    case ReplayOne =>
      if s.sub.None? || !s.sub.value.phase.Replaying? then s
      else
        var u := s.sub.value;
        if u.replay == [] then s.(sub := Some(u.(phase := Live)))
        else s.(sub := Some(Sent(u, u.replay[0]).(replay := u.replay[1..])))
    case DrainOne =>
      if s.sub.None? || !s.sub.value.phase.Live? || s.sub.value.queue == [] then s
      else
        s.(sub := Some(Drained(s.sub.value)))
  }

  function Run(s: State, ts: seq<Step>): State {
    if ts == [] then s else Next(Run(s, ts[..|ts| - 1]), ts[|ts| - 1])
  }

  // ----- the machine and the logger

  function Ids(es: seq<LogEvent>): seq<nat> { seq(|es|, i requires 0 <= i < |es| => es[i].id) }

  /** The state of the machine that a logger and one of its clients are in, between two calls of Log. */
  ghost function Seen(l: EventLogger, ch: nat, u: Sub): State
    requires ch in l.clients
    reads l, l.ring, l.ring.events
  {
    State(l.ring.capacity, l.nextId, Ids(LastN(l.ring.history, l.ring.capacity)), false,
          Some(u.(queue := Ids(l.clients[ch]))))
  }

  lemma IdsAppend(es: seq<LogEvent>, e: LogEvent)
    ensures Ids(es + [e]) == Ids(es) + [e.id] && |Ids(es)| == |es|
  {
  }

  lemma IdsOfLast(es: seq<LogEvent>, n: nat)
    ensures Ids(LastN(es, n)) == LastN(Ids(es), n)
  {
  }

  lemma RingIdsAppend(es: seq<LogEvent>, e: LogEvent, n: nat)
    requires n > 0
    ensures Ids(LastN(es + [e], n)) == LastN(Ids(LastN(es, n)) + [e.id], n)
  {
    hide Ids; hide LastN;
    IdsAppend(es, e);
    IdsOfLast(es, n);
    IdsOfLast(es + [e], n);
    LastNAppend(Ids(es), e.id, n);
  }

  /** Logging is the machine's two steps: append to the ring, then offer to the client's channel. */
  method LogInSteps(l: EventLogger, ch: nat, text: string, ghost u: Sub) returns (e: LogEvent, ghost v: Sub)
    requires l.Valid() && ch in l.clients
    modifies l, l.ring, l.ring.events
    ensures l.Valid() && ch in l.clients
    ensures Seen(l, ch, v) == Next(Next(old(Seen(l, ch, u)), LogAppend), LogBroadcast)
  {
    hide Ids; hide ConsecutiveIds; hide LastN;
    v := Next(Next(Seen(l, ch, u), LogAppend), LogBroadcast).sub.value;
    ghost var before, queue := l.ring.history, l.clients[ch];
    e := l.Log(text);
    IdsAppend(queue, e);
    RingIdsAppend(before, e, l.ring.capacity);
  }

  /** The state before the client subscribes. */
  ghost function SeenAlone(l: EventLogger): State
    reads l, l.ring, l.ring.events
  {
    State(l.ring.capacity, l.nextId, Ids(LastN(l.ring.history, l.ring.capacity)), false, None)
  }

  /** The same two steps while the client has not subscribed yet. */
  method LogAloneInSteps(l: EventLogger, text: string) returns (e: LogEvent)
    requires l.Valid()
    modifies l, l.ring, l.ring.events
    ensures l.Valid() && SeenAlone(l) == Next(Next(old(SeenAlone(l)), LogAppend), LogBroadcast)
  {
    hide Ids; hide ConsecutiveIds; hide LastN;
    ghost var before := l.ring.history;
    e := l.Log(text);
    RingIdsAppend(before, e, l.ring.capacity);
  }

  /** Subscribing is the machine's step of that name, with an empty channel. */
  method SubscribeInStep(l: EventLogger, ch: nat, lastId: nat) returns (ok: bool, ghost u: Sub)
    requires l.Valid() && ch !in l.clients
    modifies l
    ensures l.Valid() && (ok <==> ch in l.clients)
    ensures ok ==> Seen(l, ch, u) == Next(old(SeenAlone(l)), Subscribe(lastId))
  {
    ok := l.TrySubscribe(ch);
    u := Sub(Subscribed, [], [], lastId, [], lastId, l.nextId, 0, 0, l.nextId, {});
    assert Ids([]) == [];
  }

  /** What the handler has written to its client, and the highest id among it and the presented one. */
  class EventStream {
    var lastSent: nat
    var sent: seq<LogEvent>

    ghost predicate Shows(u: Sub)
      reads this
    {
      u.last == lastSent && u.delivered == Ids(sent)
    }

    constructor (lastEventId: nat)
      ensures lastSent == lastEventId && sent == []
    {
      lastSent, sent := lastEventId, [];
    }

    /** Writes the event unless it, or a later one, was written before. */
    method Write(e: LogEvent)
      modifies this
      ensures e.id <= old(lastSent) ==> lastSent == old(lastSent) && sent == old(sent)
      ensures e.id > old(lastSent) ==> lastSent == e.id && sent == old(sent) + [e]
    {
      if e.id <= lastSent { return; }
      sent := sent + [e];
      lastSent := e.id;
    }
  }

  /** Taking the snapshot is the machine's step of that name: what is replayed is what the ring returns. */
  method SnapshotInStep(l: EventLogger, ch: nat, out: EventStream, ghost u: Sub)
    returns (missed: seq<LogEvent>, ghost v: Sub)
    requires l.Valid() && ch in l.clients
    requires u.phase.Subscribed? && u.last == u.lastId && out.Shows(u)
    ensures Seen(l, ch, v) == Next(Seen(l, ch, u), Snapshot) && out.Shows(v)
    ensures missed == if out.lastSent > 0 then LastN(l.ring.history, l.ring.capacity) else []
    ensures v.phase.Replaying? <==> out.lastSent > 0
    ensures v.phase.Replaying? ==> v.replay == Ids(missed)
  {
    missed := [];
    v := Next(Seen(l, ch, u), Snapshot).sub.value;
    if out.lastSent > 0 { missed := l.ring.GetRecent(); }
  }

  /** Writing one replayed event, or going on to the channel after the last. */
  method ReplayInStep(l: EventLogger, ch: nat, out: EventStream, missed: seq<LogEvent>, ghost u: Sub)
    returns (rest: seq<LogEvent>, ghost v: Sub)
    requires l.Valid() && ch in l.clients
    requires u.phase.Replaying? && u.replay == Ids(missed) && out.Shows(u)
    modifies out
    ensures Seen(l, ch, v) == Next(Seen(l, ch, u), ReplayOne) && out.Shows(v) && v.replay == Ids(rest)
  {
    rest := missed;
    v := Next(Seen(l, ch, u), ReplayOne).sub.value;
    if missed != [] {
      IdsAppend(out.sent, missed[0]);
      out.Write(missed[0]);
      rest := missed[1..];
      assert Ids(rest) == Ids(missed)[1..];
    }
  }

  /** Writing one event from the channel. */
  method DrainInStep(l: EventLogger, ch: nat, out: EventStream, ghost u: Sub) returns (ghost v: Sub)
    requires l.Valid() && ch in l.clients && l.clients[ch] != []
    requires u.phase.Live? && out.Shows(u)
    modifies l, out
    ensures l.Valid() && ch in l.clients
    ensures Seen(l, ch, v) == Next(old(Seen(l, ch, u)), DrainOne) && out.Shows(v)
  {
    ghost var queue := l.clients[ch];
    v := Next(Seen(l, ch, u), DrainOne).sub.value;
    IdsAppend(out.sent, queue[0]);
    assert Ids(queue)[1..] == Ids(queue[1..]);
    var e := l.Receive(ch);
    out.Write(e);
  }

  // ----- the invariant

  ghost predicate Increasing(s: seq<nat>) {
    forall i, j | 0 <= i < j < |s| :: s[i] < s[j]
  }

  /** `s` is the run of consecutive ids that ends at `end`. */
  ghost predicate EndsAt(s: seq<nat>, end: nat) {
    |s| <= end && forall i | 0 <= i < |s| :: s[i] == end - |s| + 1 + i
  }

  /** An id the subscriber is due: in the snapshot up to its top, later ones unless the channel lost them. */
  ghost predicate Due(u: Sub, x: nat) {
    if x <= u.top then x > u.low else x !in u.dropped
  }

  ghost predicate NoneDue(u: Sub, low: int, high: int) { forall x: nat | low < x <= high :: !Due(u, x) }

  ghost predicate DeliveredExactly(u: Sub) {
    && Increasing(u.delivered)
    && (forall x :: x in u.delivered <==> u.lastId < x <= u.last && Due(u, x))
    && u.last >= u.lastId
  }

  ghost predicate QueueInv(u: Sub, b: nat) {
    && Increasing(u.queue)
    && u.since <= u.consumed <= b
    && (forall x :: x in u.queue <==> u.consumed < x <= b && x !in u.dropped)
    && (forall x | x in u.dropped :: u.since < x <= b)
  }

  ghost predicate PhaseInv(s: State, u: Sub) {
    match u.phase
    case Subscribed => u.delivered == [] && u.last == u.lastId && u.consumed == u.since
    case Replaying =>
      && u.lastId > 0 && u.consumed == u.since && u.low == Max(0, u.top - s.capacity)
      && u.since <= u.top <= s.nextId && EndsAt(u.replay, u.top) && u.low <= u.top - |u.replay|
      && u.last <= Max(u.lastId, u.top - |u.replay|)
      && NoneDue(u, u.last, u.top - |u.replay|)
      && (u.replay == [] ==> u.last >= u.top)
      && DeliveredExactly(u)
    case Live =>
      && u.since <= u.top <= s.nextId && u.low <= u.top <= Max(u.last, u.consumed)
      && (if u.lastId > 0 then u.low == Max(0, u.top - s.capacity) else u.low == u.top == u.since)
      && u.last <= Max(u.lastId, Max(u.top, LastBroadcast(s)))
      && NoneDue(u, u.last, u.consumed)
      && DeliveredExactly(u)
  }

  ghost predicate Inv(s: State) {
    && s.capacity > 0
    && (s.pending ==> s.nextId > 0)
    && EndsAt(s.ring, s.nextId) && |s.ring| == Min(s.nextId, s.capacity)
    && (s.sub.Some? ==> QueueInv(s.sub.value, LastBroadcast(s)) && PhaseInv(s, s.sub.value))
  }

  lemma RingEndsAt(ring: seq<nat>, n: nat, capacity: nat)
    requires EndsAt(ring, n) && |ring| == Min(n, capacity) && capacity > 0
    ensures EndsAt(LastN<nat>(ring + [n + 1], capacity), n + 1)
    ensures |LastN<nat>(ring + [n + 1], capacity)| == Min(n + 1, capacity)
  {
  }

  lemma AppendKeepsIncreasing(d: seq<nat>, id: nat)
    requires Increasing(d) && forall x | x in d :: x < id
    ensures Increasing(d + [id])
  {
    forall i | 0 <= i < |d| ensures d[i] < id { assert d[i] in d; }
  }

  /** Sending the next due id keeps the deliveries exact. */
  lemma SentKeepsDelivered(u: Sub, id: nat)
    requires DeliveredExactly(u)
    requires id > u.last ==> Due(u, id) && NoneDue(u, u.last, id - 1)
    ensures DeliveredExactly(Sent(u, id))
  {
    var v := Sent(u, id);
    if id > u.last {
      AppendKeepsIncreasing(u.delivered, id);
      forall x: nat ensures x in v.delivered <==> u.lastId < x <= id && Due(v, x) {
        assert Due(v, x) == Due(u, x);
        if u.last < x < id { assert !Due(u, x); }
      }
    }
  }

  /** Deliveries do not depend on the parts of the subscriber that other steps change. */
  lemma DeliveredFrame(u: Sub, v: Sub)
    requires DeliveredExactly(u)
    requires v.delivered == u.delivered && v.lastId == u.lastId && v.last == u.last && v.top == u.top && v.low == u.low
    requires forall x: nat | u.lastId < x <= u.last && x > u.top :: x in v.dropped <==> x in u.dropped
    ensures DeliveredExactly(v)
  {
    forall x: nat ensures x in v.delivered <==> v.lastId < x <= v.last && Due(v, x) {
      if u.lastId < x <= u.last { assert Due(u, x) == Due(v, x); }
    }
  }

  /** Offering an id keeps what is queued and what is lost apart. */
  lemma OfferKeepsQueue(u: Sub, id: nat)
    requires id > 0 && QueueInv(u, id - 1)
    ensures QueueInv(Offered(u, id), id)
  {
    var v := Offered(u, id);
    if |u.queue| < CHANNEL_CAPACITY { AppendKeepsIncreasing(u.queue, id); }
    forall x: nat ensures x in v.queue <==> v.consumed < x <= id && x !in v.dropped {
      if x == id { assert x !in u.queue && x !in u.dropped; }
    }
  }

  lemma OfferKeepsNoneDue(u: Sub, id: nat, low: int, high: int)
    requires NoneDue(u, low, high) && (high < id || high <= u.top)
    ensures NoneDue(Offered(u, id), low, high)
  {
    forall x: nat | low < x <= high ensures !Due(Offered(u, id), x) { assert !Due(u, x); }
  }

  lemma OfferKeepsDelivered(u: Sub, id: nat)
    requires id > 0 && DeliveredExactly(u) && u.last <= Max(u.lastId, Max(u.top, id - 1))
    ensures DeliveredExactly(Offered(u, id))
  {
    DeliveredFrame(u, Offered(u, id));
  }

  lemma QueueBounds(u: Sub, b: nat)
    requires QueueInv(u, b)
    ensures u.since <= u.consumed <= b
  {
  }

  lemma BroadcastKeepsInv(s: State)
    requires Inv(s)
    ensures Inv(Next(s, LogBroadcast))
  {
    if s.pending && s.sub.Some? {
      hide QueueInv; hide DeliveredExactly; hide NoneDue; hide EndsAt;
      var u, id := s.sub.value, s.nextId;
      QueueBounds(u, id - 1);
      OfferKeepsQueue(u, id);
      if u.phase.Replaying? {
        OfferKeepsDelivered(u, id);
        OfferKeepsNoneDue(u, id, u.last, u.top - |u.replay|);
      } else if u.phase.Live? {
        OfferKeepsDelivered(u, id);
        OfferKeepsNoneDue(u, id, u.last, u.consumed);
      }
    }
  }

  /** The queue invariant depends on these fields only. */
  lemma QueueFrame(u: Sub, v: Sub, b: nat)
    requires QueueInv(u, b)
    requires v.queue == u.queue && v.dropped == u.dropped && v.consumed == u.consumed && v.since == u.since
    ensures QueueInv(v, b)
  {
  }

  /** When the snapshot is written, everything due up to its top is delivered. */
  lemma LivesOn(u: Sub)
    requires DeliveredExactly(u) && NoneDue(u, u.last, u.top) && u.last >= u.top
    ensures var v := u.(phase := Live); DeliveredExactly(v) && (u.consumed <= u.last ==> NoneDue(v, v.last, v.consumed))
  {
    DeliveredFrame(u, u.(phase := Live));
  }

  /** Sending an id before which nothing is due any more: afterwards nothing up to it is. */
  lemma SendNext(u: Sub, id: nat, high: int)
    requires DeliveredExactly(u) && NoneDue(u, u.last, high) && (id > u.last ==> Due(u, id))
             && id - 1 <= Max(high, u.last)
    ensures DeliveredExactly(Sent(u, id)) && NoneDue(Sent(u, id), Sent(u, id).last, id)
  {
    SentKeepsDelivered(u, id);
  }

  lemma SentFrame(u: Sub, v: Sub, id: nat)
    requires DeliveredExactly(u) && NoneDue(u, u.last, id)
    requires v.delivered == u.delivered && v.lastId == u.lastId && v.last == u.last
    requires v.top == u.top && v.low == u.low && v.dropped == u.dropped
    ensures DeliveredExactly(v) && NoneDue(v, v.last, id)
  {
    DeliveredFrame(u, v);
    forall x: nat | v.last < x <= id ensures !Due(v, x) { assert !Due(u, x); }
  }

  /** Writing the next stored id. */
  lemma ReplayKeepsInv(s: State)
    requires Inv(s)
    ensures Inv(Next(s, ReplayOne))
  {
    if s.sub.Some? && s.sub.value.phase.Replaying? {
      hide QueueInv; hide DeliveredExactly; hide NoneDue;
      var u, b := s.sub.value, LastBroadcast(s);
      QueueBounds(u, b);
      if u.replay == [] {
        QueueFrame(u, u.(phase := Live), b);
        LivesOn(u);
      } else {
        var id := u.replay[0];
        var v := Sent(u, id).(replay := u.replay[1..]);
        assert id == u.top - |u.replay| + 1 && u.top - |v.replay| == id;
        QueueFrame(u, v, b);
        SendNext(u, id, u.top - |u.replay|);
        SentFrame(Sent(u, id), v, id);
      }
    }
  }

  /** Taking an id from the channel: the ids skipped since the last one were lost. */
  lemma DrainKeepsQueue(u: Sub, b: nat)
    requires QueueInv(u, b) && u.queue != []
    ensures QueueInv(Drained(u), b)
    ensures u.consumed < u.queue[0] <= b && u.queue[0] !in u.dropped
    ensures forall x: nat | u.consumed < x < u.queue[0] :: x in u.dropped
  {
    var v, id := Drained(u), u.queue[0];
    assert id in u.queue;
    forall x: nat ensures x in v.queue <==> id < x <= b && x !in u.dropped {
      if x in u.queue { assert x == id || x in v.queue; }
      if x in v.queue { assert x in u.queue; }
    }
    forall x: nat | u.consumed < x < id ensures x in u.dropped { assert x !in u.queue; }
  }

  lemma DrainKeepsInv(s: State)
    requires Inv(s)
    ensures Inv(Next(s, DrainOne))
  {
    if s.sub.Some? && s.sub.value.phase.Live? && s.sub.value.queue != [] {
      hide QueueInv; hide DeliveredExactly;
      var u, b := s.sub.value, LastBroadcast(s);
      var id := u.queue[0];
      QueueBounds(u, b);
      DrainKeepsQueue(u, b);
      forall x: nat | u.last < x <= id - 1 ensures !Due(u, x) {
        if x > u.consumed && x > u.top { assert x in u.dropped; }
      }
      hide NoneDue;
      SendNext(u, id, id - 1);
      SentFrame(Sent(u, id), Drained(u), id);
    }
  }

  lemma AppendKeepsInv(s: State)
    requires Inv(s)
    ensures Inv(Next(s, LogAppend))
  {
    hide LastN; hide DeliveredExactly; hide Due;
    RingEndsAt(s.ring, s.nextId, s.capacity);
  }

  lemma SubscribeKeepsInv(s: State, lastId: nat)
    requires Inv(s)
    ensures Inv(Next(s, Subscribe(lastId)))
  {
    hide EndsAt;
  }

  /** What the snapshot leaves to write is due, and nothing has been written yet. */
  lemma SnapshotKeepsPhase(s: State, u: Sub, v: Sub)
    requires Inv(s) && s.sub == Some(u) && u.phase.Subscribed? && u.lastId > 0
    requires v == u.(phase := Replaying, replay := s.ring, top := s.nextId, low := s.nextId - |s.ring|)
    ensures PhaseInv(s, v)
  {
    hide QueueInv;
    QueueBounds(u, LastBroadcast(s));
  }

  lemma SnapshotOfNothing(s: State, u: Sub, v: Sub)
    requires Inv(s) && s.sub == Some(u) && u.phase.Subscribed? && u.lastId == 0
    requires v == u.(phase := Live, top := u.since, low := u.since)
    ensures PhaseInv(s, v)
  {
    hide QueueInv;
    QueueBounds(u, LastBroadcast(s));
  }

  lemma PhaseFrame(s: State, t: State, u: Sub)
    requires PhaseInv(s, u) && t.nextId == s.nextId && t.capacity == s.capacity && t.pending == s.pending
    ensures PhaseInv(t, u)
  {
  }

  lemma SnapshotKeepsInv(s: State)
    requires Inv(s)
    ensures Inv(Next(s, Snapshot))
  {
    if s.sub.Some? && s.sub.value.phase.Subscribed? {
      var u, v := s.sub.value, Next(s, Snapshot).sub.value;
      assert |s.ring| <= s.nextId;
      hide PhaseInv; hide EndsAt; hide QueueInv;
      if u.lastId > 0 { SnapshotKeepsPhase(s, u, v); } else { SnapshotOfNothing(s, u, v); }
      QueueFrame(u, v, LastBroadcast(s));
      PhaseFrame(s, Next(s, Snapshot), v);
    }
  }

  lemma StepKeepsInv(s: State, t: Step)
    requires Inv(s)
    ensures Inv(Next(s, t))
  {
    hide Inv; hide Next;
    match t
    case LogAppend => AppendKeepsInv(s);
    case LogBroadcast => BroadcastKeepsInv(s);
    case Subscribe(lastId) => SubscribeKeepsInv(s, lastId);
    case Snapshot => SnapshotKeepsInv(s);
    case ReplayOne => ReplayKeepsInv(s);
    case DrainOne => DrainKeepsInv(s);
  }

  lemma {:induction false} RunKeepsInv(s: State, ts: seq<Step>)
    requires Inv(s)
    ensures Inv(Run(s, ts))
  {
    hide Inv; hide Next;
    if ts == [] {
    } else {
      RunKeepsInv(s, ts[..|ts| - 1]);
      StepKeepsInv(Run(s, ts[..|ts| - 1]), ts[|ts| - 1]);
    }
  }

  // ----- the results

  /** No event in flight, nothing left to write. */
  ghost predicate Quiescent(s: State) {
    !s.pending && s.sub.Some? && s.sub.value.phase.Live? && s.sub.value.queue == []
  }

  /**
   * In every reachable state the ids delivered so far climb strictly above the
   * presented one: no repeat, no reordering.
   */
  lemma NeverRepeats(capacity: nat, ts: seq<Step>)
    requires capacity > 0
    ensures var s := Run(Init(capacity), ts);
            s.sub.Some? ==>
              && Increasing(s.sub.value.delivered)
              && forall x | x in s.sub.value.delivered :: s.sub.value.lastId < x <= s.nextId
  {
    RunKeepsInv(Init(capacity), ts);
  }

  /** Once everything is drained, exactly the due ids above the presented one have been delivered. */
  lemma DeliveryIsExact(capacity: nat, ts: seq<Step>, x: nat)
    requires capacity > 0
    requires Quiescent(Run(Init(capacity), ts))
    ensures var s := Run(Init(capacity), ts);
            var u := s.sub.value;
            x in u.delivered <==> u.lastId < x <= s.nextId && Due(u, x)
  {
    RunKeepsInv(Init(capacity), ts);
    var s := Run(Init(capacity), ts);
    var u := s.sub.value;
    if u.lastId < x <= s.nextId && x > u.last && x > u.top && x > u.consumed { assert x !in u.queue; }
  }

  // ----- what a run loses

  /** The state in which step n of a run finds the machine. */
  function At(capacity: nat, ts: seq<Step>, n: int): State
    requires 0 <= n <= |ts|
  {
    Run(Init(capacity), ts[..n])
  }

  /** Step n broadcasts id x while 64 events wait in the subscriber's channel. */
  ghost predicate Overflows(capacity: nat, ts: seq<Step>, n: int, x: nat) {
    && 0 <= n < |ts| && ts[n].LogBroadcast?
    && var s := At(capacity, ts, n);
       s.pending && s.nextId == x && s.sub.Some? && |s.sub.value.queue| >= 64
  }

  /** Step n is the subscriber's snapshot of the ring. */
  ghost predicate TakesSnapshot(capacity: nat, ts: seq<Step>, n: int) {
    && 0 <= n < |ts| && ts[n].Snapshot?
    && var s := At(capacity, ts, n); s.sub.Some? && s.sub.value.phase.Subscribed?
  }

  /** Step n is the subscription. */
  ghost predicate Subscribes(capacity: nat, ts: seq<Step>, n: int) {
    0 <= n < |ts| && ts[n].Subscribe? && At(capacity, ts, n).sub.None?
  }

  lemma AtFront(capacity: nat, ts: seq<Step>, n: nat)
    requires ts != [] && n < |ts|
    ensures At(capacity, ts, n) == At(capacity, ts[..|ts| - 1], n)
  {
    assert ts[..|ts| - 1][..n] == ts[..n];
  }

  lemma RunStep(capacity: nat, ts: seq<Step>)
    requires ts != []
    ensures Run(Init(capacity), ts) == Next(At(capacity, ts, |ts| - 1), ts[|ts| - 1])
  {
  }

  /** What one step does to the facts a subscriber keeps about its past. */
  lemma StepKeepsPast(s: State, t: Step)
    requires s.sub.Some?
    ensures var s' := Next(s, t);
            && s'.sub.Some? && s'.sub.value.lastId == s.sub.value.lastId && s'.sub.value.since == s.sub.value.since
            && (t.Snapshot? && s.sub.value.phase.Subscribed? && s.sub.value.lastId > 0 ==>
                  s'.sub.value.top == s.nextId)
            && (!s.sub.value.phase.Subscribed? ==>
                  !s'.sub.value.phase.Subscribed? && s'.sub.value.top == s.sub.value.top)
            && (s.sub.value.phase.Subscribed? && !s'.sub.value.phase.Subscribed? ==> t.Snapshot?)
            && (forall x :: x in s'.sub.value.dropped <==>
                  || x in s.sub.value.dropped
                  || (t.LogBroadcast? && s.pending && s.nextId == x && |s.sub.value.queue| >= 64))
  {
  }

  lemma StepSubscribes(s: State, t: Step)
    requires s.sub.None?
    ensures var s' := Next(s, t);
            s'.sub.Some? ==>
              && t.Subscribe? && s'.sub.value.phase.Subscribed? && s'.sub.value.dropped == {}
              && s'.sub.value.lastId == t.lastId
              && s'.sub.value.since == (if s.pending && s.nextId > 0 then s.nextId - 1 else s.nextId)
  {
  }

  lemma OverflowsFront(capacity: nat, ts: seq<Step>, front: seq<Step>, x: nat)
    requires ts != [] && front == ts[..|ts| - 1]
    ensures (exists n :: Overflows(capacity, ts, n, x)) <==>
              Overflows(capacity, ts, |ts| - 1, x) || exists n :: Overflows(capacity, front, n, x)
  {
    hide Run;
    forall n: nat | n < |front| ensures Overflows(capacity, ts, n, x) <==> Overflows(capacity, front, n, x) {
      AtFront(capacity, ts, n);
    }
  }

  lemma NothingOverflows(capacity: nat, x: nat)
    ensures forall n :: !Overflows(capacity, [], n, x)
  {
  }

  lemma OverflowsNow(capacity: nat, ts: seq<Step>, x: nat)
    requires ts != []
    ensures var s := Run(Init(capacity), ts[..|ts| - 1]);
            Overflows(capacity, ts, |ts| - 1, x) <==>
              ts[|ts| - 1].LogBroadcast? && s.pending && s.nextId == x && s.sub.Some? && |s.sub.value.queue| >= 64
  {
  }

  /** A channel has lost exactly the ids broadcast while it was full. */
  lemma {:induction false} DroppedIff(capacity: nat, ts: seq<Step>, x: nat)
    ensures var s := Run(Init(capacity), ts);
            if s.sub.Some? then x in s.sub.value.dropped <==> exists n :: Overflows(capacity, ts, n, x)
            else !exists n :: Overflows(capacity, ts, n, x)
  {
    hide Next; hide Overflows;
    if ts == [] {
      NothingOverflows(capacity, x);
    } else {
      var front := ts[..|ts| - 1];
      var s, t := Run(Init(capacity), front), ts[|ts| - 1];
      DroppedIff(capacity, front, x);
      OverflowsFront(capacity, ts, front, x);
      OverflowsNow(capacity, ts, x);
      if s.sub.Some? { StepKeepsPast(s, t); } else { StepSubscribes(s, t); }
    }
  }

  /** Every subscriber that reads its channel live has taken its snapshot, and remembers when. */
  lemma {:induction false} LiveTookSnapshot(capacity: nat, ts: seq<Step>) returns (n: nat)
    requires var s := Run(Init(capacity), ts); s.sub.Some? && !s.sub.value.phase.Subscribed?
    ensures TakesSnapshot(capacity, ts, n)
    ensures var u, v := At(capacity, ts, n).sub.value, Run(Init(capacity), ts).sub.value;
            && v.lastId == u.lastId && v.since == u.since
            && (v.lastId > 0 ==> v.top == At(capacity, ts, n).nextId)
  {
    hide Next;
    if ts == [] {
    } else {
      var front := ts[..|ts| - 1];
      var s, t := Run(Init(capacity), front), ts[|ts| - 1];
      if s.sub.None? {
        StepSubscribes(s, t);
      } else {
        StepKeepsPast(s, t);
        if s.sub.value.phase.Subscribed? {
          n := |front|;
        } else {
          n := LiveTookSnapshot(capacity, front);
          AtFront(capacity, ts, n);
        }
      }
    }
  }

  /** Every subscriber has subscribed, and remembers the last id broadcast before. */
  lemma {:induction false} EveryoneSubscribed(capacity: nat, ts: seq<Step>) returns (n: nat)
    requires Run(Init(capacity), ts).sub.Some?
    ensures Subscribes(capacity, ts, n)
    ensures var s, u := At(capacity, ts, n), Run(Init(capacity), ts).sub.value;
            u.lastId == ts[n].lastId && u.since == (if s.pending && s.nextId > 0 then s.nextId - 1 else s.nextId)
  {
    hide Next;
    if ts == [] {
    } else {
      var front := ts[..|ts| - 1];
      var s, t := Run(Init(capacity), front), ts[|ts| - 1];
      if s.sub.None? {
        StepSubscribes(s, t);
        n := |front|;
      } else {
        StepKeepsPast(s, t);
        n := EveryoneSubscribed(capacity, front);
        AtFront(capacity, ts, n);
      }
    }
  }

  lemma {:induction false} RunKeepsCapacity(s: State, ts: seq<Step>)
    ensures Run(s, ts).capacity == s.capacity
  {
    if ts == [] {
    } else {
      RunKeepsCapacity(s, ts[..|ts| - 1]);
    }
  }

  /** The ring reaches back as far as it can: the snapshot for a presented id starts above `top - capacity`. */
  lemma SnapshotReachesBack(capacity: nat, ts: seq<Step>)
    requires capacity > 0
    ensures var s := Run(Init(capacity), ts);
            s.sub.Some? && !s.sub.value.phase.Subscribed? && s.sub.value.lastId > 0 ==>
              s.sub.value.low == Max(0, s.sub.value.top - capacity)
  {
    RunKeepsInv(Init(capacity), ts);
    RunKeepsCapacity(Init(capacity), ts);
  }

  /**
   * Nothing was lost: at snapshot step n the log had gone on past the presented id
   * by no more than the ring holds, and no id behind both was broadcast while the
   * channel was full.
   */
  ghost predicate NothingLost(capacity: nat, ts: seq<Step>, n: int, lastId: nat) {
    && 0 <= n < |ts| && At(capacity, ts, n).nextId <= lastId + capacity
    && forall m: int, x: nat | Overflows(capacity, ts, m, x) :: x <= Max(lastId, At(capacity, ts, n).nextId)
  }

  /** The consecutive ids above `from` up to `end`. */
  ghost function Consecutive(from: nat, end: nat): seq<nat>
    requires from <= end
  {
    seq(end - from, i requires 0 <= i => from + 1 + i)
  }

  lemma LastIsEnd(d: seq<nat>, from: nat, end: nat)
    requires from < end && Increasing(d) && forall x :: x in d <==> from < x <= end
    ensures d != [] && d[|d| - 1] == end && forall x :: x in d[..|d| - 1] <==> x in d && x != end
  {
    assert end in d;
    var i :| 0 <= i < |d| && d[i] == end;
    var n := |d| - 1;
    assert d[n] in d;
    assert d == d[..n] + [d[n]];
    forall x | x in d[..n] ensures x != end { var j :| 0 <= j < n && d[..n][j] == x; assert d[j] < d[n]; }
  }

  lemma {:induction false} IncreasingIsConsecutive(d: seq<nat>, from: nat, end: nat)
    requires from <= end && Increasing(d) && forall x :: x in d <==> from < x <= end
    ensures d == Consecutive(from, end)
    decreases end
  {
    assert d != [] ==> d[0] in d;
    if from == end {
    } else {
      LastIsEnd(d, from, end);
      var front := d[..|d| - 1];
      forall x ensures x in front <==> from < x <= end - 1 { assert x in d <==> from < x <= end; }
      IncreasingIsConsecutive(front, from, end - 1);
      assert d == front + [end];
    }
  }

  lemma ConsecutiveMembers(from: nat, end: nat)
    requires from <= end
    ensures forall x :: x in Consecutive(from, end) <==> from < x <= end
  {
    forall x | from < x <= end ensures x in Consecutive(from, end) { assert Consecutive(from, end)[x - from - 1] == x; }
  }

  /** Delivered are exactly the successors of `from` if and only if all of them are due. */
  lemma CompleteIffAllDue(capacity: nat, ts: seq<Step>, from: nat)
    requires capacity > 0 && Quiescent(Run(Init(capacity), ts))
    requires var s := Run(Init(capacity), ts); s.sub.value.lastId <= from <= s.nextId
    requires var s := Run(Init(capacity), ts); forall x: nat | Due(s.sub.value, x) && x > s.sub.value.lastId :: x > from
    ensures var s := Run(Init(capacity), ts);
            var u := s.sub.value;
            u.delivered == Consecutive(from, s.nextId) <==> forall x: nat | from < x <= s.nextId :: Due(u, x)
  {
    hide Due;
    var s := Run(Init(capacity), ts);
    var u := s.sub.value;
    NeverRepeats(capacity, ts);
    ConsecutiveMembers(from, s.nextId);
    forall x: nat ensures x in u.delivered <==> from < x <= s.nextId && Due(u, x) {
      DeliveryIsExact(capacity, ts, x);
    }
    if forall x: nat | from < x <= s.nextId :: Due(u, x) {
      IncreasingIsConsecutive(u.delivered, from, s.nextId);
    }
  }

  /** Nothing is snapshot or dropped that was not logged. */
  lemma TopWasLogged(capacity: nat, ts: seq<Step>)
    requires capacity > 0 && Quiescent(Run(Init(capacity), ts))
    ensures var s := Run(Init(capacity), ts);
            var u := s.sub.value;
            && u.since <= u.top <= s.nextId && (forall x | x in u.dropped :: u.since < x <= s.nextId)
            && (u.lastId == 0 ==> u.low == u.top == u.since)
  {
    RunKeepsInv(Init(capacity), ts);
  }

  /**
   * Replay completeness: for an id this logger issued, what the subscriber has
   * received once drained is exactly the consecutive successors, with no gap and
   * no repeat, if and only if nothing was lost.
   */
  lemma ReplayIsCompleteIff(capacity: nat, ts: seq<Step>) returns (n: nat)
    requires capacity > 0 && Quiescent(Run(Init(capacity), ts))
    requires var s := Run(Init(capacity), ts); 0 < s.sub.value.lastId <= s.nextId
    ensures TakesSnapshot(capacity, ts, n)
    ensures var s := Run(Init(capacity), ts);
            var u := s.sub.value;
            u.delivered == Consecutive(u.lastId, s.nextId) <==> NothingLost(capacity, ts, n, u.lastId)
  {
    hide Run; hide Overflows;
    var s := Run(Init(capacity), ts);
    var u := s.sub.value;
    n := LiveTookSnapshot(capacity, ts);
    CompleteIffAllDue(capacity, ts, u.lastId);
    SnapshotReachesBack(capacity, ts);
    TopWasLogged(capacity, ts);
    forall x: nat ensures x in u.dropped <==> exists m :: Overflows(capacity, ts, m, x) { DroppedIff(capacity, ts, x); }
    if NothingLost(capacity, ts, n, u.lastId) {
      assert forall x: nat | u.lastId < x <= s.nextId :: Due(u, x);
    } else if u.top > u.lastId + capacity {
      assert !Due(u, u.lastId + 1);
    } else {
      var m: int, x: nat :| Overflows(capacity, ts, m, x) && x > Max(u.lastId, u.top);
      assert x in u.dropped && !Due(u, x);
    }
  }

  /**
   * Without a presented id the subscriber receives exactly the events broadcast
   * after it subscribed, consecutively, if and only if its channel was never full
   * at a broadcast.
   */
  lemma LiveOnlyIsCompleteIff(capacity: nat, ts: seq<Step>) returns (n: nat)
    requires capacity > 0 && Quiescent(Run(Init(capacity), ts)) && Run(Init(capacity), ts).sub.value.lastId == 0
    ensures Subscribes(capacity, ts, n)
    ensures var s, b := Run(Init(capacity), ts), At(capacity, ts, n);
            var from := if b.pending && b.nextId > 0 then b.nextId - 1 else b.nextId;
            && from <= s.nextId
            && (s.sub.value.delivered == Consecutive(from, s.nextId) <==>
                  forall m: int, x: nat :: !Overflows(capacity, ts, m, x))
  {
    hide Run; hide Overflows;
    var s := Run(Init(capacity), ts);
    var u := s.sub.value;
    n := EveryoneSubscribed(capacity, ts);
    TopWasLogged(capacity, ts);
    CompleteIffAllDue(capacity, ts, u.since);
    forall x: nat ensures x in u.dropped <==> exists m :: Overflows(capacity, ts, m, x) { DroppedIff(capacity, ts, x); }
    if m: int, x: nat :| Overflows(capacity, ts, m, x) {
      assert x in u.dropped && !Due(u, x);
    } else {
      assert forall x: nat | u.since < x <= s.nextId :: Due(u, x);
    }
  }

  /** An id this logger never issued silences the subscriber until the log catches up with it. */
  lemma ForeignIdSuppresses(capacity: nat, ts: seq<Step>)
    requires capacity > 0
    requires var s := Run(Init(capacity), ts); s.sub.Some? && s.sub.value.lastId >= s.nextId
    ensures forall x :: x !in Run(Init(capacity), ts).sub.value.delivered
  {
    NeverRepeats(capacity, ts);
  }
}
