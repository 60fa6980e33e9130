/** The unauthenticated discovery table and its beacon limiter (internal/discovery/discovery.go). */
module Discovery {
  import opened Common

  const MAX_NODES: int := 256
  const MAX_PER_HOST: int := 8
  const MAX_SOURCES: int := 512
  const BEACON_INTERVAL: int := 50
  const SOURCE_AGE: int := 10_000

  /** The key under which a node is filed. */
  datatype Address = Address(host: string, port: int)

  /** A hint about a hub; times are in milliseconds. */
  datatype Node = Node(name: string, lastSeen: int)

  type Table = map<Address, Node>

  predicate SameHost(a: Address, host: string) { Fold(a.host) == Fold(host) }

  /** Hosts are compared character by character, up to ASCII case. */
  lemma SameHostIff(a: Address, host: string)
    ensures SameHost(a, host) <==> EqualUpToCase(a.host, host)
  {
    FoldIsEqualUpToCase(a.host, host);
  }

  function OfHost(t: Table, host: string): set<Address> {
    set a | a in t && SameHost(a, host)
  }

  function OfOthers(t: Table, host: string): set<Address> {
    set a | a in t && !SameHost(a, host)
  }

  /** An entry no newer than any other. */
  ghost predicate IsOldest(t: Table, a: Address) {
    a in t && forall b | b in t :: t[a].lastSeen <= t[b].lastSeen
  }

  /**
   * One beacon: refresh a known node, refuse a host at its cap, otherwise insert,
   * evicting one oldest entry from a full table.
   */
  ghost predicate Records(t: Table, a: Address, n: Node, t': Table) {
    if a in t then t' == t[a := n]
    else if |OfHost(t, a.host)| >= MAX_PER_HOST then t' == t
    else if |t| < MAX_NODES then t' == t[a := n]
    else exists oldest :: IsOldest(t, oldest) && t' == (t - {oldest})[a := n]
  }

  /**
   * What one beacon does to any entry: the sender's own is new or refreshed, unless
   * it was unknown and its host had 8 entries; another one is as it was, unless it
   * is the one displaced from a table of 256, which is no newer than any other.
   */
  lemma BeaconEffect(t: Table, a: Address, n: Node, t': Table, x: Address)
    requires Records(t, a, n, t')
    ensures var crowded := a !in t && |set b | b in t && EqualUpToCase(b.host, a.host)| >= 8;
            && (crowded ==> t' == t)
            && (!crowded ==> a in t' && t'[a] == n)
            && (x != a && x in t' ==> x in t && t'[x] == t[x])
            && (x != a && x in t && x !in t' ==>
                  && a !in t && |t| >= 256 && (forall b | b in t :: t[x].lastSeen <= t[b].lastSeen)
                  && forall b | b in t && b != x :: b in t')
  {
    hide SameHost; hide EqualUpToCase;
    forall b: Address ensures SameHost(b, a.host) <==> EqualUpToCase(b.host, a.host) { SameHostIff(b, a.host); }
    assert OfHost(t, a.host) == set b | b in t && EqualUpToCase(b.host, a.host);
  }

  ghost predicate Bounded(t: Table) {
    |t| <= MAX_NODES && forall a: Address :: |OfHost(t, a.host)| <= MAX_PER_HOST
  }

  function Fresh(t: Table, now: int, ttl: int): Table {
    map a | a in t && now - t[a].lastSeen <= ttl :: t[a]
  }

  /** The limiter entries that are not too old. */
  function Recent(m: map<string, int>, now: int): map<string, int> {
    map s | s in m && now - m[s] <= SOURCE_AGE :: m[s]
  }

  /** Above the cap the old entries go, and after them only as many as needed, none newer than any kept one. */
  ghost predicate Trimmed(m: map<string, int>, now: int, m': map<string, int>) {
    var recent := Recent(m, now);
    if |m| <= MAX_SOURCES then m' == m
    else if |recent| <= MAX_SOURCES then m' == recent
    else
      && |m'| == MAX_SOURCES && m'.Keys <= recent.Keys && (forall s | s in m' :: m'[s] == m[s])
      && forall s, s' | s in recent && s !in m' && s' in m' :: m[s] <= m'[s']
  }

  /** The limiter forgets a source only above 512, and then one that is 10 seconds old or no newer than the 512 kept. */
  lemma LimiterForgets(m: map<string, int>, now: int, m': map<string, int>, s: string)
    requires Trimmed(m, now, m') && s in m
    ensures |m'| <= 512 && (s in m' ==> m'[s] == m[s])
    ensures |m| <= 512 ==> s in m'
    ensures |m| > 512 && now - m[s] > 10_000 ==> s !in m'
    ensures s !in m' && now - m[s] <= 10_000 ==> |m'| == 512 && forall x | x in m' :: x in m && m[s] <= m[x]
  {
    assert now - m[s] <= 10_000 <==> s in Recent(m, now);
  }

  method LeastRecent(t: Table) returns (oldest: Address)
    requires t != map[]
    ensures IsOldest(t, oldest)
  {
    var todo := t.Keys;
    oldest :| oldest in t;
    while todo != {}
      invariant todo <= t.Keys && oldest in t
      invariant forall b | b in t && b !in todo :: t[oldest].lastSeen <= t[b].lastSeen
      decreases todo
    {
      var b :| b in todo;
      if t[b].lastSeen < t[oldest].lastSeen { oldest := b; }
      todo := todo - {b};
    }
  }

  method LeastRecentSource(m: map<string, int>) returns (oldest: string)
    requires m != map[]
    ensures oldest in m && forall s | s in m :: m[oldest] <= m[s]
  {
    var todo := m.Keys;
    oldest :| oldest in m;
    while todo != {}
      invariant todo <= m.Keys && oldest in m
      invariant forall s | s in m && s !in todo :: m[oldest] <= m[s]
      decreases todo
    {
      var s :| s in todo;
      if m[s] < m[oldest] { oldest := s; }
      todo := todo - {s};
    }
  }

  method DropOld(m: map<string, int>, now: int) returns (r: map<string, int>)
    ensures r == Recent(m, now)
  {
    r := m;
    var todo := m.Keys;
    while todo != {}
      invariant todo <= m.Keys
      invariant forall s :: s in r <==> s in m && (s in todo || now - m[s] <= SOURCE_AGE)
      invariant forall s | s in r :: r[s] == m[s]
      decreases todo
    {
      var s :| s in todo;
      if now - m[s] > SOURCE_AGE { r := r - {s}; }
      todo := todo - {s};
    }
  }

  class Engine {
    var nodes: Table
    var lastBeacons: map<string, int>
    const ttl: int

    constructor (ttl: int)
      ensures nodes == map[] && lastBeacons == map[] && this.ttl == ttl
    {
      nodes, lastBeacons, this.ttl := map[], map[], ttl;
    }

    method SourceHostCount(host: string) returns (count: nat)
      ensures count == |OfHost(nodes, host)|
    {
      count := 0;
      var todo := nodes.Keys;
      ghost var seen: set<Address> := {};
      while todo != {}
        invariant todo <= nodes.Keys && seen == (set a | a in nodes.Keys - todo && SameHost(a, host)) && count == |seen|
        decreases todo
      {
        var a :| a in todo;
        if SameHost(a, host) { count, seen := count + 1, seen + {a}; }
        todo := todo - {a};
      }
      assert seen == OfHost(nodes, host);
    }

    method RecordNode(a: Address, n: Node)
      modifies this`nodes
      ensures Records(old(nodes), a, n, nodes)
    {
      if a !in nodes {
        var count := SourceHostCount(a.host);
        if count >= MAX_PER_HOST { return; }
        if |nodes| >= MAX_NODES {
          var oldest := LeastRecent(nodes);
          nodes := nodes - {oldest};
        }
      }
      nodes := nodes[a := n];
    }

    method PruneStaleNodes(now: int)
      modifies this`nodes
      ensures nodes == Fresh(old(nodes), now, ttl)
      ensures forall a :: a in nodes <==> a in old(nodes) && now <= old(nodes)[a].lastSeen + ttl
      ensures forall a | a in nodes :: nodes[a] == old(nodes)[a]
    {
      var todo := nodes.Keys;
      while todo != {}
        invariant todo <= old(nodes.Keys)
        invariant forall a :: a in nodes <==> a in old(nodes) && (a in todo || now - old(nodes)[a].lastSeen <= ttl)
        invariant forall a | a in nodes :: nodes[a] == old(nodes)[a]
        decreases todo
      {
        var a :| a in todo;
        if now - nodes[a].lastSeen > ttl { nodes := nodes - {a}; }
        todo := todo - {a};
      }
    }

    /** The per-source rate limit; its own table is bounded too. */
    method AllowBeaconSource(source: string, now: int) returns (allowed: bool)
      requires |lastBeacons| <= MAX_SOURCES
      modifies this`lastBeacons
      ensures allowed <==> !(source in old(lastBeacons) && now - old(lastBeacons)[source] < 50)
      ensures !allowed ==> lastBeacons == old(lastBeacons)
      ensures |lastBeacons| <= MAX_SOURCES
      ensures allowed ==> Trimmed(old(lastBeacons)[source := now], now, lastBeacons)
    {
      if source in lastBeacons && now - lastBeacons[source] < BEACON_INTERVAL { return false; }
      ghost var before := lastBeacons[source := now];
      lastBeacons := lastBeacons[source := now];
      allowed := true;
      if |lastBeacons| > MAX_SOURCES {
        lastBeacons := DropOld(lastBeacons, now);
        ghost var recent := lastBeacons;
        while |lastBeacons| > MAX_SOURCES
          invariant lastBeacons.Keys <= recent.Keys && forall s | s in lastBeacons :: lastBeacons[s] == before[s]
          invariant |recent| <= MAX_SOURCES ==> lastBeacons == recent
          invariant |recent| > MAX_SOURCES ==> |lastBeacons| >= MAX_SOURCES
          invariant forall s, s' | s in recent && s !in lastBeacons && s' in lastBeacons :: before[s] <= lastBeacons[s']
          decreases |lastBeacons|
        {
          var oldest := LeastRecentSource(lastBeacons);
          assert (lastBeacons - {oldest}).Keys == lastBeacons.Keys - {oldest};
          lastBeacons := lastBeacons - {oldest};
        }
      }
    }
  }

  // ----- bounds over runs

  datatype Event = Beacon(a: Address, n: Node) | Prune(now: int, ttl: int)

  ghost predicate Step(t: Table, e: Event, t': Table) {
    match e
    case Beacon(a, n) => Records(t, a, n, t')
    case Prune(now, ttl) => t' == Fresh(t, now, ttl)
  }

  ghost predicate IsRun(es: seq<Event>, ts: seq<Table>) {
    |ts| == |es| + 1 && forall i | 0 <= i < |es| :: Step(ts[i], es[i], ts[i + 1])
  }

  /** After a pruning exactly the nodes seen within the time to live are left, and as they were. */
  lemma PruningLeavesFresh(es: seq<Event>, ts: seq<Table>, i: nat, a: Address)
    requires IsRun(es, ts) && i < |es| && es[i].Prune?
    ensures a in ts[i + 1] <==> a in ts[i] && es[i].now <= ts[i][a].lastSeen + es[i].ttl
    ensures a in ts[i + 1] ==> ts[i + 1][a] == ts[i][a]
  {
    assert Step(ts[i], es[i], ts[i + 1]);
  }

  /** An inserted entry adds one to its own host's count; removed entries only lower counts. */
  lemma InsertionCount(t: Table, r: Table, a: Address, n: Node, host: string)
    requires a !in r && r.Keys <= t.Keys
    ensures |OfHost(r[a := n], host)| <= |OfHost(t, host)| + if SameHost(a, host) then 1 else 0
  {
    var h := OfHost(r[a := n], host);
    if SameHost(a, host) {
      assert h == OfHost(r, host) + {a};
      SubsetCardinality(OfHost(r, host), OfHost(t, host));
    } else {
      SubsetCardinality(h, OfHost(t, host));
    }
  }

  lemma BeaconKeepsBounded(t: Table, a: Address, n: Node, t': Table)
    requires Bounded(t) && Records(t, a, n, t')
    ensures Bounded(t')
  {
    if a in t {
      assert t'.Keys == t.Keys;
      forall x: Address ensures |OfHost(t', x.host)| <= MAX_PER_HOST { assert OfHost(t', x.host) == OfHost(t, x.host); }
    } else if |OfHost(t, a.host)| < MAX_PER_HOST {
      var r := t;
      if |t| >= MAX_NODES {
        var oldest :| IsOldest(t, oldest) && t' == (t - {oldest})[a := n];
        r := t - {oldest};
        assert r.Keys == t.Keys - {oldest};
      }
      assert t' == r[a := n] && |t'| == |r| + 1;
      forall x: Address ensures |OfHost(t', x.host)| <= MAX_PER_HOST {
        InsertionCount(t, r, a, n, x.host);
        if SameHost(a, x.host) { assert OfHost(t, x.host) == OfHost(t, a.host); }
      }
    }
  }

  lemma StepKeepsBounded(t: Table, e: Event, t': Table)
    requires Bounded(t) && Step(t, e, t')
    ensures Bounded(t')
  {
    match e
    case Beacon(a, n) => BeaconKeepsBounded(t, a, n, t');
    case Prune(now, ttl) =>
      SubsetCardinality(t'.Keys, t.Keys);
      forall x: Address ensures |OfHost(t', x.host)| <= MAX_PER_HOST {
        SubsetCardinality(OfHost(t', x.host), OfHost(t, x.host));
      }
  }

  /** Over every run the table holds at most 256 nodes, and at most 8 of any host. */
  lemma {:induction false} TableStaysBounded(es: seq<Event>, ts: seq<Table>, n: nat)
    requires IsRun(es, ts) && Bounded(ts[0]) && n <= |es|
    ensures Bounded(ts[n]) && |ts[n]| <= 256
    ensures forall host :: |OfHost(ts[n], host)| <= 8
    decreases n
  {
    forall host ensures Bounded(ts[n]) ==> |OfHost(ts[n], host)| <= 8 {
      assert Bounded(ts[n]) ==> |OfHost(ts[n], Address(host, 0).host)| <= MAX_PER_HOST;
    }
    if n == 0 {
    } else {
      TableStaysBounded(es, ts, n - 1);
      assert Step(ts[n - 1], es[n - 1], ts[n]);
      StepKeepsBounded(ts[n - 1], es[n - 1], ts[n]);
    }
  }

  /** A beacon of `host` brings no entry of another host, and never shrinks the table. */
  lemma BeaconOfHost(t: Table, a: Address, n: Node, t': Table, host: string)
    requires Records(t, a, n, t') && SameHost(a, host)
    ensures OfOthers(t', host) <= OfOthers(t, host) && |t'| >= |t|
    ensures forall x | x in OfOthers(t', host) :: t'[x] == t[x]
  {
    if a in t {
      assert t'.Keys == t.Keys;
    } else if |OfHost(t, a.host)| < MAX_PER_HOST {
      if |t| >= MAX_NODES {
        var oldest :| IsOldest(t, oldest) && t' == (t - {oldest})[a := n];
        assert (t - {oldest}).Keys == t.Keys - {oldest};
      }
    }
  }

  lemma HostsPartition(t: Table, host: string)
    ensures |t| == |OfHost(t, host)| + |OfOthers(t, host)|
  {
    assert t.Keys == OfHost(t, host) + OfOthers(t, host);
  }

  lemma {:induction false} SingleHostRun(es: seq<Event>, ts: seq<Table>, host: string, n: nat)
    requires IsRun(es, ts) && n <= |es|
    requires forall e | e in es :: e.Beacon? && SameHost(e.a, host)
    ensures OfOthers(ts[n], host) <= OfOthers(ts[0], host) && |ts[n]| >= |ts[0]|
    ensures forall x | x in OfOthers(ts[n], host) :: ts[n][x] == ts[0][x]
    decreases n
  {
    if n == 0 {
    } else {
      SingleHostRun(es, ts, host, n - 1);
      var e := es[n - 1];
      assert e in es && Step(ts[n - 1], e, ts[n]);
      BeaconOfHost(ts[n - 1], e.a, e.n, ts[n], host);
    }
  }

  /**
   * Bounded displacement: however many beacons one host sends between prunings,
   * it displaces no more entries of other hosts than it has slots left, at most
   * 8, and it alters none of the others.
   */
  lemma OneHostDisplacesAtMostItsSlots(es: seq<Event>, ts: seq<Table>, host: string)
    requires IsRun(es, ts) && Bounded(ts[0])
    requires forall e | e in es :: e.Beacon? && SameHost(e.a, host)
    ensures var lost := OfOthers(ts[0], host) - OfOthers(ts[|es|], host);
            |lost| <= 8 - |OfHost(ts[0], host)|
    ensures forall x | x in OfOthers(ts[|es|], host) :: x in ts[0] && ts[|es|][x] == ts[0][x]
  {
    var n := |es|;
    SingleHostRun(es, ts, host, n);
    TableStaysBounded(es, ts, n);
    HostsPartition(ts[0], host);
    HostsPartition(ts[n], host);
    var o0, o1 := OfOthers(ts[0], host), OfOthers(ts[n], host);
    assert o0 == o1 + (o0 - o1);
  }
}
