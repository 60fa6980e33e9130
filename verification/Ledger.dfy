/** Completion tombstones: the ledger behind at-most-once publication (internal/drop/tombstone.go). */
module Ledger {
  import opened Common
  import opened Protocol
  import opened Sorting

  const MAX_ENTRIES: int := 1024
  const RETENTION: int := 24 * 3600 * 1_000_000_000

  /** One verified completion; `completedAt` is in nanoseconds and 0 is the zero time. */
  datatype Entry = Entry(
    key: string, dropId: string, kind: DropKind, name: string, size: int, mimeType: string,
    chunkSize: int, headHash: Option<Digest>, sha: Digest, bytes: int, completedAt: nat)

  type Entries = map<string, Entry>

  /** Same transfer metadata; the relative path is not compared. */
  predicate Matches(e: Entry, m: DropSend) {
    && e.kind == m.kind
    && e.name == m.name
    && e.size == m.size
    && e.mimeType == m.mimeType
    && e.chunkSize == NegotiatedChunk(m)
    && e.headHash == m.headHash
  }

  /** The record of a completed transfer. */
  function NewEntry(m: DropSend, sha: Digest, bytes: int): Entry {
    Entry(m.key, m.dropId, m.kind, m.name, m.size, m.mimeType, NegotiatedChunk(m), m.headHash, sha, bytes, 0)
  }

  function Find(es: Entries, key: string): Option<Entry> {
    if TrimSpace(key) != "" && key in es then Some(es[key]) else None
  }

  predicate Expired(e: Entry, now: int, maxAge: int) {
    maxAge > 0 && e.completedAt != 0 && e.completedAt < now - maxAge
  }

  /** The retention is 24 hours; an entry without a time never expires. */
  lemma ExpiresAfterADay(e: Entry, now: int)
    ensures Expired(e, now, RETENTION) <==> e.completedAt != 0 && now - e.completedAt > 86_400_000_000_000
  {
  }

  function Unexpired(es: Entries, now: int, maxAge: int): Entries {
    map k | k in es && !Expired(es[k], now, maxAge) :: es[k]
  }

  /** Pruning keeps what is unexpired, up to the capacity, and drops only entries no newer than every kept one. */
  ghost predicate IsPruned(es: Entries, now: int, maxAge: int, maxEntries: int, es': Entries) {
    var live := Unexpired(es, now, maxAge);
    && es'.Keys <= live.Keys
    && (forall k | k in es' :: es'[k] == live[k])
    && (maxEntries <= 0 || |live| <= maxEntries ==> es' == live)
    && (maxEntries > 0 && |live| > maxEntries ==>
          && |es'| == maxEntries
          && forall k, k' | k in live && k !in es' && k' in es' :: live[k].completedAt <= es'[k'].completedAt)
  }

  /**
   * The ledger's own limits: an entry is dropped exactly if it is older than 24
   * hours, or if 1024 younger ones, or ones of the same time, are kept instead.
   */
  lemma PruningDropsIff(es: Entries, now: int, es': Entries, k: string)
    requires IsPruned(es, now, RETENTION, MAX_ENTRIES, es') && k in es
    ensures |es'| <= 1024 && (k in es' ==> es'[k] == es[k])
    ensures var aged := es[k].completedAt != 0 && now - es[k].completedAt > 86_400_000_000_000;
            && (aged ==> k !in es')
            && (k !in es' && !aged ==>
                  |es'| == 1024 && forall x | x in es' :: x in es && es[x].completedAt >= es[k].completedAt)
  {
    ExpiresAfterADay(es[k], now);
    assert !Expired(es[k], now, RETENTION) ==> k in Unexpired(es, now, RETENTION);
  }

  ghost predicate WellKeyed(es: Entries) {
    forall k | k in es :: es[k].key == k
  }

  function Stamped(e: Entry, now: nat): Entry {
    if e.completedAt == 0 then e.(completedAt := now) else e
  }

  /** A record holds the metadata, the digest and the byte count of its transfer. */
  lemma RecordHoldsTransfer(m: DropSend, sha: Digest, bytes: int, now: nat)
    ensures var e := Stamped(NewEntry(m, sha, bytes), now);
            && e.key == m.key && e.dropId == m.dropId && e.kind == m.kind && e.name == m.name && e.size == m.size
            && e.mimeType == m.mimeType && e.headHash == m.headHash && e.sha == sha && e.bytes == bytes
            && e.chunkSize == (if m.chunkSize > 0 then m.chunkSize else 0x10_0000)
            && e.completedAt == now
  {
  }

  /** The effect of Record(e) at time `now`; the order among equal times is left open, as sort.Slice leaves it. */
  ghost predicate IsRecorded(es: Entries, e: Entry, now: nat, maxAge: int, maxEntries: int, es': Entries) {
    if TrimSpace(e.key) == "" then es' == es
    else IsPruned(es[e.key := Stamped(e, now)], now, maxAge, maxEntries, es')
  }

  function Older(a: Entry, b: Entry): bool { a.completedAt <= b.completedAt }

  ghost predicate Lists(es: seq<Entry>, k: string) { exists i | 0 <= i < |es| :: es[i].key == k }

  lemma NothingListed()
    ensures forall k :: !Lists([], k)
  {
  }

  lemma NotListedBefore(es: seq<Entry>, i: nat)
    requires i < |es| && forall x, y | 0 <= x < y < |es| :: es[x].key != es[y].key
    ensures !Lists(es[..i], es[i].key)
  {
  }

  lemma ListsOneMore(es: seq<Entry>, i: nat)
    requires i < |es|
    ensures forall k :: Lists(es[..i + 1], k) <==> Lists(es[..i], k) || k == es[i].key
  {
    forall k ensures Lists(es[..i + 1], k) <==> Lists(es[..i], k) || k == es[i].key {
      if Lists(es[..i], k) { var x :| 0 <= x < i && es[..i][x].key == k; assert es[..i + 1][x].key == k; }
      if Lists(es[..i + 1], k) {
        var x :| 0 <= x < i + 1 && es[..i + 1][x].key == k;
        assert x < i ==> es[..i][x].key == k;
      }
      assert es[..i + 1][i].key == es[i].key;
    }
  }

  /** Deletes the listed entries one by one. */
  method Without(m: Entries, oldest: seq<Entry>) returns (kept: Entries)
    requires forall i | 0 <= i < |oldest| :: oldest[i].key in m
    requires forall i, j | 0 <= i < j < |oldest| :: oldest[i].key != oldest[j].key
    ensures |kept| == |m| - |oldest|
    ensures forall k :: k in kept <==> k in m && !Lists(oldest, k)
    ensures forall k | k in kept :: kept[k] == m[k]
  {
    hide Lists;
    kept := m;
    NothingListed();
    assert oldest[..0] == [];
    for i := 0 to |oldest|
      invariant |kept| == |m| - i
      invariant forall k :: k in kept <==> k in m && !Lists(oldest[..i], k)
      invariant forall k | k in kept :: kept[k] == m[k]
    {
      var key := oldest[i].key;
      NotListedBefore(oldest, i);
      ListsOneMore(oldest, i);
      assert (kept - {key}).Keys == kept.Keys - {key};
      kept := kept - {key};
    }
    assert oldest[..|oldest|] == oldest;
  }

  /** `es` holds each entry of `m` exactly once. */
  ghost predicate ListsEntries(es: seq<Entry>, m: Entries) {
    && |es| == |m|
    && (forall i | 0 <= i < |es| :: es[i].key in m && es[i] == m[es[i].key])
    && (forall i, j | 0 <= i < j < |es| :: es[i].key != es[j].key)
    && (forall k | k in m :: Lists(es, k))
  }

  lemma ListingFacts(es: seq<Entry>, m: Entries)
    requires ListsEntries(es, m)
    ensures |es| == |m|
  {
  }

  /** A prefix of a listing can be deleted. */
  lemma PrefixFacts(es: seq<Entry>, m: Entries, n: nat)
    requires ListsEntries(es, m) && n <= |es|
    ensures forall i | 0 <= i < n :: es[..n][i].key in m
    ensures forall i, j | 0 <= i < j < n :: es[..n][i].key != es[..n][j].key
  {
  }

  method Collect(m: Entries) returns (es: seq<Entry>)
    requires WellKeyed(m)
    ensures ListsEntries(es, m)
  {
    es := [];
    var todo := m.Keys;
    while todo != {}
      invariant todo <= m.Keys && |es| + |todo| == |m|
      invariant forall i | 0 <= i < |es| :: es[i].key in m && es[i].key !in todo && es[i] == m[es[i].key]
      invariant forall i, j | 0 <= i < j < |es| :: es[i].key != es[j].key
      invariant forall k | k in m && k !in todo :: Lists(es, k)
      decreases todo
    {
      var k :| k in todo;
      assert forall x | Lists(es, x) :: Lists(es + [m[k]], x) by {
        forall x | Lists(es, x) ensures Lists(es + [m[k]], x) {
          var i :| 0 <= i < |es| && es[i].key == x;
          assert (es + [m[k]])[i].key == x;
        }
      }
      assert (es + [m[k]])[|es|].key == k;
      es := es + [m[k]];
      todo := todo - {k};
    }
  }

  lemma SortedListsEntries(es: seq<Entry>, m: Entries)
    requires ListsEntries(es, m)
    ensures ListsEntries(Sort(es, Older), m) && Sorted(Sort(es, Older), Older)
  {
    SortIsSortedPermutation(es, Older);
    var s := Sort(es, Older);
    assert forall i | 0 <= i < |s| :: s[i] in es;
    forall k | k in m ensures Lists(s, k) {
      assert Lists(es, k);
      assert m[k] in s;
    }
  }

  lemma KeptAreNewest(ordered: seq<Entry>, m: Entries, kept: Entries, cut: nat)
    requires WellKeyed(m) && ListsEntries(ordered, m) && Sorted(ordered, Older) && cut <= |ordered|
    requires forall k :: k in kept <==> k in m && !Lists(ordered[..cut], k)
    ensures forall k, k' | k in m && k !in kept && k' in kept :: m[k].completedAt <= m[k'].completedAt
  {
    forall x | 0 <= x < cut ensures Lists(ordered[..cut], ordered[x].key) {
      assert ordered[..cut][x].key == ordered[x].key;
    }
    forall k, k' | k in m && k !in kept && k' in kept
      ensures m[k].completedAt <= m[k'].completedAt
    {
      assert Lists(ordered[..cut], k) && Lists(ordered, k');
      var j :| 0 <= j < cut && ordered[..cut][j].key == k;
      var j' :| 0 <= j' < |ordered| && ordered[j'].key == k';
      assert ordered[j].key == k && Older(ordered[j], ordered[j']);
    }
  }

  class Tombstones {
    const maxEntries: int
    const maxAge: int
    var entries: Entries

    constructor ()
      ensures entries == map[] && maxEntries == MAX_ENTRIES && maxAge == RETENTION
    {
      maxEntries, maxAge := MAX_ENTRIES, RETENTION;
      entries := map[];
    }

    method Lookup(key: string) returns (r: Option<Entry>)
      ensures r == Find(entries, key)
      ensures r.Some? <==> key in entries && exists k :: 0 <= k < |key| && IsInk(key[k])
      ensures r.Some? ==> r.value == entries[key]
    {
      TrimmedAwayIff(key);
      if TrimSpace(key) == "" { return None; }
      r := if key in entries then Some(entries[key]) else None;
    }

    method Record(e: Entry, now: nat)
      requires WellKeyed(entries)
      modifies this
      ensures WellKeyed(entries)
      ensures IsRecorded(old(entries), e, now, maxAge, maxEntries, entries)
      ensures (forall k | 0 <= k < |e.key| :: !IsInk(e.key[k])) ==> entries == old(entries)
    {
      TrimmedAwayIff(e.key);
      if TrimSpace(e.key) == "" { return; }
      entries := entries[e.key := Stamped(e, now)];
      Prune(now);
    }

    method Prune(now: nat)
      requires WellKeyed(entries)
      modifies this
      ensures WellKeyed(entries)
      ensures IsPruned(old(entries), now, maxAge, maxEntries, entries)
    {
      ghost var before := entries;
      if maxAge > 0 {
        var todo := entries.Keys;
        while todo != {}
          invariant todo <= before.Keys
          invariant forall k :: k in entries <==> k in before && (k in todo || !Expired(before[k], now, maxAge))
          invariant forall k | k in entries :: entries[k] == before[k]
          decreases todo
        {
          var k :| k in todo;
          if entries[k].completedAt != 0 && entries[k].completedAt < now - maxAge {
            entries := entries - {k};
          }
          todo := todo - {k};
        }
      }
      assert entries == Unexpired(before, now, maxAge);
      if maxEntries > 0 && |entries| > maxEntries {
        DropOldest();
      }
    }

    /** Sorts the entries by completion time and deletes the oldest ones beyond the capacity. */
    method DropOldest()
      requires WellKeyed(entries) && 0 < maxEntries < |entries|
      modifies this
      ensures WellKeyed(entries) && |entries| == maxEntries
      ensures entries.Keys <= old(entries.Keys) && forall k | k in entries :: entries[k] == old(entries)[k]
      ensures forall k, k' | k in old(entries) && k !in entries && k' in entries ::
                old(entries)[k].completedAt <= entries[k'].completedAt
    {
      hide Sort; hide ListsEntries; hide Sorted; hide Lists;
      var ordered := Collect(entries);
      SortedListsEntries(ordered, entries);
      ordered := Sort(ordered, Older);
      ListingFacts(ordered, entries);
      var surplus := |ordered| - maxEntries;
      PrefixFacts(ordered, entries, surplus);
      var kept := Without(entries, ordered[..surplus]);
      KeptAreNewest(ordered, entries, kept, surplus);
      entries := kept;
    }
  }
}
