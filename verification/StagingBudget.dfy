/** Reclamation of retained partials (internal/drop/staging.go, EnforcePartialBudget). */
module StagingBudget {
  import opened Common
  import opened Sorting

  const DEFAULT_BUDGET: int := 8 * 1024 * 1024 * 1024
  const MAX_COUNT: int := 1024

  /** A reclaimable file; an artifact is a leftover marker or sidecar without its partial. */
  datatype Candidate = Candidate(path: string, size: nat, modTime: int, artifact: bool)

  /** Byte-wise comparison of paths. */
  predicate LexLe(a: string, b: string) {
    a == "" || (b != "" && (a[0] < b[0] || (a[0] == b[0] && LexLe(a[1..], b[1..]))))
  }

  /** Oldest first, equal times by path. */
  function Before(a: Candidate, b: Candidate): bool {
    a.modTime < b.modTime || (a.modTime == b.modTime && LexLe(a.path, b.path))
  }

  /** The path is a beginning of the other, or is smaller at the first byte where they differ. */
  ghost predicate ComesFirst(a: string, b: string) {
    exists n :: 0 <= n <= |a| && n <= |b| && a[..n] == b[..n] && (n == |a| || (n < |b| && a[n] < b[n]))
  }

  lemma SameFront(a: string, b: string, n: nat)
    requires 0 < n <= |a| && n <= |b| && a[..n] == b[..n]
    ensures a[0] == b[0]
  {
    assert a[..n][0] == a[0] && b[..n][0] == b[0];
  }

  lemma {:induction false} LexLeIff(a: string, b: string)
    ensures LexLe(a, b) <==> ComesFirst(a, b)
  {
    if a == "" {
      assert a[..0] == b[..0];
    } else if b == "" {
    } else if a[0] != b[0] {
      if a[0] < b[0] { assert a[..0] == b[..0]; }
      if ComesFirst(a, b) {
        var n :| 0 <= n <= |a| && n <= |b| && a[..n] == b[..n] && (n == |a| || (n < |b| && a[n] < b[n]));
        if n > 0 { SameFront(a, b, n); }
      }
    } else {
      LexLeIff(a[1..], b[1..]);
      if ComesFirst(a[1..], b[1..]) {
        var n :| 0 <= n <= |a| - 1 && n <= |b| - 1 && a[1..][..n] == b[1..][..n]
                 && (n == |a| - 1 || (n < |b| - 1 && a[1..][n] < b[1..][n]));
        assert a[..n + 1] == [a[0]] + a[1..][..n] && b[..n + 1] == [b[0]] + b[1..][..n];
      }
      if ComesFirst(a, b) {
        var n :| 0 <= n <= |a| && n <= |b| && a[..n] == b[..n] && (n == |a| || (n < |b| && a[n] < b[n]));
        assert n > 0 && a[1..][..n - 1] == a[..n][1..] && b[1..][..n - 1] == b[..n][1..];
        assert n < |a| ==> a[1..][n - 1] == a[n];
        assert n < |a| ==> b[1..][n - 1] == b[n];
      }
    }
  }

  lemma {:induction false} LexTotal(a: string, b: string)
    ensures LexLe(a, b) || LexLe(b, a)
  {
    if a != "" && b != "" && a[0] == b[0] { LexTotal(a[1..], b[1..]); }
  }

  lemma {:induction false} LexTransitive(a: string, b: string, c: string)
    requires LexLe(a, b) && LexLe(b, c)
    ensures LexLe(a, c)
  {
    if a != "" && a[0] == b[0] == c[0] { LexTransitive(a[1..], b[1..], c[1..]); }
  }

  lemma BeforeIsTotal()
    ensures Total(Before)
  {
    forall a, b ensures Before(a, b) || Before(b, a) { LexTotal(a.path, b.path); }
    forall a, b, c | Before(a, b) && Before(b, c) ensures Before(a, c) {
      if a.modTime == b.modTime == c.modTime { LexTransitive(a.path, b.path, c.path); }
    }
  }

  function Sum(cs: seq<Candidate>): nat {
    if cs == [] then 0 else cs[0].size + Sum(cs[1..])
  }

  /** A budget that is not positive selects the default. */
  function Budget(maxBytes: int): int { if maxBytes <= 0 then DEFAULT_BUDGET else maxBytes }

  predicate WithinBudget(total: int, count: int, maxBytes: int) {
    total <= maxBytes && count <= MAX_COUNT
  }

  /** The candidates removed, in order: walk the list while over budget, skipping what may not or cannot be removed. */
  function Reclaim(cs: seq<Candidate>, total: int, count: int, maxBytes: int, blocked: set<string>): seq<Candidate> {
    if cs == [] || WithinBudget(total, count, maxBytes) then []
    else if cs[0].path in blocked then Reclaim(cs[1..], total, count, maxBytes, blocked)
    else [cs[0]] + Reclaim(cs[1..], total - cs[0].size, count - 1, maxBytes, blocked)
  }

  // ----- what reclamation guarantees

  ghost predicate DistinctPaths(cs: seq<Candidate>) {
    forall i, j | 0 <= i < j < |cs| :: cs[i].path != cs[j].path
  }

  /** It removes only unblocked candidates, and every unblocked one older than something it removed. */
  lemma {:induction false} RemovesOldestEligible(cs: seq<Candidate>, total: int, count: int, maxBytes: int,
                                                 blocked: set<string>)
    requires DistinctPaths(cs)
    ensures var r := Reclaim(cs, total, count, maxBytes, blocked);
            && (forall c | c in r :: c in cs && c.path !in blocked)
            && (forall i, j | 0 <= i < j < |cs| && cs[j] in r && cs[i].path !in blocked :: cs[i] in r)
            && DistinctPaths(r)
  {
    if cs == [] || WithinBudget(total, count, maxBytes) {
    } else {
      var rest := cs[1..];
      var skip := cs[0].path in blocked;
      var total', count' := if skip then total else total - cs[0].size, if skip then count else count - 1;
      RemovesOldestEligible(rest, total', count', maxBytes, blocked);
      var r' := Reclaim(rest, total', count', maxBytes, blocked);
      var r := Reclaim(cs, total, count, maxBytes, blocked);
      assert r == if skip then r' else [cs[0]] + r';
      forall c | c in r' ensures c in cs && c.path != cs[0].path {
        var i :| 0 <= i < |rest| && rest[i] == c;
        assert cs[i + 1] == c;
      }
      forall i, j | 0 <= i < j < |cs| && cs[j] in r && cs[i].path !in blocked ensures cs[i] in r {
        assert cs[j] in r' && cs[j] == rest[j - 1];
        if i > 0 { assert cs[i] == rest[i - 1]; }
      }
    }
  }

  lemma SumOfNothing()
    ensures Sum([]) == 0
  {
  }

  lemma SumCons(c: Candidate, cs: seq<Candidate>)
    ensures Sum([c] + cs) == c.size + Sum(cs)
  {
    assert ([c] + cs)[1..] == cs;
  }

  lemma ReclaimHead(cs: seq<Candidate>, total: int, count: int, maxBytes: int, blocked: set<string>)
    requires cs != [] && !WithinBudget(total, count, maxBytes)
    ensures Reclaim(cs, total, count, maxBytes, blocked) ==
              if cs[0].path in blocked then Reclaim(cs[1..], total, count, maxBytes, blocked)
              else [cs[0]] + Reclaim(cs[1..], total - cs[0].size, count - 1, maxBytes, blocked)
  {
  }

  lemma ReclaimEnd(cs: seq<Candidate>, total: int, count: int, maxBytes: int, blocked: set<string>)
    requires cs == [] || WithinBudget(total, count, maxBytes)
    ensures Reclaim(cs, total, count, maxBytes, blocked) == []
  {
  }

  lemma {:induction false} LastWasNeeded(cs: seq<Candidate>, total: int, count: int, maxBytes: int,
                                         blocked: set<string>)
    ensures var r := Reclaim(cs, total, count, maxBytes, blocked);
            r != [] ==> !WithinBudget(total - Sum(r[..|r| - 1]), count - (|r| - 1), maxBytes)
  {
    hide WithinBudget; hide Sum; hide Reclaim;
    if cs == [] || WithinBudget(total, count, maxBytes) {
      ReclaimEnd(cs, total, count, maxBytes, blocked);
    } else {
      ReclaimHead(cs, total, count, maxBytes, blocked);
      if cs[0].path in blocked {
        LastWasNeeded(cs[1..], total, count, maxBytes, blocked);
      } else {
        LastWasNeeded(cs[1..], total - cs[0].size, count - 1, maxBytes, blocked);
        var r' := Reclaim(cs[1..], total - cs[0].size, count - 1, maxBytes, blocked);
        var r := [cs[0]] + r';
        if r' == [] {
          assert r[..0] == [];
          SumOfNothing();
        } else {
          assert r[..|r| - 1] == [cs[0]] + r'[..|r'| - 1];
          SumCons(cs[0], r'[..|r'| - 1]);
        }
      }
    }
  }

  lemma {:induction false} EndsWithinBudget(cs: seq<Candidate>, total: int, count: int, maxBytes: int,
                                            blocked: set<string>)
    ensures var r := Reclaim(cs, total, count, maxBytes, blocked);
            || WithinBudget(total - Sum(r), count - |r|, maxBytes)
            || forall c | c in cs :: c in r || c.path in blocked
  {
    hide WithinBudget; hide Sum; hide Reclaim;
    if cs == [] || WithinBudget(total, count, maxBytes) {
      ReclaimEnd(cs, total, count, maxBytes, blocked);
      SumOfNothing();
    } else {
      ReclaimHead(cs, total, count, maxBytes, blocked);
      assert cs == [cs[0]] + cs[1..];
      if cs[0].path in blocked {
        EndsWithinBudget(cs[1..], total, count, maxBytes, blocked);
      } else {
        EndsWithinBudget(cs[1..], total - cs[0].size, count - 1, maxBytes, blocked);
        SumCons(cs[0], Reclaim(cs[1..], total - cs[0].size, count - 1, maxBytes, blocked));
      }
    }
  }

  /** It stops as soon as both limits hold, and otherwise only when every survivor is blocked. */
  lemma StopsExactly(cs: seq<Candidate>, total: int, count: int, maxBytes: int, blocked: set<string>)
    ensures var r := Reclaim(cs, total, count, maxBytes, blocked);
            && (r != [] ==> total - Sum(r[..|r| - 1]) > maxBytes || count - |r| + 1 > 1024)
            && (|| (total - Sum(r) <= maxBytes && count - |r| <= 1024)
                || forall c | c in cs :: c in r || c.path in blocked)
  {
    hide Sum; hide Reclaim;
    LastWasNeeded(cs, total, count, maxBytes, blocked);
    EndsWithinBudget(cs, total, count, maxBytes, blocked);
  }

  lemma HeadOut(cs: seq<Candidate>)
    requires cs != []
    ensures multiset(cs[1..]) == multiset(cs) - multiset{cs[0]} && cs[0] in multiset(cs)
            && Sum(cs) == cs[0].size + Sum(cs[1..])
  {
    assert cs == [cs[0]] + cs[1..];
  }

  /** The list without its first occurrence of `c`. */
  ghost function Minus(cs: seq<Candidate>, c: Candidate): (r: seq<Candidate>)
    requires c in cs
    ensures multiset(r) == multiset(cs) - multiset{c} && Sum(r) == Sum(cs) - c.size && |r| == |cs| - 1
  {
    assert cs == [cs[0]] + cs[1..];
    if cs[0] == c then cs[1..]
    else
      var r := [cs[0]] + Minus(cs[1..], c);
      assert r[1..] == Minus(cs[1..], c);
      r
  }

  /** A total splits over any division of the candidates. */
  lemma {:induction false} SumOfParts(cs: seq<Candidate>, a: seq<Candidate>, b: seq<Candidate>)
    requires multiset(cs) == multiset(a) + multiset(b)
    ensures Sum(cs) == Sum(a) + Sum(b) && |cs| == |a| + |b|
    decreases |cs|
  {
    if cs == [] {
      assert multiset(a) + multiset(b) == multiset{};
      assert |multiset(a)| == 0 && |multiset(b)| == 0;
    } else {
      hide Minus; hide Sum;
      var c := cs[0];
      HeadOut(cs);
      if c in multiset(a) {
        SumOfParts(cs[1..], Minus(a, c), b);
      } else {
        assert multiset(a) - multiset{c} == multiset(a);
        SumOfParts(cs[1..], a, Minus(b, c));
      }
    }
  }

  lemma {:induction false} DistinctCounts(cs: seq<Candidate>, c: Candidate)
    requires DistinctPaths(cs)
    ensures multiset(cs)[c] == if c in cs then 1 else 0
  {
    if cs == [] {
    } else {
      assert cs == [cs[0]] + cs[1..];
      DistinctCounts(cs[1..], c);
    }
  }

  lemma DistinctParts(cs: seq<Candidate>, a: seq<Candidate>, b: seq<Candidate>)
    requires DistinctPaths(cs) && DistinctPaths(a) && DistinctPaths(b)
    requires forall c :: c in a <==> c in cs && c !in b
    requires forall c :: c in b ==> c in cs
    ensures multiset(cs) == multiset(a) + multiset(b)
  {
    forall c ensures multiset(cs)[c] == multiset(a)[c] + multiset(b)[c] {
      DistinctCounts(cs, c);
      DistinctCounts(a, c);
      DistinctCounts(b, c);
    }
  }

  lemma {:induction false} AllBlocked(cs: seq<Candidate>, total: int, count: int, maxBytes: int, blocked: set<string>)
    requires forall c | c in cs :: c.path in blocked
    ensures Reclaim(cs, total, count, maxBytes, blocked) == []
  {
    if cs == [] {
    } else {
      AllBlocked(cs[1..], total, count, maxBytes, blocked);
    }
  }

  /**
   * Running it again removes nothing: whatever the order in which the second run
   * finds the survivors, and with the totals that run computes from them.
   */
  lemma ReclaimIsIdempotent(cs: seq<Candidate>, again: seq<Candidate>, maxBytes: int, blocked: set<string>)
    requires DistinctPaths(cs) && DistinctPaths(again)
    requires forall c :: c in again <==> c in cs && c !in Reclaim(cs, Sum(cs), |cs|, maxBytes, blocked)
    ensures Reclaim(again, Sum(again), |again|, maxBytes, blocked) == []
  {
    hide Reclaim; hide Sum; hide DistinctPaths;
    var r := Reclaim(cs, Sum(cs), |cs|, maxBytes, blocked);
    RemovesOldestEligible(cs, Sum(cs), |cs|, maxBytes, blocked);
    StopsExactly(cs, Sum(cs), |cs|, maxBytes, blocked);
    DistinctParts(cs, again, r);
    SumOfParts(cs, again, r);
    if WithinBudget(Sum(again), |again|, maxBytes) {
      ReclaimEnd(again, Sum(again), |again|, maxBytes, blocked);
    } else {
      AllBlocked(again, Sum(again), |again|, maxBytes, blocked);
    }
  }

  function Paths(cs: seq<Candidate>): set<string> {
    set c | c in cs :: c.path
  }

  lemma PathsAppend(cs: seq<Candidate>, c: Candidate)
    ensures Paths(cs + [c]) == Paths(cs) + {c.path}
  {
    forall p ensures p in Paths(cs + [c]) <==> p in Paths(cs) + {c.path} {
      if p in Paths(cs) { var x :| x in cs && x.path == p; assert x in cs + [c]; }
      assert c in cs + [c];
    }
  }

  lemma {:induction false} DistinctPathCount(cs: seq<Candidate>)
    requires DistinctPaths(cs)
    ensures |Paths(cs)| == |cs|
  {
    if cs == [] {
      assert Paths(cs) == {};
    } else {
      var n := |cs| - 1;
      DistinctPathCount(cs[..n]);
      assert cs == cs[..n] + [cs[n]];
      PathsAppend(cs[..n], cs[n]);
      assert cs[n].path !in Paths(cs[..n]);
    }
  }

  /** `cs` lists the partials, each once. */
  ghost predicate Listing(cs: seq<Candidate>, partials: map<string, Candidate>) {
    && |cs| == |partials| && DistinctPaths(cs)
    && forall i | 0 <= i < |cs| :: cs[i].path in partials && partials[cs[i].path] == cs[i]
  }

  /** A listing that names each entry once names all of them. */
  lemma ListingIsComplete(cs: seq<Candidate>, partials: map<string, Candidate>)
    requires Listing(cs, partials)
    ensures forall c: Candidate :: c in cs <==> c.path in partials && partials[c.path] == c
  {
    DistinctPathCount(cs);
    assert Paths(cs) <= partials.Keys;
    forall c: Candidate | c.path in partials && partials[c.path] == c ensures c in cs {
      assert c.path in Paths(cs) by {
        if c.path !in Paths(cs) { SubsetCardinality(Paths(cs) + {c.path}, partials.Keys); }
      }
      var x: Candidate :| x in cs && x.path == c.path;
      assert partials[x.path] == x;
    }
  }

  lemma RemovedByPath(order: seq<Candidate>, partials: map<string, Candidate>, r: seq<Candidate>, c: Candidate)
    requires Listing(order, partials) && (forall x | x in r :: x in order)
    requires c.path in partials && partials[c.path] == c
    ensures c.path in Paths(r) <==> c in r
  {
    if c.path in Paths(r) {
      var x :| x in r && x.path == c.path;
      assert x in order;
    }
  }

  lemma LeftoverMembers(order: seq<Candidate>, partials: map<string, Candidate>, r: seq<Candidate>, cs: seq<Candidate>)
    requires Listing(order, partials) && (forall c | c in r :: c in order) && Listing(cs, partials - Paths(r))
    ensures DistinctPaths(order) && DistinctPaths(cs)
    ensures forall c :: c in cs <==> c in order && c !in r
  {
    ListingIsComplete(order, partials);
    ListingIsComplete(cs, partials - Paths(r));
    hide Paths; hide DistinctPaths; hide Listing;
    forall c | c in order ensures c.path in Paths(r) <==> c in r { RemovedByPath(order, partials, r, c); }
  }

  /** The same for the directory: a second run with the same protection, over any listing of what is left. */
  lemma EnforcingAgainRemovesNothing(order: seq<Candidate>, again: seq<Candidate>, partials: map<string, Candidate>,
                                     maxBytes: int, blocked: set<string>)
    requires Listing(order, partials)
    requires Listing(again, partials - Paths(Reclaim(order, Sum(order), |order|, maxBytes, blocked)))
    ensures Reclaim(again, Sum(again), |again|, maxBytes, blocked) == []
  {
    hide Sum; hide Reclaim;
    var r := Reclaim(order, Sum(order), |order|, maxBytes, blocked);
    RemovesOldestEligible(order, Sum(order), |order|, maxBytes, blocked);
    LeftoverMembers(order, partials, r, again);
    ReclaimIsIdempotent(order, again, maxBytes, blocked);
  }

  // ----- the directory

  /** The removed candidates that were partials: their sidecars go with them. */
  function Partials(cs: seq<Candidate>): seq<Candidate> {
    if cs == [] then []
    else Partials(cs[..|cs| - 1]) + if cs[|cs| - 1].artifact then [] else [cs[|cs| - 1]]
  }

  lemma {:induction false} PartialsAre(cs: seq<Candidate>)
    ensures forall c :: c in Partials(cs) <==> c in cs && !c.artifact
  {
    if cs == [] {
    } else {
      var n := |cs| - 1;
      PartialsAre(cs[..n]);
      assert cs == cs[..n] + [cs[n]];
    }
  }

  lemma NothingDone(cs: seq<Candidate>)
    ensures Sum([]) == 0 && Paths([]) == {} && Paths(Partials([])) == {} && cs[0..] == cs
  {
  }

  lemma ReclaimStep(cs: seq<Candidate>, i: nat, total: int, count: int, maxBytes: int, blocked: set<string>,
                    done: seq<Candidate>)
    requires i < |cs| && !WithinBudget(total, count, maxBytes)
    ensures done + Reclaim(cs[i..], total, count, maxBytes, blocked)
         == if cs[i].path in blocked then done + Reclaim(cs[i + 1..], total, count, maxBytes, blocked)
            else done + [cs[i]] + Reclaim(cs[i + 1..], total - cs[i].size, count - 1, maxBytes, blocked)
  {
    assert cs[i..][0] == cs[i] && cs[i..][1..] == cs[i + 1..];
  }

  lemma {:induction false} SumAppend(cs: seq<Candidate>, c: Candidate)
    ensures Sum(cs + [c]) == Sum(cs) + c.size
  {
    if cs == [] {
    } else {
      assert (cs + [c])[1..] == cs[1..] + [c];
      SumAppend(cs[1..], c);
    }
  }

  lemma RemoveOne(done: seq<Candidate>, c: Candidate)
    ensures Sum(done + [c]) == Sum(done) + c.size
    ensures Paths(done + [c]) == Paths(done) + {c.path}
    ensures Paths(Partials(done + [c])) == Paths(Partials(done)) + if c.artifact then {} else {c.path}
  {
    SumAppend(done, c);
    assert (done + [c])[..|done|] == done;
    PathsAppend(done, c);
    PathsAppend(Partials(done), c);
    assert Partials(done) + [] == Partials(done);
  }

  method Collect(partials: map<string, Candidate>) returns (cs: seq<Candidate>)
    requires forall p | p in partials :: partials[p].path == p
    ensures Listing(cs, partials)
  {
    cs := [];
    var todo := partials.Keys;
    while todo != {}
      invariant todo <= partials.Keys && |cs| + |todo| == |partials|
      invariant forall i | 0 <= i < |cs| ::
                  cs[i].path in partials && cs[i].path !in todo && partials[cs[i].path] == cs[i]
      invariant DistinctPaths(cs)
      decreases todo
    {
      var p :| p in todo;
      cs := cs + [partials[p]];
      todo := todo - {p};
    }
  }

  method AddSizes(cs: seq<Candidate>) returns (total: int)
    ensures total == Sum(cs)
  {
    total := 0;
    for i := 0 to |cs|
      invariant total == Sum(cs[..i])
    {
      SumAppend(cs[..i], cs[i]);
      assert cs[..i + 1] == cs[..i] + [cs[i]];
      total := total + cs[i].size;
    }
    assert cs[..|cs|] == cs;
  }

  lemma SortedListing(cs: seq<Candidate>, partials: map<string, Candidate>)
    requires Listing(cs, partials) && Total(Before)
    ensures Listing(Sort(cs, Before), partials)
  {
    SortIsSortedPermutation(cs, Before);
    var s := Sort(cs, Before);
    forall i | 0 <= i < |s| ensures s[i].path in partials && partials[s[i].path] == s[i] { assert s[i] in s; }
  }

  /**
   * What is gone was not blocked, and went before everything that could still go:
   * it is older than each of those, or of the same time and first by path.
   */
  ghost predicate OldestWentFirst(before: map<string, Candidate>, after: map<string, Candidate>, blocked: set<string>) {
    && (forall p | p in after :: p in before && after[p] == before[p])
    && forall p | p in before && p !in after ::
         && p !in blocked
         && forall q | q in after && q !in blocked ::
              || before[p].modTime < before[q].modTime
              || (before[p].modTime == before[q].modTime && ComesFirst(p, q))
  }

  /** Every directory can be listed. */
  lemma SomeListing(partials: map<string, Candidate>) returns (cs: seq<Candidate>)
    requires forall p | p in partials :: partials[p].path == p
    ensures Listing(cs, partials)
    decreases |partials|
  {
    cs := [];
    if partials != map[] {
      var p :| p in partials;
      var rest := partials - {p};
      assert rest.Keys == partials.Keys - {p};
      cs := SomeListing(rest);
      assert |partials| == |rest| + 1;
      cs := cs + [partials[p]];
    }
  }

  /** What is left keeps to the budget, 8 GiB unless one is given, and to 1024 files, or cannot go. */
  ghost predicate KeepsBudget(after: map<string, Candidate>, maxBytes: int, blocked: set<string>) {
    || (forall p | p in after :: p in blocked)
    || (&& |after| <= 1024
        && forall cs | Listing(cs, after) :: Sum(cs) <= if maxBytes > 0 then maxBytes else 8_589_934_592)
  }

  lemma ListingIsDistinct(cs: seq<Candidate>, partials: map<string, Candidate>)
    requires Listing(cs, partials)
    ensures DistinctPaths(cs)
  {
  }

  /** Of two listed candidates the one that went was before the one that could have gone and stayed. */
  lemma WentBefore(order: seq<Candidate>, r: seq<Candidate>, c: Candidate, x: Candidate, blocked: set<string>)
    requires Sorted(order, Before) && c in order && x in order && c in r && x !in r && x.path !in blocked
    requires forall i, j | 0 <= i < j < |order| && order[j] in r && order[i].path !in blocked :: order[i] in r
    ensures c.modTime < x.modTime || (c.modTime == x.modTime && ComesFirst(c.path, x.path))
  {
    hide LexLe; hide ComesFirst;
    var i :| 0 <= i < |order| && order[i] == c;
    var j :| 0 <= j < |order| && order[j] == x;
    assert i < j && Before(order[i], order[j]);
    LexLeIff(c.path, x.path);
  }

  lemma ReclaimTakesOldest(order: seq<Candidate>, partials: map<string, Candidate>, maxBytes: int, blocked: set<string>)
    requires Listing(order, partials) && Sorted(order, Before) && forall p | p in partials :: partials[p].path == p
    ensures var r := Reclaim(order, Sum(order), |order|, maxBytes, blocked);
            OldestWentFirst(partials, partials - Paths(r), blocked)
  {
    hide Reclaim; hide ComesFirst; hide Sum; hide Paths; hide Listing; hide DistinctPaths; hide Sorted;
    ListingIsDistinct(order, partials);
    var r := Reclaim(order, Sum(order), |order|, maxBytes, blocked);
    RemovesOldestEligible(order, Sum(order), |order|, maxBytes, blocked);
    ListingIsComplete(order, partials);
    forall p | p in partials ensures p in Paths(r) <==> partials[p] in r {
      RemovedByPath(order, partials, r, partials[p]);
    }
    forall p, q | p in partials && p in Paths(r) && q in partials && q !in Paths(r) && q !in blocked
      ensures || partials[p].modTime < partials[q].modTime
              || (partials[p].modTime == partials[q].modTime && ComesFirst(p, q))
    {
      WentBefore(order, r, partials[p], partials[q], blocked);
    }
  }

  /** Whatever lists the directory without the removed files has their sizes and number less. */
  lemma LeftoverSums(order: seq<Candidate>, partials: map<string, Candidate>, r: seq<Candidate>, cs: seq<Candidate>)
    requires Listing(order, partials) && (forall c | c in r :: c in order) && DistinctPaths(r)
    requires Listing(cs, partials - Paths(r))
    ensures Sum(cs) == Sum(order) - Sum(r) && |cs| == |order| - |r|
  {
    hide Sum; hide Paths; hide DistinctPaths; hide Listing;
    LeftoverMembers(order, partials, r, cs);
    DistinctParts(order, cs, r);
    SumOfParts(order, cs, r);
  }

  lemma ReclaimKeepsBudget(order: seq<Candidate>, partials: map<string, Candidate>, maxBytes: int, blocked: set<string>)
    requires Listing(order, partials) && forall p | p in partials :: partials[p].path == p
    ensures var r := Reclaim(order, Sum(order), |order|, Budget(maxBytes), blocked);
            KeepsBudget(partials - Paths(r), maxBytes, blocked)
  {
    hide Reclaim; hide Sum; hide Paths; hide DistinctPaths;
    var r := Reclaim(order, Sum(order), |order|, Budget(maxBytes), blocked);
    var left := partials - Paths(r);
    RemovesOldestEligible(order, Sum(order), |order|, Budget(maxBytes), blocked);
    StopsExactly(order, Sum(order), |order|, Budget(maxBytes), blocked);
    if WithinBudget(Sum(order) - Sum(r), |order| - |r|, Budget(maxBytes)) {
      forall cs | Listing(cs, left) ensures Sum(cs) == Sum(order) - Sum(r) && |cs| == |order| - |r| {
        LeftoverSums(order, partials, r, cs);
      }
      var cs := SomeListing(left);
      assert |cs| == |left|;
    } else {
      ListingIsComplete(order, partials);
      forall p | p in left ensures p in blocked { RemovedByPath(order, partials, r, partials[p]); }
    }
  }

  /** Nothing went without need: with the last one back, the rest is above the budget or above 1024 files. */
  ghost predicate NeededToRemove(before: map<string, Candidate>, after: map<string, Candidate>, maxBytes: int) {
    after != before ==>
      exists p :: && p in before && p !in after
                  && forall cs | Listing(cs, after[p := before[p]]) ::
                    Sum(cs) > (if maxBytes > 0 then maxBytes else 8_589_934_592) || |cs| > 1024
  }

  lemma NoPaths()
    ensures Paths([]) == {}
  {
  }

  lemma DistinctFront(r: seq<Candidate>)
    requires r != [] && DistinctPaths(r)
    ensures DistinctPaths(r[..|r| - 1]) && forall c | c in r[..|r| - 1] :: c in r
  {
  }

  lemma LastComesBack(order: seq<Candidate>, partials: map<string, Candidate>, r: seq<Candidate>)
    requires r != [] && Listing(order, partials) && (forall c | c in r :: c in order) && DistinctPaths(r)
    ensures var front, last := r[..|r| - 1], r[|r| - 1];
            && last.path in partials && partials[last.path] == last && last.path !in partials - Paths(r)
            && partials - Paths(front) == (partials - Paths(r))[last.path := last]
  {
    var front, last := r[..|r| - 1], r[|r| - 1];
    ListingIsComplete(order, partials);
    assert last in r && r == front + [last];
    PathsAppend(front, last);
    assert last.path !in Paths(front);
  }

  /** The walk's last removal, seen from the directory. */
  lemma LastRemovalWasNeeded(order: seq<Candidate>, partials: map<string, Candidate>, maxBytes: int,
                             blocked: set<string>)
    requires Listing(order, partials) && forall p | p in partials :: partials[p].path == p
    ensures var r := Reclaim(order, Sum(order), |order|, Budget(maxBytes), blocked);
            NeededToRemove(partials, partials - Paths(r), maxBytes)
  {
    hide Reclaim; hide Sum; hide DistinctPaths; hide Listing; hide Paths;
    var r := Reclaim(order, Sum(order), |order|, Budget(maxBytes), blocked);
    var left := partials - Paths(r);
    RemovesOldestEligible(order, Sum(order), |order|, Budget(maxBytes), blocked) by {
      ListingIsDistinct(order, partials);
    }
    StopsExactly(order, Sum(order), |order|, Budget(maxBytes), blocked);
    if r == [] {
      NoPaths();
    } else {
      var front, last := r[..|r| - 1], r[|r| - 1];
      LastComesBack(order, partials, r);
      DistinctFront(r);
      forall cs | Listing(cs, left[last.path := last])
        ensures Sum(cs) > (if maxBytes > 0 then maxBytes else 8_589_934_592) || |cs| > 1024
      {
        LeftoverSums(order, partials, front, cs);
      }
    }
  }

  /** With a removed partial its sidecar goes; every other sidecar stays. */
  ghost predicate SidecarsFollow(before: map<string, Candidate>, after: map<string, Candidate>,
                                 sidecars: set<string>, left: set<string>) {
    forall p :: p in left <==> p in sidecars && !(p in before && p !in after && !before[p].artifact)
  }

  lemma SidecarsGoWithPartials(order: seq<Candidate>, partials: map<string, Candidate>, r: seq<Candidate>,
                               sidecars: set<string>)
    requires Listing(order, partials) && (forall c | c in r :: c in order)
    requires forall p | p in partials :: partials[p].path == p
    ensures SidecarsFollow(partials, partials - Paths(r), sidecars, sidecars - Paths(Partials(r)))
  {
    hide Partials; hide Listing;
    PartialsAre(r);
    ListingIsComplete(order, partials);
    forall p ensures p in Paths(Partials(r)) <==> p in partials && p in Paths(r) && !partials[p].artifact {
      if p in partials { RemovedByPath(order, partials, r, partials[p]); }
      if p in Paths(Partials(r)) { var c :| c in Partials(r) && c.path == p; assert c in order; }
    }
  }

  class StagingArea {
    var partials: map<string, Candidate>
    var sidecars: set<string>

    ghost predicate Valid()
      reads this
    {
      forall p | p in partials :: partials[p].path == p
    }

    constructor (partials: map<string, Candidate>, sidecars: set<string>)
      requires forall p | p in partials :: partials[p].path == p
      ensures Valid() && this.partials == partials && this.sidecars == sidecars
    {
      this.partials, this.sidecars := partials, sidecars;
    }

    /**
     * Removes the oldest partials until the budget holds. Protected and active
     * paths are skipped, and so is whatever the file system refuses to remove.
     * `order` is the candidate list, oldest first, that the walk follows.
     */
    method EnforcePartialBudget(maxBytes: int, protected: set<string>, active: set<string>, unremovable: set<string>)
      returns (removed: nat, freed: nat, ghost order: seq<Candidate>)
      requires Valid()
      modifies this
      ensures Valid()
      ensures Listing(order, old(partials)) && Sorted(order, Before)
      ensures OldestWentFirst(old(partials), partials, protected + active + unremovable)
      ensures KeepsBudget(partials, maxBytes, protected + active + unremovable)
      ensures NeededToRemove(old(partials), partials, maxBytes)
      ensures SidecarsFollow(old(partials), partials, old(sidecars), sidecars)
      ensures removed == |old(partials)| - |partials|
      ensures var r := Reclaim(order, Sum(order), |order|, Budget(maxBytes), protected + active + unremovable);
              && removed == |r| && freed == Sum(r)
              && partials == old(partials) - Paths(r)
              && sidecars == old(sidecars) - Paths(Partials(r))
    {
      var cs := Collect(partials);
      BeforeIsTotal();
      SortIsSortedPermutation(cs, Before);
      SortedListing(cs, partials);
      var sorted := Sort(cs, Before);
      order := sorted;
      ReclaimTakesOldest(order, partials, Budget(maxBytes), protected + active + unremovable);
      ReclaimKeepsBudget(order, partials, maxBytes, protected + active + unremovable);
      ghost var r := Reclaim(order, Sum(order), |order|, Budget(maxBytes), protected + active + unremovable);
      RemovesOldestEligible(order, Sum(order), |order|, Budget(maxBytes), protected + active + unremovable);
      SidecarsGoWithPartials(order, partials, r, sidecars);
      LastRemovalWasNeeded(order, partials, maxBytes, protected + active + unremovable);
      ghost var left := SomeListing(partials - Paths(r));
      LeftoverSums(order, partials, r, left);
      assert |left| == |partials - Paths(r)|;
      hide Reclaim; hide Sum; hide Paths; hide Partials; hide DistinctPaths; hide OldestWentFirst; hide KeepsBudget;
      hide SidecarsFollow; hide NeededToRemove; hide Sort; hide Before;
      removed, freed := Walk(sorted, Budget(maxBytes), protected, active, unremovable);
    }

    /** The greedy walk over the candidates, oldest first. */
    method Walk(sorted: seq<Candidate>, limit: int, protected: set<string>, active: set<string>,
                unremovable: set<string>)
      returns (removed: nat, freed: nat)
      requires Valid()
      modifies this
      ensures Valid()
      ensures var r := Reclaim(sorted, Sum(sorted), |sorted|, limit, protected + active + unremovable);
              && removed == |r| && freed == Sum(r)
              && partials == old(partials) - Paths(r)
              && sidecars == old(sidecars) - Paths(Partials(r))
    {
      hide Sum; hide Paths; hide Partials; hide Reclaim;
      var total := AddSizes(sorted);
      var remaining := |sorted|;
      ghost var blocked := protected + active + unremovable;
      ghost var plan := Reclaim(sorted, total, remaining, limit, blocked);
      ghost var done: seq<Candidate> := [];
      removed, freed := 0, 0;
      NothingDone(sorted);
      var i := 0;
      while i < |sorted| && !(total <= limit && remaining <= MAX_COUNT)
        invariant 0 <= i <= |sorted|
        invariant plan == done + Reclaim(sorted[i..], total, remaining, limit, blocked)
        invariant removed == |done| && freed == Sum(done)
        invariant partials == old(partials) - Paths(done) && sidecars == old(sidecars) - Paths(Partials(done))
      {
        var c := sorted[i];
        ReclaimStep(sorted, i, total, remaining, limit, blocked, done);
        i := i + 1;
        if c.path !in protected && c.path !in active && c.path !in unremovable {
          RemoveOne(done, c);
          partials := partials - {c.path};
          if !c.artifact { sidecars := sidecars - {c.path}; }
          removed, freed := removed + 1, freed + c.size;
          total, remaining := total - c.size, remaining - 1;
          done := done + [c];
        }
      }
      ReclaimEnd(sorted[i..], total, remaining, limit, blocked);
      assert plan == done;
    }
  }
}
