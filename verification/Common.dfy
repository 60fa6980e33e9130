/** Vocabulary shared by every component of the model. */
module Common {
  newtype byte = b: int | 0 <= b < 256

  type Bytes = seq<byte>

  /** A digest after hex decoding. */
  type Digest = seq<byte>

  /** The digest function (SHA-256 in the program) is a parameter of the model. */
  type HashFn = Bytes -> Digest

  datatype Option<+T> = None | Some(value: T)

  datatype Result<+T, +E> = Ok(value: T) | Err(error: E)

  function Min(a: int, b: int): int { if a <= b then a else b }

  function Max(a: int, b: int): int { if a >= b then a else b }

  /** Two different byte strings with one digest. */
  ghost predicate Collision(h: HashFn, a: Bytes, b: Bytes) {
    a != b && h(a) == h(b)
  }

  function FoldChar(c: char): char {
    if 'A' <= c <= 'Z' then (c - 'A') + 'a' else c
  }

  /** ASCII case folding, as strings.EqualFold compares identifiers. */
  function Fold(s: string): string {
    seq(|s|, i requires 0 <= i < |s| => FoldChar(s[i]))
  }

  /** Character by character the same letter, of either case, or the same other character. */
  ghost predicate EqualUpToCase(a: string, b: string) {
    && |a| == |b|
    && forall i | 0 <= i < |a| ::
      || a[i] == b[i]
      || ('A' <= a[i] <= 'Z' && b[i] as int == a[i] as int + 32)
      || ('A' <= b[i] <= 'Z' && a[i] as int == b[i] as int + 32)
  }

  lemma FoldIsEqualUpToCase(a: string, b: string)
    ensures Fold(a) == Fold(b) <==> EqualUpToCase(a, b)
  {
    assert |Fold(a)| == |a| && |Fold(b)| == |b|;
    if Fold(a) == Fold(b) {
      forall i | 0 <= i < |a| ensures FoldChar(a[i]) == FoldChar(b[i]) {
        assert Fold(a)[i] == Fold(b)[i];
      }
    }
  }

  lemma SubsetCardinality<T>(a: set<T>, b: set<T>)
    requires a <= b
    ensures |a| <= |b|
  {
    assert b == a + (b - a);
  }

  lemma PrefixExtends<T>(s: seq<T>, i: nat, j: nat)
    requires i <= j <= |s|
    ensures s[..i] + s[i..j] == s[..j]
  {
  }

  predicate IsSpace(c: char) { c == ' ' || '\t' <= c <= '\r' }

  /** strings.TrimSpace over ASCII white space. */
  function TrimSpace(s: string): (r: string)
    ensures r != "" ==> !IsSpace(r[0]) && !IsSpace(r[|r| - 1])
    decreases |s|
  {
    if s == "" then ""
    else if IsSpace(s[0]) then TrimSpace(s[1..])
    else if IsSpace(s[|s| - 1]) then TrimSpace(s[..|s| - 1])
    else s
  }

  /** A character that is neither a blank nor one of the five control characters from tab to carriage return. */
  predicate IsInk(c: char) { c != ' ' && !(9 <= c as int <= 13) }

  /** Between i and j lies everything from the first to the last character that is not white space. */
  ghost predicate IsCore(s: string, i: nat, j: nat) {
    && i <= j <= |s|
    && (forall k | 0 <= k < i || j <= k < |s| :: !IsInk(s[k]))
    && (i < j ==> IsInk(s[i]) && IsInk(s[j - 1]))
  }

  lemma CoreBehindBlank(s: string, i: nat, j: nat)
    requires s != "" && !IsInk(s[0]) && IsCore(s[1..], i, j)
    ensures IsCore(s, i + 1, j + 1) && s[i + 1..j + 1] == s[1..][i..j]
  {
    var rest := s[1..];
    assert forall k | 0 <= k < j - i :: s[i + 1..j + 1][k] == rest[i..j][k];
    assert i < j ==> s[i + 1] == rest[i] && s[j] == rest[j - 1];
    forall k | 0 <= k < i + 1 || j + 1 <= k < |s| ensures !IsInk(s[k]) { if k > 0 { assert s[k] == rest[k - 1]; } }
  }

  lemma CoreBeforeBlank(s: string, i: nat, j: nat)
    requires s != "" && !IsInk(s[|s| - 1]) && IsCore(s[..|s| - 1], i, j)
    ensures IsCore(s, i, j) && s[i..j] == s[..|s| - 1][i..j]
  {
    var front := s[..|s| - 1];
    assert forall k | 0 <= k < j - i :: s[i..j][k] == front[i..j][k];
    assert i < j ==> s[i] == front[i] && s[j - 1] == front[j - 1];
    forall k | 0 <= k < i || j <= k < |s| ensures !IsInk(s[k]) { if k < |s| - 1 { assert s[k] == front[k]; } }
  }

  lemma WholeIsCore(s: string)
    requires s != "" ==> IsInk(s[0]) && IsInk(s[|s| - 1])
    ensures IsCore(s, 0, |s|) && s[0..|s|] == s
  {
  }

  /** Trimming keeps exactly the text from the first to the last character that is not white space. */
  lemma {:induction false} TrimSpaceIsTheCore(s: string) returns (i: nat, j: nat)
    ensures IsCore(s, i, j) && TrimSpace(s) == s[i..j]
    decreases |s|
  {
    hide IsCore;
    if s == "" {
      i, j := 0, 0;
      WholeIsCore(s);
    } else if IsSpace(s[0]) {
      var a, b := TrimSpaceIsTheCore(s[1..]);
      CoreBehindBlank(s, a, b);
      i, j := a + 1, b + 1;
    } else if IsSpace(s[|s| - 1]) {
      var a, b := TrimSpaceIsTheCore(s[..|s| - 1]);
      CoreBeforeBlank(s, a, b);
      i, j := a, b;
    } else {
      i, j := 0, |s|;
      WholeIsCore(s);
    }
  }

  /** No character is left exactly if all are white space. */
  lemma TrimmedAwayIff(s: string)
    ensures TrimSpace(s) == "" <==> forall k | 0 <= k < |s| :: !IsInk(s[k])
  {
    var i, j := TrimSpaceIsTheCore(s);
  }
}

/** Stable sorting by a comparison, as the standard library's sort offers it. */
module Sorting {
  ghost predicate Sorted<T>(xs: seq<T>, le: (T, T) -> bool) {
    forall i, j | 0 <= i < j < |xs| :: le(xs[i], xs[j])
  }

  ghost predicate Total<T(!new)>(le: (T, T) -> bool) {
    && (forall a, b :: le(a, b) || le(b, a))
    && (forall a, b, c :: le(a, b) && le(b, c) ==> le(a, c))
  }

  function Insert<T>(x: T, xs: seq<T>, le: (T, T) -> bool): seq<T> {
    if xs == [] || le(x, xs[0]) then [x] + xs else [xs[0]] + Insert(x, xs[1..], le)
  }

  function Sort<T>(xs: seq<T>, le: (T, T) -> bool): seq<T> {
    if xs == [] then [] else Insert(xs[0], Sort(xs[1..], le), le)
  }

  ghost predicate Distinct<T>(xs: seq<T>) {
    forall i, j | 0 <= i < j < |xs| :: xs[i] != xs[j]
  }

  lemma {:induction false} InsertKeeps<T(!new)>(x: T, xs: seq<T>, le: (T, T) -> bool)
    requires Total(le) && Sorted(xs, le)
    ensures Sorted(Insert(x, xs, le), le)
    ensures |Insert(x, xs, le)| == |xs| + 1
    ensures forall y :: y in Insert(x, xs, le) <==> y == x || y in xs
    ensures x !in xs && Distinct(xs) ==> Distinct(Insert(x, xs, le))
  {
    if xs != [] && !le(x, xs[0]) {
      InsertKeeps(x, xs[1..], le);
      assert xs == [xs[0]] + xs[1..];
      var r := Insert(x, xs[1..], le);
      forall i | 0 <= i < |r| ensures le(xs[0], r[i]) && (xs[0] != x && Distinct(xs) ==> xs[0] != r[i]) {
        assert r[i] in r;
      }
    }
  }

  /** The result is in order and holds exactly the given elements, each once if they were distinct. */
  lemma {:induction false} SortIsSortedPermutation<T(!new)>(xs: seq<T>, le: (T, T) -> bool)
    requires Total(le)
    ensures Sorted(Sort(xs, le), le)
    ensures |Sort(xs, le)| == |xs|
    ensures forall y :: y in Sort(xs, le) <==> y in xs
    ensures Distinct(xs) ==> Distinct(Sort(xs, le))
  {
    if xs == [] {
    } else {
      SortIsSortedPermutation(xs[1..], le);
      InsertKeeps(xs[0], Sort(xs[1..], le), le);
      assert xs == [xs[0]] + xs[1..];
    }
  }
}
