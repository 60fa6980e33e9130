/** Reordering of command-line arguments so flags come first (cmd/tantu/args.go). */
module Args {
  import opened Common

  /** The flags that take their value from the next argument. */
  predicate IsValueFlag(f: string) {
    f in {
    "-transport", "--transport", "-t", "-listen", "--listen", "-l", "-peer", "--peer", "-p",
    "-port", "--port", "-web-port", "--web-port", "-web-addr", "--web-addr", "-store-dir", "--store-dir",
    "-output-dir", "--output-dir", "-o", "-timeout", "--timeout", "-ssh-host-key", "--ssh-host-key",
    "-ssh-authorized-key", "--ssh-authorized-key", "-ssh-key", "--ssh-key", "-ssh-user", "--ssh-user",
    "-ssh-host", "--ssh-host", "-ssh-port", "--ssh-port", "-bridge", "--bridge", "-b",
    "-fingerprint", "--fingerprint", "-f", "-name", "--name", "-n", "-bundle-path", "--bundle-path",
    "-idempotency-key", "--idempotency-key", "-ssh-fingerprint", "--ssh-fingerprint",
    "-ssh-known-hosts", "--ssh-known-hosts"
    }
  }

  predicate IsDash(a: string) { a != "" && a[0] == '-' }

  /** The flag expects its value as the next argument. */
  predicate TakesValue(a: string) { '=' !in a && IsValueFlag(a) }

  /** A flag, with the separate value it takes if there is one, or a positional argument. */
  datatype Token = Flag(words: seq<string>) | Positional(words: seq<string>)

  /** Whether the first argument is a flag followed by its separate value. */
  predicate TakesNext(args: seq<string>) {
    |args| > 1 && IsDash(args[0]) && TakesValue(args[0]) && !IsDash(args[1])
  }

  /** How the arguments before the first "--" are read, left to right. */
  function Tokens(args: seq<string>): seq<Token> {
    if args == [] || args[0] == "--" then []
    else if TakesNext(args) then [Flag(args[..2])] + Tokens(args[2..])
    else if IsDash(args[0]) then [Flag([args[0]])] + Tokens(args[1..])
    else [Positional([args[0]])] + Tokens(args[1..])
  }

  /** Everything from the first "--" on. */
  function Tail(args: seq<string>): seq<string> {
    if args == [] || args[0] == "--" then args else Tail(args[1..])
  }

  function Flat(ts: seq<Token>): seq<string> {
    if ts == [] then [] else ts[0].words + Flat(ts[1..])
  }

  function Flags(ts: seq<Token>): seq<Token> {
    if ts == [] then [] else if ts[0].Flag? then [ts[0]] + Flags(ts[1..]) else Flags(ts[1..])
  }

  function Positionals(ts: seq<Token>): seq<Token> {
    if ts == [] then [] else if ts[0].Flag? then Positionals(ts[1..]) else [ts[0]] + Positionals(ts[1..])
  }

  /** Stable partition: the flags with their values, the positionals, the untouched tail. */
  function Normalized(args: seq<string>): seq<string> {
    Flat(Flags(Tokens(args))) + Flat(Positionals(Tokens(args))) + Tail(args)
  }

  // ----- one step at a time

  ghost predicate WellFormedToken(t: Token) {
    match t
    case Positional(w) => |w| == 1 && !IsDash(w[0])
    case Flag(w) =>
      && 1 <= |w| <= 2 && IsDash(w[0]) && w[0] != "--"
      && (|w| == 2 ==> TakesValue(w[0]) && !IsDash(w[1]))
  }

  lemma Assoc(a: seq<string>, b: seq<string>, c: seq<string>)
    ensures a + b + c == a + (b + c)
  {
  }

  /** The first token read and what is read after it. */
  lemma NextToken(args: seq<string>) returns (n: nat, t: Token)
    requires args != [] && args[0] != "--"
    ensures n == (if TakesNext(args) then 2 else 1) && n <= |args|
    ensures t.words == args[..n] && t.Flag? == IsDash(args[0]) && WellFormedToken(t)
    ensures Tokens(args) == [t] + Tokens(args[n..]) && Tail(args) == Tail(args[n..])
  {
    hide TakesValue;
    n := if TakesNext(args) then 2 else 1;
    t := if IsDash(args[0]) then Flag(args[..n]) else Positional(args[..n]);
    assert args[..1] == [args[0]];
    assert n == 2 ==> args[1..][1..] == args[2..];
  }

  lemma FlatHead(t: Token, ts: seq<Token>)
    ensures Flat([t] + ts) == t.words + Flat(ts)
  {
    assert ([t] + ts)[1..] == ts;
  }

  function LeadingFlags(ts: seq<Token>): seq<Token> {
    if ts == [] || !ts[0].Flag? then [] else [ts[0]] + LeadingFlags(ts[1..])
  }

  lemma FilterHead(t: Token, ts: seq<Token>)
    ensures Flags([t] + ts) == if t.Flag? then [t] + Flags(ts) else Flags(ts)
    ensures Positionals([t] + ts) == if t.Flag? then Positionals(ts) else [t] + Positionals(ts)
    ensures LeadingFlags([t] + ts) == if t.Flag? then [t] + LeadingFlags(ts) else []
    ensures t.Flag? ==> Flat(Flags([t] + ts)) == t.words + Flat(Flags(ts))
    ensures t.Flag? ==> Flat(LeadingFlags([t] + ts)) == t.words + Flat(LeadingFlags(ts))
    ensures !t.Flag? ==> Flat(Positionals([t] + ts)) == t.words + Flat(Positionals(ts))
  {
    hide Flat;
    assert ([t] + ts)[1..] == ts;
    FlatHead(t, Flags(ts));
    FlatHead(t, Positionals(ts));
    FlatHead(t, LeadingFlags(ts));
  }

  // ----- the program's loops

  datatype Lists = Lists(flags: seq<string>, positionals: seq<string>, tail: seq<string>)

  /** The lists after the remaining arguments are handed out, on top of what was collected so far. */
  ghost function HandOut(args: seq<string>, flags: seq<string>, pos: seq<string>): Lists {
    if args == [] || args[0] == "--" then Lists(flags, pos, args)
    else if TakesNext(args) then HandOut(args[2..], flags + [args[0]] + [args[1]], pos)
    else if IsDash(args[0]) then HandOut(args[1..], flags + [args[0]], pos)
    else HandOut(args[1..], flags, pos + [args[0]])
  }

  lemma HandOutEnd(args: seq<string>, flags: seq<string>, pos: seq<string>)
    ensures args == [] || args[0] == "--" ==> HandOut(args, flags, pos) == Lists(flags, pos, args)
  {
  }

  lemma HandOutStep(args: seq<string>, i: nat, flags: seq<string>, pos: seq<string>)
    requires i < |args| && args[i] != "--"
    ensures HandOut(args[i..], flags, pos)
         == if IsDash(args[i]) && TakesValue(args[i]) && i + 1 < |args| && !IsDash(args[i + 1])
            then HandOut(args[i + 2..], flags + [args[i]] + [args[i + 1]], pos)
            else if IsDash(args[i]) then HandOut(args[i + 1..], flags + [args[i]], pos)
            else HandOut(args[i + 1..], flags, pos + [args[i]])
  {
    hide TakesValue;
    var rest := args[i..];
    assert rest[0] == args[i] && rest[1..] == args[i + 1..];
    assert |rest| > 1 ==> rest[1] == args[i + 1] && rest[2..] == args[i + 2..];
  }

  lemma NothingToRead(args: seq<string>)
    requires args == [] || args[0] == "--"
    ensures Tokens(args) == [] && Tail(args) == args
    ensures Flat([]) == [] && Flags([]) == [] && Positionals([]) == [] && LeadingFlags([]) == []
  {
  }

  /** Handing out one by one is the stable partition of the tokens. */
  lemma {:induction false} HandOutPartitions(args: seq<string>, flags: seq<string>, pos: seq<string>)
    ensures HandOut(args, flags, pos)
         == Lists(flags + Flat(Flags(Tokens(args))), pos + Flat(Positionals(Tokens(args))), Tail(args))
  {
    hide TakesValue, Tokens, Flags, Positionals, Tail, Flat;
    if args == [] || args[0] == "--" {
      NothingToRead(args);
      assert flags + [] == flags && pos + [] == pos;
    } else {
      var n, t := NextToken(args);
      var rest := args[n..];
      FilterHead(t, Tokens(rest));
      var fs, ps := Flat(Flags(Tokens(rest))), Flat(Positionals(Tokens(rest)));
      assert n == 1 ==> t.words == [args[0]];
      if n == 2 {
        assert flags + [args[0]] + [args[1]] == flags + t.words;
        HandOutPartitions(rest, flags + t.words, pos);
        Assoc(flags, t.words, fs);
      } else if IsDash(args[0]) {
        HandOutPartitions(rest, flags + t.words, pos);
        Assoc(flags, t.words, fs);
      } else {
        HandOutPartitions(rest, flags, pos + t.words);
        Assoc(pos, t.words, ps);
      }
    }
  }

  // ----- the partition, word by word

  ghost predicate StartsWithDash(a: string) { |a| > 0 && a[0] == '-' }

  /** The word is a flag, or the value of a flag right before it that takes one; the words themselves decide. */
  ghost predicate Belongs(args: seq<string>, i: nat)
    requires i < |args|
  {
    || StartsWithDash(args[i])
    || (i > 0 && IsValueFlag(args[i - 1]) && '=' !in args[i - 1] && !StartsWithDash(args[i]))
  }

  /** The first n words that belong to flags, or those that do not, in order. */
  ghost function Chosen(args: seq<string>, n: nat, flags: bool): seq<string>
    requires n <= |args|
  {
    if n == 0 then []
    else Chosen(args, n - 1, flags) + if Belongs(args, n - 1) == flags then [args[n - 1]] else []
  }

  /** n is where the first "--" stands, or the number of words. */
  ghost predicate IsEnd(args: seq<string>, n: nat) {
    n <= |args| && (n == |args| || args[n] == "--") && forall i | 0 <= i < n :: args[i] != "--"
  }

  /** The word at i is not the value of the flag before it. */
  ghost predicate Fresh(args: seq<string>, i: nat) {
    0 < i < |args| ==> !IsValueFlag(args[i - 1]) || '=' in args[i - 1] || StartsWithDash(args[i])
  }

  lemma ValueFlagsStartWithDash(a: string)
    requires IsValueFlag(a)
    ensures StartsWithDash(a)
  {
  }

  /** The first n words are all flags or values of flags. */
  ghost predicate Leading(args: seq<string>, n: nat) {
    n <= |args| && forall k | 0 <= k < n :: args[k] != "--" && Belongs(args, k)
  }

  lemma LeadingStep(args: seq<string>, n: nat)
    requires n < |args| && Leading(args, n)
    ensures args[n] != "--" && Belongs(args, n) ==> Leading(args, n + 1)
  {
  }

  lemma ChosenStep(args: seq<string>, n: nat)
    requires n < |args|
    ensures forall flags :: Chosen(args, n + 1, flags) ==
              if Belongs(args, n) == flags then Chosen(args, n, flags) + [args[n]] else Chosen(args, n, flags)
  {
    forall flags ensures Chosen(args, n, flags) + [] == Chosen(args, n, flags) {}
  }

  /** Which words the step at i takes. */
  lemma StepBelongs(args: seq<string>, i: nat)
    requires i < |args| && Fresh(args, i)
    ensures Belongs(args, i) <==> IsDash(args[i])
    ensures IsDash(args[i]) && TakesValue(args[i]) && i + 1 < |args| && !IsDash(args[i + 1]) ==>
              Belongs(args, i + 1) && Fresh(args, i + 2)
    ensures !(IsDash(args[i]) && TakesValue(args[i]) && i + 1 < |args| && !IsDash(args[i + 1])) ==> Fresh(args, i + 1)
  {
    hide IsValueFlag;
    if IsValueFlag(args[i]) { ValueFlagsStartWithDash(args[i]); }
    if i + 1 < |args| && IsValueFlag(args[i + 1]) { ValueFlagsStartWithDash(args[i + 1]); }
  }

  lemma {:induction false} HandsOutByWord(args: seq<string>, i: nat, n: nat)
    requires IsEnd(args, n) && i <= n && Fresh(args, i)
    ensures HandOut(args[i..], Chosen(args, i, true), Chosen(args, i, false))
         == Lists(Chosen(args, n, true), Chosen(args, n, false), args[n..])
    decreases n - i
  {
    hide IsValueFlag; hide TakesValue; hide Chosen; hide HandOut; hide Belongs; hide Fresh;
    if i == n {
      HandOutEnd(args[n..], Chosen(args, n, true), Chosen(args, n, false));
    } else {
      HandOutStep(args, i, Chosen(args, i, true), Chosen(args, i, false));
      StepBelongs(args, i);
      ChosenStep(args, i);
      if IsDash(args[i]) && TakesValue(args[i]) && i + 1 < |args| && !IsDash(args[i + 1]) {
        ChosenStep(args, i + 1);
        assert i + 1 != n;
        HandsOutByWord(args, i + 2, n);
      } else {
        HandsOutByWord(args, i + 1, n);
      }
    }
  }

  lemma NothingChosen(args: seq<string>)
    ensures Chosen(args, 0, true) == [] && Chosen(args, 0, false) == [] && Fresh(args, 0) && Leading(args, 0)
  {
  }

  /** What normalising gives: the words that belong to flags, those that do not, and everything from the first "--". */
  lemma NormalizedByWord(args: seq<string>, n: nat)
    requires IsEnd(args, n)
    ensures Normalized(args) == Chosen(args, n, true) + Chosen(args, n, false) + args[n..]
  {
    hide IsValueFlag; hide TakesValue; hide Chosen; hide HandOut; hide Tokens; hide Flat; hide Flags; hide Positionals;
    hide Tail; hide Fresh;
    NothingChosen(args);
    HandsOutByWord(args, 0, n);
    HandOutPartitions(args, [], []);
    assert args[0..] == args;
    assert [] + Flat(Flags(Tokens(args))) == Flat(Flags(Tokens(args)));
    assert [] + Flat(Positionals(Tokens(args))) == Flat(Positionals(Tokens(args)));
  }

  lemma EveryEnd(args: seq<string>)
    ensures forall n: nat | IsEnd(args, n) ::
              Normalized(args) == Chosen(args, n, true) + Chosen(args, n, false) + args[n..]
  {
    hide Chosen; hide Normalized;
    forall n: nat | IsEnd(args, n)
      ensures Normalized(args) == Chosen(args, n, true) + Chosen(args, n, false) + args[n..]
    {
      NormalizedByWord(args, n);
    }
  }

  /** The arguments after position `cut` that come before position `i`. */
  ghost function Behind(args: seq<string>, cut: nat, i: nat): seq<string>
    requires cut < i <= |args|
  {
    args[cut + 1..i]
  }

  lemma BehindIsEmpty(args: seq<string>, cut: nat)
    requires cut < |args|
    ensures Behind(args, cut, cut + 1) == []
  {
  }

  lemma BehindGrows(args: seq<string>, cut: nat, i: nat)
    requires cut < i < |args|
    ensures Behind(args, cut, i + 1) == Behind(args, cut, i) + [args[i]]
  {
  }

  lemma BehindIsAll(args: seq<string>, cut: nat)
    requires cut < |args|
    ensures args[cut..] == [args[cut]] + Behind(args, cut, |args|)
  {
  }

  /** NormalizeArgs: one pass that hands each argument to one of three lists. */
  method NormalizeArgs(args: seq<string>) returns (result: seq<string>)
    ensures result == Normalized(args)
    ensures forall n: nat | IsEnd(args, n) :: result == Chosen(args, n, true) + Chosen(args, n, false) + args[n..]
  {
    hide TakesValue, Tokens, Flat, Flags, Positionals, Tail, HandOut, TakesNext, Behind, Chosen;
    EveryEnd(args);
    HandOutPartitions(args, [], []);
    HandOutEnd(args, [], []);
    assert args[0..] == args;
    if |args| == 0 { return args; }
    var flags, pos, after: seq<string> := [], [], [];
    var hasDoubleDash := false;
    ghost var cut := |args|;
    var i := 0;
    while i < |args|
      invariant 0 <= i <= |args| && hasDoubleDash == (cut < |args|)
      invariant !hasDoubleDash ==> after == [] && HandOut(args, [], []) == HandOut(args[i..], flags, pos)
      invariant 0 <= cut && (hasDoubleDash ==> cut < i && args[cut] == "--" && after == Behind(args, cut, i))
      invariant hasDoubleDash ==> HandOut(args, [], []) == Lists(flags, pos, args[cut..])
    {
      var arg := args[i];
      if hasDoubleDash {
        BehindGrows(args, cut, i);
        after := after + [arg];
      } else if arg == "--" {
        HandOutEnd(args[i..], flags, pos);
        BehindIsEmpty(args, i);
        hasDoubleDash, cut := true, i;
      } else {
        HandOutStep(args, i, flags, pos);
        if IsDash(arg) {
          flags := flags + [arg];
          if TakesValue(arg) && i + 1 < |args| && !IsDash(args[i + 1]) {
            i := i + 1;
            flags := flags + [args[i]];
          }
        } else {
          pos := pos + [arg];
        }
      }
      i := i + 1;
    }
    result := flags + pos;
    if hasDoubleDash {
      result := result + ["--"] + after;
      BehindIsAll(args, cut);
    } else {
      HandOutEnd(args[i..], flags, pos);
      assert args[i..] == [];
    }
  }

  /** The leading flags, with their values, added to those collected so far. */
  ghost function TakeOff(args: seq<string>, flags: seq<string>): seq<string> {
    if args == [] || args[0] == "--" || !IsDash(args[0]) then flags
    else if TakesNext(args) then TakeOff(args[2..], flags + [args[0]] + [args[1]])
    else TakeOff(args[1..], flags + [args[0]])
  }

  lemma TakeOffStep(args: seq<string>, flags: seq<string>)
    ensures args == [] || args[0] == "--" || !IsDash(args[0]) ==> TakeOff(args, flags) == flags
    ensures args != [] && args[0] != "--" && IsDash(args[0]) ==>
              var n := if TakesNext(args) then 2 else 1;
              n <= |args| && TakeOff(args, flags) == TakeOff(args[n..], flags + args[..n])
  {
    hide TakesValue;
    if args != [] {
      var n := if TakesNext(args) then 2 else 1;
      assert flags + args[..n] == if n == 2 then flags + [args[0]] + [args[1]] else flags + [args[0]];
    }
  }

  lemma {:induction false} TakeOffLeads(args: seq<string>, flags: seq<string>)
    ensures TakeOff(args, flags) == flags + Flat(LeadingFlags(Tokens(args)))
  {
    hide TakesValue, Tokens, Flat, LeadingFlags, TakeOff, TakesNext;
    TakeOffStep(args, flags);
    if args == [] || args[0] == "--" {
      NothingToRead(args);
      assert flags + [] == flags;
    } else {
      var n, t := NextToken(args);
      var rest := Tokens(args[n..]);
      FilterHead(t, rest);
      if t.Flag? {
        TakeOffLeads(args[n..], flags + t.words);
        Assoc(flags, t.words, Flat(LeadingFlags(rest)));
      } else {
        NothingToRead([]);
        assert flags + [] == flags;
      }
    }
  }

  /** splitLeadingFlags: the leading flag block and the rest. */
  method SplitLeadingFlags(args: seq<string>) returns (flags: seq<string>, positionals: seq<string>)
    ensures flags + positionals == args
    ensures flags == Flat(LeadingFlags(Tokens(args)))
    ensures Leading(args, |flags|) && (|flags| < |args| ==> args[|flags|] == "--" || !Belongs(args, |flags|))
  {
    hide TakesValue, Tokens, Flat, LeadingFlags, IsValueFlag, Belongs, Fresh, Chosen, Leading;
    NothingChosen(args);
    TakeOffLeads(args, []);
    flags := [];
    var i := 0;
    while i < |args| && args[i] != "--" && IsDash(args[i])
      invariant 0 <= i <= |args| && flags == args[..i]
      invariant TakeOff(args, []) == TakeOff(args[i..], flags)
      invariant Fresh(args, i) && Leading(args, i)
    {
      LeadingStep(args, i);
      StepBelongs(args, i);
      assert args[i..][1..] == args[i + 1..];
      var arg := args[i];
      flags := flags + [arg];
      i := i + 1;
      if TakesValue(arg) && i < |args| && !IsDash(args[i]) {
        LeadingStep(args, i);
        assert args[i - 1..][2..] == args[i + 1..];
        flags := flags + [args[i]];
        i := i + 1;
      }
    }
    if i < |args| { StepBelongs(args, i); }
    return flags, args[i..];
  }

  // ----- nothing is lost

  /** The tokens and the tail are the arguments, in order. */
  lemma {:induction false} TokensCoverArgs(args: seq<string>)
    ensures Flat(Tokens(args)) + Tail(args) == args
  {
    hide TakesValue, Tokens, Tail, Flat;
    if args == [] || args[0] == "--" {
      NothingToRead(args);
      assert [] + args == args;
    } else {
      var n, t := NextToken(args);
      TokensCoverArgs(args[n..]);
      FlatHead(t, Tokens(args[n..]));
      Assoc(t.words, Flat(Tokens(args[n..])), Tail(args[n..]));
      assert args == args[..n] + args[n..];
    }
  }

  lemma {:induction false} PartitionIsPermutation(ts: seq<Token>)
    ensures multiset(Flat(Flags(ts))) + multiset(Flat(Positionals(ts))) == multiset(Flat(ts))
  {
    hide Flat, Flags, Positionals, LeadingFlags;
    if ts == [] {
      NothingToRead([]);
    } else {
      var t, rest := ts[0], ts[1..];
      PartitionIsPermutation(rest);
      assert ts == [t] + rest;
      FilterHead(t, rest);
      FlatHead(t, rest);
      assert multiset(t.words + Flat(rest)) == multiset(t.words) + multiset(Flat(rest));
    }
  }

  /** Normalising only moves arguments, and leaves everything from the first "--" where it is. */
  lemma NormalizedIsPermutation(args: seq<string>)
    ensures multiset(Normalized(args)) == multiset(args)
    ensures |Tail(args)| <= |Normalized(args)| && Normalized(args)[|Normalized(args)| - |Tail(args)|..] == Tail(args)
  {
    var ts := Tokens(args);
    TokensCoverArgs(args);
    PartitionIsPermutation(ts);
    var a, b, c := Flat(Flags(ts)), Flat(Positionals(ts)), Tail(args);
    assert multiset(a + b + c) == multiset(a) + multiset(b) + multiset(c);
    assert multiset(Flat(ts) + c) == multiset(Flat(ts)) + multiset(c);
  }

  // ----- reading the result again

  lemma {:induction false} TokensAreWellFormed(args: seq<string>)
    ensures forall t | t in Tokens(args) :: WellFormedToken(t)
  {
    hide TakesValue, WellFormedToken;
    if args == [] || args[0] == "--" {
    } else {
      var n, t := NextToken(args);
      TokensAreWellFormed(args[n..]);
    }
  }

  /** A flag that takes a value but stands alone, because no value followed it. */
  predicate IsLoneValueFlag(t: Token) { t.Flag? && |t.words| == 1 && TakesValue(t.words[0]) }

  predicate Swallows(fs: seq<Token>, ps: seq<Token>) { fs != [] && ps != [] && IsLoneValueFlag(fs[|fs| - 1]) }

  /** Hoisting puts a positional behind a value flag that had no value of its own. */
  predicate Dangling(args: seq<string>) { Swallows(Flags(Tokens(args)), Positionals(Tokens(args))) }

  lemma {:induction false} FilterKeeps(ts: seq<Token>)
    requires forall t | t in ts :: WellFormedToken(t)
    ensures forall t | t in Flags(ts) :: WellFormedToken(t) && t.Flag?
    ensures forall t | t in Positionals(ts) :: WellFormedToken(t) && t.Positional?
  {
    if ts == [] {
    } else {
      FilterKeeps(ts[1..]);
    }
  }

  lemma SeqAssoc(a: seq<Token>, b: seq<Token>, c: seq<Token>)
    ensures a + b + c == a + (b + c)
  {
  }

  lemma OneFlagReadBack(f: Token, behind: seq<string>)
    requires WellFormedToken(f) && f.Flag?
    requires IsLoneValueFlag(f) ==> behind == [] || IsDash(behind[0])
    ensures Tokens(f.words + behind) == [f] + Tokens(behind) && Tail(f.words + behind) == Tail(behind)
  {
    hide TakesValue;
    var args := f.words + behind;
    assert args[|f.words|..] == behind && args[..|f.words|] == f.words;
    if |f.words| == 2 { assert args[1..][1..] == behind && TakesNext(args); }
    else { assert !TakesNext(args) && f.words == [args[0]]; }
  }

  /** A flag block is read back as it was, if what follows cannot be taken as the last flag's value. */
  lemma {:induction false} FlagsReadBack(fs: seq<Token>, rest: seq<string>)
    requires forall t | t in fs :: WellFormedToken(t) && t.Flag?
    requires fs != [] && IsLoneValueFlag(fs[|fs| - 1]) ==> rest == [] || IsDash(rest[0])
    ensures Tokens(Flat(fs) + rest) == fs + Tokens(rest)
    ensures Tail(Flat(fs) + rest) == Tail(rest)
  {
    hide TakesValue, Tokens, Tail;
    if fs == [] {
      assert Flat(fs) + rest == rest;
    } else {
      var f, behind := fs[0], Flat(fs[1..]) + rest;
      assert f in fs && fs == [f] + fs[1..];
      FlagsReadBack(fs[1..], rest) by { assert |fs| > 1 ==> fs[1..][|fs| - 2] == fs[|fs| - 1]; }
      assert IsLoneValueFlag(f) ==> behind == [] || IsDash(behind[0]) by {
        hide IsDash;
        if |fs| > 1 {
          assert fs[1..] == [fs[1]] + fs[2..] && fs[1] in fs;
          FlatHead(fs[1], fs[2..]);
          assert behind[0] == fs[1].words[0];
        } else {
          assert behind == rest;
        }
      }
      OneFlagReadBack(f, behind);
      FlatHead(f, fs[1..]);
      Assoc(f.words, Flat(fs[1..]), rest);
      SeqAssoc([f], fs[1..], Tokens(rest));
    }
  }

  lemma {:induction false} PositionalsReadBack(ps: seq<Token>, tail: seq<string>)
    requires forall t | t in ps :: WellFormedToken(t) && t.Positional?
    requires tail == [] || tail[0] == "--"
    ensures Tokens(Flat(ps) + tail) == ps && Tail(Flat(ps) + tail) == tail
  {
    hide TakesValue;
    if ps == [] {
      assert Flat(ps) + tail == tail;
    } else {
      hide Flat, Tokens, Tail;
      var p, behind := ps[0], Flat(ps[1..]) + tail;
      assert p in ps && ps == [p] + ps[1..];
      PositionalsReadBack(ps[1..], tail);
      FlatHead(p, ps[1..]);
      Assoc(p.words, Flat(ps[1..]), tail);
      assert (p.words + behind)[..1] == p.words && (p.words + behind)[1..] == behind;
      var n, t := NextToken(p.words + behind);
      assert t == p;
    }
  }

  lemma {:induction false} FlatConcat(a: seq<Token>, b: seq<Token>)
    ensures Flat(a + b) == Flat(a) + Flat(b)
  {
    if a == [] {
      assert a + b == b && Flat(a) == [];
    } else {
      hide Flat;
      FlatConcat(a[1..], b);
      assert a == [a[0]] + a[1..] && a + b == [a[0]] + (a[1..] + b);
      FlatHead(a[0], a[1..]);
      FlatHead(a[0], a[1..] + b);
      Assoc(a[0].words, Flat(a[1..]), Flat(b));
    }
  }

  lemma {:induction false} PartitionOfSorted(fs: seq<Token>, ps: seq<Token>)
    requires (forall t | t in fs :: t.Flag?) && (forall t | t in ps :: t.Positional?)
    ensures Flags(fs + ps) == fs && Positionals(fs + ps) == ps && LeadingFlags(fs + ps) == fs
  {
    hide Flags, Positionals, LeadingFlags, Flat;
    if fs == [] && ps == [] {
      NothingToRead([]);
      assert fs + ps == [];
    } else if fs == [] {
      assert ps[0] in ps && ps == [ps[0]] + ps[1..];
      PartitionOfSorted([], ps[1..]);
      assert [] + ps[1..] == ps[1..] && [] + ps == ps;
      FilterHead(ps[0], ps[1..]);
    } else {
      assert fs[0] in fs && fs == [fs[0]] + fs[1..];
      PartitionOfSorted(fs[1..], ps);
      SeqAssoc([fs[0]], fs[1..], ps);
      FilterHead(fs[0], fs[1..] + ps);
    }
  }

  lemma {:induction false} TailStart(args: seq<string>)
    ensures Tail(args) == [] || Tail(args)[0] == "--"
  {
    if args == [] || args[0] == "--" {
    } else {
      TailStart(args[1..]);
    }
  }

  /** The flags of the normalised list when it is read again: a dangling last flag takes the first positional. */
  ghost function FlagsAgain(fs: seq<Token>, ps: seq<Token>): seq<Token> {
    if Swallows(fs, ps) then fs[..|fs| - 1] + [Flag(fs[|fs| - 1].words + ps[0].words)] else fs
  }

  ghost function PositionalsAgain(fs: seq<Token>, ps: seq<Token>): seq<Token> {
    if Swallows(fs, ps) then ps[1..] else ps
  }

  lemma FlatSnoc(ts: seq<Token>, t: Token)
    ensures Flat(ts + [t]) == Flat(ts) + t.words
  {
    FlatConcat(ts, [t]);
    assert [t] == [t] + [];
    FlatHead(t, []);
    assert t.words + [] == t.words;
  }

  /** Merging the last flag with the first positional changes where the flag block ends, not the words. */
  lemma MergeKeepsWords(fs: seq<Token>, ps: seq<Token>)
    requires forall t | t in fs :: WellFormedToken(t) && t.Flag?
    requires forall t | t in ps :: WellFormedToken(t) && t.Positional?
    ensures var fs', ps' := FlagsAgain(fs, ps), PositionalsAgain(fs, ps);
            && Flat(fs') + Flat(ps') == Flat(fs) + Flat(ps)
            && |Flat(fs')| == |Flat(fs)| + (if Swallows(fs, ps) then 1 else 0)
            && (forall t | t in fs' :: WellFormedToken(t) && t.Flag?)
            && (forall t | t in ps' :: WellFormedToken(t) && t.Positional?)
            && !Swallows(fs', ps')
  {
    hide TakesValue, Flat;
    if Swallows(fs, ps) {
      var n := |fs| - 1;
      var last, p := fs[n], ps[0];
      var merged := Flag(last.words + p.words);
      assert last in fs && p in ps && fs == fs[..n] + [last] && ps == [p] + ps[1..];
      assert merged.words[0] == last.words[0] && merged.words[1] == p.words[0];
      FlatSnoc(fs[..n], last);
      FlatSnoc(fs[..n], merged);
      FlatHead(p, ps[1..]);
      Assoc(Flat(fs[..n]), last.words, p.words);
      Assoc(Flat(fs[..n]) + last.words, p.words, Flat(ps[1..]));
    }
  }

  /** The normalised list is read as the same flags and positionals, except that a dangling flag takes a value. */
  lemma ReadAgain(args: seq<string>)
    ensures var fs, ps := Flags(Tokens(args)), Positionals(Tokens(args));
            && Tail(Normalized(args)) == Tail(args)
            && Tokens(Normalized(args)) == FlagsAgain(fs, ps) + PositionalsAgain(fs, ps)
            && Flags(Tokens(Normalized(args))) == LeadingFlags(Tokens(Normalized(args))) == FlagsAgain(fs, ps)
            && Positionals(Tokens(Normalized(args))) == PositionalsAgain(fs, ps)
  {
    hide TakesValue, Flat, Tokens, Flags, Positionals, LeadingFlags, FlagsAgain, PositionalsAgain;
    var fs, ps, tail := Flags(Tokens(args)), Positionals(Tokens(args)), Tail(args);
    var fs', ps' := FlagsAgain(fs, ps), PositionalsAgain(fs, ps);
    TokensAreWellFormed(args);
    FilterKeeps(Tokens(args));
    TailStart(args);
    MergeKeepsWords(fs, ps);
    assert Normalized(args) == Flat(fs') + (Flat(ps') + tail);
    PositionalsReadBack(ps', tail);
    assert ps' == [] ==> Flat(ps') + tail == tail by { NothingToRead([]); }
    FlagsReadBack(fs', Flat(ps') + tail);
    PartitionOfSorted(fs', ps');
  }

  /** Normalising twice is normalising once. */
  lemma NormalizeIsIdempotent(args: seq<string>)
    ensures Normalized(Normalized(args)) == Normalized(args)
  {
    hide TakesValue, Flat, Tokens, Flags, Positionals, LeadingFlags, FlagsAgain, PositionalsAgain, Tail;
    TokensAreWellFormed(args);
    FilterKeeps(Tokens(args));
    ReadAgain(args);
    MergeKeepsWords(Flags(Tokens(args)), Positionals(Tokens(args)));
  }

  /** The split separates exactly the flags from the positionals if and only if no flag is left dangling. */
  lemma SplitRecoversPartitionIff(args: seq<string>)
    ensures Flat(LeadingFlags(Tokens(Normalized(args)))) == Flat(Flags(Tokens(args))) <==> !Dangling(args)
  {
    hide TakesValue, Flat, Tokens, Flags, Positionals, LeadingFlags, PositionalsAgain, Tail;
    TokensAreWellFormed(args);
    FilterKeeps(Tokens(args));
    ReadAgain(args);
    MergeKeepsWords(Flags(Tokens(args)), Positionals(Tokens(args)));
  }

  /** The concrete case: a positional becomes the value of a flag that came after it. */
  lemma HoistingCanCaptureAPositional()
    ensures Normalized(["foo", "-p"]) == ["-p", "foo"] && Dangling(["foo", "-p"])
  {
    var args := ["foo", "-p"];
    assert args[1..] == ["-p"] && ["-p"][1..] == [];
    assert Tokens(["-p"]) == [Flag(["-p"])];
    assert Tokens(args) == [Positional(["foo"]), Flag(["-p"])];
    var ts := Tokens(args);
    assert ts[1..] == [Flag(["-p"])] && [Flag(["-p"])][1..] == [];
    assert Flags(ts[1..]) == [Flag(["-p"])] && Positionals(ts[1..]) == [];
    assert Flags(ts) == [Flag(["-p"])] && Positionals(ts) == [Positional(["foo"])];
    assert Flat([Flag(["-p"])]) == ["-p"] + Flat([Flag(["-p"])][1..]);
    assert Flat([Positional(["foo"])]) == ["foo"] + Flat([Positional(["foo"])][1..]);
    assert Tail(args[1..]) == Tail(["-p"][1..]) == [];
  }
}
