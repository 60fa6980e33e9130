/** Publication of a verified staging file (internal/hub/hub.go, internal/drop/staging.go, internal/drop/digest.go). */
module Publication {
  import opened Common
  import opened Files

  const TEMP_PREFIX: string := ".tantu-publish-"
  const TEMP_SUFFIX: string := ".tmp"
  const MAX_CANDIDATES: nat := 10000
  const COPY_BUFFER: nat := 32 * 1024

  // ----- names

  predicate IsHexDigit(c: char) { '0' <= c <= '9' || 'a' <= c <= 'f' }

  function HexDigit(n: int): char
    requires 0 <= n < 16
  {
    if n < 10 then '0' + n as char else 'a' + (n - 10) as char
  }

  function HexValue(c: char): int
    requires IsHexDigit(c)
  {
    if c <= '9' then c as int - '0' as int else c as int - 'a' as int + 10
  }

  function Hex(raw: Bytes): string {
    if raw == [] then "" else [HexDigit(raw[0] as int / 16), HexDigit(raw[0] as int % 16)] + Hex(raw[1..])
  }

  /** The name shape of a publication temporary: the prefix, 24 hexadecimal digits, the suffix. */
  predicate IsPublicationTempName(name: string) {
    && TEMP_PREFIX <= name
    && |name| == |TEMP_PREFIX| + 24 + |TEMP_SUFFIX|
    && name[|TEMP_PREFIX| + 24..] == TEMP_SUFFIX
    && forall i | |TEMP_PREFIX| <= i < |TEMP_PREFIX| + 24 :: IsHexDigit(name[i])
  }

  /** 43 characters: ".tantu-publish-", 24 lower-case hexadecimal digits, ".tmp". */
  lemma TempNameShape(name: string)
    ensures IsPublicationTempName(name) <==>
              && |name| == 43 && name[..15] == ".tantu-publish-" && name[39..] == ".tmp"
              && forall i | 15 <= i < 39 :: '0' <= name[i] <= '9' || 'a' <= name[i] <= 'f'
  {
  }

  function TempName(raw: Bytes): string { TEMP_PREFIX + Hex(raw) + TEMP_SUFFIX }

  lemma {:induction false} HexShape(raw: Bytes)
    ensures |Hex(raw)| == 2 * |raw| && forall i | 0 <= i < |Hex(raw)| :: IsHexDigit(Hex(raw)[i])
  {
    if raw == [] {
    } else {
      HexShape(raw[1..]);
    }
  }

  function Unhex(s: string): Bytes
    requires |s| % 2 == 0 && forall i | 0 <= i < |s| :: IsHexDigit(s[i])
  {
    if s == "" then [] else [(HexValue(s[0]) * 16 + HexValue(s[1])) as byte] + Unhex(s[2..])
  }

  /** A byte is its two digits. */
  lemma DigitsRoundTrip(a: char, b: char)
    requires IsHexDigit(a) && IsHexDigit(b)
    ensures 0 <= HexValue(a) < 16 && 0 <= HexValue(b) < 16
    ensures var n := HexValue(a) * 16 + HexValue(b); n / 16 == HexValue(a) && n % 16 == HexValue(b)
    ensures HexDigit(HexValue(a)) == a && HexDigit(HexValue(b)) == b
  {
  }

  lemma {:induction false} HexOfUnhex(s: string)
    requires |s| % 2 == 0 && forall i | 0 <= i < |s| :: IsHexDigit(s[i])
    ensures Hex(Unhex(s)) == s && |Unhex(s)| == |s| / 2
  {
    if s == "" {
    } else {
      hide HexValue; hide HexDigit;
      HexOfUnhex(s[2..]);
      DigitsRoundTrip(s[0], s[1]);
      assert Unhex(s)[1..] == Unhex(s[2..]);
      assert s == [s[0], s[1]] + s[2..];
    }
  }

  lemma GeneratedIsRecognised(raw: Bytes)
    requires |raw| == 12
    ensures IsPublicationTempName(TempName(raw))
  {
    HexShape(raw);
    var name := TempName(raw);
    forall i | |TEMP_PREFIX| <= i < |TEMP_PREFIX| + 24 ensures IsHexDigit(name[i]) {
      assert name[i] == Hex(raw)[i - |TEMP_PREFIX|];
    }
  }

  /** The recognised names are exactly the generated ones. */
  lemma TempNamesAreGenerated(name: string)
    ensures IsPublicationTempName(name) <==> exists raw: Bytes :: |raw| == 12 && name == TempName(raw)
  {
    hide Hex; hide Unhex;
    if IsPublicationTempName(name) {
      var digits := name[|TEMP_PREFIX|..|TEMP_PREFIX| + 24];
      HexOfUnhex(digits);
      assert name == TempName(Unhex(digits));
    }
    forall raw: Bytes | |raw| == 12 && name == TempName(raw) ensures IsPublicationTempName(name) {
      GeneratedIsRecognised(raw);
    }
  }

  function Decimal(n: nat): string {
    if n < 10 then ['0' + n as char] else Decimal(n / 10) + ['0' + (n % 10) as char]
  }

  /** The i-th name tried for `base` + `ext`. */
  function CandidateName(base: string, ext: string, i: nat): string {
    if i == 0 then base + ext else base + " (" + Decimal(i) + ")" + ext
  }

  /** The number that a row of decimal digits stands for. */
  ghost function ValueOf(digits: string): int {
    if digits == "" then 0 else ValueOf(digits[..|digits| - 1]) * 10 + (digits[|digits| - 1] as int - '0' as int)
  }

  /** Digits without a leading zero, standing for the number. */
  lemma {:induction false} DecimalStandsFor(n: nat)
    ensures var d := Decimal(n);
            && d != "" && ValueOf(d) == n && (forall i | 0 <= i < |d| :: '0' <= d[i] <= '9')
            && (n > 0 ==> d[0] != '0')
  {
    var d := Decimal(n);
    if n < 10 {
      assert d[..0] == "";
    } else {
      DecimalStandsFor(n / 10);
      assert d[..|d| - 1] == Decimal(n / 10);
    }
  }

  /** The names tried are all different. */
  lemma CandidatesDiffer(base: string, ext: string, i: nat, j: nat)
    ensures CandidateName(base, ext, i) == CandidateName(base, ext, j) ==> i == j
  {
    hide Decimal;
    var a, b := CandidateName(base, ext, i), CandidateName(base, ext, j);
    DecimalStandsFor(i);
    DecimalStandsFor(j);
    if a == b && i > 0 && j > 0 {
      var m := |base| + 2;
      assert |Decimal(i)| == |Decimal(j)|;
      assert Decimal(i) == a[m..m + |Decimal(i)|] == b[m..m + |Decimal(j)|] == Decimal(j);
    }
  }

  /** The first name is the plain one; the i-th later one has its number in parentheses before the extension. */
  lemma CandidateIsNumbered(base: string, ext: string, i: nat) returns (digits: string)
    ensures CandidateName(base, ext, i) == if i == 0 then base + ext else base + " (" + digits + ")" + ext
    ensures digits != "" && ValueOf(digits) == i && (forall k | 0 <= k < |digits| :: '0' <= digits[k] <= '9')
    ensures i > 0 ==> digits[0] != '0'
  {
    digits := Decimal(i);
    DecimalStandsFor(i);
  }

  /** The random bytes of one temporary name. */
  type Draw = b: Bytes | |b| == 12 witness Zeros(12)

  // ----- the directory

  type Listing = map<string, Bytes>

  /** How the next file-system call misbehaves, if it does; Short lets through some bytes of a write. */
  datatype Fault = Fine | Fails | SaysExists | Short(n: nat)

  datatype Status = Done | Exists | Broken

  /** The output directory under one writer. `trace` is every state it has been in. */
  class Directory {
    var files: Listing
    var faults: seq<Fault>
    ghost var trace: seq<Listing>

    constructor (files: Listing, faults: seq<Fault>)
      ensures this.files == files && this.faults == faults && trace == [files]
    {
      this.files, this.faults, trace := files, faults, [files];
    }

    method NextFault() returns (f: Fault)
      modifies this`faults
      ensures old(faults) == [] ==> faults == [] && f == Fine
    {
      if faults == [] { return Fine; }
      f := faults[0];
      faults := faults[1..];
    }

    /** Whether the name exists; Broken when the call itself fails. */
    method Lstat(name: string) returns (s: Status)
      modifies this`faults
      ensures (s == Exists ==> name in files) && (s == Done ==> name !in files)
      ensures old(faults) == [] ==> faults == [] && s != Broken
    {
      var f := NextFault();
      if f == Fails { return Broken; }
      s := if name in files then Exists else Done;
    }

    /** Renaming replaces an existing target. */
    method Rename(from: string, target: string) returns (s: Status)
      requires from in files
      modifies this
      ensures files == (if s == Done then (old(files) - {from})[target := old(files)[from]] else old(files))
      ensures trace == if s == Done then old(trace) + [files] else old(trace)
      ensures old(faults) == [] ==> faults == [] && s == Done
    {
      var f := NextFault();
      if f == Fails { return Broken; }
      if f == SaysExists { return Exists; }
      files := (files - {from})[target := files[from]];
      trace := trace + [files];
      return Done;
    }

    method CreateExclusive(name: string) returns (s: Status)
      modifies this
      ensures s == Done ==> name !in old(files)
      ensures files == (if s == Done then old(files)[name := []] else old(files))
      ensures trace == if s == Done then old(trace) + [files] else old(trace)
      ensures old(faults) == [] ==> faults == [] && (s == Done <==> name !in old(files))
    {
      var f := NextFault();
      if f == Fails { return Broken; }
      if f == SaysExists || name in files { return Exists; }
      files := files[name := []];
      trace := trace + [files];
      return Done;
    }

    /** Appends `data`, or a part of it when the write comes up short. */
    method Append(name: string, data: Bytes) returns (s: Status)
      requires name in files
      modifies this
      ensures files.Keys == old(files.Keys) && trace == old(trace) + [files]
      ensures forall n | n in files && n != name :: files[n] == old(files)[n]
      ensures s == Done ==> files[name] == old(files)[name] + data
      ensures s != Exists
      ensures old(faults) == [] ==> faults == [] && s == Done
    {
      var f := NextFault();
      match f {
        case Fine | SaysExists => files := files[name := files[name] + data]; s := Done;
        case Fails => s := Broken;
        case Short(n) => files := files[name := files[name] + data[..Min(n, |data|)]]; s := Broken;
      }
      trace := trace + [files];
    }

    /** Removal is best effort. */
    method Remove(name: string)
      modifies this
      ensures files == old(files) || files == old(files) - {name}
      ensures trace == old(trace) + [files]
      ensures old(faults) == [] ==> faults == []
    {
      var f := NextFault();
      if f != Fails { files := files - {name}; }
      trace := trace + [files];
    }
  }

  // ----- safety at every crash point

  /**
   * A state that may be left behind by a crash: every earlier name but the
   * partial's holds its bytes, the partial is whole if it is there, and a new
   * name is a reclaimable temporary or the delivered name with the full content.
   */
  ghost predicate CrashSafe(start: Listing, now: Listing, part: string, content: Bytes, delivered: Option<string>) {
    && (forall n | n in start && n != part :: n in now && now[n] == start[n])
    && (part in now ==> now[part] == content)
    && (forall n | n in now && n !in start :: IsPublicationTempName(n) || (delivered == Some(n) && now[n] == content))
  }

  ghost predicate AllSafe(trace: seq<Listing>, since: nat, start: Listing, part: string, content: Bytes,
                          delivered: Option<string>) {
    since <= |trace| && forall i | since <= i < |trace| :: CrashSafe(start, trace[i], part, content, delivered)
  }

  /** The situation between two tries: nothing delivered, the partial in place. */
  ghost predicate Undelivered(d: Directory, since: nat, start: Listing, part: string, content: Bytes)
    reads d
  {
    && part in start && part in d.files && since <= |d.trace|
    && CrashSafe(start, d.files, part, content, None)
    && AllSafe(d.trace, since, start, part, content, None)
  }

  lemma DeliveryStaysSafe(trace: seq<Listing>, since: nat, start: Listing, part: string, content: Bytes, name: string)
    requires AllSafe(trace, since, start, part, content, None)
    ensures AllSafe(trace, since, start, part, content, Some(name))
  {
    forall i | since <= i < |trace| ensures CrashSafe(start, trace[i], part, content, Some(name)) {
      assert CrashSafe(start, trace[i], part, content, None);
    }
  }

  ghost predicate AllTaken(files: Listing, random: nat -> Option<Draw>, n: nat) {
    forall i: nat | i < n :: random(i).Some? && TempName(random(i).value) in files
  }

  /** No name can be drawn: every draw before one that fails, or before the 65th, is of a name that is taken. */
  ghost predicate NamesRunOut(files: Listing, random: nat -> Option<Draw>) {
    exists n: nat :: n <= 64 && (n == 64 || random(n).None?) && AllTaken(files, random, n)
  }

  lemma NoNameLeft(files: Listing, random: nat -> Option<Draw>, n: nat)
    requires n <= 64 && (n == 64 || random(n).None?) && AllTaken(files, random, n)
    ensures NamesRunOut(files, random)
  {
  }

  lemma NameLeft(files: Listing, random: nat -> Option<Draw>, n: nat)
    requires n < 64 && random(n).Some? && TempName(random(n).value) !in files && AllTaken(files, random, n)
    ensures !NamesRunOut(files, random)
  {
    hide TempName;
    forall m: nat | m <= 64 && (m == 64 || random(m).None?) ensures !AllTaken(files, random, m) { assert m > n; }
  }

  /** Finds an unused temporary name; `random(i)` is the i-th draw, None if the source of randomness fails. */
  method NewPublicationTempName(d: Directory, random: nat -> Option<Draw>) returns (r: Option<string>)
    modifies d`faults
    ensures r.Some? ==> IsPublicationTempName(r.value) && r.value !in d.files
    ensures old(d.faults) == [] ==> d.faults == [] && (r.None? <==> NamesRunOut(d.files, random))
  {
    hide NamesRunOut; hide IsPublicationTempName; hide TempName;
    var i := 0;
    while i < 64
      invariant 0 <= i <= 64 && (old(d.faults) == [] ==> d.faults == [] && AllTaken(d.files, random, i))
    {
      var raw := random(i);
      if raw.None? {
        if d.faults == [] && AllTaken(d.files, random, i) { NoNameLeft(d.files, random, i); }
        return None;
      }
      var name := TempName(raw.value);
      GeneratedIsRecognised(raw.value);
      var s := d.Lstat(name);
      if s == Broken { return None; }
      if s == Done {
        if AllTaken(d.files, random, i) { NameLeft(d.files, random, i); }
        return Some(name);
      }
      i := i + 1;
    }
    if AllTaken(d.files, random, 64) { NoNameLeft(d.files, random, 64); }
    return None;
  }

  lemma StaysSafe(trace: seq<Listing>, now: Listing, since: nat, start: Listing, part: string, content: Bytes)
    requires AllSafe(trace, since, start, part, content, None) && CrashSafe(start, now, part, content, None)
    ensures AllSafe(trace + [now], since, start, part, content, None)
  {
  }

  /** Creating, changing or removing only a new temporary keeps a state safe. */
  lemma TempChangeIsSafe(start: Listing, before: Listing, now: Listing, part: string, content: Bytes, temp: string)
    requires part in start && CrashSafe(start, before, part, content, None)
    requires temp !in start && IsPublicationTempName(temp)
    requires forall n | n in before && n != temp :: n in now && now[n] == before[n]
    requires forall n | n in now && n != temp :: n in before
    ensures CrashSafe(start, now, part, content, None)
  {
  }

  /** Copies the source into the temporary in buffer-sized pieces. */
  method CopyInto(d: Directory, temp: string, content: Bytes, ghost since: nat, ghost start: Listing, part: string)
    returns (ok: bool, hashed: Bytes)
    requires Undelivered(d, since, start, part, content)
    requires temp in d.files && d.files[temp] == [] && temp !in start && IsPublicationTempName(temp)
    modifies d
    ensures Undelivered(d, since, start, part, content) && temp in d.files
    ensures d.files.Keys == old(d.files.Keys)
    ensures ok ==> d.files[temp] == content == hashed
    ensures old(d.faults) == [] ==> d.faults == [] && ok
  {
    hide CrashSafe; hide AllSafe; hide IsPublicationTempName;
    hashed := [];
    while |hashed| < |content|
      invariant Undelivered(d, since, start, part, content) && temp in d.files
      invariant d.files.Keys == old(d.files.Keys) && (old(d.faults) == [] ==> d.faults == [])
      invariant |hashed| <= |content| && hashed == content[..|hashed|] && d.files[temp] == hashed
    {
      var n := Min(COPY_BUFFER, |content| - |hashed|);
      var piece := content[|hashed|..|hashed| + n];
      ghost var before := d.files;
      ghost var trace := d.trace;
      var s := d.Append(temp, piece);
      TempChangeIsSafe(start, before, d.files, part, content, temp);
      StaysSafe(trace, d.files, since, start, part, content);
      if s == Broken { return false, hashed; }
      PrefixExtends(content, |hashed|, |hashed| + n);
      hashed := hashed + piece;
    }
    ok := true;
  }

  datatype PublishError = SizeMismatch | DigestMismatch | NameTaken | IoError | TooManyCandidates

  /** Moves a finished temporary to its final name; anything but a generated temporary is refused. */
  method PublishStagedFile(d: Directory, temp: string, final: string) returns (s: Status)
    requires temp in d.files
    modifies d
    ensures s == Done ==> IsPublicationTempName(temp)
    ensures d.files == (if s == Done then (old(d.files) - {temp})[final := old(d.files)[temp]] else old(d.files))
    ensures d.trace == if s == Done then old(d.trace) + [d.files] else old(d.trace)
    ensures old(d.faults) == [] ==> d.faults == [] && (s == Done <==> IsPublicationTempName(temp)) && s != Exists
  {
    if !IsPublicationTempName(temp) { return Broken; }
    s := d.Rename(temp, final);
  }

  method RemoveTemp(d: Directory, temp: string, part: string, content: Bytes, final: string, ghost since: nat,
                    ghost start: Listing)
    requires Undelivered(d, since, start, part, content) && final !in d.files
    requires temp !in start && IsPublicationTempName(temp)
    modifies d
    ensures Undelivered(d, since, start, part, content) && final !in d.files
    ensures old(d.faults) == [] ==> d.faults == []
  {
    ghost var before := d.files;
    d.Remove(temp);
    assert temp != part;
    TempChangeIsSafe(start, before, d.files, part, content, temp);
  }

  /** Creates the temporary, fills it, and checks the count and digest of what was written. */
  method WriteTemp(h: HashFn, d: Directory, content: Bytes, sha: Option<Digest>, size: int, random: nat -> Option<Draw>,
                   part: string, final: string, ghost since: nat, ghost start: Listing)
    returns (r: Result<string, PublishError>)
    requires Undelivered(d, since, start, part, content) && final !in d.files && !IsPublicationTempName(final)
    modifies d
    ensures Undelivered(d, since, start, part, content) && final !in d.files
    ensures r.Ok? ==>
              && r.value in d.files && d.files[r.value] == content && r.value !in start
              && IsPublicationTempName(r.value)
    ensures r.Ok? ==> (size > 0 ==> |content| == size) && (sha.Some? ==> h(content) == sha.value)
    ensures old(d.faults) == [] ==>
              && d.faults == []
              && (r.Err? ==>
                    || (r == Err(IoError) && NamesRunOut(old(d.files), random))
                    || (size > 0 && |content| != size) || (sha.Some? && h(content) != sha.value))
              && (r.Ok? ==> !NamesRunOut(old(d.files), random))
  {
    hide IsPublicationTempName; hide NamesRunOut;
    var temp := NewPublicationTempName(d, random);
    if temp.None? { return Err(IoError); }
    var name := temp.value;
    ghost var before := d.files;
    var s := d.CreateExclusive(name);
    if s == Exists { return Err(NameTaken); }
    if s == Broken { return Err(IoError); }
    TempChangeIsSafe(start, before, d.files, part, content, name);
    var ok, hashed := CopyInto(d, name, content, since, start, part);
    var error := if !ok then Some(IoError)
                 else if size > 0 && |hashed| != size then Some(SizeMismatch)
                 else if sha.Some? && h(hashed) != sha.value then Some(DigestMismatch) else None;
    if error.Some? {
      RemoveTemp(d, name, part, content, final, since, start);
      return Err(error.value);
    }
    return Ok(name);
  }

  /** The delivered name holds the content, and every state on the way was safe. */
  ghost predicate Delivered(d: Directory, since: nat, start: Listing, part: string, content: Bytes, final: string)
    reads d
  {
    && final !in start && final in d.files && d.files[final] == content && since <= |d.trace|
    && CrashSafe(start, d.files, part, content, Some(final))
    && AllSafe(d.trace, since, start, part, content, Some(final))
  }

  /** The verified copy through a hidden temporary, then one rename. */
  method PublishViaTemp(h: HashFn, d: Directory, content: Bytes, final: string, sha: Option<Digest>, size: int,
                        random: nat -> Option<Draw>, part: string, ghost since: nat, ghost start: Listing)
    returns (e: Option<PublishError>)
    requires Undelivered(d, since, start, part, content) && final !in d.files && !IsPublicationTempName(final)
    modifies d
    ensures e.Some? ==> Undelivered(d, since, start, part, content) && final !in d.files
    ensures e.None? ==> Delivered(d, since, start, part, content, final) && part in d.files
    ensures e.None? ==> (size > 0 ==> |content| == size) && (sha.Some? ==> h(content) == sha.value)
    ensures old(d.faults) == [] ==>
              && d.faults == []
              && (e.Some? ==>
                    || (e == Some(IoError) && NamesRunOut(old(d.files), random))
                    || (size > 0 && |content| != size) || (sha.Some? && h(content) != sha.value))
              && (e.None? ==> !NamesRunOut(old(d.files), random))
  {
    hide NamesRunOut;
    var temp := WriteTemp(h, d, content, sha, size, random, part, final, since, start);
    if temp.Err? { return Some(temp.error); }
    var s := PublishStagedFile(d, temp.value, final);
    if s != Done {
      RemoveTemp(d, temp.value, part, content, final, since, start);
      return Some(if s == Exists then NameTaken else IoError);
    }
    DeliveryStaysSafe(d.trace[..|d.trace| - 1], since, start, part, content, final);
    return None;
  }

  /** Renames the partial into place unless the name is taken; false means the caller must copy. */
  method PublishFromStaging(d: Directory, part: string, final: string, content: Bytes, sameRoot: bool,
                            ghost since: nat, ghost start: Listing)
    returns (s: Status, ok: bool)
    requires Undelivered(d, since, start, part, content) && final !in d.files && final != part
    modifies d
    ensures ok ==> s == Done && Delivered(d, since, start, part, content, final) && part !in d.files
    ensures !ok ==> Undelivered(d, since, start, part, content) && d.files == old(d.files)
    ensures old(d.faults) == [] ==> d.faults == [] && s == Done && ok == sameRoot
  {
    if !sameRoot { return Done, false; }
    s := d.Lstat(final);
    if s != Done { return s, false; }
    s := d.Rename(part, final);
    if s == Exists { return Exists, false; }
    if s == Broken { return Done, false; }
    DeliveryStaysSafe(d.trace[..|d.trace| - 1], since, start, part, content, final);
    return Done, true;
  }

  /**
   * A leaf name that is not that of a temporary; the partial lies in a directory of
   * its own, so its path has a slash.
   */
  predicate OrdinaryLeaf(name: string) { '/' !in name && !IsPublicationTempName(name) }

  lemma {:induction false} DecimalHasNoSlash(n: nat)
    ensures '/' !in Decimal(n)
  {
    if n < 10 {
    } else {
      DecimalHasNoSlash(n / 10);
    }
  }

  lemma TempNameHasNoSpace(name: string)
    requires IsPublicationTempName(name)
    ensures ' ' !in name
  {
    forall k | 0 <= k < |name| ensures name[k] != ' ' {
      if k < |TEMP_PREFIX| {
        assert name[k] == TEMP_PREFIX[k];
      } else if k < |TEMP_PREFIX| + 24 {
        assert IsHexDigit(name[k]);
      } else {
        assert name[k] == name[|TEMP_PREFIX| + 24..][k - |TEMP_PREFIX| - 24];
      }
    }
  }

  /** Every candidate for an ordinary leaf name is one, so it is never reclaimable as a temporary, nor the partial. */
  lemma CandidateIsOrdinary(base: string, ext: string, i: nat)
    requires OrdinaryLeaf(base + ext)
    ensures OrdinaryLeaf(CandidateName(base, ext, i))
  {
    var c := CandidateName(base, ext, i);
    if i > 0 {
      DecimalHasNoSlash(i);
      assert '/' !in base && '/' !in ext by {
        assert forall x | x in base :: x in base + ext;
        assert forall x | x in ext :: x in base + ext;
      }
      assert c[|base|] == ' ';
      if IsPublicationTempName(c) { TempNameHasNoSpace(c); }
    }
  }

  /** The draws made for the temporary of the i-th candidate. */
  function Draws(random: (nat, nat) -> Option<Draw>, i: nat): nat -> Option<Draw> { t => random(i, t) }

  /** The i-th candidate name is the first one that is not taken. */
  ghost predicate FirstFree(files: Listing, base: string, ext: string, i: nat) {
    && i < 10000 && CandidateName(base, ext, i) !in files
    && forall j | 0 <= j < i :: CandidateName(base, ext, j) in files
  }

  /**
   * What a directory without faults delivers: always the first of 10000 names that
   * is free, unless the file has to be copied and no temporary name is left.
   */
  ghost predicate FaultFree(r: Result<string, PublishError>, files: Listing, base: string, ext: string,
                            sameRoot: bool, random: (nat, nat) -> Option<Draw>) {
    && (forall i | FirstFree(files, base, ext, i) ::
          r == if sameRoot || !NamesRunOut(files, Draws(random, i)) then Ok(CandidateName(base, ext, i))
               else Err(IoError))
    && ((forall i :: !FirstFree(files, base, ext, i)) ==> r == Err(TooManyCandidates))
  }

  lemma UndeliveredAtFirst(d: Directory, part: string, content: Bytes)
    requires part in d.files && d.files[part] == content
    ensures Undelivered(d, |d.trace|, d.files, part, content)
  {
  }

  /** Until something is delivered, an ordinary name is taken exactly if it was taken at first. */
  lemma TakenAtStart(start: Listing, now: Listing, part: string, content: Bytes, name: string)
    requires part in start && part in now && CrashSafe(start, now, part, content, None) && !IsPublicationTempName(name)
    ensures name in now <==> name in start
  {
  }

  lemma FirstFreeIsDelivered(files: Listing, base: string, ext: string, i: nat, sameRoot: bool,
                             random: (nat, nat) -> Option<Draw>)
    requires i < MAX_CANDIDATES
    ensures CandidateName(base, ext, i) !in files && (forall j | 0 <= j < i :: CandidateName(base, ext, j) in files) ==>
              FaultFree(if sameRoot || !NamesRunOut(files, Draws(random, i)) then Ok(CandidateName(base, ext, i))
                        else Err(IoError), files, base, ext, sameRoot, random)
  {
    hide CandidateName; hide NamesRunOut;
    if CandidateName(base, ext, i) !in files && forall j | 0 <= j < i :: CandidateName(base, ext, j) in files {
      assert FirstFree(files, base, ext, i);
      forall k | FirstFree(files, base, ext, k) ensures k == i {}
    }
  }

  lemma NoneFree(files: Listing, base: string, ext: string, sameRoot: bool, random: (nat, nat) -> Option<Draw>)
    ensures (forall j | 0 <= j < MAX_CANDIDATES :: CandidateName(base, ext, j) in files) ==>
              FaultFree(Err(TooManyCandidates), files, base, ext, sameRoot, random)
  {
  }

  lemma {:induction false} CandidateCount(files: Listing, base: string, ext: string, n: nat)
    returns (names: set<string>)
    requires forall j: nat | j < n :: CandidateName(base, ext, j) in files
    ensures names <= files.Keys && |names| == n
    ensures forall x | x in names :: exists j: nat :: j < n && x == CandidateName(base, ext, j)
  {
    hide CandidateName;
    if n == 0 {
      names := {};
    } else {
      names := CandidateCount(files, base, ext, n - 1);
      var x := CandidateName(base, ext, n - 1);
      forall j: nat | j < n - 1 ensures CandidateName(base, ext, j) != x { CandidatesDiffer(base, ext, j, n - 1); }
      assert x !in names;
      names := names + {x};
    }
  }

  lemma {:induction false} SomeFirstFree(files: Listing, base: string, ext: string, i: nat) returns (k: nat)
    requires i < 10000 && CandidateName(base, ext, i) !in files
    ensures FirstFree(files, base, ext, k)
  {
    if j: nat :| j < i && CandidateName(base, ext, j) !in files {
      k := SomeFirstFree(files, base, ext, j);
    } else {
      k := i;
    }
  }

  /** A directory with fewer than 10000 files always has a free name. */
  lemma FewFilesLeaveAName(files: Listing, base: string, ext: string) returns (i: nat)
    requires |files| < 10000
    ensures FirstFree(files, base, ext, i)
  {
    hide CandidateName;
    if forall j: nat | j < 10000 :: CandidateName(base, ext, j) in files {
      var names := CandidateCount(files, base, ext, 10000);
      SubsetCardinality(names, files.Keys);
    }
    var j: nat :| j < 10000 && CandidateName(base, ext, j) !in files;
    i := SomeFirstFree(files, base, ext, j);
  }

  /** Without faults, a directory with fewer than 10000 files takes every partial of its own file system. */
  lemma SmallDirectoryPublishes(r: Result<string, PublishError>, files: Listing, base: string, ext: string,
                                random: (nat, nat) -> Option<Draw>)
    requires |files| < 10000 && FaultFree(r, files, base, ext, true, random)
    ensures r.Ok?
  {
    var i := FewFilesLeaveAName(files, base, ext);
  }

  /** Tries candidate names until one is free: rename the partial, or else a verified copy. */
  method PublishFlat(h: HashFn, d: Directory, content: Bytes, part: string, base: string, ext: string,
                     sha: Option<Digest>, size: int, random: (nat, nat) -> Option<Draw>, sameRoot: bool)
    returns (r: Result<string, PublishError>, renamed: bool)
    requires part in d.files && d.files[part] == content && '/' in part && OrdinaryLeaf(base + ext)
    requires (sha.Some? ==> h(content) == sha.value) && (size > 0 ==> |content| == size)
    modifies d
    ensures |old(d.trace)| <= |d.trace|
    ensures AllSafe(d.trace, |old(d.trace)|, old(d.files), part, content, if r.Ok? then Some(r.value) else None)
    ensures CrashSafe(old(d.files), d.files, part, content, if r.Ok? then Some(r.value) else None)
    ensures r.Ok? ==>
              && r.value !in old(d.files) && r.value in d.files && d.files[r.value] == content
              && (renamed <==> part !in d.files)
    ensures r.Err? ==> part in d.files && !renamed
    ensures old(d.faults) == [] ==> FaultFree(r, old(d.files), base, ext, sameRoot, random)
  {
    hide CrashSafe; hide AllSafe; hide IsPublicationTempName; hide CandidateName; hide FaultFree;
    hide NamesRunOut; hide Draws;
    renamed := false;
    ghost var start, since := d.files, |d.trace|;
    UndeliveredAtFirst(d, part, content);
    var i := 0;
    while i < MAX_CANDIDATES
      invariant 0 <= i <= MAX_CANDIDATES
      invariant Undelivered(d, since, start, part, content)
      invariant old(d.faults) == [] ==>
                  d.faults == [] && d.files == start && forall j | 0 <= j < i :: CandidateName(base, ext, j) in start
    {
      var candidate, draws := CandidateName(base, ext, i), Draws(random, i);
      CandidateIsOrdinary(base, ext, i);
      TakenAtStart(start, d.files, part, content, candidate);
      FirstFreeIsDelivered(start, base, ext, i, sameRoot, random);
      i := i + 1;
      var s := d.Lstat(candidate);
      if s == Exists { continue; }
      if s == Broken { return Err(IoError), false; }
      var ok;
      s, ok := PublishFromStaging(d, part, candidate, content, sameRoot, since, start);
      if ok { return Ok(candidate), true; }
      if s == Exists { continue; }
      if s == Broken { return Err(IoError), false; }
      var e := PublishViaTemp(h, d, content, candidate, sha, size, draws, part, since, start);
      if e.None? { return Ok(candidate), false; }
      if e == Some(NameTaken) { continue; }
      return Err(e.value), false;
    }
    NoneFree(start, base, ext, sameRoot, random);
    return Err(TooManyCandidates), false;
  }

  /** Re-reads the staged bytes through the open descriptor, and rewinds it. */
  method VerifyStagedDigest(h: HashFn, source: Destination, sha: Option<Digest>) returns (ok: bool)
    requires source.kind.Seekable?
    modifies source
    ensures ok <==> sha.None? || h(source.content) == sha.value
    ensures source.View() == old(source.View()).(pos := if sha.None? then old(source.pos) else 0)
  {
    if sha.None? { return true; }
    source.Seek(0);
    var bytes := source.Read(|source.content|);
    assert bytes == source.content;
    source.Seek(0);
    return h(bytes) == sha.value;
  }

  /**
   * Checks size and digest, then publishes: whatever the outcome and wherever it
   * is cut off, existing names keep their bytes, and a new delivered name appears
   * only whole and verified.
   */
  method PublishPartFile(h: HashFn, d: Directory, source: Destination, part: string, base: string, ext: string,
                         sha: Option<Digest>, size: int, random: (nat, nat) -> Option<Draw>, sameRoot: bool)
    returns (r: Result<string, PublishError>, renamed: bool)
    requires source.kind.Seekable?
    requires part in d.files && d.files[part] == source.content && '/' in part && OrdinaryLeaf(base + ext)
    modifies d, source
    ensures source.content == old(source.content)
    ensures var content := old(source.content);
            var delivered := if r.Ok? then Some(r.value) else None;
            && |old(d.trace)| <= |d.trace|
            && AllSafe(d.trace, |old(d.trace)|, old(d.files), part, content, delivered)
            && CrashSafe(old(d.files), d.files, part, content, delivered)
            && (r.Ok? ==>
                  && r.value !in old(d.files) && r.value in d.files && d.files[r.value] == content
                  && (size > 0 ==> |content| == size) && (sha.Some? ==> h(content) == sha.value))
            && (r.Err? ==> part in d.files)
            && (size > 0 && |content| != size ==> r == Err(SizeMismatch))
            && (!(size > 0 && |content| != size) && sha.Some? && h(content) != sha.value ==> r == Err(DigestMismatch))
            && (old(d.faults) == [] && !(size > 0 && |content| != size) && !(sha.Some? && h(content) != sha.value) ==>
                  FaultFree(r, old(d.files), base, ext, sameRoot, random))
  {
    if size > 0 && |source.content| != size { return Err(SizeMismatch), false; }
    var ok := VerifyStagedDigest(h, source, sha);
    if !ok { return Err(DigestMismatch), false; }
    r, renamed := PublishFlat(h, d, source.content, part, base, ext, sha, size, random, sameRoot);
  }
}
