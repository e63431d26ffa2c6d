/** Password hashes as PHC strings: the printer, the parser, and that they agree. */
module Phc {
  import opened Wrappers
  import opened Base64
  import opened Text

  const ARGON_MEMORY_KIB := 19456
  const ARGON_TIME := 2
  const ARGON_VERSION := 19
  const UINT32 := 0x1_0000_0000

  /** memory and time are uint32, threads uint8. */
  datatype Params = Params(memory: nat, time: nat, threads: nat)

  predicate InRange(p: Params) {
    0 < p.memory < UINT32 && 0 < p.time < UINT32 && 0 < p.threads < 256
  }

  datatype Hash = Hash(params: Params, salt: Octets, digest: Octets)

  datatype Error =
    | NotPhc | NotArgon2id | BadVersionField | WrongVersion | BadParameter | UnknownParameter
    | OutOfRange | BadSalt | BadDigest | EmptySaltOrDigest

  // ---- the printer ----

  function Setting(key: char, n: nat): string {
    [key] + "=" + Decimal(n)
  }

  function SettingList(p: Params): seq<string> {
    [Setting('m', p.memory), Setting('t', p.time), Setting('p', p.threads)]
  }

  function Settings(p: Params): string {
    Join(SettingList(p), ',')
  }

  function Parts(h: Hash): seq<string> {
    ["", "argon2id", "v=19", Settings(h.params), RawEncode(h.salt), RawEncode(h.digest)]
  }

  /** hashPassword's format. */
  function Printed(h: Hash): string {
    Join(Parts(h), '$')
  }

  // ---- the parser ----

  predicate IsDigit(c: char) {
    '0' <= c <= '9'
  }

  function DigitPrefix(s: string): string {
    if s != "" && IsDigit(s[0]) then [s[0]] + DigitPrefix(s[1..]) else ""
  }

  /** What fmt skips before a number on the same line. */
  const BLANKS: set<char> :=
    {'\t', '\U{0B}', '\U{0C}', '\r', ' ', '\U{85}', '\U{A0}', '\U{1680}', '\U{2000}', '\U{2001}', '\U{2002}', '\U{2003}',
     '\U{2004}', '\U{2005}', '\U{2006}', '\U{2007}', '\U{2008}', '\U{2009}', '\U{200A}', '\U{2028}', '\U{2029}', '\U{202F}',
     '\U{205F}', '\U{3000}'}

  const INT64 := 0x8000_0000_0000_0000

  /** Sscanf with "v=%d" into an int: leading blanks and a sign are accepted, and whatever follows the digits is ignored. */
  function ScannedVersion(s: string): Option<int> {
    if |s| < 2 || s[..2] != "v=" then None
    else
      var rest := TrimLeft(s[2..], BLANKS);
      var negative := rest != "" && rest[0] == '-';
      var digits := DigitPrefix(if rest != "" && (rest[0] == '-' || rest[0] == '+') then rest[1..] else rest);
      if digits == "" then None
      else match Number(digits)
        case None => None
        case Some(n) =>
          var v := if negative then -(n as int) else n as int;
          if -INT64 <= v < INT64 then Some(v) else None
  }

  function Assigned(p: Params, kv: string): Result<Params, Error> {
    match Cut(kv, '=')
    case None => Err(BadParameter)
    case Some((k, v)) =>
      match ParseUint(v, UINT32)
      case None => Err(BadParameter)
      case Some(n) =>
        if k == "m" then Ok(p.(memory := n))
        else if k == "t" then Ok(p.(time := n))
        else if k == "p" then Ok(p.(threads := n))
        else Err(UnknownParameter)
  }

  /** The parameters in turn; a repeated one overwrites. */
  function AllAssigned(p: Params, kvs: seq<string>): Result<Params, Error> {
    if kvs == [] then Ok(p)
    else
      var n := |kvs| - 1;
      var before :- AllAssigned(p, kvs[..n]);
      Assigned(before, kvs[n])
  }

  function Parsed(phc: string): Result<Hash, Error> {
    var parts := Split(phc, '$');
    if |parts| != 6 || parts[0] != "" then Err(NotPhc)
    else if parts[1] != "argon2id" then Err(NotArgon2id)
    else match ScannedVersion(parts[2])
      case None => Err(BadVersionField)
      case Some(version) =>
        if version != ARGON_VERSION then Err(WrongVersion)
        else
          var p :- AllAssigned(Params(0, 0, 0), Split(parts[3], ','));
          if !InRange(p) then Err(OutOfRange) else Decoded(p, parts[4], parts[5])
  }

  /** The salt and the digest, both there. */
  function Decoded(p: Params, salt: string, digest: string): (r: Result<Hash, Error>)
    ensures r.Err? ==> r.error in {BadSalt, BadDigest, EmptySaltOrDigest}
    ensures r.Ok? ==> r.value.params == p && r.value.salt != [] && r.value.digest != []
  {
    match RawDecode(salt)
    case None => Err(BadSalt)
    case Some(s) =>
      match RawDecode(digest)
      case None => Err(BadDigest)
      case Some(d) => if s == [] || d == [] then Err(EmptySaltOrDigest) else Ok(Hash(p, s, d))
  }

  /** parsePHC, with the loop that assigns the parameters; what it returns is always in range and complete. */
  method ParsePhc(phc: string) returns (r: Result<Hash, Error>)
    ensures r == Parsed(phc)
    ensures r.Ok? ==> InRange(r.value.params) && r.value.salt != [] && r.value.digest != []
  {
    var parts := Split(phc, '$');
    if |parts| != 6 || parts[0] != "" {
      return Err(NotPhc);
    }
    if parts[1] != "argon2id" {
      return Err(NotArgon2id);
    }
    var version := ScannedVersion(parts[2]);
    if version == None {
      return Err(BadVersionField);
    }
    if version.value != ARGON_VERSION {
      return Err(WrongVersion);
    }
    var params := AssignAll(Split(parts[3], ','));
    if params.Err? {
      return Err(params.error);
    }
    var p := params.value;
    if p.memory == 0 || p.time == 0 || p.threads == 0 || p.threads > 255 {
      return Err(OutOfRange);
    }
    var salt := RawDecode(parts[4]);
    if salt == None {
      return Err(BadSalt);
    }
    var digest := RawDecode(parts[5]);
    if digest == None {
      return Err(BadDigest);
    }
    if salt.value == [] || digest.value == [] {
      return Err(EmptySaltOrDigest);
    }
    r := Ok(Hash(p, salt.value, digest.value));
  }

  method AssignAll(kvs: seq<string>) returns (r: Result<Params, Error>)
    ensures r == AllAssigned(Params(0, 0, 0), kvs)
    ensures r.Ok? ==> r.value.memory < UINT32 && r.value.time < UINT32 && r.value.threads < UINT32
  {
    var memory: nat, time: nat, threads: nat := 0, 0, 0;
    for i := 0 to |kvs|
      invariant AllAssigned(Params(0, 0, 0), kvs[..i]) == Ok(Params(memory, time, threads))
      invariant memory < UINT32 && time < UINT32 && threads < UINT32
    {
      assert kvs[..i + 1][..i] == kvs[..i];
      var cut := Cut(kvs[i], '=');
      if cut == None {
        FailsAt(kvs, i);
        return Err(BadParameter);
      }
      var n := ParseUint(cut.value.1, UINT32);
      if n == None {
        FailsAt(kvs, i);
        return Err(BadParameter);
      }
      if cut.value.0 == "m" {
        memory := n.value;
      } else if cut.value.0 == "t" {
        time := n.value;
      } else if cut.value.0 == "p" {
        threads := n.value;
      } else {
        FailsAt(kvs, i);
        return Err(UnknownParameter);
      }
    }
    assert kvs[..|kvs|] == kvs;
    r := Ok(Params(memory, time, threads));
  }

  /** The first parameter that fails decides. */
  lemma {:induction false} FailsAt(kvs: seq<string>, i: nat)
    requires i < |kvs| && AllAssigned(Params(0, 0, 0), kvs[..i]).Ok?
    requires Assigned(AllAssigned(Params(0, 0, 0), kvs[..i]).value, kvs[i]).Err?
    ensures AllAssigned(Params(0, 0, 0), kvs) == Assigned(AllAssigned(Params(0, 0, 0), kvs[..i]).value, kvs[i])
  {
    var n := |kvs| - 1;
    if i < n {
      assert kvs[..n][..i] == kvs[..i];
      FailsAt(kvs[..n], i);
    }
  }

  // ---- the round trip ----

  lemma PlainIsFree(r: string)
    requires Plain(r)
    ensures Free(r, '$')
  {
    forall i | 0 <= i < |r| ensures r[i] != '$' {
      assert ValueOf(r[i]).Some?;
    }
  }

  lemma SettingIsFree(key: char, n: nat)
    requires key == 'm' || key == 't' || key == 'p'
    ensures Free(Setting(key, n), '$') && Free(Setting(key, n), ',')
  {
    NumberOfDecimal(n);
  }

  lemma AssignedSetting(p: Params, key: char, n: nat)
    requires n < UINT32
    ensures key == 'm' ==> Assigned(p, Setting(key, n)) == Ok(p.(memory := n))
    ensures key == 't' ==> Assigned(p, Setting(key, n)) == Ok(p.(time := n))
    ensures key == 'p' ==> Assigned(p, Setting(key, n)) == Ok(p.(threads := n))
  {
    NumberOfDecimal(n);
    if key != '=' {
      CutAt([key], '=', Decimal(n));
    }
  }

  lemma AllAssignedThree(p: Params, a: string, b: string, c: string)
    requires Assigned(p, a).Ok? && Assigned(Assigned(p, a).value, b).Ok?
    ensures AllAssigned(p, [a, b, c]) == Assigned(Assigned(Assigned(p, a).value, b).value, c)
  {
    assert [a][..0] == [] && [a, b][..1] == [a] && [a, b, c][..2] == [a, b];
    assert AllAssigned(p, [a]) == Assigned(p, a);
    assert AllAssigned(p, [a, b]) == Assigned(Assigned(p, a).value, b);
  }

  lemma SettingsRoundTrip(p: Params)
    requires InRange(p)
    ensures AllAssigned(Params(0, 0, 0), SettingList(p)) == Ok(p)
  {
    AssignedSetting(Params(0, 0, 0), 'm', p.memory);
    AssignedSetting(Params(p.memory, 0, 0), 't', p.time);
    AssignedSetting(Params(p.memory, p.time, 0), 'p', p.threads);
    AllAssignedThree(Params(0, 0, 0), Setting('m', p.memory), Setting('t', p.time), Setting('p', p.threads));
  }

  lemma SettingsSplit(p: Params)
    ensures Split(Settings(p), ',') == SettingList(p) && Free(Settings(p), '$')
  {
    SettingIsFree('m', p.memory);
    SettingIsFree('t', p.time);
    SettingIsFree('p', p.threads);
    SplitOfJoin(SettingList(p), ',');
    JoinIsFree(SettingList(p), ',', '$');
  }

  lemma PartsSplit(h: Hash, field: string)
    requires Free(field, '$')
    ensures Split(WithVersion(h, field), '$') == Parts(h)[2 := field]
  {
    RawDecodeOfEncode(h.salt);
    RawDecodeOfEncode(h.digest);
    PlainIsFree(RawEncode(h.salt));
    PlainIsFree(RawEncode(h.digest));
    SettingsSplit(h.params);
    SplitOfJoin(Parts(h)[2 := field], '$');
  }

  // ---- the version field ----

  /** The hash printed with something else where the version stands. */
  function WithVersion(h: Hash, field: string): string {
    Join(Parts(h)[2 := field], '$')
  }

  /** A text that carries no number any further. */
  predicate Stops(tail: string) {
    tail == "" || !IsDigit(tail[0])
  }

  lemma {:induction false} DigitPrefixFacts(digits: string, tail: string)
    requires AllDigits(digits)
    ensures DigitPrefix(digits + tail) == digits + DigitPrefix(tail)
    ensures Stops(tail) <==> DigitPrefix(tail) == ""
    ensures AllDigits(DigitPrefix(tail))
  {
    if digits != "" {
      assert (digits + tail)[1..] == digits[1..] + tail;
      DigitPrefixFacts(digits[1..], tail);
    } else {
      assert digits + tail == tail;
      if !Stops(tail) {
        assert "" + tail[1..] == tail[1..];
        DigitPrefixFacts("", tail[1..]);
      }
    }
  }

  lemma {:induction false} NumberGrows(digits: string, more: string)
    requires Number(digits).Some? && AllDigits(more)
    ensures Number(digits + more).Some?
    ensures more != "" ==> Number(digits + more).value >= 10 * Number(digits).value
  {
    if more == "" {
      assert digits + more == digits;
    } else {
      var n := |more| - 1;
      assert (digits + more)[..|digits| + n] == digits + more[..n];
      assert |digits + more| - 1 == |digits| + n && (digits + more)[|digits| + n] == more[n];
      assert n == 0 ==> digits + more[..n] == digits;
      NumberGrows(digits, more[..n]);
    }
  }

  lemma NineteenIsNumber()
    ensures Number("19") == Some(19) && AllDigits("19")
  {
    assert "19"[..1] == "1" && "1"[..0] == "";
  }

  /** After the version printed today the field may go on with anything but a digit. */
  lemma NineteenScansExactlyWhen(tail: string)
    ensures ScannedVersion("v=19" + tail) == Some(ARGON_VERSION) <==> Stops(tail)
  {
    var s := "v=19" + tail;
    assert s[..2] == "v=" && s[2..] == "19" + tail;
    assert TrimLeft(s[2..], BLANKS) == s[2..];
    NineteenIsNumber();
    DigitPrefixFacts("19", tail);
    NumberGrows("19", DigitPrefix(tail));
    if Stops(tail) {
      assert "19" + DigitPrefix(tail) == "19";
    }
  }

  /** Whatever stands in the version field, the rest of a printed hash parses back exactly when the field scans as 19. */
  lemma VersionFieldDecides(h: Hash, field: string)
    requires InRange(h.params) && h.salt != [] && h.digest != [] && Free(field, '$')
    ensures Parsed(WithVersion(h, field)) == Ok(h) <==> ScannedVersion(field) == Some(ARGON_VERSION)
    ensures Parsed(WithVersion(h, field)) == Err(BadVersionField) <==> ScannedVersion(field) == None
    ensures Parsed(WithVersion(h, field)) == Err(WrongVersion) <==> ScannedVersion(field).Some? && ScannedVersion(field) != Some(19)
  {
    PartsSplit(h, field);
    SettingsSplit(h.params);
    SettingsRoundTrip(h.params);
    RawDecodeOfEncode(h.salt);
    RawDecodeOfEncode(h.digest);
  }

  /**
   * So the version is matched as a prefix: a hash whose version field goes on
   * after the number is accepted as if it did not, exactly when what follows does
   * not continue the number.
   */
  lemma VersionTailIsIgnored(h: Hash, tail: string)
    requires InRange(h.params) && h.salt != [] && h.digest != [] && Free(tail, '$')
    ensures Parsed(WithVersion(h, "v=19" + tail)) == Ok(h) <==> Stops(tail)
  {
    VersionFieldDecides(h, "v=19" + tail);
    NineteenScansExactlyWhen(tail);
  }

  /** What does not have six fields, the first empty, is no PHC string, and only argon2id is read. */
  lemma ForeignHashIsRefused(fields: seq<string>)
    requires fields != [] && forall f <- fields :: Free(f, '$')
    ensures Parsed(Join(fields, '$')) == Err(NotPhc) <==> |fields| != 6 || fields[0] != ""
    ensures Parsed(Join(fields, '$')) == Err(NotArgon2id) <==> |fields| == 6 && fields[0] == "" && fields[1] != "argon2id"
  {
    SplitOfJoin(fields, '$');
    ForeignFieldsAreRefused(Join(fields, '$'), fields);
  }

  lemma ForeignFieldsAreRefused(phc: string, fields: seq<string>)
    requires Split(phc, '$') == fields
    ensures Parsed(phc) == Err(NotPhc) <==> |fields| != 6 || fields[0] != ""
    ensures Parsed(phc) == Err(NotArgon2id) <==> |fields| == 6 && fields[0] == "" && fields[1] != "argon2id"
  {
    if |fields| == 6 {
      ErrorsOfParameters(Params(0, 0, 0), Split(fields[3], ','));
    }
  }

  lemma {:induction false} ErrorsOfParameters(p: Params, kvs: seq<string>)
    ensures AllAssigned(p, kvs).Err? ==> AllAssigned(p, kvs).error in {BadParameter, UnknownParameter}
  {
    if kvs != [] {
      ErrorsOfParameters(p, kvs[..|kvs| - 1]);
    }
  }

  /** Every in-range hash with a salt and a digest comes back exactly as it was printed. */
  lemma ParsedOfPrinted(h: Hash)
    requires InRange(h.params) && h.salt != [] && h.digest != []
    ensures Parsed(Printed(h)) == Ok(h)
  {
    assert Parts(h)[2 := "v=19"] == Parts(h) && "v=19" + "" == "v=19";
    VersionTailIsIgnored(h, "");
  }

  /** NeedsRehash: weaker memory or time than today's constants. */
  function NeedsRehash(phc: string): Result<bool, Error> {
    var h :- Parsed(phc);
    Ok(h.params.memory < ARGON_MEMORY_KIB || h.params.time < ARGON_TIME)
  }

  /** A hash printed today never needs rehashing, and any printed hash needs it exactly when it is weaker. */
  lemma RehashExactlyWhenWeaker(h: Hash)
    requires InRange(h.params) && h.salt != [] && h.digest != []
    ensures NeedsRehash(Printed(h)) == Ok(h.params.memory < 19456 || h.params.time < 2)
  {
    ParsedOfPrinted(h);
  }
}
