/**
 * The key-material files: the master key (keys/secret.key, keys/secret.key.new)
 * and the KEK salt, as text, and what a reader makes of any state a crashed
 * O_EXCL writer can leave behind.
 */
module KeyFiles {
  import opened Wrappers
  import opened Base64
  import opened Text

  const MASTER_KEY_LEN := 32
  const KEK_SALT_LEN := 32
  const PLACEHOLDER := "REPLACE_ME_WITH_OUTPUT_OF_openssl_rand_base64_32"

  datatype Error = Placeholder | NotBase64 | BadLength | AllZero

  predicate NonZero(key: Octets) {
    exists i :: 0 <= i < |key| && key[i] != 0
  }

  function Decoded(v: string): Option<Octets> {
    match StdDecode(v)
    case Some(key) => Some(key)
    case None => RawDecode(v)
  }

  function Validated(raw: string): Result<Octets, Error> {
    var v := TrimSpace(raw);
    if v == PLACEHOLDER then Err(Placeholder)
    else match Decoded(v)
      case None => Err(NotBase64)
      case Some(key) =>
        if |key| != MASTER_KEY_LEN then Err(BadLength)
        else if !NonZero(key) then Err(AllZero)
        else Ok(key)
  }

  /** ValidateMasterKey: the zero test accumulates the bitwise or of all bytes. */
  method ValidateMasterKey(raw: string) returns (r: Result<Octets, Error>)
    ensures r == Validated(raw)
  {
    var v := TrimSpace(raw);
    if v == PLACEHOLDER {
      return Err(Placeholder);
    }
    var key := Decoded(v);
    if key == None {
      return Err(NotBase64);
    }
    if |key.value| != MASTER_KEY_LEN {
      return Err(BadLength);
    }
    var acc: bv8 := 0;
    for i := 0 to |key.value|
      invariant acc == 0 <==> forall j :: 0 <= j < i ==> key.value[j] == 0
    {
      acc := acc | (key.value[i] as bv8);
    }
    if acc == 0 {
      return Err(AllZero);
    }
    r := Ok(key.value);
  }

  /** The value that was published is refused, blanks around it or not. */
  lemma PublishedKeyIsRefused(raw: string)
    requires TrimSpace(raw) == "REPLACE_ME_WITH_OUTPUT_OF_openssl_rand_base64_32"
    ensures Validated(raw) == Err(Placeholder)
  {
  }

  /** What writeSecretFile writes for a key or a salt. */
  function Content(b: Octets): string {
    StdEncode(b) + "\n"
  }

  /** readKEKSalt. */
  function SaltOf(raw: string): Option<Octets> {
    match StdDecode(TrimSpace(raw))
    case None => None
    case Some(salt) => if |salt| == KEK_SALT_LEN then Some(salt) else None
  }

  lemma TrimRightPlain(r: string, tail: string)
    requires r == "" || r[|r| - 1] !in SPACES
    requires tail == "" || tail == "\n"
    ensures TrimRight(r + tail, SPACES) == r
  {
    if tail == "\n" {
      assert (r + tail)[..|r|] == r;
    } else {
      assert r + tail == r;
    }
  }

  /** Text with no space at either end, before at most one trailing line break, trims to itself. */
  lemma TrimSpacePlain(r: string, tail: string)
    requires r != "" && r[0] !in SPACES && r[|r| - 1] !in SPACES
    requires tail == "" || tail == "\n"
    ensures TrimSpace(r + tail) == r
  {
    TrimRightPlain(r, tail);
  }

  /** The first 43 characters carry the whole of a 32-byte value; the 44th is padding, the 45th the line break. */
  lemma ContentShape(b: Octets)
    requires |b| == 32
    ensures |RawEncode(b)| == 43 && Plain(RawEncode(b))
    ensures Content(b) == RawEncode(b) + "=" + "\n"
    ensures |Content(b)| == 45
  {
    PackLength(Standard(), b);
    RawDecodeOfEncode(b);
  }

  lemma PlainPrefix(r: string, p: nat)
    requires Plain(r) && p <= |r|
    ensures Plain(r[..p])
    ensures 0 < p ==> TrimSpace(r[..p]) == r[..p]
  {
    if p > 0 {
      assert ValueOf(r[0]).Some? && ValueOf(r[p - 1]).Some?;
      TrimSpacePlain(r[..p], "");
      assert r[..p] + "" == r[..p];
    }
  }

  lemma PrefixOfContent(b: Octets, p: nat)
    requires |b| == 32 && p <= |Content(b)|
    ensures var c := Content(b)[..p];
            TrimSpace(c) == if p == 45 then StdEncode(b) else c
    ensures p <= 43 ==> p <= |RawEncode(b)| && Content(b)[..p] == RawEncode(b)[..p]
    ensures p == 44 ==> Content(b)[..p] == StdEncode(b)
  {
    ContentShape(b);
    var raw := RawEncode(b);
    if p <= 43 {
      assert Content(b)[..p] == raw[..p];
      PlainPrefix(raw, p);
    } else {
      var std := StdEncode(b);
      assert ValueOf(raw[0]).Some? && std[0] == raw[0];
      assert Content(b)[..44] == std && std[43] == '=';
      TrimSpacePlain(std, if p == 45 then "\n" else "");
      assert Content(b)[..p] == std + if p == 45 then "\n" else "";
    }
  }

  /**
   * A reader of a partially written master-key file refuses it or gets the very
   * key that was being written; it gets the key exactly when all 43 significant
   * characters are there and the key is not the all-zero one.
   */
  lemma PartialMasterKey(key: Octets, p: nat)
    requires |key| == MASTER_KEY_LEN && p <= |Content(key)|
    ensures Validated(Content(key)[..p]) == Ok(key) <==> p >= 43 && NonZero(key)
    ensures Validated(Content(key)[..p]).Ok? ==> Validated(Content(key)[..p]) == Ok(key)
  {
    ContentShape(key);
    PrefixOfContent(key, p);
    var v := TrimSpace(Content(key)[..p]);
    assert |v| <= 44 && |PLACEHOLDER| == 48;
    if p >= 44 {
      StdDecodeOfEncode(key);
    } else {
      PlainPrefix(RawEncode(key), p);
      DecodePlain(v);
      if p == 43 {
        RawDecodeOfEncode(key);
        assert v == RawEncode(key);
      }
    }
  }

  /** The same for the salt, whose reader insists on the padding: 44 characters or nothing. */
  lemma PartialSalt(salt: Octets, p: nat)
    requires |salt| == KEK_SALT_LEN && p <= |Content(salt)|
    ensures SaltOf(Content(salt)[..p]) == if p >= 44 then Some(salt) else None
  {
    ContentShape(salt);
    PrefixOfContent(salt, p);
    var c := Content(salt)[..p];
    if p >= 44 {
      WholeSalt(salt, c);
    } else {
      PlainPrefix(RawEncode(salt), p);
      CutSalt(c);
    }
  }

  lemma WholeSalt(salt: Octets, c: string)
    requires |salt| == KEK_SALT_LEN && TrimSpace(c) == StdEncode(salt)
    ensures SaltOf(c) == Some(salt)
  {
    StdDecodeOfEncode(salt);
  }

  lemma CutSalt(c: string)
    requires Plain(c) && |c| <= 43 && TrimSpace(c) == c
    ensures SaltOf(c) == None
  {
    DecodePlain(c);
  }

  lemma CompleteContent(v: Octets)
    requires |v| == 32
    ensures SaltOf(Content(v)) == Some(v)
    ensures if NonZero(v) then Validated(Content(v)) == Ok(v) else Validated(Content(v)).Err?
  {
    var n := |Content(v)|;
    ContentShape(v);
    assert Content(v)[..n] == Content(v);
    PartialSalt(v, n);
    PartialMasterKey(v, n);
  }
}
