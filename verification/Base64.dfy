/**
 * Standard base64 (RFC 4648, section 4) as Go's encoding/base64 implements it:
 * padded and raw variants, line breaks ignored, trailing bits not checked.
 */
module Base64 {
  import opened Wrappers

  type Octet = x: int | 0 <= x < 256
  type Octets = seq<Octet>
  type Sextet = x: int | 0 <= x < 64

  function CharOf(v: Sextet): char {
    if v < 26 then 'A' + v as char
    else if v < 52 then 'a' + (v - 26) as char
    else if v < 62 then '0' + (v - 52) as char
    else if v == 62 then '+' else '/'
  }

  function ValueOf(c: char): Option<Sextet> {
    if 'A' <= c <= 'Z' then Some((c - 'A') as int)
    else if 'a' <= c <= 'z' then Some((c - 'a') as int + 26)
    else if '0' <= c <= '9' then Some((c - '0') as int + 52)
    else if c == '+' then Some(62)
    else if c == '/' then Some(63)
    else None
  }

  lemma ValueOfChar(v: Sextet)
    ensures ValueOf(CharOf(v)) == Some(v)
  {
  }

  /** Table 1 of RFC 4648: A to Z, a to z, 0 to 9, + and /. */
  lemma AlphabetIs()
    ensures CharOf(0) == 'A' && CharOf(25) == 'Z' && CharOf(26) == 'a' && CharOf(51) == 'z'
    ensures CharOf(52) == '0' && CharOf(61) == '9' && CharOf(62) == '+' && CharOf(63) == '/'
    ensures forall v: int | 0 <= v < 61 && v != 25 && v != 51 :: CharOf(v + 1) as int == CharOf(v) as int + 1
  {
  }

  /** How three bytes and four sextets share 24 bits. */
  datatype Codec = Codec(
    split: (Octet, Octet, Octet) -> (Sextet, Sextet, Sextet, Sextet),
    join: (Sextet, Sextet, Sextet, Sextet) -> (Octet, Octet, Octet))

  function Joined(w: int, x: int, y: int, z: int): (Octet, Octet, Octet)
    requires 0 <= w < 64 && 0 <= x < 64 && 0 <= y < 64 && 0 <= z < 64
  {
    (w * 4 + x / 16, x % 16 * 16 + y / 4, y % 4 * 64 + z)
  }

  function Standard(): Codec {
    Codec(
      (a, b, c) => (a / 4, a % 4 * 16 + b / 16, b % 16 * 4 + c / 64, c % 64),
      (w, x, y, z) => Joined(w, x, y, z))
  }

  predicate Shares(k: Codec, a: Octet, b: Octet, c: Octet) {
    var (w, x, y, z) := k.split(a, b, c);
    && k.join(w, x, y, z) == (a, b, c)
    && (c == 0 ==> z == 0)
    && (b == 0 && c == 0 ==> y == 0)
  }

  ghost predicate Lawful(k: Codec) {
    forall a, b, c :: Shares(k, a, b, c)
  }

  lemma StandardIsLawful()
    ensures Lawful(Standard())
  {
    forall a: Octet, b: Octet, c: Octet ensures Shares(Standard(), a, b, c) {
      var (w, x, y, z) := Standard().split(a, b, c);
      assert x / 16 == a % 4 && x % 16 == b / 16;
      assert y / 4 == b % 16 && y % 4 == c / 64;
    }
  }

  /** Three bytes to four sextets; a last group of one or two bytes is padded with zero bits. */
  function Pack(k: Codec, b: Octets): seq<Sextet> {
    if |b| == 0 then []
    else if |b| == 1 then
      var g := k.split(b[0], 0, 0);
      [g.0, g.1]
    else if |b| == 2 then
      var g := k.split(b[0], b[1], 0);
      [g.0, g.1, g.2]
    else
      var g := k.split(b[0], b[1], b[2]);
      [g.0, g.1, g.2, g.3] + Pack(k, b[3..])
  }

  /** Four sextets to three bytes; leftover bits of a short last group are dropped. */
  function Unpack(k: Codec, s: seq<Sextet>): Option<Octets> {
    if |s| == 0 then Some([])
    else if |s| == 1 then None
    else if |s| == 2 then Some([k.join(s[0], s[1], 0, 0).0])
    else if |s| == 3 then
      var g := k.join(s[0], s[1], s[2], 0);
      Some([g.0, g.1])
    else match Unpack(k, s[4..])
      case None => None
      case Some(rest) =>
        var g := k.join(s[0], s[1], s[2], s[3]);
        Some([g.0, g.1, g.2] + rest)
  }

  lemma {:induction false} PackLength(k: Codec, b: Octets)
    ensures |Pack(k, b)| == (4 * |b| + 2) / 3
  {
    if |b| >= 3 {
      PackLength(k, b[3..]);
    }
  }

  lemma GroupLength(n: nat)
    requires n >= 4
    ensures n % 4 == (n - 4) % 4 && 3 * n / 4 == 3 + 3 * (n - 4) / 4
  {
  }

  lemma {:induction false} UnpackLength(k: Codec, s: seq<Sextet>)
    ensures Unpack(k, s).Some? <==> |s| % 4 != 1
    ensures Unpack(k, s).Some? ==> |Unpack(k, s).value| == 3 * |s| / 4
  {
    if |s| >= 4 {
      GroupLength(|s|);
      UnpackLength(k, s[4..]);
    }
  }

  lemma {:induction false} UnpackOfPack(k: Codec, b: Octets)
    requires Lawful(k)
    ensures Unpack(k, Pack(k, b)) == Some(b)
  {
    if |b| == 1 {
      assert Shares(k, b[0], 0, 0) && b == [b[0]];
    } else if |b| == 2 {
      assert Shares(k, b[0], b[1], 0) && b == [b[0], b[1]];
    } else if |b| >= 3 {
      assert Shares(k, b[0], b[1], b[2]) && b == [b[0], b[1], b[2]] + b[3..];
      UnpackOfPack(k, b[3..]);
      assert Pack(k, b)[4..] == Pack(k, b[3..]);
    }
  }

  function Chars(s: seq<Sextet>): (r: string)
    ensures |r| == |s|
  {
    if s == [] then "" else [CharOf(s[0])] + Chars(s[1..])
  }

  function Values(r: string): (s: Option<seq<Sextet>>)
    ensures s.Some? ==> |s.value| == |r|
  {
    if r == "" then Some([])
    else match (ValueOf(r[0]), Values(r[1..]))
      case (Some(v), Some(rest)) => Some([v] + rest)
      case _ => None
  }

  lemma ValuesOfCons(c: char, r: string, v: Sextet, rest: seq<Sextet>)
    requires ValueOf(c) == Some(v) && Values(r) == Some(rest)
    ensures Values([c] + r) == Some([v] + rest)
  {
    assert ([c] + r)[1..] == r;
  }

  lemma {:induction false} ValuesOfChars(s: seq<Sextet>)
    ensures Values(Chars(s)) == Some(s)
  {
    if s != [] {
      ValueOfChar(s[0]);
      ValuesOfChars(s[1..]);
      ValuesOfCons(CharOf(s[0]), Chars(s[1..]), s[0], s[1..]);
      assert [s[0]] + s[1..] == s;
    }
  }

  /** Every character is in the alphabet; no padding, separator, space or line break is. */
  predicate Plain(r: string) {
    forall i :: 0 <= i < |r| ==> ValueOf(r[i]).Some?
  }

  lemma {:induction false} CharsArePlain(s: seq<Sextet>)
    ensures Plain(Chars(s))
  {
    if s != [] {
      CharsArePlain(s[1..]);
      ValueOfChar(s[0]);
    }
  }

  lemma {:induction false} PlainHasValues(r: string)
    requires Plain(r)
    ensures Values(r).Some?
  {
    if r != "" {
      PlainHasValues(r[1..]);
    }
  }

  /** The decoder skips line breaks wherever they appear. */
  function Unbroken(r: string): string {
    if r == "" then ""
    else if r[0] == '\n' || r[0] == '\r' then Unbroken(r[1..])
    else [r[0]] + Unbroken(r[1..])
  }

  lemma {:induction false} UnbrokenAlready(r: string)
    requires forall i :: 0 <= i < |r| ==> r[i] != '\n' && r[i] != '\r'
    ensures Unbroken(r) == r
  {
    if r != "" {
      UnbrokenAlready(r[1..]);
    }
  }

  function RawEncode(b: Octets): string {
    Chars(Pack(Standard(), b))
  }

  function RawDecode(r: string): Option<Octets> {
    match Values(Unbroken(r))
    case None => None
    case Some(s) => Unpack(Standard(), s)
  }

  /** The order of the bits: three, two and one bytes. */
  lemma Vectors()
    ensures RawEncode([102, 111, 111]) == "Zm9v" && RawEncode([251, 255]) == "+/8" && RawEncode([102]) == "Zg"
  {
    var foo: Octets := [102, 111, 111];
    var k := Standard();
    assert foo[3..] == [] && Pack(k, []) == [];
    assert Pack(k, foo) == [25, 38, 61, 47] && Pack(k, [251, 255]) == [62, 63, 60] && Pack(k, [102]) == [25, 32];
    AlphabetIs();
    assert CharOf(38) == 'm' && CharOf(47) == 'v' && CharOf(60) == '8' && CharOf(32) == 'g';
    CharsOf([25, 38, 61, 47]);
    CharsOf([62, 63, 60]);
    CharsOf([25, 32]);
  }

  lemma {:induction false} CharsOf(s: seq<Sextet>)
    ensures |Chars(s)| == |s| && forall i :: 0 <= i < |s| ==> Chars(s)[i] == CharOf(s[i])
  {
    if s != [] {
      CharsOf(s[1..]);
    }
  }

  /** 4*ceil(n/3) characters in all. */
  lemma EncodedLength(n: nat)
    ensures ((4 * n + 2) / 3 + (if n % 3 == 0 then 0 else if n % 3 == 1 then 2 else 1)) % 4 == 0
  {
    var q := n / 3;
    assert n == 3 * q + n % 3;
    assert (4 * n + 2) / 3 == 4 * q + (4 * (n % 3) + 2) / 3;
  }

  function StdEncode(b: Octets): (r: string)
    ensures |r| % 4 == 0
  {
    PackLength(Standard(), b);
    EncodedLength(|b|);
    RawEncode(b) + if |b| % 3 == 0 then "" else if |b| % 3 == 1 then "==" else "="
  }

  /** What is left of a padded text once its one or two padding characters are dropped. */
  function Unpadded(t: string): string {
    var n := |t|;
    if n > 0 && t[n - 1] == '=' then (if n > 1 && t[n - 2] == '=' then t[..n - 2] else t[..n - 1]) else t
  }

  /** A whole number of groups of four, the last of which may end in padding. */
  function StdDecode(r: string): Option<Octets> {
    var t := Unbroken(r);
    if |t| % 4 != 0 then None
    else match Values(Unpadded(t))
      case None => None
      case Some(s) => Unpack(Standard(), s)
  }

  lemma RawDecodeOfEncode(b: Octets)
    ensures RawDecode(RawEncode(b)) == Some(b)
    ensures Plain(RawEncode(b))
  {
    CharsArePlain(Pack(Standard(), b));
    UnbrokenAlready(RawEncode(b));
    ValuesOfChars(Pack(Standard(), b));
    StandardIsLawful();
    UnpackOfPack(Standard(), b);
  }

  lemma PlainIsUnbroken(raw: string)
    requires Plain(raw)
    ensures forall i :: 0 <= i < |raw| ==> raw[i] != '\n' && raw[i] != '\r' && raw[i] != '='
  {
    forall i | 0 <= i < |raw| ensures raw[i] != '\n' && raw[i] != '\r' && raw[i] != '=' {
      assert ValueOf(raw[i]).Some?;
    }
  }

  lemma DropPadding(raw: string, padding: string)
    requires raw == "" || raw[|raw| - 1] != '='
    requires padding == "" || padding == "=" || padding == "=="
    ensures Unpadded(raw + padding) == raw
  {
    var t := raw + padding;
    assert t[..|raw|] == raw;
    if padding == "" {
      assert t == raw;
    }
  }

  lemma UnpaddedEncoding(raw: string, padding: string)
    requires Plain(raw) && (padding == "" || padding == "=" || padding == "==")
    ensures Unpadded(raw + padding) == raw
    ensures Unbroken(raw + padding) == raw + padding
  {
    PlainIsUnbroken(raw);
    DropPadding(raw, padding);
    UnbrokenAlready(raw + padding);
  }

  lemma StdDecodesPadded(raw: string, padding: string, b: Octets)
    requires Plain(raw) && (padding == "" || padding == "=" || padding == "==") && |raw + padding| % 4 == 0
    requires RawDecode(raw) == Some(b)
    ensures StdDecode(raw + padding) == Some(b)
  {
    UnpaddedEncoding(raw, padding);
    UnbrokenAlready(raw);
  }

  lemma StdDecodeOfEncode(b: Octets)
    ensures StdDecode(StdEncode(b)) == Some(b)
  {
    RawDecodeOfEncode(b);
    var padding := if |b| % 3 == 0 then "" else if |b| % 3 == 1 then "==" else "=";
    assert StdEncode(b) == RawEncode(b) + padding;
    StdDecodesPadded(RawEncode(b), padding, b);
  }

  /** Decoding plain characters: the length of the result is fixed by the length of the input. */
  lemma DecodePlain(r: string)
    requires Plain(r)
    ensures RawDecode(r).Some? ==> |RawDecode(r).value| == 3 * |r| / 4
    ensures StdDecode(r).Some? ==> |r| % 4 == 0 && |StdDecode(r).value| == 3 * |r| / 4
  {
    UnbrokenAlready(r);
    PlainHasValues(r);
    UnpackLength(Standard(), Values(r).value);
    assert |r| > 0 ==> r[|r| - 1] != '=';
  }
}
