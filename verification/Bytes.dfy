/**
 * Byte strings and the big-endian integer encodings the cryptographic code uses,
 * on fixed-width bit vectors so that truncation and wrap-around are Go's.
 */
module Bytes {

  type Bytes = seq<bv8>

  function Uint64(b: Bytes): bv64
    requires |b| == 8
  {
    (b[0] as bv64 << 56) | (b[1] as bv64 << 48) | (b[2] as bv64 << 40) | (b[3] as bv64 << 32) |
    (b[4] as bv64 << 24) | (b[5] as bv64 << 16) | (b[6] as bv64 << 8) | (b[7] as bv64)
  }

  function PutUint64(v: bv64): (b: Bytes)
    ensures |b| == 8
  {
    [((v >> 56) & 0xFF) as bv8, ((v >> 48) & 0xFF) as bv8, ((v >> 40) & 0xFF) as bv8, ((v >> 32) & 0xFF) as bv8,
     ((v >> 24) & 0xFF) as bv8, ((v >> 16) & 0xFF) as bv8, ((v >> 8) & 0xFF) as bv8, (v & 0xFF) as bv8]
  }

  lemma Uint64OfPut(v: bv64)
    ensures Uint64(PutUint64(v)) == v
  {
  }

  lemma PutOfUint64(b: Bytes)
    requires |b| == 8
    ensures PutUint64(Uint64(b)) == b
  {
  }

  /** A byte string of whole 64-bit words. */
  function Words(b: Bytes): (r: seq<bv64>)
    requires |b| % 8 == 0
    ensures |r| == |b| / 8
  {
    if b == [] then [] else [Uint64(b[..8])] + Words(b[8..])
  }

  function OfWords(r: seq<bv64>): (b: Bytes)
    ensures |b| == 8 * |r|
  {
    if r == [] then [] else PutUint64(r[0]) + OfWords(r[1..])
  }

  lemma {:induction false} WordsOfWords(r: seq<bv64>)
    ensures Words(OfWords(r)) == r
  {
    if r != [] {
      WordsOfWords(r[1..]);
      Uint64OfPut(r[0]);
      assert OfWords(r)[..8] == PutUint64(r[0]) && OfWords(r)[8..] == OfWords(r[1..]);
    }
  }

  lemma {:induction false} OfWordsOfBytes(b: Bytes)
    requires |b| % 8 == 0
    ensures OfWords(Words(b)) == b
  {
    if b != [] {
      OfWordsOfBytes(b[8..]);
      PutOfUint64(b[..8]);
      assert Words(b)[1..] == Words(b[8..]);
      assert b[..8] + b[8..] == b;
    }
  }

  function Uint32(b: Bytes): bv32
    requires |b| == 4
  {
    (b[0] as bv32 << 24) | (b[1] as bv32 << 16) | (b[2] as bv32 << 8) | (b[3] as bv32)
  }

  function PutUint32(v: bv32): (b: Bytes)
    ensures |b| == 4
  {
    [((v >> 24) & 0xFF) as bv8, ((v >> 16) & 0xFF) as bv8, ((v >> 8) & 0xFF) as bv8, (v & 0xFF) as bv8]
  }

  lemma Uint32OfPut(v: bv32)
    ensures Uint32(PutUint32(v)) == v
  {
  }

  lemma PutOfUint32(b: Bytes)
    requires |b| == 4
    ensures PutUint32(Uint32(b)) == b
  {
  }

  /** Big-endian: the first byte is the most significant. */
  lemma ByteOrder()
    ensures PutUint32(0x0102_0304) == [1, 2, 3, 4]
    ensures PutUint64(0x0102_0304_0506_0708) == [1, 2, 3, 4, 5, 6, 7, 8]
  {
  }

  /** `s` with the bytes from `at` on overwritten by `src`: what Go's copy(dst[at:], src) leaves behind. */
  function Splice(s: Bytes, at: nat, src: Bytes): (r: Bytes)
    requires at + |src| <= |s|
    ensures |r| == |s|
  {
    s[..at] + src + s[at + |src|..]
  }

  /** copy(dst[at:], src) */
  method Copy(dst: array<bv8>, at: nat, src: Bytes)
    requires at + |src| <= dst.Length
    modifies dst
    ensures dst[..] == Splice(old(dst[..]), at, src)
  {
    forall i | 0 <= i < |src| {
      dst[at + i] := src[i];
    }
  }
}
