/**
 * AES Key Wrap, RFC 3394.
 *
 * The block cipher is an arbitrary keyed permutation of 16-byte blocks, seen as
 * pairs of 64-bit semiblocks. The specification is the RFC's shift-register
 * description (sections 2.2.1 and 2.2.2); WrapPasses and UnwrapPasses are the
 * indexed, in-place loops with one running counter, and they are proved to
 * compute exactly that.
 */
module KeyWrap {
  import opened Wrappers
  import opened Bytes

  // ---- the shift register of sections 2.2.1 and 2.2.2 ----

  /** A block permutation with its inverse, and the way step t is mixed into A. */
  datatype Machine<!W> = Machine(encrypt: (W, W) -> (W, W), decrypt: (W, W) -> (W, W), mix: (W, nat) -> W)

  predicate Inverse<W(==)>(m: Machine<W>, a: W, b: W) {
    && m.decrypt(m.encrypt(a, b).0, m.encrypt(a, b).1) == (a, b)
    && m.encrypt(m.decrypt(a, b).0, m.decrypt(a, b).1) == (a, b)
  }

  predicate Involution<W(==)>(m: Machine<W>, a: W, t: nat) {
    m.mix(m.mix(a, t), t) == a
  }

  ghost predicate Lawful<W(!new)>(m: Machine<W>) {
    && (forall a, b :: Inverse(m, a, b))
    && (forall a, t :: Involution(m, a, t))
  }

  /** A[t] and R[t][1..n]. */
  datatype Register<W> = Register(a: W, r: seq<W>)

  function ShiftStep<W>(m: Machine<W>, s: Register<W>, t: nat): (s': Register<W>)
    requires s.r != []
    ensures |s'.r| == |s.r|
  {
    var b := m.encrypt(s.a, s.r[0]);
    Register(m.mix(b.0, t), s.r[1..] + [b.1])
  }

  function UnshiftStep<W>(m: Machine<W>, s: Register<W>, t: nat): (s': Register<W>)
    requires s.r != []
    ensures |s'.r| == |s.r|
  {
    var n := |s.r|;
    var b := m.decrypt(m.mix(s.a, t), s.r[n - 1]);
    Register(b.0, [b.1] + s.r[..n - 1])
  }

  /** Steps t = 1, ..., last. */
  function Shift<W>(m: Machine<W>, s: Register<W>, last: nat): (s': Register<W>)
    requires s.r != []
    ensures |s'.r| == |s.r|
    decreases last
  {
    if last == 0 then s else ShiftStep(m, Shift(m, s, last - 1), last)
  }

  /** Steps t = last, ..., 1. */
  function Unshift<W>(m: Machine<W>, s: Register<W>, last: nat): (s': Register<W>)
    requires s.r != []
    ensures |s'.r| == |s.r|
    decreases last
  {
    if last == 0 then s else Unshift(m, UnshiftStep(m, s, last), last - 1)
  }

  lemma UnshiftStepUndoes<W(!new)>(m: Machine<W>, s: Register<W>, t: nat)
    requires Lawful(m) && s.r != []
    ensures UnshiftStep(m, ShiftStep(m, s, t), t) == s
  {
    assert Inverse(m, s.a, s.r[0]) && Involution(m, m.encrypt(s.a, s.r[0]).0, t);
    assert ShiftStep(m, s, t).r[..|s.r| - 1] == s.r[1..];
    assert [s.r[0]] + s.r[1..] == s.r;
  }

  lemma ShiftStepUndoes<W(!new)>(m: Machine<W>, s: Register<W>, t: nat)
    requires Lawful(m) && s.r != []
    ensures ShiftStep(m, UnshiftStep(m, s, t), t) == s
  {
    assert Involution(m, s.a, t) && Inverse(m, m.mix(s.a, t), s.r[|s.r| - 1]);
    assert UnshiftStep(m, s, t).r[1..] == s.r[..|s.r| - 1];
    assert s.r[..|s.r| - 1] + [s.r[|s.r| - 1]] == s.r;
  }

  lemma {:induction false} UnshiftUndoesShift<W(!new)>(m: Machine<W>, s: Register<W>, last: nat)
    requires Lawful(m) && s.r != []
    ensures Unshift(m, Shift(m, s, last), last) == s
    decreases last
  {
    if last > 0 {
      UnshiftStepUndoes(m, Shift(m, s, last - 1), last);
      UnshiftUndoesShift(m, s, last - 1);
    }
  }

  lemma {:induction false} ShiftUndoesUnshift<W(!new)>(m: Machine<W>, s: Register<W>, last: nat)
    requires Lawful(m) && s.r != []
    ensures Shift(m, Unshift(m, s, last), last) == s
    decreases last
  {
    if last > 0 {
      ShiftUndoesUnshift(m, UnshiftStep(m, s, last), last - 1);
      ShiftStepUndoes(m, s, last);
    }
  }

  // ---- the in-place loops ----

  /** The register array, read from position k on and wrapping around. */
  function Turned<W>(s: Register<W>, k: nat): (s': Register<W>)
    requires k <= |s.r|
    ensures |s'.r| == |s.r|
    ensures k == 0 || k == |s.r| ==> s' == s
  {
    Register(s.a, s.r[k..] + s.r[..k])
  }

  /** One inner step on register i (1-based), in the indexed form. */
  function IndexedStep<W>(m: Machine<W>, s: Register<W>, i: nat, t: nat): (s': Register<W>)
    requires 1 <= i <= |s.r|
    ensures |s'.r| == |s.r|
  {
    var b := m.encrypt(s.a, s.r[i - 1]);
    Register(m.mix(b.0, t), s.r[i - 1 := b.1])
  }

  function IndexedUnstep<W>(m: Machine<W>, s: Register<W>, i: nat, t: nat): (s': Register<W>)
    requires 1 <= i <= |s.r|
    ensures |s'.r| == |s.r|
  {
    var b := m.decrypt(m.mix(s.a, t), s.r[i - 1]);
    Register(b.0, s.r[i - 1 := b.1])
  }

  /** An indexed step on register i is a shift-register step, seen through the rotation. */
  lemma IndexedIsShift<W>(m: Machine<W>, s: Register<W>, i: nat, t: nat)
    requires 1 <= i <= |s.r|
    ensures Turned(IndexedStep(m, s, i, t), i) == ShiftStep(m, Turned(s, i - 1), t)
  {
    var x := m.encrypt(s.a, s.r[i - 1]).1;
    assert Turned(s, i - 1).r[0] == s.r[i - 1];
    assert Turned(s, i - 1).r[1..] + [x] == s.r[i - 1 := x][i..] + s.r[i - 1 := x][..i];
  }

  lemma IndexedIsUnshift<W>(m: Machine<W>, s: Register<W>, i: nat, t: nat)
    requires 1 <= i <= |s.r| && t > 0
    ensures Unshift(m, Turned(IndexedUnstep(m, s, i, t), i - 1), t - 1) == Unshift(m, Turned(s, i), t)
  {
    var n := |s.r|;
    var x := m.decrypt(m.mix(s.a, t), s.r[i - 1]).1;
    assert Turned(s, i).r[n - 1] == s.r[i - 1];
    assert [x] + Turned(s, i).r[..n - 1] == s.r[i - 1 := x][i - 1..] + s.r[i - 1 := x][..i - 1];
    assert Turned(IndexedUnstep(m, s, i, t), i - 1) == UnshiftStep(m, Turned(s, i), t);
  }

  /** The counter after j passes over n registers, as the loop accumulates it. */
  function Passes(n: nat, j: nat): (t: nat) {
    if j == 0 then 0 else Passes(n, j - 1) + n
  }

  lemma {:induction false} PassesIsProduct(n: nat, j: nat)
    ensures Passes(n, j) == n * j
  {
    if j > 0 {
      PassesIsProduct(n, j - 1);
    }
  }

  /**
   * wrapKey's two loops. After every inner step the counter is n*j + i, and the
   * register array turned by i is the shift register after that many steps.
   */
  method WrapPasses<W>(m: Machine<W>, iv: W, r: array<W>) returns (a: W)
    requires r.Length > 0
    modifies r
    ensures Register(a, r[..]) == Shift(m, Register(iv, old(r[..])), 6 * r.Length)
  {
    ghost var start := Register(iv, r[..]);
    var n := r.Length;
    a := iv;
    var t := 0;
    for j := 0 to 6
      invariant t == Passes(n, j)
      invariant Register(a, r[..]) == Shift(m, start, t)
    {
      var i := 1;
      while i <= n
        invariant 1 <= i <= n + 1
        invariant t == Passes(n, j) + (i - 1)
        invariant Turned(Register(a, r[..]), i - 1) == Shift(m, start, t)
      {
        t := t + 1;
        IndexedIsShift(m, Register(a, r[..]), i, t);
        var buf := m.encrypt(a, r[i - 1]);
        a := m.mix(buf.0, t);
        r[i - 1] := buf.1;
        i := i + 1;
      }
    }
    PassesIsProduct(n, 6);
  }

  /** unwrapKey's inner loop: registers n down to 1, the counter going down by one each time. */
  method UnwrapPass<W>(m: Machine<W>, first: W, r: array<W>, from: nat) returns (a: W, t: nat)
    requires r.Length > 0 && from >= r.Length
    modifies r
    ensures t == from - r.Length
    ensures Unshift(m, Register(a, r[..]), t) == Unshift(m, Register(first, old(r[..])), from)
  {
    ghost var goal := Unshift(m, Register(first, r[..]), from);
    a, t := first, from;
    var i := r.Length;
    while i >= 1
      invariant 0 <= i <= r.Length
      invariant t == from - r.Length + i
      invariant Unshift(m, Turned(Register(a, r[..]), i), t) == goal
    {
      ghost var s := Register(a, r[..]);
      IndexedIsUnshift(m, s, i, t);
      var buf := m.decrypt(m.mix(a, t), r[i - 1]);
      r[i - 1] := buf.1;
      a := buf.0;
      assert Register(a, r[..]) == IndexedUnstep(m, s, i, t);
      t := t - 1;
      i := i - 1;
    }
  }

  /** unwrapKey's two loops: the counter values of wrapKey in descending order, never below zero. */
  method UnwrapPasses<W>(m: Machine<W>, first: W, r: array<W>) returns (a: W)
    requires r.Length > 0
    modifies r
    ensures Register(a, r[..]) == Unshift(m, Register(first, old(r[..])), 6 * r.Length)
  {
    var n := r.Length;
    ghost var goal := Unshift(m, Register(first, r[..]), 6 * n);
    a := first;
    var t: nat := 6 * n;
    PassesIsProduct(n, 6);
    for j := 6 downto 0
      invariant t == Passes(n, j)
      invariant Unshift(m, Register(a, r[..]), t) == goal
    {
      a, t := UnwrapPass(m, a, r, t);
    }
  }

  // ---- wrapKey and unwrapKey on byte strings ----

  /** AES under a key, with its inverse. */
  datatype Cipher = Cipher(encrypt: (Bytes, (bv64, bv64)) -> (bv64, bv64), decrypt: (Bytes, (bv64, bv64)) -> (bv64, bv64))

  /** Under every key, decrypt and encrypt undo each other. */
  ghost predicate Permutation(c: Cipher) {
    && (forall k: Bytes, b: (bv64, bv64) :: c.decrypt(k, c.encrypt(k, b)) == b)
    && (forall k: Bytes, b: (bv64, bv64) :: c.encrypt(k, c.decrypt(k, b)) == b)
  }

  /** A uint64 incremented t times from zero, wrapping as the machine word does. */
  function Counter(t: nat): bv64 {
    if t == 0 then 0 else Counter(t - 1) + 1
  }

  function Keyed(c: Cipher, kek: Bytes): Machine<bv64> {
    Machine((a, b) => c.encrypt(kek, (a, b)), (a, b) => c.decrypt(kek, (a, b)), (a, t) => a ^ Counter(t))
  }

  lemma KeyedIsLawful(c: Cipher, kek: Bytes)
    requires Permutation(c)
    ensures Lawful(Keyed(c, kek))
  {
    var m := Keyed(c, kek);
    forall a, b ensures Inverse(m, a, b) {
      assert c.decrypt(kek, c.encrypt(kek, (a, b))) == (a, b);
      assert c.encrypt(kek, c.decrypt(kek, (a, b))) == (a, b);
    }
    forall a, t ensures Involution(m, a, t) {
      assert (a ^ Counter(t)) ^ Counter(t) == a;
    }
  }

  datatype Error = BadLength | BadKey | BadIntegrity

  /** Section 2.2.3.1 of RFC 3394. */
  const IV: bv64 := 0xA6A6_A6A6_A6A6_A6A6

  /** The key sizes aes.NewCipher accepts. */
  predicate IsAesKey(k: Bytes) {
    |k| == 16 || |k| == 24 || |k| == 32
  }

  /** The bytes a register run from `a` over the words of `plaintext` ends with. */
  function RunFrom(c: Cipher, kek: Bytes, a: bv64, plaintext: Bytes): (wrapped: Bytes)
    requires |plaintext| >= 16 && |plaintext| % 8 == 0
    ensures |wrapped| == |plaintext| + 8
  {
    var s := Shift(Keyed(c, kek), Register(a, Words(plaintext)), 6 * (|plaintext| / 8));
    OfWords([s.a] + s.r)
  }

  function Wrapped(c: Cipher, kek: Bytes, plaintext: Bytes): Result<Bytes, Error> {
    if |plaintext| < 16 || |plaintext| % 8 != 0 then Err(BadLength)
    else if !IsAesKey(kek) then Err(BadKey)
    else Ok(RunFrom(c, kek, IV, plaintext))
  }

  function Unwrapped(c: Cipher, kek: Bytes, wrapped: Bytes): Result<Bytes, Error> {
    if |wrapped| < 24 || |wrapped| % 8 != 0 then Err(BadIntegrity)
    else if !IsAesKey(kek) then Err(BadKey)
    else
      var w := Words(wrapped);
      var s := Unshift(Keyed(c, kek), Register(w[0], w[1..]), 6 * (|wrapped| / 8 - 1));
      if s.a == IV then Ok(OfWords(s.r)) else Err(BadIntegrity)
  }

  /**
   * Unwrapping what a register run ended with hands back what the run started
   * from, and is refused exactly when that was not the IV.
   */
  lemma UnwrapOfRun(c: Cipher, kek: Bytes, a: bv64, plaintext: Bytes)
    requires Permutation(c) && IsAesKey(kek)
    requires |plaintext| >= 16 && |plaintext| % 8 == 0
    ensures Unwrapped(c, kek, RunFrom(c, kek, a, plaintext)) == if a == IV then Ok(plaintext) else Err(BadIntegrity)
  {
    var last := 6 * (|plaintext| / 8);
    var start := Register(a, Words(plaintext));
    var s := Shift(Keyed(c, kek), start, last);
    WordsOfWords([s.a] + s.r);
    assert ([s.a] + s.r)[1..] == s.r;
    KeyedIsLawful(c, kek);
    UnshiftUndoesShift(Keyed(c, kek), start, last);
    OfWordsOfBytes(plaintext);
  }

  /** unwrap(wrap(p)) == p, for every key and every plaintext wrapKey accepts; the wrap is one word longer. */
  lemma UnwrapOfWrap(c: Cipher, kek: Bytes, plaintext: Bytes)
    requires Permutation(c)
    ensures Wrapped(c, kek, plaintext).Ok? <==> |plaintext| >= 16 && |plaintext| % 8 == 0 && IsAesKey(kek)
    ensures Wrapped(c, kek, plaintext).Ok? ==>
              && |Wrapped(c, kek, plaintext).value| == |plaintext| + 8
              && Unwrapped(c, kek, Wrapped(c, kek, plaintext).value) == Ok(plaintext)
  {
    if Wrapped(c, kek, plaintext).Ok? {
      UnwrapOfRun(c, kek, IV, plaintext);
    }
  }

  /** The converse: whatever unwrap accepts is exactly the wrap of what it returns. */
  lemma WrapOfUnwrap(c: Cipher, kek: Bytes, wrapped: Bytes)
    requires Permutation(c)
    requires Unwrapped(c, kek, wrapped).Ok?
    ensures |Unwrapped(c, kek, wrapped).value| == |wrapped| - 8
    ensures Wrapped(c, kek, Unwrapped(c, kek, wrapped).value) == Ok(wrapped)
  {
    var last := 6 * (|wrapped| / 8 - 1);
    var w := Words(wrapped);
    var start := Register(w[0], w[1..]);
    var s := Unshift(Keyed(c, kek), start, last);
    WordsOfWords(s.r);
    KeyedIsLawful(c, kek);
    ShiftUndoesUnshift(Keyed(c, kek), start, last);
    OfWordsOfBytes(wrapped);
    assert RunFrom(c, kek, IV, OfWords(s.r)) == OfWords(w) by {
      assert [w[0]] + w[1..] == w;
    }
  }

  // ---- the RFC's index-based wrapping, written out ----

  /** A and R[1..n]; r[i - 1] is R[i]. */
  datatype Rfc = Rfc(a: bv64, r: seq<bv64>)

  /** B = AES(K, A | R[i]); A = MSB(64, B) ^ t where t = (n*j)+i; R[i] = LSB(64, B). */
  function RfcStep(c: Cipher, kek: Bytes, s: Rfc, j: nat, i: nat): (s': Rfc)
    requires 1 <= i <= |s.r|
    ensures |s'.r| == |s.r|
  {
    var (msb, lsb) := c.encrypt(kek, (s.a, s.r[i - 1]));
    Rfc(msb ^ Counter(|s.r| * j + i), s.r[i - 1 := lsb])
  }

  /** What the initial values have become after j whole rounds and i steps of the next. */
  function RfcRounds(c: Cipher, kek: Bytes, words: seq<bv64>, j: nat, i: nat): (s: Rfc)
    requires i <= |words|
    ensures |s.r| == |words|
    decreases j, i
  {
    if i > 0 then RfcStep(c, kek, RfcRounds(c, kek, words, j, i - 1), j, i)
    else if j > 0 then RfcRounds(c, kek, words, j - 1, |words|)
    else Rfc(0xA6A6_A6A6_A6A6_A6A6, words)
  }

  /** Section 2.2.1 of RFC 3394: six rounds, and C[0] = A. */
  function RfcWrap(c: Cipher, kek: Bytes, plaintext: Bytes): Bytes
    requires |plaintext| % 8 == 0
  {
    var s := RfcRounds(c, kek, Words(plaintext), 6, 0);
    OfWords([s.a] + s.r)
  }

  const COUNT: nat -> bv64 := (t: nat) => Counter(t)
  const INC: bv64 -> bv64 := w => w + 1
  const DOUBLE: bv64 -> bv64 := w => w << 1

  predicate Succeeds<W(==)>(count: nat -> W, inc: W -> W, t: nat) {
    count(t + 1) == inc(count(t))
  }

  predicate Carries<W(==)>(inc: W -> W, double: W -> W, w: W) {
    double(inc(w)) == inc(inc(double(w)))
  }

  lemma {:induction false} CountingDoubles<W(!new)>(count: nat -> W, inc: W -> W, double: W -> W, t: nat)
    requires (forall n :: Succeeds(count, inc, n)) && (forall w :: Carries(inc, double, w)) && double(count(0)) == count(0)
    ensures count(2 * t) == double(count(t))
  {
    if t > 0 {
      CountingDoubles(count, inc, double, t - 1);
      assert Succeeds(count, inc, t - 1) && Succeeds(count, inc, 2 * (t - 1)) && Succeeds(count, inc, 2 * (t - 1) + 1);
      assert Carries(inc, double, count(t - 1));
      assert 2 * t == 2 * (t - 1) + 1 + 1;
    }
  }

  lemma CounterSucceeds(t: nat)
    ensures Succeeds(COUNT, INC, t)
  {
  }

  lemma DoubleCarries(w: bv64)
    ensures Carries(INC, DOUBLE, w)
  {
  }

  /** The counter is the number t in binary, as far as 64 digits go: digit by digit, 0 doubles and 1 doubles and adds one. */
  lemma CounterIsBinary(t: nat)
    ensures COUNT(0) == 0
    ensures COUNT(2 * t) == DOUBLE(COUNT(t))
    ensures COUNT(2 * t + 1) == INC(DOUBLE(COUNT(t)))
  {
    forall n: nat ensures Succeeds(COUNT, INC, n) {
      CounterSucceeds(n);
    }
    forall w ensures Carries(INC, DOUBLE, w) {
      DoubleCarries(w);
    }
    CountingDoubles(COUNT, INC, DOUBLE, t);
    assert Succeeds(COUNT, INC, 2 * t);
  }

  function Seen(s: Rfc): Register<bv64> {
    Register(s.a, s.r)
  }

  lemma RfcStepIsIndexed(c: Cipher, kek: Bytes, s: Rfc, j: nat, i: nat, t: nat)
    requires 1 <= i <= |s.r| && t == |s.r| * j + i
    ensures Seen(RfcStep(c, kek, s, j, i)) == IndexedStep(Keyed(c, kek), Seen(s), i, t)
  {
  }

  lemma ShiftsOnce<W>(m: Machine<W>, start: Register<W>, s: Register<W>, s': Register<W>, i: nat, t: nat)
    requires start.r != [] && 1 <= i <= |s.r| && t > 0
    requires s' == IndexedStep(m, s, i, t) && Turned(s, i - 1) == Shift(m, start, t - 1)
    ensures Turned(s', i) == Shift(m, start, t)
  {
    IndexedIsShift(m, s, i, t);
  }

  lemma OneRoundMore(n: nat, j: nat)
    requires j > 0
    ensures n * (j - 1) + n == n * j
  {
  }

  /** Index i of round j, turned to the front, is the register after t = n*j + i steps. */
  lemma {:induction false} RfcIsShift(c: Cipher, kek: Bytes, words: seq<bv64>, j: nat, i: nat, t: nat)
    requires words != [] && i <= |words| && t == |words| * j + i
    ensures Turned(Seen(RfcRounds(c, kek, words, j, i)), i) == Shift(Keyed(c, kek), Register(IV, words), t)
    decreases j, i
  {
    if i > 0 {
      RfcIsShift(c, kek, words, j, i - 1, t - 1);
      var s := RfcRounds(c, kek, words, j, i - 1);
      RfcStepIsIndexed(c, kek, s, j, i, t);
      ShiftsOnce(Keyed(c, kek), Register(IV, words), Seen(s), Seen(RfcStep(c, kek, s, j, i)), i, t);
    } else if j > 0 {
      OneRoundMore(|words|, j);
      RfcIsShift(c, kek, words, j - 1, |words|, t);
    } else {
      assert t == 0;
    }
  }

  /** What wrapKey computes is the RFC's index-based wrapping, byte for byte, and unwrapKey accepts exactly that. */
  lemma WrappedIsRfc(c: Cipher, kek: Bytes, plaintext: Bytes)
    requires |plaintext| >= 16 && |plaintext| % 8 == 0 && IsAesKey(kek)
    ensures Wrapped(c, kek, plaintext) == Ok(RfcWrap(c, kek, plaintext))
  {
    RfcIsShift(c, kek, Words(plaintext), 6, 0, 6 * (|plaintext| / 8));
  }

  lemma UnwrapsExactlyRfc(c: Cipher, kek: Bytes, plaintext: Bytes, wrapped: Bytes)
    requires Permutation(c) && |plaintext| >= 16 && |plaintext| % 8 == 0 && IsAesKey(kek)
    ensures Unwrapped(c, kek, wrapped) == Ok(plaintext) <==> wrapped == RfcWrap(c, kek, plaintext)
  {
    WrappedIsRfc(c, kek, plaintext);
    UnwrapOfWrap(c, kek, plaintext);
    if Unwrapped(c, kek, wrapped) == Ok(plaintext) {
      WrapOfUnwrap(c, kek, wrapped);
    }
  }

  /** 0xA6A6A6A6A6A6A6A6 ^ 1 ^ 2 ^ ... ^ last. */
  function Marked(last: nat): bv64 {
    if last == 0 then 0xA6A6_A6A6_A6A6_A6A6 else Marked(last - 1) ^ Counter(last)
  }

  const IDENTITY := Cipher((_, b) => b, (_, b) => b)

  /** What the steps add of their own: with a cipher that does nothing, the first word gathers the step numbers and the rest stays. */
  lemma IdentityWrap(kek: Bytes, plaintext: Bytes)
    requires |plaintext| >= 16 && |plaintext| % 8 == 0 && IsAesKey(kek)
    ensures Wrapped(IDENTITY, kek, plaintext) == Ok(PutUint64(Marked(6 * (|plaintext| / 8))) + plaintext)
  {
    var words := Words(plaintext);
    var a := Marked(6 * |words|);
    WrappedIsRfc(IDENTITY, kek, plaintext);
    IdentityRounds(kek, words, 6, 0, 6 * |words|);
    OfWordsFrom(a, words);
    OfWordsOfBytes(plaintext);
  }

  lemma OfWordsFrom(a: bv64, words: seq<bv64>)
    ensures OfWords([a] + words) == PutUint64(a) + OfWords(words)
  {
    assert ([a] + words)[1..] == words;
  }

  lemma IdentityStep(kek: Bytes, words: seq<bv64>, t: nat, j: nat, i: nat)
    requires 1 <= i <= |words| && t == |words| * j + i
    ensures RfcStep(IDENTITY, kek, Rfc(Marked(t - 1), words), j, i) == Rfc(Marked(t), words)
  {
  }

  lemma {:induction false} IdentityRounds(kek: Bytes, words: seq<bv64>, j: nat, i: nat, t: nat)
    requires words != [] && i <= |words| && t == |words| * j + i
    ensures RfcRounds(IDENTITY, kek, words, j, i) == Rfc(Marked(t), words)
    decreases j, i
  {
    if i > 0 {
      IdentityRounds(kek, words, j, i - 1, t - 1);
      IdentityStep(kek, words, t, j, i);
    } else if j > 0 {
      OneRoundMore(|words|, j);
      IdentityRounds(kek, words, j - 1, |words|, t);
    } else {
      assert t == 0;
    }
  }

  /** The byte order, on sixteen zero bytes: the twelve steps leave their mark in the last byte of the first word. */
  lemma IdentityWrapOfZeros(kek: Bytes)
    requires IsAesKey(kek)
    ensures Wrapped(IDENTITY, kek, Zeros(16)) == Ok([0xA6, 0xA6, 0xA6, 0xA6, 0xA6, 0xA6, 0xA6, 0xAA] + Zeros(16))
  {
    IdentityWrap(kek, Zeros(16));
    MarkOfTwelve();
  }

  lemma MarkOfTwelve()
    ensures PutUint64(Marked(12)) == [0xA6, 0xA6, 0xA6, 0xA6, 0xA6, 0xA6, 0xA6, 0xAA]
  {
    assert Counter(3) == 3 && Counter(6) == 6 && Counter(9) == 9 && Counter(12) == 12;
    assert Marked(3) == 0xA6A6_A6A6_A6A6_A6A6 && Marked(6) == 0xA6A6_A6A6_A6A6_A6A1 && Marked(9) == 0xA6A6_A6A6_A6A6_A6A7;
  }

  function Zeros(n: nat): (b: Bytes)
    ensures |b| == n
  {
    seq(n, _ => 0)
  }

  // ---- the methods ----

  method WrapKey(c: Cipher, kek: Bytes, plaintext: Bytes) returns (res: Result<Bytes, Error>)
    ensures res == Wrapped(c, kek, plaintext)
    ensures res.Ok? ==> res.value == RfcWrap(c, kek, plaintext)
    ensures res.Ok? <==> |plaintext| >= 16 && |plaintext| % 8 == 0 && IsAesKey(kek)
  {
    if |plaintext| < 16 || |plaintext| % 8 != 0 {
      return Err(BadLength);
    }
    if !IsAesKey(kek) {
      return Err(BadKey);
    }
    var words := Words(plaintext);
    var r := new bv64[|words|](i requires 0 <= i < |words| => words[i]);
    assert r[..] == words;
    var a := WrapPasses(Keyed(c, kek), IV, r);
    res := Ok(OfWords([a] + r[..]));
    WrappedIsRfc(c, kek, plaintext);
  }

  method UnwrapKey(c: Cipher, kek: Bytes, wrapped: Bytes) returns (res: Result<Bytes, Error>)
    ensures res == Unwrapped(c, kek, wrapped)
    ensures res.Ok? && Permutation(c) ==> |res.value| == |wrapped| - 8 && wrapped == RfcWrap(c, kek, res.value)
  {
    if |wrapped| < 24 || |wrapped| % 8 != 0 {
      return Err(BadIntegrity);
    }
    if !IsAesKey(kek) {
      return Err(BadKey);
    }
    var words := Words(wrapped);
    var r := new bv64[|words| - 1](i requires 0 <= i < |words| - 1 => words[i + 1]);
    assert r[..] == words[1..];
    var a := UnwrapPasses(Keyed(c, kek), words[0], r);
    if a == IV {
      res := Ok(OfWords(r[..]));
      if Permutation(c) {
        WrapOfUnwrap(c, kek, wrapped);
        WrappedIsRfc(c, kek, res.value);
      }
    } else {
      res := Err(BadIntegrity);
    }
  }
}
