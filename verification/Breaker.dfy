/**
 * The per-instance circuit breaker: closed, open, half-open, with a doubling,
 * capped and jittered cooldown.
 *
 * Circuit is the state under the mutex and the functions on it are the atomic
 * operations; a history is any sequence of them, in whatever order any number of
 * callers make them. Durations are nanoseconds.
 */
module Breaker {

  datatype State = Closed | Open | HalfOpen

  datatype Config = Config(threshold: int, base: int, max: int, jitter: real)

  const SECOND := 1_000_000_000
  const INT64 := 0x8000_0000_0000_0000

  /** WithDefaults: 5 failures, 5 s doubling to 15 min, 20 %. */
  function WithDefaults(c: Config): (r: Config)
    ensures ValidConfig(r)
    ensures ValidConfig(c) ==> r == c
  {
    Config(if c.threshold <= 0 then 5 else c.threshold,
           if c.base <= 0 then 5 * SECOND else c.base,
           if c.max <= 0 then 15 * 60 * SECOND else c.max,
           if c.jitter <= 0.0 then 0.2 else c.jitter)
  }

  lemma DefaultsAre()
    ensures WithDefaults(Config(0, 0, 0, 0.0)) == Config(5, 5_000_000_000, 900_000_000_000, 0.2)
    ensures WithDefaults(Config(3, -1, 7, 0.5)) == Config(3, 5_000_000_000, 7, 0.5)
  {
  }

  predicate ValidConfig(c: Config) {
    c.threshold > 0 && c.base > 0 && c.max > 0 && c.jitter > 0.0
  }

  // ---- the cooldown ----

  function Pow2(n: nat): (p: nat)
    ensures p > 0
  {
    if n == 0 then 1 else 2 * Pow2(n - 1)
  }

  lemma {:induction false} Pow2Monotone(m: nat, n: nat)
    requires m <= n
    ensures Pow2(m) <= Pow2(n)
  {
    if m < n {
      Pow2Monotone(m, n - 1);
    }
  }

  function Min(a: int, b: int): int {
    if a < b then a else b
  }

  /** The backoff before jitter: base * 2^(openings-1), capped. */
  function Backoff(c: Config, openings: nat): int
    requires openings > 0
  {
    Min(c.base * Pow2(openings - 1), c.max)
  }

  lemma BackoffMonotone(c: Config, m: nat, n: nat)
    requires ValidConfig(c) && 0 < m <= n
    ensures 0 < Backoff(c, m) <= Backoff(c, n) <= c.max
  {
    Pow2Monotone(m - 1, n - 1);
    Scale(c.base, 1, Pow2(m - 1));
    Scale(c.base, Pow2(m - 1), Pow2(n - 1));
  }

  lemma Scale(a: nat, p: nat, q: nat)
    requires p <= q
    ensures a * p <= a * q
  {
  }

  /** int64 arithmetic. */
  function Wrapped(n: int): int {
    (n + INT64) % (2 * INT64) - INT64
  }

  /** The first doubling of d that reaches max. */
  function Peak(d: int, max: int): (p: int)
    requires d > 0
    ensures p >= d
    decreases max - d
  {
    if d >= max then d else Peak(2 * d, max)
  }

  lemma {:induction false} PeakIsBounded(d: int, max: int)
    requires d > 0
    ensures Peak(d, max) < 2 * max || Peak(d, max) == d
    decreases max - d
  {
    if d < max {
      PeakIsBounded(2 * d, max);
    }
  }

  /** The doubling loop, at most n times, on unbounded integers and on int64. */
  function Doubled(d: int, max: int, n: nat): int
    decreases n
  {
    if n == 0 || d >= max then d else Doubled(2 * d, max, n - 1)
  }

  function Doubled64(d: int, max: int, n: nat): int
    decreases n
  {
    if n == 0 || d >= max then d else Doubled64(Wrapped(2 * d), max, n - 1)
  }

  /** The loop never wraps, however often the breaker opens, exactly when its peak is an int64. */
  lemma {:induction false} OverflowsExactlyWhen(d: int, max: int)
    requires 0 < d < INT64 && 0 < max < INT64
    ensures (forall n: nat :: Doubled64(d, max, n) == Doubled(d, max, n)) <==> Peak(d, max) < INT64
    ensures max <= INT64 / 2 ==> Peak(d, max) < INT64
  {
    PeakIsBounded(d, max);
    if Peak(d, max) < INT64 {
      forall n: nat ensures Doubled64(d, max, n) == Doubled(d, max, n) {
        DoesNotWrap(d, max, n);
      }
    } else {
      var n := ReachesPeak(d, max);
      StaysInt64(d, max, n);
    }
  }

  lemma {:induction false} DoesNotWrap(d: int, max: int, n: nat)
    requires 0 < d && Peak(d, max) < INT64
    ensures Doubled64(d, max, n) == Doubled(d, max, n)
    decreases n
  {
    if n > 0 && d < max {
      DoesNotWrap(2 * d, max, n - 1);
    }
  }

  lemma {:induction false} ReachesPeak(d: int, max: int) returns (n: nat)
    requires 0 < d
    ensures Doubled(d, max, n) == Peak(d, max)
    decreases max - d
  {
    if d >= max {
      n := 0;
    } else {
      var m := ReachesPeak(2 * d, max);
      n := m + 1;
    }
  }

  lemma {:induction false} StaysInt64(d: int, max: int, n: nat)
    requires d < INT64
    ensures Doubled64(d, max, n) < INT64
    decreases n
  {
    if n > 0 && d < max {
      StaysInt64(Wrapped(2 * d), max, n - 1);
    }
  }

  /** Unwrapped, the loop and the cap give base * 2^(openings-1), capped. */
  lemma {:induction false} DoubledIsBackoff(d: int, max: int, n: nat)
    requires d > 0
    ensures Min(Doubled(d, max, n), max) == Min(d * Pow2(n), max)
    decreases n
  {
    if n > 0 {
      if d < max {
        DoubledIsBackoff(2 * d, max, n - 1);
        assert 2 * d * Pow2(n - 1) == d * Pow2(n);
      } else {
        Scale(d, 1, Pow2(n));
      }
    }
  }

  /** time.Duration(float64(d) * jitter): truncation toward zero. */
  function Truncated(x: real): int {
    if x >= 0.0 then x.Floor else -((-x).Floor)
  }

  function Swing(fraction: real, r: real): real {
    Times(fraction, 2.0 * r - 1.0)
  }

  function Times(a: real, b: real): real {
    a * b
  }

  function Scaled(d: real, v: real): real {
    Times(d, 1.0 + v)
  }

  /** d scaled by 1 + fraction * (2r - 1). */
  function Jittered(d: int, fraction: real, r: real): int {
    Truncated(Scaled(d as real, Swing(fraction, r)))
  }

  /** The jittered cooldown, r being the random draw in [0, 1). */
  function Cooldown(c: Config, openings: nat, r: real): int
    requires openings > 0
  {
    Jittered(Backoff(c, openings), c.jitter, r)
  }

  /** Within ±JitterFraction of the backoff, up to the truncation of less than a nanosecond, and never in the past up to 100 %. */
  lemma CooldownIsNear(c: Config, openings: nat, r: real)
    requires ValidConfig(c) && openings > 0 && 0.0 <= r < 1.0
    ensures var d := Backoff(c, openings) as real;
            d - Times(d, c.jitter) - 1.0 < Cooldown(c, openings, r) as real <= d + Times(d, c.jitter)
    ensures c.jitter <= 1.0 ==> Cooldown(c, openings, r) >= 0
  {
    BackoffMonotone(c, openings, openings);
    var d := Backoff(c, openings) as real;
    SwingIsNear(c.jitter, r);
    Spread(d, c.jitter, Swing(c.jitter, r));
    TruncatedIsNear(Scaled(d, Swing(c.jitter, r)));
  }

  /** The middle draw is the backoff itself, and the lowest takes the whole fraction off. */
  lemma CooldownAt(c: Config, openings: nat)
    requires ValidConfig(c) && openings > 0
    ensures Cooldown(c, openings, 0.5) == Backoff(c, openings)
    ensures var d := Backoff(c, openings) as real; Cooldown(c, openings, 0.0) == Truncated(d - Times(d, c.jitter))
  {
    BackoffMonotone(c, openings, openings);
    var d := Backoff(c, openings) as real;
    TimesFacts(c.jitter, 0.0);
    TimesFacts(c.jitter, 1.0);
    TimesFacts(d, 0.0);
    TimesFacts(d, c.jitter);
    TimesFacts(d, -c.jitter);
    assert 2.0 * 0.5 - 1.0 == 0.0 && 2.0 * 0.0 - 1.0 == -1.0;
    assert Swing(c.jitter, 0.5) == 0.0 && Scaled(d, 0.0) == d;
    assert Swing(c.jitter, 0.0) == -c.jitter && Scaled(d, -c.jitter) == d - Times(d, c.jitter);
  }

  lemma SwingIsNear(fraction: real, r: real)
    requires fraction > 0.0 && 0.0 <= r < 1.0
    ensures -fraction <= Swing(fraction, r) <= fraction
  {
    TimesFacts(fraction, 1.0);
    TimesMonotone(fraction, -1.0, 2.0 * r - 1.0);
    TimesMonotone(fraction, 2.0 * r - 1.0, 1.0);
  }

  lemma TruncatedIsNear(x: real)
    ensures x - 1.0 < Truncated(x) as real < x + 1.0
    ensures x >= 0.0 ==> Truncated(x) as real <= x && Truncated(x) >= 0
    ensures x <= 0.0 ==> Truncated(x) <= 0
  {
  }

  lemma Spread(d: real, fraction: real, v: real)
    requires d > 0.0 && 0.0 < fraction && -fraction <= v <= fraction
    ensures d - Times(d, fraction) <= Scaled(d, v) <= d + Times(d, fraction)
    ensures 0.0 < d + Times(d, fraction)
    ensures fraction <= 1.0 ==> Scaled(d, v) >= 0.0
  {
    TimesFacts(d, fraction);
    TimesFacts(d, v);
    TimesMonotone(d, -fraction, v);
    TimesMonotone(d, v, fraction);
    if fraction <= 1.0 {
      TimesMonotone(d, fraction, 1.0);
    }
  }

  lemma TimesFacts(d: real, v: real)
    ensures Times(d, -v) == -Times(d, v) && Times(d, 1.0) == d && Times(d, 1.0 + v) == d + Times(d, v)
  {
  }

  lemma TimesMonotone(d: real, p: real, q: real)
    requires d > 0.0 && p <= q
    ensures Times(d, p) <= Times(d, q)
  {
  }

  // ---- the state machine ----

  datatype Circuit = Circuit(state: State, failures: nat, openings: nat, retryAt: int, probeInFlight: bool)

  const FRESH := Circuit(Closed, 0, 0, 0, false)

  function Allowed(b: Circuit, now: int): (Circuit, bool) {
    match b.state
    case Closed => (b, true)
    case Open => if now < b.retryAt then (b, false) else (b.(state := HalfOpen, probeInFlight := true), true)
    case HalfOpen => if b.probeInFlight then (b, false) else (b.(probeInFlight := true), true)
  }

  function Succeeded(b: Circuit): Circuit {
    FRESH
  }

  function Tripped(c: Config, b: Circuit, now: int, r: real): Circuit {
    b.(state := Open, failures := 0, openings := b.openings + 1, retryAt := now + Cooldown(c, b.openings + 1, r))
  }

  function Failed(c: Config, b: Circuit, now: int, r: real): Circuit {
    var b := b.(probeInFlight := false);
    if b.state == HalfOpen then Tripped(c, b, now, r)
    else if b.failures + 1 >= c.threshold then Tripped(c, b.(failures := b.failures + 1), now, r)
    else b.(failures := b.failures + 1)
  }

  /** What holds between any two operations. */
  predicate Sound(c: Config, b: Circuit) {
    && b.failures < c.threshold
    && (b.state == Closed ==> b.openings == 0)
    && (b.state != Closed ==> b.openings >= 1)
    && (b.state == HalfOpen <==> b.probeInFlight)
  }

  // ---- histories ----

  datatype Event = Allow(now: int) | Success | Failure(now: int, r: real)

  function After(c: Config, b: Circuit, e: Event): Circuit {
    match e
    case Allow(now) => Allowed(b, now).0
    case Success => Succeeded(b)
    case Failure(now, r) => Failed(c, b, now, r)
  }

  function Run(c: Config, b: Circuit, history: seq<Event>): Circuit {
    if history == [] then b else After(c, Run(c, b, history[..|history| - 1]), history[|history| - 1])
  }

  /** Over every history: in particular the half-open branch that admits a second probe is never taken. */
  lemma {:induction false} AlwaysSound(c: Config, history: seq<Event>)
    requires ValidConfig(c)
    ensures Sound(c, Run(c, FRESH, history))
  {
    if history != [] {
      AlwaysSound(c, history[..|history| - 1]);
    }
  }

  predicate IsOutcome(e: Event) {
    !e.Allow?
  }

  /**
   * Once half-open, every call is refused, at any time, until some outcome is
   * recorded: a probe whose outcome is never recorded leaves the breaker stuck.
   */
  lemma {:induction false} HalfOpenAdmitsNothing(c: Config, b: Circuit, calls: seq<Event>, now: int)
    requires Sound(c, b) && b.state == HalfOpen
    requires forall e <- calls :: !IsOutcome(e)
    ensures Run(c, b, calls) == b
    ensures !Allowed(Run(c, b, calls), now).1
  {
    if calls != [] {
      assert calls[|calls| - 1] in calls;
      HalfOpenAdmitsNothing(c, b, calls[..|calls| - 1], now);
    }
  }

  /** And any outcome, whichever call it belongs to, ends half-open: from then on some later call is admitted. */
  lemma OutcomeEndsHalfOpen(c: Config, b: Circuit, e: Event)
    requires ValidConfig(c) && Sound(c, b) && IsOutcome(e)
    ensures After(c, b, e).state != HalfOpen
    ensures exists now :: Allowed(After(c, b, e), now).1
  {
    var b' := After(c, b, e);
    assert Allowed(b', b'.retryAt).1;
  }

  /** Opening: exactly threshold failures in a row, from closed. */
  lemma {:induction false} OpensAtThreshold(c: Config, failures: seq<Event>)
    requires ValidConfig(c) && |failures| <= c.threshold && forall e <- failures :: e.Failure?
    ensures var b := Run(c, FRESH, failures);
            if |failures| < c.threshold then b == FRESH.(failures := |failures|)
            else b.state == Open && b.openings == 1
                 && b.retryAt == failures[|failures| - 1].now + Cooldown(c, 1, failures[|failures| - 1].r)
  {
    if failures != [] {
      assert failures[|failures| - 1] in failures;
      OpensAtThreshold(c, failures[..|failures| - 1]);
    }
  }

  lemma {:induction false} RunOn(c: Config, b: Circuit, first: seq<Event>, more: seq<Event>)
    ensures Run(c, b, first + more) == Run(c, Run(c, b, first), more)
  {
    if more == [] {
      assert first + more == first;
    } else {
      var n := |more| - 1;
      assert (first + more)[..|first| + n] == first + more[..n];
      RunOn(c, b, first, more[..n]);
    }
  }

  /** A success, whatever came before, forgets everything: it takes threshold further failures in a row to open the breaker. */
  lemma SuccessForgets(c: Config, history: seq<Event>, failures: seq<Event>)
    requires ValidConfig(c) && |failures| <= c.threshold && forall e <- failures :: e.Failure?
    ensures var b := Run(c, FRESH, history + [Success] + failures);
            if |failures| < c.threshold then b.state == Closed && b.failures == |failures| && b.openings == 0
            else b.state == Open && b.openings == 1
  {
    RunOn(c, FRESH, history + [Success], failures);
    RunOn(c, FRESH, history, [Success]);
    assert [Success][..0] == [];
    OpensAtThreshold(c, failures);
  }

  /** A probe let through in time that fails. */
  datatype Round = Round(begins: int, fails: int, r: real)

  function RoundEvents(rounds: seq<Round>): seq<Event> {
    if rounds == [] then []
    else
      var n := |rounds| - 1;
      RoundEvents(rounds[..n]) + [Allow(rounds[n].begins), Failure(rounds[n].fails, rounds[n].r)]
  }

  /** Each probe begins once the cooldown of the opening before it has passed. */
  predicate InTime(c: Config, b: Circuit, rounds: seq<Round>) {
    rounds == [] ||
    var n := |rounds| - 1;
    InTime(c, b, rounds[..n]) && rounds[n].begins >= Run(c, b, RoundEvents(rounds[..n])).retryAt
  }

  /**
   * Without a success in between, the n-th opening waits the cooldown of n: base
   * doubled n - 1 times, capped, and jittered. One failed probe opens again.
   */
  lemma {:induction false} EachOpeningWaitsLonger(c: Config, failures: seq<Event>, rounds: seq<Round>)
    requires ValidConfig(c) && |failures| == c.threshold && forall e <- failures :: e.Failure?
    requires rounds != [] && InTime(c, Run(c, FRESH, failures), rounds)
    ensures var b := Run(c, FRESH, failures + RoundEvents(rounds));
            var (n, last) := (|rounds| + 1, rounds[|rounds| - 1]);
            && b.state == Open && b.openings == n
            && b.retryAt == last.fails + Jittered(Min(c.base * Pow2(n - 1), c.max), c.jitter, last.r)
    decreases |rounds|
  {
    var n := |rounds| - 1;
    var start := Run(c, FRESH, failures);
    var (init, last) := (rounds[..n], rounds[n]);
    OpensAtThreshold(c, failures);
    var b := Run(c, start, RoundEvents(init));
    if init != [] {
      EachOpeningWaitsLonger(c, failures, init);
      RunOn(c, FRESH, failures, RoundEvents(init));
    }
    assert b.state == Open && b.openings == n + 1;
    RunOn(c, FRESH, failures, RoundEvents(rounds));
    RunOn(c, start, RoundEvents(init), [Allow(last.begins), Failure(last.fails, last.r)]);
    TwoEvents(c, b, Allow(last.begins), Failure(last.fails, last.r));
  }

  lemma TwoEvents(c: Config, b: Circuit, e: Event, f: Event)
    ensures Run(c, b, [e, f]) == After(c, After(c, b, e), f)
  {
    assert [e, f][..1] == [e] && [e][..0] == [];
    assert Run(c, b, [e]) == After(c, Run(c, b, []), e);
    assert Run(c, b, [e, f]) == After(c, Run(c, b, [e]), f);
  }

  // ---- what is shown ----

  /** An open breaker whose cooldown has elapsed reads as half-open. */
  function Shown(b: Circuit, now: int): State {
    if b.state == Open && now >= b.retryAt then HalfOpen else b.state
  }

  function RetryAt(b: Circuit): int {
    if b.state == Closed then 0 else b.retryAt
  }

  /** What is shown agrees with what the next call meets, and a breaker shown open admits from the time shown on. */
  lemma ShownIsWhatIsMet(c: Config, b: Circuit, now: int)
    requires Sound(c, b)
    ensures Allowed(b, now).1 <==> Shown(b, now) == Closed || (Shown(b, now) == HalfOpen && !b.probeInFlight)
    ensures b.state == Open ==> (Allowed(b, now).1 <==> now >= RetryAt(b))
    ensures Run(c, b, [Allow(now)]) == Allowed(b, now).0
  {
    assert [Allow(now)][..0] == [];
  }

  // ---- the object ----

  class CircuitBreaker {
    const cfg: Config
    var state: State
    var failures: nat
    var openings: nat
    var retryAt: int
    var probeInFlight: bool

    function Value(): Circuit
      reads this
    {
      Circuit(state, failures, openings, retryAt, probeInFlight)
    }

    ghost predicate Valid()
      reads this
    {
      ValidConfig(cfg) && Peak(cfg.base, cfg.max) < INT64 && Sound(cfg, Value())
    }

    constructor (cfg: Config)
      requires Peak(WithDefaults(cfg).base, WithDefaults(cfg).max) < INT64
      ensures Valid() && Value() == FRESH && this.cfg == WithDefaults(cfg)
    {
      this.cfg := WithDefaults(cfg);
      state, failures, openings, retryAt, probeInFlight := Closed, 0, 0, 0, false;
    }

    method Allow(now: int) returns (ok: bool)
      requires Valid()
      modifies this
      ensures Valid() && (Value(), ok) == Allowed(old(Value()), now)
    {
      match state
      case Closed => ok := true;
      case Open =>
        if now < retryAt {
          return false;
        }
        state := HalfOpen;
        probeInFlight := true;
        ok := true;
      case HalfOpen =>
        // Sound: the probe is always in flight here, so this refuses.
        ok := !probeInFlight;
    }

    method Success()
      requires Valid()
      modifies this
      ensures Valid() && Value() == Succeeded(old(Value()))
    {
      state, failures, openings, probeInFlight, retryAt := Closed, 0, 0, false, 0;
    }

    method Failure(now: int, r: real)
      requires Valid() && 0.0 <= r < 1.0
      modifies this
      ensures Valid() && Value() == Failed(cfg, old(Value()), now, r)
    {
      probeInFlight := false;
      if state == HalfOpen {
        Trip(now, r);
        return;
      }
      failures := failures + 1;
      if failures >= cfg.threshold {
        Trip(now, r);
      }
    }

    method Trip(now: int, r: real)
      requires ValidConfig(cfg) && Peak(cfg.base, cfg.max) < INT64 && 0.0 <= r < 1.0
      modifies this`state, this`failures, this`openings, this`retryAt
      ensures Value() == Tripped(cfg, old(Value()), now, r)
    {
      state := Open;
      failures := 0;
      openings := openings + 1;
      var d := NextCooldown(r);
      retryAt := now + d;
    }

    /** cooldown: doubling in a loop of int64s, then the cap, then the jitter. */
    method NextCooldown(r: real) returns (d: int)
      requires ValidConfig(cfg) && Peak(cfg.base, cfg.max) < INT64 && openings > 0
      ensures d == Cooldown(cfg, openings, r)
    {
      d := cfg.base;
      var i: nat := 1;
      while i < openings && d < cfg.max
        invariant 1 <= i <= openings && 0 < d <= Peak(cfg.base, cfg.max)
        invariant Doubled(d, cfg.max, openings - i) == Doubled(cfg.base, cfg.max, openings - 1)
        invariant Peak(d, cfg.max) == Peak(cfg.base, cfg.max)
      {
        d := Wrapped(d * 2);
        i := i + 1;
      }
      DoubledIsBackoff(cfg.base, cfg.max, openings - 1);
      if d > cfg.max {
        d := cfg.max;
      }
      d := Jittered(d, cfg.jitter, r);
    }

    /** State: what a health page shows, without taking the probe slot. */
    method ShowState(now: int) returns (s: State)
      ensures s == Shown(Value(), now)
    {
      if state == Open && now >= retryAt {
        return HalfOpen;
      }
      s := state;
    }

    /** RetryAt: zero when closed. */
    method ShowRetryAt() returns (t: int)
      ensures t == RetryAt(Value())
    {
      t := if state == Closed then 0 else retryAt;
    }
  }
}
