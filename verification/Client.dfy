/**
 * The BookOrbit client: one wire exchange through the breaker, the single-flight
 * access token, and the re-mint retry on top of both.
 *
 * Times are seconds. An exchange or a mint is one step with an arbitrary legal
 * answer; what the other goroutines of the process do to the breaker and to the
 * session in between is an arbitrary function.
 */
module Client {
  import opened Wrappers
  import opened Breaker

  // ---- one exchange ----

  /** How a wire exchange can end, in the order the client classifies it. */
  datatype Wire =
    | BuildFailed
    | PolicyRefused
    | DeadlineExceeded
    | Canceled
    | NetworkFailed
    | TooLarge(status: int)
    | Answered(status: int, token: Option<Session>)

  /** The in-memory credential; a token is never empty once minted. */
  datatype Session = Session(token: string, expires: int)

  datatype Error = BreakerOpen | InvalidRequest | Timeout | CallCanceled | ServerError | ResponseTooLarge | NoCredential | MintRefused

  /** What the exchange tells the breaker: nothing, success or failure. */
  function Outcome(w: Wire): Option<bool> {
    match w
    case BuildFailed | PolicyRefused | Canceled => None
    case DeadlineExceeded | NetworkFailed => Some(false)
    case TooLarge(status) => Some(status < 500)
    case Answered(status, _) => Some(status < 500)
  }

  function Exchanged(w: Wire): Result<(int, Option<Session>), Error> {
    match w
    case BuildFailed | PolicyRefused => Err(InvalidRequest)
    case Canceled => Err(CallCanceled)
    case DeadlineExceeded => Err(Timeout)
    case NetworkFailed => Err(ServerError)
    case TooLarge(_) => Err(ResponseTooLarge)
    case Answered(status, token) => Ok((status, token))
  }

  /** What counts against the upstream: a deadline, the network, or a status of 500 and up; an answer below that counts for it, whatever it says. */
  lemma OutcomeMeans(w: Wire)
    ensures Outcome(w) == Some(false) <==>
              w.DeadlineExceeded? || w.NetworkFailed? || ((w.TooLarge? || w.Answered?) && w.status >= 500)
    ensures Outcome(w) == Some(true) <==> (w.TooLarge? || w.Answered?) && w.status < 500
    ensures Exchanged(w).Ok? <==> w.Answered?
  {
  }

  // ---- any number of calls on one breaker ----

  /** The breaker, the admitted calls that have not ended, and how the others ended. */
  datatype Traffic = Traffic(circuit: Circuit, inFlight: set<nat>, admitted: nat, recorded: nat, silent: nat)

  datatype Step = Begin(call: nat, at: int) | Finish(call: nat, wire: Wire, at: int, r: real)

  predicate Enabled(t: Traffic, s: Step) {
    match s
    case Begin(call, _) => call !in t.inFlight
    case Finish(call, _, _, _) => call in t.inFlight
  }

  function Fed(c: Config, b: Circuit, outcome: Option<bool>, at: int, r: real): Circuit {
    match outcome
    case None => b
    case Some(ok) => if ok then Succeeded(b) else Failed(c, b, at, r)
  }

  function Moved(c: Config, t: Traffic, s: Step): Traffic
    requires Enabled(t, s)
  {
    match s
    case Begin(call, at) =>
      var (b, ok) := Allowed(t.circuit, at);
      if ok then t.(circuit := b, inFlight := t.inFlight + {call}, admitted := t.admitted + 1) else t
    case Finish(call, wire, at, r) =>
      var t := t.(circuit := Fed(c, t.circuit, Outcome(wire), at, r), inFlight := t.inFlight - {call});
      if Outcome(wire).Some? then t.(recorded := t.recorded + 1) else t.(silent := t.silent + 1)
  }

  const QUIET := Traffic(FRESH, {}, 0, 0, 0)

  /** A legal interleaving from t, and where it ends. */
  predicate Legal(c: Config, t: Traffic, steps: seq<Step>)
    decreases |steps|, 0
  {
    steps == [] || (Legal(c, t, steps[..|steps| - 1]) && Enabled(Ends(c, t, steps[..|steps| - 1]), steps[|steps| - 1]))
  }

  function Ends(c: Config, t: Traffic, steps: seq<Step>): Traffic
    requires Legal(c, t, steps)
    decreases |steps|, 1
  {
    if steps == [] then t else Moved(c, Ends(c, t, steps[..|steps| - 1]), steps[|steps| - 1])
  }

  /** A half-open breaker whose probe has gone without saying anything. */
  predicate Stuck(t: Traffic) {
    t.circuit.state == HalfOpen && t.inFlight == {}
  }

  /**
   * Every admitted exchange is in flight, or recorded one outcome, or ended in
   * one of the three ways that record none; and the breaker stays sound.
   */
  lemma {:induction false} EveryExchangeIsAccountedFor(c: Config, steps: seq<Step>)
    requires ValidConfig(c) && Legal(c, QUIET, steps)
    ensures var t := Ends(c, QUIET, steps);
            t.admitted == t.recorded + t.silent + |t.inFlight| && Sound(c, t.circuit)
            && (Stuck(t) ==> t.silent > 0)
  {
    if steps != [] {
      EveryExchangeIsAccountedFor(c, steps[..|steps| - 1]);
      MoveAccounts(c, Ends(c, QUIET, steps[..|steps| - 1]), steps[|steps| - 1]);
    }
  }

  lemma MoveAccounts(c: Config, t: Traffic, s: Step)
    requires ValidConfig(c) && Enabled(t, s) && Sound(c, t.circuit)
    requires t.admitted == t.recorded + t.silent + |t.inFlight| && (Stuck(t) ==> t.silent > 0)
    ensures var t' := Moved(c, t, s);
            t'.admitted == t'.recorded + t'.silent + |t'.inFlight| && Sound(c, t'.circuit)
            && (Stuck(t') ==> t'.silent > 0)
  {
    if s.Finish? {
      assert |t.inFlight| == |t.inFlight - {s.call}| + 1;
    }
  }

  lemma Extended(c: Config, t: Traffic, steps: seq<Step>, s: Step)
    requires Legal(c, t, steps) && Enabled(Ends(c, t, steps), s)
    ensures Legal(c, t, steps + [s]) && Ends(c, t, steps + [s]) == Moved(c, Ends(c, t, steps), s)
  {
    assert (steps + [s])[..|steps|] == steps;
  }

  /** A breaker gets stuck only when the last call in flight ends silently. */
  lemma OnlySilenceSticks(c: Config, t: Traffic, s: Step)
    requires ValidConfig(c) && Sound(c, t.circuit) && Enabled(t, s)
    requires !Stuck(t) && Stuck(Moved(c, t, s))
    ensures s.Finish? && Outcome(s.wire) == None && t.inFlight == {s.call} && t.circuit.state == HalfOpen
  {
  }

  /** Stuck is for good: nothing can end, and nothing is admitted. */
  lemma StuckStaysStuck(c: Config, t: Traffic, s: Step)
    requires Sound(c, t.circuit) && Stuck(t) && Enabled(t, s)
    ensures Moved(c, t, s) == t
  {
  }

  /** One call on a closed breaker that fails on the network. */
  lemma OneCallFails(c: Config, before: seq<Step>, call: nat, r: real) returns (steps: seq<Step>)
    requires Legal(c, QUIET, before) && Ends(c, QUIET, before).circuit.state == Closed && call !in Ends(c, QUIET, before).inFlight
    ensures Legal(c, QUIET, steps) && Ends(c, QUIET, steps).inFlight == Ends(c, QUIET, before).inFlight
    ensures Ends(c, QUIET, steps).circuit == Failed(c, Ends(c, QUIET, before).circuit, 0, r)
  {
    var t := Ends(c, QUIET, before);
    Extended(c, QUIET, before, Begin(call, 0));
    steps := before + [Begin(call, 0)];
    Extended(c, QUIET, steps, Finish(call, NetworkFailed, 0, r));
    steps := steps + [Finish(call, NetworkFailed, 0, r)];
    assert t.inFlight + {call} - {call} == t.inFlight;
  }

  lemma FailureCounts(c: Config, n: nat, r: real)
    requires n < c.threshold
    ensures Failed(c, FRESH.(failures := n), 0, r) ==
              if n + 1 < c.threshold then FRESH.(failures := n + 1) else Circuit(Open, 0, 1, Cooldown(c, 1, r), false)
  {
  }

  /** n calls in turn that fail on the network, on a breaker that has recorded no failure so far. */
  lemma {:induction false} FailingCalls(c: Config, before: seq<Step>, call: nat, n: nat, r: real) returns (steps: seq<Step>)
    requires ValidConfig(c) && n <= c.threshold && Legal(c, QUIET, before)
    requires Ends(c, QUIET, before).circuit == FRESH && call !in Ends(c, QUIET, before).inFlight
    ensures Legal(c, QUIET, steps) && Ends(c, QUIET, steps).inFlight == Ends(c, QUIET, before).inFlight
    ensures Ends(c, QUIET, steps).circuit ==
              if n < c.threshold then FRESH.(failures := n) else Circuit(Open, 0, 1, Cooldown(c, 1, r), false)
  {
    steps := before;
    if n > 0 {
      steps := FailingCalls(c, before, call, n - 1, r);
      FailureCounts(c, n - 1, r);
      steps := OneCallFails(c, steps, call, r);
    }
  }

  /** Stuck states are reachable under every configuration: open the breaker, wait, and cancel the probe. */
  lemma StuckIsReachable(c: Config, r: real)
    requires ValidConfig(c)
    ensures exists steps :: Legal(c, QUIET, steps) && Stuck(Ends(c, QUIET, steps))
  {
    var at := Cooldown(c, 1, r);
    var steps := FailingCalls(c, [], 0, c.threshold, r);
    Extended(c, QUIET, steps, Begin(1, at));
    steps := steps + [Begin(1, at)];
    Extended(c, QUIET, steps, Finish(1, Canceled, at, r));
    assert Stuck(Ends(c, QUIET, steps + [Finish(1, Canceled, at, r)]));
  }

  // ---- one probe at a time ----

  predicate Records(s: Step) {
    s.Finish? && Outcome(s.wire).Some?
  }

  /** The call does not end during the steps. */
  predicate Spares(steps: seq<Step>, call: nat) {
    forall s <- steps :: s.Finish? ==> s.call != call
  }

  /** Some call would be admitted now, or after the wait. */
  ghost predicate CanAdmit(t: Traffic) {
    exists now :: Allowed(t.circuit, now).1
  }

  /** There is a moment of the run at which a call would be admitted. */
  ghost predicate EverAdmits(c: Config, t: Traffic, steps: seq<Step>)
    requires Legal(c, t, steps)
    decreases |steps|
  {
    CanAdmit(Ends(c, t, steps)) || (steps != [] && EverAdmits(c, t, steps[..|steps| - 1]))
  }

  /** The last step began the call, and took a breaker that was not half-open to half-open: the call is the probe. */
  predicate Probing(c: Config, steps: seq<Step>, call: nat) {
    && steps != [] && Legal(c, QUIET, steps)
    && steps[|steps| - 1].Begin? && steps[|steps| - 1].call == call
    && Ends(c, QUIET, steps[..|steps| - 1]).circuit.state != HalfOpen
    && Ends(c, QUIET, steps).circuit.state == HalfOpen
  }

  /**
   * While the probe is in flight no other call is admitted, at any time, exactly
   * until some other call's end records an outcome.
   */
  lemma {:induction false} ProbeIsAloneUntil(c: Config, t: Traffic, steps: seq<Step>, probe: nat)
    requires ValidConfig(c) && Sound(c, t.circuit) && t.circuit.state == HalfOpen && probe in t.inFlight
    requires Legal(c, t, steps) && Spares(steps, probe)
    ensures probe in Ends(c, t, steps).inFlight
    ensures EverAdmits(c, t, steps) <==> exists s :: s in steps && Records(s) && s.call != probe
    ensures !EverAdmits(c, t, steps) ==>
              Ends(c, t, steps).admitted == t.admitted && Ends(c, t, steps).inFlight <= t.inFlight
              && Ends(c, t, steps).circuit == t.circuit
    decreases |steps|
  {
    if steps == [] {
      assert !CanAdmit(t);
    } else {
      var n := |steps| - 1;
      var (init, s) := (steps[..n], steps[n]);
      assert s in steps && forall q :: q in steps ==> q in init || q == s;
      ProbeIsAloneUntil(c, t, init, probe);
      if !EverAdmits(c, t, init) {
        OneStepAdmits(c, Ends(c, t, init), s);
      }
    }
  }

  lemma OneStepAdmits(c: Config, t: Traffic, s: Step)
    requires ValidConfig(c) && Sound(c, t.circuit) && t.circuit.state == HalfOpen && Enabled(t, s)
    ensures CanAdmit(Moved(c, t, s)) <==> Records(s)
    ensures !Records(s) ==> Moved(c, t, s).circuit == t.circuit && Moved(c, t, s).admitted == t.admitted
                            && Moved(c, t, s).inFlight <= t.inFlight
  {
    if Records(s) {
      var b := Moved(c, t, s).circuit;
      assert Allowed(b, b.retryAt).1;
    }
  }

  /** So another call can be admitted beside the probe exactly when the probe is not the only call in flight. */
  lemma SecondProbeExactlyWhen(c: Config, t: Traffic, probe: nat)
    requires ValidConfig(c) && Sound(c, t.circuit) && t.circuit.state == HalfOpen && probe in t.inFlight
    ensures (exists steps :: Legal(c, t, steps) && Spares(steps, probe) && Ends(c, t, steps).admitted > t.admitted)
            <==> t.inFlight != {probe}
  {
    if t.inFlight != {probe} {
      var other :| other in t.inFlight && other != probe;
      var fail := Finish(other, NetworkFailed, 0, 0.0);
      var freed := Moved(c, t, fail);
      var again := Begin(other, freed.circuit.retryAt);
      Extended(c, t, [], fail);
      Extended(c, t, [fail], again);
      assert [] + [fail] == [fail];
      assert Spares([fail] + [again], probe);
    } else {
      forall steps | Legal(c, t, steps) && Spares(steps, probe) ensures Ends(c, t, steps).admitted == t.admitted {
        AloneThroughout(c, t, steps, probe);
      }
    }
  }

  lemma {:induction false} AloneThroughout(c: Config, t: Traffic, steps: seq<Step>, probe: nat)
    requires ValidConfig(c) && Sound(c, t.circuit) && t.circuit.state == HalfOpen && t.inFlight == {probe}
    requires Legal(c, t, steps) && Spares(steps, probe)
    ensures Ends(c, t, steps) == t
    decreases |steps|
  {
    if steps != [] {
      AloneThroughout(c, t, steps[..|steps| - 1], probe);
      assert steps[|steps| - 1] in steps;
    }
  }

  /** Call `probe` is the probe when `before` ends, and is still in flight when `after` ends with another one admitted. */
  ghost predicate TwoProbes(c: Config, before: seq<Step>, after: seq<Step>, probe: nat, second: nat) {
    && Probing(c, before, probe) && second !in Ends(c, QUIET, before).inFlight
    && Legal(c, Ends(c, QUIET, before), after) && Spares(after, probe)
    && Ends(c, Ends(c, QUIET, before), after).circuit.state == HalfOpen
    && Ends(c, Ends(c, QUIET, before), after).inFlight == {probe, second}
  }

  /**
   * Which happens under every configuration: a call admitted while the breaker
   * was closed fails after the probe has begun, and that failure frees the slot.
   */
  lemma StragglerFreesTheProbe(c: Config, r: real)
    requires ValidConfig(c)
    ensures exists before, after :: TwoProbes(c, before, after, 1, 2)
  {
    Extended(c, QUIET, [], Begin(0, 0));
    var before := FailingCalls(c, [] + [Begin(0, 0)], 3, c.threshold, r);
    var at := Cooldown(c, 1, r);
    Extended(c, QUIET, before, Begin(1, at));
    assert (before + [Begin(1, at)])[..|before|] == before;
    before := before + [Begin(1, at)];
    var t := Ends(c, QUIET, before);
    var fail := Finish(0, NetworkFailed, at, r);
    var again := Begin(2, Moved(c, t, fail).circuit.retryAt);
    Extended(c, t, [], fail);
    Extended(c, t, [] + [fail], again);
    assert TwoProbes(c, before, [] + [fail] + [again], 1, 2);
  }

  // ---- the access token ----

  const REFRESH_SKEW := 60
  const FALLBACK_TOKEN_TTL := 300
  const NO_SESSION := Session("", 0)

  predicate Usable(s: Session, now: int) {
    s.token != "" && now + REFRESH_SKEW < s.expires
  }

  /** The expiry taken from the exp claim, if it can be read and lies ahead. */
  function TokenExpiry(now: int, exp: Option<int>): int {
    if exp.Some? && exp.value > 0 && exp.value > now then exp.value else now + FALLBACK_TOKEN_TTL
  }

  /** A new session is usable at once unless its claim falls inside the refresh skew; no claim can leave it expired. */
  lemma FreshSessionIsUsable(token: string, now: int, exp: Option<int>)
    requires token != ""
    ensures TokenExpiry(now, exp) > now
    ensures TokenExpiry(now, exp) == now + 300 || exp == Some(TokenExpiry(now, exp))
    ensures Usable(Session(token, TokenExpiry(now, exp)), now) <==>
              !(exp.Some? && exp.value > 0 && now < exp.value <= now + 60)
  {
  }

  /** One call of accessToken: it holds authMu throughout, so calls take place one after the other. */
  datatype Access = Access(stale: string, now: int, expired: bool, minted: Option<Session>)

  /** Whether the call gets as far as trying to mint. */
  predicate Mints(s: Session, configured: bool, a: Access) {
    && !a.expired && configured
    && !(a.stale != "" && s.token != a.stale)
    && !(a.stale == "" && Usable(s, a.now))
  }

  function Held(s: Session, configured: bool, a: Access): Session {
    if !Mints(s, configured, a) then s
    else if a.minted.Some? then a.minted.value else NO_SESSION
  }

  function Got(s: Session, configured: bool, a: Access): Result<string, Error> {
    if a.expired then Err(Timeout)
    else if a.stale != "" && s.token != a.stale then Ok(s.token)
    else if a.stale == "" && Usable(s, a.now) then Ok(s.token)
    else if !configured then Err(NoCredential)
    else if a.minted.Some? then Ok(a.minted.value.token) else Err(MintRefused)
  }

  function HeldAfter(s: Session, configured: bool, calls: seq<Access>): Session
    decreases |calls|
  {
    if calls == [] then s else HeldAfter(Held(s, configured, calls[0]), configured, calls[1..])
  }

  /** How many of the calls that bring this stale token try to mint. */
  function MintsFor(s: Session, configured: bool, calls: seq<Access>, stale: string): nat
    decreases |calls|
  {
    if calls == [] then 0
    else (if calls[0].stale == stale && Mints(s, configured, calls[0]) then 1 else 0)
         + MintsFor(Held(s, configured, calls[0]), configured, calls[1..], stale)
  }

  /**
   * Single flight: among any number of calls that bring the same rejected token,
   * interleaved with any others, at most one tries to mint, as long as no mint
   * hands that token out again.
   */
  lemma {:induction false} OneMintPerStaleToken(s: Session, configured: bool, calls: seq<Access>, stale: string)
    requires stale != ""
    requires forall a <- calls :: a.minted.Some? ==> a.minted.value.token != stale
    ensures MintsFor(s, configured, calls, stale) <= if s.token == stale then 1 else 0
    ensures s.token != stale ==> HeldAfter(s, configured, calls).token != stale
    decreases |calls|
  {
    if calls != [] {
      assert calls[0] in calls;
      OneMintPerStaleToken(Held(s, configured, calls[0]), configured, calls[1..], stale);
    }
  }

  /** And without that proviso it is false: a mint that hands the rejected token out again is repeated by the next caller. */
  lemma RepeatedTokenMintsAgain(s: Session, stale: string, now: int)
    requires stale != "" && s.token == stale
    ensures var again := Access(stale, now, false, Some(s)); MintsFor(s, true, [again, again], stale) == 2
  {
    var again := Access(stale, now, false, Some(s));
    assert [again, again][1..] == [again] && [again][1..] == [];
    assert Held(s, true, again) == s && Mints(s, true, again);
    assert MintsFor(s, true, [again], stale) == 1;
  }

  /** A caller is handed the empty token, without an error, exactly when it brings a stale one and finds the session cleared. */
  lemma EmptyTokenExactlyWhen(s: Session, configured: bool, a: Access)
    requires a.minted.Some? ==> a.minted.value.token != ""
    ensures Got(s, configured, a) == Ok("") <==> !a.expired && a.stale != "" && s.token == ""
  {
  }

  /** Which is what a waiter meets after the mint ahead of it failed. */
  lemma WaiterAfterFailedMint(s: Session, configured: bool, first: Access, waiter: Access)
    requires Mints(s, configured, first) && first.minted == None
    requires waiter.stale != "" && !waiter.expired && (waiter.minted.Some? ==> waiter.minted.value.token != "")
    ensures Got(Held(s, configured, first), configured, waiter) == Ok("")
  {
    EmptyTokenExactlyWhen(Held(s, configured, first), configured, waiter);
  }

  // ---- the object ----

  class BookOrbit {
    const breaker: CircuitBreaker
    const configured: bool
    var session: Session
    var tick: nat

    const clock: nat -> int
    const draw: nat -> real
    const expired: nat -> bool
    const wire: nat -> Wire
    /** What other calls have made of the breaker and the session by a given moment. */
    const others: (nat, Circuit, Session) -> (Circuit, Session)

    /** Exchanges of requests and of mints this call was admitted for, and how they ended. */
    ghost var exchanges: nat
    ghost var mints: nat
    ghost var recorded: nat
    ghost var silent: nat
    /** How the last exchange of a request ended. */
    ghost var last: Wire

    ghost predicate Valid()
      reads this, breaker
    {
      && breaker.Valid()
      && (forall n :: 0.0 <= draw(n) < 1.0)
      && (forall n, b, s :: Sound(breaker.cfg, b) ==> Sound(breaker.cfg, others(n, b, s).0))
      && exchanges + mints == recorded + silent
    }

    constructor (breaker: CircuitBreaker, configured: bool, clock: nat -> int, draw: nat -> real, expired: nat -> bool,
                 wire: nat -> Wire, others: (nat, Circuit, Session) -> (Circuit, Session))
      requires breaker.Valid() && forall n :: 0.0 <= draw(n) < 1.0
      requires forall n, b, s :: Sound(breaker.cfg, b) ==> Sound(breaker.cfg, others(n, b, s).0)
      ensures Valid() && session == NO_SESSION && this.breaker == breaker
    {
      this.breaker, this.configured, this.clock, this.draw := breaker, configured, clock, draw;
      this.expired, this.wire, this.others := expired, wire, others;
      session, tick := NO_SESSION, 0;
      exchanges, mints, recorded, silent, last := 0, 0, 0, 0, BuildFailed;
    }

    /** Time passes; the session changes only if this call does not hold authMu. */
    method Elapse(holding: bool)
      requires Valid()
      modifies this`session, this`tick, breaker
      ensures Valid() && tick == old(tick) + 1
      ensures breaker.Value() == others(old(tick), old(breaker.Value()), old(session)).0
      ensures session == if holding then old(session) else others(old(tick), old(breaker.Value()), old(session)).1
    {
      var (b, s) := others(tick, breaker.Value(), session);
      assert Sound(breaker.cfg, b);
      breaker.state, breaker.failures, breaker.openings := b.state, b.failures, b.openings;
      breaker.retryAt, breaker.probeInFlight := b.retryAt, b.probeInFlight;
      session := if holding then session else s;
      tick := tick + 1;
    }

    /** recordStatus and transportError, as far as the breaker sees them. */
    method Record(w: Wire)
      requires breaker.Valid() && forall n :: 0.0 <= draw(n) < 1.0
      modifies breaker, this`recorded, this`silent
      ensures breaker.Valid()
      ensures breaker.Value() == Fed(breaker.cfg, old(breaker.Value()), Outcome(w), clock(tick), draw(tick))
      ensures recorded == old(recorded) + if Outcome(w).Some? then 1 else 0
      ensures silent == old(silent) + if Outcome(w).Some? then 0 else 1
    {
      match Outcome(w)
      case None =>
        silent := silent + 1;
      case Some(ok) =>
        if ok {
          breaker.Success();
        } else {
          breaker.Failure(clock(tick), draw(tick));
        }
        recorded := recorded + 1;
    }

    /** What the breaker is once the exchange begun at `from` on breaker b has ended and told it the outcome. */
    ghost function Afterwards(b: Circuit, s: Session, from: nat): Circuit
      reads breaker
    {
      Fed(breaker.cfg, others(from, b, s).0, Outcome(wire(from + 1)), clock(from + 1), draw(from + 1))
    }

    /**
     * roundTrip: one Allow and, if admitted, exactly one outcome fed to whatever
     * the breaker has become by then, unless the request could not be built, was
     * refused by policy or was cancelled.
     */
    method RoundTrip(minting: bool, holding: bool) returns (r: Result<(int, Option<Session>), Error>)
      requires Valid()
      modifies this`session, this`tick, this`exchanges, this`mints, this`recorded, this`silent, this`last, breaker
      ensures Valid() && (holding ==> session == old(session))
      ensures var (b, admitted) := Allowed(old(breaker.Value()), clock(old(tick)));
              session == if admitted && !holding then others(old(tick), b, old(session)).1 else old(session)
      ensures var (b, admitted) := Allowed(old(breaker.Value()), clock(old(tick)));
              breaker.Value() == if admitted then Afterwards(b, old(session), old(tick)) else old(breaker.Value())
      ensures var admitted := Allowed(old(breaker.Value()), clock(old(tick))).1;
              && exchanges == old(exchanges) + (if admitted && !minting then 1 else 0)
              && mints == old(mints) + (if admitted && minting then 1 else 0)
              && r == (if admitted then Exchanged(wire(old(tick) + 1)) else Err(BreakerOpen))
              && recorded == old(recorded) + (if admitted && Outcome(wire(old(tick) + 1)).Some? then 1 else 0)
              && silent == old(silent) + (if admitted && Outcome(wire(old(tick) + 1)) == None then 1 else 0)
      ensures tick == old(tick) + if Allowed(old(breaker.Value()), clock(old(tick))).1 then 1 else 0
      ensures exchanges + mints <= old(exchanges + mints) + 1
      ensures last == if exchanges > old(exchanges) then wire(old(tick) + 1) else old(last)
    {
      var ok := breaker.Allow(clock(tick));
      if !ok {
        return Err(BreakerOpen);
      }
      Elapse(holding);
      var w := wire(tick);
      Record(w);
      if minting {
        mints := mints + 1;
      } else {
        exchanges := exchanges + 1;
        last := w;
      }
      r := Exchanged(w);
    }

    /** What a login begun at `from` on breaker b yields: a session exactly if it is admitted and answered 2xx with a token. */
    ghost function MintAnswer(b: Circuit, from: nat): Option<Session> {
      var w := wire(from + 1);
      if Allowed(b, clock(from)).1 && w.Answered? && 200 <= w.status < 300 && w.token.Some? && w.token.value.token != ""
      then w.token else None
    }

    /** The breaker after a login that was answered. */
    ghost function Minted(b: Circuit, from: nat, s: Session): Circuit
      reads breaker
    {
      Afterwards(Allowed(b, clock(from)).0, s, from)
    }

    /** The mint. Callers hold authMu. */
    method Mint() returns (r: Result<Session, Error>)
      requires Valid()
      modifies this`session, this`tick, this`exchanges, this`mints, this`recorded, this`silent, this`last, breaker
      ensures Valid() && session == old(session) && mints <= old(mints) + 1
      ensures exchanges == old(exchanges) && last == old(last)
      ensures r.Ok? ==> r.value.token != "" && mints == old(mints) + 1
      ensures MintAnswer(old(breaker.Value()), old(tick)) == if r.Ok? then Some(r.value) else None
      ensures r.Ok? ==> tick == old(tick) + 1 && breaker.Value() == Minted(old(breaker.Value()), old(tick), old(session))
    {
      var answer := RoundTrip(true, true);
      if answer.Err? {
        return Err(answer.error);
      }
      var (status, token) := answer.value;
      if status < 200 || status >= 300 || token == None || token.value.token == "" {
        return Err(MintRefused);
      }
      r := Ok(token.value);
    }

    /** accessToken: at most one mint, and the session it leaves is Held's. */
    method AccessToken(stale: string) returns (r: Result<string, Error>, ghost a: Access)
      requires Valid()
      modifies this`session, this`tick, this`exchanges, this`mints, this`recorded, this`silent, this`last, breaker
      ensures Valid() && mints <= old(mints) + 1
      ensures exchanges == old(exchanges) && last == old(last)
      ensures a.now == clock(old(tick)) && a.expired == expired(old(tick))
      ensures a.stale == stale && (a.minted.Some? ==> a.minted.value.token != "")
      ensures session == Held(old(session), configured, a)
      ensures r == Got(old(session), configured, a) || (r.Err? && Mints(old(session), configured, a) && a.minted == None)
      ensures mints > old(mints) ==> Mints(old(session), configured, a)
      ensures a.minted == if Mints(old(session), configured, a) then MintAnswer(old(breaker.Value()), old(tick)) else None
      ensures !Mints(old(session), configured, a) ==> tick == old(tick) && breaker.Value() == old(breaker.Value())
      ensures a.minted.Some? ==> tick == old(tick) + 1 && breaker.Value() == Minted(old(breaker.Value()), old(tick), old(session))
    {
      a := Access(stale, clock(tick), expired(tick), None);
      if expired(tick) {
        return Err(Timeout), a;
      }
      if stale != "" && session.token != stale {
        return Ok(session.token), a;
      }
      if stale == "" && Usable(session, clock(tick)) {
        return Ok(session.token), a;
      }
      if !configured {
        return Err(NoCredential), a;
      }
      var minted := Mint();
      if minted.Err? {
        session := NO_SESSION;
        return Err(minted.error), a;
      }
      session := minted.value;
      a := a.(minted := Some(minted.value));
      r := Ok(minted.value.token);
    }

    /** Nobody else uses the breaker or the session. */
    ghost predicate Alone() {
      forall n, b, s :: others(n, b, s) == (b, s)
    }

    /** The login begun at `from`, on a closed breaker, brings a token other than the rejected one. */
    ghost predicate Renews(bearer: string, from: nat) {
      configured && bearer != "" && !expired(from) && MintAnswer(FRESH, from).Some? && MintAnswer(FRESH, from).value.token != bearer
    }

    /**
     * What doRaw does about a 401: a token other than the rejected one, and the
     * request once more exactly if there is one and the breaker admits it.
     */
    method Retry(bearer: string) returns (r: Result<Option<int>, Error>, ghost renewed: Result<string, Error>)
      requires Valid()
      modifies this`session, this`tick, this`exchanges, this`mints, this`recorded, this`silent, this`last, breaker
      ensures Valid()
      ensures exchanges <= old(exchanges) + 1 && mints <= old(mints) + 1
      ensures recorded + silent == old(recorded + silent) + (exchanges - old(exchanges)) + (mints - old(mints))
      ensures r.Ok? && r.value.Some? ==> exchanges > old(exchanges) && last.Answered? && r.value.value == last.status
      ensures (r.Ok? && r.value == None) ==> exchanges == old(exchanges)
      ensures exchanges == old(exchanges) ==> last == old(last)
      ensures renewed.Err? ==> r == Err(renewed.error)
      ensures renewed == Ok(bearer) ==> r == Ok(None)
      ensures renewed.Ok? && renewed != Ok(bearer) ==> exchanges == old(exchanges) + 1 || r == Err(BreakerOpen)
      ensures var s := others(old(tick), old(breaker.Value()), old(session)).1;
              bearer != "" && !expired(old(tick) + 1) && s.token != bearer ==> renewed == Ok(s.token)
      ensures Alone() && old(breaker.Value()) == FRESH && old(session.token) == bearer && Renews(bearer, old(tick) + 1) ==>
                exchanges == old(exchanges) + 1
    {
      Elapse(false);
      ghost var at, b := tick, breaker.Value();
      var fresher, a := AccessToken(bearer);
      renewed := fresher;
      if fresher.Err? {
        return Err(fresher.error), renewed;
      }
      if fresher.value == bearer {
        return Ok(None), renewed;
      }
      Elapse(false);
      var answer := RoundTrip(false, false);
      if answer.Err? {
        return Err(answer.error), renewed;
      }
      r := Ok(Some(answer.value.0));
    }

    /** The held token is good, is answered 401, and the login that follows brings another. */
    ghost predicate Rejects(s: Session, from: nat) {
      && !expired(from) && Usable(s, clock(from))
      && wire(from + 2).Answered? && wire(from + 2).status == 401
      && Renews(s.token, from + 3)
    }

    /** The bearer, unless the request is anonymous, and the request once; token is the bearer it went out with. */
    method FirstTry(anonymous: bool) returns (r: Result<int, Error>, token: string)
      requires Valid()
      modifies this`session, this`tick, this`exchanges, this`mints, this`recorded, this`silent, this`last, breaker
      ensures Valid() && (anonymous ==> token == "")
      ensures exchanges <= old(exchanges) + 1 && mints <= old(mints) + if anonymous then 0 else 1
      ensures recorded + silent == old(recorded + silent) + (exchanges - old(exchanges)) + (mints - old(mints))
      ensures r.Ok? ==> exchanges == old(exchanges) + 1 && last.Answered? && r.value == last.status
      ensures exchanges == old(exchanges) ==> last == old(last)
      ensures !anonymous && Alone() && old(breaker.Value()) == FRESH && Rejects(old(session), old(tick)) ==>
                r == Ok(401) && token == session.token == old(session.token) && tick == old(tick) + 2 && breaker.Value() == FRESH
    {
      token := "";
      if !anonymous {
        var got, a := AccessToken("");
        if got.Err? {
          return Err(got.error), token;
        }
        token := got.value;
      }
      Elapse(false);
      var answer := RoundTrip(false, false);
      r := if answer.Err? then Err(answer.error) else Ok(answer.value.0);
    }

    /**
     * doRaw: whatever the others do meanwhile, at most two exchanges of the
     * request and at most two mints; the answer is that of the last exchange, and
     * there is a second one only after the first was answered 401. A 401 for a
     * token that a login can replace is retried, with nobody else about.
     */
    method DoRaw(anonymous: bool) returns (r: Result<int, Error>, ghost first: Wire)
      requires Valid()
      modifies this`session, this`tick, this`exchanges, this`mints, this`recorded, this`silent, this`last, breaker
      ensures Valid()
      ensures exchanges <= old(exchanges) + if anonymous then 1 else 2
      ensures mints <= old(mints) + if anonymous then 0 else 2
      ensures recorded + silent == old(recorded + silent) + (exchanges - old(exchanges)) + (mints - old(mints))
      ensures r.Ok? ==> exchanges > old(exchanges) && last.Answered? && r.value == last.status
      ensures exchanges == old(exchanges) + 1 ==> first == last
      ensures exchanges == old(exchanges) + 2 ==> first.Answered? && first.status == 401
      ensures !anonymous && Alone() && old(breaker.Value()) == FRESH && Rejects(old(session), old(tick)) ==>
                exchanges == old(exchanges) + 2
    {
      var bearer;
      r, bearer := FirstTry(anonymous);
      first := last;
      if r == Ok(401) && !anonymous && bearer != "" {
        var retried, renewed := Retry(bearer);
        if retried.Err? {
          return Err(retried.error), first;
        }
        if retried.value.Some? {
          return Ok(retried.value.value), first;
        }
      }
    }
  }
}
