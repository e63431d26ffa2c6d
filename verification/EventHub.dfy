/**
 * The SSE hub: a bounded replay ring, bounded subscriber queues, dropping, replay
 * and reconnect, against the unbounded history of everything published.
 *
 * Each method is one critical section of the hub's mutex (Receive is one read of
 * a subscriber's channel), so what every method keeps holds for every
 * interleaving of them.
 */
module EventHub {
  import opened Wrappers

  const SUBSCRIBER_QUEUE := 64
  const DEFAULT_EVENT_BUFFER := 512
  const SYSTEM_USER_ID := 0
  const UINT64 := 0x1_0000_0000_0000_0000

  datatype Event = Event(id: nat, owner: int, body: string)

  /** Events published for the system user are shared; any other reaches its owner alone. */
  predicate VisibleTo(sub: int, owner: int) {
    sub == owner || owner == SYSTEM_USER_ID
  }

  function Visible(user: int, events: seq<Event>): seq<Event> {
    if events == [] then []
    else
      var n := |events| - 1;
      Visible(user, events[..n]) + if VisibleTo(user, events[n].owner) then [events[n]] else []
  }

  lemma {:induction false} VisibleConcat(user: int, a: seq<Event>, b: seq<Event>)
    ensures Visible(user, a + b) == Visible(user, a) + Visible(user, b)
  {
    if b == [] {
      assert a + b == a;
    } else {
      var n := |b| - 1;
      VisibleConcat(user, a, b[..n]);
      assert (a + b)[..|a| + n] == a + b[..n];
    }
  }

  lemma VisibleJoins(user: int, log: seq<Event>, i: nat, j: nat, k: nat)
    requires i <= j <= k <= |log|
    ensures Visible(user, log[i..k]) == Visible(user, log[i..j]) + Visible(user, log[j..k])
  {
    assert log[i..k] == log[i..j] + log[j..k];
    VisibleConcat(user, log[i..j], log[j..k]);
  }

  lemma VisibleStep(user: int, log: seq<Event>, i: nat, j: nat)
    requires i < j <= |log|
    ensures Visible(user, log[i..j]) ==
              Visible(user, log[i..j - 1]) + if VisibleTo(user, log[j - 1].owner) then [log[j - 1]] else []
  {
    var events := log[i..j];
    assert events[..|events| - 1] == log[i..j - 1];
  }

  /** Everything published since the process started, numbered from 1. */
  ghost predicate Numbered(log: seq<Event>) {
    forall i :: 0 <= i < |log| ==> log[i].id == i + 1
  }

  lemma NumberedGrows(log: seq<Event>, ev: Event)
    requires Numbered(log) && ev.id == |log| + 1
    ensures Numbered(log + [ev])
  {
  }

  // ---- one subscriber ----

  /** A connection: its channel's buffered events, and whether the channel is closed. */
  datatype Stream = Stream(user: int, queue: seq<Event>, closed: bool)

  /**
   * What a connection was given, against the history: it replayed
   * log[low..since] and was then sent what was published up to `until`. One that
   * came to a closed hub is not served at all.
   */
  datatype Account = Account(served: bool, lastId: nat, missed: bool, low: nat, since: nat, until: nat,
                             replay: seq<Event>, sent: seq<Event>, received: seq<Event>)

  ghost predicate Kept(log: seq<Event>, s: Stream, a: Account) {
    && a.low <= a.since <= a.until <= |log|
    && a.replay == Visible(s.user, log[a.low..a.since])
    && a.sent == Visible(s.user, log[a.since..a.until])
    && a.sent == a.received + s.queue && |s.queue| <= SUBSCRIBER_QUEUE
    && (!s.closed ==> a.until == |log|)
    && (a.served && 0 < a.lastId <= a.since ==> a.lastId <= a.low && (a.missed <==> a.low > a.lastId))
    && (!a.served ==> s.closed && !a.missed && a.replay == [] && a.sent == [])
  }

  /** A send that never blocks: a full queue closes the stream instead. */
  function Offered(s: Stream, ev: Event): Stream {
    if s.closed || !VisibleTo(s.user, ev.owner) then s
    else if |s.queue| < SUBSCRIBER_QUEUE then s.(queue := s.queue + [ev])
    else s.(closed := true)
  }

  ghost function OfferedAccount(s: Stream, a: Account, ev: Event): Account {
    if s.closed then a
    else if !VisibleTo(s.user, ev.owner) then a.(until := a.until + 1)
    else if |s.queue| < SUBSCRIBER_QUEUE then a.(until := a.until + 1, sent := a.sent + [ev])
    else a
  }

  ghost function Read(a: Account, ev: Event): Account {
    a.(received := a.received + [ev])
  }

  lemma HistoryStands(log: seq<Event>, ev: Event, i: nat, j: nat)
    requires i <= j <= |log|
    ensures (log + [ev])[i..j] == log[i..j]
  {
  }

  /** What an open connection is sent when the history grows by one event. */
  lemma SentGrows(log: seq<Event>, user: int, since: nat, ev: Event)
    requires since <= |log|
    ensures Visible(user, (log + [ev])[since..|log| + 1]) ==
              Visible(user, log[since..|log|]) + if VisibleTo(user, ev.owner) then [ev] else []
  {
    VisibleStep(user, log + [ev], since, |log| + 1);
    HistoryStands(log, ev, since, |log|);
  }

  lemma OfferKeeps(log: seq<Event>, s: Stream, a: Account, ev: Event)
    requires Kept(log, s, a)
    ensures Kept(log + [ev], Offered(s, ev), OfferedAccount(s, a, ev))
  {
    HistoryStands(log, ev, a.low, a.since);
    HistoryStands(log, ev, a.since, a.until);
    if !s.closed {
      SentGrows(log, s.user, a.since, ev);
      assert a.sent + [ev] == a.received + (s.queue + [ev]);
    }
  }

  // ---- what a connection is promised ----

  /** Everything a connection is written, in order: the replay, then the live events. */
  ghost function Frames(a: Account): seq<Event> {
    a.replay + a.sent
  }

  /**
   * Delivery. With a Last-Event-ID of this process and no miss reported, a served
   * connection that is still open has been given exactly the visible events after
   * that id, in order; a dropped one has a prefix of them.
   */
  lemma FramesAreExact(log: seq<Event>, s: Stream, a: Account)
    requires Kept(log, s, a) && a.served && 0 < a.lastId <= a.since && !a.missed
    ensures Frames(a) == Visible(s.user, log[a.lastId..a.until])
    ensures !s.closed ==> Frames(a) == Visible(s.user, log[a.lastId..])
    ensures Frames(a) <= Visible(s.user, log[a.lastId..])
  {
    VisibleJoins(s.user, log, a.lastId, a.since, a.until);
    VisibleJoins(s.user, log, a.lastId, a.until, |log|);
    assert log[a.lastId..|log|] == log[a.lastId..];
  }

  // ---- who gets what, on owners ----

  /** Published under the user's own id, or under id 0, which is everybody's. */
  predicate MayRead(user: int, ev: Event) {
    ev.owner == user || ev.owner == 0
  }

  lemma {:induction false} VisibleMeans(user: int, events: seq<Event>)
    ensures forall ev :: ev in Visible(user, events) <==> ev in events && MayRead(user, ev)
  {
    if events != [] {
      VisibleMeans(user, events[..|events| - 1]);
    }
  }

  lemma {:induction false} ReplayMeans(ring: seq<Event>, user: int, lastId: nat)
    ensures forall ev :: ev in Replay(ring, user, lastId) <==> ev in ring && ev.id > lastId && MayRead(user, ev)
  {
    if ring != [] {
      ReplayMeans(ring[..|ring| - 1], user, lastId);
    }
  }

  /** No connection is ever written another user's private event. */
  lemma NothingPrivateLeaks(log: seq<Event>, s: Stream, a: Account)
    requires Kept(log, s, a)
    ensures forall ev <- Frames(a) :: ev in log && MayRead(s.user, ev)
  {
    VisibleMeans(s.user, log[a.low..a.since]);
    VisibleMeans(s.user, log[a.since..a.until]);
  }

  /**
   * And a served one with no miss is written every event since its position that
   * is its user's own or everybody's, once each and in order.
   */
  lemma EverythingReadableArrives(log: seq<Event>, s: Stream, a: Account)
    requires Numbered(log) && Kept(log, s, a) && a.served && 0 < a.lastId <= a.since && !a.missed
    ensures forall ev <- log[a.lastId..a.until] | MayRead(s.user, ev) :: ev in Frames(a)
    ensures forall ev <- Frames(a) :: ev in log[a.lastId..a.until] && MayRead(s.user, ev)
    ensures forall i, j :: 0 <= i < j < |Frames(a)| ==> Frames(a)[i].id < Frames(a)[j].id
    ensures !s.closed ==> a.until == |log|
  {
    FramesAreExact(log, s, a);
    VisibleMeans(s.user, log[a.lastId..a.until]);
    VisibleClimbs(s.user, log, a.lastId, a.until);
  }

  /** What publishing does to one stream: nothing if it is closed or the event is not for its user, else one event more, or the end when there is no room. */
  predicate SentTo(s: Stream, s': Stream, ev: Event) {
    if s.closed || !MayRead(s.user, ev) then s' == s
    else if |s.queue| < 64 then s' == s.(queue := s.queue + [ev])
    else s' == s.(closed := true)
  }

  ghost predicate AllSent(streams: map<nat, Stream>, streams': map<nat, Stream>, ev: Event) {
    streams'.Keys == streams.Keys && forall id <- streams :: SentTo(streams[id], streams'[id], ev)
  }

  lemma OfferedIsSent(streams: map<nat, Stream>, streams': map<nat, Stream>, ev: Event)
    requires AllOffered(streams, streams', ev)
    ensures AllSent(streams, streams', ev)
  {
  }

  /** Order and uniqueness: event ids along any stretch of history strictly climb. */
  lemma {:induction false} VisibleClimbs(user: int, log: seq<Event>, i: nat, j: nat)
    requires Numbered(log) && i <= j <= |log|
    ensures forall ev <- Visible(user, log[i..j]) :: i < ev.id <= j
    ensures var v := Visible(user, log[i..j]); forall p, q :: 0 <= p < q < |v| ==> v[p].id < v[q].id
  {
    if i < j {
      VisibleClimbs(user, log, i, j - 1);
      VisibleStep(user, log, i, j);
      var before := Visible(user, log[i..j - 1]);
      forall p | 0 <= p < |before| ensures before[p].id < j {
        assert before[p] in before;
      }
    }
  }

  /** An event after the client's last one has left a ring of this size. */
  ghost predicate Evicted(log: seq<Event>, cap: nat, lastId: nat) {
    exists ev :: ev in log[..|log| - |Tail(log, cap)|] && ev.id > lastId
  }

  /**
   * The miss test is true exactly when an event after the client's last one has
   * left the ring, but for the largest id there is, where the sum wraps and any
   * history at all reads as a miss.
   */
  lemma MissedExactlyWhenEvicted(log: seq<Event>, cap: nat, lastId: nat)
    requires Numbered(log) && cap > 0 && 0 < lastId < UINT64
    ensures Missed(Tail(log, cap), lastId) <==>
              Evicted(log, cap, lastId) || (lastId == UINT64 - 1 && log != [])
  {
    var evicted := |log| - |Tail(log, cap)|;
    if log != [] {
      assert Tail(log, cap)[0] == log[evicted];
    }
    if evicted > lastId {
      assert log[..evicted][evicted - 1] == log[evicted - 1];
    }
  }

  predicate Missed(ring: seq<Event>, lastId: nat) {
    lastId > 0 && |ring| > 0 && ring[0].id > (lastId + 1) % UINT64
  }

  function Replay(ring: seq<Event>, user: int, lastId: nat): seq<Event> {
    if ring == [] then []
    else
      var n := |ring| - 1;
      Replay(ring[..n], user, lastId) +
      if ring[n].id > lastId && VisibleTo(user, ring[n].owner) then [ring[n]] else []
  }

  lemma ReplayStep(log: seq<Event>, from: nat, to: nat, user: int, lastId: nat)
    requires Numbered(log) && from < to <= |log|
    ensures Replay(log[from..to], user, lastId) ==
              Replay(log[from..to - 1], user, lastId)
              + if to > lastId && VisibleTo(user, log[to - 1].owner) then [log[to - 1]] else []
  {
    var ring := log[from..to];
    assert ring[..|ring| - 1] == log[from..to - 1];
  }

  /** The replay is the visible part of the history from the later of the client's position and the ring's start. */
  lemma {:induction false} ReplayIsVisible(log: seq<Event>, from: nat, to: nat, user: int, lastId: nat)
    requires Numbered(log) && from <= to <= |log|
    ensures Replay(log[from..to], user, lastId) ==
              if lastId >= to then [] else Visible(user, log[if lastId > from then lastId else from..to])
  {
    if from < to {
      var low := if lastId > from then lastId else from;
      ReplayIsVisible(log, from, to - 1, user, lastId);
      ReplayStep(log, from, to, user, lastId);
      if lastId < to {
        VisibleStep(user, log, low, to);
        assert lastId == to - 1 ==> log[low..to - 1] == [];
      }
    }
  }

  /** A non-empty prefix of what follows a position ends exactly at its last event. */
  lemma {:induction false} PrefixEndsAt(user: int, log: seq<Event>, i: nat, j: nat, got: seq<Event>)
    requires Numbered(log) && i <= j <= |log|
    requires got != [] && got <= Visible(user, log[i..j])
    ensures var last := got[|got| - 1].id; i < last <= j && got == Visible(user, log[i..last])
  {
    var all := Visible(user, log[i..j]);
    assert log[i..j][..j - 1 - i] == log[i..j - 1];
    if got == all {
      if !VisibleTo(user, log[j - 1].owner) {
        PrefixEndsAt(user, log, i, j - 1, got);
      }
    } else {
      assert got <= Visible(user, log[i..j - 1]);
      PrefixEndsAt(user, log, i, j - 1, got);
    }
  }

  /**
   * Reconnecting stitches: what the client had received of one connection,
   * followed by what it is given on the next one opened with the last id it
   * received, is the visible history since its first position, with no gap and
   * nothing twice.
   */
  lemma ReconnectStitches(log: seq<Event>, s: Stream, a: Account, got: seq<Event>, s': Stream, a': Account)
    requires Numbered(log)
    requires Kept(log, s, a) && a.served && 0 < a.lastId <= a.since && !a.missed
    requires got <= Frames(a)
    requires Kept(log, s', a') && a'.served && s'.user == s.user && a.until <= a'.since && !a'.missed
    requires a'.lastId == if got == [] then a.lastId else got[|got| - 1].id
    ensures got + Frames(a') == Visible(s.user, log[a.lastId..a'.until])
  {
    FramesAreExact(log, s, a);
    if got != [] {
      PrefixEndsAt(s.user, log, a.lastId, a.until, got);
    } else {
      assert log[a.lastId..a.lastId] == [];
    }
    FramesAreExact(log, s', a');
    VisibleJoins(s.user, log, a.lastId, a'.lastId, a'.until);
  }

  // ---- the hub ----

  /** copy(ring, ring[1:]), in place. */
  method ShiftDown(ring: array<Event>)
    requires ring.Length > 0
    modifies ring
    ensures forall k :: 0 <= k < ring.Length - 1 ==> ring[k] == old(ring[k + 1])
  {
    var i := 0;
    while i + 1 < ring.Length
      invariant 0 <= i < ring.Length
      invariant forall k :: 0 <= k < i ==> ring[k] == old(ring[k + 1])
      invariant forall k :: i <= k < ring.Length ==> ring[k] == old(ring[k])
    {
      ring[i] := ring[i + 1];
      i := i + 1;
    }
  }

  /** The last `cap` events of the history. */
  function Tail(log: seq<Event>, cap: nat): (r: seq<Event>)
    ensures |r| == if |log| <= cap then |log| else cap
  {
    if |log| <= cap then log else log[|log| - cap..]
  }

  lemma TailGrows(log: seq<Event>, cap: nat, ev: Event)
    requires cap > 0
    ensures Tail(log + [ev], cap) == (if |log| < cap then Tail(log, cap) else Tail(log, cap)[1..]) + [ev]
  {
  }

  function Closed(streams: map<nat, Stream>, ids: set<nat>): map<nat, Stream> {
    map id | id in streams :: if id in ids then streams[id].(closed := true) else streams[id]
  }

  method CloseAll(streams: map<nat, Stream>, registered: set<nat>) returns (streams': map<nat, Stream>)
    requires registered <= streams.Keys
    ensures streams' == Closed(streams, registered)
  {
    streams' := streams;
    var todo := registered;
    while todo != {}
      invariant todo <= registered && streams' == Closed(streams, registered - todo)
      decreases todo
    {
      var id :| id in todo;
      todo := todo - {id};
      streams' := streams'[id := streams'[id].(closed := true)];
    }
  }

  /** Every connection's account is true of the history. */
  ghost predicate AllKept(log: seq<Event>, streams: map<nat, Stream>, accounts: map<nat, Account>) {
    && streams.Keys == accounts.Keys
    && forall id {:trigger Kept(log, streams[id], accounts[id])} :: id in streams ==> Kept(log, streams[id], accounts[id])
  }

  /** The register holds exactly the connections that are not closed. */
  ghost predicate Registry(streams: map<nat, Stream>, registered: set<nat>) {
    registered <= streams.Keys && forall id <- streams :: id in registered <==> !streams[id].closed
  }

  /** Every stream was offered the event. */
  ghost predicate AllOffered(streams: map<nat, Stream>, streams': map<nat, Stream>, ev: Event) {
    streams'.Keys == streams.Keys && forall id <- streams :: streams'[id] == Offered(streams[id], ev)
  }

  /** Offer the event to every registered stream, whatever the order; the ones that fill up leave the register. */
  method FanOut(streams: map<nat, Stream>, registered: set<nat>, ev: Event)
    returns (streams': map<nat, Stream>, registered': set<nat>)
    requires Registry(streams, registered)
    ensures Registry(streams', registered') && registered' <= registered
    ensures AllOffered(streams, streams', ev)
  {
    streams', registered' := streams, registered;
    var todo := registered;
    while todo != {}
      invariant todo <= registered' <= registered && streams'.Keys == streams.Keys
      invariant forall id <- streams :: streams'[id] == if id in todo then streams[id] else Offered(streams[id], ev)
      invariant Registry(streams', registered')
      decreases todo
    {
      var id :| id in todo;
      todo := todo - {id};
      var sub := streams'[id];
      if VisibleTo(sub.user, ev.owner) {
        if |sub.queue| < SUBSCRIBER_QUEUE {
          streams' := streams'[id := sub.(queue := sub.queue + [ev])];
        } else {
          streams' := streams'[id := sub.(closed := true)];
          registered' := registered' - {id};
        }
      }
    }
  }

  ghost function OfferedAccounts(streams: map<nat, Stream>, accounts: map<nat, Account>, ev: Event): map<nat, Account>
    requires streams.Keys == accounts.Keys
  {
    map id | id in accounts :: OfferedAccount(streams[id], accounts[id], ev)
  }

  lemma OfferKeepsAll(log: seq<Event>, streams: map<nat, Stream>, streams': map<nat, Stream>, accounts: map<nat, Account>, ev: Event)
    requires AllKept(log, streams, accounts)
    requires AllOffered(streams, streams', ev)
    ensures AllKept(log + [ev], streams', OfferedAccounts(streams, accounts, ev))
  {
    forall id | id in streams ensures Kept(log + [ev], streams'[id], OfferedAccounts(streams, accounts, ev)[id]) {
      assert Kept(log, streams[id], accounts[id]);
      OfferKeeps(log, streams[id], accounts[id], ev);
    }
  }

  lemma ClosingKeepsAll(log: seq<Event>, streams: map<nat, Stream>, accounts: map<nat, Account>, registered: set<nat>, ids: set<nat>)
    requires AllKept(log, streams, accounts) && Registry(streams, registered)
    ensures AllKept(log, Closed(streams, ids), accounts) && Registry(Closed(streams, ids), registered - ids)
  {
    forall id | id in streams ensures Kept(log, Closed(streams, ids)[id], accounts[id]) {
      assert Kept(log, streams[id], accounts[id]);
    }
  }

  lemma AddingKeepsAll(log: seq<Event>, streams: map<nat, Stream>, accounts: map<nat, Account>, id: nat, s: Stream, a: Account)
    requires AllKept(log, streams, accounts) && Kept(log, s, a)
    ensures AllKept(log, streams[id := s], accounts[id := a])
  {
    forall k | k in streams && k != id ensures Kept(log, streams[id := s][k], accounts[id := a][k]) {
      assert Kept(log, streams[k], accounts[k]);
    }
  }

  lemma ReadingIsKept(log: seq<Event>, s: Stream, a: Account)
    requires Kept(log, s, a) && s.queue != []
    ensures Kept(log, s.(queue := s.queue[1..]), Read(a, s.queue[0]))
  {
  }

  /** What subscribe knows about a new connection. */
  ghost function NewAccount(log: seq<Event>, user: int, ring: seq<Event>, lastId: nat): Account {
    var from := |log| - |ring|;
    var low := if lastId == 0 || lastId >= |log| then |log| else if lastId > from then lastId else from;
    Account(true, lastId, Missed(ring, lastId), low, |log|, |log|, if lastId == 0 then [] else Replay(ring, user, lastId), [], [])
  }

  /** On a closed hub: nothing, whatever the client missed. */
  ghost function UnservedAccount(log: seq<Event>, lastId: nat): Account {
    Account(false, lastId, false, |log|, |log|, |log|, [], [], [])
  }

  lemma UnservedIsKept(log: seq<Event>, user: int, lastId: nat)
    ensures Kept(log, Stream(user, [], true), UnservedAccount(log, lastId))
  {
    assert log[|log|..|log|] == [];
  }

  lemma MissedMeans(log: seq<Event>, cap: nat, lastId: nat)
    requires Numbered(log) && cap > 0 && lastId < UINT64 - 1
    ensures Missed(Tail(log, cap), lastId) <==> 0 < lastId < |log| - |Tail(log, cap)|
  {
    if log != [] {
      assert Tail(log, cap)[0] == log[|log| - |Tail(log, cap)|];
    }
  }

  lemma NewIsKept(log: seq<Event>, cap: nat, user: int, lastId: nat)
    requires Numbered(log) && cap > 0 && lastId < UINT64 && |log| < UINT64 - 1
    ensures Kept(log, Stream(user, [], false), NewAccount(log, user, Tail(log, cap), lastId))
  {
    NewReplay(log, cap, user, lastId);
    assert log[|log|..|log|] == [];
    if 0 < lastId <= |log| {
      MissedMeans(log, cap, lastId);
    }
  }

  lemma NewReplay(log: seq<Event>, cap: nat, user: int, lastId: nat)
    requires Numbered(log) && cap > 0
    ensures var a := NewAccount(log, user, Tail(log, cap), lastId);
            a.low <= |log| && a.replay == Visible(user, log[a.low..|log|])
  {
    var ring := Tail(log, cap);
    assert ring == log[|log| - |ring|..|log|];
    ReplayIsVisible(log, |log| - |ring|, |log|, user, lastId);
  }

  /** Why a handler stops: its channel ended, a write failed, or the client went away. */
  datatype Ending = Ended | WriteFailed | Left

  /** What another goroutine does to the hub. */
  datatype Action =
    | Publishes(owner: int, body: string)
    | Subscribes(user: int, lastId: nat)
    | Unsubscribes(id: nat)
    | Receives(id: nat)
    | Closes

  /** A connection's account as others leave it: its replay and what it has received stand. */
  ghost predicate SameConnection(a: Account, b: Account) {
    SameButReceived(a, b) && b.received == a.received && a.sent <= b.sent
  }

  ghost predicate SameButReceived(a: Account, b: Account) {
    b.served == a.served && b.lastId == a.lastId && b.missed == a.missed && b.replay == a.replay && b.since == a.since && b.low == a.low
  }

  /** The others take no turn from this round on. */
  ghost predicate StillFrom(others: nat -> seq<Action>, round: nat) {
    forall n: nat :: n >= round ==> others(n) == []
  }

  /** A reader that takes one event a round catches up within a queue's length of rounds. */
  ghost predicate CaughtUp(others: nat -> seq<Action>, rounds: nat, queue: seq<Event>) {
    forall still: nat :: still <= rounds && StillFrom(others, still) ==> queue == [] || |queue| + (rounds - still) <= SUBSCRIBER_QUEUE
  }

  lemma CatchesUp(others: nat -> seq<Action>, rounds: nat, queue: seq<Event>, queue': seq<Event>)
    requires CaughtUp(others, rounds, queue) && |queue'| <= SUBSCRIBER_QUEUE
    requires others(rounds) == [] ==> queue' == if queue == [] then [] else queue[1..]
    ensures CaughtUp(others, rounds + 1, queue')
  {
    forall still: nat | still <= rounds + 1 && StillFrom(others, still)
      ensures queue' == [] || |queue'| + (rounds + 1 - still) <= SUBSCRIBER_QUEUE
    {
      if still <= rounds {
        assert others(rounds) == [];
      }
    }
  }

  class Hub {
    var next: nat
    var streams: map<nat, Stream>
    /** h.subs. */
    var registered: set<nat>
    var streamCount: nat
    const ring: array<Event>
    var ringLen: nat
    var closed: bool

    ghost var log: seq<Event>
    ghost var accounts: map<nat, Account>

    ghost predicate RingHoldsTail()
      reads this, ring
    {
      ring.Length > 0 && ringLen <= ring.Length && ring[..ringLen] == Tail(log, ring.Length)
    }

    ghost predicate Valid()
      reads this, ring
    {
      && Numbered(log) && next == |log| < UINT64 - 1 && RingHoldsTail()
      && AllKept(log, streams, accounts)
      && Registry(streams, registered) && (closed ==> registered == {})
      && forall id <- streams :: id < streamCount
    }

    constructor (size: int)
      ensures Valid() && log == [] && streams == map[] && !closed && fresh(ring)
      ensures ring.Length == if size <= 0 then DEFAULT_EVENT_BUFFER else size
    {
      next, ringLen, streamCount := 0, 0, 0;
      streams, registered, closed := map[], {}, false;
      var n := if size <= 0 then DEFAULT_EVENT_BUFFER else size;
      ring := new Event[n](_ => Event(0, 0, ""));
      log, accounts := [], map[];
    }

    /** Append to the ring, shifting it down one place when it is full. */
    method Record(ev: Event)
      requires RingHoldsTail()
      modifies this`ringLen, this`log, ring
      ensures log == old(log) + [ev] && RingHoldsTail()
    {
      TailGrows(log, ring.Length, ev);
      ghost var tail := Tail(log, ring.Length);
      if ringLen == ring.Length {
        ShiftDown(ring);
        ring[ring.Length - 1] := ev;
        assert ring[..ringLen] == tail[1..] + [ev];
      } else {
        ring[ringLen] := ev;
        ringLen := ringLen + 1;
        assert ring[..ringLen] == tail + [ev];
      }
      log := log + [ev];
    }

    /** Send a recorded event to every open stream. */
    method Send(ev: Event)
      requires Numbered(log) && next == |log| && log != [] && log[|log| - 1] == ev && RingHoldsTail()
      requires AllKept(log[..|log| - 1], streams, accounts) && Registry(streams, registered)
      modifies this`streams, this`registered, this`accounts
      ensures AllKept(log, streams, accounts) && Registry(streams, registered) && registered <= old(registered)
      ensures accounts == OfferedAccounts(old(streams), old(accounts), ev) && AllSent(old(streams), streams, ev)
    {
      accounts := OfferedAccounts(streams, accounts, ev);
      streams, registered := FanOut(streams, registered, ev);
      OfferKeepsAll(log[..|log| - 1], old(streams), streams, old(accounts), ev);
      OfferedIsSent(old(streams), streams, ev);
      assert log[..|log| - 1] + [ev] == log;
    }

    /** Publish: never blocks; a subscriber whose queue is full is dropped. */
    method Publish(owner: int, body: string) returns (id: nat)
      requires Valid() && next + 2 < UINT64
      modifies this, ring
      ensures Valid() && closed == old(closed) && next <= old(next) + 1
      ensures closed ==> id == 0 && log == old(log) && streams == old(streams) && accounts == old(accounts)
      ensures !closed ==> id == old(next) + 1 && log == old(log) + [Event(id, owner, body)]
      ensures !closed ==> accounts == OfferedAccounts(old(streams), old(accounts), Event(id, owner, body))
      ensures !closed ==> AllSent(old(streams), streams, Event(id, owner, body))
    {
      if closed {
        return 0;
      }
      next := next + 1;
      var ev := Event(next, owner, body);
      NumberedGrows(log, ev);
      Record(ev);
      assert log[..|log| - 1] == old(log);
      Send(ev);
      id := next;
    }

    /** The events of the ring after lastId that the user may see. */
    method CollectReplay(user: int, lastId: nat) returns (replay: seq<Event>)
      requires ringLen <= ring.Length
      ensures replay == Replay(ring[..ringLen], user, lastId)
    {
      replay := [];
      for i := 0 to ringLen
        invariant replay == Replay(ring[..i], user, lastId)
      {
        assert ring[..i + 1][..i] == ring[..i];
        if ring[i].id > lastId && VisibleTo(user, ring[i].owner) {
          replay := replay + [ring[i]];
        }
      }
    }

    /** What subscribe reads off the ring: the replay, and whether there is a hole before it. */
    method CatchUp(user: int, lastId: nat) returns (replay: seq<Event>, missed: bool)
      requires RingHoldsTail()
      ensures var a := NewAccount(log, user, Tail(log, ring.Length), lastId); replay == a.replay && missed == a.missed
    {
      replay, missed := [], false;
      if lastId > 0 {
        missed := ringLen > 0 && ring[0].id > (lastId + 1) % UINT64;
        replay := CollectReplay(user, lastId);
      }
    }

    /** A new connection; on a closed hub it is born closed. */
    method Open(user: int, ghost a: Account) returns (id: nat)
      requires Valid() && Kept(log, Stream(user, [], closed), a)
      modifies this`streams, this`registered, this`streamCount, this`accounts
      ensures Valid() && id !in old(streams)
      ensures streams == old(streams)[id := Stream(user, [], closed)] && accounts == old(accounts)[id := a]
    {
      id := streamCount;
      streamCount := streamCount + 1;
      AddingKeepsAll(log, streams, accounts, id, Stream(user, [], closed), a);
      streams := streams[id := Stream(user, [], closed)];
      accounts := accounts[id := a];
      registered := if closed then registered else registered + {id};
    }

    /**
     * subscribe: register the stream and hand back what the ring still holds
     * after lastId. A closed hub reports no miss, whatever was evicted.
     */
    method Subscribe(user: int, lastId: nat) returns (id: nat, replay: seq<Event>, missed: bool)
      requires Valid() && lastId < UINT64
      modifies this`streams, this`registered, this`streamCount, this`accounts
      ensures Valid() && id !in old(streams)
      ensures streams == old(streams)[id := Stream(user, [], closed)]
      ensures closed ==> replay == [] && accounts == old(accounts)[id := UnservedAccount(log, lastId)]
      ensures !closed ==> accounts == old(accounts)[id := NewAccount(log, user, Tail(log, ring.Length), lastId)]
      ensures forall ev :: ev in replay <==>
                             !closed && lastId > 0 && ev in Tail(log, ring.Length) && ev.id > lastId && MayRead(user, ev)
      ensures 0 < lastId < UINT64 - 1 ==> (missed <==> !closed && Evicted(log, ring.Length, lastId))
      ensures replay == accounts[id].replay && missed == accounts[id].missed && accounts[id].received == []
    {
      if closed {
        UnservedIsKept(log, user, lastId);
        id := Open(user, UnservedAccount(log, lastId));
        return id, [], false;
      }
      NewIsKept(log, ring.Length, user, lastId);
      if lastId > 0 {
        MissedExactlyWhenEvicted(log, ring.Length, lastId);
      }
      ReplayMeans(Tail(log, ring.Length), user, lastId);
      id := Open(user, NewAccount(log, user, Tail(log, ring.Length), lastId));
      replay, missed := CatchUp(user, lastId);
    }

    /** unsubscribe: idempotent, and nothing already buffered is lost to the reader. */
    method Unsubscribe(id: nat)
      requires Valid() && id in streams
      modifies this`streams, this`registered
      ensures Valid()
      ensures streams == Closed(old(streams), {id})
    {
      ClosingKeepsAll(log, streams, accounts, registered, {id});
      if id in registered {
        streams := streams[id := streams[id].(closed := true)];
        registered := registered - {id};
      }
      assert streams == Closed(old(streams), {id});
    }

    /** Close: every stream ends. */
    method Close()
      requires Valid()
      modifies this`streams, this`registered, this`closed
      ensures Valid() && closed
      ensures streams == Closed(old(streams), old(streams).Keys)
    {
      closed := true;
      ClosingKeepsAll(log, streams, accounts, registered, registered);
      streams := CloseAll(streams, registered);
      registered := {};
      assert streams == Closed(old(streams), old(streams).Keys);
    }

    /** One read of a subscriber's channel: buffered events first, then the end if it is closed. */
    method Receive(id: nat) returns (ev: Option<Event>, ended: bool)
      requires Valid() && id in streams
      modifies this`streams, this`accounts
      ensures Valid() && id in accounts
      ensures if old(streams)[id].queue == [] then ev == None && streams == old(streams) && accounts == old(accounts)
              else ev == Some(old(streams)[id].queue[0])
                   && streams == old(streams)[id := old(streams)[id].(queue := old(streams)[id].queue[1..])]
                   && accounts == old(accounts)[id := Read(old(accounts)[id], ev.value)]
      ensures ended <==> ev == None && old(streams)[id].closed
    {
      var sub := streams[id];
      if sub.queue == [] {
        return None, sub.closed;
      }
      assert Kept(log, sub, accounts[id]);
      ReadingIsKept(log, sub, accounts[id]);
      AddingKeepsAll(log, streams, accounts, id, sub.(queue := sub.queue[1..]), Read(accounts[id], sub.queue[0]));
      ev, ended := Some(sub.queue[0]), false;
      streams := streams[id := sub.(queue := sub.queue[1..])];
      accounts := accounts[id := Read(accounts[id], sub.queue[0])];
    }

    /** Any other goroutine takes its turn; the counter does not run out. */
    method Other(mine: nat, a: Action)
      requires Valid() && mine in streams
      modifies this, ring
      ensures Valid() && mine in streams && old(log) <= log
      ensures streams[mine].user == old(streams)[mine].user
      ensures SameConnection(old(accounts)[mine], accounts[mine])
    {
      match a
      case Publishes(owner, body) =>
        if next + 2 < UINT64 {
          var id := Publish(owner, body);
        }
      case Subscribes(user, lastId) =>
        if lastId < UINT64 {
          var id, replay, missed := Subscribe(user, lastId);
        }
      case Unsubscribes(id) =>
        if id in streams {
          Unsubscribe(id);
        }
      case Receives(id) =>
        if id in streams && id != mine {
          var ev, ended := Receive(id);
        }
      case Closes =>
        Close();
    }

    /** The others take any number of turns before this handler goes on. */
    method Others(mine: nat, actions: seq<Action>)
      requires Valid() && mine in streams
      modifies this, ring
      ensures Valid() && mine in streams && old(log) <= log
      ensures streams[mine].user == old(streams)[mine].user
      ensures SameConnection(old(accounts)[mine], accounts[mine])
      ensures actions == [] ==> streams[mine] == old(streams)[mine]
    {
      for i := 0 to |actions|
        invariant Valid() && mine in streams && old(log) <= log
        invariant actions == [] ==> streams[mine] == old(streams)[mine]
        invariant streams[mine].user == old(streams)[mine].user
        invariant SameConnection(old(accounts)[mine], accounts[mine])
      {
        Other(mine, actions[i]);
      }
    }

    /** The replay, frame by frame, while events go on being published and queued; how many were written before one failed. */
    method WriteReplay(mine: nat, replay: seq<Event>, others: nat -> seq<Action>, writes: nat -> bool) returns (n: nat)
      requires Valid() && mine in streams
      modifies this, ring
      ensures Valid() && mine in streams && old(log) <= log
      ensures streams[mine].user == old(streams)[mine].user
      ensures SameConnection(old(accounts)[mine], accounts[mine])
      ensures n <= |replay| && (n < |replay| ==> !writes(n)) && forall k :: 0 <= k < n ==> writes(k)
    {
      n := 0;
      while n < |replay|
        invariant Valid() && mine in streams && old(log) <= log && n <= |replay|
        invariant streams[mine].user == old(streams)[mine].user
        invariant SameConnection(old(accounts)[mine], accounts[mine])
        invariant forall k :: 0 <= k < n ==> writes(k)
      {
        Others(mine, others(n));
        if !writes(n) {
          return;
        }
        n := n + 1;
      }
    }

    /** Any number of turns of the others, then one read of this connection's channel. */
    method Turn(mine: nat, actions: seq<Action>) returns (ev: Option<Event>, ended: bool)
      requires Valid() && mine in streams
      modifies this, ring
      ensures Valid() && mine in streams && old(log) <= log
      ensures streams[mine].user == old(streams)[mine].user
      ensures SameButReceived(old(accounts)[mine], accounts[mine])
      ensures accounts[mine].received == old(accounts)[mine].received + if ev.Some? then [ev.value] else []
      ensures ended ==> ev == None && streams[mine].queue == []
      ensures actions == [] ==> streams[mine].queue == var q := old(streams)[mine].queue; if q == [] then [] else q[1..]
      ensures |streams[mine].queue| <= SUBSCRIBER_QUEUE
    {
      Others(mine, actions);
      ev, ended := Receive(mine);
      assert Kept(log, streams[mine], accounts[mine]);
    }

    lemma ReceivedIsGiven(id: nat)
      requires Valid() && id in streams
      ensures accounts[id].replay + accounts[id].received <= Frames(accounts[id])
      ensures streams[id].queue == [] ==> accounts[id].replay + accounts[id].received == Frames(accounts[id])
      ensures forall ev <- Frames(accounts[id]) :: MayRead(streams[id].user, ev)
    {
      assert Kept(log, streams[id], accounts[id]);
      NothingPrivateLeaks(log, streams[id], accounts[id]);
    }

    /**
     * The live half of handleEvents, until the channel ends, a write fails or the
     * client goes away. A client that stays for 64 rounds after the others have
     * gone still has been written everything.
     */
    method Follow(mine: nat, replay: seq<Event>, others: nat -> seq<Action>, writes: nat -> bool, patience: nat)
      returns (written: seq<Event>, ending: Ending)
      requires Valid() && mine in streams
      requires replay == accounts[mine].replay && accounts[mine].received == []
      modifies this, ring
      ensures Valid() && mine in streams && old(log) <= log
      ensures streams[mine].user == old(streams)[mine].user
      ensures SameButReceived(old(accounts)[mine], accounts[mine])
      ensures written <= accounts[mine].replay + accounts[mine].received
      ensures ending == Ended ==> streams[mine].queue == [] && written == accounts[mine].replay + accounts[mine].received
      ensures ending == WriteFailed ==> !writes(|written|)
      ensures ending == Left ==> written == accounts[mine].replay + accounts[mine].received
      ensures ending == Left ==> CaughtUp(others, patience, streams[mine].queue)
    {
      assert Kept(log, streams[mine], accounts[mine]);
      written := replay;
      for round := 0 to patience
        invariant Valid() && mine in streams && old(log) <= log
        invariant streams[mine].user == old(streams)[mine].user
        invariant SameButReceived(old(accounts)[mine], accounts[mine])
        invariant written == accounts[mine].replay + accounts[mine].received
        invariant CaughtUp(others, round, streams[mine].queue)
      {
        ghost var queue := streams[mine].queue;
        var ev, ended := Turn(mine, others(round));
        CatchesUp(others, round, queue, streams[mine].queue);
        if ended {
          return written, Ended;
        }
        if ev.Some? {
          if !writes(|written|) {
            return written, WriteFailed;
          }
          written := written + [ev.value];
        }
      }
      ending := Left;
    }

    /**
     * handleEvents: the replay first, then the channel. The others take any
     * number of turns before every write and every read, so the connection may
     * fill up and be dropped at any point. What is written is, in order, a part
     * from the start of what the connection was given, and all of it if the
     * handler stopped because the channel ended, or because the client left 64
     * rounds after the others had gone still; and the connection is closed at the
     * end whatever stopped it.
     */
    method HandleEvents(user: int, lastId: nat, replaying: nat -> seq<Action>, others: nat -> seq<Action>, writes: nat -> bool,
                        patience: nat)
      returns (id: nat, written: seq<Event>, missed: bool, ending: Ending)
      requires Valid() && lastId < UINT64
      modifies this, ring
      ensures Valid() && id !in old(streams) && id in streams && streams[id].closed
      ensures streams[id].user == user && old(log) <= log
      ensures written <= Frames(accounts[id]) && missed == accounts[id].missed
      ensures forall ev <- written :: MayRead(user, ev)
      ensures ending == Ended ==> written == Frames(accounts[id])
      ensures ending == Left && (exists still: nat :: still + 64 <= patience && StillFrom(others, still)) ==> written == Frames(accounts[id])
      ensures ending == WriteFailed ==> !writes(|written|)
      ensures accounts[id].served == !old(closed) && accounts[id].lastId == lastId && accounts[id].since == |old(log)|
    {
      var replay;
      id, replay, missed := Subscribe(user, lastId);
      var sent := WriteReplay(id, replay, replaying, writes);
      written, ending := replay[..sent], WriteFailed;
      if sent == |replay| {
        written, ending := Follow(id, replay, others, writes, patience);
      }
      ReceivedIsGiven(id);
      Unsubscribe(id);
    }

    /** The promise, for every connection of every interleaving. */
    lemma Delivered(id: nat)
      requires Valid() && id in streams
      requires accounts[id].served && 0 < accounts[id].lastId <= accounts[id].since <= |log| && !accounts[id].missed
      ensures Frames(accounts[id]) <= Visible(streams[id].user, log[accounts[id].lastId..])
      ensures !streams[id].closed ==> Frames(accounts[id]) == Visible(streams[id].user, log[accounts[id].lastId..])
      ensures !streams[id].closed ==>
                forall ev <- log[accounts[id].lastId..] | MayRead(streams[id].user, ev) :: ev in Frames(accounts[id])
      ensures forall ev <- Frames(accounts[id]) :: MayRead(streams[id].user, ev)
    {
      assert Kept(log, streams[id], accounts[id]);
      FramesAreExact(log, streams[id], accounts[id]);
      EverythingReadableArrives(log, streams[id], accounts[id]);
    }
  }
}
