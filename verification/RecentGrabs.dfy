/**
 * The Recent-grabs block: two arms read newest first at the full limit, then
 * concatenated, stably sorted and truncated.
 */
module RecentGrabs {
  import opened Wrappers

  const RECENT_PROVENANCE_DEFAULT_LIMIT := 10
  const RECENT_PROVENANCE_MAX_LIMIT := 200
  /** The zero time, in seconds: older than any grab. */
  const ZERO_TIME := -62135596800

  /** A response row; at is None for a grab whose time would not parse. */
  datatype Grab = Grab(id: string, at: Option<int>, outcome: string)

  function SortTimeOf(g: Grab): int {
    match g.at
    case None => ZERO_TIME
    case Some(t) => t
  }

  /** Newest first; ties in any order. */
  ghost predicate NewestFirst(s: seq<Grab>) {
    forall i, j :: 0 <= i < j < |s| ==> SortTimeOf(s[i]) >= SortTimeOf(s[j])
  }

  /** On times: dated rows go back in time, and after an undated row come only undated ones and none later than year one. */
  lemma NewestFirstMeans(s: seq<Grab>, i: nat, j: nat)
    requires NewestFirst(s) && i < j < |s|
    ensures s[i].at.Some? && s[j].at.Some? ==> s[i].at.value >= s[j].at.value
    ensures s[i].at == None ==> s[j].at == None || s[j].at.value <= -62135596800
  {
    assert SortTimeOf(s[i]) >= SortTimeOf(s[j]);
  }

  // ---- the stable sort ----

  /** Before the first row that is not strictly newer. */
  function Insert(g: Grab, s: seq<Grab>): (r: seq<Grab>)
    ensures |r| == |s| + 1
  {
    if s == [] || SortTimeOf(s[0]) <= SortTimeOf(g) then [g] + s else [s[0]] + Insert(g, s[1..])
  }

  /** sort.SliceStable by SortTimeOf, newest first. */
  function Sorted(s: seq<Grab>): (r: seq<Grab>)
    ensures |r| == |s|
  {
    if s == [] then [] else Insert(s[0], Sorted(s[1..]))
  }

  /** The rows of one time, in order. */
  function At(s: seq<Grab>, t: int): seq<Grab> {
    if s == [] then [] else (if SortTimeOf(s[0]) == t then [s[0]] else []) + At(s[1..], t)
  }

  lemma {:induction false} InsertKeepsRows(g: Grab, s: seq<Grab>)
    ensures forall x :: x in Insert(g, s) <==> x == g || x in s
  {
    if s != [] && SortTimeOf(s[0]) > SortTimeOf(g) {
      InsertKeepsRows(g, s[1..]);
      assert s == [s[0]] + s[1..];
    }
  }

  lemma NewestFirstCons(g: Grab, s: seq<Grab>)
    requires NewestFirst(s) && forall x <- s :: SortTimeOf(g) >= SortTimeOf(x)
    ensures NewestFirst([g] + s)
  {
  }

  lemma {:induction false} InsertSorts(g: Grab, s: seq<Grab>)
    requires NewestFirst(s)
    ensures NewestFirst(Insert(g, s))
  {
    if s == [] || SortTimeOf(s[0]) <= SortTimeOf(g) {
      NewestFirstCons(g, s);
    } else {
      InsertSorts(g, s[1..]);
      InsertKeepsRows(g, s[1..]);
      NewestFirstCons(s[0], Insert(g, s[1..]));
    }
  }

  lemma AtCons(g: Grab, s: seq<Grab>, t: int)
    ensures At([g] + s, t) == (if SortTimeOf(g) == t then [g] else []) + At(s, t)
  {
    assert ([g] + s)[1..] == s;
  }

  lemma {:induction false} InsertIsStable(g: Grab, s: seq<Grab>, t: int)
    ensures At(Insert(g, s), t) == (if SortTimeOf(g) == t then [g] else []) + At(s, t)
  {
    if s == [] || SortTimeOf(s[0]) <= SortTimeOf(g) {
      AtCons(g, s, t);
    } else {
      InsertIsStable(g, s[1..], t);
      AtCons(s[0], Insert(g, s[1..]), t);
    }
  }

  /** Sorted is newest first, and stable: the rows of each time come out exactly as they went in. */
  lemma {:induction false} SortedIsStable(s: seq<Grab>, t: int)
    ensures NewestFirst(Sorted(s))
    ensures At(Sorted(s), t) == At(s, t)
  {
    if s != [] {
      SortedIsStable(s[1..], t);
      InsertSorts(s[0], Sorted(s[1..]));
      InsertIsStable(s[0], Sorted(s[1..]), t);
    }
  }

  lemma AtHead(s: seq<Grab>, u: int)
    requires s != []
    ensures At(s[1..], u) == if SortTimeOf(s[0]) == u then At(s, u)[1..] else At(s, u)
  {
  }

  /** Two newest-first sequences with the same rows at every time are the same: a stable sort has one answer. */
  lemma {:induction false} StableSortIsUnique(a: seq<Grab>, b: seq<Grab>)
    requires NewestFirst(a) && NewestFirst(b) && forall t :: At(a, t) == At(b, t)
    ensures a == b
    decreases |a|
  {
    var head := if b == [] then 0 else SortTimeOf(b[0]);
    assert At(a, head) == At(b, head);
    if a != [] {
      var t := SortTimeOf(a[0]);
      assert At(a, t) == At(b, t);
      HeadIsNewest(b, t);
      HeadIsNewest(a, SortTimeOf(b[0]));
      assert At(a, SortTimeOf(b[0])) == At(b, SortTimeOf(b[0]));
      assert a[0] == At(a, t)[0] == b[0];
      forall u ensures At(a[1..], u) == At(b[1..], u) {
        assert At(a, u) == At(b, u);
        AtHead(a, u);
        AtHead(b, u);
      }
      StableSortIsUnique(a[1..], b[1..]);
    }
  }

  lemma {:induction false} HeadIsNewest(s: seq<Grab>, t: int)
    requires NewestFirst(s) && s != [] && At(s, t) != []
    ensures SortTimeOf(s[0]) >= t
  {
    if SortTimeOf(s[0]) != t {
      HeadIsNewest(s[1..], t);
    }
  }

  // ---- merging two arms ----

  /** The two arms merged, the first winning ties. */
  function Merged(a: seq<Grab>, b: seq<Grab>): (r: seq<Grab>)
    ensures |r| == |a| + |b|
    decreases |a| + |b|
  {
    if a == [] then b
    else if b == [] then a
    else if SortTimeOf(a[0]) >= SortTimeOf(b[0]) then [a[0]] + Merged(a[1..], b)
    else [b[0]] + Merged(a, b[1..])
  }

  lemma {:induction false} InsertIntoMerged(g: Grab, a: seq<Grab>, b: seq<Grab>)
    requires NewestFirst([g] + a)
    ensures Insert(g, Merged(a, b)) == Merged([g] + a, b)
    decreases |b|
  {
    assert ([g] + a)[1..] == a;
    assert a != [] ==> ([g] + a)[1] == a[0];
    if b != [] && SortTimeOf(b[0]) > SortTimeOf(g) {
      InsertIntoMerged(g, a, b[1..]);
      assert Merged(a, b) == [b[0]] + Merged(a, b[1..]);
      assert Merged(a, b)[1..] == Merged(a, b[1..]);
    }
  }

  lemma {:induction false} SortedIsItself(b: seq<Grab>)
    requires NewestFirst(b)
    ensures Sorted(b) == b
  {
    if b != [] {
      SortedIsItself(b[1..]);
    }
  }

  /** Sorting the concatenation of two newest-first arms is merging them. */
  lemma {:induction false} SortedIsMerged(a: seq<Grab>, b: seq<Grab>)
    requires NewestFirst(a) && NewestFirst(b)
    ensures Sorted(a + b) == Merged(a, b)
  {
    if a == [] {
      assert a + b == b;
      SortedIsItself(b);
    } else {
      assert (a + b)[1..] == a[1..] + b;
      SortedIsMerged(a[1..], b);
      assert [a[0]] + a[1..] == a;
      InsertIntoMerged(a[0], a[1..], b);
    }
  }

  function Take(s: seq<Grab>, n: nat): seq<Grab> {
    if |s| <= n then s else s[..n]
  }

  lemma TakeHead(s: seq<Grab>, n: nat)
    requires s != [] && n > 0
    ensures Take(s, n) != [] && Take(s, n)[0] == s[0] && Take(s, n)[1..] == Take(s[1..], n - 1)
  {
  }

  lemma TakeOfCons(g: Grab, s: seq<Grab>, n: nat)
    requires n > 0
    ensures Take([g] + s, n) == [g] + Take(s, n - 1)
  {
    TakeHead([g] + s, n);
    assert ([g] + s)[1..] == s;
  }

  /** The first n of a merge need no more than the first n of each arm. */
  lemma {:induction false} TakeOfMerged(a: seq<Grab>, b: seq<Grab>, n: nat, j: nat, k: nat)
    requires n <= j && n <= k
    ensures Take(Merged(Take(a, j), Take(b, k)), n) == Take(Merged(a, b), n)
    decreases |a| + |b|
  {
    if n > 0 {
      if a == [] {
        assert Take(Take(b, k), n) == Take(b, n);
      } else if b == [] {
        assert Take(Take(a, j), n) == Take(a, n);
      } else if SortTimeOf(a[0]) >= SortTimeOf(b[0]) {
        TakeHead(a, j);
        TakeHead(b, k);
        TakeOfMerged(a[1..], b, n - 1, j - 1, k);
        TakeOfCons(a[0], Merged(a[1..], b), n);
        TakeOfCons(a[0], Merged(Take(a[1..], j - 1), Take(b, k)), n);
      } else {
        TakeHead(a, j);
        TakeHead(b, k);
        TakeOfMerged(a, b[1..], n - 1, j, k - 1);
        TakeOfCons(b[0], Merged(a, b[1..]), n);
        TakeOfCons(b[0], Merged(Take(a, j), Take(b[1..], k - 1)), n);
      }
    }
  }

  lemma TakeIsNewestFirst(s: seq<Grab>, n: nat)
    requires NewestFirst(s)
    ensures NewestFirst(Take(s, n))
  {
  }

  /**
   * The union: the newest n of the first n of each arm are the newest n of the
   * two whole arms, ties and undated rows included.
   */
  lemma UnionOfFirsts(a: seq<Grab>, b: seq<Grab>, n: nat)
    requires NewestFirst(a) && NewestFirst(b)
    ensures Take(Sorted(Take(a, n) + Take(b, n)), n) == Take(Sorted(a + b), n)
  {
    TakeIsNewestFirst(a, n);
    TakeIsNewestFirst(b, n);
    SortedIsMerged(Take(a, n), Take(b, n));
    SortedIsMerged(a, b);
    TakeOfMerged(a, b, n, n, n);
  }

  // ---- the handler ----

  /** grab.not_sent audit rows; a row without an actor cannot be shown. */
  datatype AuditRow = AuditRow(actor: Option<int>, grab: Grab)

  function Shown(rows: seq<AuditRow>): seq<Grab> {
    if rows == [] then []
    else Shown(rows[..|rows| - 1]) + if rows[|rows| - 1].actor.Some? then [rows[|rows| - 1].grab] else []
  }

  function Effective(limit: int): (n: nat)
    ensures 0 < n <= RECENT_PROVENANCE_MAX_LIMIT
  {
    if limit <= 0 then RECENT_PROVENANCE_DEFAULT_LIMIT
    else if limit > RECENT_PROVENANCE_MAX_LIMIT then RECENT_PROVENANCE_MAX_LIMIT
    else limit
  }

  /** No limit, or one below one, means 10; anything above 200 means 200. */
  lemma EffectiveMeans(limit: int)
    ensures 1 <= limit <= 200 ==> Effective(limit) == limit
    ensures limit < 1 ==> Effective(limit) == 10
    ensures limit > 200 ==> Effective(limit) == 200
  {
  }

  /** Exactly the rows that have an actor. */
  lemma {:induction false} ShownMeans(rows: seq<AuditRow>)
    ensures forall g :: g in Shown(rows) <==> exists r :: r in rows && r.actor.Some? && r.grab == g
  {
    if rows != [] {
      var n := |rows| - 1;
      ShownMeans(rows[..n]);
      assert rows == rows[..n] + [rows[n]];
    }
  }

  function Grabs(rows: seq<AuditRow>): seq<Grab> {
    seq(|rows|, i requires 0 <= i < |rows| => rows[i].grab)
  }

  lemma {:induction false} AllShown(rows: seq<AuditRow>)
    requires forall r <- rows :: r.actor.Some?
    ensures Shown(rows) == Grabs(rows)
  {
    if rows != [] {
      var n := |rows| - 1;
      assert rows[n] in rows;
      AllShown(rows[..n]);
      assert Grabs(rows) == Grabs(rows[..n]) + [rows[n].grab];
    }
  }

  function TakeRows(rows: seq<AuditRow>, n: nat): seq<AuditRow> {
    if |rows| <= n then rows else rows[..n]
  }

  /**
   * handleRecentGrabs over the two full arms, each already newest first: what it
   * answers is the newest rows of both, as long as every audit row has an actor.
   */
  method HandleRecentGrabs(sent: seq<Grab>, notSent: seq<AuditRow>, limit: int) returns (out: seq<Grab>, effective: nat)
    requires NewestFirst(sent) && NewestFirst(Grabs(notSent))
    ensures effective == Effective(limit) && |out| <= effective
    ensures out == Take(Sorted(Take(sent, effective) + Shown(TakeRows(notSent, effective))), effective)
    ensures (forall r <- notSent :: r.actor.Some?) ==> out == Take(Sorted(sent + Grabs(notSent)), effective)
  {
    effective := Effective(limit);
    var read := TakeRows(notSent, effective);
    out := Take(sent, effective);
    for i := 0 to |read|
      invariant out == Take(sent, effective) + Shown(read[..i])
    {
      assert read[..i + 1][..i] == read[..i];
      if read[i].actor.Some? {
        out := out + [read[i].grab];
      }
    }
    assert read[..|read|] == read;
    if forall r <- notSent :: r.actor.Some? {
      AllShown(read);
      assert Grabs(read) == Take(Grabs(notSent), effective);
      UnionOfFirsts(sent, Grabs(notSent), effective);
    }
    out := Sorted(out);
    out := Take(out, effective);
  }
}
