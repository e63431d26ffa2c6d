/**
 * The arrivals walk: a keyset walk over a library other actors insert into,
 * delete from and re-date between pages.
 *
 * Every page is the first 200 rows, in (addedAt, id) order, of a fresh snapshot
 * filtered strictly above the cursor. The server compares at full precision; the
 * client sees and sends milliseconds.
 */
module Arrivals {
  import opened Wrappers
  import opened Instants

  const BOOK_PAGE_SIZE := 200
  const MAX_BOOK_PAGES := 5000

  /** A card of the library. `readable` is whether its stamp parses to a non-zero time. */
  datatype Row = Row(at: Instant, id: int, readable: bool)

  predicate Precedes(a: Row, b: Row) {
    a.at < b.at || (a.at == b.at && a.id < b.id)
  }

  ghost predicate Ordered(rows: seq<Row>) {
    forall i, j :: 0 <= i < j < |rows| ==> Precedes(rows[i], rows[j])
  }

  /** The `after` filter; without a cursor there is none. */
  predicate Above(row: Row, cursor: Option<string>) {
    cursor.Some? ==> Parsed(cursor.value).Some? && row.at > Parsed(cursor.value).value
  }

  /** A filter value the server can read. */
  predicate Understood(cursor: Option<string>) {
    cursor.Some? ==> Parsed(cursor.value).Some?
  }

  function Matching(rows: seq<Row>, cursor: Option<string>): (r: seq<Row>)
    ensures forall row :: row in r <==> row in rows && Above(row, cursor)
  {
    if rows == [] then []
    else (if Above(rows[0], cursor) then [rows[0]] else []) + Matching(rows[1..], cursor)
  }

  lemma {:induction false} MatchingIsOrdered(rows: seq<Row>, cursor: Option<string>)
    requires Ordered(rows)
    ensures Ordered(Matching(rows, cursor))
  {
    if rows != [] {
      var rest := Matching(rows[1..], cursor);
      MatchingIsOrdered(rows[1..], cursor);
      forall row | row in rest ensures Precedes(rows[0], row) {
        assert row in rows[1..];
      }
    }
  }

  /** One request: the cursor it carried and the library it was answered from. */
  datatype Visit = Visit(cursor: Option<string>, snapshot: seq<Row>)

  /** The page: page 0, size 200. */
  function Page(v: Visit): seq<Row> {
    var rows := Matching(v.snapshot, v.cursor);
    if |rows| <= BOOK_PAGE_SIZE then rows else rows[..BOOK_PAGE_SIZE]
  }

  predicate Full(v: Visit) {
    |Page(v)| == BOOK_PAGE_SIZE
  }

  /** On instants: the first 200 rows, by time and then by id, strictly above the cursor's millisecond. */
  lemma PageMeans(v: Visit, start: Option<Instant>)
    requires Ordered(v.snapshot) && v.cursor == match start case Some(t) => Some(Stamp(t)) case None => None
    ensures |Page(v)| <= 200
    ensures forall row <- Page(v) :: row in v.snapshot && (start.Some? ==> row.at > Floor(start.value))
    ensures forall i, j :: 0 <= i < j < |Page(v)| ==>
              Page(v)[i].at < Page(v)[j].at || (Page(v)[i].at == Page(v)[j].at && Page(v)[i].id < Page(v)[j].id)
    ensures forall row <- v.snapshot | start.Some? ==> row.at > Floor(start.value) ::
              row in Page(v)
              || (|Page(v)| == 200 && forall p <- Page(v) :: p.at < row.at || (p.at == row.at && p.id < row.id))
  {
    var rows, page := Matching(v.snapshot, v.cursor), Page(v);
    MatchingIsOrdered(v.snapshot, v.cursor);
    if start.Some? {
      ParsedOfStamp(start.value);
    }
    forall row <- rows
      ensures row in page || (|page| == 200 && forall p <- page :: Precedes(p, row))
    {
      var i :| 0 <= i < |rows| && rows[i] == row;
      if i < |page| {
        assert page[i] == row;
      }
    }
    forall i, j | 0 <= i < j < |page| ensures Precedes(page[i], page[j]) {
      assert page[i] == rows[i] && page[j] == rows[j];
    }
  }

  /** The readable arrivals in their wire rendering, in delivery order. */
  function Stamps(rows: seq<Row>): (r: seq<string>)
    ensures forall row <- rows | row.readable :: Stamp(row.at) in r
    ensures forall s <- r :: exists row :: row in rows && row.readable && Stamp(row.at) == s
  {
    if rows == [] then []
    else
      var n := |rows| - 1;
      Stamps(rows[..n]) + if rows[n].readable then [Stamp(rows[n].at)] else []
  }

  // ---- advancing ----

  /** Some value on the page lies strictly below another and strictly above the cursor. */
  ghost predicate Between(seen: seq<string>, cursor: Option<string>, v: string) {
    v in seen && (exists u :: u in seen && LexLess(v, u)) && (cursor.Some? ==> LexLess(cursor.value, v))
  }

  /** r is the second-largest distinct value: the largest that lies below another. */
  ghost predicate IsSecondLargest(seen: seq<string>, r: string) {
    && Between(seen, None, r)
    && forall v :: Between(seen, None, v) ==> !LexLess(r, v)
  }

  lemma SecondLargestIsUnique(seen: seq<string>, a: string, b: string)
    requires IsSecondLargest(seen, a) && IsSecondLargest(seen, b)
    ensures a == b
  {
    LexTrichotomy(a, b);
  }

  /** advanceArrivalsCursor: one fold over unsorted values, the empty string standing for "none yet". */
  method AdvanceArrivalsCursor(seen: seq<string>) returns (r: Option<string>)
    ensures r.Some? ==> r.value != "" && IsSecondLargest(seen, r.value)
    ensures r == None ==> forall v :: Between(seen, None, v) ==> v == ""
  {
    var top, below := "", "";
    for i := 0 to |seen|
      invariant forall v <- seen[..i] :: v == top || (LexLess(v, top) && (v == below || LexLess(v, below)))
      invariant top != "" ==> top in seen[..i]
      invariant below != "" ==> below in seen[..i] && LexLess(below, top)
    {
      var v := seen[i];
      assert seen[..i + 1] == seen[..i] + [v];
      LexTrichotomy(v, top);
      LexTrichotomy(v, below);
      if LexLess(top, v) {
        forall u | u in seen[..i] ensures LexLess(u, v) && (u == top || LexLess(u, top)) {
          if u != top {
            LexTransitive(u, top, v);
          }
        }
        top, below := v, top;
      } else if LexLess(v, top) && LexLess(below, v) {
        forall u | u in seen[..i] && LexLess(u, below) ensures LexLess(u, v) {
          LexTransitive(u, below, v);
        }
        below := v;
      }
    }
    assert seen[..|seen|] == seen;
    forall v | Between(seen, None, v) ensures v == below || LexLess(v, below) {
      var u :| u in seen && LexLess(v, u);
      LexTrichotomy(v, u);
      LexTrichotomy(v, top);
      LexTrichotomy(u, top);
    }
    if below == "" {
      return None;
    }
    forall v | Between(seen, None, v) ensures !LexLess(below, v) {
      LexTrichotomy(v, below);
    }
    r := Some(below);
  }

  // ---- the walk ----

  /** The next cursor: after a full page, the second-largest value on it, if that is above the cursor before. */
  ghost predicate Advances(v: Visit, next: Option<string>) {
    && Full(v)
    && next.Some? && IsSecondLargest(Stamps(Page(v)), next.value)
    && (v.cursor.Some? ==> LexLess(v.cursor.value, next.value))
  }

  ghost predicate IsWalk(trace: seq<Visit>) {
    && (forall i :: 0 <= i < |trace| ==> Ordered(trace[i].snapshot))
    && (forall i :: 0 < i < |trace| ==> Advances(trace[i - 1], trace[i].cursor))
  }

  /** Present, with this addedAt, in the snapshot of every page. */
  ghost predicate Stays(trace: seq<Visit>, row: Row) {
    forall i :: 0 <= i < |trace| ==> row in trace[i].snapshot
  }

  /** A page is a prefix of the ordering: what precedes one of its rows is on it too. */
  lemma PageIsPrefix(v: Visit, row: Row, later: Row)
    requires Ordered(v.snapshot)
    requires row in v.snapshot && Above(row, v.cursor) && later in Page(v) && Precedes(row, later)
    ensures row in Page(v)
  {
    var rows := Matching(v.snapshot, v.cursor);
    MatchingIsOrdered(v.snapshot, v.cursor);
    var i :| 0 <= i < |rows| && rows[i] == row;
    var j :| 0 <= j < |Page(v)| && Page(v)[j] == later;
    assert rows[j] == later;
    if i < |Page(v)| {
      assert Page(v)[i] == row;
    }
  }

  /** What the new cursor leaves behind was on the page just read. */
  lemma NothingIsSkipped(v: Visit, next: Option<string>, row: Row)
    requires Ordered(v.snapshot) && Advances(v, next)
    requires row in v.snapshot && Above(row, v.cursor) && !Above(row, next)
    ensures row in Page(v)
  {
    var seen, c := Stamps(Page(v)), next.value;
    var u :| u in seen && LexLess(c, u);
    var at: Row :| at in Page(v) && at.readable && Stamp(at.at) == c;
    var later: Row :| later in Page(v) && later.readable && Stamp(later.at) == u;
    ParsedOfStamp(at.at);
    StampOrder(at.at, later.at);
    PageIsPrefix(v, row, later);
  }

  ghost predicate Visited(trace: seq<Visit>, n: nat, row: Row)
    requires n <= |trace|
  {
    exists k :: 0 <= k < n && row in Page(trace[k])
  }

  /** Whatever happens between pages: a row that stays, above the start and at or below the cursor reached, has been on a page. */
  lemma {:induction false} WalkCovers(trace: seq<Visit>, n: nat, row: Row)
    requires IsWalk(trace) && n < |trace| && Stays(trace, row)
    requires Above(row, trace[0].cursor) && !Above(row, trace[n].cursor)
    ensures Visited(trace, n, row)
  {
    if n > 0 {
      if Above(row, trace[n - 1].cursor) {
        assert Advances(trace[n - 1], trace[n].cursor);
        NothingIsSkipped(trace[n - 1], trace[n].cursor, row);
      } else {
        WalkCovers(trace, n - 1, row);
      }
    }
  }

  /** A walk that ends on a short page has been everywhere. */
  lemma ShortPageFinishes(trace: seq<Visit>, row: Row)
    requires IsWalk(trace) && trace != [] && !Full(trace[|trace| - 1])
    requires Stays(trace, row) && Above(row, trace[0].cursor)
    ensures Visited(trace, |trace|, row)
  {
    var last := trace[|trace| - 1];
    if Above(row, last.cursor) {
      assert row in Page(last);
    } else {
      WalkCovers(trace, |trace| - 1, row);
    }
  }

  /** The cursor climbs strictly along the walk, so no two requests of it are the same. */
  lemma {:induction false} CursorsClimb(trace: seq<Visit>, i: nat, j: nat)
    requires IsWalk(trace) && i < j < |trace| && trace[i].cursor.Some?
    ensures trace[j].cursor.Some? && LexLess(trace[i].cursor.value, trace[j].cursor.value)
  {
    assert Advances(trace[j - 1], trace[j].cursor);
    if i < j - 1 {
      CursorsClimb(trace, i, j - 1);
      LexTransitive(trace[i].cursor.value, trace[j - 1].cursor.value, trace[j].cursor.value);
    }
  }

  /** A page value lies strictly above the cursor and strictly below the page's largest. */
  ghost predicate CanAdvance(v: Visit) {
    exists s :: Between(Stamps(Page(v)), v.cursor, s)
  }

  /** In milliseconds: two readable rows of the page in different milliseconds, the earlier above the cursor's own. */
  lemma CanAdvanceMeans(v: Visit, start: Option<Instant>)
    requires v.cursor == match start case Some(t) => Some(Stamp(t)) case None => None
    ensures CanAdvance(v) <==>
              exists a, b :: && a in Page(v) && b in Page(v) && a.readable && b.readable
                             && Floor(a.at) < Floor(b.at) && (start.Some? ==> Floor(start.value) < Floor(a.at))
  {
    var seen := Stamps(Page(v));
    if CanAdvance(v) {
      var s :| Between(seen, v.cursor, s);
      var u :| u in seen && LexLess(s, u);
      var a: Row :| a in Page(v) && a.readable && Stamp(a.at) == s;
      var b: Row :| b in Page(v) && b.readable && Stamp(b.at) == u;
      StampOrder(a.at, b.at);
      if start.Some? {
        StampOrder(start.value, a.at);
      }
    }
    forall a, b | a in Page(v) && b in Page(v) && a.readable && b.readable
                  && Floor(a.at) < Floor(b.at) && (start.Some? ==> Floor(start.value) < Floor(a.at))
      ensures CanAdvance(v)
    {
      StampOrder(a.at, b.at);
      if start.Some? {
        StampOrder(start.value, a.at);
      }
      assert Between(seen, v.cursor, Stamp(a.at));
    }
  }

  /** The second-largest value clears the cursor exactly when some value can. */
  lemma SecondLargestAdvances(v: Visit, r: string)
    requires IsSecondLargest(Stamps(Page(v)), r)
    ensures CanAdvance(v) <==> v.cursor == None || LexLess(v.cursor.value, r)
  {
    var seen := Stamps(Page(v));
    if v.cursor == None || LexLess(v.cursor.value, r) {
      assert Between(seen, v.cursor, r);
    }
    forall s | Between(seen, v.cursor, s) ensures v.cursor == None || LexLess(v.cursor.value, r) {
      assert Between(seen, None, s);
      LexTrichotomy(s, r);
      if v.cursor.Some? && s != r {
        LexTransitive(v.cursor.value, s, r);
      }
    }
  }

  lemma NoneCannotAdvance(v: Visit)
    requires forall s :: Between(Stamps(Page(v)), None, s) ==> s == ""
    ensures !CanAdvance(v)
  {
    forall s | s in Stamps(Page(v)) ensures s != "" {
      var row: Row :| row in Page(v) && row.readable && Stamp(row.at) == s;
      ParsedOfStamp(row.at);
    }
    forall s ensures !Between(Stamps(Page(v)), v.cursor, s) {
      assert Between(Stamps(Page(v)), v.cursor, s) ==> Between(Stamps(Page(v)), None, s);
    }
  }

  /** A walk from `start` about to request with `cursor`. */
  ghost predicate Underway(trace: seq<Visit>, start: Option<string>, cursor: Option<string>) {
    && IsWalk(trace)
    && if trace == [] then cursor == start
       else trace[0].cursor == start && Advances(trace[|trace| - 1], cursor) && CanAdvance(trace[|trace| - 1])
  }

  lemma WalkGrows(trace: seq<Visit>, start: Option<string>, visit: Visit)
    requires Underway(trace, start, visit.cursor) && Ordered(visit.snapshot)
    ensures IsWalk(trace + [visit]) && (trace + [visit])[0].cursor == start
  {
    var longer := trace + [visit];
    forall i | 0 < i < |longer| ensures Advances(longer[i - 1], longer[i].cursor) {
      assert longer[i - 1] == trace[i - 1];
    }
  }

  ghost predicate AllDelivered(trace: seq<Visit>, n: nat, delivered: seq<Row>)
    requires n <= |trace|
  {
    forall row | Visited(trace, n, row) :: row in delivered
  }

  lemma DeliveredGrows(trace: seq<Visit>, visit: Visit, delivered: seq<Row>, more: seq<Row>)
    requires AllDelivered(trace, |trace|, delivered) && delivered <= more
    ensures AllDelivered(trace + [visit], |trace|, more)
    ensures more == delivered + Page(visit) ==> AllDelivered(trace + [visit], |trace| + 1, more)
  {
    var longer := trace + [visit];
    forall row, n: nat | n <= |trace| + 1 && Visited(longer, n, row)
      ensures row in delivered || (n == |trace| + 1 && row in Page(visit))
    {
      var k :| 0 <= k < n && row in Page(longer[k]);
      if k < |trace| {
        assert longer[k] == trace[k];
        assert Visited(trace, |trace|, row);
      }
    }
  }

  /** What a walk cut off at its last request has already handed over. */
  ghost predicate Covers(trace: seq<Visit>, delivered: seq<Row>) {
    trace != [] ==>
      forall row | Stays(trace, row) && Above(row, trace[0].cursor) && !Above(row, trace[|trace| - 1].cursor) ::
        row in delivered
  }

  /** Nothing above the start that stays was missed. */
  ghost predicate CoversAll(trace: seq<Visit>, delivered: seq<Row>) {
    trace != [] && forall row | Stays(trace, row) && Above(row, trace[0].cursor) :: row in delivered
  }

  lemma DeliveredCovers(trace: seq<Visit>, delivered: seq<Row>)
    requires IsWalk(trace) && trace != [] && AllDelivered(trace, |trace| - 1, delivered)
    ensures Covers(trace, delivered)
  {
    forall row | Stays(trace, row) && Above(row, trace[0].cursor) && !Above(row, trace[|trace| - 1].cursor)
      ensures row in delivered
    {
      WalkCovers(trace, |trace| - 1, row);
    }
  }

  lemma FinishedWalk(trace: seq<Visit>, delivered: seq<Row>)
    requires IsWalk(trace) && trace != [] && !Full(trace[|trace| - 1]) && AllDelivered(trace, |trace|, delivered)
    ensures CoversAll(trace, delivered)
  {
    forall row | Stays(trace, row) && Above(row, trace[0].cursor) ensures row in delivered {
      ShortPageFinishes(trace, row);
    }
  }

  datatype End = Done | Wedged(at: string) | TooLong | Refused | Aborted

  predicate LastReadableAt(page: seq<Row>, i: nat) {
    i < |page| && page[i].readable && forall j :: i < j < |page| ==> !page[j].readable
  }

  /** The instant is that of the page's last row with a readable one, and empty if there is none. */
  ghost predicate LastReadable(page: seq<Row>, at: string) {
    || (at == "" && forall row <- page :: !row.readable)
    || exists i: nat :: LastReadableAt(page, i) && at == Stamp(page[i].at)
  }

  lemma {:induction false} LastStampIsLastReadable(page: seq<Row>)
    ensures LastReadable(page, LastOf(Stamps(page)))
  {
    if exists i: nat :: LastReadableAt(page, i) {
      var i: nat :| LastReadableAt(page, i);
      LastStampIs(page, i);
    } else {
      NoneReadable(page);
    }
  }

  lemma {:induction false} LastStampIs(page: seq<Row>, i: nat)
    requires LastReadableAt(page, i)
    ensures Stamps(page) != [] && Stamps(page)[|Stamps(page)| - 1] == Stamp(page[i].at)
  {
    if i < |page| - 1 {
      LastStampIs(page[..|page| - 1], i);
    }
  }

  lemma {:induction false} NoneReadable(page: seq<Row>)
    requires forall i: nat :: !LastReadableAt(page, i)
    ensures Stamps(page) == [] && forall row <- page :: !row.readable
  {
    if page != [] {
      var n := |page| - 1;
      assert !LastReadableAt(page, n);
      forall i: nat ensures !LastReadableAt(page[..n], i) {
        assert !LastReadableAt(page, i);
      }
      NoneReadable(page[..n]);
      assert page == page[..n] + [page[n]];
    }
  }

  /** Request n is not answered: it failed, or it is the first and its cursor cannot be read. */
  predicate Unanswered(snapshots: nat -> Option<seq<Row>>, start: Option<string>, n: nat) {
    snapshots(n) == None || (n == 0 && !Understood(start))
  }

  /** fn took every row it was handed. */
  ghost predicate Took(fnFails: nat -> bool, delivered: seq<Row>) {
    forall k: nat :: k < |delivered| ==> !fnFails(k)
  }

  /** What stopped the walk: a request that went unanswered before the page bound, or a row fn refused. */
  ghost predicate Stopped(snapshots: nat -> Option<seq<Row>>, fnFails: nat -> bool, start: Option<string>, trace: seq<Visit>,
                          delivered: seq<Row>, end: End) {
    && Took(fnFails, delivered)
    && (end.Refused? ==> |trace| < MAX_BOOK_PAGES && Unanswered(snapshots, start, |trace|))
    && (end.Aborted? ==> fnFails(|delivered|))
  }

  /** How the last page of the trace explains the end of the walk. */
  ghost predicate Explains(trace: seq<Visit>, end: End) {
    match end
    case Done => trace != [] && !Full(trace[|trace| - 1])
    case Wedged(at) =>
      trace != [] && Full(trace[|trace| - 1]) && !CanAdvance(trace[|trace| - 1]) && LastReadable(Page(trace[|trace| - 1]), at)
    case TooLong => |trace| == 5000 && Full(trace[|trace| - 1]) && CanAdvance(trace[|trace| - 1])
    case Refused => trace == [] || (Full(trace[|trace| - 1]) && CanAdvance(trace[|trace| - 1]))
    case Aborted => trace != []
  }

  function LastOf(seen: seq<string>): string {
    if seen == [] then "" else seen[|seen| - 1]
  }

  lemma WedgedWalk(trace: seq<Visit>, page: seq<Row>)
    requires trace != [] && page == Page(trace[|trace| - 1]) && Full(trace[|trace| - 1]) && !CanAdvance(trace[|trace| - 1])
    ensures Explains(trace, Wedged(LastOf(Stamps(page))))
  {
    LastStampIsLastReadable(page);
  }

  /** Hand the page's rows to fn, collecting the readable stamps. */
  method Deliver(page: seq<Row>, before: seq<Row>, fnFails: nat -> bool)
    returns (ok: bool, delivered: seq<Row>, seen: seq<string>)
    ensures before <= delivered <= before + page
    ensures ok ==> delivered == before + page && seen == Stamps(page)
    ensures !ok ==> |delivered| < |before + page| && fnFails(|delivered|)
    ensures Took(fnFails, before) ==> Took(fnFails, delivered)
  {
    delivered, seen := before, [];
    for i := 0 to |page|
      invariant delivered == before + page[..i] && seen == Stamps(page[..i])
      invariant Took(fnFails, before) ==> Took(fnFails, delivered)
    {
      if fnFails(|delivered|) {
        return false, delivered, seen;
      }
      assert page[..i + 1][..i] == page[..i];
      delivered := delivered + [page[i]];
      if page[i].readable {
        seen := seen + [Stamp(page[i].at)];
      }
    }
    assert page[..|page|] == page;
    ok := true;
  }

  /** The advance, and the check that it climbs: None is the wedge. */
  method NextCursor(v: Visit, seen: seq<string>) returns (next: Option<string>)
    requires Full(v) && seen == Stamps(Page(v))
    ensures next.Some? <==> CanAdvance(v)
    ensures next.Some? ==> Advances(v, next)
  {
    next := AdvanceArrivalsCursor(seen);
    if next.Some? {
      SecondLargestAdvances(v, next.value);
    } else {
      NoneCannotAdvance(v);
    }
    if next.Some? && v.cursor.Some? && !LexLess(v.cursor.value, next.value) {
      next := None;
    }
  }

  /** The pages were answered in turn, starting from the cursor given. */
  ghost predicate Answered(snapshots: nat -> Option<seq<Row>>, start: Option<string>, trace: seq<Visit>) {
    && IsWalk(trace) && |trace| <= MAX_BOOK_PAGES
    && (trace != [] ==> trace[0].cursor == start && Understood(start))
    && forall i :: 0 <= i < |trace| ==> snapshots(i) == Some(trace[i].snapshot)
  }

  /** The pages end to end. */
  function Pages(trace: seq<Visit>): seq<Row> {
    if trace == [] then [] else Pages(trace[..|trace| - 1]) + Page(trace[|trace| - 1])
  }

  /** fn was handed the pages in order, up to the delivery it refused. */
  predicate Exactly(trace: seq<Visit>, delivered: seq<Row>, end: End) {
    if end.Aborted? then
      trace != [] && Pages(trace[..|trace| - 1]) <= delivered && delivered < Pages(trace)
    else delivered == Pages(trace)
  }

  lemma PagesGrow(trace: seq<Visit>, visit: Visit)
    ensures Pages(trace + [visit]) == Pages(trace) + Page(visit)
    ensures (trace + [visit])[..|trace|] == trace
  {
    assert (trace + [visit])[..|trace|] == trace;
  }

  /**
   * What a walk promises. On a nil error every row that stays, above the starting
   * cursor, was handed to fn; however the walk ends, so was every such row at or
   * below its last cursor.
   */
  ghost predicate Delivers(trace: seq<Visit>, delivered: seq<Row>, end: End) {
    && Explains(trace, end) && Exactly(trace, delivered, end)
    && Covers(trace, delivered) && (end.Done? ==> CoversAll(trace, delivered))
  }

  ghost predicate Going(start: Option<string>, trace: seq<Visit>, delivered: seq<Row>, cursor: Option<string>) {
    && Underway(trace, start, cursor)
    && delivered == Pages(trace) && AllDelivered(trace, |trace|, delivered) && Covers(trace, delivered)
  }

  lemma AnsweredGrows(snapshots: nat -> Option<seq<Row>>, start: Option<string>, trace: seq<Visit>, visit: Visit)
    requires Answered(snapshots, start, trace) && Underway(trace, start, visit.cursor)
    requires |trace| < MAX_BOOK_PAGES
    requires Ordered(visit.snapshot) && snapshots(|trace|) == Some(visit.snapshot) && Understood(visit.cursor)
    ensures Answered(snapshots, start, trace + [visit])
  {
    WalkGrows(trace, start, visit);
  }

  lemma CutOff(start: Option<string>, trace: seq<Visit>, delivered: seq<Row>, cursor: Option<string>)
    requires Going(start, trace, delivered, cursor)
    ensures Delivers(trace, delivered, Refused)
    ensures |trace| == MAX_BOOK_PAGES ==> Delivers(trace, delivered, TooLong)
  {
  }

  datatype Outcome = Continue(next: Option<string>) | Stop(end: End)

  /** One page: hand it to fn, then stop or find the next cursor. */
  method ReadPage(ghost trace: seq<Visit>, ghost start: Option<string>, visit: Visit, before: seq<Row>, fnFails: nat -> bool)
    returns (delivered: seq<Row>, r: Outcome)
    requires Going(start, trace, before, visit.cursor) && Ordered(visit.snapshot) && Took(fnFails, before)
    ensures Took(fnFails, delivered)
    ensures r.Stop? ==> Delivers(trace + [visit], delivered, r.end) && !r.end.Refused? && (r.end.Aborted? ==> fnFails(|delivered|))
    ensures r.Continue? ==> Going(start, trace + [visit], delivered, r.next)
  {
    WalkGrows(trace, start, visit);
    var ok, seen;
    ok, delivered, seen := Deliver(Page(visit), before, fnFails);
    DeliveredGrows(trace, visit, before, delivered);
    PagesGrow(trace, visit);
    ghost var longer := trace + [visit];
    DeliveredCovers(longer, delivered);
    if !ok {
      return delivered, Stop(Aborted);
    }
    if |Page(visit)| < BOOK_PAGE_SIZE {
      FinishedWalk(longer, delivered);
      return delivered, Stop(Done);
    }
    var next := NextCursor(visit, seen);
    if next == None {
      WedgedWalk(longer, Page(visit));
      return delivered, Stop(Wedged(LastOf(seen)));
    }
    r := Continue(next);
  }

  /** A cursor taken from a page can always be read. */
  lemma AdvancedIsUnderstood(v: Visit, next: Option<string>)
    requires Advances(v, next)
    ensures Understood(next)
  {
    var row: Row :| row in Page(v) && row.readable && Stamp(row.at) == next.value;
    ParsedOfStamp(row.at);
  }

  lemma RefusedHere(snapshots: nat -> Option<seq<Row>>, fnFails: nat -> bool, start: Option<string>, trace: seq<Visit>,
                    delivered: seq<Row>, cursor: Option<string>)
    requires Underway(trace, start, cursor) && Took(fnFails, delivered) && |trace| < MAX_BOOK_PAGES
    requires snapshots(|trace|) == None || !Understood(cursor)
    ensures Stopped(snapshots, fnFails, start, trace, delivered, Refused)
  {
    if trace != [] {
      AdvancedIsUnderstood(trace[|trace| - 1], cursor);
    }
  }

  // ---- one walk only ----

  /** Everything StreamBooksSince promises about its result. */
  ghost predicate IsRun(snapshots: nat -> Option<seq<Row>>, fnFails: nat -> bool, start: Option<string>, trace: seq<Visit>,
                        delivered: seq<Row>, end: End) {
    && Answered(snapshots, start, trace) && Explains(trace, end) && Exactly(trace, delivered, end)
    && Stopped(snapshots, fnFails, start, trace, delivered, end)
  }

  /** The requests of two runs agree as far as both go. */
  lemma {:induction false} SameRequests(snapshots: nat -> Option<seq<Row>>, start: Option<string>, t: seq<Visit>, u: seq<Visit>, i: nat)
    requires Answered(snapshots, start, t) && Answered(snapshots, start, u) && i < |t| && i < |u|
    ensures t[i] == u[i]
  {
    if i > 0 {
      SameRequests(snapshots, start, t, u, i - 1);
      assert Advances(t[i - 1], t[i].cursor) && Advances(u[i - 1], u[i].cursor);
      SecondLargestIsUnique(Stamps(Page(t[i - 1])), t[i].cursor.value, u[i].cursor.value);
    }
  }

  lemma {:induction false} PagesOfPrefix(trace: seq<Visit>, n: nat)
    requires n <= |trace|
    ensures |Pages(trace[..n])| <= |Pages(trace)|
  {
    if n < |trace| {
      assert trace[..|trace| - 1][..n] == trace[..n];
      PagesOfPrefix(trace[..|trace| - 1], n);
    } else {
      assert trace[..n] == trace;
    }
  }

  /** Where another walk goes on, the request was answered and the page let it. */
  lemma GoesOn(snapshots: nat -> Option<seq<Row>>, start: Option<string>, t: seq<Visit>, u: seq<Visit>)
    requires Answered(snapshots, start, t) && Answered(snapshots, start, u) && |t| < |u|
    ensures t == u[..|t|]
    ensures snapshots(|t|).Some? && Understood(start)
    ensures t != [] ==> Full(t[|t| - 1]) && CanAdvance(t[|t| - 1])
  {
    forall i | 0 <= i < |t| ensures t[i] == u[i] {
      SameRequests(snapshots, start, t, u, i);
    }
    if t != [] {
      assert Advances(u[|t| - 1], u[|t|].cursor);
      assert Between(Stamps(Page(t[|t| - 1])), t[|t| - 1].cursor, u[|t|].cursor.value);
    }
  }

  lemma PagesBefore(t: seq<Visit>, u: seq<Visit>)
    requires |t| < |u| && t == u[..|t|]
    ensures |Pages(t)| <= |Pages(u[..|u| - 1])| <= |Pages(u)|
  {
    assert t == u[..|u| - 1][..|t|];
    PagesOfPrefix(u[..|u| - 1], |t|);
  }

  /** A run does not stop where another goes on. */
  lemma NotShorter(snapshots: nat -> Option<seq<Row>>, fnFails: nat -> bool, start: Option<string>, t: seq<Visit>, d: seq<Row>, e: End,
                   u: seq<Visit>, d': seq<Row>, e': End)
    requires IsRun(snapshots, fnFails, start, t, d, e) && IsRun(snapshots, fnFails, start, u, d', e')
    ensures |u| <= |t|
  {
    if |t| < |u| {
      GoesOn(snapshots, start, t, u);
      PagesBefore(t, u);
    }
  }

  lemma SameDelivery(fnFails: nat -> bool, trace: seq<Visit>, d: seq<Row>, e: End, d': seq<Row>, e': End)
    requires Exactly(trace, d, e) && Exactly(trace, d', e') && Took(fnFails, d) && Took(fnFails, d')
    requires (e.Aborted? ==> fnFails(|d|)) && (e'.Aborted? ==> fnFails(|d'|))
    ensures d == d' && (e.Aborted? <==> e'.Aborted?)
  {
    var all := Pages(trace);
    assert d == all[..|d|] && d' == all[..|d'|];
  }

  lemma SameEnd(trace: seq<Visit>, e: End, e': End)
    requires Explains(trace, e) && Explains(trace, e') && (e.Aborted? <==> e'.Aborted?)
    requires (e.Refused? ==> |trace| < MAX_BOOK_PAGES) && (e'.Refused? ==> |trace| < MAX_BOOK_PAGES)
    ensures e == e'
  {
    if e.Wedged? && e'.Wedged? {
      LastReadableIsOne(Page(trace[|trace| - 1]), e.at, e'.at);
    }
  }

  lemma LastReadableIs(page: seq<Row>, a: string, i: nat)
    requires LastReadable(page, a) && LastReadableAt(page, i)
    ensures a == Stamp(page[i].at)
  {
    assert page[i] in page;
  }

  lemma LastReadableIsOne(page: seq<Row>, a: string, b: string)
    requires LastReadable(page, a) && LastReadable(page, b)
    ensures a == b
  {
    if i: nat :| LastReadableAt(page, i) {
      LastReadableIs(page, a, i);
      LastReadableIs(page, b, i);
    }
  }

  /** With every request answered, a start that can be read and a willing fn, the walk is done, wedged or too long. */
  lemma WillingWalkEnds(snapshots: nat -> Option<seq<Row>>, fnFails: nat -> bool, start: Option<string>, trace: seq<Visit>,
                        delivered: seq<Row>, end: End)
    requires IsRun(snapshots, fnFails, start, trace, delivered, end)
    requires Understood(start) && (forall n: nat :: n < MAX_BOOK_PAGES ==> snapshots(n).Some?) && forall n: nat :: !fnFails(n)
    ensures end.Done? || end.Wedged? || end.TooLong?
  {
  }

  /** So the snapshots, fn and the start decide the requests made, the rows handed over and the end. */
  lemma OneRun(snapshots: nat -> Option<seq<Row>>, fnFails: nat -> bool, start: Option<string>, t: seq<Visit>, d: seq<Row>, e: End,
               u: seq<Visit>, d': seq<Row>, e': End)
    requires IsRun(snapshots, fnFails, start, t, d, e) && IsRun(snapshots, fnFails, start, u, d', e')
    ensures t == u && d == d' && e == e'
  {
    NotShorter(snapshots, fnFails, start, t, d, e, u, d', e');
    NotShorter(snapshots, fnFails, start, u, d', e', t, d, e);
    forall i | 0 <= i < |t| ensures t[i] == u[i] {
      SameRequests(snapshots, start, t, u, i);
    }
    assert t == u;
    SameDelivery(fnFails, t, d, e, d', e');
    SameEnd(t, e, e');
  }

  /** A walk that has come this far, and is about to request with `cursor`. */
  ghost predicate InProgress(snapshots: nat -> Option<seq<Row>>, fnFails: nat -> bool, start: Option<string>, trace: seq<Visit>,
                             delivered: seq<Row>, cursor: Option<string>) {
    Answered(snapshots, start, trace) && Going(start, trace, delivered, cursor) && Took(fnFails, delivered)
  }

  /** A walk that has ended. */
  ghost predicate Concluded(snapshots: nat -> Option<seq<Row>>, fnFails: nat -> bool, start: Option<string>, trace: seq<Visit>,
                            delivered: seq<Row>, end: End) {
    && Answered(snapshots, start, trace)
    && Delivers(trace, delivered, end) && Stopped(snapshots, fnFails, start, trace, delivered, end)
  }

  /** One request, and the page it was answered with. */
  method NextPage(snapshots: nat -> Option<seq<Row>>, fnFails: nat -> bool, ghost start: Option<string>, trace: seq<Visit>,
                  before: seq<Row>, cursor: Option<string>)
    returns (delivered: seq<Row>, longer: seq<Visit>, r: Outcome)
    requires forall n: nat :: snapshots(n).Some? ==> Ordered(snapshots(n).value)
    requires InProgress(snapshots, fnFails, start, trace, before, cursor) && |trace| < MAX_BOOK_PAGES
    ensures r.Stop? ==> Concluded(snapshots, fnFails, start, longer, delivered, r.end)
    ensures r.Continue? ==> |longer| == |trace| + 1 && InProgress(snapshots, fnFails, start, longer, delivered, r.next)
  {
    var answer := snapshots(|trace|);
    if answer == None || !Understood(cursor) {
      CutOff(start, trace, before, cursor);
      RefusedHere(snapshots, fnFails, start, trace, before, cursor);
      return before, trace, Stop(Refused);
    }
    var visit := Visit(cursor, answer.value);
    AnsweredGrows(snapshots, start, trace, visit);
    delivered, r := ReadPage(trace, start, visit, before, fnFails);
    longer := trace + [visit];
  }

  /**
   * StreamBooksSince. `snapshots(n)` is the library when page n is answered, or
   * None for a request that fails; fnFails says which delivery fn refuses. `trace`
   * is the requests made and the answers they had.
   */
  method StreamBooksSince(snapshots: nat -> Option<seq<Row>>, fnFails: nat -> bool, start: Option<string>)
    returns (delivered: seq<Row>, pages: nat, end: End, trace: seq<Visit>)
    requires forall n: nat :: snapshots(n).Some? ==> Ordered(snapshots(n).value)
    ensures Concluded(snapshots, fnFails, start, trace, delivered, end) && |trace| == pages
    ensures IsRun(snapshots, fnFails, start, trace, delivered, end)
  {
    delivered, pages, trace := [], 0, [];
    var cursor := start;
    assert Pages([]) == [];
    while pages < MAX_BOOK_PAGES
      invariant |trace| == pages <= MAX_BOOK_PAGES
      invariant InProgress(snapshots, fnFails, start, trace, delivered, cursor)
    {
      var r;
      delivered, trace, r := NextPage(snapshots, fnFails, start, trace, delivered, cursor);
      pages := |trace|;
      if r.Stop? {
        return delivered, pages, r.end, trace;
      }
      cursor := r.next;
    }
    CutOff(start, trace, delivered, cursor);
    end := TooLong;
  }

  // ---- the contrast: the offset walk of the full import ----

  /** Page n of the offset walk. */
  function OffsetPage(library: seq<Row>, n: nat): seq<Row> {
    var from := n * BOOK_PAGE_SIZE;
    if |library| <= from then []
    else if |library| <= from + BOOK_PAGE_SIZE then library[from..]
    else library[from..from + BOOK_PAGE_SIZE]
  }

  /** One deletion below the offset, between two pages, and the row at the page boundary is on neither. */
  lemma OffsetWalkSkips(library: seq<Row>, deleted: nat)
    requires Ordered(library) && |library| > BOOK_PAGE_SIZE && deleted < BOOK_PAGE_SIZE
    ensures var after := library[..deleted] + library[deleted + 1..];
            var row := library[BOOK_PAGE_SIZE];
            && row in after && row !in OffsetPage(library, 0)
            && forall n: nat | n > 0 :: row !in OffsetPage(after, n)
  {
    var after := library[..deleted] + library[deleted + 1..];
    var row := library[BOOK_PAGE_SIZE];
    assert after[BOOK_PAGE_SIZE - 1] == row;
    forall i | 0 <= i < |after| && i != BOOK_PAGE_SIZE - 1 ensures after[i] != row {
      var j := if i < deleted then i else i + 1;
      assert after[i] == library[j];
      assert Precedes(library[j], row) || Precedes(row, library[j]);
    }
    forall n: nat | n > 0 ensures row !in OffsetPage(after, n) {
      var page := OffsetPage(after, n);
      forall k | 0 <= k < |page| ensures page[k] != row {
        assert page[k] == after[n * BOOK_PAGE_SIZE + k];
      }
    }
  }
}
