/**
 * Instants as the arrivals filter spells them: fixed-width UTC fields down to the
 * millisecond, so that comparing two renderings as strings is comparing the two
 * instants cut to the millisecond.
 */
module Instants {
  import opened Wrappers
  import opened Text

  // ---- Go's < on strings ----

  predicate LexLess(a: string, b: string) {
    b != "" && (a == "" || a[0] < b[0] || (a[0] == b[0] && LexLess(a[1..], b[1..])))
  }

  lemma {:induction false} LexTrichotomy(a: string, b: string)
    ensures LexLess(a, b) || LexLess(b, a) || a == b
    ensures !(LexLess(a, b) && LexLess(b, a))
    ensures a == b ==> !LexLess(a, b)
  {
    if a != "" && b != "" && a[0] == b[0] {
      LexTrichotomy(a[1..], b[1..]);
      assert a == [a[0]] + a[1..] && b == [b[0]] + b[1..];
    }
  }

  lemma {:induction false} LexTransitive(a: string, b: string, c: string)
    requires LexLess(a, b) && LexLess(b, c)
    ensures LexLess(a, c)
  {
    if a != "" && a[0] == b[0] && b[0] == c[0] {
      LexTransitive(a[1..], b[1..], c[1..]);
    }
  }

  /** Strings whose heads have one length compare head first. */
  lemma {:induction false} LexConcat(a: string, a': string, b: string, b': string)
    requires |a| == |a'|
    ensures LexLess(a + b, a' + b') <==> LexLess(a, a') || (a == a' && LexLess(b, b'))
  {
    if a == "" {
      assert a + b == b && a' + b' == b';
    } else {
      LexConcat(a[1..], a'[1..], b, b');
      assert (a + b)[1..] == a[1..] + b && (a' + b')[1..] == a'[1..] + b';
      assert a == [a[0]] + a[1..] && a' == [a'[0]] + a'[1..];
    }
  }

  // ---- fixed-width fields ----

  function Pow10(w: nat): (p: nat)
    ensures p > 0
  {
    if w == 0 then 1 else 10 * Pow10(w - 1)
  }

  function Pad(n: nat, w: nat): (s: string)
    requires n < Pow10(w)
    ensures |s| == w
  {
    if w == 0 then "" else Pad(n / 10, w - 1) + [Digit(n % 10)]
  }

  lemma PadSame(a: nat, b: nat, w: nat)
    requires a < Pow10(w) && b < Pow10(w)
    ensures Pad(a, w) == Pad(b, w) <==> a == b
  {
    NumberOfPad(a, w);
    NumberOfPad(b, w);
  }

  lemma {:induction false} PadOrder(a: nat, b: nat, w: nat)
    requires a < Pow10(w) && b < Pow10(w)
    ensures LexLess(Pad(a, w), Pad(b, w)) <==> a < b
  {
    if w > 0 {
      PadOrder(a / 10, b / 10, w - 1);
      PadSame(a / 10, b / 10, w - 1);
      LexConcat(Pad(a / 10, w - 1), Pad(b / 10, w - 1), [Digit(a % 10)], [Digit(b % 10)]);
    }
  }

  lemma {:induction false} NumberOfPad(n: nat, w: nat)
    requires n < Pow10(w)
    ensures Number(Pad(n, w)) == Some(n)
  {
    if w > 0 {
      NumberOfPad(n / 10, w - 1);
      assert Pad(n, w)[..w - 1] == Pad(n / 10, w - 1);
    }
  }

  datatype Digits = Digits(radix: nat, offset: nat, width: nat, suffix: char)

  /** A field: radix values, printed from `offset` up in `width` digits, then a literal. */
  type Field = f: Digits | f.radix > 0 && f.radix + f.offset <= Pow10(f.width) witness Digits(1, 0, 0, ' ')

  /** How many numbers a row of fields can spell. */
  function Size(fs: seq<Field>): (n: nat)
    ensures n > 0
  {
    if fs == [] then 1 else Times(Size(fs[..|fs| - 1]), fs[|fs| - 1].radix)
  }

  function Times(m: nat, n: nat): (p: nat)
    ensures m > 0 && n > 0 ==> p > 0
  {
    m * n
  }

  function Over(n: nat, r: nat): nat
    requires r > 0
  {
    n / r
  }

  function Rest(n: nat, r: nat): (d: nat)
    requires r > 0
    ensures d < r
  {
    n % r
  }

  function Print(f: Field, d: nat): (s: string)
    requires d < f.radix
    ensures |s| == f.width + 1
  {
    Pad(d + f.offset, f.width) + [f.suffix]
  }

  function Render(fs: seq<Field>, n: nat): string {
    if fs == [] then ""
    else
      var f := fs[|fs| - 1];
      Render(fs[..|fs| - 1], Over(n, f.radix)) + Print(f, Rest(n, f.radix))
  }

  /** The value a printed field spells, if it is one. */
  function Read(f: Field, s: string): Option<nat>
    requires |s| == f.width + 1
  {
    if s[f.width] != f.suffix then None
    else match Number(s[..f.width])
      case Some(d) => if f.offset <= d < f.offset + f.radix then Some(d - f.offset) else None
      case None => None
  }

  function Spelled(fs: seq<Field>, s: string): Option<nat> {
    if fs == [] then (if s == "" then Some(0) else None)
    else
      var f := fs[|fs| - 1];
      var k := |s| - (f.width + 1);
      if k < 0 then None
      else match (Spelled(fs[..|fs| - 1], s[..k]), Read(f, s[k..]))
        case (Some(n), Some(d)) => Some(Times(n, f.radix) + d)
        case _ => None
  }

  lemma PrintOrder(f: Field, d: nat, e: nat)
    requires d < f.radix && e < f.radix
    ensures LexLess(Print(f, d), Print(f, e)) <==> d < e
  {
    LexConcat(Pad(d + f.offset, f.width), Pad(e + f.offset, f.width), [f.suffix], [f.suffix]);
    PadOrder(d + f.offset, e + f.offset, f.width);
  }

  lemma ReadOfPrint(f: Field, d: nat)
    requires d < f.radix
    ensures Read(f, Print(f, d)) == Some(d)
  {
    NumberOfPad(d + f.offset, f.width);
    assert Print(f, d)[..f.width] == Pad(d + f.offset, f.width);
  }

  lemma TimesMonotone(p: nat, q: nat, r: nat)
    requires p <= q
    ensures Times(p, r) <= Times(q, r) && Times(p + 1, r) == Times(p, r) + r
  {
  }

  lemma Divided(n: nat, r: nat)
    requires r > 0
    ensures n == Times(Over(n, r), r) + Rest(n, r)
  {
  }

  lemma QuotientFits(n: nat, size: nat, r: nat)
    requires r > 0 && n < Times(size, r)
    ensures Over(n, r) < size
  {
    Divided(n, r);
    if Over(n, r) >= size {
      TimesMonotone(size, Over(n, r), r);
    }
  }

  lemma DividedOrder(a: nat, b: nat, r: nat)
    requires r > 0
    ensures a < b <==> Over(a, r) < Over(b, r) || (Over(a, r) == Over(b, r) && Rest(a, r) < Rest(b, r))
  {
    Divided(a, r);
    Divided(b, r);
    if Over(a, r) < Over(b, r) {
      TimesMonotone(Over(a, r) + 1, Over(b, r), r);
      TimesMonotone(Over(a, r), Over(b, r), r);
    } else if Over(b, r) < Over(a, r) {
      TimesMonotone(Over(b, r) + 1, Over(a, r), r);
      TimesMonotone(Over(b, r), Over(a, r), r);
    }
  }

  lemma {:induction false} RenderLength(fs: seq<Field>, a: nat, b: nat)
    ensures |Render(fs, a)| == |Render(fs, b)| >= |fs|
  {
    if fs != [] {
      var f := fs[|fs| - 1];
      RenderLength(fs[..|fs| - 1], Over(a, f.radix), Over(b, f.radix));
    }
  }

  /** Fixed-width renderings compare as the numbers they spell. */
  lemma {:induction false} RenderOrder(fs: seq<Field>, a: nat, b: nat)
    requires a < Size(fs) && b < Size(fs)
    ensures LexLess(Render(fs, a), Render(fs, b)) <==> a < b
    ensures Render(fs, a) == Render(fs, b) <==> a == b
  {
    if fs != [] {
      var f, gs := fs[|fs| - 1], fs[..|fs| - 1];
      var r := f.radix;
      QuotientFits(a, Size(gs), r);
      QuotientFits(b, Size(gs), r);
      RenderLength(gs, Over(a, r), Over(b, r));
      RenderOrder(gs, Over(a, r), Over(b, r));
      DividedOrder(a, b, r);
      DividedOrder(b, a, r);
      LexConcat(Render(gs, Over(a, r)), Render(gs, Over(b, r)), Print(f, Rest(a, r)), Print(f, Rest(b, r)));
      PrintOrder(f, Rest(a, r), Rest(b, r));
      PrintOrder(f, Rest(b, r), Rest(a, r));
      SameParts(Render(gs, Over(a, r)), Render(gs, Over(b, r)), Print(f, Rest(a, r)), Print(f, Rest(b, r)));
      LexTrichotomy(Print(f, Rest(a, r)), Print(f, Rest(b, r)));
    }
  }

  lemma SameParts(a: string, a': string, b: string, b': string)
    requires |a| == |a'|
    ensures a + b == a' + b' <==> a == a' && b == b'
  {
    assert (a + b)[..|a|] == a && (a + b)[|a|..] == b;
    assert (a' + b')[..|a'|] == a' && (a' + b')[|a'|..] == b';
  }

  lemma SpelledStep(fs: seq<Field>, head: string, tail: string, n: nat, d: nat)
    requires fs != [] && |tail| == fs[|fs| - 1].width + 1
    requires Spelled(fs[..|fs| - 1], head) == Some(n) && Read(fs[|fs| - 1], tail) == Some(d)
    ensures Spelled(fs, head + tail) == Some(Times(n, fs[|fs| - 1].radix) + d)
  {
    var k := |head + tail| - (fs[|fs| - 1].width + 1);
    assert (head + tail)[..k] == head && (head + tail)[k..] == tail;
  }

  lemma {:induction false} SpelledOfRender(fs: seq<Field>, n: nat)
    requires n < Size(fs)
    ensures Spelled(fs, Render(fs, n)) == Some(n)
  {
    if fs != [] {
      var f, gs := fs[|fs| - 1], fs[..|fs| - 1];
      var q, d := Over(n, f.radix), Rest(n, f.radix);
      Divided(n, f.radix);
      QuotientFits(n, Size(gs), f.radix);
      SpelledOfRender(gs, q);
      ReadOfPrint(f, d);
      SpelledStep(fs, Render(gs, q), Print(f, d), q, d);
    }
  }

  // ---- the wire layout 2006-01-02T15:04:05.000Z ----

  function Layout(): seq<Field> {
    assert Pow10(2) == 100 && Pow10(3) == 1000 && Pow10(4) == 10000;
    [Digits(10000, 0, 4, '-'), Digits(12, 1, 2, '-'), Digits(31, 1, 2, 'T'),
     Digits(24, 0, 2, ':'), Digits(60, 0, 2, ':'), Digits(60, 0, 2, '.'), Digits(1000, 0, 3, 'Z')]
  }

  /**
   * A UTC instant as one number: its civil fields in mixed radix, in microseconds,
   * the resolution the server stores and compares at. Years 0 to 9999.
   */
  type Instant = t: nat | t / 1000 < Size(Layout()) witness 0

  /** An instant cut to the millisecond, as upstream serialises it. */
  function Floor(t: Instant): (f: Instant)
    ensures f <= t < f + 1000
  {
    t / 1000 * 1000
  }

  /** FormatArrivalsInstant. */
  function Stamp(t: Instant): string {
    Render(Layout(), t / 1000)
  }

  /** How the server reads a filter value. */
  function Parsed(s: string): Option<Instant> {
    match Spelled(Layout(), s)
    case Some(ms) => if ms < Size(Layout()) then Some(ms * 1000) else None
    case None => None
  }

  // ---- the rendering, spelled out ----

  /** The instant of a date and time of day, to the microsecond. */
  function Civil(year: nat, month: nat, day: nat, hour: nat, minute: nat, second: nat, ms: nat, us: nat): nat
    requires 1 <= month && 1 <= day
  {
    (((((((year * 12 + (month - 1)) * 31 + (day - 1)) * 24 + hour) * 60 + minute) * 60 + second) * 1000) + ms) * 1000 + us
  }

  lemma RenderStep(fs: seq<Field>, f: Field, q: nat, d: nat)
    requires d < f.radix
    ensures Render(fs + [f], Times(q, f.radix) + d) == Render(fs, q) + Pad(d + f.offset, f.width) + [f.suffix]
  {
    var n, all := Times(q, f.radix) + d, fs + [f];
    assert all[..|all| - 1] == fs && all[|all| - 1] == f;
    DividedBack(q, d, f.radix);
    assert Render(fs, q) + (Pad(d + f.offset, f.width) + [f.suffix]) == Render(fs, q) + Pad(d + f.offset, f.width) + [f.suffix];
  }

  lemma DividedBack(q: nat, d: nat, r: nat)
    requires d < r
    ensures Over(Times(q, r) + d, r) == q && Rest(Times(q, r) + d, r) == d
  {
    var n := Times(q, r) + d;
    Divided(n, r);
    if Over(n, r) < q {
      TimesMonotone(Over(n, r) + 1, q, r);
      TimesMonotone(Over(n, r), q, r);
    } else if Over(n, r) > q {
      TimesMonotone(q + 1, Over(n, r), r);
      TimesMonotone(q, q, r);
    }
  }

  /** What rendering one field more adds, for a rendering of the first k fields of a number given as a function. */
  predicate AddsField(render: (nat, nat) -> string, fs: seq<Field>, k: nat, q: nat, d: nat) {
    k < |fs| && d < fs[k].radix ==>
      render(k + 1, Times(q, fs[k].radix) + d) == render(k, q) + Pad(d + fs[k].offset, fs[k].width) + [fs[k].suffix]
  }

  const FIELDS: (nat, nat) -> string := (k: nat, n: nat) => if k <= 7 then Render(Layout()[..k], n) else ""

  lemma FieldsAddField(k: nat, q: nat, d: nat)
    ensures AddsField(FIELDS, Layout(), k, q, d)
  {
    var fs := Layout();
    if k < 7 && d < fs[k].radix {
      NextField(fs, k, q, d);
      FieldsAt(k, q);
      FieldsAt(k + 1, Times(q, fs[k].radix) + d);
      FieldAdded(FIELDS, fs, k, q, d, Render(fs[..k], q), Render(fs[..k + 1], Times(q, fs[k].radix) + d));
    }
  }

  lemma FieldAdded(render: (nat, nat) -> string, fs: seq<Field>, k: nat, q: nat, d: nat, before: string, after: string)
    requires k < |fs| && d < fs[k].radix
    requires render(k, q) == before && render(k + 1, Times(q, fs[k].radix) + d) == after
    requires after == before + Pad(d + fs[k].offset, fs[k].width) + [fs[k].suffix]
    ensures AddsField(render, fs, k, q, d)
  {
  }

  lemma FieldsAt(k: nat, n: nat)
    requires k <= 7
    ensures FIELDS(k, n) == Render(Layout()[..k], n)
  {
  }

  lemma Spells(render: (nat, nat) -> string, fs: seq<Field>, k: nat, f: Digits, q: nat, d: nat, before: string) returns (after: string)
    requires (forall k, q, d :: AddsField(render, fs, k, q, d)) && k < |fs| && fs[k] == f && d < f.radix
    requires d + f.offset < Pow10(f.width) && render(k, q) == before
    ensures after == before + Pad(d + f.offset, f.width) + [f.suffix] && render(k + 1, Times(q, f.radix) + d) == after
  {
    assert AddsField(render, fs, k, q, d);
    after := before + Pad(d + f.offset, f.width) + [f.suffix];
  }

  predicate IsLayout(fs: seq<Field>) {
    && |fs| == 7
    && fs[0] == Digits(10000, 0, 4, '-') && fs[1] == Digits(12, 1, 2, '-') && fs[2] == Digits(31, 1, 2, 'T')
    && fs[3] == Digits(24, 0, 2, ':') && fs[4] == Digits(60, 0, 2, ':') && fs[5] == Digits(60, 0, 2, '.')
    && fs[6] == Digits(1000, 0, 3, 'Z')
  }

  lemma DateSpelled(render: (nat, nat) -> string, fs: seq<Field>, year: nat, month: nat, day: nat) returns (s: string)
    requires (forall k, q, d :: AddsField(render, fs, k, q, d)) && IsLayout(fs) && render(0, 0) == ""
    requires Pow10(2) == 100 && Pow10(4) == 10000
    requires year < 10000 && 1 <= month <= 12 && 1 <= day <= 31
    ensures s == Pad(year, 4) + "-" + Pad(month, 2) + "-" + Pad(day, 2) + "T"
    ensures render(3, DayNumber(year, month, day)) == s
  {
    s := Spells(render, fs, 0, Digits(10000, 0, 4, '-'), 0, year, "");
    assert s == Pad(year, 4) + "-";
    NothingBefore(10000, year);
    s := Spells(render, fs, 1, Digits(12, 1, 2, '-'), year, month - 1, s);
    s := Spells(render, fs, 2, Digits(31, 1, 2, 'T'), Times(year, 12) + (month - 1), day - 1, s);
  }

  lemma ClockSpelled(render: (nat, nat) -> string, fs: seq<Field>, days: nat, date: string, hour: nat, minute: nat, second: nat, ms: nat)
    returns (s: string)
    requires (forall k, q, d :: AddsField(render, fs, k, q, d)) && IsLayout(fs) && render(3, days) == date
    requires Pow10(2) == 100 && Pow10(3) == 1000
    requires hour < 24 && minute < 60 && second < 60 && ms < 1000
    ensures s == date + Pad(hour, 2) + ":" + Pad(minute, 2) + ":" + Pad(second, 2) + "." + Pad(ms, 3) + "Z"
    ensures render(7, Milliseconds(days, hour, minute, second, ms)) == s
  {
    s := Spells(render, fs, 3, Digits(24, 0, 2, ':'), days, hour, date);
    s := Spells(render, fs, 4, Digits(60, 0, 2, ':'), Times(days, 24) + hour, minute, s);
    s := Spells(render, fs, 5, Digits(60, 0, 2, '.'), Times(Times(days, 24) + hour, 60) + minute, second, s);
    s := Spells(render, fs, 6, Digits(1000, 0, 3, 'Z'), Times(Times(Times(days, 24) + hour, 60) + minute, 60) + second, ms, s);
  }

  lemma Spelling(render: (nat, nat) -> string, fs: seq<Field>, year: nat, month: nat, day: nat, hour: nat, minute: nat, second: nat, ms: nat)
    returns (date: string, stamp: string)
    requires (forall k, q, d :: AddsField(render, fs, k, q, d)) && IsLayout(fs) && render(0, 0) == ""
    requires Pow10(2) == 100 && Pow10(3) == 1000 && Pow10(4) == 10000
    requires year < 10000 && 1 <= month <= 12 && 1 <= day <= 31 && hour < 24 && minute < 60 && second < 60 && ms < 1000
    ensures date == Pad(year, 4) + "-" + Pad(month, 2) + "-" + Pad(day, 2) + "T"
    ensures stamp == date + Pad(hour, 2) + ":" + Pad(minute, 2) + ":" + Pad(second, 2) + "." + Pad(ms, 3) + "Z"
    ensures render(7, Milliseconds(DayNumber(year, month, day), hour, minute, second, ms)) == stamp
  {
    date := DateSpelled(render, fs, year, month, day);
    stamp := ClockSpelled(render, fs, DayNumber(year, month, day), date, hour, minute, second, ms);
  }

  lemma NothingBefore(r: nat, d: nat)
    ensures Times(0, r) + d == d
  {
  }

  function DayNumber(year: nat, month: nat, day: nat): nat
    requires 1 <= month && 1 <= day
  {
    Times(Times(year, 12) + (month - 1), 31) + (day - 1)
  }

  function Milliseconds(days: nat, hour: nat, minute: nat, second: nat, ms: nat): nat {
    Times(Times(Times(Times(days, 24) + hour, 60) + minute, 60) + second, 1000) + ms
  }

  /** 2006-01-02T15:04:05.000Z: four digits of the year, two of the rest, three of the millisecond; what is below is cut off. */
  lemma StampSpelledOut(t: Instant, year: nat, month: nat, day: nat, hour: nat, minute: nat, second: nat, ms: nat, us: nat)
    returns (date: string, stamp: string)
    requires year < 10000 && 1 <= month <= 12 && 1 <= day <= 31
    requires hour < 24 && minute < 60 && second < 60 && ms < 1000 && us < 1000
    requires t == Civil(year, month, day, hour, minute, second, ms, us)
    ensures Pow10(2) == 100 && Pow10(3) == 1000 && Pow10(4) == 10000
    ensures date == Pad(year, 4) + "-" + Pad(month, 2) + "-" + Pad(day, 2) + "T"
    ensures stamp == date + Pad(hour, 2) + ":" + Pad(minute, 2) + ":" + Pad(second, 2) + "." + Pad(ms, 3) + "Z"
    ensures Stamp(t) == stamp
  {
    assert Pow10(2) == 100 && Pow10(3) == 1000 && Pow10(4) == 10000;
    forall k: nat, q: nat, d: nat ensures AddsField(FIELDS, Layout(), k, q, d) {
      FieldsAddField(k, q, d);
    }
    NothingRendered();
    date, stamp := Spelling(FIELDS, Layout(), year, month, day, hour, minute, second, ms);
    CivilIs(year, month, day, hour, minute, second, ms, us);
    FieldsAreStamp(t);
  }

  lemma NothingRendered()
    ensures FIELDS(0, 0) == ""
  {
  }

  lemma FieldsAreStamp(t: Instant)
    ensures Stamp(t) == FIELDS(7, t / 1000)
  {
    assert Layout()[..7] == Layout();
  }

  lemma CivilIs(year: nat, month: nat, day: nat, hour: nat, minute: nat, second: nat, ms: nat, us: nat)
    requires 1 <= month && 1 <= day && us < 1000
    ensures Civil(year, month, day, hour, minute, second, ms, us) / 1000 ==
              Milliseconds(DayNumber(year, month, day), hour, minute, second, ms)
  {
  }

  lemma NextField(fs: seq<Field>, k: nat, q: nat, d: nat)
    requires k < |fs| && d < fs[k].radix
    ensures Render(fs[..k + 1], Times(q, fs[k].radix) + d) ==
              Render(fs[..k], q) + Pad(d + fs[k].offset, fs[k].width) + [fs[k].suffix]
  {
    RenderStep(fs[..k], fs[k], q, d);
    assert fs[..k] + [fs[k]] == fs[..k + 1];
  }

  /** Rendering order is time order at millisecond precision, and equal renderings are equal milliseconds. */
  lemma StampOrder(a: Instant, b: Instant)
    ensures LexLess(Stamp(a), Stamp(b)) <==> Floor(a) < Floor(b)
    ensures Stamp(a) == Stamp(b) <==> Floor(a) == Floor(b)
  {
    RenderOrder(Layout(), a / 1000, b / 1000);
  }

  lemma ParsedOfStamp(t: Instant)
    ensures Parsed(Stamp(t)) == Some(Floor(t))
    ensures Stamp(t) != ""
  {
    SpelledOfRender(Layout(), t / 1000);
    RenderLength(Layout(), t / 1000, t / 1000);
  }
}
