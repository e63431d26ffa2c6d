/** Env files: the line grammar, quoting and escapes, and what survives a round trip. */
module EnvFile {
  import opened Wrappers
  import opened Text

  const BLANKS := {' ', '\t'}

  /** Line numbers count from 1. */
  datatype Error = NotKeyValue(line: nat) | InvalidKey(line: nat) | Unterminated(line: nat)

  // ---- keys ----

  predicate Letter(c: char) {
    'a' <= c <= 'z' || 'A' <= c <= 'Z' || c == '_'
  }

  predicate ValidKey(k: string) {
    k != "" && forall i :: 0 <= i < |k| ==> Letter(k[i]) || (i > 0 && '0' <= k[i] <= '9')
  }

  /** validKey, as the loop it is. */
  method CheckKey(k: string) returns (ok: bool)
    ensures ok == ValidKey(k)
  {
    if k == "" {
      return false;
    }
    for i := 0 to |k|
      invariant forall j :: 0 <= j < i ==> Letter(k[j]) || (j > 0 && '0' <= k[j] <= '9')
    {
      if !Letter(k[i]) && !(i > 0 && '0' <= k[i] <= '9') {
        return false;
      }
    }
    ok := true;
  }

  // ---- values ----

  /** The two characters of an escape, resolved; an unknown escape keeps both. */
  function Resolved(c: char): string {
    if c == 'n' then "\n" else if c == 'r' then "\r" else if c == 't' then "\t"
    else if c == '\\' || c == '"' then [c] else ['\\', c]
  }

  function Unescaped(s: string): string {
    if s == "" then ""
    else if s[0] != '\\' || |s| == 1 then [s[0]] + Unescaped(s[1..])
    else Resolved(s[1]) + Unescaped(s[2..])
  }

  /** unescape: an index that steps over each escape, and a builder. */
  method Unescape(s: string) returns (b: string)
    ensures b == Unescaped(s)
  {
    if '\\' !in s {
      NothingToUnescape(s);
      return s;
    }
    b := "";
    var i := 0;
    while i < |s|
      invariant 0 <= i <= |s| && b + Unescaped(s[i..]) == Unescaped(s)
    {
      UnescapedAt(s, i, b);
      if s[i] != '\\' || i + 1 >= |s| {
        b := b + [s[i]];
        i := i + 1;
      } else {
        b := b + Resolved(s[i + 1]);
        i := i + 2;
      }
    }
  }

  lemma UnescapedAt(s: string, i: nat, b: string)
    requires i < |s|
    ensures b + Unescaped(s[i..]) ==
              if s[i] != '\\' || i + 1 >= |s| then b + [s[i]] + Unescaped(s[i + 1..])
              else b + Resolved(s[i + 1]) + Unescaped(s[i + 2..])
  {
    var t := s[i..];
    assert t[1..] == s[i + 1..];
    if s[i] != '\\' || i + 1 >= |s| {
      assert b + ([s[i]] + Unescaped(t[1..])) == b + [s[i]] + Unescaped(t[1..]);
    } else {
      assert t[2..] == s[i + 2..];
      assert b + (Resolved(s[i + 1]) + Unescaped(t[2..])) == b + Resolved(s[i + 1]) + Unescaped(t[2..]);
    }
  }

  lemma {:induction false} NothingToUnescape(s: string)
    requires '\\' !in s
    ensures Unescaped(s) == s
  {
    if s != "" {
      NothingToUnescape(s[1..]);
    }
  }

  function EscapedChar(c: char): string {
    if c == '\n' then "\\n" else if c == '\r' then "\\r" else if c == '\t' then "\\t"
    else if c == '\\' || c == '"' then ['\\', c] else [c]
  }

  /** What a writer of double-quoted values puts between the quotes. */
  function Escaped(v: string): string {
    if v == "" then "" else EscapedChar(v[0]) + Escaped(v[1..])
  }

  lemma EscapedCharResolves(c: char, rest: string)
    ensures Unescaped(EscapedChar(c) + rest) == [c] + Unescaped(rest)
  {
    var s := EscapedChar(c) + rest;
    if |EscapedChar(c)| == 1 {
      assert s[1..] == rest;
    } else {
      assert s[2..] == rest;
    }
  }

  /** unescape is a left inverse of the escape, on every string. */
  lemma {:induction false} UnescapedOfEscaped(v: string)
    ensures Unescaped(Escaped(v)) == v
  {
    if v != "" {
      UnescapedOfEscaped(v[1..]);
      EscapedCharResolves(v[0], Escaped(v[1..]));
    }
  }

  /** An escaped value stays on its line. */
  lemma {:induction false} EscapedIsOneLine(v: string)
    ensures Free(Escaped(v), '\n') && Free(Escaped(v), '\r')
  {
    if v != "" {
      EscapedIsOneLine(v[1..]);
      assert Free(EscapedChar(v[0]), '\n') && Free(EscapedChar(v[0]), '\r');
    }
  }

  /** An escape the grammar does not know is kept byte for byte, wherever it stands. */
  lemma UnknownEscapeIsKept(c: char, rest: string)
    requires c !in {'n', 'r', 't', '\\', '"'}
    ensures Unescaped(['\\', c] + rest) == ['\\', c] + Unescaped(rest)
    ensures Unescaped("\\") == "\\"
  {
    var s := ['\\', c] + rest;
    assert s[2..] == rest;
    assert "\\"[1..] == "";
  }

  function Unquoted(raw: string): Option<string> {
    var v := TrimLeft(raw, BLANKS);
    if |v| >= 2 && v[0] == '\'' then
      if v[|v| - 1] == '\'' then Some(v[1..|v| - 1]) else None
    else if |v| >= 2 && v[0] == '"' then
      if v[|v| - 1] == '"' then Some(Unescaped(v[1..|v| - 1])) else None
    else Some(TrimRight(v, BLANKS))
  }

  // ---- lines ----

  datatype Line = Ignored | Entry(key: string, value: string) | NoEquals | BadKey | BadQuote

  function TrimSuffix(s: string, c: char): string {
    if s != "" && s[|s| - 1] == c then s[..|s| - 1] else s
  }

  function ParsedLine(line: string): Line {
    var trimmed := TrimLeft(TrimSuffix(line, '\r'), BLANKS);
    if trimmed == "" || trimmed[0] == '#' then Ignored
    else match Cut(trimmed, '=')
      case None => NoEquals
      case Some((k, raw)) =>
        var key := TrimRight(k, BLANKS);
        if !ValidKey(key) then BadKey
        else match Unquoted(raw)
          case None => BadQuote
          case Some(value) => Entry(key, value)
  }

  /** The lines in order: the first bad one decides, and a repeated key takes its last value. */
  function AllParsed(lines: seq<string>): Result<map<string, string>, Error> {
    if lines == [] then Ok(map[])
    else
      var n := |lines|;
      var before :- AllParsed(lines[..n - 1]);
      match ParsedLine(lines[n - 1])
      case Ignored => Ok(before)
      case Entry(key, value) => Ok(before[key := value])
      case NoEquals => Err(NotKeyValue(n))
      case BadKey => Err(InvalidKey(n))
      case BadQuote => Err(Unterminated(n))
  }

  function Parsed(content: string): Result<map<string, string>, Error> {
    AllParsed(Split(content, '\n'))
  }

  lemma {:induction false} ErrorStays(lines: seq<string>, i: nat)
    requires i <= |lines| && AllParsed(lines[..i]).Err?
    ensures AllParsed(lines) == AllParsed(lines[..i])
  {
    if i == |lines| {
      assert lines[..i] == lines;
    } else {
      var n := |lines| - 1;
      assert lines[..n][..i] == lines[..i];
      ErrorStays(lines[..n], i);
    }
  }

  method Unquote(raw: string) returns (r: Option<string>)
    ensures r == Unquoted(raw)
  {
    var v := TrimLeft(raw, BLANKS);
    if |v| >= 2 {
      if v[0] == '\'' {
        return if v[|v| - 1] == '\'' then Some(v[1..|v| - 1]) else None;
      }
      if v[0] == '"' {
        if v[|v| - 1] != '"' {
          return None;
        }
        var u := Unescape(v[1..|v| - 1]);
        return Some(u);
      }
    }
    r := Some(TrimRight(v, BLANKS));
  }

  method ParseLine(line: string) returns (r: Line)
    ensures r == ParsedLine(line)
  {
    var trimmed := TrimLeft(TrimSuffix(line, '\r'), BLANKS);
    if trimmed == "" || trimmed[0] == '#' {
      return Ignored;
    }
    var cut := Cut(trimmed, '=');
    if cut == None {
      return NoEquals;
    }
    var key := TrimRight(cut.value.0, BLANKS);
    var ok := CheckKey(key);
    if !ok {
      return BadKey;
    }
    var value := Unquote(cut.value.1);
    r := if value == None then BadQuote else Entry(key, value.value);
  }

  /** ParseEnvFile: one loop filling a map, stopping at the first bad line. */
  method ParseEnvFile(content: string) returns (r: Result<map<string, string>, Error>)
    ensures r == Parsed(content)
  {
    var lines := Split(content, '\n');
    var out: map<string, string> := map[];
    for i := 0 to |lines|
      invariant AllParsed(lines[..i]) == Ok(out)
    {
      assert lines[..i + 1][..i] == lines[..i];
      var line := ParseLine(lines[i]);
      match line
      case Ignored =>
      case Entry(key, value) =>
        out := out[key := value];
      case NoEquals =>
        ErrorStays(lines, i + 1);
        return Err(NotKeyValue(i + 1));
      case BadKey =>
        ErrorStays(lines, i + 1);
        return Err(InvalidKey(i + 1));
      case BadQuote =>
        ErrorStays(lines, i + 1);
        return Err(Unterminated(i + 1));
    }
    assert lines[..|lines|] == lines;
    r := Ok(out);
  }

  // ---- what every form of line means ----

  predicate BlankChar(c: char) {
    c == ' ' || c == '\t'
  }

  predicate Blank(s: string) {
    forall i :: 0 <= i < |s| ==> BlankChar(s[i])
  }

  /** Text that neither begins nor ends with a blank; it may be empty. */
  predicate Tight(s: string) {
    s == "" || (!BlankChar(s[0]) && !BlankChar(s[|s| - 1]))
  }

  lemma {:induction false} TrimsBefore(lead: string, rest: string)
    requires Blank(lead) && (rest == "" || !BlankChar(rest[0]))
    ensures TrimLeft(lead + rest, BLANKS) == rest
  {
    if lead != "" {
      assert (lead + rest)[1..] == lead[1..] + rest;
      TrimsBefore(lead[1..], rest);
    } else {
      assert lead + rest == rest;
    }
  }

  lemma {:induction false} TrimsAfter(rest: string, tail: string)
    requires Blank(tail) && (rest == "" || !BlankChar(rest[|rest| - 1]))
    ensures TrimRight(rest + tail, BLANKS) == rest
  {
    if tail != "" {
      var n := |tail| - 1;
      assert (rest + tail)[..|rest| + n] == rest + tail[..n];
      TrimsAfter(rest, tail[..n]);
    } else {
      assert rest + tail == rest;
    }
  }

  /** A line as it reaches the parser: with or without the carriage return of a CRLF file. */
  predicate Ends(line: string, text: string) {
    line == text + "\r" || (line == text && (text == "" || text[|text| - 1] != '\r'))
  }

  lemma EndIsTrimmed(line: string, text: string)
    requires Ends(line, text)
    ensures TrimSuffix(line, '\r') == text
  {
    if line == text + "\r" {
      assert line[..|text|] == text;
    }
  }

  /** Blank lines and comments are ignored, a comment being a line whose first other character is #. */
  lemma CommentIsIgnored(line: string, lead: string, text: string)
    requires Blank(lead) && (text == "" || text[0] == '#') && Ends(line, lead + text)
    ensures ParsedLine(line) == Ignored
  {
    EndIsTrimmed(line, lead + text);
    TrimsBefore(lead, text);
  }

  /** Any other line without an equals sign is an error. */
  lemma NoEqualsIsRefused(line: string, lead: string, text: string)
    requires Blank(lead) && text != "" && !BlankChar(text[0]) && text[0] != '#' && '=' !in text && Ends(line, lead + text)
    ensures ParsedLine(line) == NoEquals
  {
    EndIsTrimmed(line, lead + text);
    TrimsBefore(lead, text);
  }

  /** A key may have blanks around it; what follows the first equals sign is the value's. */
  lemma KeyIsCut(line: string, lead: string, key: string, gap: string, raw: string)
    requires Blank(lead) && Blank(gap) && ValidKey(key) && Ends(line, lead + (key + gap + "=" + raw))
    ensures ParsedLine(line) == match Unquoted(raw) case None => BadQuote case Some(v) => Entry(key, v)
  {
    var rest := key + gap + "=" + raw;
    EndIsTrimmed(line, lead + rest);
    ValidKeyFacts(key);
    TrimsBefore(lead, rest);
    TrimsAfter(key, gap);
    CutAt(key + gap, '=', raw);
  }

  /** An unquoted value is taken literally, # and all, without the blanks around it. */
  lemma UnquotedIsLiteral(line: string, lead: string, key: string, gap: string, before: string, value: string, tail: string)
    requires Blank(lead) && Blank(gap) && Blank(before) && Blank(tail) && ValidKey(key)
    requires Tight(value) && (value == "" || (value[0] != '\'' && value[0] != '"'))
    requires Ends(line, lead + (key + gap + "=" + (before + (value + tail))))
    ensures ParsedLine(line) == Entry(key, value)
  {
    KeyIsCut(line, lead, key, gap, before + (value + tail));
    UnquotedMeans(before, value, tail);
  }

  lemma UnquotedMeans(before: string, value: string, tail: string)
    requires Blank(before) && Blank(tail) && Tight(value) && (value == "" || (value[0] != '\'' && value[0] != '"'))
    ensures Unquoted(before + (value + tail)) == Some(value)
  {
    if value == "" {
      assert before + (value + tail) == (before + tail) + "";
      TrimsBefore(before + tail, "");
    } else {
      TrimsBefore(before, value + tail);
      TrimsAfter(value, tail);
    }
  }

  /** Between single quotes everything is literal; between double quotes the escapes are resolved. */
  lemma QuotedIsInside(line: string, lead: string, key: string, gap: string, before: string, text: string, quote: char)
    requires Blank(lead) && Blank(gap) && Blank(before) && ValidKey(key) && (quote == '\'' || quote == '"')
    requires Ends(line, lead + (key + gap + "=" + (before + ([quote] + text + [quote]))))
    ensures ParsedLine(line) == Entry(key, if quote == '"' then Unescaped(text) else text)
  {
    var v := [quote] + text + [quote];
    KeyIsCut(line, lead, key, gap, before + v);
    TrimsBefore(before, v);
    assert v[1..|v| - 1] == text;
  }

  /** And a quote that is not closed at the very end of the line is an error, blanks after it included. */
  lemma OpenQuoteIsRefused(line: string, lead: string, key: string, gap: string, before: string, text: string, quote: char)
    requires Blank(lead) && Blank(gap) && Blank(before) && ValidKey(key) && (quote == '\'' || quote == '"')
    requires text != "" && text[|text| - 1] != quote
    requires Ends(line, lead + (key + gap + "=" + (before + ([quote] + text))))
    ensures ParsedLine(line) == BadQuote
  {
    KeyIsCut(line, lead, key, gap, before + ([quote] + text));
    OpenQuoteMeans(before, text, quote);
  }

  lemma OpenQuoteMeans(before: string, text: string, quote: char)
    requires Blank(before) && (quote == '\'' || quote == '"') && text != "" && text[|text| - 1] != quote
    ensures Unquoted(before + ([quote] + text)) == None
  {
    TrimsBefore(before, [quote] + text);
  }

  /** What is not a name before the equals sign is an error. */
  lemma BadKeyIsRefused(line: string, lead: string, key: string, gap: string, raw: string)
    requires Blank(lead) && Blank(gap) && Tight(key) && !ValidKey(key) && '=' !in key
    requires if key == "" then gap == "" else key[0] != '#'
    requires Ends(line, lead + (key + gap + "=" + raw))
    ensures ParsedLine(line) == BadKey
  {
    var rest := key + gap + "=" + raw;
    EndIsTrimmed(line, lead + rest);
    TrimsBefore(lead, rest);
    TrimsAfter(key, gap);
    CutAt(key + gap, '=', raw);
  }

  /** The first bad line decides, under its number counted from one, whatever follows. */
  lemma FirstBadLineDecides(lines: seq<string>, i: nat)
    requires i < |lines| && AllParsed(lines[..i]).Ok?
    ensures ParsedLine(lines[i]) == NoEquals ==> AllParsed(lines) == Err(NotKeyValue(i + 1))
    ensures ParsedLine(lines[i]) == BadKey ==> AllParsed(lines) == Err(InvalidKey(i + 1))
    ensures ParsedLine(lines[i]) == BadQuote ==> AllParsed(lines) == Err(Unterminated(i + 1))
    ensures ParsedLine(lines[i]) in {NoEquals, BadKey, BadQuote} || AllParsed(lines[..i + 1]).Ok?
  {
    assert lines[..i + 1][..i] == lines[..i];
    if ParsedLine(lines[i]) in {NoEquals, BadKey, BadQuote} {
      ErrorStays(lines, i + 1);
    }
  }

  /** The known escapes. */
  lemma EscapesAre(rest: string)
    ensures Unescaped("\\n" + rest) == "\n" + Unescaped(rest) && Unescaped("\\r" + rest) == "\r" + Unescaped(rest)
    ensures Unescaped("\\t" + rest) == "\t" + Unescaped(rest)
    ensures Unescaped("\\\\" + rest) == "\\" + Unescaped(rest) && Unescaped("\\\"" + rest) == "\"" + Unescaped(rest)
  {
    EscapedCharResolves('\n', rest);
    EscapedCharResolves('\r', rest);
    EscapedCharResolves('\t', rest);
    EscapedCharResolves('\\', rest);
    EscapedCharResolves('"', rest);
  }

  // ---- the round trip ----

  /** One entry as a writer prints it. */
  function PrintedEntry(key: string, value: string): string {
    key + "=" + ("\"" + Escaped(value) + "\"")
  }

  lemma ValidKeyFacts(key: string)
    requires ValidKey(key)
    ensures Free(key, '=') && Free(key, '\n')
    ensures TrimRight(key, BLANKS) == key
    ensures key[0] !in BLANKS && key[0] != '#'
  {
    assert key[|key| - 1] !in BLANKS;
  }

  lemma QuotedValue(value: string)
    ensures Unquoted("\"" + Escaped(value) + "\"") == Some(value)
  {
    var v := "\"" + Escaped(value) + "\"";
    assert TrimLeft(v, BLANKS) == v;
    assert v[1..|v| - 1] == Escaped(value);
    UnescapedOfEscaped(value);
  }

  lemma PrintedEntryParses(key: string, value: string)
    requires ValidKey(key)
    ensures ParsedLine(PrintedEntry(key, value)) == Entry(key, value)
    ensures Free(PrintedEntry(key, value), '\n')
  {
    var line := PrintedEntry(key, value);
    ValidKeyFacts(key);
    EscapedIsOneLine(value);
    QuotedValue(value);
    assert line[|line| - 1] == '"' && line[0] == key[0];
    CutAt(key, '=', "\"" + Escaped(value) + "\"");
  }

  function PrintedLines(entries: seq<(string, string)>): (lines: seq<string>)
    ensures |lines| == |entries|
  {
    seq(|entries|, i requires 0 <= i < |entries| => PrintedEntry(entries[i].0, entries[i].1))
  }

  /** One line per entry, each ended by a line break. */
  function Printed(entries: seq<(string, string)>): string {
    Join(PrintedLines(entries) + [""], '\n')
  }

  predicate ValidEntries(entries: seq<(string, string)>) {
    forall e <- entries :: ValidKey(e.0)
  }

  function MapOf(entries: seq<(string, string)>): map<string, string> {
    if entries == [] then map[]
    else MapOf(entries[..|entries| - 1])[entries[|entries| - 1].0 := entries[|entries| - 1].1]
  }

  lemma {:induction false} PrintedLinesParse(entries: seq<(string, string)>)
    requires ValidEntries(entries)
    ensures AllParsed(PrintedLines(entries)) == Ok(MapOf(entries))
  {
    if entries != [] {
      var n := |entries| - 1;
      PrintedLinesParse(entries[..n]);
      assert PrintedLines(entries)[..n] == PrintedLines(entries[..n]);
      PrintedEntryParses(entries[n].0, entries[n].1);
    }
  }

  /** Printing entries with valid keys and any values at all, then parsing, gives the entries back. */
  lemma ParsedOfPrinted(entries: seq<(string, string)>)
    requires ValidEntries(entries)
    ensures Parsed(Printed(entries)) == Ok(MapOf(entries))
  {
    var lines := PrintedLines(entries) + [""];
    forall l | l in lines ensures Free(l, '\n') {
      if l != "" {
        var i :| 0 <= i < |entries| && l == PrintedEntry(entries[i].0, entries[i].1);
        PrintedEntryParses(entries[i].0, entries[i].1);
      }
    }
    SplitOfJoin(lines, '\n');
    PrintedLinesParse(entries);
    assert lines[..|entries|] == PrintedLines(entries);
  }

  /** entries lists m: every binding of m, in some order, and nothing else. */
  ghost predicate Lists(entries: seq<(string, string)>, m: map<string, string>) {
    && (forall e <- entries :: e.0 in m && m[e.0] == e.1)
    && forall k <- m :: exists e :: e in entries && e.0 == k
  }

  lemma {:induction false} MapOfListing(entries: seq<(string, string)>, m: map<string, string>)
    requires forall e <- entries :: e.0 in m && m[e.0] == e.1
    ensures forall k :: k in MapOf(entries) <==> exists e :: e in entries && e.0 == k
    ensures forall k <- MapOf(entries) :: k in m && MapOf(entries)[k] == m[k]
  {
    if entries != [] {
      var n := |entries| - 1;
      MapOfListing(entries[..n], m);
      assert entries == entries[..n] + [entries[n]];
    }
  }

  /** For every map with valid keys, in whatever order it is printed. */
  lemma MapRoundTrip(entries: seq<(string, string)>, m: map<string, string>)
    requires Lists(entries, m) && forall k <- m :: ValidKey(k)
    ensures Parsed(Printed(entries)) == Ok(m)
  {
    ParsedOfPrinted(entries);
    MapOfListing(entries, m);
    assert MapOf(entries) == m;
  }
}
