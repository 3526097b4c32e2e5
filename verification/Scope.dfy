// The instrumentation scope: which source lines a pass instruments
// (src/instrumentation/InstrumentationCommon.cpp). Definitions are separated by ';', the line
// specs of one definition by ','; a line spec is N or N:M.
module Scope {
  import opened Wrappers
  import opened Text
  import opened Words

  /** The lines from `first` up to, not including, `limit`. */
  datatype Range = Range(first: nat, limit: nat)

  datatype Entry = Entry(pattern: string, ranges: seq<Range>)

  // -------------------------------------------------------------------------
  // Text
  // -------------------------------------------------------------------------

  predicate IsBlank(c: char) {
    c == ' ' || c == '\t' || c == '\r' || c == '\n'
  }

  function TrimLeft(s: string): (t: string)
    ensures |t| <= |s|
  {
    if s != "" && IsBlank(s[0]) then TrimLeft(s[1..]) else s
  }

  function TrimRight(s: string): (t: string)
    ensures |t| <= |s|
  {
    if s != "" && IsBlank(s[|s| - 1]) then TrimRight(s[..|s| - 1]) else s
  }

  function Trim(s: string): string {
    TrimRight(TrimLeft(s))
  }

  /** The first position of c, or the length of s. */
  function Find(s: string, c: char): (i: nat)
    ensures i <= |s| && (i < |s| ==> s[i] == c) && c !in s[..i]
  {
    if s == "" || s[0] == c then 0 else
      var i := 1 + Find(s[1..], c);
      assert s[..i] == [s[0]] + s[1..][..i - 1];
      i
  }

  /** What repeated getline yields: no last piece after a separator at the end. */
  function Pieces(s: string, sep: char): seq<string>
    decreases |s|
  {
    if s == "" then []
    else if Find(s, sep) == |s| then [s]
    else [s[..Find(s, sep)]] + Pieces(s[Find(s, sep) + 1..], sep)
  }

  method Getline(s: string, sep: char) returns (piece: string, rest: string)
    requires s != ""
    ensures Pieces(s, sep) == [piece] + Pieces(rest, sep)
    ensures |rest| < |s|
  {
    var i := Find(s, sep);
    piece := s[..i];
    rest := if i == |s| then "" else s[i + 1..];
    assert i == |s| ==> piece == s;
  }

  // -------------------------------------------------------------------------
  // Numbers
  // -------------------------------------------------------------------------

  function SkipSpace(s: string): (t: string)
    ensures |t| <= |s|
  {
    if s != "" && (IsBlank(s[0]) || s[0] == '\U{b}' || s[0] == '\U{c}') then SkipSpace(s[1..]) else s
  }

  /** The value of the leading digits after `value`, and what follows them. */
  function Digits(s: string, value: nat): (nat, string)
    decreases |s|
  {
    if s != "" && IsDigit(s[0]) then Digits(s[1..], 10 * value + (s[0] as nat - '0' as nat)) else (value, s)
  }

  /** strtoul with base 10 and 64 bits: the value and the text from `endptr` on. */
  function Strtoul(s: string): (nat, string) {
    var t := SkipSpace(s);
    var u := if t != "" && (t[0] == '-' || t[0] == '+') then t[1..] else t;
    if u == "" || !IsDigit(u[0]) then (0, s) else
      var (n, rest) := Digits(u, 0);
      if n >= TWO_64 then (TWO_64 - 1, rest)
      else if t[0] == '-' then ((TWO_64 - n) % TWO_64, rest)
      else (n, rest)
  }

  predicate AtEnd(s: string) {
    s == "" || s[0] == '\0'
  }

  // -------------------------------------------------------------------------
  // Parsing
  // -------------------------------------------------------------------------

  function ParseRange(spec: string): Option<Range> {
    var colon := Find(spec, ':');
    if colon < |spec| then
      var first, limit := Strtoul(spec[..colon]), Strtoul(spec[colon + 1..]);
      if Find(spec[colon + 1..], ':') < |spec| - colon - 1 then None
      else if !AtEnd(first.1) || !AtEnd(limit.1) || limit.0 <= first.0 then None
      else Some(Range(first.0 % TWO_32, limit.0 % TWO_32))
    else
      var line := Strtoul(spec);
      if !AtEnd(line.1) then None else Some(Range(line.0 % TWO_32, (line.0 + 1) % TWO_32))
  }

  function ParseRanges(specs: seq<string>): Option<seq<Range>> {
    if specs == [] then Some([])
    else if Trim(specs[0]) == "" then ParseRanges(specs[1..])
    else
      var range, rest := ParseRange(Trim(specs[0])), ParseRanges(specs[1..]);
      if range.Some? && rest.Some? then Some([range.value] + rest.value) else None
  }

  function After(found: seq<Range>, rest: Option<seq<Range>>): Option<seq<Range>> {
    if rest.Some? then Some(found + rest.value) else None
  }

  lemma NothingBefore(rest: Option<seq<Range>>)
    ensures After([], rest) == rest
  {
    assert rest.Some? ==> [] + rest.value == rest.value;
  }

  lemma OneMore(found: seq<Range>, range: Range, rest: Option<seq<Range>>)
    ensures After(found, After([range], rest)) == After(found + [range], rest)
  {
    if rest.Some? {
      assert found + ([range] + rest.value) == found + [range] + rest.value;
    }
  }

  lemma RangesInTurn(spec: string, rest: seq<string>)
    ensures ParseRanges([spec] + rest) ==
            if Trim(spec) == "" then ParseRanges(rest)
            else if ParseRange(Trim(spec)).Some? then After([ParseRange(Trim(spec)).value], ParseRanges(rest))
            else None
  {
    assert ([spec] + rest)[1..] == rest;
  }

  /** The first ':' that a digit follows, or the length of d. */
  function LineSpecColon(d: string): (i: nat)
    ensures i <= |d|
  {
    if d == "" then 0
    else if d[0] == ':' && 1 < |d| && IsDigit(d[1]) then 0
    else 1 + LineSpecColon(d[1..])
  }

  /** File pattern and line specs of a definition. */
  function SplitDefinition(d: string): (string, string)
    requires d != ""
  {
    if d[0] == ':' then ("", d[1..])
    else if LineSpecColon(d) == |d| then (d, "")
    else (d[..LineSpecColon(d)], d[LineSpecColon(d) + 1..])
  }

  function ParseEntry(d: string): Option<Entry>
    requires d != ""
  {
    var ranges := ParseRanges(Pieces(SplitDefinition(d).1, ','));
    if ranges.Some? then Some(Entry(SplitDefinition(d).0, ranges.value)) else None
  }

  /** The entries that were pushed, and whether the text was read to its end. */
  datatype Parsed = Parsed(entries: seq<Entry>, ok: bool)

  function ParsePieces(definitions: seq<string>): Parsed {
    if definitions == [] then Parsed([], true)
    else if Trim(definitions[0]) == "" then ParsePieces(definitions[1..])
    else
      var entry, rest := ParseEntry(Trim(definitions[0])), ParsePieces(definitions[1..]);
      if entry.Some? then Parsed([entry.value] + rest.entries, rest.ok) else Parsed([], false)
  }

  function Parse(input: string): Parsed {
    ParsePieces(Pieces(input, ';'))
  }

  /** First one text, then, unless that failed, the other. */
  function Then(a: Parsed, b: Parsed): Parsed {
    if a.ok then Parsed(a.entries + b.entries, b.ok) else a
  }

  // -------------------------------------------------------------------------
  // Files
  // -------------------------------------------------------------------------

  predicate IsIgnored(line: string) {
    Trim(line) == "" || Trim(line)[0] == '#'
  }

  /** The lines of a scope file that count, joined by ';' after `combined`. */
  function Combine(combined: string, lines: seq<string>): string
    decreases lines
  {
    if lines == [] then combined
    else if IsIgnored(lines[0]) then Combine(combined, lines[1..])
    else Combine(if combined == "" then Trim(lines[0]) else combined + ";" + Trim(lines[0]), lines[1..])
  }

  /** The lines of a scope file, each read as a text of its own. */
  function ParseLines(lines: seq<string>): Parsed {
    if lines == [] then Parsed([], true)
    else if IsIgnored(lines[0]) then ParseLines(lines[1..])
    else Then(Parse(Trim(lines[0])), ParseLines(lines[1..]))
  }

  // -------------------------------------------------------------------------
  // Matching
  // -------------------------------------------------------------------------

  predicate CoversFile(e: Entry, file: string) {
    if e.pattern == "" then true
    else if e.pattern[0] == '/' then file == e.pattern
    else |e.pattern| <= |file| && file[|file| - |e.pattern|..] == e.pattern
  }

  predicate Covers(e: Entry, file: string, line: nat) {
    && CoversFile(e, file)
    && (e.ranges == [] || exists k :: 0 <= k < |e.ranges| && e.ranges[k].first <= line < e.ranges[k].limit)
  }

  /** Whether a location is instrumented: an empty list of entries filters nothing. */
  predicate InScope(entries: seq<Entry>, file: string, line: nat) {
    entries != [] ==> exists k :: 0 <= k < |entries| && Covers(entries[k], file, line)
  }

  function Direct(scope: Option<string>): Parsed {
    if scope.Some? then Parse(scope.value) else Parsed([], true)
  }

  function Listed(file: Option<string>, contents: Option<string>): Parsed {
    if file.None? || file.value == "" then Parsed([], true) else ParsedFile(contents)
  }

  function ParsedFile(contents: Option<string>): Parsed {
    if contents.Some? then ParseLines(Pieces(contents.value, '\n')) else Parsed([], false)
  }

  /** The two environment variables together: any error switches the filter off. */
  function FromEnvironment(scope: Option<string>, file: Option<string>, contents: Option<string>): seq<Entry> {
    if Then(Direct(scope), Listed(file, contents)).ok then Then(Direct(scope), Listed(file, contents)).entries else []
  }

  class InstrumentationScope {
    var entries: seq<Entry>
    var active: bool

    ghost predicate Valid()
      reads this
    {
      active == (entries != [])
    }

    /** `scope` and `file` are the two variables; `contents` is the scope file if it can be opened. */
    constructor (scope: Option<string>, file: Option<string>, contents: Option<string>)
      ensures Valid() && entries == FromEnvironment(scope, file, contents)
    {
      entries := [];
      active := false;
      new;
      if scope.None? && file.None? {
        return;
      }
      var ok := true;
      if scope.Some? && scope.value != "" {
        ok := ParseDefinitions(scope.value);
      }
      assert entries == Direct(scope).entries && ok == Direct(scope).ok;
      if ok && file.Some? && file.value != "" {
        ok := ParseFile(contents);
      }
      if !ok {
        entries := [];
        active := false;
        return;
      }
      active := entries != [];
    }

    method ParseDefinitions(input: string) returns (ok: bool)
      modifies `entries
      ensures entries == old(entries) + Parse(input).entries && ok == Parse(input).ok
    {
      var stream := input;
      ghost var before: seq<Entry> := [];
      while stream != ""
        invariant entries == old(entries) + before
        invariant Parse(input) == Then(Parsed(before, true), Parse(stream))
        decreases |stream|
      {
        var definition;
        definition, stream := Getline(stream, ';');
        PiecesInTurn(definition, Pieces(stream, ';'));
        ThenIsAssociative(Parsed(before, true), ParsePiece(definition), Parse(stream));
        definition := Trim(definition);
        if definition == "" {
          continue;
        }
        var entry := ParseDefinition(definition);
        if entry.None? {
          return false;
        }
        entries := entries + [entry.value];
        before := before + [entry.value];
      }
      ok := true;
    }

    static method ParseDefinition(definition: string) returns (entry: Option<Entry>)
      requires definition != ""
      ensures entry == ParseEntry(definition)
    {
      var filePart, linePart;
      if definition[0] == ':' {
        filePart, linePart := "", definition[1..];
      } else {
        var colon := LineSpecColon(definition);
        if colon == |definition| {
          filePart, linePart := definition, "";
        } else {
          filePart, linePart := definition[..colon], definition[colon + 1..];
        }
      }
      assert (filePart, linePart) == SplitDefinition(definition);
      var ranges := ParseLineSpecs(linePart);
      if ranges.None? {
        return None;
      }
      entry := Some(Entry(filePart, ranges.value));
    }

    static method ParseLineSpecs(specs: string) returns (ranges: Option<seq<Range>>)
      ensures ranges == ParseRanges(Pieces(specs, ','))
    {
      var stream, found := specs, [];
      NothingBefore(ParseRanges(Pieces(specs, ',')));
      while stream != ""
        invariant ParseRanges(Pieces(specs, ',')) == After(found, ParseRanges(Pieces(stream, ',')))
        decreases |stream|
      {
        var spec;
        spec, stream := Getline(stream, ',');
        RangesInTurn(spec, Pieces(stream, ','));
        spec := Trim(spec);
        if spec == "" {
          continue;
        }
        var range := ParseRange(spec);
        if range.None? {
          return None;
        }
        OneMore(found, range.value, ParseRanges(Pieces(stream, ',')));
        found := found + [range.value];
      }
      assert Pieces("", ',') == [] && found + [] == found;
      ranges := Some(found);
    }

    method ParseFile(contents: Option<string>) returns (ok: bool)
      modifies `entries
      ensures entries == old(entries) + ParsedFile(contents).entries && ok == ParsedFile(contents).ok
    {
      if contents.None? {
        return false;
      }
      var stream, combined := contents.value, "";
      while stream != ""
        invariant entries == old(entries)
        invariant Combine("", Pieces(contents.value, '\n')) == Combine(combined, Pieces(stream, '\n'))
        decreases |stream|
      {
        var line;
        line, stream := Getline(stream, '\n');
        assert ([line] + Pieces(stream, '\n'))[1..] == Pieces(stream, '\n');
        line := Trim(line);
        if line == "" || line[0] == '#' {
          continue;
        }
        if combined != "" {
          combined := combined + ";";
        }
        combined := combined + line;
        assert line == "" + line;
      }
      FileIsItsLines(contents.value);
      assert Pieces("", '\n') == [] && Parse("") == Parsed([], true);
      if combined == "" {
        return true;
      }
      assert Parse(combined) == ParsedFile(contents);
      ok := ParseDefinitions(combined);
    }

    method Matches(file: string, line: nat) returns (found: bool)
      requires Valid()
      ensures found == InScope(entries, file, line)
    {
      if !active {
        return true;
      }
      for i := 0 to |entries|
        invariant forall k | 0 <= k < i :: !Covers(entries[k], file, line)
      {
        var entry := entries[i];
        var fileMatches := false;
        if entry.pattern == "" {
          fileMatches := true;
        } else if entry.pattern[0] == '/' {
          fileMatches := file == entry.pattern;
        } else if |file| >= |entry.pattern| {
          fileMatches := file[|file| - |entry.pattern|..] == entry.pattern;
        }
        if !fileMatches {
          continue;
        }
        if entry.ranges == [] {
          return true;
        }
        for j := 0 to |entry.ranges|
          invariant forall k | 0 <= k < j :: !(entry.ranges[k].first <= line < entry.ranges[k].limit)
        {
          if entry.ranges[j].first <= line < entry.ranges[j].limit {
            return true;
          }
        }
      }
      found := false;
    }
  }

  // -------------------------------------------------------------------------
  // Joined texts are read one after the other
  // -------------------------------------------------------------------------

  lemma {:induction false} FindInFirst(a: string, b: string, c: char)
    requires Find(a, c) < |a|
    ensures Find(a + b, c) == Find(a, c)
  {
    if a[0] != c {
      assert (a + b)[1..] == a[1..] + b;
      FindInFirst(a[1..], b, c);
    }
  }

  lemma {:induction false} FindPastFirst(a: string, b: string, c: char)
    requires Find(a, c) == |a|
    ensures Find(a + b, c) == |a| + Find(b, c)
  {
    if a == "" {
      assert a + b == b;
    } else {
      assert (a + b)[1..] == a[1..] + b;
      FindPastFirst(a[1..], b, c);
    }
  }

  lemma {:induction false} NotFound(s: string, c: char)
    requires c !in s
    ensures Find(s, c) == |s|
  {
    if s != "" {
      NotFound(s[1..], c);
    }
  }

  lemma {:induction false} NotMissing(s: string, c: char)
    requires c in s
    ensures Find(s, c) < |s|
  {
    if s[0] != c {
      assert s == [s[0]] + s[1..];
      NotMissing(s[1..], c);
    }
  }

  lemma ThenIsAssociative(a: Parsed, b: Parsed, c: Parsed)
    ensures Then(Then(a, b), c) == Then(a, Then(b, c))
  {
    assert a.entries + b.entries + c.entries == a.entries + (b.entries + c.entries);
  }

  /** What the first piece alone contributes. */
  function ParsePiece(definition: string): Parsed {
    if Trim(definition) == "" then Parsed([], true)
    else if ParseEntry(Trim(definition)).Some? then Parsed([ParseEntry(Trim(definition)).value], true)
    else Parsed([], false)
  }

  lemma PiecesInTurn(piece: string, rest: seq<string>)
    ensures ParsePieces([piece] + rest) == Then(ParsePiece(piece), ParsePieces(rest))
  {
    assert ([piece] + rest)[1..] == rest;
  }

  lemma FirstPieceThen(piece: string, rest: string)
    requires ';' !in piece
    ensures Parse(piece + ";" + rest) == Then(ParsePiece(piece), Parse(rest))
  {
    var all := piece + ";" + rest;
    assert all == piece + (";" + rest);
    NotFound(piece, ';');
    FindPastFirst(piece, ";" + rest, ';');
    assert all[..|piece|] == piece && all[|piece| + 1..] == rest;
    PiecesInTurn(piece, Pieces(rest, ';'));
  }

  lemma OnlyPiece(a: string)
    requires ';' !in a
    ensures Parse(a) == ParsePiece(a)
  {
    NotFound(a, ';');
    if a != "" {
      PiecesInTurn(a, []);
      assert [a] + [] == [a];
    }
  }

  lemma SplitAt(a: string, i: nat, b: string)
    requires i < |a| && a[i] == ';'
    ensures a == a[..i] + ";" + a[i + 1..]
    ensures a + ";" + b == a[..i] + ";" + (a[i + 1..] + ";" + b)
  {
  }

  /** A text followed by ';' and another is the first text, then the other. */
  lemma {:induction false} ParseConcatenates(a: string, b: string)
    ensures Parse(a + ";" + b) == Then(Parse(a), Parse(b))
    decreases |a|
  {
    if ';' !in a {
      FirstPieceThen(a, b);
      OnlyPiece(a);
    } else {
      var i := Find(a, ';');
      NotMissing(a, ';');
      var piece, rest := a[..i], a[i + 1..];
      SplitAt(a, i, b);
      FirstPieceThen(piece, rest);
      FirstPieceThen(piece, rest + ";" + b);
      ParseConcatenates(rest, b);
      ThenIsAssociative(ParsePiece(piece), Parse(rest), Parse(b));
    }
  }

  lemma {:induction false} CombinedIsInTurn(combined: string, lines: seq<string>)
    ensures Parse(Combine(combined, lines)) == Then(Parse(combined), ParseLines(lines))
    decreases lines
  {
    if lines == [] {
    } else if IsIgnored(lines[0]) {
      CombinedIsInTurn(combined, lines[1..]);
    } else {
      var line := Trim(lines[0]);
      if combined == "" {
        CombinedIsInTurn(line, lines[1..]);
      } else {
        CombinedIsInTurn(combined + ";" + line, lines[1..]);
        ParseConcatenates(combined, line);
      }
      ThenIsAssociative(Parse(combined), Parse(line), ParseLines(lines[1..]));
    }
  }

  /** A scope file means its lines, each read as a text of its own. */
  lemma FileIsItsLines(contents: string)
    ensures Parse(Combine("", Pieces(contents, '\n'))) == ParseLines(Pieces(contents, '\n'))
  {
    CombinedIsInTurn("", Pieces(contents, '\n'));
  }

  // -------------------------------------------------------------------------
  // Printing and reading back
  // -------------------------------------------------------------------------

  /** A single line as N, anything longer as N:M. */
  function PrintRange(r: Range): string {
    if r.limit == r.first + 1 then Decimal(r.first) else Decimal(r.first) + ":" + Decimal(r.limit)
  }

  function PrintRanges(ranges: seq<Range>): string {
    if ranges == [] then ""
    else if |ranges| == 1 then PrintRange(ranges[0])
    else PrintRange(ranges[0]) + "," + PrintRanges(ranges[1..])
  }

  function PrintEntry(e: Entry): string {
    if e.pattern != "" && e.ranges == [] then e.pattern else e.pattern + ":" + PrintRanges(e.ranges)
  }

  function Print(entries: seq<Entry>): string {
    if entries == [] then "" else PrintEntry(entries[0]) + ";" + Print(entries[1..])
  }

  predicate Printable(e: Entry) {
    && (forall k | 0 <= k < |e.pattern| :: e.pattern[k] != ';')
    && LineSpecColon(e.pattern) == |e.pattern|
    && (e.pattern != "" ==>
          e.pattern[0] != ':' && !IsBlank(e.pattern[0]) && !IsBlank(e.pattern[|e.pattern| - 1]))
    && (forall k | 0 <= k < |e.ranges| :: e.ranges[k].first < e.ranges[k].limit < TWO_32)
  }

  lemma {:induction false} DigitsSplit(a: string, b: string, v: nat)
    requires AllDigits(a)
    ensures Digits(a + b, v) == Digits(b, Digits(a, v).0)
  {
    if a == "" {
      assert a + b == b;
    } else {
      assert (a + b)[1..] == a[1..] + b;
      DigitsSplit(a[1..], b, 10 * v + (a[0] as nat - '0' as nat));
    }
  }

  lemma {:induction false} DigitsReadDecimal(n: nat)
    ensures Digits(Decimal(n), 0) == (n, "")
  {
    var last := [('0' as nat + n % 10) as char];
    if n < 10 {
      assert Decimal(n) == last;
    } else {
      DecimalIsDigits(n / 10);
      DigitsReadDecimal(n / 10);
      DigitsSplit(Decimal(n / 10), last, 0);
    }
    assert last[1..] == "";
  }

  lemma StrtoulReadsDecimal(n: nat)
    requires n < TWO_64
    ensures Strtoul(Decimal(n)) == (n, "")
  {
    DecimalIsDigits(n);
    DigitsReadDecimal(n);
    assert IsDigit(Decimal(n)[0]);
  }

  lemma FoundAfter(a: string, c: char, b: string)
    requires forall k | 0 <= k < |a| :: a[k] != c
    ensures Find(a + [c] + b, c) == |a|
  {
    NotFound(a, c);
    FindPastFirst(a, [c] + b, c);
    assert a + [c] + b == a + ([c] + b);
  }

  lemma NoColonInDecimal(n: nat)
    ensures ':' !in Decimal(n)
  {
    DecimalIsDigits(n);
  }

  lemma SpanReadsBack(a: string, b: string, first: nat, limit: nat)
    requires ':' !in a && ':' !in b && Strtoul(a) == (first, "") && Strtoul(b) == (limit, "")
    requires first < limit < TWO_32
    ensures ParseRange(a + ":" + b) == Some(Range(first, limit))
  {
    FoundAfter(a, ':', b);
    NotFound(b, ':');
    var text := a + ":" + b;
    assert text[..|a|] == a && text[|a| + 1..] == b;
  }

  lemma LineReadsBack(a: string, line: nat)
    requires ':' !in a && Strtoul(a) == (line, "") && line + 1 < TWO_32
    ensures ParseRange(a) == Some(Range(line, line + 1))
  {
    NotFound(a, ':');
  }

  lemma RangeReadsBack(r: Range)
    requires r.first < r.limit < TWO_32
    ensures ParseRange(PrintRange(r)) == Some(r)
  {
    StrtoulReadsDecimal(r.first);
    NoColonInDecimal(r.first);
    if r.limit == r.first + 1 {
      LineReadsBack(Decimal(r.first), r.first);
    } else {
      StrtoulReadsDecimal(r.limit);
      NoColonInDecimal(r.limit);
      SpanReadsBack(Decimal(r.first), Decimal(r.limit), r.first, r.limit);
    }
  }

  /** Printed line specs hold digits, colons and commas only, and begin with a digit. */
  predicate SpecText(s: string) {
    forall k | 0 <= k < |s| :: IsDigit(s[k]) || s[k] == ':' || s[k] == ','
  }

  lemma PrintedRange(r: Range)
    ensures PrintRange(r) != "" && IsDigit(PrintRange(r)[0]) && IsDigit(PrintRange(r)[|PrintRange(r)| - 1])
    ensures forall k | 0 <= k < |PrintRange(r)| :: IsDigit(PrintRange(r)[k]) || PrintRange(r)[k] == ':'
  {
    DecimalIsDigits(r.first);
    DecimalIsDigits(r.limit);
  }

  lemma {:induction false} PrintedRanges(ranges: seq<Range>)
    ensures SpecText(PrintRanges(ranges))
    ensures ranges != [] ==>
              && PrintRanges(ranges) != "" && IsDigit(PrintRanges(ranges)[0])
              && IsDigit(PrintRanges(ranges)[|PrintRanges(ranges)| - 1])
  {
    if ranges != [] {
      PrintedRange(ranges[0]);
      PrintedRanges(ranges[1..]);
    }
  }

  lemma TrimKeeps(s: string)
    requires s != "" ==> !IsBlank(s[0]) && !IsBlank(s[|s| - 1])
    ensures Trim(s) == s
  {
  }

  lemma OneSpec(text: string, range: Range)
    requires text != "" && ',' !in text && Trim(text) == text && ParseRange(text) == Some(range)
    ensures ParseRanges(Pieces(text, ',')) == Some([range])
  {
    NotFound(text, ',');
    RangesInTurn(text, []);
    assert [text] + [] == [text] && [range] + [] == [range];
    assert ParseRanges([]) == Some([]);
  }

  lemma SpecInFront(text: string, range: Range, rest: string, ranges: seq<Range>)
    requires text != "" && ',' !in text && Trim(text) == text && ParseRange(text) == Some(range)
    requires ParseRanges(Pieces(rest, ',')) == Some(ranges)
    ensures ParseRanges(Pieces(text + "," + rest, ',')) == Some([range] + ranges)
  {
    FoundAfter(text, ',', rest);
    var all := text + "," + rest;
    assert all[..|text|] == text && all[|text| + 1..] == rest;
    RangesInTurn(text, Pieces(rest, ','));
  }

  lemma PrintedRangeReads(r: Range)
    requires r.first < r.limit < TWO_32
    ensures PrintRange(r) != "" && ',' !in PrintRange(r) && Trim(PrintRange(r)) == PrintRange(r)
    ensures ParseRange(PrintRange(r)) == Some(r)
  {
    PrintedRange(r);
    RangeReadsBack(r);
    TrimKeeps(PrintRange(r));
  }

  lemma {:induction false} RangesReadBack(ranges: seq<Range>)
    requires forall k | 0 <= k < |ranges| :: ranges[k].first < ranges[k].limit < TWO_32
    ensures ParseRanges(Pieces(PrintRanges(ranges), ',')) == Some(ranges)
  {
    if ranges == [] {
      assert ParseRanges([]) == Some([]);
    } else {
      PrintedRangeReads(ranges[0]);
      assert ranges == [ranges[0]] + ranges[1..];
      if |ranges| == 1 {
        OneSpec(PrintRange(ranges[0]), ranges[0]);
      } else {
        RangesReadBack(ranges[1..]);
        SpecInFront(PrintRange(ranges[0]), ranges[0], PrintRanges(ranges[1..]), ranges[1..]);
      }
    }
  }

  lemma {:induction false} ColonAfterPattern(pattern: string, specs: string)
    requires LineSpecColon(pattern) == |pattern| && specs != "" && IsDigit(specs[0])
    ensures LineSpecColon(pattern + ":" + specs) == |pattern|
  {
    var all := pattern + ":" + specs;
    if pattern != "" {
      assert all[1..] == pattern[1..] + ":" + specs;
      ColonAfterPattern(pattern[1..], specs);
    }
  }

  lemma EntrySplits(e: Entry)
    requires Printable(e)
    ensures PrintEntry(e) != "" && SplitDefinition(PrintEntry(e)) == (e.pattern, PrintRanges(e.ranges))
  {
    var text, specs := PrintEntry(e), PrintRanges(e.ranges);
    PrintedRanges(e.ranges);
    if e.pattern == "" {
      assert text == [':'] + specs;
    } else if e.ranges != [] {
      ColonAfterPattern(e.pattern, specs);
      assert text[..|e.pattern|] == e.pattern && text[|e.pattern| + 1..] == specs;
    }
  }

  lemma NoSemicolon(e: Entry)
    requires Printable(e)
    ensures ';' !in PrintEntry(e)
  {
    PrintedRanges(e.ranges);
  }

  lemma EntryKeepsItsEdges(e: Entry)
    requires Printable(e)
    ensures Trim(PrintEntry(e)) == PrintEntry(e) != ""
  {
    PrintedRanges(e.ranges);
    TrimKeeps(PrintEntry(e));
  }

  lemma EntryReadsBack(e: Entry)
    requires Printable(e)
    ensures ParsePiece(PrintEntry(e)) == Parsed([e], true)
  {
    EntryKeepsItsEdges(e);
    EntrySplits(e);
    RangesReadBack(e.ranges);
  }

  /** Every list of printable entries is read back from its text. */
  lemma {:induction false} RoundTrip(entries: seq<Entry>)
    requires forall k | 0 <= k < |entries| :: Printable(entries[k])
    ensures Parse(Print(entries)) == Parsed(entries, true)
  {
    if entries != [] {
      var text := PrintEntry(entries[0]);
      EntryReadsBack(entries[0]);
      NoSemicolon(entries[0]);
      RoundTrip(entries[1..]);
      FirstPieceThen(text, Print(entries[1..]));
      assert [entries[0]] + entries[1..] == entries;
    }
  }
}
