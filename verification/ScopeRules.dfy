// What definitions of instrumentation scopes select, and which are refused.
module ScopeRules {
  import opened Wrappers
  import opened Text
  import opened Words
  import opened Scope

  // -------------------------------------------------------------------------
  // Files
  // -------------------------------------------------------------------------

  /** No pattern covers every file, a full path that file, and anything else the paths that end with it. */
  lemma FilesCovered(e: Entry, file: string)
    ensures e.pattern == "" ==> CoversFile(e, file)
    ensures e.pattern != "" && e.pattern[0] == '/' ==> (CoversFile(e, file) <==> file == e.pattern)
    ensures e.pattern != "" && e.pattern[0] != '/' ==>
              (CoversFile(e, file) <==> exists front :: file == front + e.pattern)
  {
    if e.pattern != "" && e.pattern[0] != '/' {
      if CoversFile(e, file) {
        assert file == file[..|file| - |e.pattern|] + e.pattern;
      }
      if front :| file == front + e.pattern {
        assert file[|file| - |e.pattern|..] == e.pattern;
      }
    }
  }

  // -------------------------------------------------------------------------
  // Lines
  // -------------------------------------------------------------------------

  /** A definition without a file. */
  lemma LinesAlone(spec: string, range: Range)
    requires spec != "" && ';' !in spec && ',' !in spec && Trim(spec) == spec && !IsBlank(spec[|spec| - 1])
    requires ParseRange(spec) == Some(range)
    ensures Parse(":" + spec) == Parsed([Entry("", [range])], true)
  {
    var text := ":" + spec;
    OnlyPiece(text);
    TrimKeeps(text);
    assert SplitDefinition(text) == ("", spec);
    OneSpec(spec, range);
  }

  lemma DecimalsTrimmed(spec: string)
    requires spec != "" && IsDigit(spec[0]) && IsDigit(spec[|spec| - 1])
    ensures Trim(spec) == spec && !IsBlank(spec[|spec| - 1])
  {
    TrimKeeps(spec);
  }

  lemma NoSeparators(a: string, b: string)
    requires AllDigits(a) && AllDigits(b)
    ensures ';' !in a + ":" + b && ',' !in a + ":" + b
  {
  }

  /** `:N:M` selects the lines from N up to, but not including, M, of any file. */
  lemma SpanSelects(first: nat, limit: nat, file: string, line: nat)
    requires first < limit < TWO_32
    ensures var parsed := Parse(":" + (Decimal(first) + ":" + Decimal(limit)));
            parsed.ok && (InScope(parsed.entries, file, line) <==> first <= line < limit)
  {
    var a, b := Decimal(first), Decimal(limit);
    DecimalIsDigits(first);
    DecimalIsDigits(limit);
    StrtoulReadsDecimal(first);
    StrtoulReadsDecimal(limit);
    SpanReadsBack(a, b, first, limit);
    NoSeparators(a, b);
    DecimalsTrimmed(a + ":" + b);
    LinesAlone(a + ":" + b, Range(first, limit));
    OneEntrySelects(Entry("", [Range(first, limit)]), file, line);
  }

  lemma OneEntrySelects(e: Entry, file: string, line: nat)
    requires |e.ranges| == 1
    ensures InScope([e], file, line) <==> CoversFile(e, file) && e.ranges[0].first <= line < e.ranges[0].limit
  {
    assert [e][0] == e;
  }

  /** `N` stands for line N modulo 2^32; only the last of these lines is never selected. */
  lemma LineSelects(number: nat, line: nat)
    requires number < TWO_64
    ensures ParseRange(Decimal(number)).Some?
    ensures var r := ParseRange(Decimal(number)).value;
            r.first <= line < r.limit <==> line == number % TWO_32 && line != TWO_32 - 1
  {
    StrtoulReadsDecimal(number);
    NoColonInDecimal(number);
    NotFound(Decimal(number), ':');
    NextModulo(number);
  }

  lemma NextModulo(n: nat)
    ensures (n + 1) % TWO_32 == if n % TWO_32 == TWO_32 - 1 then 0 else n % TWO_32 + 1
  {
  }

  // -------------------------------------------------------------------------
  // Numbers
  // -------------------------------------------------------------------------

  /** A sign is read as modulo 2^64, and numbers that do not fit as the largest that does. */
  lemma NumbersWrapOrSaturate(n: nat)
    ensures Strtoul("-" + Decimal(n)) == (if n < TWO_64 then (TWO_64 - n) % TWO_64 else TWO_64 - 1, "")
    ensures Strtoul("+" + Decimal(n)) == Strtoul(Decimal(n)) == (if n < TWO_64 then n else TWO_64 - 1, "")
  {
    DecimalIsDigits(n);
    DigitsReadDecimal(n);
    assert IsDigit(Decimal(n)[0]);
    assert ("-" + Decimal(n))[1..] == Decimal(n) && ("+" + Decimal(n))[1..] == Decimal(n);
  }

  // -------------------------------------------------------------------------
  // What is refused
  // -------------------------------------------------------------------------

  /** A range that does not grow. */
  lemma ReversedIsRefused(first: nat, limit: nat)
    requires limit <= first < TWO_64
    ensures ParseRange(Decimal(first) + ":" + Decimal(limit)) == None
  {
    var a, b := Decimal(first), Decimal(limit);
    StrtoulReadsDecimal(first);
    StrtoulReadsDecimal(limit);
    NoColonInDecimal(first);
    FoundAfter(a, ':', b);
    var text := a + ":" + b;
    assert text[..|a|] == a && text[|a| + 1..] == b;
  }

  lemma DigitsStop(n: nat, rest: string)
    requires rest != "" && !IsDigit(rest[0])
    ensures Digits(Decimal(n) + rest, 0) == (n, rest)
  {
    DecimalIsDigits(n);
    DigitsReadDecimal(n);
    DigitsSplit(Decimal(n), rest, 0);
  }

  /** A number with anything behind it. */
  lemma TrailingTextIsRefused(n: nat, rest: string)
    requires rest != "" && !IsDigit(rest[0]) && rest[0] != '\0' && ':' !in rest
    ensures ParseRange(Decimal(n) + rest) == None
  {
    var text := Decimal(n) + rest;
    DecimalIsDigits(n);
    NoColonInDecimal(n);
    NotFound(text, ':');
    DigitsStop(n, rest);
    assert text[0] == Decimal(n)[0] && IsDigit(text[0]);
  }

  /** A second colon in a range. */
  lemma SecondColonIsRefused(a: string, b: string, c: string)
    requires ':' !in a && ':' !in b
    ensures ParseRange(a + ":" + (b + ":" + c)) == None
  {
    var rest := b + ":" + c;
    FoundAfter(a, ':', rest);
    FoundAfter(b, ':', c);
    var text := a + ":" + rest;
    assert text[|a| + 1..] == rest;
  }

  /** A refused range leaves the whole text unread, and the filter off. */
  lemma RefusedSwitchesOff(spec: string, file: Option<string>, contents: Option<string>)
    requires spec != "" && ';' !in spec && ',' !in spec && Trim(spec) == spec && !IsBlank(spec[|spec| - 1])
    requires ParseRange(spec) == None
    ensures !Parse(":" + spec).ok && FromEnvironment(Some(":" + spec), file, contents) == []
  {
    var text := ":" + spec;
    OnlyPiece(text);
    TrimKeeps(text);
    assert SplitDefinition(text) == ("", spec);
    NotFound(spec, ',');
    RangesInTurn(spec, []);
    assert [spec] + [] == [spec];
  }

  lemma DigitsOfExamples()
    ensures Decimal(20) == "20" && Decimal(10) == "10" && Decimal(12) == "12"
  {
  }

  /** For example `20:10` and `12x`. */
  lemma ExamplesAreRefused()
    ensures ParseRange("20" + ":" + "10") == None && ParseRange("12" + "x") == None
  {
    DigitsOfExamples();
    ReversedIsRefused(20, 10);
    TrailingTextIsRefused(12, "x");
  }

  // -------------------------------------------------------------------------
  // Scope files
  // -------------------------------------------------------------------------

  /** Comments and blank lines add nothing; any other line is read as a text of its own. */
  lemma LinesOfFile(line: string, rest: seq<string>)
    ensures ParseLines([line] + rest) ==
            if Trim(line) == "" || Trim(line)[0] == '#' then ParseLines(rest)
            else if Parse(Trim(line)).ok then
              Parsed(Parse(Trim(line)).entries + ParseLines(rest).entries, ParseLines(rest).ok)
            else Parse(Trim(line))
  {
    assert ([line] + rest)[1..] == rest;
  }
}
