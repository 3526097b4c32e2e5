// Reading arrays of strings from the library filter's configuration (src/library_filter.cc),
// next to what JSON texts mean by sections 5 and 7 of RFC 8259.
module StringArray {

  // -------------------------------------------------------------------------
  // The reader
  // -------------------------------------------------------------------------

  /** What isspace accepts. */
  predicate IsSpace(c: char) {
    c == ' ' || '\t' <= c <= '\r'
  }

  function SkipSpaces(json: string, pos: nat): (r: nat)
    requires pos <= |json|
    ensures pos <= r <= |json|
    decreases |json| - pos
  {
    if pos < |json| && IsSpace(json[pos]) then SkipSpaces(json, pos + 1) else pos
  }

  /** The string whose text starts at pos, and where its closing quote, or the end of the input, is. */
  function ReadString(json: string, pos: nat): (r: (string, nat))
    requires pos <= |json|
    ensures pos <= r.1 <= |json| && (r.1 < |json| ==> json[r.1] == '"')
    decreases |json| - pos
  {
    if pos == |json| || json[pos] == '"' then ("", pos)
    else if json[pos] == '\\' && pos + 1 < |json| then
      ([json[pos + 1]] + ReadString(json, pos + 2).0, ReadString(json, pos + 2).1)
    else ([json[pos]] + ReadString(json, pos + 1).0, ReadString(json, pos + 1).1)
  }

  /** Whether the array was closed, where reading stopped, and the strings found. */
  datatype Reading = Reading(ok: bool, pos: nat, values: seq<string>)

  function Prefixed(values: seq<string>, r: Reading): Reading {
    r.(values := values + r.values)
  }

  /** Everything after the opening bracket. Commas may stand anywhere between strings. */
  function ReadElements(json: string, pos: nat): Reading
    requires pos <= |json|
    decreases |json| - pos, 1
  {
    ReadNext(json, SkipSpaces(json, pos))
  }

  /** The same from where no white space stands. */
  function ReadNext(json: string, at: nat): Reading
    requires at <= |json|
    decreases |json| - at, 0
  {
    if at == |json| then Reading(false, at, [])
    else if json[at] == ']' then Reading(true, at + 1, [])
    else if json[at] == ',' then ReadElements(json, at + 1)
    else if json[at] != '"' then Reading(false, at, [])
    else if ReadString(json, at + 1).1 == |json| then Reading(false, |json|, [])
    else Prefixed([ReadString(json, at + 1).0], ReadElements(json, ReadString(json, at + 1).1 + 1))
  }

  function ReadArray(json: string, pos: nat): Reading
    requires pos <= |json|
  {
    var at := SkipSpaces(json, pos);
    if at == |json| || json[at] != '[' then Reading(false, at, []) else ReadElements(json, at + 1)
  }

  method SkipAllSpaces(json: string, start: nat) returns (pos: nat)
    requires start <= |json|
    ensures pos == SkipSpaces(json, start)
  {
    pos := start;
    while pos < |json| && IsSpace(json[pos])
      invariant start <= pos <= |json|
      invariant SkipSpaces(json, start) == SkipSpaces(json, pos)
    {
      pos := pos + 1;
    }
  }

  function Front(value: string, r: (string, nat)): (string, nat) {
    (value + r.0, r.1)
  }

  lemma FrontTwice(a: string, b: string, r: (string, nat))
    ensures Front(a, Front(b, r)) == Front(a + b, r)
  {
    assert a + (b + r.0) == a + b + r.0;
  }

  method ReadOneString(json: string, start: nat) returns (value: string, pos: nat)
    requires start <= |json|
    ensures (value, pos) == ReadString(json, start)
  {
    value, pos := "", start;
    assert "" + ReadString(json, start).0 == ReadString(json, start).0;
    while pos < |json| && json[pos] != '"'
      invariant start <= pos <= |json|
      invariant ReadString(json, start) == Front(value, ReadString(json, pos))
    {
      ghost var before := value;
      if json[pos] == '\\' && pos + 1 < |json| {
        pos := pos + 1;
        value := value + [json[pos]];
      } else {
        value := value + [json[pos]];
      }
      FrontTwice(before, [json[pos]], ReadString(json, pos + 1));
      pos := pos + 1;
    }
    assert value + "" == value;
  }

  /** Reading past the end yields a zero character, which is none of those that are looked for. */
  function CharAt(json: string, pos: nat): char {
    if pos < |json| then json[pos] else '\0'
  }

  method ParseStringArray(json: string, start: nat) returns (ok: bool, pos: nat, result: seq<string>)
    requires start <= |json|
    ensures Reading(ok, pos, result) == ReadArray(json, start)
  {
    result := [];
    pos := SkipAllSpaces(json, start);
    if pos >= |json| || json[pos] != '[' {
      return false, pos, result;
    }
    pos := pos + 1;
    ghost var whole := ReadArray(json, start);
    assert Prefixed([], whole) == whole;
    while pos < |json|
      invariant pos <= |json|
      invariant whole == Prefixed(result, ReadElements(json, pos))
      decreases |json| - pos
    {
      pos := SkipAllSpaces(json, pos);
      assert result + [] == result;
      if CharAt(json, pos) == ']' {
        return true, pos + 1, result;
      }
      if CharAt(json, pos) == ',' {
        pos := pos + 1;
        continue;
      }
      if CharAt(json, pos) != '"' {
        return false, pos, result;
      }
      var value, end := ReadOneString(json, pos + 1);
      if end >= |json| {
        return false, end, result;
      }
      PrefixedTwice(result, [value], ReadElements(json, end + 1));
      pos, result := end + 1, result + [value];
    }
    ok := false;
  }

  lemma PrefixedTwice(a: seq<string>, b: seq<string>, r: Reading)
    ensures Prefixed(a, Prefixed(b, r)) == Prefixed(a + b, r)
  {
    assert a + (b + r.values) == a + b + r.values;
  }

  // -------------------------------------------------------------------------
  // JSON texts
  // -------------------------------------------------------------------------

  /** The characters of a JSON string, as it is written; unlike JSON this lets control characters stand as they are. */
  datatype Unit = Plain(c: char) | Escape(c: char) | Code(digits: string)

  predicate IsHex(c: char) {
    '0' <= c <= '9' || 'a' <= c <= 'f' || 'A' <= c <= 'F'
  }

  predicate IsUnit(u: Unit) {
    match u
    case Plain(c) => c != '"' && c != '\\'
    case Escape(c) => c == '"' || c == '\\' || c == '/' || Control(c).1
    case Code(digits) => |digits| == 4 && forall k | 0 <= k < 4 :: IsHex(digits[k])
  }

  /** The control character that a letter stands for after a backslash, if it stands for one. */
  function Control(c: char): (char, bool) {
    match c
    case 'b' => ('\U{8}', true)
    case 'f' => ('\U{c}', true)
    case 'n' => ('\n', true)
    case 'r' => ('\r', true)
    case 't' => ('\t', true)
    case _ => (c, false)
  }

  function UnitText(u: Unit): string {
    match u
    case Plain(c) => [c]
    case Escape(c) => ['\\', c]
    case Code(digits) => ['\\', 'u'] + digits
  }

  /** What the reader makes of it. */
  function UnitRead(u: Unit): string {
    match u
    case Plain(c) => [c]
    case Escape(c) => [c]
    case Code(digits) => ['u'] + digits
  }

  /** What it means; `decode` gives the bytes of a code unit. */
  function UnitMeaning(u: Unit, decode: string -> string): string {
    match u
    case Plain(c) => [c]
    case Escape(c) => [Control(c).0]
    case Code(digits) => decode(digits)
  }

  function Text(us: seq<Unit>): string {
    if us == [] then "" else UnitText(us[0]) + Text(us[1..])
  }

  function Read(us: seq<Unit>): string {
    if us == [] then "" else UnitRead(us[0]) + Read(us[1..])
  }

  function Meaning(us: seq<Unit>, decode: string -> string): string {
    if us == [] then "" else UnitMeaning(us[0], decode) + Meaning(us[1..], decode)
  }

  predicate AllUnits(us: seq<Unit>) {
    forall k | 0 <= k < |us| :: IsUnit(us[k])
  }

  /** White space around an element, as JSON allows it. */
  predicate IsWhite(s: string) {
    forall k | 0 <= k < |s| :: s[k] == ' ' || s[k] == '\t' || s[k] == '\n' || s[k] == '\r'
  }

  datatype Element = Element(before: string, units: seq<Unit>, after: string)

  predicate IsElement(e: Element) {
    IsWhite(e.before) && AllUnits(e.units) && IsWhite(e.after)
  }

  predicate AllElements(es: seq<Element>) {
    forall k | 0 <= k < |es| :: IsElement(es[k])
  }

  function Quoted(us: seq<Unit>): string {
    "\"" + (Text(us) + "\"")
  }

  function ElementText(e: Element): string {
    e.before + (Quoted(e.units) + e.after)
  }

  /** Elements separated by commas, and the closing bracket. */
  function ElementsText(es: seq<Element>): string
    requires es != []
  {
    if |es| == 1 then ElementText(es[0]) + "]" else ElementText(es[0]) + "," + ElementsText(es[1..])
  }

  function InsideText(es: seq<Element>, blank: string): string {
    if es == [] then blank + "]" else ElementsText(es)
  }

  /** An array; `blank` is the white space of an empty one. */
  function ArrayText(es: seq<Element>, blank: string): string {
    "[" + InsideText(es, blank)
  }

  function Values(es: seq<Element>): seq<string> {
    if es == [] then [] else [Read(es[0].units)] + Values(es[1..])
  }

  // -------------------------------------------------------------------------
  // Every array of strings is read
  // -------------------------------------------------------------------------

  predicate StandsAt(json: string, pos: nat, text: string) {
    pos + |text| <= |json| && forall k | 0 <= k < |text| :: json[pos + k] == text[k]
  }

  lemma StandsSplit(json: string, pos: nat, a: string, b: string)
    requires StandsAt(json, pos, a + b)
    ensures StandsAt(json, pos, a) && StandsAt(json, pos + |a|, b)
  {
    forall k | 0 <= k < |a| ensures json[pos + k] == a[k] {
      assert (a + b)[k] == a[k];
    }
    forall k | 0 <= k < |b| ensures json[pos + |a| + k] == b[k] {
      assert (a + b)[|a| + k] == b[k];
    }
  }

  /** Reading at pos is reading on at `next`, with `value` in front. */
  predicate ReadsOn(json: string, pos: nat, value: string, next: nat)
    requires pos <= |json| && next <= |json|
  {
    ReadString(json, pos) == Front(value, ReadString(json, next))
  }

  lemma ReadsOnTwice(json: string, pos: nat, a: string, next: nat, b: string, last: nat)
    requires pos <= |json| && next <= |json| && last <= |json|
    requires ReadsOn(json, pos, a, next) && ReadsOn(json, next, b, last)
    ensures ReadsOn(json, pos, a + b, last)
  {
    FrontTwice(a, b, ReadString(json, last));
  }

  lemma PlainIsRead(json: string, pos: nat, c: char)
    requires pos < |json| && json[pos] == c && c != '"' && c != '\\'
    ensures ReadsOn(json, pos, [c], pos + 1)
  {
  }

  lemma EscapeIsRead(json: string, pos: nat, c: char)
    requires pos + 1 < |json| && json[pos] == '\\' && json[pos + 1] == c
    ensures ReadsOn(json, pos, [c], pos + 2)
  {
  }

  lemma {:induction false} DigitsAreRead(json: string, pos: nat, digits: string)
    requires StandsAt(json, pos, digits) && forall k | 0 <= k < |digits| :: IsHex(digits[k])
    ensures ReadsOn(json, pos, digits, pos + |digits|)
    decreases |digits|
  {
    if digits == "" {
      assert "" + ReadString(json, pos).0 == ReadString(json, pos).0;
    } else {
      var first, more := [digits[0]], digits[1..];
      assert digits == first + more;
      assert json[pos] == digits[0] && IsHex(digits[0]);
      StandsSplit(json, pos, first, more);
      PlainIsRead(json, pos, digits[0]);
      DigitsAreRead(json, pos + 1, more);
      ReadsOnTwice(json, pos, first, pos + 1, more, pos + |digits|);
    }
  }

  lemma UnitIsRead(json: string, pos: nat, u: Unit)
    requires IsUnit(u) && StandsAt(json, pos, UnitText(u))
    ensures ReadsOn(json, pos, UnitRead(u), pos + |UnitText(u)|)
  {
    match u
    case Plain(c) =>
      assert json[pos] == UnitText(u)[0];
      PlainIsRead(json, pos, c);
    case Escape(c) =>
      assert json[pos] == UnitText(u)[0] && json[pos + 1] == UnitText(u)[1];
      EscapeIsRead(json, pos, c);
    case Code(digits) =>
      StandsSplit(json, pos, ['\\', 'u'], digits);
      assert json[pos] == ['\\', 'u'][0] && json[pos + 1] == ['\\', 'u'][1];
      EscapeIsRead(json, pos, 'u');
      DigitsAreRead(json, pos + 2, digits);
      ReadsOnTwice(json, pos, ['u'], pos + 2, digits, pos + 2 + |digits|);
  }

  lemma {:induction false} StringIsRead(json: string, pos: nat, us: seq<Unit>)
    requires AllUnits(us) && StandsAt(json, pos, Text(us))
    requires pos + |Text(us)| < |json| && json[pos + |Text(us)|] == '"'
    ensures ReadString(json, pos) == (Read(us), pos + |Text(us)|)
    decreases |us|
  {
    if us != [] {
      var first, more := UnitText(us[0]), Text(us[1..]);
      StandsSplit(json, pos, first, more);
      UnitIsRead(json, pos, us[0]);
      StringIsRead(json, pos + |first|, us[1..]);
    }
  }

  /** White space before an element, a comma or a bracket makes no difference. */
  lemma {:induction false} WhiteIsSkipped(json: string, pos: nat, white: string)
    requires IsWhite(white) && StandsAt(json, pos, white)
    ensures SkipSpaces(json, pos) == SkipSpaces(json, pos + |white|)
    decreases |white|
  {
    if white != "" {
      assert json[pos] == white[0];
      assert white == [white[0]] + white[1..];
      StandsSplit(json, pos, [white[0]], white[1..]);
      WhiteIsSkipped(json, pos + 1, white[1..]);
    }
  }

  /** Reading on from pos is reading on from `next`, with these strings in front. */
  predicate Leads(json: string, pos: nat, values: seq<string>, next: nat) {
    && pos <= |json| && next <= |json|
    && ReadElements(json, pos) == Prefixed(values, ReadElements(json, next))
  }

  /** Reading on from pos finds these strings and a closing bracket just before `end`. */
  predicate Closes(json: string, pos: nat, values: seq<string>, end: nat) {
    pos <= |json| && ReadElements(json, pos) == Reading(true, end, values)
  }

  lemma LeadsTwice(json: string, pos: nat, a: seq<string>, next: nat, b: seq<string>, last: nat)
    requires Leads(json, pos, a, next) && Leads(json, next, b, last)
    ensures Leads(json, pos, a + b, last)
  {
    PrefixedTwice(a, b, ReadElements(json, last));
  }

  lemma LeadsToClose(json: string, pos: nat, a: seq<string>, next: nat, b: seq<string>, end: nat)
    requires Leads(json, pos, a, next) && Closes(json, next, b, end)
    ensures Closes(json, pos, a + b, end)
  {
  }

  lemma WhiteLeads(json: string, pos: nat, white: string)
    requires IsWhite(white) && StandsAt(json, pos, white)
    ensures Leads(json, pos, [], pos + |white|)
  {
    WhiteIsSkipped(json, pos, white);
    var r := ReadElements(json, pos + |white|);
    assert Prefixed([], r) == r;
  }

  // One unfolding of the reader; a search for an induction would only get in its way.
  lemma {:induction false} QuoteNext(json: string, pos: nat)
    requires pos < |json| && json[pos] == '"' && ReadString(json, pos + 1).1 < |json|
    ensures var read := ReadString(json, pos + 1); ReadNext(json, pos) == Prefixed([read.0], ReadElements(json, read.1 + 1))
  {
  }

  lemma QuoteLeads(json: string, pos: nat)
    requires pos < |json| && json[pos] == '"' && ReadString(json, pos + 1).1 < |json|
    ensures var read := ReadString(json, pos + 1); Leads(json, pos, [read.0], read.1 + 1)
  {
    QuoteNext(json, pos);
    assert SkipSpaces(json, pos) == pos;
  }

  lemma QuotesStand(json: string, pos: nat, us: seq<Unit>)
    requires StandsAt(json, pos, Quoted(us))
    ensures pos + |Quoted(us)| == pos + |Text(us)| + 2 <= |json| && StandsAt(json, pos + 1, Text(us))
    ensures json[pos] == '"' && json[pos + 1 + |Text(us)|] == '"'
  {
    StandsSplit(json, pos, "\"", Text(us) + "\"");
    StandsSplit(json, pos + 1, Text(us), "\"");
    assert json[pos] == "\""[0] && json[pos + 1 + |Text(us)|] == "\""[0];
  }

  lemma QuotedLeads(json: string, pos: nat, us: seq<Unit>)
    requires AllUnits(us) && StandsAt(json, pos, Quoted(us))
    ensures Leads(json, pos, [Read(us)], pos + |Quoted(us)|)
  {
    QuotesStand(json, pos, us);
    StringIsRead(json, pos + 1, us);
    QuoteLeads(json, pos);
  }

  lemma ElementLeads(json: string, pos: nat, e: Element)
    requires IsElement(e) && StandsAt(json, pos, ElementText(e))
    ensures Leads(json, pos, [Read(e.units)], pos + |ElementText(e)|)
  {
    var start, end := pos + |e.before|, pos + |e.before| + |Quoted(e.units)|;
    StandsSplit(json, pos, e.before, Quoted(e.units) + e.after);
    StandsSplit(json, start, Quoted(e.units), e.after);
    WhiteLeads(json, pos, e.before);
    QuotedLeads(json, start, e.units);
    WhiteLeads(json, end, e.after);
    LeadsTwice(json, pos, [], start, [Read(e.units)], end);
    LeadsTwice(json, pos, [] + [Read(e.units)], end, [], end + |e.after|);
    assert [] + [Read(e.units)] + [] == [Read(e.units)];
  }

  lemma CommaLeads(json: string, pos: nat)
    requires StandsAt(json, pos, ",")
    ensures Leads(json, pos, [], pos + 1)
  {
    assert json[pos] == ","[0];
    var r := ReadElements(json, pos + 1);
    assert Prefixed([], r) == r;
  }

  lemma BracketCloses(json: string, pos: nat)
    requires StandsAt(json, pos, "]")
    ensures Closes(json, pos, [], pos + 1)
  {
    assert json[pos] == "]"[0];
  }

  lemma LastElementCloses(json: string, pos: nat, e: Element)
    requires IsElement(e) && StandsAt(json, pos, ElementText(e) + "]")
    ensures Closes(json, pos, [Read(e.units)], pos + |ElementText(e) + "]"|)
  {
    StandsSplit(json, pos, ElementText(e), "]");
    ElementLeads(json, pos, e);
    BracketCloses(json, pos + |ElementText(e)|);
    LeadsToClose(json, pos, [Read(e.units)], pos + |ElementText(e)|, [], pos + |ElementText(e) + "]"|);
    assert [Read(e.units)] + [] == [Read(e.units)];
  }

  lemma ElementAndCommaLead(json: string, pos: nat, e: Element)
    requires IsElement(e) && StandsAt(json, pos, ElementText(e) + ",")
    ensures Leads(json, pos, [Read(e.units)], pos + |ElementText(e) + ","|)
  {
    StandsSplit(json, pos, ElementText(e), ",");
    ElementLeads(json, pos, e);
    CommaLeads(json, pos + |ElementText(e)|);
    LeadsTwice(json, pos, [Read(e.units)], pos + |ElementText(e)|, [], pos + |ElementText(e) + ","|);
    assert [Read(e.units)] + [] == [Read(e.units)];
  }

  lemma {:induction false} ElementsClose(json: string, pos: nat, es: seq<Element>)
    requires es != [] && AllElements(es) && StandsAt(json, pos, ElementsText(es))
    ensures Closes(json, pos, Values(es), pos + |ElementsText(es)|)
    decreases |es|
  {
    assert IsElement(es[0]);
    if |es| == 1 {
      LastElementCloses(json, pos, es[0]);
      assert Values(es[1..]) == [];
    } else {
      var text, more := ElementText(es[0]) + ",", es[1..];
      StandsSplit(json, pos, text, ElementsText(more));
      ElementAndCommaLead(json, pos, es[0]);
      ElementsClose(json, pos + |text|, more);
      LeadsToClose(json, pos, [Read(es[0].units)], pos + |text|, Values(more), pos + |text| + |ElementsText(more)|);
    }
  }

  /** An array that is read from pos has its elements from `next` on. */
  predicate Opens(json: string, pos: nat, next: nat) {
    pos <= |json| && next <= |json| && ReadArray(json, pos) == ReadElements(json, next)
  }

  lemma BracketOpens(json: string, pos: nat, before: string, inside: string)
    requires IsWhite(before) && StandsAt(json, pos, before) && StandsAt(json, pos + |before|, "[" + inside)
    ensures Opens(json, pos, pos + |before| + 1) && StandsAt(json, pos + |before| + 1, inside)
  {
    StandsSplit(json, pos + |before|, "[", inside);
    WhiteIsSkipped(json, pos, before);
    assert json[pos + |before|] == "["[0];
    assert SkipSpaces(json, pos) == pos + |before|;
  }

  lemma OpensAndCloses(json: string, pos: nat, next: nat, values: seq<string>, end: nat)
    requires Opens(json, pos, next) && Closes(json, next, values, end)
    ensures ReadArray(json, pos) == Reading(true, end, values)
  {
  }

  lemma EmptyCloses(json: string, pos: nat, blank: string)
    requires IsWhite(blank) && StandsAt(json, pos, blank + "]")
    ensures Closes(json, pos, [], pos + |blank| + 1)
  {
    StandsSplit(json, pos, blank, "]");
    WhiteLeads(json, pos, blank);
    BracketCloses(json, pos + |blank|);
    LeadsToClose(json, pos, [], pos + |blank|, [], pos + |blank| + 1);
  }

  lemma InsideCloses(json: string, pos: nat, es: seq<Element>, blank: string)
    requires AllElements(es) && IsWhite(blank) && StandsAt(json, pos, InsideText(es, blank))
    ensures Closes(json, pos, Values(es), pos + |InsideText(es, blank)|)
  {
    if es == [] {
      EmptyCloses(json, pos, blank);
    } else {
      ElementsClose(json, pos, es);
    }
  }

  /** Every JSON array of strings is read to just past its bracket, wherever it stands. */
  lemma ArrayIsRead(json: string, pos: nat, before: string, es: seq<Element>, blank: string)
    requires AllElements(es) && IsWhite(blank) && IsWhite(before)
    requires StandsAt(json, pos, before) && StandsAt(json, pos + |before|, ArrayText(es, blank))
    ensures ReadArray(json, pos) == Reading(true, pos + |before| + |ArrayText(es, blank)|, Values(es))
  {
    BracketOpens(json, pos, before, InsideText(es, blank));
    var from := pos + |before| + 1;
    InsideCloses(json, from, es, blank);
    OpensAndCloses(json, pos, from, Values(es), from + |InsideText(es, blank)|);
  }

  // -------------------------------------------------------------------------
  // The escaping printer
  // -------------------------------------------------------------------------

  function Escaped(s: string): seq<Unit> {
    if s == "" then []
    else [if s[0] == '"' || s[0] == '\\' then Escape(s[0]) else Plain(s[0])] + Escaped(s[1..])
  }

  function Printed(values: seq<string>): seq<Element> {
    if values == [] then [] else [Element("", Escaped(values[0]), "")] + Printed(values[1..])
  }

  /** A backslash before every quote and backslash. */
  function Print(values: seq<string>): string {
    ArrayText(Printed(values), "")
  }

  lemma {:induction false} EscapedReadsBack(s: string)
    ensures AllUnits(Escaped(s)) && Read(Escaped(s)) == s
  {
    if s != "" {
      EscapedReadsBack(s[1..]);
      assert Escaped(s)[1..] == Escaped(s[1..]);
      assert s == [s[0]] + s[1..];
    }
  }

  lemma {:induction false} PrintedReadsBack(values: seq<string>)
    ensures AllElements(Printed(values)) && Values(Printed(values)) == values
  {
    if values != [] {
      EscapedReadsBack(values[0]);
      PrintedReadsBack(values[1..]);
      assert Printed(values)[1..] == Printed(values[1..]);
      assert values == [values[0]] + values[1..];
    }
  }

  /** What is printed for a list of strings is read back as that list, wherever it stands. */
  lemma RoundTrip(json: string, pos: nat, before: string, values: seq<string>)
    requires IsWhite(before) && StandsAt(json, pos, before) && StandsAt(json, pos + |before|, Print(values))
    ensures ReadArray(json, pos) == Reading(true, pos + |before| + |Print(values)|, values)
  {
    PrintedReadsBack(values);
    ArrayIsRead(json, pos, before, Printed(values), "");
  }

  // -------------------------------------------------------------------------
  // Where the reader departs from JSON
  // -------------------------------------------------------------------------

  /** Escapes that the reader takes for the letter after the backslash. */
  predicate Misread(u: Unit) {
    u.Code? || (u.Escape? && Control(u.c).1)
  }

  /** A code unit has at most four bytes. */
  ghost predicate ShortCodes(decode: string -> string) {
    forall digits | |digits| == 4 :: |decode(digits)| <= 4
  }

  lemma {:induction false} MeaningIsNotLonger(us: seq<Unit>, decode: string -> string)
    requires AllUnits(us) && ShortCodes(decode)
    ensures |Meaning(us, decode)| <= |Read(us)|
    ensures (exists k :: 0 <= k < |us| && us[k].Code?) ==> |Meaning(us, decode)| < |Read(us)|
  {
    if us != [] {
      assert IsUnit(us[0]);
      MeaningIsNotLonger(us[1..], decode);
      if k :| 0 < k < |us| && us[k].Code? {
        assert us[1..][k - 1].Code?;
      }
    }
  }

  /** The reader yields what a JSON string means exactly when it has no control or code escapes. */
  lemma {:induction false} ReaderAgreesWithJson(us: seq<Unit>, decode: string -> string)
    requires AllUnits(us) && ShortCodes(decode)
    ensures Read(us) == Meaning(us, decode) <==> forall k | 0 <= k < |us| :: !Misread(us[k])
  {
    if us == [] {
    } else if exists k :: 0 <= k < |us| && us[k].Code? {
      MeaningIsNotLonger(us, decode);
    } else {
      assert IsUnit(us[0]) && !us[0].Code?;
      var more := us[1..];
      ReaderAgreesWithJson(more, decode);
      HeadAndTail(us[0], more, decode);
      assert us == [us[0]] + more;
      assert (forall k | 0 <= k < |us| :: !Misread(us[k])) <==>
             !Misread(us[0]) && forall k | 0 <= k < |more| :: !Misread(more[k]);
    }
  }

  lemma HeadAndTail(u: Unit, more: seq<Unit>, decode: string -> string)
    requires IsUnit(u) && !u.Code?
    ensures Read([u] + more) == Meaning([u] + more, decode) <==> !Misread(u) && Read(more) == Meaning(more, decode)
  {
    var us := [u] + more;
    assert us[1..] == more;
    assert Read(us)[0] == u.c && Read(us)[1..] == Read(more);
    assert Meaning(us, decode)[0] == UnitMeaning(u, decode)[0] && Meaning(us, decode)[1..] == Meaning(more, decode);
    assert Misread(u) <==> u.c != UnitMeaning(u, decode)[0];
  }
}
