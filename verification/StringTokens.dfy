// Which texts the reader of string arrays accepts, and which of these are JSON arrays of strings.
module StringTokens {
  import opened StringArray

  // -------------------------------------------------------------------------
  // Tokens
  // -------------------------------------------------------------------------

  /** What may stand, in any order and number, between the brackets. */
  datatype Token = Blank(c: char) | Comma | Str(units: seq<Unit>)

  /** A character that stands for itself, or a backslash with any character. */
  predicate IsPiece(u: Unit) {
    match u
    case Plain(c) => c != '"' && c != '\\'
    case Escape(_) => true
    case Code(_) => false
  }

  /** Space, tab, line feed, vertical tab, form feed or carriage return. */
  predicate IsBlank(c: char) {
    c == ' ' || c == '\t' || c == '\n' || c == '\U{b}' || c == '\U{c}' || c == '\r'
  }

  predicate AllPieces(us: seq<Unit>) {
    forall k | 0 <= k < |us| :: IsPiece(us[k])
  }

  predicate IsToken(t: Token) {
    match t
    case Blank(c) => IsBlank(c)
    case Comma => true
    case Str(us) => AllPieces(us)
  }

  predicate AllTokens(ts: seq<Token>) {
    forall k | 0 <= k < |ts| :: IsToken(ts[k])
  }

  function TokenText(t: Token): string {
    match t
    case Blank(c) => [c]
    case Comma => ","
    case Str(us) => Quoted(us)
  }

  /** Everything after the opening bracket. */
  function TokensText(ts: seq<Token>): string {
    if ts == [] then "]" else TokenText(ts[0]) + TokensText(ts[1..])
  }

  function TokenValue(t: Token): seq<string> {
    if t.Str? then [Read(t.units)] else []
  }

  function TokenValues(ts: seq<Token>): seq<string> {
    if ts == [] then [] else TokenValue(ts[0]) + TokenValues(ts[1..])
  }

  // -------------------------------------------------------------------------
  // Every list of tokens is read
  // -------------------------------------------------------------------------

  lemma PieceIsRead(json: string, pos: nat, u: Unit)
    requires IsPiece(u) && StandsAt(json, pos, UnitText(u))
    ensures ReadsOn(json, pos, UnitRead(u), pos + |UnitText(u)|)
  {
    match u
    case Plain(c) =>
      assert json[pos] == UnitText(u)[0];
      PlainIsRead(json, pos, c);
    case Escape(c) =>
      assert json[pos] == UnitText(u)[0] && json[pos + 1] == UnitText(u)[1];
      EscapeIsRead(json, pos, c);
  }

  lemma {:induction false} PiecesAreRead(json: string, pos: nat, us: seq<Unit>)
    requires AllPieces(us) && StandsAt(json, pos, Text(us))
    requires pos + |Text(us)| < |json| && json[pos + |Text(us)|] == '"'
    ensures ReadString(json, pos) == (Read(us), pos + |Text(us)|)
    decreases |us|
  {
    if us != [] {
      var first, more := UnitText(us[0]), Text(us[1..]);
      StandsSplit(json, pos, first, more);
      PieceIsRead(json, pos, us[0]);
      PiecesAreRead(json, pos + |first|, us[1..]);
    }
  }

  lemma StrLeads(json: string, pos: nat, us: seq<Unit>)
    requires AllPieces(us) && StandsAt(json, pos, Quoted(us))
    ensures Leads(json, pos, [Read(us)], pos + |Quoted(us)|)
  {
    QuotesStand(json, pos, us);
    PiecesAreRead(json, pos + 1, us);
    QuoteLeads(json, pos);
  }

  lemma BlankLeads(json: string, pos: nat)
    requires pos < |json| && IsSpace(json[pos])
    ensures Leads(json, pos, [], pos + 1)
  {
    var r := ReadElements(json, pos + 1);
    assert Prefixed([], r) == r;
  }

  lemma TokenLeads(json: string, pos: nat, t: Token)
    requires IsToken(t) && StandsAt(json, pos, TokenText(t))
    ensures Leads(json, pos, TokenValue(t), pos + |TokenText(t)|)
  {
    match t
    case Blank(c) =>
      assert json[pos] == TokenText(t)[0];
      BlankLeads(json, pos);
    case Comma => CommaLeads(json, pos);
    case Str(us) => StrLeads(json, pos, us);
  }

  lemma TokenThenClose(json: string, pos: nat, t: Token, next: nat, values: seq<string>, end: nat)
    requires IsToken(t) && StandsAt(json, pos, TokenText(t)) && next == pos + |TokenText(t)|
    requires Closes(json, next, values, end)
    ensures Closes(json, pos, TokenValue(t) + values, end)
  {
    TokenLeads(json, pos, t);
    LeadsToClose(json, pos, TokenValue(t), next, values, end);
  }

  lemma {:induction false} TokensClose(json: string, pos: nat, ts: seq<Token>, end: nat)
    requires AllTokens(ts) && StandsAt(json, pos, TokensText(ts)) && end == pos + |TokensText(ts)|
    ensures Closes(json, pos, TokenValues(ts), end)
    decreases |ts|
  {
    if ts == [] {
      BracketCloses(json, pos);
    } else {
      var next := pos + |TokenText(ts[0])|;
      StandsSplit(json, pos, TokenText(ts[0]), TokensText(ts[1..]));
      TokensClose(json, next, ts[1..], end);
      TokenThenClose(json, pos, ts[0], next, TokenValues(ts[1..]), end);
    }
  }

  // -------------------------------------------------------------------------
  // Nothing else is accepted
  // -------------------------------------------------------------------------

  lemma StandsJoined(json: string, pos: nat, a: string, b: string)
    requires StandsAt(json, pos, a) && StandsAt(json, pos + |a|, b)
    ensures StandsAt(json, pos, a + b)
  {
    forall k | 0 <= k < |a + b| ensures json[pos + k] == (a + b)[k] {
      if k >= |a| {
        assert json[pos + |a| + (k - |a|)] == b[k - |a|];
      }
    }
  }

  /** A string that ends consists of pieces. */
  lemma {:induction false} StringHasPieces(json: string, pos: nat) returns (us: seq<Unit>)
    requires pos <= |json| && ReadString(json, pos).1 < |json|
    ensures AllPieces(us) && StandsAt(json, pos, Text(us)) && pos + |Text(us)| == ReadString(json, pos).1
    decreases |json| - pos
  {
    if json[pos] == '"' {
      us := [];
    } else {
      var first := if json[pos] == '\\' && pos + 1 < |json| then Escape(json[pos + 1]) else Plain(json[pos]);
      var next := pos + |UnitText(first)|;
      var more := StringHasPieces(json, next);
      us := [first] + more;
      assert us[1..] == more;
      StandsJoined(json, pos, UnitText(first), Text(more));
    }
  }

  lemma TokenInFront(json: string, pos: nat, t: Token, more: seq<Token>) returns (ts: seq<Token>)
    requires IsToken(t) && AllTokens(more)
    requires StandsAt(json, pos, TokenText(t)) && StandsAt(json, pos + |TokenText(t)|, TokensText(more))
    ensures AllTokens(ts) && StandsAt(json, pos, TokensText(ts))
  {
    ts := [t] + more;
    assert ts[1..] == more;
    StandsJoined(json, pos, TokenText(t), TokensText(more));
  }

  lemma NextIsRead(json: string, pos: nat)
    requires pos <= |json| && (pos < |json| ==> !IsSpace(json[pos]))
    ensures ReadElements(json, pos) == ReadNext(json, pos)
  {
  }

  /** A string is read where a quote stands. */
  lemma FirstString(json: string, pos: nat) returns (us: seq<Unit>)
    requires pos < |json| && json[pos] == '"' && ReadElements(json, pos).ok
    ensures AllPieces(us) && StandsAt(json, pos, Quoted(us))
  {
    NextIsRead(json, pos);
    us := StringHasPieces(json, pos + 1);
    StandsJoined(json, pos + 1, Text(us), "\"");
    StandsJoined(json, pos, "\"", Text(us) + "\"");
  }

  lemma SomethingStands(json: string, pos: nat)
    requires pos <= |json| && ReadElements(json, pos).ok
    ensures pos < |json| && (IsSpace(json[pos]) || json[pos] == ']' || json[pos] == ',' || json[pos] == '"')
  {
    if pos == |json| || !IsSpace(json[pos]) {
      NextIsRead(json, pos);
    }
  }

  /** The token that stands where reading goes on, unless that is a closing bracket. */
  lemma FirstToken(json: string, pos: nat) returns (t: Token)
    requires pos < |json| && ReadElements(json, pos).ok && json[pos] != ']'
    ensures IsToken(t) && StandsAt(json, pos, TokenText(t)) && TokenText(t) != ""
    ensures ReadElements(json, pos + |TokenText(t)|).ok
  {
    SomethingStands(json, pos);
    if json[pos] == '"' {
      var us := FirstString(json, pos);
      t := Str(us);
    } else {
      t := if json[pos] == ',' then Comma else Blank(json[pos]);
    }
    TokenLeads(json, pos, t);
  }

  /** What is read to a closing bracket consists of tokens. */
  lemma {:induction false} ReadingHasTokens(json: string, pos: nat) returns (ts: seq<Token>)
    requires pos <= |json| && ReadElements(json, pos).ok
    ensures AllTokens(ts) && StandsAt(json, pos, TokensText(ts))
    decreases |json| - pos
  {
    SomethingStands(json, pos);
    if json[pos] == ']' {
      ts := [];
    } else {
      var t := FirstToken(json, pos);
      var more := ReadingHasTokens(json, pos + |TokenText(t)|);
      ts := TokenInFront(json, pos, t, more);
    }
  }

  /** For every text and position: reading on succeeds exactly when tokens and a closing bracket stand there. */
  lemma ElementsAreTokens(json: string, pos: nat)
    requires pos <= |json|
    ensures ReadElements(json, pos).ok <==> exists ts :: AllTokens(ts) && StandsAt(json, pos, TokensText(ts))
  {
    if ReadElements(json, pos).ok {
      var ts := ReadingHasTokens(json, pos);
    }
    if ts :| AllTokens(ts) && StandsAt(json, pos, TokensText(ts)) {
      TokensClose(json, pos, ts, pos + |TokensText(ts)|);
    }
  }

  predicate AllSpaces(s: string) {
    forall k | 0 <= k < |s| :: IsBlank(s[k])
  }

  lemma {:induction false} SpacesAreSkipped(json: string, pos: nat, before: string)
    requires AllSpaces(before) && StandsAt(json, pos, before + "[")
    ensures SkipSpaces(json, pos) == pos + |before| && json[pos + |before|] == '['
    decreases |before|
  {
    assert json[pos] == (before + "[")[0];
    if before != "" {
      assert before + "[" == [before[0]] + (before[1..] + "[");
      StandsSplit(json, pos, [before[0]], before[1..] + "[");
      SpacesAreSkipped(json, pos + 1, before[1..]);
    }
  }

  lemma {:induction false} SpacesStand(json: string, pos: nat) returns (before: string)
    requires pos <= |json|
    ensures AllSpaces(before) && StandsAt(json, pos, before) && pos + |before| == SkipSpaces(json, pos)
    decreases |json| - pos
  {
    before := "";
    if pos < |json| && IsSpace(json[pos]) {
      var more := SpacesStand(json, pos + 1);
      before := [json[pos]] + more;
      StandsJoined(json, pos, [json[pos]], more);
    }
  }

  /** White space, an opening bracket and tokens stand here. */
  ghost predicate TokensStand(json: string, pos: nat, before: string, ts: seq<Token>) {
    && AllSpaces(before) && AllTokens(ts)
    && StandsAt(json, pos, before + "[") && StandsAt(json, pos + |before| + 1, TokensText(ts))
  }

  /** Then they are read to just past the closing bracket, and their strings are found. */
  lemma TokensAreRead(json: string, pos: nat, before: string, ts: seq<Token>)
    requires TokensStand(json, pos, before, ts)
    ensures ReadArray(json, pos) == Reading(true, pos + |before| + 1 + |TokensText(ts)|, TokenValues(ts))
  {
    SpacesAreSkipped(json, pos, before);
    TokensClose(json, pos + |before| + 1, ts, pos + |before| + 1 + |TokensText(ts)|);
  }

  /** For every text and position: the reader succeeds exactly when they stand there. */
  lemma AcceptedIsTokens(json: string, pos: nat)
    requires pos <= |json|
    ensures ReadArray(json, pos).ok <==> exists before, ts :: TokensStand(json, pos, before, ts)
  {
    if ReadArray(json, pos).ok {
      var before := SpacesStand(json, pos);
      var ts := ReadingHasTokens(json, pos + |before| + 1);
      StandsJoined(json, pos, before, "[");
      assert TokensStand(json, pos, before, ts);
    }
    if before, ts :| TokensStand(json, pos, before, ts) {
      TokensAreRead(json, pos, before, ts);
    }
  }

  // -------------------------------------------------------------------------
  // Which token lists are JSON
  // -------------------------------------------------------------------------

  /** In JSON, control characters do not stand for themselves. */
  predicate IsJsonUnit(u: Unit) {
    IsUnit(u) && (u.Plain? ==> u.c >= ' ')
  }

  predicate AllJsonUnits(us: seq<Unit>) {
    forall k | 0 <= k < |us| :: IsJsonUnit(us[k])
  }

  predicate IsJsonElement(e: Element) {
    IsWhite(e.before) && AllJsonUnits(e.units) && IsWhite(e.after)
  }

  predicate AllJsonElements(es: seq<Element>) {
    forall k | 0 <= k < |es| :: IsJsonElement(es[k])
  }

  /** The text is what follows the opening bracket of a JSON array of strings. */
  ghost predicate IsJsonInside(text: string) {
    exists es, blank :: AllJsonElements(es) && IsWhite(blank) && InsideText(es, blank) == text
  }

  predicate HexAfter(us: seq<Unit>, k: nat) {
    k + 4 < |us| && forall j | k < j <= k + 4 :: us[j].Plain? && IsHex(us[j].c)
  }

  /** No control character, and an escape of section 7 of RFC 8259. */
  predicate IsJsonPiece(us: seq<Unit>, k: nat)
    requires k < |us|
  {
    match us[k]
    case Plain(c) => c >= ' '
    case Escape(c) => if c == 'u' then HexAfter(us, k) else IsUnit(us[k])
    case Code(_) => false
  }

  predicate AllJsonPieces(us: seq<Unit>) {
    forall k | 0 <= k < |us| :: IsJsonPiece(us, k)
  }

  predicate IsJsonToken(t: Token) {
    match t
    case Blank(c) => IsWhite([c])
    case Comma => true
    case Str(us) => AllJsonPieces(us)
  }

  /** The tokens that are no blanks. */
  function Solid(ts: seq<Token>): seq<Token> {
    if ts == [] then [] else (if ts[0].Blank? then [] else [ts[0]]) + Solid(ts[1..])
  }

  /** Strings and commas in turn, up to a string; `first` says whether a string comes first. */
  predicate Alternate(solid: seq<Token>, first: bool) {
    if solid == [] then !first else solid[0].Str? == first && Alternate(solid[1..], !first)
  }

  /** One comma between any two strings and no other; blanks and strings as JSON has them. */
  predicate IsJsonList(ts: seq<Token>) {
    && (forall k | 0 <= k < |ts| :: IsJsonToken(ts[k]))
    && (Solid(ts) == [] || Alternate(Solid(ts), true))
  }

  // -------------------------------------------------------------------------
  // Such a list is a JSON array
  // -------------------------------------------------------------------------

  function Chars(us: seq<Unit>): string
    requires forall k | 0 <= k < |us| :: us[k].Plain?
  {
    seq(|us|, k requires 0 <= k < |us| => us[k].c)
  }

  lemma {:induction false} TextTwice(a: seq<Unit>, b: seq<Unit>)
    ensures Text(a + b) == Text(a) + Text(b)
  {
    if a == [] {
      assert a + b == b;
    } else {
      assert (a + b)[1..] == a[1..] + b;
      TextTwice(a[1..], b);
      assert UnitText(a[0]) + (Text(a[1..]) + Text(b)) == UnitText(a[0]) + Text(a[1..]) + Text(b);
    }
  }

  lemma {:induction false} PlainText(us: seq<Unit>)
    requires forall k | 0 <= k < |us| :: us[k].Plain?
    ensures Text(us) == Chars(us)
  {
    if us != [] {
      PlainText(us[1..]);
      assert Chars(us) == [us[0].c] + Chars(us[1..]);
    }
  }

  lemma OneText(u: Unit)
    ensures Text([u]) == UnitText(u)
  {
    assert Text([u][1..]) == "";
  }

  lemma PiecesFrom(us: seq<Unit>, n: nat)
    requires AllPieces(us) && AllJsonPieces(us) && n <= |us|
    ensures AllPieces(us[n..]) && AllJsonPieces(us[n..])
  {
    forall k | 0 <= k < |us[n..]| ensures IsJsonPiece(us[n..], k) {
      var moved := k + n;
      assert IsJsonPiece(us, moved);
      if us[moved] == Escape('u') {
        forall j | k < j <= k + 4 ensures us[n..][j].Plain? && IsHex(us[n..][j].c) {
          var there := j + n;
          assert us[there].Plain? && IsHex(us[there].c);
        }
      }
    }
  }

  /** The digits after a backslash and a u form a code escape. */
  lemma CodeOf(us: seq<Unit>) returns (u: Unit)
    requires us != [] && us[0] == Escape('u') && HexAfter(us, 0)
    ensures IsJsonUnit(u) && UnitText(u) == Text(us[..5])
  {
    var digits := us[1..5];
    forall k | 0 <= k < 4 ensures digits[k].Plain? && IsHex(digits[k].c) {
      var there := k + 1;
      assert us[there].Plain? && IsHex(us[there].c);
    }
    u := Code(Chars(digits));
    PlainText(digits);
    assert us[..5] == [us[0]] + digits;
    OneText(us[0]);
    TextTwice([us[0]], digits);
  }

  /** Pieces as JSON has them are the units of a JSON string. */
  lemma {:induction false} PiecesAreJson(us: seq<Unit>) returns (grouped: seq<Unit>)
    requires AllPieces(us) && AllJsonPieces(us)
    ensures AllJsonUnits(grouped) && Text(grouped) == Text(us)
    decreases |us|
  {
    grouped := [];
    if us != [] {
      assert IsPiece(us[0]) && IsJsonPiece(us, 0);
      var n, first := 1, us[0];
      if us[0] == Escape('u') {
        n := 5;
        first := CodeOf(us);
      } else {
        OneText(us[0]);
        assert us[..1] == [us[0]];
      }
      PiecesFrom(us, n);
      var more := PiecesAreJson(us[n..]);
      assert us == us[..n] + us[n..];
      TextTwice(us[..n], us[n..]);
      grouped := [first] + more;
      OneText(first);
      TextTwice([first], more);
    }
  }

  ghost predicate JsonTokens(ts: seq<Token>) {
    AllTokens(ts) && forall k | 0 <= k < |ts| :: IsJsonToken(ts[k])
  }

  lemma JsonTokensAfter(ts: seq<Token>)
    requires ts != [] && JsonTokens(ts)
    ensures JsonTokens(ts[1..])
  {
  }

  function ElementsOrEnd(es: seq<Element>): string {
    if es == [] then "]" else "," + ElementsText(es)
  }

  lemma Regroup(a: string, b: string, c: string)
    ensures a + b + c == a + (b + c)
  {
  }

  lemma WhiteInFront(c: char, white: string)
    requires IsWhite([c]) && IsWhite(white)
    ensures IsWhite([c] + white)
  {
    assert [c][0] == c;
  }

  lemma ElementsSplit(e: Element, es: seq<Element>)
    ensures ElementsText([e] + es) == ElementText(e) + ElementsOrEnd(es)
  {
    assert ([e] + es)[1..] == es;
    if es != [] {
      Regroup(ElementText(e), ",", ElementsText(es));
    }
  }

  lemma TokenTakenOff(ts: seq<Token>, first: bool)
    requires ts != [] && JsonTokens(ts) && Alternate(Solid(ts), first)
    ensures JsonTokens(ts[1..]) && IsToken(ts[0]) && IsJsonToken(ts[0])
    ensures TokensText(ts) == TokenText(ts[0]) + TokensText(ts[1..])
    ensures if ts[0].Blank? then Alternate(Solid(ts[1..]), first)
            else ts[0].Str? == first && Alternate(Solid(ts[1..]), !first)
  {
    JsonTokensAfter(ts);
    if ts[0].Blank? {
      assert Solid(ts) == Solid(ts[1..]);
    } else {
      assert Solid(ts)[1..] == Solid(ts[1..]);
    }
  }

  /** These elements and a closing bracket make up the text. */
  ghost predicate AreElementsOf(es: seq<Element>, text: string) {
    es != [] && AllJsonElements(es) && ElementsText(es) == text
  }

  /** What follows a string: white space, then a bracket, or a comma and elements. */
  ghost predicate IsTailOf(after: string, es: seq<Element>, text: string) {
    IsWhite(after) && AllJsonElements(es) && after + ElementsOrEnd(es) == text
  }

  lemma BlankBeforeElements(c: char, es: seq<Element>, text: string) returns (all: seq<Element>)
    requires IsWhite([c]) && AreElementsOf(es, text)
    ensures AreElementsOf(all, [c] + text)
  {
    var e := es[0].(before := [c] + es[0].before);
    assert IsJsonElement(es[0]) && es == [es[0]] + es[1..];
    WhiteInFront(c, es[0].before);
    all := [e] + es[1..];
    ElementsSplit(e, es[1..]);
    ElementsSplit(es[0], es[1..]);
    Regroup([c], es[0].before, Quoted(es[0].units) + es[0].after);
    Regroup([c], ElementText(es[0]), ElementsOrEnd(es[1..]));
  }

  lemma BlankBeforeTail(c: char, after: string, es: seq<Element>, text: string)
    requires IsWhite([c]) && IsTailOf(after, es, text)
    ensures IsTailOf([c] + after, es, [c] + text)
  {
    WhiteInFront(c, after);
    Regroup([c], after, ElementsOrEnd(es));
  }

  lemma StringBeforeTail(us: seq<Unit>, after: string, es: seq<Element>, text: string) returns (all: seq<Element>)
    requires AllPieces(us) && AllJsonPieces(us) && IsTailOf(after, es, text)
    ensures AreElementsOf(all, Quoted(us) + text)
  {
    var grouped := PiecesAreJson(us);
    var e := Element("", grouped, after);
    all := [e] + es;
    ElementsSplit(e, es);
    assert ElementText(e) == Quoted(us) + after;
    Regroup(Quoted(us), after, ElementsOrEnd(es));
  }

  /** Tokens from a string on are elements and a closing bracket. */
  lemma {:induction false} StringsAreJson(ts: seq<Token>) returns (es: seq<Element>)
    requires JsonTokens(ts) && Alternate(Solid(ts), true)
    ensures AreElementsOf(es, TokensText(ts))
    decreases |ts|
  {
    assert ts != [];
    TokenTakenOff(ts, true);
    if ts[0].Blank? {
      var more := StringsAreJson(ts[1..]);
      es := BlankBeforeElements(ts[0].c, more, TokensText(ts[1..]));
    } else {
      var after, more := TailIsJson(ts[1..]);
      es := StringBeforeTail(ts[0].units, after, more, TokensText(ts[1..]));
    }
  }

  /** Tokens after a string are white space and a bracket, or a comma and elements. */
  lemma {:induction false} TailIsJson(ts: seq<Token>) returns (after: string, es: seq<Element>)
    requires JsonTokens(ts) && Alternate(Solid(ts), false)
    ensures IsTailOf(after, es, TokensText(ts))
    decreases |ts|
  {
    after, es := "", [];
    if ts != [] {
      TokenTakenOff(ts, false);
      if ts[0].Blank? {
        after, es := TailIsJson(ts[1..]);
        BlankBeforeTail(ts[0].c, after, es, TokensText(ts[1..]));
        after := [ts[0].c] + after;
      } else {
        es := StringsAreJson(ts[1..]);
      }
    }
  }

  lemma {:induction false} BlanksAreJson(ts: seq<Token>) returns (blank: string)
    requires JsonTokens(ts) && Solid(ts) == []
    ensures IsWhite(blank) && blank + "]" == TokensText(ts)
  {
    blank := "";
    if ts != [] {
      assert ts[0].Blank? && IsJsonToken(ts[0]);
      JsonTokensAfter(ts);
      var more := BlanksAreJson(ts[1..]);
      blank := [ts[0].c] + more;
      WhiteInFront(ts[0].c, more);
      Regroup([ts[0].c], more, "]");
    }
  }

  lemma ListIsJson(ts: seq<Token>)
    requires AllTokens(ts) && IsJsonList(ts)
    ensures IsJsonInside(TokensText(ts))
  {
    if Solid(ts) == [] {
      var blank := BlanksAreJson(ts);
      assert InsideText([], blank) == TokensText(ts);
    } else {
      var es := StringsAreJson(ts);
      assert InsideText(es, "") == TokensText(ts);
    }
  }

  // -------------------------------------------------------------------------
  // No other list is
  // -------------------------------------------------------------------------

  lemma PiecesInFront(a: seq<Unit>, more: seq<Unit>)
    requires AllPieces(a) && AllPieces(more) && AllJsonPieces(more)
    requires forall k: nat | k < |a| :: IsJsonPiece(a, k)
    ensures AllPieces(a + more) && AllJsonPieces(a + more)
  {
    var all := a + more;
    forall k | 0 <= k < |all| ensures IsJsonPiece(all, k) {
      if k < |a| {
        assert IsJsonPiece(a, k);
        HexInLonger(a, more, k);
      } else {
        assert IsJsonPiece(more, k - |a|);
        HexBehind(a, more, k - |a|);
      }
    }
  }

  lemma HexInLonger(a: seq<Unit>, more: seq<Unit>, k: nat)
    requires k < |a|
    ensures HexAfter(a, k) ==> HexAfter(a + more, k)
  {
    if HexAfter(a, k) {
      forall j | k < j <= k + 4 ensures (a + more)[j].Plain? && IsHex((a + more)[j].c) {
        assert (a + more)[j] == a[j];
      }
    }
  }

  lemma HexBehind(a: seq<Unit>, more: seq<Unit>, k: nat)
    requires k < |more|
    ensures HexAfter(more, k) ==> HexAfter(a + more, |a| + k)
  {
    if HexAfter(more, k) {
      forall j | |a| + k < j <= |a| + k + 4 ensures (a + more)[j].Plain? && IsHex((a + more)[j].c) {
        var there := j - |a|;
        assert (a + more)[j] == more[there];
      }
    }
  }

  /** The pieces of one unit of a JSON string. */
  lemma UnitHasPieces(u: Unit) returns (ps: seq<Unit>)
    requires IsJsonUnit(u)
    ensures AllPieces(ps) && AllJsonPieces(ps) && Text(ps) == UnitText(u)
  {
    match u
    case Code(digits) =>
      var plain := seq(4, k requires 0 <= k < 4 => Plain(digits[k]));
      ps := [Escape('u')] + plain;
      PlainText(plain);
      assert Chars(plain) == digits;
      OneText(Escape('u'));
      TextTwice([Escape('u')], plain);
      forall k | 0 <= k < |plain| ensures IsHex(plain[k].c) {
        assert plain[k].c == digits[k];
      }
    case _ =>
      ps := [u];
      OneText(u);
  }

  lemma {:induction false} UnitsHavePieces(us: seq<Unit>) returns (ps: seq<Unit>)
    requires AllJsonUnits(us)
    ensures AllPieces(ps) && AllJsonPieces(ps) && Text(ps) == Text(us)
    decreases |us|
  {
    ps := [];
    if us != [] {
      var first := UnitHasPieces(us[0]);
      var more := UnitsHavePieces(us[1..]);
      PiecesInFront(first, more);
      TextTwice(first, more);
      ps := first + more;
    }
  }

  /** Tokens as JSON has them, in turn, that make up the text. */
  ghost predicate AreTokensOf(ts: seq<Token>, first: bool, text: string) {
    JsonTokens(ts) && Alternate(Solid(ts), first) && TokensText(ts) == text
  }

  lemma JsonTokenInFront(t: Token, ts: seq<Token>, first: bool, text: string)
    requires IsToken(t) && IsJsonToken(t) && AreTokensOf(ts, if t.Blank? then first else t.Comma?, text)
    ensures AreTokensOf([t] + ts, if t.Blank? then first else t.Str?, TokenText(t) + text)
  {
    var all := [t] + ts;
    assert all[1..] == ts;
    if t.Blank? {
      assert Solid(all) == Solid(ts);
    } else {
      assert Solid(all)[1..] == Solid(ts);
    }
  }

  lemma BlankTokenInFront(c: char, ts: seq<Token>, first: bool, text: string)
    requires IsSpace(c) && IsWhite([c]) && AreTokensOf(ts, first, text)
    ensures AreTokensOf([Blank(c)] + ts, first, [c] + text) && Solid([Blank(c)] + ts) == Solid(ts)
  {
    JsonTokenInFront(Blank(c), ts, first, text);
    assert ([Blank(c)] + ts)[1..] == ts;
  }

  lemma WhiteTakenOff(white: string)
    requires IsWhite(white) && white != ""
    ensures IsSpace(white[0]) && IsWhite([white[0]]) && IsWhite(white[1..]) && white == [white[0]] + white[1..]
  {
  }

  lemma {:induction false} WhiteHasTokens(white: string, ts: seq<Token>, first: bool, text: string) returns (all: seq<Token>)
    requires IsWhite(white) && AreTokensOf(ts, first, text)
    ensures AreTokensOf(all, first, white + text) && Solid(all) == Solid(ts)
    decreases |white|
  {
    all := ts;
    if white == "" {
      assert "" + text == text;
    } else {
      WhiteTakenOff(white);
      var c, rest := white[0], white[1..];
      var more := WhiteHasTokens(rest, ts, first, text);
      BlankTokenInFront(c, more, first, rest + text);
      Regroup([c], rest, text);
      all := [Blank(c)] + more;
    }
  }

  lemma ElementHasTokens(e: Element, ts: seq<Token>, text: string) returns (all: seq<Token>)
    requires IsJsonElement(e) && AreTokensOf(ts, false, text)
    ensures AreTokensOf(all, true, ElementText(e) + text)
  {
    var pieces := UnitsHavePieces(e.units);
    var tail := WhiteHasTokens(e.after, ts, false, text);
    JsonTokenInFront(Str(pieces), tail, false, e.after + text);
    all := WhiteHasTokens(e.before, [Str(pieces)] + tail, true, Quoted(e.units) + (e.after + text));
    Regroup(Quoted(e.units), e.after, text);
    Regroup(e.before, Quoted(e.units) + e.after, text);
  }

  lemma EndHasTokens()
    ensures AreTokensOf([], false, "]")
  {
  }

  lemma {:induction false} ElementsHaveTokens(es: seq<Element>) returns (ts: seq<Token>)
    requires es != [] && AllJsonElements(es)
    ensures AreTokensOf(ts, true, ElementsText(es))
    decreases |es|
  {
    EndHasTokens();
    var tail: seq<Token> := [];
    if |es| > 1 {
      var more := ElementsHaveTokens(es[1..]);
      JsonTokenInFront(Comma, more, true, ElementsText(es[1..]));
      tail := [Comma] + more;
    }
    assert es == [es[0]] + es[1..];
    ElementsSplit(es[0], es[1..]);
    ts := ElementHasTokens(es[0], tail, ElementsOrEnd(es[1..]));
  }

  /** Every JSON array of strings has a list of tokens that says so. */
  lemma JsonHasTokens(es: seq<Element>, blank: string) returns (ts: seq<Token>)
    requires AllJsonElements(es) && IsWhite(blank)
    ensures AllTokens(ts) && IsJsonList(ts) && TokensText(ts) == InsideText(es, blank)
  {
    if es == [] {
      EndHasTokens();
      ts := WhiteHasTokens(blank, [], false, "]");
    } else {
      ts := ElementsHaveTokens(es);
    }
  }

  lemma SameUnit(u: Unit, x: string, v: Unit, y: string)
    requires IsPiece(u) && IsPiece(v) && UnitText(u) + x == UnitText(v) + y
    ensures u == v && x == y
  {
    var s, t := UnitText(u) + x, UnitText(v) + y;
    assert s[0] == t[0] && (s[0] == '\\' <==> u.Escape?) && (t[0] == '\\' <==> v.Escape?);
    if u.Escape? {
      assert s[1] == u.c && t[1] == v.c;
    }
    var n := |UnitText(u)|;
    assert s[n..] == x && t[n..] == y;
  }

  lemma FirstPiece(a: seq<Unit>, x: string)
    requires AllPieces(a) && a != []
    ensures IsPiece(a[0]) && AllPieces(a[1..]) && Text(a) + x == UnitText(a[0]) + (Text(a[1..]) + x)
    ensures (Text(a) + x)[0] != '"'
  {
    Regroup(UnitText(a[0]), Text(a[1..]), x);
  }

  /** A string's text ends at the first quote that no backslash takes. */
  lemma {:induction false} SamePieces(a: seq<Unit>, x: string, b: seq<Unit>, y: string)
    requires AllPieces(a) && AllPieces(b) && x != "" && x[0] == '"' && y != "" && y[0] == '"'
    requires Text(a) + x == Text(b) + y
    ensures a == b && x == y
    decreases |a|
  {
    if a != [] {
      FirstPiece(a, x);
    }
    if b != [] {
      FirstPiece(b, y);
    }
    if a != [] && b != [] {
      SameUnit(a[0], Text(a[1..]) + x, b[0], Text(b[1..]) + y);
      SamePieces(a[1..], x, b[1..], y);
      assert a == [a[0]] + a[1..] && b == [b[0]] + b[1..];
    } else {
      assert Text([]) + x == x && Text([]) + y == y;
    }
  }

  /** What follows the opening quote. */
  lemma QuotedFirst(us: seq<Unit>, x: string)
    ensures Quoted(us) + x == "\"" + (Text(us) + ("\"" + x))
  {
    Regroup("\"", Text(us) + "\"", x);
    Regroup(Text(us), "\"", x);
  }

  lemma SameStrings(us: seq<Unit>, x: string, vs: seq<Unit>, y: string)
    requires AllPieces(us) && AllPieces(vs) && Quoted(us) + x == Quoted(vs) + y
    ensures us == vs && x == y
  {
    QuotedFirst(us, x);
    QuotedFirst(vs, y);
    var s, t := Text(us) + ("\"" + x), Text(vs) + ("\"" + y);
    assert ("\"" + s)[1..] == s && ("\"" + t)[1..] == t;
    SamePieces(us, "\"" + x, vs, "\"" + y);
    assert ("\"" + x)[1..] == x && ("\"" + y)[1..] == y;
  }

  /** The kind of a token shows in its first character. */
  lemma TokenStarts(t: Token, x: string)
    requires IsToken(t)
    ensures var c := (TokenText(t) + x)[0];
            && c != ']' && (c == '"' <==> t.Str?) && (c == ',' <==> t.Comma?) && (t.Blank? ==> t.c == c)
  {
  }

  lemma SameToken(t: Token, x: string, u: Token, y: string)
    requires IsToken(t) && IsToken(u) && TokenText(t) + x == TokenText(u) + y
    ensures t == u && x == y
  {
    TokenStarts(t, x);
    TokenStarts(u, y);
    if t.Str? {
      SameStrings(t.units, x, u.units, y);
    } else {
      assert (TokenText(t) + x)[1..] == x && (TokenText(u) + y)[1..] == y;
    }
  }

  /** A text has one list of tokens. */
  lemma {:induction false} SameTokens(a: seq<Token>, b: seq<Token>)
    requires AllTokens(a) && AllTokens(b) && TokensText(a) == TokensText(b)
    ensures a == b
    decreases |a|
  {
    if a != [] {
      TokenStarts(a[0], TokensText(a[1..]));
    }
    if b != [] {
      TokenStarts(b[0], TokensText(b[1..]));
    }
    if a != [] && b != [] {
      SameToken(a[0], TokensText(a[1..]), b[0], TokensText(b[1..]));
      SameTokens(a[1..], b[1..]);
      assert a == [a[0]] + a[1..] && b == [b[0]] + b[1..];
    }
  }

  /** What is accepted is JSON exactly when the tokens are as in JSON. */
  lemma AcceptedIsJson(ts: seq<Token>)
    requires AllTokens(ts)
    ensures IsJsonInside(TokensText(ts)) <==> IsJsonList(ts)
  {
    if IsJsonInside(TokensText(ts)) {
      var es, blank :| AllJsonElements(es) && IsWhite(blank) && InsideText(es, blank) == TokensText(ts);
      var us := JsonHasTokens(es, blank);
      SameTokens(ts, us);
    }
    if IsJsonList(ts) {
      ListIsJson(ts);
    }
  }

  // -------------------------------------------------------------------------
  // One text that is accepted and is not JSON
  // -------------------------------------------------------------------------

  const LOOSE: seq<Token> := [Comma, Str([Plain('a')]), Str([Plain('b')]), Comma, Comma]

  lemma LooseText()
    ensures TokensText(LOOSE) == ",\"a\"\"b\",,]" && TokenValues(LOOSE) == ["a", "b"]
  {
    OneText(Plain('a'));
    OneText(Plain('b'));
    var a, b := [Plain('a')], [Plain('b')];
    assert Quoted(a) == "\"a\"" && Quoted(b) == "\"b\"";
    assert Read(a) == "a" && Read(b) == "b";
    assert LOOSE[1..] == [Str(a), Str(b), Comma, Comma];
    assert LOOSE[1..][1..] == [Str(b), Comma, Comma];
    assert LOOSE[1..][1..][1..] == [Comma, Comma];
    assert TokensText([Comma, Comma]) == ",,]" by {
      assert [Comma, Comma][1..] == [Comma] && [Comma][1..] == [];
    }
    assert TokenValues([Comma, Comma]) == [] by {
      assert [Comma, Comma][1..] == [Comma] && [Comma][1..] == [];
    }
  }

  /** Commas stand before, after and not between two strings. */
  lemma CommasAreLoose()
    ensures ReadArray("[,\"a\"\"b\",,]", 0) == Reading(true, 11, ["a", "b"])
    ensures !IsJsonInside(",\"a\"\"b\",,]")
  {
    LooseText();
    var json := "[,\"a\"\"b\",,]";
    assert json == "[" + TokensText(LOOSE);
    assert StandsAt(json, 0, json);
    StandsSplit(json, 0, "[", TokensText(LOOSE));
    assert "" + "[" == "[";
    TokensAreRead(json, 0, "", LOOSE);
    AcceptedIsJson(LOOSE);
    assert Solid(LOOSE)[0] == Comma;
  }
}
