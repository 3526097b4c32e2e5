// Names of instrumented kernels: what the runtime looks up (src/utils.cc) and what the
// compiler pass creates (src/instrumentation/InstrumentationCommon.cpp).
module KernelNames {
  import opened Wrappers

  const PREFIX: string := "__amd_crk_"
  const SUFFIX: string := "Pv"
  const EXTRA_ARGUMENT: string := ", void*)"

  /** The name that cloneKernelWithExtraArg gives a clone. */
  function CloneName(name: string): string {
    PREFIX + name + SUFFIX
  }

  /** find_first_of for one character from position i on; the length when there is none. */
  function FirstFrom(s: string, c: char, i: nat): (r: nat)
    requires i <= |s|
    ensures i <= r <= |s| && (r < |s| ==> s[r] == c)
    ensures forall k | i <= k < r :: s[k] != c
    decreases |s| - i
  {
    if i == |s| || s[i] == c then i else FirstFrom(s, c, i + 1)
  }

  function First(s: string, c: char): nat {
    FirstFrom(s, c, 0)
  }

  /** find_last_of for one character among the first n. */
  function LastBelow(s: string, c: char, n: nat): (r: Option<nat>)
    requires n <= |s|
    ensures r.None? ==> forall k | 0 <= k < n :: s[k] != c
    ensures r.Some? ==> r.value < n && s[r.value] == c && forall k | r.value < k < n :: s[k] != c
  {
    if n == 0 then None
    else if s[n - 1] == c then Some(n - 1)
    else LastBelow(s, c, n - 1)
  }

  function Last(s: string, c: char): Option<nat> {
    LastBelow(s, c, |s|)
  }

  predicate Has(s: string, c: char) {
    Last(s, c).Some?
  }

  predicate DotKdAt(s: string, i: nat) {
    i + 3 <= |s| && s[i] == '.' && s[i + 1] == 'k' && s[i + 2] == 'd'
  }

  /** rfind for ".kd" at or before position `from`. */
  function LastDotKd(s: string, from: nat): (i: Option<nat>)
    ensures i.Some? ==> i.value <= from && DotKdAt(s, i.value)
    ensures i.Some? ==> forall j: nat | i.value < j <= from :: !DotKdAt(s, j)
    ensures i.None? ==> forall j: nat | j <= from :: !DotKdAt(s, j)
    decreases from
  {
    if DotKdAt(s, from) then Some(from)
    else if from == 0 then None
    else LastDotKd(s, from - 1)
  }

  function Inserted(s: string, at: nat, t: string): string
    requires at <= |s|
  {
    s[..at] + t + s[at..]
  }

  /** Where the prefix goes: after the first blank when that stands before any parenthesis, else in front. */
  function PrefixPosition(s: string): (p: nat)
    ensures p <= |s|
  {
    var blank, paren := First(s, ' '), First(s, '(');
    if blank > paren || blank == |s| then 0 else blank + 1
  }

  /** The last closing parenthesis makes room for one more argument. */
  function WithArgument(name: string): string
    requires Has(name, ')')
  {
    var close := Last(name, ')').value;
    name[..close] + EXTRA_ARGUMENT + name[close + 1..]
  }

  function WithPrefix(s: string): string {
    Inserted(s, PrefixPosition(s), PREFIX)
  }

  /** "Pv" goes before the last ".kd", else to the end. */
  function WithSuffix(name: string): string {
    match LastDotKd(name, |name|)
    case Some(dot) => Inserted(name, dot, SUFFIX)
    case None => name + SUFFIX
  }

  function InstrumentedName(name: string): string {
    if Has(name, ')') then WithPrefix(WithArgument(name)) else PREFIX + WithSuffix(name)
  }

  /** The edits of getInstrumentedName on its local string. */
  method GetInstrumentedName(name: string) returns (result: string)
    ensures result == InstrumentedName(name)
  {
    result := name;
    var pos := Last(result, ')');
    if pos.Some? {
      result := result[..pos.value] + EXTRA_ARGUMENT + result[pos.value + 1..];
      assert result == WithArgument(name);
      var blank := First(result, ' ');
      var paren := First(result, '(');
      if blank > paren || blank == |result| {
        result := Inserted(result, 0, PREFIX);
      } else {
        result := Inserted(result, blank + 1, PREFIX);
      }
    } else {
      var dot := LastDotKd(result, |result|);
      if dot.Some? {
        result := Inserted(result, dot.value, SUFFIX);
      } else {
        result := result + SUFFIX;
      }
      assert result == WithSuffix(name);
      result := PREFIX + result;
    }
  }

  function WithoutPrefix(r: string): string {
    var p := PrefixPosition(r);
    if p + |PREFIX| > |r| then r else r[..p] + r[p + |PREFIX|..]
  }

  function WithoutArgument(s: string): string {
    var close := Last(s, ')');
    if close.None? || close.value + 1 < |EXTRA_ARGUMENT| then s
    else s[..close.value + 1 - |EXTRA_ARGUMENT|] + ")" + s[close.value + 1..]
  }

  function WithoutSuffix(s: string): string {
    match LastDotKd(s, |s|)
    case Some(dot) => if dot < |SUFFIX| then s else s[..dot - |SUFFIX|] + s[dot..]
    case None => if |s| < |SUFFIX| then s else s[..|s| - |SUFFIX|]
  }

  /** Recovers a name from its instrumented form. */
  function OriginalName(r: string): string {
    if Has(r, ')') then WithoutArgument(WithoutPrefix(r))
    else if |r| < |PREFIX| then r
    else WithoutSuffix(r[|PREFIX|..])
  }

  // -------------------------------------------------------------------------
  // The left inverse
  // -------------------------------------------------------------------------

  lemma FirstIsUnique(s: string, c: char, i: nat)
    requires i < |s| && s[i] == c && forall k | 0 <= k < i :: s[k] != c
    ensures First(s, c) == i
  {
  }

  lemma LastIsUnique(s: string, c: char, i: nat)
    requires i < |s| && s[i] == c && forall k | i < k < |s| :: s[k] != c
    ensures Last(s, c) == Some(i)
  {
  }

  lemma LastDotKdIsUnique(s: string, i: nat)
    requires DotKdAt(s, i) && forall j: nat | i < j :: !DotKdAt(s, j)
    ensures LastDotKd(s, |s|) == Some(i)
  {
  }

  lemma FirstAfter(t: string, s: string, c: char)
    requires forall k | 0 <= k < |t| :: t[k] != c
    ensures First(t + s, c) == |t| + First(s, c)
  {
    var i := First(s, c);
    if i < |s| {
      FirstIsUnique(t + s, c, |t| + i);
    }
  }

  lemma StableInFront(s: string)
    requires Has(s, ' ') && PrefixPosition(s) == 0
    ensures PrefixPosition(PREFIX + s) == 0
  {
    FirstAfter(PREFIX, s, ' ');
    FirstAfter(PREFIX, s, '(');
  }

  lemma StableAfterBlank(s: string, r: string, blank: nat)
    requires blank == First(s, ' ') < |s| && blank < First(s, '(')
    requires |r| > blank && forall k | 0 <= k <= blank :: r[k] == s[k]
    ensures PrefixPosition(r) == blank + 1
  {
    FirstIsUnique(r, ' ', blank);
    assert forall k | 0 <= k <= blank :: s[k] != '(';
  }

  /** Inserting the prefix does not move its position: it has neither blanks nor parentheses. */
  lemma PrefixPositionIsStable(s: string)
    requires Has(s, ' ')
    ensures PrefixPosition(WithPrefix(s)) == PrefixPosition(s)
  {
    var p := PrefixPosition(s);
    if p == 0 {
      StableInFront(s);
      assert WithPrefix(s) == PREFIX + s;
    } else {
      InsertedChars(s, p, PREFIX);
      StableAfterBlank(s, WithPrefix(s), p - 1);
    }
  }

  lemma InsertedChars(s: string, p: nat, t: string)
    requires p <= |s|
    ensures var r := Inserted(s, p, t);
            && |r| == |s| + |t|
            && (forall k | 0 <= k < p :: r[k] == s[k])
            && (forall k | 0 <= k < |t| :: r[p + k] == t[k])
            && (forall k | p <= k < |s| :: r[k + |t|] == s[k])
            && (forall k | p + |t| <= k < |r| :: r[k] == s[k - |t|])
  {
  }

  lemma InsertedRemoved(s: string, p: nat, t: string)
    requires p <= |s|
    ensures var r := Inserted(s, p, t); p + |t| <= |r| && r[..p] + r[p + |t|..] == s
  {
    var r := Inserted(s, p, t);
    assert r[..p] == s[..p] && r[p + |t|..] == s[p..];
  }

  lemma InsertionUndone(s: string, p: nat, t: string, c: char)
    requires p <= |s| && Has(s, c)
    ensures var r := Inserted(s, p, t);
            r[..p] + r[p + |t|..] == s && Has(r, c) && p + |t| <= |r|
  {
    var r := Inserted(s, p, t);
    InsertedRemoved(s, p, t);
    InsertedChars(s, p, t);
    var k := Last(s, c).value;
    assert c == if k < p then r[k] else r[k + |t|];
  }

  lemma PrefixUndone(s: string)
    requires Has(s, ')') && Has(s, ' ')
    ensures Has(WithPrefix(s), ')') && WithoutPrefix(WithPrefix(s)) == s
  {
    PrefixPositionIsStable(s);
    InsertionUndone(s, PrefixPosition(s), PREFIX, ')');
  }

  lemma ArgumentUndone(name: string)
    requires Has(name, ')')
    ensures var s := WithArgument(name); Has(s, ')') && Has(s, ' ') && WithoutArgument(s) == name
  {
    var close := Last(name, ')').value;
    var s, last := WithArgument(name), close + |EXTRA_ARGUMENT| - 1;
    assert s[last] == ')' && s[last + 1..] == name[close + 1..] && s[close + 1] == ' ';
    LastIsUnique(s, ')', last);
    assert s[..close] == name[..close];
    assert name == name[..close] + [name[close]] + name[close + 1..];
  }

  lemma SuffixMovesDots(name: string, dot: nat, j: nat)
    requires dot <= |name| && dot + |SUFFIX| <= j
    ensures DotKdAt(Inserted(name, dot, SUFFIX), j) <==> DotKdAt(name, j - |SUFFIX|)
  {
    InsertedChars(name, dot, SUFFIX);
  }

  lemma LastDotAfterSuffix(name: string, dot: nat)
    requires LastDotKd(name, |name|) == Some(dot)
    ensures var s := Inserted(name, dot, SUFFIX); LastDotKd(s, |s|) == Some(dot + |SUFFIX|)
  {
    var s := Inserted(name, dot, SUFFIX);
    forall j: nat | dot + |SUFFIX| <= j ensures DotKdAt(s, j) <==> j == dot + |SUFFIX| {
      SuffixMovesDots(name, dot, j);
      assert j - |SUFFIX| > |name| ==> !DotKdAt(name, j - |SUFFIX|);
    }
    LastDotKdIsUnique(s, dot + |SUFFIX|);
  }

  lemma SuffixAtDotUndone(name: string, dot: nat)
    requires LastDotKd(name, |name|) == Some(dot)
    ensures WithoutSuffix(WithSuffix(name)) == name
  {
    LastDotAfterSuffix(name, dot);
    InsertedRemoved(name, dot, SUFFIX);
  }

  lemma SuffixUndone(name: string)
    ensures WithoutSuffix(WithSuffix(name)) == name
  {
    match LastDotKd(name, |name|) {
      case Some(dot) => SuffixAtDotUndone(name, dot);
      case None =>
        forall j: nat ensures !DotKdAt(name + SUFFIX, j) {
          assert j <= |name| ==> !DotKdAt(name, j);
        }
    }
  }

  lemma HasInEither(a: string, b: string, c: char)
    ensures Has(a + b, c) <==> Has(a, c) || Has(b, c)
  {
    var r := a + b;
    if Has(a, c) {
      assert r[Last(a, c).value] == c;
    } else if Has(b, c) {
      assert r[|a| + Last(b, c).value] == c;
    } else {
      assert forall k | 0 <= k < |r| :: r[k] == if k < |a| then a[k] else b[k - |a|];
    }
  }

  lemma NoParenWithoutParens(name: string)
    requires !Has(name, ')')
    ensures !Has(InstrumentedName(name), ')')
  {
    assert !Has(PREFIX, ')') && !Has(SUFFIX, ')');
    match LastDotKd(name, |name|) {
      case Some(dot) =>
        assert name == name[..dot] + name[dot..];
        HasInEither(name[..dot], name[dot..], ')');
        HasInEither(name[..dot], SUFFIX, ')');
        HasInEither(name[..dot] + SUFFIX, name[dot..], ')');
      case None =>
        HasInEither(name, SUFFIX, ')');
    }
    HasInEither(PREFIX, WithSuffix(name), ')');
  }

  /** Every name can be recovered from its instrumented form. */
  lemma OriginalNameInverts(name: string)
    ensures OriginalName(InstrumentedName(name)) == name
  {
    if Has(name, ')') {
      ArgumentUndone(name);
      PrefixUndone(WithArgument(name));
    } else {
      NoParenWithoutParens(name);
      SuffixUndone(name);
      assert InstrumentedName(name)[|PREFIX|..] == WithSuffix(name);
    }
  }

  /** Different kernels never get the same instrumented name. */
  lemma InstrumentedNameIsInjective(a: string, b: string)
    requires InstrumentedName(a) == InstrumentedName(b)
    ensures a == b
  {
    OriginalNameInverts(a);
    OriginalNameInverts(b);
  }

  /** The runtime looks up the compiler's clone name exactly for names without `)` and `.kd`. */
  lemma MatchesCloneName(name: string)
    ensures InstrumentedName(name) == CloneName(name) <==>
              !Has(name, ')') && forall i: nat :: !DotKdAt(name, i)
  {
    var r, c := InstrumentedName(name), CloneName(name);
    if Has(name, ')') {
      assert |r| == |name| - 1 + |EXTRA_ARGUMENT| + |PREFIX| && |c| == |name| + |PREFIX| + |SUFFIX|;
    } else {
      match LastDotKd(name, |name|) {
        case Some(dot) => assert r[|PREFIX| + dot] == 'P' && c[|PREFIX| + dot] == '.';
        case None => assert PREFIX + (name + SUFFIX) == c;
      }
    }
  }

  /** A kernel without arguments whose clone is not found: the argument list and the suffix differ. */
  lemma NamesCanDiffer()
    ensures InstrumentedName("f()") == "__amd_crk_f(, void*)" && CloneName("f()") == "__amd_crk_f()Pv"
  {
    assert Last("f()", ')') == Some(2);
    assert "f()"[..2] == "f(" && "f()"[3..] == "";
    var s := "f(, void*)";
    assert WithArgument("f()") == s;
    assert First(s, ' ') > First(s, '(') by {
      assert s[1] == '(' && s[0] != ' ' && s[1] != ' ';
    }
    assert WithPrefix(s) == PREFIX + s;
  }

  lemma InstrumentedIsLonger(name: string)
    ensures |InstrumentedName(name)| > |name|
  {
  }

  /** Without a closing parenthesis the suffix goes right before the last `.kd`, and the prefix to the front. */
  lemma SuffixBeforeDotKd(name: string, rest: string)
    requires !Has(name, ')') && !Has(rest, ')') && forall i: nat | i > 0 :: !DotKdAt(".kd" + rest, i)
    ensures InstrumentedName(name + ".kd" + rest) == "__amd_crk_" + name + "Pv" + ".kd" + rest
  {
    var s, dot := name + ".kd" + rest, |name|;
    assert !Has(".kd", ')');
    HasInEither(name, ".kd", ')');
    HasInEither(name + ".kd", rest, ')');
    forall j: nat | dot < j ensures !DotKdAt(s, j) {
      assert s[dot..] == ".kd" + rest;
      assert DotKdAt(s, j) <==> DotKdAt(".kd" + rest, j - dot);
    }
    LastDotKdIsUnique(s, dot);
    assert s[..dot] == name && s[dot..] == ".kd" + rest;
    assert PREFIX + (name + SUFFIX + (".kd" + rest)) == "__amd_crk_" + name + "Pv" + ".kd" + rest;
  }

  /** So the descriptor of a kernel becomes that of its clone. */
  lemma DescriptorNameIsClones(name: string)
    requires !Has(name, ')')
    ensures InstrumentedName(name + ".kd") == CloneName(name) + ".kd"
  {
    SuffixBeforeDotKd(name, "");
    assert name + ".kd" + "" == name + ".kd";
    assert "__amd_crk_" + name + "Pv" + ".kd" + "" == CloneName(name) + ".kd";
  }

  /** A last closing parenthesis makes room for one more argument. */
  lemma ArgumentAppended(front: string, rest: string)
    requires !Has(rest, ')')
    ensures Has(front + ")" + rest, ')') && WithArgument(front + ")" + rest) == front + ", void*)" + rest
  {
    var s := front + ")" + rest;
    assert s[|front|] == ')' && s[|front| + 1..] == rest && s[..|front|] == front;
    LastIsUnique(s, ')', |front|);
  }

  lemma FrontRegrouped(front: string, rest: string)
    ensures Inserted(front + ", void*)" + rest, 0, PREFIX) == "__amd_crk_" + front + ", void*)" + rest
  {
  }

  lemma PositionInFront(s: string, paren: nat, n: nat)
    requires paren < n <= |s| && s[paren] == '(' && forall k | 0 <= k < n :: s[k] != ' '
    ensures PrefixPosition(s) == 0
  {
  }

  /** Without a blank before the first parenthesis, the prefix goes to the front. */
  lemma PrefixInFront(front: string, rest: string)
    requires !Has(rest, ')') && !Has(front, ' ') && Has(front, '(')
    ensures InstrumentedName(front + ")" + rest) == "__amd_crk_" + front + ", void*)" + rest
  {
    ArgumentAppended(front, rest);
    var s := front + ", void*)" + rest;
    var paren := Last(front, '(').value;
    forall k | 0 <= k < |front| ensures s[k] != ' ' {
      assert s[k] == front[k];
    }
    PositionInFront(s, paren, |front|);
    FrontRegrouped(front, rest);
  }

  /** After a return type, the prefix goes before the name. */
  lemma PrefixAfterType(returnType: string, front: string, rest: string)
    requires !Has(rest, ')') && !Has(returnType, ' ') && !Has(returnType, '(')
    ensures InstrumentedName(returnType + " " + front + ")" + rest) ==
            returnType + " " + "__amd_crk_" + front + ", void*)" + rest
  {
    var before, s := returnType + " ", returnType + " " + front + ", void*)" + rest;
    ArgumentAppended(returnType + " " + front, rest);
    assert s[|returnType|] == ' ';
    FirstIsUnique(s, ' ', |returnType|);
    assert forall k | 0 <= k <= |returnType| :: s[k] != '(';
    assert s[..|before|] == before && s[|before|..] == front + ", void*)" + rest;
  }
}
