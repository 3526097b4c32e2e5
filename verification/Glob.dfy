// The patterns of the library filter (src/library_filter.cc): globs are compiled to regular
// expressions. What those match is stated here after sections 15.10.1 and 15.10.2 of
// ECMA-262 5.1, for the fragment that the compiler writes.
module Glob {
  import opened Wrappers

  // -------------------------------------------------------------------------
  // Globs
  // -------------------------------------------------------------------------

  predicate IsLineTerminator(c: char) {
    c == '\n' || c == '\r' || c == '\U{2028}' || c == '\U{2029}'
  }

  /**
   * `**` matches any text, `*` any without '/', '?' one character other than '/', and every
   * other character itself. With `withinLines`, `**` does not match line terminators.
   */
  predicate GlobMatches(pattern: string, path: string, withinLines: bool)
    decreases |pattern| + |path|
  {
    if pattern == "" then path == ""
    else if pattern[0] == '*' && |pattern| > 1 && pattern[1] == '*' then
      || GlobMatches(pattern[2..], path, withinLines)
      || (path != "" && !(withinLines && IsLineTerminator(path[0])) && GlobMatches(pattern, path[1..], withinLines))
    else if pattern[0] == '*' then
      || GlobMatches(pattern[1..], path, withinLines)
      || (path != "" && path[0] != '/' && GlobMatches(pattern, path[1..], withinLines))
    else
      && path != "" && (if pattern[0] == '?' then path[0] != '/' else path[0] == pattern[0])
      && GlobMatches(pattern[1..], path[1..], withinLines)
  }

  // -------------------------------------------------------------------------
  // Regular expressions
  // -------------------------------------------------------------------------

  datatype Atom = Dot | NotSlash | Literal(c: char)

  datatype Term = One(atom: Atom) | Many(atom: Atom)

  predicate IsSyntax(c: char) {
    c in "^$\\.*+?()[]{}|"
  }

  /** The atom at the start of a regular expression, and how long it is. */
  function ParseAtom(s: string): Option<(Atom, nat)> {
    if s == "" then None
    else if s[0] == '.' then Some((Dot, 1))
    else if |s| >= 4 && s[0] == '[' && s[1] == '^' && s[2] == '/' && s[3] == ']' then Some((NotSlash, 4))
    else if |s| >= 2 && s[0] == '\\' && IsSyntax(s[1]) then Some((Literal(s[1]), 2))
    else if !IsSyntax(s[0]) then Some((Literal(s[0]), 1))
    else None
  }

  lemma AtomFits(s: string)
    ensures ParseAtom(s).Some? ==> 0 < ParseAtom(s).value.1 <= |s|
  {
  }

  /** A sequence of atoms, each on its own or with a star; None is outside the fragment. */
  function ParseRegex(s: string): Option<seq<Term>>
    decreases |s|
  {
    if s == "" then Some([])
    else if ParseAtom(s).None? then None
    else
      AtomFits(s);
      var (atom, n) := ParseAtom(s).value;
      var starred := n < |s| && s[n] == '*';
      var rest := ParseRegex(if starred then s[n + 1..] else s[n..]);
      if rest.Some? then Some([if starred then Many(atom) else One(atom)] + rest.value) else None
  }

  predicate Accepts(atom: Atom, c: char) {
    match atom
    case Dot => !IsLineTerminator(c)
    case NotSlash => c != '/'
    case Literal(l) => c == l
  }

  predicate AllAccepted(atom: Atom, s: string) {
    forall k | 0 <= k < |s| :: Accepts(atom, s[k])
  }

  /** A full match: a starred atom takes any number of characters that it accepts. */
  predicate TermsMatch(terms: seq<Term>, s: string) {
    if terms == [] then s == ""
    else match terms[0]
      case One(atom) => s != "" && Accepts(atom, s[0]) && TermsMatch(terms[1..], s[1..])
      case Many(atom) => exists k :: 0 <= k <= |s| && AllAccepted(atom, s[..k]) && TermsMatch(terms[1..], s[k..])
  }

  /** What regex_match answers. */
  predicate RegexMatches(regex: string, path: string) {
    ParseRegex(regex).Some? && TermsMatch(ParseRegex(regex).value, path)
  }

  // -------------------------------------------------------------------------
  // The compiler
  // -------------------------------------------------------------------------

  predicate IsEscaped(c: char) {
    c in ".+^$()[]{}|\\"
  }

  function Compile(pattern: string): string
    decreases |pattern|
  {
    if pattern == "" then ""
    else if pattern[0] == '*' && |pattern| > 1 && pattern[1] == '*' then ".*" + Compile(pattern[2..])
    else if pattern[0] == '*' then "[^/]*" + Compile(pattern[1..])
    else if pattern[0] == '?' then "[^/]" + Compile(pattern[1..])
    else if IsEscaped(pattern[0]) then ['\\', pattern[0]] + Compile(pattern[1..])
    else [pattern[0]] + Compile(pattern[1..])
  }

  method GlobToRegex(pattern: string) returns (regex: string)
    ensures regex == Compile(pattern)
  {
    regex := "";
    var i := 0;
    while i < |pattern|
      invariant 0 <= i <= |pattern|
      invariant Compile(pattern) == regex + Compile(pattern[i..])
    {
      var c := pattern[i];
      ghost var rest := pattern[i..];
      assert rest[1..] == pattern[i + 1..];
      ghost var before := regex;
      if c == '*' {
        if i + 1 < |pattern| && pattern[i + 1] == '*' {
          assert rest[2..] == pattern[i + 2..];
          regex := regex + ".*";
          i := i + 1;
        } else {
          regex := regex + "[^/]*";
        }
      } else if c == '?' {
        regex := regex + "[^/]";
      } else if IsEscaped(c) {
        regex := regex + ['\\', c];
      } else {
        regex := regex + [c];
      }
      i := i + 1;
      Associative(before, regex[|before|..], Compile(pattern[i..]));
      assert regex == before + regex[|before|..];
    }
  }

  lemma Associative(a: string, b: string, c: string)
    ensures (a + b) + c == a + (b + c)
  {
  }

  // -------------------------------------------------------------------------
  // The filter
  // -------------------------------------------------------------------------

  function Compiled(patterns: seq<string>): (regexes: seq<string>)
    ensures |regexes| == |patterns|
  {
    seq(|patterns|, k requires 0 <= k < |patterns| => Compile(patterns[k]))
  }

  class LibraryFilter {
    var active: bool
    var excludeRegexes: seq<string>

    constructor ()
      ensures !active && excludeRegexes == []
    {
      active, excludeRegexes := false, [];
    }

    /** The last part of loadConfig. A pattern whose expression is not well formed would end it. */
    method SetExcludes(patterns: seq<string>) returns (ok: bool)
      modifies this
      ensures ok && active
      ensures excludeRegexes == old(excludeRegexes) + Compiled(patterns)
    {
      for i := 0 to |patterns|
        invariant excludeRegexes == old(excludeRegexes) + Compiled(patterns[..i])
      {
        var regex := GlobToRegex(patterns[i]);
        CompiledIsWellFormed(patterns[i]);
        if ParseRegex(regex).None? {
          return false;
        }
        excludeRegexes := excludeRegexes + [regex];
        assert Compiled(patterns[..i + 1]) == Compiled(patterns[..i]) + [regex];
      }
      assert patterns[..|patterns|] == patterns;
      active := true;
      ok := true;
    }

    method MatchesAnyPattern(path: string, patterns: seq<string>) returns (found: bool)
      ensures found == exists k :: 0 <= k < |patterns| && RegexMatches(patterns[k], path)
    {
      for i := 0 to |patterns|
        invariant forall k | 0 <= k < i :: !RegexMatches(patterns[k], path)
      {
        if RegexMatches(patterns[i], path) {
          return true;
        }
      }
      found := false;
    }

    method IsExcluded(path: string) returns (excluded: bool)
      ensures excluded ==
              (active && exists k :: 0 <= k < |excludeRegexes| && RegexMatches(excludeRegexes[k], path))
    {
      if !active {
        return false;
      }
      excluded := MatchesAnyPattern(path, excludeRegexes);
    }
  }

  // -------------------------------------------------------------------------
  // Compiled globs are read back
  // -------------------------------------------------------------------------

  /** What a glob stands for, term by term. */
  function Terms(pattern: string): seq<Term>
    decreases |pattern|
  {
    if pattern == "" then []
    else if pattern[0] == '*' && |pattern| > 1 && pattern[1] == '*' then [Many(Dot)] + Terms(pattern[2..])
    else if pattern[0] == '*' then [Many(NotSlash)] + Terms(pattern[1..])
    else if pattern[0] == '?' then [One(NotSlash)] + Terms(pattern[1..])
    else [One(Literal(pattern[0]))] + Terms(pattern[1..])
  }

  /** A term is parsed off the front when no star follows that is not its own. */
  lemma ParseTerm(text: string, term: Term, rest: string)
    requires text == TermText(term)
    requires rest == "" || rest[0] != '*'
    requires term.atom.Literal? ==> term.atom.c != '*' && term.atom.c != '?'
    ensures ParseRegex(rest).Some? ==> ParseRegex(text + rest) == Some([term] + ParseRegex(rest).value)
  {
    var s, n := text + rest, |AtomText(term.atom)|;
    AtomIsParsed(term.atom, s);
    if term.Many? {
      assert s[n] == '*' && s[n + 1..] == rest;
    } else {
      assert s[n..] == rest;
    }
  }

  function AtomText(atom: Atom): string {
    match atom
    case Dot => "."
    case NotSlash => "[^/]"
    case Literal(c) => if IsEscaped(c) then ['\\', c] else [c]
  }

  lemma AtomIsParsed(atom: Atom, s: string)
    requires |AtomText(atom)| <= |s| && s[..|AtomText(atom)|] == AtomText(atom)
    requires atom.Literal? ==> atom.c != '*' && atom.c != '?'
    ensures ParseAtom(s) == Some((atom, |AtomText(atom)|))
  {
    var text := AtomText(atom);
    assert forall k | 0 <= k < |text| :: s[k] == text[k];
  }

  lemma NoLeadingStar(pattern: string)
    ensures Compile(pattern) == "" || Compile(pattern)[0] != '*'
  {
  }

  function TermText(term: Term): string {
    AtomText(term.atom) + if term.Many? then "*" else ""
  }

  predicate IsWide(pattern: string) {
    |pattern| > 1 && pattern[0] == '*' && pattern[1] == '*'
  }

  lemma FirstTermCompiled(pattern: string, rest: string)
    requires pattern != "" && rest == if IsWide(pattern) then pattern[2..] else pattern[1..]
    ensures Terms(pattern) != [] && Terms(pattern) == [Terms(pattern)[0]] + Terms(rest)
    ensures Compile(pattern) == TermText(Terms(pattern)[0]) + Compile(rest)
    ensures Terms(pattern)[0].atom.Literal? ==> pattern[0] == Terms(pattern)[0].atom.c && pattern[0] != '*' && pattern[0] != '?'
  {
  }

  lemma {:induction false} CompiledIsRead(pattern: string)
    ensures ParseRegex(Compile(pattern)) == Some(Terms(pattern))
    decreases |pattern|
  {
    if pattern != "" {
      var rest := if IsWide(pattern) then pattern[2..] else pattern[1..];
      CompiledIsRead(rest);
      NoLeadingStar(rest);
      FirstTermCompiled(pattern, rest);
      var term := Terms(pattern)[0];
      ParseTerm(TermText(term), term, Compile(rest));
    }
  }

  /** The compiler writes regular expressions only. */
  lemma CompiledIsWellFormed(pattern: string)
    ensures ParseRegex(Compile(pattern)).Some?
  {
    CompiledIsRead(pattern);
  }

  // -------------------------------------------------------------------------
  // Compiled globs mean the same
  // -------------------------------------------------------------------------

  predicate ManyMatches(atom: Atom, terms: seq<Term>, s: string) {
    exists k :: 0 <= k <= |s| && AllAccepted(atom, s[..k]) && TermsMatch(terms, s[k..])
  }

  /** A starred atom takes nothing, or one character more. */
  lemma ManyStep(atom: Atom, terms: seq<Term>, s: string)
    ensures ManyMatches(atom, terms, s) <==>
            TermsMatch(terms, s) || (s != "" && Accepts(atom, s[0]) && ManyMatches(atom, terms, s[1..]))
  {
    if TermsMatch(terms, s) {
      assert s[..0] == "" && s[0..] == s;
      assert AllAccepted(atom, s[..0]) && TermsMatch(terms, s[0..]);
    }
    if k :| 0 <= k <= |s| && AllAccepted(atom, s[..k]) && TermsMatch(terms, s[k..]) {
      if k > 0 {
        FewerAccepted(atom, s, k);
        assert s[1..][k - 1..] == s[k..];
      } else {
        assert s[0..] == s;
      }
    }
    if s != "" && Accepts(atom, s[0]) && ManyMatches(atom, terms, s[1..]) {
      var k :| 0 <= k <= |s[1..]| && AllAccepted(atom, s[1..][..k]) && TermsMatch(terms, s[1..][k..]);
      MoreAccepted(atom, s, k);
      assert s[1..][k..] == s[k + 1..];
    }
  }

  lemma FewerAccepted(atom: Atom, s: string, k: nat)
    requires 0 < k <= |s| && AllAccepted(atom, s[..k])
    ensures Accepts(atom, s[0]) && AllAccepted(atom, s[1..][..k - 1])
  {
    assert s[..k][0] == s[0];
    var fewer := s[1..][..k - 1];
    forall j | 0 <= j < k - 1 ensures Accepts(atom, fewer[j]) {
      assert fewer[j] == s[..k][j + 1];
    }
  }

  lemma MoreAccepted(atom: Atom, s: string, k: nat)
    requires k < |s| && Accepts(atom, s[0]) && AllAccepted(atom, s[1..][..k])
    ensures AllAccepted(atom, s[..k + 1])
  {
    var more := s[..k + 1];
    forall j | 0 <= j < k + 1 ensures Accepts(atom, more[j]) {
      if j > 0 {
        assert more[j] == s[1..][..k][j - 1];
      }
    }
  }

  lemma {:induction false} TermsMeanGlob(pattern: string, path: string)
    ensures TermsMatch(Terms(pattern), path) <==> GlobMatches(pattern, path, true)
    decreases |pattern| + |path|
  {
    if pattern != "" {
      var terms := Terms(pattern);
      var rest := if IsWide(pattern) then pattern[2..] else pattern[1..];
      assert terms[1..] == Terms(rest);
      if pattern[0] == '*' {
        assert TermsMatch(terms, path) <==> ManyMatches(terms[0].atom, Terms(rest), path);
        ManyStep(terms[0].atom, Terms(rest), path);
        TermsMeanGlob(rest, path);
        if path != "" {
          TermsMeanGlob(pattern, path[1..]);
          assert TermsMatch(terms, path[1..]) <==> ManyMatches(terms[0].atom, Terms(rest), path[1..]);
        }
      } else if path != "" {
        TermsMeanGlob(rest, path[1..]);
      }
    }
  }

  /** The compiled expression matches exactly the paths that the glob matches line by line. */
  lemma CompiledMeansGlob(pattern: string, path: string)
    ensures RegexMatches(Compile(pattern), path) <==> GlobMatches(pattern, path, true)
  {
    CompiledIsRead(pattern);
    TermsMeanGlob(pattern, path);
  }

  predicate OneLine(path: string) {
    forall k | 0 <= k < |path| :: !IsLineTerminator(path[k])
  }

  lemma {:induction false} OneLineGlobs(pattern: string, path: string)
    requires OneLine(path)
    ensures GlobMatches(pattern, path, true) <==> GlobMatches(pattern, path, false)
    decreases |pattern| + |path|
  {
    if pattern != "" {
      var rest := if IsWide(pattern) then pattern[2..] else pattern[1..];
      if path != "" {
        assert !IsLineTerminator(path[0]);
        OneLineGlobs(rest, path[1..]);
        OneLineGlobs(pattern, path[1..]);
      }
      OneLineGlobs(rest, path);
    }
  }

  lemma {:induction false} AnythingMatches(path: string)
    ensures GlobMatches("**", path, false)
    ensures GlobMatches("**", path, true) <==> OneLine(path)
  {
    assert "**"[2..] == "";
    if path != "" {
      AnythingMatches(path[1..]);
      assert OneLine(path) <==> !IsLineTerminator(path[0]) && OneLine(path[1..]) by {
        assert path == [path[0]] + path[1..];
      }
    }
  }

  /** All globs are compiled faithfully for a path exactly when the path has no line terminators. */
  lemma CompilationIsFaithful(path: string)
    ensures (forall pattern :: RegexMatches(Compile(pattern), path) <==> GlobMatches(pattern, path, false)) <==>
            OneLine(path)
  {
    if OneLine(path) {
      forall pattern ensures RegexMatches(Compile(pattern), path) <==> GlobMatches(pattern, path, false) {
        CompiledMeansGlob(pattern, path);
        OneLineGlobs(pattern, path);
      }
    } else {
      CompiledMeansGlob("**", path);
      AnythingMatches(path);
      assert !(RegexMatches(Compile("**"), path) <==> GlobMatches("**", path, false));
    }
  }

  /** A path on one line is excluded by compiled patterns exactly when one of the globs matches it. */
  lemma ExcludedByGlobs(patterns: seq<string>, path: string)
    requires OneLine(path)
    ensures (exists k :: 0 <= k < |patterns| && RegexMatches(Compiled(patterns)[k], path)) <==>
            (exists k :: 0 <= k < |patterns| && GlobMatches(patterns[k], path, false))
  {
    forall k | 0 <= k < |patterns| ensures RegexMatches(Compiled(patterns)[k], path) <==> GlobMatches(patterns[k], path, false) {
      CompiledMeansGlob(patterns[k], path);
      OneLineGlobs(patterns[k], path);
    }
  }
}
