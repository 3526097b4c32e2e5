// Which modules are linked with the one that holds the entry function
// (src/instrumentation/include/utils.h).
module ModuleLink {
  import opened Wrappers

  // -------------------------------------------------------------------------
  // Modules
  // -------------------------------------------------------------------------

  datatype Symbol = Declaration | Definition(isLocal: bool) | Alias(isLocal: bool)

  /** The named values of a module, and the input modules that it was made of. */
  datatype Module = Module(table: map<string, Symbol>, parts: seq<nat>)

  const INTRINSIC_PREFIX: string := "llvm."
  const USED: string := "llvm.used"

  predicate IsIntrinsic(name: string) {
    |INTRINSIC_PREFIX| <= |name| && name[..|INTRINSIC_PREFIX|] == INTRINSIC_PREFIX
  }

  lemma IntrinsicNames(name: string)
    ensures IsIntrinsic(name) <==> exists rest :: name == "llvm." + rest
  {
    if IsIntrinsic(name) {
      assert name == "llvm." + name[|INTRINSIC_PREFIX|..];
    }
  }

  /** The module has a value of that name that is not only declared; it may be local. */
  predicate Defines(m: Module, name: string) {
    name in m.table && !m.table[name].Declaration?
  }

  /** The module defines the name for other modules. */
  predicate Exports(m: Module, name: string) {
    Defines(m, name) && !m.table[name].isLocal
  }

  function Undefined(m: Module): set<string> {
    set name | name in m.table.Keys && m.table[name].Declaration? && !IsIntrinsic(name)
  }

  method GetAllUndefinedSymbols(m: Module) returns (undefined: set<string>)
    ensures undefined == Undefined(m)
  {
    undefined := {};
    var defined, names := {}, m.table.Keys;
    while names != {}
      invariant names <= m.table.Keys
      invariant undefined == set name | name in m.table.Keys && name !in names && m.table[name].Declaration?
      invariant forall name | name in defined :: Defines(m, name)
      decreases |names|
    {
      var name :| name in names;
      names := names - {name};
      match m.table[name] {
        case Declaration => undefined := undefined + {name};
        case Definition(isLocal) => if !isLocal { defined := defined + {name}; }
        case Alias(_) => defined := defined + {name};
      }
    }
    undefined := set name | name in undefined && name !in defined && !IsIntrinsic(name);
  }

  // -------------------------------------------------------------------------
  // Linking two modules
  // -------------------------------------------------------------------------

  /** A definition for others wins; a local one is renamed, so that it does not resolve a declaration. */
  function Merged(a: Symbol, b: Symbol): Symbol {
    if !a.Declaration? && !a.isLocal then a
    else if !b.Declaration? && !b.isLocal then b
    else if a.Declaration? then a
    else b
  }

  function Linked(a: Module, b: Module): Module {
    Module(map name | name in a.table.Keys + b.table.Keys ::
             if name !in b.table then a.table[name]
             else if name !in a.table then b.table[name]
             else Merged(a.table[name], b.table[name]),
           a.parts + b.parts)
  }

  /** `compatible` says which modules the linker accepts together. */
  method LinkTwoModules(dest: Module, src: Module, compatible: (Module, Module) -> bool) returns (linked: Option<Module>)
    ensures linked == if compatible(dest, src) then Some(Linked(dest, src)) else None
  {
    linked := if compatible(dest, src) then Some(Linked(dest, src)) else None;
  }

  /** What m defines for others, c does. */
  ghost predicate Absorbs(c: Module, m: Module) {
    forall name | Exports(m, name) :: Exports(c, name)
  }

  // -------------------------------------------------------------------------
  // Taking modules from the vector
  // -------------------------------------------------------------------------

  datatype LinkResult = Composite(m: Module) | NoEntry | EntryTwice | LinkFailed

  predicate HasName(m: Option<Module>, name: string) {
    m.Some? && name in m.value.table
  }

  predicate Required(undefined: set<string>, m: Module) {
    exists name :: name in undefined && Defines(m, name)
  }

  /** What a loop over the vector looks for: symbols to be kept, or definitions of missing names. */
  datatype Want = Kept | Missing(undefined: set<string>)

  predicate Wants(w: Want, m: Option<Module>) {
    m.Some? && match w
      case Kept => HasName(m, USED)
      case Missing(undefined) => Required(undefined, m.value)
  }

  predicate Ascending(order: seq<nat>) {
    forall j, k | 0 <= j < k < |order| :: order[j] < order[k]
  }

  /** The positions from i on that such a loop takes. */
  function Wanted(ms: seq<Option<Module>>, w: Want, i: nat): seq<nat>
    requires i <= |ms|
    decreases |ms| - i
  {
    if i == |ms| then []
    else if Wants(w, ms[i]) then [i] + Wanted(ms, w, i + 1)
    else Wanted(ms, w, i + 1)
  }

  /** They are all positions from i on whose modules are wanted, and no others. */
  lemma {:induction false} WantedMeaning(ms: seq<Option<Module>>, w: Want, i: nat)
    requires i <= |ms|
    ensures Ascending(Wanted(ms, w, i))
    ensures forall j :: j in Wanted(ms, w, i) <==> i <= j < |ms| && Wants(w, ms[j])
    decreases |ms| - i
  {
    if i < |ms| {
      WantedMeaning(ms, w, i + 1);
      var rest := Wanted(ms, w, i + 1);
      forall k | 0 <= k < |rest| ensures i < rest[k] {
        assert rest[k] in rest;
      }
    }
  }

  /** The modules at these positions can be taken, each once. */
  ghost predicate Standing(ms: seq<Option<Module>>, order: seq<nat>) {
    && (forall k | 0 <= k < |order| :: order[k] < |ms| && ms[order[k]].Some?)
    && forall j, k | 0 <= j < k < |order| :: order[j] != order[k]
  }

  /** The vector after they have been taken. */
  function Without(ms: seq<Option<Module>>, order: seq<nat>): (after: seq<Option<Module>>)
    ensures |after| == |ms| && forall i | 0 <= i < |ms| :: after[i] == if i in order then None else ms[i]
  {
    seq(|ms|, i requires 0 <= i < |ms| => if i in order then None else ms[i])
  }

  predicate Linkable(input: seq<Option<Module>>, order: seq<nat>) {
    forall k | 0 <= k < |order| :: order[k] < |input| && input[order[k]].Some?
  }

  /** The composite after linking the modules at these positions into it, one after the other. */
  function Fold(input: seq<Option<Module>>, c: Module, order: seq<nat>): Module
    requires Linkable(input, order)
  {
    if order == [] then c
    else
      var n := |order| - 1;
      Linked(Fold(input, c, order[..n]), input[order[n]].value)
  }

  /** The linker accepts every one of these steps. */
  ghost predicate Accepted(input: seq<Option<Module>>, c: Module, order: seq<nat>, compatible: (Module, Module) -> bool)
    requires Linkable(input, order)
  {
    forall k | 0 <= k < |order| :: AcceptedAt(input, c, order, compatible, k)
  }

  ghost predicate AcceptedAt(input: seq<Option<Module>>, c: Module, order: seq<nat>, compatible: (Module, Module) -> bool,
                             k: nat)
    requires Linkable(input, order) && k < |order|
  {
    compatible(Fold(input, c, order[..k]), input[order[k]].value)
  }

  ghost function Parts(ms: seq<Option<Module>>): multiset<nat> {
    if ms == [] then multiset{}
    else Parts(ms[1..]) + if ms[0].Some? then multiset(ms[0].value.parts) else multiset{}
  }

  ghost function Count(ms: seq<Option<Module>>): nat {
    if ms == [] then 0 else Count(ms[1..]) + if ms[0].Some? then 1 else 0
  }

  lemma {:induction false} TakeOne(ms: seq<Option<Module>>, i: nat)
    requires i < |ms| && ms[i].Some?
    ensures Parts(ms) == Parts(ms[i := None]) + multiset(ms[i].value.parts)
    ensures Count(ms) == Count(ms[i := None]) + 1
  {
    var after := ms[i := None];
    if i == 0 {
      assert after[1..] == ms[1..];
    } else {
      assert after[1..] == ms[1..][i - 1 := None];
      TakeOne(ms[1..], i - 1);
    }
  }

  /** The vector holds what is left of the input. */
  ghost predicate Remains(input: seq<Option<Module>>, ms: seq<Option<Module>>) {
    |ms| == |input| && forall i | 0 <= i < |ms| :: ms[i].Some? ==> ms[i] == input[i]
  }

  /** Nothing is lost or doubled when modules are taken and linked. */
  lemma {:induction false} TakingConserves(input: seq<Option<Module>>, ms: seq<Option<Module>>, c: Module, order: seq<nat>)
    requires Remains(input, ms) && Standing(ms, order)
    ensures Linkable(input, order)
    ensures Parts(ms) + multiset(c.parts) == Parts(Without(ms, order)) + multiset(Fold(input, c, order).parts)
    ensures Count(ms) == Count(Without(ms, order)) + |order|
    decreases |order|
  {
    if order == [] {
      assert Without(ms, order) == ms;
    } else {
      var n := |order| - 1;
      TakingConserves(input, ms, c, order[..n]);
      assert order == order[..n] + [order[n]];
      TakingOneMore(input, ms, c, order[..n], order[n]);
    }
  }

  lemma TakingOneMore(input: seq<Option<Module>>, ms: seq<Option<Module>>, c: Module, order: seq<nat>, i: nat)
    requires Remains(input, ms) && i < |ms| && ms[i].Some? && i !in order && Linkable(input, order)
    ensures Linkable(input, order + [i])
    ensures Count(Without(ms, order)) == Count(Without(ms, order + [i])) + 1
    ensures Parts(Without(ms, order)) + multiset(Fold(input, c, order).parts)
         == Parts(Without(ms, order + [i])) + multiset(Fold(input, c, order + [i]).parts)
  {
    FoldOneMore(input, c, order, i);
    WithoutOneMore(ms, order, i);
    TakeOne(Without(ms, order), i);
    var a, b := Fold(input, c, order), input[i].value;
    assert multiset(a.parts + b.parts) == multiset(a.parts) + multiset(b.parts);
  }

  lemma WithoutOneMore(ms: seq<Option<Module>>, order: seq<nat>, i: nat)
    requires i < |ms|
    ensures Without(ms, order + [i]) == Without(ms, order)[i := None]
  {
  }

  lemma WithoutTwice(ms: seq<Option<Module>>, a: seq<nat>, b: seq<nat>)
    ensures Without(Without(ms, a), b) == Without(ms, a + b)
  {
  }

  lemma FoldOneMore(input: seq<Option<Module>>, c: Module, order: seq<nat>, i: nat)
    requires Linkable(input, order) && i < |input| && input[i].Some?
    ensures Linkable(input, order + [i])
    ensures Fold(input, c, order + [i]) == Linked(Fold(input, c, order), input[i].value)
  {
    assert (order + [i])[..|order|] == order;
  }

  lemma LastSplit(a: seq<nat>, b: seq<nat>)
    requires b != []
    ensures b[..|b| - 1] + [b[|b| - 1]] == b && a + b[..|b| - 1] + [b[|b| - 1]] == a + b
  {
  }

  lemma {:induction false} FoldTwice(input: seq<Option<Module>>, c: Module, a: seq<nat>, b: seq<nat>)
    requires Linkable(input, a) && Linkable(input, b)
    ensures Linkable(input, a + b) && Fold(input, c, a + b) == Fold(input, Fold(input, c, a), b)
    decreases |b|
  {
    if b == [] {
      assert a + b == a;
    } else {
      var n := |b| - 1;
      var earlier := a + b[..n];
      FoldTwice(input, c, a, b[..n]);
      FoldOneMore(input, c, earlier, b[n]);
      FoldOneMore(input, Fold(input, c, a), b[..n], b[n]);
      LastSplit(a, b);
    }
  }

  lemma StandingTwice(ms: seq<Option<Module>>, a: seq<nat>, b: seq<nat>)
    requires Standing(ms, a) && Standing(Without(ms, a), b)
    ensures Standing(ms, a + b)
  {
    forall k | 0 <= k < |b| ensures b[k] !in a && b[k] < |ms| && ms[b[k]].Some? {
      assert Without(ms, a)[b[k]].Some?;
    }
  }

  lemma AcceptedTwice(input: seq<Option<Module>>, c: Module, a: seq<nat>, b: seq<nat>, compatible: (Module, Module) -> bool)
    requires Linkable(input, a) && Linkable(input, b)
    ensures Linkable(input, a + b)
    ensures Accepted(input, c, a + b, compatible) <==>
            Accepted(input, c, a, compatible) && Accepted(input, Fold(input, c, a), b, compatible)
  {
    var all := a + b;
    forall k | 0 <= k < |a| ensures AcceptedAt(input, c, all, compatible, k) <==> AcceptedAt(input, c, a, compatible, k) {
      assert all[..k] == a[..k];
    }
    forall k | 0 <= k < |b|
      ensures AcceptedAt(input, c, all, compatible, |a| + k) <==> AcceptedAt(input, Fold(input, c, a), b, compatible, k)
    {
      FoldTwice(input, c, a, b[..k]);
      assert all[..|a| + k] == a + b[..k];
    }
    if Accepted(input, c, all, compatible) {
      forall k | 0 <= k < |b| ensures AcceptedAt(input, Fold(input, c, a), b, compatible, k) {
        assert AcceptedAt(input, c, all, compatible, |a| + k);
      }
    }
    if Accepted(input, c, a, compatible) && Accepted(input, Fold(input, c, a), b, compatible) {
      forall k | 0 <= k < |all| ensures AcceptedAt(input, c, all, compatible, k) {
        if k >= |a| {
          assert AcceptedAt(input, Fold(input, c, a), b, compatible, k - |a|);
        }
      }
    }
  }

  // -------------------------------------------------------------------------
  // What a composite defines and lacks
  // -------------------------------------------------------------------------

  /** The modules of a composite: the one it began with and those linked into it. */
  ghost predicate Member(input: seq<Option<Module>>, c: Module, order: seq<nat>, m: Module)
    requires Linkable(input, order)
  {
    m == c || exists k :: 0 <= k < |order| && input[order[k]].value == m
  }

  predicate Declares(m: Module, name: string) {
    name in m.table && m.table[name].Declaration?
  }

  lemma LinkedMeaning(a: Module, b: Module, name: string)
    ensures Exports(Linked(a, b), name) <==> Exports(a, name) || Exports(b, name)
    ensures Declares(Linked(a, b), name) <==>
            (Declares(a, name) || Declares(b, name)) && !Exports(a, name) && !Exports(b, name)
  {
  }

  lemma MembersOneMore(input: seq<Option<Module>>, c: Module, order: seq<nat>, m: Module)
    requires order != [] && Linkable(input, order)
    ensures Member(input, c, order, m) <==>
            Member(input, c, order[..|order| - 1], m) || m == input[order[|order| - 1]].value
  {
    var n := |order| - 1;
    if m == input[order[n]].value {
      assert Member(input, c, order, m);
    } else if k :| 0 <= k < |order| && input[order[k]].value == m {
      assert order[..n][k] == order[k];
    }
  }

  /** A composite exports what some module in it exports, and declares what some declares and none exports. */
  lemma {:induction false} FoldMeaning(input: seq<Option<Module>>, c: Module, order: seq<nat>, name: string)
    requires Linkable(input, order)
    ensures var all := Fold(input, c, order);
            && (Exports(all, name) <==> exists m :: Member(input, c, order, m) && Exports(m, name))
            && (Declares(all, name) <==>
                  (exists m :: Member(input, c, order, m) && Declares(m, name)) && !Exports(all, name))
    decreases |order|
  {
    if order == [] {
      assert Member(input, c, order, c);
    } else {
      var n := |order| - 1;
      var earlier, last := order[..n], input[order[n]].value;
      FoldMeaning(input, c, earlier, name);
      LinkedMeaning(Fold(input, c, earlier), last, name);
      forall m ensures Member(input, c, order, m) <==> Member(input, c, earlier, m) || m == last {
        MembersOneMore(input, c, order, m);
      }
    }
  }

  /** What a composite still lacks: names that some module in it declares and none exports. */
  lemma UndefinedMeaning(input: seq<Option<Module>>, c: Module, order: seq<nat>, name: string)
    requires Linkable(input, order)
    ensures name in Undefined(Fold(input, c, order)) <==>
            && !IsIntrinsic(name)
            && (exists m :: Member(input, c, order, m) && Declares(m, name))
            && (forall m :: Member(input, c, order, m) ==> !Exports(m, name))
  {
    FoldMeaning(input, c, order, name);
  }

  lemma FoldAbsorbs(input: seq<Option<Module>>, c: Module, order: seq<nat>, m: Module)
    requires Linkable(input, order) && Member(input, c, order, m)
    ensures Absorbs(Fold(input, c, order), m)
  {
    forall name | Exports(m, name) ensures Exports(Fold(input, c, order), name) {
      FoldMeaning(input, c, order, name);
    }
  }

  // -------------------------------------------------------------------------
  // The order in which modules are linked
  // -------------------------------------------------------------------------

  lemma WantedStands(ms: seq<Option<Module>>, w: Want)
    ensures Standing(ms, Wanted(ms, w, 0))
  {
    WantedMeaning(ms, w, 0);
    var order := Wanted(ms, w, 0);
    forall k | 0 <= k < |order| ensures order[k] < |ms| && ms[order[k]].Some? {
      assert order[k] in order;
    }
  }

  lemma RemainsWithout(input: seq<Option<Module>>, ms: seq<Option<Module>>, order: seq<nat>)
    requires Remains(input, ms)
    ensures Remains(input, Without(ms, order))
  {
  }

  /** One pass takes all modules that define a name missing at its start. */
  ghost function Pass(ms: seq<Option<Module>>, c: Module): seq<nat> {
    Wanted(ms, Missing(Undefined(c)), 0)
  }

  lemma PassStands(input: seq<Option<Module>>, ms: seq<Option<Module>>, c: Module)
    requires Remains(input, ms)
    ensures Standing(ms, Pass(ms, c)) && Linkable(input, Pass(ms, c)) && Remains(input, Without(ms, Pass(ms, c)))
    ensures Count(ms) == Count(Without(ms, Pass(ms, c))) + |Pass(ms, c)|
  {
    WantedStands(ms, Missing(Undefined(c)));
    TakingConserves(input, ms, c, Pass(ms, c));
    RemainsWithout(input, ms, Pass(ms, c));
  }

  /** Passes are made until one takes nothing. */
  ghost function Closure(input: seq<Option<Module>>, ms: seq<Option<Module>>, c: Module): seq<nat>
    requires Remains(input, ms)
    decreases Count(ms)
  {
    PassStands(input, ms, c);
    var pass := Pass(ms, c);
    if pass == [] then [] else pass + Closure(input, Without(ms, pass), Fold(input, c, pass))
  }

  lemma {:induction false} ClosureStands(input: seq<Option<Module>>, ms: seq<Option<Module>>, c: Module)
    requires Remains(input, ms)
    ensures Standing(ms, Closure(input, ms, c)) && Linkable(input, Closure(input, ms, c))
    decreases Count(ms)
  {
    PassStands(input, ms, c);
    var pass := Pass(ms, c);
    if pass != [] {
      var rest := Closure(input, Without(ms, pass), Fold(input, c, pass));
      ClosureStands(input, Without(ms, pass), Fold(input, c, pass));
      StandingTwice(ms, pass, rest);
    }
  }

  /** Nothing left over defines anything that the composite lacks. */
  ghost predicate Closed(ms: seq<Option<Module>>, c: Module) {
    forall i | 0 <= i < |ms| :: ms[i].Some? ==> !Required(Undefined(c), ms[i].value)
  }

  lemma {:induction false} ClosureCloses(input: seq<Option<Module>>, ms: seq<Option<Module>>, c: Module)
    requires Remains(input, ms)
    ensures Linkable(input, Closure(input, ms, c))
    ensures Closed(Without(ms, Closure(input, ms, c)), Fold(input, c, Closure(input, ms, c)))
    decreases Count(ms)
  {
    PassStands(input, ms, c);
    ClosureStands(input, ms, c);
    var pass := Pass(ms, c);
    if pass == [] {
      WantedMeaning(ms, Missing(Undefined(c)), 0);
      forall i | 0 <= i < |ms| && ms[i].Some? ensures !Required(Undefined(c), ms[i].value) {
        assert !Wants(Missing(Undefined(c)), ms[i]);
      }
    } else {
      var next, left := Fold(input, c, pass), Without(ms, pass);
      ClosureStands(input, left, next);
      ClosureCloses(input, left, next);
      FoldTwice(input, c, pass, Closure(input, left, next));
      WithoutTwice(ms, pass, Closure(input, left, next));
    }
  }

  /** These positions of the order are those of a pass, and the module at k has something that it looked for. */
  ghost predicate InPass(input: seq<Option<Module>>, pass: seq<nat>, undefined: set<string>, order: seq<nat>, s: nat, k: nat)
    requires Linkable(input, order) && s <= k < |order|
  {
    k < s + |pass| <= |order| && order[s..s + |pass|] == pass && Required(undefined, input[order[k]].value)
  }

  /** A pass of the loop began when the first s modules of the order had been linked, and took the one at k. */
  ghost predicate TakenInPass(input: seq<Option<Module>>, ms: seq<Option<Module>>, c: Module, order: seq<nat>, s: nat, k: nat)
    requires Linkable(input, order) && s <= k < |order|
  {
    var start := Fold(input, c, order[..s]);
    InPass(input, Pass(Without(ms, order[..s]), start), Undefined(start), order, s, k)
  }

  lemma {:induction false} ClosureJustified(input: seq<Option<Module>>, ms: seq<Option<Module>>, c: Module, k: nat)
      returns (s: nat)
    requires Remains(input, ms) && k < |Closure(input, ms, c)|
    ensures Linkable(input, Closure(input, ms, c)) && s <= k && TakenInPass(input, ms, c, Closure(input, ms, c), s, k)
    decreases Count(ms)
  {
    PassStands(input, ms, c);
    ClosureStands(input, ms, c);
    var order, pass := Closure(input, ms, c), Pass(ms, c);
    if k < |pass| {
      s := 0;
      FirstPass(input, ms, c, order, k);
    } else {
      ClosureStands(input, Without(ms, pass), Fold(input, c, pass));
      var rest := Closure(input, Without(ms, pass), Fold(input, c, pass));
      var t := ClosureJustified(input, Without(ms, pass), Fold(input, c, pass), k - |pass|);
      s := |pass| + t;
      ShiftedTaken(input, ms, c, pass, rest, t, k - |pass|, order, s, k);
    }
  }

  lemma FirstPass(input: seq<Option<Module>>, ms: seq<Option<Module>>, c: Module, order: seq<nat>, k: nat)
    requires Remains(input, ms) && Linkable(input, order) && k < |Pass(ms, c)| <= |order|
    requires order[..|Pass(ms, c)|] == Pass(ms, c)
    ensures TakenInPass(input, ms, c, order, 0, k)
  {
    var pass := Pass(ms, c);
    assert order[..0] == [] && Without(ms, []) == ms && order[0..0 + |pass|] == pass;
    WantedMeaning(ms, Missing(Undefined(c)), 0);
    assert order[k] == pass[k] && pass[k] in pass;
    assert Wants(Missing(Undefined(c)), ms[pass[k]]);
    assert InPass(input, pass, Undefined(c), order, 0, k);
  }

  lemma ShiftedInPass(input: seq<Option<Module>>, pass: seq<nat>, undefined: set<string>, before: seq<nat>, rest: seq<nat>,
                      s: nat, k: nat)
    requires Linkable(input, before) && Linkable(input, rest) && s <= k < |rest|
    requires InPass(input, pass, undefined, rest, s, k)
    ensures Linkable(input, before + rest)
    ensures InPass(input, pass, undefined, before + rest, |before| + s, |before| + k)
  {
    var order := before + rest;
    assert order[|before| + s..|before| + s + |pass|] == rest[s..s + |pass|];
  }

  lemma SameStart(input: seq<Option<Module>>, ms: seq<Option<Module>>, c: Module, before: seq<nat>, rest: seq<nat>,
                  t: nat, prefix: seq<nat>)
    requires Linkable(input, before) && Linkable(input, rest) && t <= |rest|
    requires prefix == (before + rest)[..|before| + t]
    ensures Linkable(input, prefix) && Fold(input, c, prefix) == Fold(input, Fold(input, c, before), rest[..t])
    ensures Without(ms, prefix) == Without(Without(ms, before), rest[..t])
  {
    assert prefix == before + rest[..t];
    FoldTwice(input, c, before, rest[..t]);
    WithoutTwice(ms, before, rest[..t]);
  }

  /** The same holds in the longer order. */
  lemma ShiftedTaken(input: seq<Option<Module>>, ms: seq<Option<Module>>, c: Module, before: seq<nat>, rest: seq<nat>,
                     t: nat, i: nat, order: seq<nat>, s: nat, k: nat)
    requires Linkable(input, before) && Linkable(input, rest) && t <= i < |rest|
    requires order == before + rest && s == |before| + t && k == |before| + i
    requires TakenInPass(input, Without(ms, before), Fold(input, c, before), rest, t, i)
    ensures Linkable(input, order) && TakenInPass(input, ms, c, order, s, k)
  {
    SameStart(input, ms, c, before, rest, t, order[..s]);
    var start := Fold(input, c, order[..s]);
    ShiftedInPass(input, Pass(Without(ms, order[..s]), start), Undefined(start), before, rest, t, i);
  }

  /** First the modules with symbols to be kept, then what is required. */
  ghost function Plan(input: seq<Option<Module>>, at: nat): seq<nat>
    requires at < |input| && input[at].Some?
  {
    var ms := input[at := None];
    var used := Wanted(ms, Kept, 0);
    WantedStands(ms, Kept);
    used + Closure(input, Without(ms, used), Fold(input, input[at].value, used))
  }

  lemma PlanStands(input: seq<Option<Module>>, at: nat)
    requires at < |input| && input[at].Some?
    ensures Standing(input[at := None], Plan(input, at)) && Linkable(input, Plan(input, at))
  {
    var ms := input[at := None];
    var used := Wanted(ms, Kept, 0);
    WantedStands(ms, Kept);
    ClosureStands(input, Without(ms, used), Fold(input, input[at].value, used));
    StandingTwice(ms, used, Closure(input, Without(ms, used), Fold(input, input[at].value, used)));
  }

  /** Every module with symbols to be kept is linked. */
  lemma PlanKeepsUsed(input: seq<Option<Module>>, at: nat, i: nat)
    requires at < |input| && input[at].Some? && i < |input| && i != at && HasName(input[i], "llvm.used")
    ensures i in Plan(input, at)
  {
    var ms := input[at := None];
    WantedMeaning(ms, Kept, 0);
    assert Wants(Kept, ms[i]);
    assert i in Wanted(ms, Kept, 0);
  }

  lemma RequiredAfter(input: seq<Option<Module>>, ms: seq<Option<Module>>, c: Module, used: seq<nat>, order: seq<nat>, k: nat)
      returns (s: nat)
    requires Remains(input, ms) && Remains(input, Without(ms, used)) && Linkable(input, used)
    requires order == used + Closure(input, Without(ms, used), Fold(input, c, used)) && |used| <= k < |order|
    ensures Linkable(input, order) && |used| <= s <= k && TakenInPass(input, ms, c, order, s, k)
  {
    var rest := Closure(input, Without(ms, used), Fold(input, c, used));
    var t := ClosureJustified(input, Without(ms, used), Fold(input, c, used), k - |used|);
    s := |used| + t;
    ShiftedTaken(input, ms, c, used, rest, t, k - |used|, order, s, k);
  }

  /** Every other module is linked because it defines a name that was missing when its pass began. */
  lemma PlanJustified(input: seq<Option<Module>>, at: nat, k: nat) returns (s: nat)
    requires at < |input| && input[at].Some? && k < |Plan(input, at)|
    ensures Linkable(input, Plan(input, at)) && s <= k
    ensures HasName(input[Plan(input, at)[k]], USED)
            || TakenInPass(input, input[at := None], input[at].value, Plan(input, at), s, k)
  {
    PlanStands(input, at);
    var ms := input[at := None];
    var used := Wanted(ms, Kept, 0);
    WantedStands(ms, Kept);
    s := 0;
    if k >= |used| {
      s := RequiredAfter(input, ms, input[at].value, used, Plan(input, at), k);
    } else {
      WantedMeaning(ms, Kept, 0);
      assert used[k] in used && Wants(Kept, ms[used[k]]);
    }
  }

  /** Nothing left over defines anything that the composite lacks. */
  lemma PlanCloses(input: seq<Option<Module>>, at: nat)
    requires at < |input| && input[at].Some?
    ensures Linkable(input, Plan(input, at))
    ensures Closed(Without(input[at := None], Plan(input, at)), Fold(input, input[at].value, Plan(input, at)))
  {
    PlanStands(input, at);
    var ms, c := input[at := None], input[at].value;
    var used := Wanted(ms, Kept, 0);
    WantedStands(ms, Kept);
    var left, next := Without(ms, used), Fold(input, c, used);
    ClosureStands(input, left, next);
    ClosureCloses(input, left, next);
    FoldTwice(input, c, used, Closure(input, left, next));
    WithoutTwice(ms, used, Closure(input, left, next));
  }

  /** No input module, linked or not, defines for others anything that the composite lacks. */
  lemma PlanIsComplete(input: seq<Option<Module>>, at: nat, i: nat, name: string)
    requires at < |input| && input[at].Some? && i < |input| && input[i].Some?
    ensures Linkable(input, Plan(input, at))
    ensures name in Undefined(Fold(input, input[at].value, Plan(input, at))) ==> !Exports(input[i].value, name)
  {
    PlanCloses(input, at);
    var order, c := Plan(input, at), input[at].value;
    UndefinedMeaning(input, c, order, name);
    if i == at {
      assert Member(input, c, order, c);
    } else if i in order {
      var k :| 0 <= k < |order| && order[k] == i;
      assert Member(input, c, order, input[i].value);
    } else {
      assert Without(input[at := None], order)[i] == input[i];
    }
  }

  /** Each input module is the entry, linked or left over, and only one of these. */
  lemma PlanConserves(input: seq<Option<Module>>, at: nat)
    requires at < |input| && input[at].Some?
    ensures Linkable(input, Plan(input, at))
    ensures Parts(input) == Parts(Without(input[at := None], Plan(input, at)))
                            + multiset(Fold(input, input[at].value, Plan(input, at)).parts)
  {
    PlanStands(input, at);
    TakeOne(input, at);
    TakingConserves(input, input[at := None], input[at].value, Plan(input, at));
  }

  // -------------------------------------------------------------------------
  // The loops
  // -------------------------------------------------------------------------

  predicate HasTwice(input: seq<Option<Module>>, name: string) {
    exists i, j :: 0 <= i < j < |input| && HasName(input[i], name) && HasName(input[j], name)
  }

  predicate HasNone(input: seq<Option<Module>>, name: string) {
    forall i | 0 <= i < |input| :: !HasName(input[i], name)
  }

  method FindEntry(input: seq<Option<Module>>, entry: string)
      returns (composite: Option<Module>, modules: seq<Option<Module>>, ghost at: nat, twice: bool)
    ensures twice == HasTwice(input, entry)
    ensures !twice ==> (composite.None? <==> HasNone(input, entry))
    ensures !twice && composite.Some? ==>
              at < |input| && composite == input[at] && HasName(input[at], entry) && modules == input[at := None]
  {
    composite, modules, at, twice := None, input, 0, false;
    for i := 0 to |input|
      invariant composite.None? ==> modules == input && forall j | 0 <= j < i :: !HasName(input[j], entry)
      invariant composite.Some? ==>
                  && at < i && composite == input[at] && HasName(input[at], entry) && modules == input[at := None]
                  && forall j | 0 <= j < i && j != at :: !HasName(input[j], entry)
    {
      if !HasName(modules[i], entry) {
        continue;
      }
      if composite.Some? {
        assert HasName(input[at], entry) && HasName(input[i], entry);
        twice := true;
        return;
      }
      composite, at := modules[i], i;
      modules := modules[i := None];
    }
  }

  method HasRequiredDefinition(undefined: set<string>, m: Module) returns (found: bool)
    ensures found == Required(undefined, m)
  {
    var rest := undefined;
    while rest != {}
      invariant rest <= undefined && forall name | name in undefined && name !in rest :: !Defines(m, name)
      decreases |rest|
    {
      var name :| name in rest;
      if Defines(m, name) {
        return true;
      }
      rest := rest - {name};
    }
    found := false;
  }

  /** How far a loop over the vector has come: what it has linked in order, and what it will still take. */
  ghost predicate Underway(input: seq<Option<Module>>, c: Module, ms: seq<Option<Module>>, w: Want,
                           compatible: (Module, Module) -> bool, i: nat, order: seq<nat>,
                           composite: Module, modules: seq<Option<Module>>)
  {
    && i <= |ms| && order + Wanted(ms, w, i) == Wanted(ms, w, 0)
    && (forall k | 0 <= k < |order| :: order[k] < i)
    && modules == Without(ms, order)
    && Linkable(input, order) && composite == Fold(input, c, order)
    && Accepted(input, c, order, compatible)
  }

  lemma LinkableWanted(input: seq<Option<Module>>, ms: seq<Option<Module>>, w: Want)
    requires Remains(input, ms)
    ensures Linkable(input, Wanted(ms, w, 0))
  {
    WantedStands(ms, w);
  }

  /** The module at i is not wanted. */
  lemma PassOver(input: seq<Option<Module>>, c: Module, ms: seq<Option<Module>>, w: Want,
                 compatible: (Module, Module) -> bool, i: nat, order: seq<nat>, composite: Module, modules: seq<Option<Module>>)
    requires Remains(input, ms) && i < |ms| && Underway(input, c, ms, w, compatible, i, order, composite, modules)
    ensures modules[i] == ms[i]
    ensures !Wants(w, ms[i]) ==> Underway(input, c, ms, w, compatible, i + 1, order, composite, modules)
  {
    assert i !in order;
  }

  /** The module at i is wanted, and the linker accepts it. */
  lemma LinkOneMore(input: seq<Option<Module>>, c: Module, ms: seq<Option<Module>>, w: Want,
                    compatible: (Module, Module) -> bool, i: nat, order: seq<nat>, composite: Module, modules: seq<Option<Module>>)
    requires Remains(input, ms) && i < |ms| && Underway(input, c, ms, w, compatible, i, order, composite, modules)
    requires Wants(w, ms[i]) && compatible(composite, ms[i].value)
    ensures Underway(input, c, ms, w, compatible, i + 1, order + [i], Linked(composite, ms[i].value), modules[i := None])
  {
    var all := order + [i];
    FoldOneMore(input, c, order, i);
    WithoutOneMore(ms, order, i);
    assert order + ([i] + Wanted(ms, w, i + 1)) == all + Wanted(ms, w, i + 1);
    forall k | 0 <= k < |all| ensures AcceptedAt(input, c, all, compatible, k) {
      assert all[..k] == order[..k];
      if k == |order| {
        assert order[..k] == order;
      } else {
        assert AcceptedAt(input, c, order, compatible, k);
      }
    }
  }

  /** The module at i is wanted, and the linker refuses it. */
  lemma Refused(input: seq<Option<Module>>, c: Module, ms: seq<Option<Module>>, w: Want,
                compatible: (Module, Module) -> bool, i: nat, order: seq<nat>, composite: Module, modules: seq<Option<Module>>)
    requires Remains(input, ms) && i < |ms| && Underway(input, c, ms, w, compatible, i, order, composite, modules)
    requires Wants(w, ms[i]) && !compatible(composite, ms[i].value)
    ensures Linkable(input, Wanted(ms, w, 0)) && !Accepted(input, c, Wanted(ms, w, 0), compatible)
  {
    LinkableWanted(input, ms, w);
    var all := Wanted(ms, w, 0);
    assert all[..|order|] == order && all[|order|] == i;
    assert !AcceptedAt(input, c, all, compatible, |order|);
  }

  /** Modules with symbols that must be kept are always linked. */
  method LinkUsed(c: Module, ms: seq<Option<Module>>, compatible: (Module, Module) -> bool, ghost input: seq<Option<Module>>)
      returns (composite: Option<Module>, modules: seq<Option<Module>>)
    requires Remains(input, ms)
    ensures Linkable(input, Wanted(ms, Kept, 0))
    ensures composite.Some? <==> Accepted(input, c, Wanted(ms, Kept, 0), compatible)
    ensures composite.Some? ==>
              composite.value == Fold(input, c, Wanted(ms, Kept, 0)) && modules == Without(ms, Wanted(ms, Kept, 0))
  {
    composite, modules := Some(c), ms;
    ghost var order: seq<nat> := [];
    LinkableWanted(input, ms, Kept);
    for i := 0 to |ms|
      invariant composite.Some? && Underway(input, c, ms, Kept, compatible, i, order, composite.value, modules)
    {
      PassOver(input, c, ms, Kept, compatible, i, order, composite.value, modules);
      if !HasName(modules[i], USED) {
        continue;
      }
      var linked := LinkTwoModules(composite.value, modules[i].value, compatible);
      if linked.None? {
        Refused(input, c, ms, Kept, compatible, i, order, composite.value, modules);
        return None, modules;
      }
      LinkOneMore(input, c, ms, Kept, compatible, i, order, composite.value, modules);
      composite, modules, order := linked, modules[i := None], order + [i];
    }
    assert order == Wanted(ms, Kept, 0);
  }

  /** One pass of the loop over the vector. */
  method LinkRequired(c: Module, ms: seq<Option<Module>>, compatible: (Module, Module) -> bool, ghost input: seq<Option<Module>>)
      returns (composite: Option<Module>, modules: seq<Option<Module>>, linkedAny: bool)
    requires Remains(input, ms)
    ensures Linkable(input, Pass(ms, c))
    ensures composite.Some? <==> Accepted(input, c, Pass(ms, c), compatible)
    ensures composite.Some? ==>
              && composite.value == Fold(input, c, Pass(ms, c)) && modules == Without(ms, Pass(ms, c))
              && linkedAny == (Pass(ms, c) != [])
  {
    composite, modules, linkedAny := Some(c), ms, false;
    var undefined := GetAllUndefinedSymbols(c);
    ghost var order: seq<nat>, w := [], Missing(undefined);
    LinkableWanted(input, ms, w);
    if undefined == {} {
      NothingMissing(ms, 0);
      return;
    }
    for i := 0 to |ms|
      invariant composite.Some? && Underway(input, c, ms, w, compatible, i, order, composite.value, modules)
      invariant linkedAny == (order != [])
    {
      PassOver(input, c, ms, w, compatible, i, order, composite.value, modules);
      if modules[i].None? {
        continue;
      }
      var required := HasRequiredDefinition(undefined, modules[i].value);
      if !required {
        continue;
      }
      var linked := LinkTwoModules(composite.value, modules[i].value, compatible);
      if linked.None? {
        Refused(input, c, ms, w, compatible, i, order, composite.value, modules);
        return None, modules, linkedAny;
      }
      LinkOneMore(input, c, ms, w, compatible, i, order, composite.value, modules);
      composite, modules, linkedAny, order := linked, modules[i := None], true, order + [i];
    }
    assert order == Wanted(ms, w, 0);
  }

  lemma {:induction false} NothingMissing(ms: seq<Option<Module>>, i: nat)
    requires i <= |ms|
    ensures Wanted(ms, Missing({}), i) == [] && Without(ms, []) == ms
    decreases |ms| - i
  {
    if i < |ms| {
      NothingMissing(ms, i + 1);
    }
  }

  /** How far the passes have come: what they have linked in order, and what is still to come. */
  ghost predicate Closing(input: seq<Option<Module>>, c: Module, ms: seq<Option<Module>>, compatible: (Module, Module) -> bool,
                          order: seq<nat>, composite: Module, modules: seq<Option<Module>>, goingOn: bool)
  {
    && Remains(input, ms) && Remains(input, modules) && Linkable(input, order)
    && Closure(input, ms, c) == order + (if goingOn then Closure(input, modules, composite) else [])
    && composite == Fold(input, c, order) && modules == Without(ms, order)
    && Accepted(input, c, order, compatible)
  }

  lemma ClosureOnePass(input: seq<Option<Module>>, ms: seq<Option<Module>>, c: Module)
    requires Remains(input, ms)
    ensures var pass := Pass(ms, c);
            && Linkable(input, pass) && Remains(input, Without(ms, pass))
            && Closure(input, ms, c) ==
               pass + (if pass != [] then Closure(input, Without(ms, pass), Fold(input, c, pass)) else [])
            && (pass != [] ==> Count(Without(ms, pass)) < Count(ms))
  {
    PassStands(input, ms, c);
  }

  lemma Regroup(a: seq<nat>, b: seq<nat>, c: seq<nat>)
    ensures a + (b + c) == a + b + c
  {
  }

  lemma PassLinked(input: seq<Option<Module>>, c: Module, ms: seq<Option<Module>>, compatible: (Module, Module) -> bool,
                   order: seq<nat>, composite: Module, modules: seq<Option<Module>>, pass: seq<nat>)
    requires Closing(input, c, ms, compatible, order, composite, modules, true)
    requires pass == Pass(modules, composite) && Linkable(input, pass) && Accepted(input, composite, pass, compatible)
    ensures Linkable(input, order + pass)
    ensures Closing(input, c, ms, compatible, order + pass, Fold(input, composite, pass), Without(modules, pass), pass != [])
    ensures if pass == [] then Without(modules, pass) == modules else Count(Without(modules, pass)) < Count(modules)
  {
    ClosureOnePass(input, modules, composite);
    InTwo(input, ms, c, order, pass, order + pass, compatible);
    Regroup(order, pass, if pass != [] then Closure(input, Without(modules, pass), Fold(input, composite, pass)) else []);
  }

  lemma PassRefused(input: seq<Option<Module>>, c: Module, ms: seq<Option<Module>>, compatible: (Module, Module) -> bool,
                    order: seq<nat>, composite: Module, modules: seq<Option<Module>>, pass: seq<nat>)
    requires Closing(input, c, ms, compatible, order, composite, modules, true)
    requires pass == Pass(modules, composite) && Linkable(input, pass) && !Accepted(input, composite, pass, compatible)
    ensures Linkable(input, Closure(input, ms, c)) && !Accepted(input, c, Closure(input, ms, c), compatible)
  {
    ClosureStands(input, ms, c);
    ClosureStands(input, modules, composite);
    ClosureOnePass(input, modules, composite);
    var rest := Closure(input, modules, composite)[|pass|..];
    assert Closure(input, modules, composite) == pass + rest;
    AcceptedTwice(input, composite, pass, rest, compatible);
    AcceptedTwice(input, c, order, pass + rest, compatible);
  }

  /** Links until a pass takes nothing; the number of modules left decreases with every other pass. */
  method LinkClosure(c: Module, ms: seq<Option<Module>>, compatible: (Module, Module) -> bool, ghost input: seq<Option<Module>>)
      returns (composite: Option<Module>, modules: seq<Option<Module>>)
    requires Remains(input, ms)
    ensures Linkable(input, Closure(input, ms, c))
    ensures composite.Some? <==> Accepted(input, c, Closure(input, ms, c), compatible)
    ensures composite.Some? ==>
              && composite.value == Fold(input, c, Closure(input, ms, c))
              && modules == Without(ms, Closure(input, ms, c))
  {
    composite, modules := Some(c), ms;
    ghost var order: seq<nat> := [];
    ClosureStands(input, ms, c);
    assert Without(ms, []) == ms;
    var symbolsLinked := true;
    while symbolsLinked
      invariant composite.Some? && Closing(input, c, ms, compatible, order, composite.value, modules, symbolsLinked)
      decreases Count(modules), symbolsLinked
    {
      ghost var before, left, pass := composite.value, modules, Pass(modules, composite.value);
      composite, modules, symbolsLinked := LinkRequired(composite.value, modules, compatible, input);
      if composite.None? {
        PassRefused(input, c, ms, compatible, order, before, left, pass);
        return;
      }
      PassLinked(input, c, ms, compatible, order, before, left, pass);
      order := order + pass;
    }
    assert order + [] == order;
  }

  method Condense(ms: seq<Option<Module>>) returns (leftover: seq<Option<Module>>)
    ensures leftover == Condensed(ms)
  {
    leftover := [];
    for i := 0 to |ms|
      invariant Condensed(ms) == leftover + Condensed(ms[i..])
    {
      assert ms[i..][1..] == ms[i + 1..];
      if ms[i].Some? {
        leftover := leftover + [ms[i]];
      }
    }
  }

  /** What is left of the vector when the modules that were taken are dropped. */
  function Condensed(ms: seq<Option<Module>>): seq<Option<Module>> {
    if ms == [] then []
    else if ms[0].Some? then [ms[0]] + Condensed(ms[1..])
    else Condensed(ms[1..])
  }

  lemma {:induction false} CondensedKeepsParts(ms: seq<Option<Module>>)
    ensures Parts(Condensed(ms)) == Parts(ms)
  {
    if ms != [] {
      CondensedKeepsParts(ms[1..]);
      if ms[0].Some? {
        assert ([ms[0]] + Condensed(ms[1..]))[1..] == Condensed(ms[1..]);
      }
    }
  }

  lemma {:induction false} CondensedStood(ms: seq<Option<Module>>, k: nat)
    requires k < |Condensed(ms)|
    ensures Condensed(ms)[k].Some? && Condensed(ms)[k] in ms
  {
    if ms[0].Some? && k > 0 {
      CondensedStood(ms[1..], k - 1);
    } else if ms[0].None? {
      CondensedStood(ms[1..], k);
    }
  }

  lemma {:induction false} NothingLeft(ms: seq<Option<Module>>)
    requires forall i | 0 <= i < |ms| :: ms[i].None?
    ensures Condensed(ms) == []
  {
    if ms != [] {
      NothingLeft(ms[1..]);
    }
  }

  /** The first n positions. */
  function Upto(n: nat): (order: seq<nat>)
    ensures |order| == n && forall k | 0 <= k < n :: order[k] == k
  {
    seq(n, k => k)
  }

  /** Everything into the last module, in order. */
  method LinkAll(input: seq<Option<Module>>, compatible: (Module, Module) -> bool) returns (composite: Option<Module>)
    requires |input| > 0 && forall i | 0 <= i < |input| :: input[i].Some?
    ensures composite.Some? <==> Accepted(input, input[|input| - 1].value, Upto(|input| - 1), compatible)
    ensures composite.Some? ==> composite.value == Fold(input, input[|input| - 1].value, Upto(|input| - 1))
  {
    var last := |input| - 1;
    ghost var c, order := input[last].value, Upto(last);
    composite := input[last];
    for i := 0 to last
      invariant composite.Some? && composite.value == Fold(input, c, order[..i])
      invariant forall k | 0 <= k < i :: AcceptedAt(input, c, order, compatible, k)
    {
      ghost var before := composite.value;
      composite := LinkTwoModules(composite.value, input[i].value, compatible);
      assert AcceptedAt(input, c, order, compatible, i) <==> compatible(before, input[i].value);
      if composite.None? {
        return;
      }
      assert order[..i + 1] == order[..i] + [i];
      FoldOneMore(input, c, order[..i], i);
    }
    assert order[..last] == order;
  }

  // -------------------------------------------------------------------------
  // The whole
  // -------------------------------------------------------------------------

  /** The order in which modules are linked into the one at `at`. */
  ghost function LinkOrder(input: seq<Option<Module>>, entry: string, at: nat): seq<nat>
    requires at < |input| && input[at].Some?
  {
    if entry == "" then Upto(|input| - 1) else Plan(input, at)
  }

  /** The module that the others are linked into: the last one, or the only one that names the entry. */
  ghost predicate IsStart(input: seq<Option<Module>>, entry: string, at: nat) {
    && at < |input| && input[at].Some?
    && if entry == "" then at == |input| - 1 else HasName(input[at], entry) && !HasTwice(input, entry)
  }

  /** What is linked after the modules with symbols to be kept. */
  ghost predicate IsRest(input: seq<Option<Module>>, at: nat, used: seq<nat>, rest: seq<nat>)
    requires at < |input| && input[at].Some?
  {
    var ms := input[at := None];
    && Remains(input, ms) && used == Wanted(ms, Kept, 0)
    && Linkable(input, used) && Remains(input, Without(ms, used))
    && rest == Closure(input, Without(ms, used), Fold(input, input[at].value, used)) && Linkable(input, rest)
    && Plan(input, at) == used + rest && Linkable(input, used + rest)
  }

  lemma PlanHasRest(input: seq<Option<Module>>, at: nat) returns (used: seq<nat>, rest: seq<nat>)
    requires at < |input| && input[at].Some?
    ensures IsRest(input, at, used, rest)
  {
    var ms := input[at := None];
    used := Wanted(ms, Kept, 0);
    WantedStands(ms, Kept);
    rest := Closure(input, Without(ms, used), Fold(input, input[at].value, used));
    PlanStands(input, at);
    ClosureStands(input, Without(ms, used), Fold(input, input[at].value, used));
  }

  lemma InTwo(input: seq<Option<Module>>, ms: seq<Option<Module>>, c: Module, a: seq<nat>, b: seq<nat>, order: seq<nat>,
              compatible: (Module, Module) -> bool)
    requires Linkable(input, a) && Linkable(input, b) && Linkable(input, order) && order == a + b
    ensures Accepted(input, c, order, compatible) <==>
            Accepted(input, c, a, compatible) && Accepted(input, Fold(input, c, a), b, compatible)
    ensures Fold(input, c, order) == Fold(input, Fold(input, c, a), b)
    ensures Without(ms, order) == Without(Without(ms, a), b)
  {
    AcceptedTwice(input, c, a, b, compatible);
    FoldTwice(input, c, a, b);
    WithoutTwice(ms, a, b);
  }

  /**
   * Links the module that names the entry function with all it needs; without an entry, links
   * everything. The composite is the fold of the modules taken, in the order in which they are.
   */
  method LinkModules(input: seq<Option<Module>>, entry: string, compatible: (Module, Module) -> bool)
      returns (r: LinkResult, leftover: seq<Option<Module>>, ghost at: nat)
    requires |input| > 0 && (entry == "" ==> forall i | 0 <= i < |input| :: input[i].Some?)
    ensures r.NoEntry? <==> entry != "" && HasNone(input, entry)
    ensures r.EntryTwice? <==> entry != "" && HasTwice(input, entry)
    ensures r.LinkFailed? || r.Composite? ==>
              && IsStart(input, entry, at) && Linkable(input, LinkOrder(input, entry, at))
              && (r.Composite? <==> Accepted(input, input[at].value, LinkOrder(input, entry, at), compatible))
    ensures r.Composite? ==>
              && r.m == Fold(input, input[at].value, LinkOrder(input, entry, at))
              && leftover == Condensed(Without(input[at := None], LinkOrder(input, entry, at)))
  {
    leftover := input;
    if entry == "" {
      at := |input| - 1;
      var all := LinkAll(input, compatible);
      if all.None? {
        return LinkFailed, input, at;
      }
      ghost var vector := Without(input[at := None], Upto(at));
      forall i | 0 <= i < |vector| ensures vector[i].None? {
        assert i < at ==> Upto(at)[i] in Upto(at);
      }
      NothingLeft(vector);
      return Composite(all.value), [], at;
    }
    var found, modules, twice;
    found, modules, at, twice := FindEntry(input, entry);
    if twice {
      return EntryTwice, modules, at;
    }
    if found.None? {
      return NoEntry, modules, at;
    }
    ghost var used, rest := PlanHasRest(input, at);
    InTwo(input, modules, found.value, used, rest, used + rest, compatible);
    var composite;
    composite, modules := LinkUsed(found.value, modules, compatible, input);
    if composite.None? {
      return LinkFailed, modules, at;
    }
    composite, modules := LinkClosure(composite.value, modules, compatible, input);
    if composite.None? {
      return LinkFailed, modules, at;
    }
    leftover := Condense(modules);
    r := Composite(composite.value);
  }

  /** Without an entry every module is part of the composite. */
  lemma AllAreLinked(input: seq<Option<Module>>, i: nat)
    requires i < |input| && forall j | 0 <= j < |input| :: input[j].Some?
    ensures Absorbs(Fold(input, input[|input| - 1].value, Upto(|input| - 1)), input[i].value)
  {
    var last, order := |input| - 1, Upto(|input| - 1);
    assert Member(input, input[last].value, order, input[i].value) by {
      if i < last {
        assert order[i] == i;
      }
    }
    FoldAbsorbs(input, input[last].value, order, input[i].value);
  }

  /** Nothing left over defines anything that the composite lacks. */
  lemma LeftoverIsClosed(input: seq<Option<Module>>, at: nat)
    requires at < |input| && input[at].Some?
    ensures Linkable(input, Plan(input, at))
    ensures Closed(Condensed(Without(input[at := None], Plan(input, at))), Fold(input, input[at].value, Plan(input, at)))
  {
    PlanCloses(input, at);
    var ms, c := Without(input[at := None], Plan(input, at)), Fold(input, input[at].value, Plan(input, at));
    forall k | 0 <= k < |Condensed(ms)| ensures Condensed(ms)[k].Some? ==> !Required(Undefined(c), Condensed(ms)[k].value) {
      CondensedStood(ms, k);
    }
  }

  /** Each input module is part of the composite or left over, once. */
  lemma LinkingConserves(input: seq<Option<Module>>, at: nat)
    requires at < |input| && input[at].Some?
    ensures Linkable(input, Plan(input, at))
    ensures Parts(input) == Parts(Condensed(Without(input[at := None], Plan(input, at))))
                            + multiset(Fold(input, input[at].value, Plan(input, at)).parts)
  {
    PlanConserves(input, at);
    CondensedKeepsParts(Without(input[at := None], Plan(input, at)));
  }

  /** An entry that calls a helper, and a module with a helper of its own. */
  const CALLER: Module := Module(map["entry" := Definition(false), "helper" := Declaration], [0])

  const KEEPER: Module := Module(map["helper" := Definition(true)], [1])

  lemma HelperIsMissing()
    ensures Undefined(CALLER) == {"helper"} == Undefined(Linked(CALLER, KEEPER))
  {
    assert "helper"[..|INTRINSIC_PREFIX|][0] == 'h' && INTRINSIC_PREFIX[0] == 'l';
    assert CALLER.table.Keys == {"entry", "helper"} == Linked(CALLER, KEEPER).table.Keys;
    assert |"entry"| != |"helper"|;
  }

  /** What a loop takes from a vector of two. */
  lemma WantedOfTwo(ms: seq<Option<Module>>, w: Want)
    requires |ms| == 2 && !Wants(w, ms[0])
    ensures Wanted(ms, w, 0) == if Wants(w, ms[1]) then [1] else []
  {
    assert Wanted(ms, w, 2) == [];
    assert Wanted(ms, w, 1) == if Wants(w, ms[1]) then [1] else [];
  }

  lemma KeeperIsTaken(input: seq<Option<Module>>, ms: seq<Option<Module>>)
    requires input == [Some(CALLER), Some(KEEPER)] && ms == [None, Some(KEEPER)]
    ensures Closure(input, ms, CALLER) == [1] && Linkable(input, [1]) && Fold(input, CALLER, [1]) == Linked(CALLER, KEEPER)
  {
    HelperIsMissing();
    assert Defines(KEEPER, "helper");
    WantedOfTwo(ms, Missing({"helper"}));
    assert Fold(input, CALLER, [1][..0]) == CALLER;
    var left := Without(ms, [1]);
    assert left == [None, None];
    WantedOfTwo(left, Missing({"helper"}));
    assert Closure(input, left, Linked(CALLER, KEEPER)) == [];
  }

  /** The second module is taken for its local definition, and the helper is still missing. */
  lemma LocalDefinitionIsTaken()
    ensures var input := [Some(CALLER), Some(KEEPER)];
            IsStart(input, "entry", 0) && Plan(input, 0) == [1] && "helper" in Undefined(Fold(input, CALLER, [1]))
  {
    var input := [Some(CALLER), Some(KEEPER)];
    var ms := input[0 := None];
    assert |"entry"| == 5 && |"helper"| == 6 && |USED| == 9;
    assert !HasName(Some(KEEPER), "entry") && !HasName(Some(KEEPER), USED);
    WantedOfTwo(ms, Kept);
    assert Without(ms, []) == ms == [None, Some(KEEPER)];
    KeeperIsTaken(input, ms);
    HelperIsMissing();
  }
}
