// The compute resources a kernel ran on (src/basic_block_analysis.cc): the nested map,
// the flat set of places it stands for, and the renderer that pops trailing commas.
module ComputeResources {
  import opened Text

  datatype Workgroup = Workgroup(x: nat, y: nat, z: nat)

  datatype Place = Place(xcc: nat, se: nat, cu: nat, group: Workgroup, wave: nat)

  type Groups = map<Workgroup, set<nat>>
  type Cus = map<nat, Groups>
  type Ses = map<nat, Cus>
  type Resources = map<nat, Ses>

  predicate InGroups(g: Groups, p: Place) {
    p.group in g && p.wave in g[p.group]
  }

  predicate InCus(c: Cus, p: Place) {
    p.cu in c && InGroups(c[p.cu], p)
  }

  predicate InSes(s: Ses, p: Place) {
    p.se in s && InCus(s[p.se], p)
  }

  predicate Holds(r: Resources, p: Place) {
    p.xcc in r && InSes(r[p.xcc], p)
  }

  ghost predicate GroupsFull(g: Groups) {
    g != map[] && forall w | w in g :: g[w] != {}
  }

  ghost predicate CusFull(c: Cus) {
    c != map[] && forall k | k in c :: GroupsFull(c[k])
  }

  ghost predicate SesFull(s: Ses) {
    s != map[] && forall k | k in s :: CusFull(s[k])
  }

  /** No container inside the map is empty. */
  ghost predicate NoEmptyInside(r: Resources) {
    forall k | k in r :: SesFull(r[k])
  }

  // The branches of updateComputeResources, one level each: a key that is
  // missing gets a chain of fresh containers, a present one is descended into.

  predicate SameWave(q: Place, p: Place) {
    q.group == p.group && q.wave == p.wave
  }

  predicate SameInCu(q: Place, p: Place) {
    q.cu == p.cu && SameWave(q, p)
  }

  predicate SameInSe(q: Place, p: Place) {
    q.se == p.se && SameInCu(q, p)
  }

  predicate SamePlace(q: Place, p: Place) {
    q.xcc == p.xcc && SameInSe(q, p)
  }

  function FreshGroups(p: Place): (g: Groups)
    ensures GroupsFull(g) && forall q :: InGroups(g, q) <==> SameWave(q, p)
  {
    assert p.group in map[p.group := {p.wave}];
    map[p.group := {p.wave}]
  }

  function FreshCus(p: Place): (c: Cus)
    ensures CusFull(c) && forall q :: InCus(c, q) <==> SameInCu(q, p)
  {
    assert p.cu in map[p.cu := FreshGroups(p)];
    map[p.cu := FreshGroups(p)]
  }

  function FreshSes(p: Place): (s: Ses)
    ensures SesFull(s) && forall q :: InSes(s, q) <==> SameInSe(q, p)
  {
    assert p.se in map[p.se := FreshCus(p)];
    map[p.se := FreshCus(p)]
  }

  method InsertWave(g: Groups, p: Place) returns (s: Groups)
    requires GroupsFull(g)
    ensures GroupsFull(s)
    ensures forall q :: InGroups(s, q) <==> InGroups(g, q) || SameWave(q, p)
  {
    if p.group !in g {
      s := g[p.group := {p.wave}];
    } else {
      s := g[p.group := g[p.group] + {p.wave}];
    }
    assert p.group in s;
  }

  method InsertGroup(c: Cus, p: Place) returns (s: Cus)
    requires CusFull(c)
    ensures CusFull(s)
    ensures forall q :: InCus(s, q) <==> InCus(c, q) || SameInCu(q, p)
  {
    var groups: Groups;
    if p.cu in c {
      groups := InsertWave(c[p.cu], p);
    } else {
      groups := FreshGroups(p);
    }
    s := c[p.cu := groups];
    assert p.cu in s;
  }

  method InsertCu(e: Ses, p: Place) returns (s: Ses)
    requires SesFull(e)
    ensures SesFull(s)
    ensures forall q :: InSes(s, q) <==> InSes(e, q) || SameInSe(q, p)
  {
    var cus: Cus;
    if p.se in e {
      cus := InsertGroup(e[p.se], p);
    } else {
      cus := FreshCus(p);
    }
    s := e[p.se := cus];
    assert p.se in s;
  }

  lemma HoldsAfterUpdate(r: Resources, ses: Ses, p: Place)
    requires forall q :: InSes(ses, q) <==> (p.xcc in r && InSes(r[p.xcc], q)) || SameInSe(q, p)
    ensures forall q :: Holds(r[p.xcc := ses], q) <==> Holds(r, q) || SamePlace(q, p)
  {
    forall q ensures Holds(r[p.xcc := ses], q) <==> Holds(r, q) || SamePlace(q, p) {
      assert InSes(ses, q) <==> (p.xcc in r && InSes(r[p.xcc], q)) || SameInSe(q, p);
    }
  }

  lemma StaysFull(r: Resources, ses: Ses, p: Place)
    requires NoEmptyInside(r) && SesFull(ses)
    ensures NoEmptyInside(r[p.xcc := ses])
  {
  }

  method InsertSe(r: Resources, p: Place) returns (ses: Ses)
    requires NoEmptyInside(r)
    ensures SesFull(ses)
    ensures forall q :: InSes(ses, q) <==> (p.xcc in r && InSes(r[p.xcc], q)) || SameInSe(q, p)
  {
    if p.xcc in r {
      ses := InsertCu(r[p.xcc], p);
    } else {
      ses := FreshSes(p);
    }
  }

  method Insert(r: Resources, p: Place) returns (s: Resources)
    requires NoEmptyInside(r)
    ensures NoEmptyInside(s) && s != map[]
    ensures forall q :: Holds(s, q) <==> Holds(r, q) || q == p
  {
    var ses := InsertSe(r, p);
    s := r[p.xcc := ses];
    assert p.xcc in s;
    HoldsAfterUpdate(r, ses, p);
    StaysFull(r, ses, p);
  }

  // -------------------------------------------------------------------------
  // Rendering
  // -------------------------------------------------------------------------

  // The map in iteration order; a group carries the number of its waves.
  datatype GroupView = GroupView(group: Workgroup, waves: nat)
  datatype CuView = CuView(cu: nat, groups: seq<GroupView>)
  datatype SeView = SeView(se: nat, cus: seq<CuView>)
  datatype XccView = XccView(xcc: nat, ses: seq<SeView>)

  ghost predicate CuFull(v: CuView) {
    v.groups != []
  }

  ghost predicate SeFull(v: SeView) {
    v.cus != [] && forall k | 0 <= k < |v.cus| :: CuFull(v.cus[k])
  }

  ghost predicate XccFull(v: XccView) {
    v.ses != [] && forall k | 0 <= k < |v.ses| :: SeFull(v.ses[k])
  }

  ghost predicate ViewFull(view: seq<XccView>) {
    forall k | 0 <= k < |view| :: XccFull(view[k])
  }

  // The view lists the keys of every level, each once, and the size of every wave set.
  ghost predicate GroupsListed(g: Groups, v: seq<GroupView>) {
    && (forall k | 0 <= k < |v| :: v[k].group in g && v[k].waves == |g[v[k].group]|)
    && (forall w | w in g :: exists k :: 0 <= k < |v| && v[k].group == w)
    && (forall i, j | 0 <= i < j < |v| :: v[i].group != v[j].group)
  }

  ghost predicate CusListed(c: Cus, v: seq<CuView>) {
    && (forall k | 0 <= k < |v| :: v[k].cu in c && GroupsListed(c[v[k].cu], v[k].groups))
    && (forall w | w in c :: exists k :: 0 <= k < |v| && v[k].cu == w)
    && (forall i, j | 0 <= i < j < |v| :: v[i].cu != v[j].cu)
  }

  ghost predicate SesListed(s: Ses, v: seq<SeView>) {
    && (forall k | 0 <= k < |v| :: v[k].se in s && CusListed(s[v[k].se], v[k].cus))
    && (forall w | w in s :: exists k :: 0 <= k < |v| && v[k].se == w)
    && (forall i, j | 0 <= i < j < |v| :: v[i].se != v[j].se)
  }

  ghost predicate Listed(r: Resources, v: seq<XccView>) {
    && (forall k | 0 <= k < |v| :: v[k].xcc in r && SesListed(r[v[k].xcc], v[k].ses))
    && (forall w | w in r :: exists k :: 0 <= k < |v| && v[k].xcc == w)
    && (forall i, j | 0 <= i < j < |v| :: v[i].xcc != v[j].xcc)
  }

  lemma CusViewsFull(c: Cus, v: seq<CuView>)
    requires CusFull(c) && CusListed(c, v)
    ensures v != [] && forall k | 0 <= k < |v| :: CuFull(v[k])
  {
    var w :| w in c;
    forall k | 0 <= k < |v| ensures CuFull(v[k]) {
      assert GroupsFull(c[v[k].cu]);
      var g :| g in c[v[k].cu];
    }
  }

  lemma SesViewsFull(s: Ses, v: seq<SeView>)
    requires SesFull(s) && SesListed(s, v)
    ensures v != [] && forall k | 0 <= k < |v| :: SeFull(v[k])
  {
    var w :| w in s;
    forall k | 0 <= k < |v| ensures SeFull(v[k]) {
      CusViewsFull(s[v[k].se], v[k].cus);
    }
  }

  /** Listing a map without empty containers gives a view without empty levels. */
  lemma ListedIsFull(r: Resources, v: seq<XccView>)
    requires NoEmptyInside(r) && Listed(r, v)
    ensures ViewFull(v) && (v == [] <==> r == map[])
  {
    forall k | 0 <= k < |v| ensures XccFull(v[k]) {
      SesViewsFull(r[v[k].xcc], v[k].ses);
    }
    assert v != [] ==> r != map[] by {
      if v != [] {
        assert v[0].xcc in r;
      }
    }
    assert r != map[] ==> v != [] by {
      if r != map[] {
        var w :| w in r;
      }
    }
  }

  function Join(parts: seq<string>): string {
    if parts == [] then ""
    else if |parts| == 1 then parts[0]
    else Join(parts[..|parts| - 1]) + "," + parts[|parts| - 1]
  }

  function Quoted(s: string): string {
    "\"" + s + "\""
  }

  function Named(name: string, value: string): string {
    Quoted(name) + ": " + value
  }

  function Braced(s: string): string {
    "{" + s + "}"
  }

  function List(parts: seq<string>): string {
    "[" + Join(parts) + "]"
  }

  function GroupText(v: GroupView): string {
    Quoted("(" + Decimal(v.group.x) + "," + Decimal(v.group.y) + "," + Decimal(v.group.z) + ")")
  }

  function TotalWaves(groups: seq<GroupView>): nat {
    if groups == [] then 0 else TotalWaves(groups[..|groups| - 1]) + groups[|groups| - 1].waves
  }

  function GroupTexts(groups: seq<GroupView>): seq<string> {
    seq(|groups|, k requires 0 <= k < |groups| => GroupText(groups[k]))
  }

  function CuText(v: CuView): string
    requires CuFull(v)
  {
    Braced(Named("cu_" + Decimal(v.cu), List(GroupTexts(v.groups))) + ","
           + Named("avg_wave_count", Decimal(TotalWaves(v.groups) / |v.groups|)))
  }

  function CuTexts(cus: seq<CuView>): seq<string>
    requires forall k | 0 <= k < |cus| :: CuFull(cus[k])
  {
    seq(|cus|, k requires 0 <= k < |cus| => CuText(cus[k]))
  }

  function SeText(v: SeView): string
    requires SeFull(v)
  {
    Braced(Named("se_" + Decimal(v.se), List(CuTexts(v.cus))))
  }

  function SeTexts(ses: seq<SeView>): seq<string>
    requires forall k | 0 <= k < |ses| :: SeFull(ses[k])
  {
    seq(|ses|, k requires 0 <= k < |ses| => SeText(ses[k]))
  }

  function XccText(v: XccView): string
    requires XccFull(v)
  {
    Braced(Named("xcc_" + Decimal(v.xcc), List(SeTexts(v.ses))))
  }

  function XccTexts(view: seq<XccView>): seq<string>
    requires ViewFull(view)
  {
    seq(|view|, k requires 0 <= k < |view| => XccText(view[k]))
  }

  /** Everything after the opening brace up to the list of resources. */
  function Heading(kernel: string, dispatch: nat): string {
    Named("kernel", Quoted(kernel)) + ", " + Named("dispatch", Decimal(dispatch)) + ", " + (Quoted("resources") + ":")
  }

  /** The report with every list written by joining its items with commas. */
  function Report(kernel: string, dispatch: nat, view: seq<XccView>): string
    requires ViewFull(view)
  {
    Braced(Heading(kernel, dispatch) + List(XccTexts(view))) + "\n"
  }

  /** What the renderer makes of an empty map: the bracket of the list has been popped. */
  function EmptyReport(kernel: string, dispatch: nat): string {
    Braced(Heading(kernel, dispatch) + "]") + "\n"
  }

  /** A list after its opening bracket and items have been written, a comma after each. */
  function Opened(parts: seq<string>): (s: string)
    ensures s != ""
  {
    if parts == [] then "[" else Opened(parts[..|parts| - 1]) + parts[|parts| - 1] + ","
  }

  /** pop_back on the text written so far. */
  function Popped(s: string): string
    requires s != ""
  {
    s[..|s| - 1]
  }

  lemma {:induction false} OpenedEndsInComma(parts: seq<string>)
    requires parts != []
    ensures Opened(parts) == "[" + Join(parts) + ","
  {
    var n := |parts| - 1;
    if n == 0 {
      assert Opened(parts[..0]) == "[";
    } else {
      OpenedEndsInComma(parts[..n]);
      var head, item := Join(parts[..n]), parts[n];
      assert "[" + head + "," + item + "," == "[" + (head + "," + item) + ",";
    }
  }

  /** Popping the last comma and closing the bracket gives the joined list. */
  lemma PoppedList(parts: seq<string>)
    requires parts != []
    ensures Popped(Opened(parts)) + "]" == List(parts)
  {
    OpenedEndsInComma(parts);
    assert Popped(Opened(parts)) == "[" + Join(parts);
  }

  lemma OpenedItem(parts: seq<string>, k: nat)
    requires k < |parts|
    ensures Opened(parts[..k + 1]) == Opened(parts[..k]) + parts[k] + ","
  {
    assert parts[..k + 1][..k] == parts[..k];
  }

  method RenderGroups(groups: seq<GroupView>) returns (s: string, waves: nat)
    requires groups != []
    ensures s == List(GroupTexts(groups))
    ensures waves == TotalWaves(groups)
  {
    ghost var texts := GroupTexts(groups);
    s, waves := "[", 0;
    for k := 0 to |groups|
      invariant s == Opened(texts[..k])
      invariant waves == TotalWaves(groups[..k])
    {
      s := s + GroupText(groups[k]) + ",";
      waves := waves + groups[k].waves;
      OpenedItem(texts, k);
      assert groups[..k + 1][..k] == groups[..k];
    }
    assert groups[..|groups|] == groups && texts[..|groups|] == texts;
    PoppedList(texts);
    s := Popped(s) + "]";
  }

  method RenderCu(v: CuView) returns (s: string)
    requires CuFull(v)
    ensures s == CuText(v)
  {
    var groups, waves := RenderGroups(v.groups);
    s := Braced(Named("cu_" + Decimal(v.cu), groups) + "," + Named("avg_wave_count", Decimal(waves / |v.groups|)));
  }

  method RenderSe(v: SeView) returns (s: string)
    requires SeFull(v)
    ensures s == SeText(v)
  {
    ghost var texts := CuTexts(v.cus);
    var cus := "[";
    for k := 0 to |v.cus|
      invariant cus == Opened(texts[..k])
    {
      var text := RenderCu(v.cus[k]);
      cus := cus + text + ",";
      OpenedItem(texts, k);
    }
    assert texts[..|v.cus|] == texts;
    PoppedList(texts);
    s := Braced(Named("se_" + Decimal(v.se), Popped(cus) + "]"));
  }

  method RenderXcc(v: XccView) returns (s: string)
    requires XccFull(v)
    ensures s == XccText(v)
  {
    ghost var texts := SeTexts(v.ses);
    var ses := "[";
    for k := 0 to |v.ses|
      invariant ses == Opened(texts[..k])
    {
      var text := RenderSe(v.ses[k]);
      ses := ses + text + ",";
      OpenedItem(texts, k);
    }
    assert texts[..|v.ses|] == texts;
    PoppedList(texts);
    s := Braced(Named("xcc_" + Decimal(v.xcc), Popped(ses) + "]"));
  }

  /** The renderer; with nothing recorded it pops the opening bracket instead of a comma. */
  method Render(kernel: string, dispatch: nat, view: seq<XccView>) returns (s: string)
    requires ViewFull(view)
    ensures s == if view == [] then EmptyReport(kernel, dispatch) else Report(kernel, dispatch, view)
  {
    ghost var texts := XccTexts(view);
    var xccs := "[";
    for k := 0 to |view|
      invariant xccs == Opened(texts[..k])
    {
      var text := RenderXcc(view[k]);
      xccs := xccs + text + ",";
      OpenedItem(texts, k);
    }
    assert texts[..|view|] == texts;
    s := Braced(Heading(kernel, dispatch) + (Popped(xccs) + "]")) + "\n";
    if view != [] {
      PoppedList(texts);
    }
  }

  // -------------------------------------------------------------------------
  // Balanced brackets
  // -------------------------------------------------------------------------

  /** Open brackets and whether the text stands inside a string literal. */
  datatype Nesting = Nesting(open: seq<char>, inString: bool) | Broken

  function Read(n: Nesting, c: char): Nesting {
    if n.Broken? then Broken
    else if c == '"' then n.(inString := !n.inString)
    else if n.inString then n
    else if c == '[' || c == '{' then n.(open := n.open + [c])
    else if c == ']' || c == '}' then
      if n.open != [] && n.open[|n.open| - 1] == (if c == ']' then '[' else '{')
      then n.(open := n.open[..|n.open| - 1]) else Broken
    else n
  }

  function Scan(n: Nesting, s: string): Nesting {
    if s == "" then n else Read(Scan(n, s[..|s| - 1]), s[|s| - 1])
  }

  predicate Balanced(s: string) {
    Scan(Nesting([], false), s) == Nesting([], false)
  }

  lemma {:induction false} ScanConcat(n: Nesting, s: string, t: string)
    ensures Scan(n, s + t) == Scan(Scan(n, s), t)
    decreases |t|
  {
    if t == "" {
      assert s + t == s;
    } else {
      assert (s + t)[..|s + t| - 1] == s + t[..|t| - 1];
      ScanConcat(n, s, t[..|t| - 1]);
    }
  }

  /** Text that leaves every nesting as it found it. */
  ghost predicate Neutral(s: string) {
    forall open: seq<char> :: Scan(Nesting(open, false), s) == Nesting(open, false)
  }

  lemma NeutralConcat(s: string, t: string)
    requires Neutral(s) && Neutral(t)
    ensures Neutral(s + t)
  {
    forall open: seq<char> ensures Scan(Nesting(open, false), s + t) == Nesting(open, false) {
      ScanConcat(Nesting(open, false), s, t);
    }
  }

  lemma {:induction false} PlainIsNeutral(s: string, n: Nesting)
    requires '"' !in s && (n.Nesting? && !n.inString ==> forall c | c in s :: c !in "[]{}")
    ensures Scan(n, s) == n
  {
    if s != "" {
      PlainIsNeutral(s[..|s| - 1], n);
      assert s[|s| - 1] in s;
    }
  }

  lemma DigitsArePlain(n: nat)
    ensures forall c | c in Decimal(n) :: '0' <= c <= '9'
  {
    DecimalIsDigits(n);
  }

  lemma DigitsNeutral(n: nat)
    ensures Neutral(Decimal(n))
  {
    DigitsArePlain(n);
    forall open: seq<char> ensures Scan(Nesting(open, false), Decimal(n)) == Nesting(open, false) {
      PlainIsNeutral(Decimal(n), Nesting(open, false));
    }
  }

  lemma ScanOne(n: Nesting, c: char)
    ensures Scan(n, [c]) == Read(n, c)
  {
    assert [c][..0] == "";
  }

  /** A quoted text without quotes inside. */
  lemma QuotedNeutral(s: string)
    requires '"' !in s
    ensures Neutral("\"" + s + "\"")
  {
    forall open: seq<char> ensures Scan(Nesting(open, false), "\"" + s + "\"") == Nesting(open, false) {
      ScanConcat(Nesting(open, false), "\"" + s, "\"");
      ScanConcat(Nesting(open, false), "\"", s);
      ScanOne(Nesting(open, false), '"');
      PlainIsNeutral(s, Nesting(open, true));
      ScanOne(Nesting(open, true), '"');
    }
  }

  lemma BracketedNeutral(s: string, opening: char, closing: char)
    requires Neutral(s) && (opening, closing) in {('[', ']'), ('{', '}')}
    ensures Neutral([opening] + s + [closing])
  {
    forall open: seq<char>
      ensures Scan(Nesting(open, false), [opening] + s + [closing]) == Nesting(open, false)
    {
      ScanConcat(Nesting(open, false), [opening] + s, [closing]);
      ScanConcat(Nesting(open, false), [opening], s);
      ScanOne(Nesting(open, false), opening);
      ScanOne(Nesting(open + [opening], false), closing);
    }
  }

  lemma PlainNeutral(s: string)
    requires forall c | c in s :: c !in "\"[]{}"
    ensures Neutral(s)
  {
    forall open: seq<char> ensures Scan(Nesting(open, false), s) == Nesting(open, false) {
      PlainIsNeutral(s, Nesting(open, false));
    }
  }

  lemma {:induction false} JoinNeutral(parts: seq<string>)
    requires forall k | 0 <= k < |parts| :: Neutral(parts[k])
    ensures Neutral(Join(parts))
  {
    if parts == [] {
      PlainNeutral("");
    } else if |parts| > 1 {
      var n := |parts| - 1;
      JoinNeutral(parts[..n]);
      PlainNeutral(",");
      NeutralConcat(Join(parts[..n]), ",");
      NeutralConcat(Join(parts[..n]) + ",", parts[n]);
    }
  }

  lemma NeutralConcat3(a: string, b: string, c: string)
    requires Neutral(a) && Neutral(b) && Neutral(c)
    ensures Neutral(a + b + c)
  {
    NeutralConcat(a, b);
    NeutralConcat(a + b, c);
  }

  lemma NamedNeutral(name: string, value: string)
    requires '"' !in name && Neutral(value)
    ensures Neutral(Named(name, value))
  {
    QuotedNeutral(name);
    PlainNeutral(": ");
    NeutralConcat3(Quoted(name), ": ", value);
  }

  lemma BracedNeutral(s: string)
    requires Neutral(s)
    ensures Neutral(Braced(s))
  {
    BracketedNeutral(s, '{', '}');
    assert Braced(s) == ['{'] + s + ['}'];
  }

  lemma ListNeutral(parts: seq<string>)
    requires forall k | 0 <= k < |parts| :: Neutral(parts[k])
    ensures Neutral(List(parts))
  {
    JoinNeutral(parts);
    BracketedNeutral(Join(parts), '[', ']');
    assert List(parts) == ['['] + Join(parts) + [']'];
  }

  lemma GroupNeutral(v: GroupView)
    ensures Neutral(GroupText(v))
  {
    DigitsArePlain(v.group.x);
    DigitsArePlain(v.group.y);
    DigitsArePlain(v.group.z);
    QuotedNeutral("(" + Decimal(v.group.x) + "," + Decimal(v.group.y) + "," + Decimal(v.group.z) + ")");
  }

  lemma CuNeutral(v: CuView)
    requires CuFull(v)
    ensures Neutral(CuText(v))
  {
    forall k | 0 <= k < |v.groups| ensures Neutral(GroupTexts(v.groups)[k]) {
      GroupNeutral(v.groups[k]);
    }
    var average := TotalWaves(v.groups) / |v.groups|;
    var list := List(GroupTexts(v.groups));
    ListNeutral(GroupTexts(v.groups));
    DigitsArePlain(v.cu);
    NamedNeutral("cu_" + Decimal(v.cu), list);
    DigitsNeutral(average);
    NamedNeutral("avg_wave_count", Decimal(average));
    PlainNeutral(",");
    NeutralConcat3(Named("cu_" + Decimal(v.cu), list), ",", Named("avg_wave_count", Decimal(average)));
    BracedNeutral(Named("cu_" + Decimal(v.cu), list) + "," + Named("avg_wave_count", Decimal(average)));
  }

  lemma SeNeutral(v: SeView)
    requires SeFull(v)
    ensures Neutral(SeText(v))
  {
    forall k | 0 <= k < |v.cus| ensures Neutral(CuTexts(v.cus)[k]) {
      CuNeutral(v.cus[k]);
    }
    ListNeutral(CuTexts(v.cus));
    DigitsArePlain(v.se);
    NamedNeutral("se_" + Decimal(v.se), List(CuTexts(v.cus)));
    BracedNeutral(Named("se_" + Decimal(v.se), List(CuTexts(v.cus))));
  }

  lemma XccNeutral(v: XccView)
    requires XccFull(v)
    ensures Neutral(XccText(v))
  {
    forall k | 0 <= k < |v.ses| ensures Neutral(SeTexts(v.ses)[k]) {
      SeNeutral(v.ses[k]);
    }
    ListNeutral(SeTexts(v.ses));
    DigitsArePlain(v.xcc);
    NamedNeutral("xcc_" + Decimal(v.xcc), List(SeTexts(v.ses)));
    BracedNeutral(Named("xcc_" + Decimal(v.xcc), List(SeTexts(v.ses))));
  }

  lemma HeadingNeutral(kernel: string, dispatch: nat)
    requires '"' !in kernel
    ensures Neutral(Heading(kernel, dispatch))
  {
    var a, b, c := Named("kernel", Quoted(kernel)), Named("dispatch", Decimal(dispatch)), Quoted("resources") + ":";
    QuotedNeutral(kernel);
    NamedNeutral("kernel", Quoted(kernel));
    DigitsNeutral(dispatch);
    NamedNeutral("dispatch", Decimal(dispatch));
    QuotedNeutral("resources");
    PlainNeutral(":");
    NeutralConcat(Quoted("resources"), ":");
    PlainNeutral(", ");
    NeutralConcat3(a, ", ", b);
    NeutralConcat3(a + ", " + b, ", ", c);
  }

  /** The comma-joined report is balanced. */
  lemma ReportIsBalanced(kernel: string, dispatch: nat, view: seq<XccView>)
    requires '"' !in kernel && ViewFull(view)
    ensures Balanced(Report(kernel, dispatch, view))
  {
    forall k | 0 <= k < |view| ensures Neutral(XccTexts(view)[k]) {
      XccNeutral(view[k]);
    }
    HeadingNeutral(kernel, dispatch);
    ListNeutral(XccTexts(view));
    NeutralConcat(Heading(kernel, dispatch), List(XccTexts(view)));
    BracedNeutral(Heading(kernel, dispatch) + List(XccTexts(view)));
    PlainNeutral("\n");
    NeutralConcat(Braced(Heading(kernel, dispatch) + List(XccTexts(view))), "\n");
  }

  /** Without any message the popped bracket leaves the report unbalanced. */
  lemma EmptyReportIsBroken(kernel: string, dispatch: nat)
    requires '"' !in kernel
    ensures !Balanced(EmptyReport(kernel, dispatch))
  {
    var start, inside := Nesting([], false), Nesting(['{'], false);
    var rest := "]" + "}\n";
    assert EmptyReport(kernel, dispatch) == "{" + (Heading(kernel, dispatch) + rest);
    ScanConcat(start, "{", Heading(kernel, dispatch) + rest);
    ScanOne(start, '{');
    assert Read(start, '{') == inside;
    HeadingNeutral(kernel, dispatch);
    ScanConcat(inside, Heading(kernel, dispatch), rest);
    ScanConcat(inside, "]", "}\n");
    ScanOne(inside, ']');
    assert Scan(inside, "]") == Broken;
    ScanBroken("}\n");
  }

  lemma {:induction false} ScanBroken(s: string)
    ensures Scan(Broken, s) == Broken
  {
    if s != "" {
      ScanBroken(s[..|s| - 1]);
    }
  }

  /** The rendered text is the joined report, and balanced, exactly when something was recorded. */
  method RenderResources(kernel: string, dispatch: nat, r: Resources, view: seq<XccView>) returns (s: string)
    requires NoEmptyInside(r) && Listed(r, view)
    ensures '"' !in kernel ==> (Balanced(s) <==> r != map[])
    ensures r != map[] ==> ViewFull(view) && s == Report(kernel, dispatch, view)
  {
    ListedIsFull(r, view);
    s := Render(kernel, dispatch, view);
    if '"' !in kernel {
      if view == [] {
        EmptyReportIsBroken(kernel, dispatch);
      } else {
        ReportIsBalanced(kernel, dispatch, view);
      }
    }
  }

  // -------------------------------------------------------------------------
  // What the report says
  // -------------------------------------------------------------------------

  function Pair(w: Workgroup, wave: nat): (Workgroup, nat) {
    (w, wave)
  }

  /** The waves of these workgroups of a compute unit. */
  ghost function WavesOf(g: Groups, ws: set<Workgroup>): set<(Workgroup, nat)> {
    set w, wave | w in ws && w in g && wave in g[w] :: Pair(w, wave)
  }

  ghost function Paired(w: Workgroup, waves: set<nat>): set<(Workgroup, nat)> {
    set wave | wave in waves :: Pair(w, wave)
  }

  lemma {:induction false} PairedSize(w: Workgroup, waves: set<nat>)
    ensures |Paired(w, waves)| == |waves|
  {
    if waves != {} {
      var x :| x in waves;
      PairedSize(w, waves - {x});
      assert Paired(w, waves) == Paired(w, waves - {x}) + {Pair(w, x)};
    }
  }

  lemma WavesOfOneMore(g: Groups, ws: set<Workgroup>, w: Workgroup)
    requires w in g && w !in ws
    ensures |WavesOf(g, ws + {w})| == |WavesOf(g, ws)| + |g[w]|
  {
    var more := Paired(w, g[w]);
    PairedSize(w, g[w]);
    assert WavesOf(g, ws + {w}) == WavesOf(g, ws) + more;
    assert WavesOf(g, ws) !! more;
  }

  /** The workgroups of the first n groups that are listed. */
  ghost function ListedGroups(v: seq<GroupView>, n: nat): set<Workgroup>
    requires n <= |v|
  {
    set k: nat | k < n :: v[k].group
  }

  lemma {:induction false} WavesOfListed(g: Groups, v: seq<GroupView>, n: nat)
    requires GroupsListed(g, v) && n <= |v|
    ensures TotalWaves(v[..n]) == |WavesOf(g, ListedGroups(v, n))|
  {
    if n == 0 {
      assert WavesOf(g, ListedGroups(v, 0)) == {};
    } else {
      WavesOfListed(g, v, n - 1);
      assert v[..n][..n - 1] == v[..n - 1];
      assert ListedGroups(v, n) == ListedGroups(v, n - 1) + {v[n - 1].group};
      WavesOfOneMore(g, ListedGroups(v, n - 1), v[n - 1].group);
    }
  }

  /** The sum that the average is taken of is the number of different waves of the compute unit. */
  lemma WavesAreCounted(g: Groups, v: seq<GroupView>)
    requires GroupsListed(g, v)
    ensures TotalWaves(v) == |WavesOf(g, g.Keys)| && |v| == |g|
  {
    WavesOfListed(g, v, |v|);
    assert v[..|v|] == v;
    assert ListedGroups(v, |v|) == g.Keys;
    ListedOnce(g, v, |v|);
  }

  lemma {:induction false} ListedOnce(g: Groups, v: seq<GroupView>, n: nat)
    requires GroupsListed(g, v) && n <= |v|
    ensures |ListedGroups(v, n)| == n
  {
    if n > 0 {
      ListedOnce(g, v, n - 1);
      assert ListedGroups(v, n) == ListedGroups(v, n - 1) + {v[n - 1].group};
    }
  }

  lemma NamedReads(name: string, value: string)
    ensures Named(name, value) == "\"" + name + "\": " + value
  {
    assert Quoted(name) + ": " == "\"" + name + "\": ";
  }

  /** A numbered level: its name, its number, and the list inside. */
  lemma LevelReads(level: string, number: string, value: string)
    ensures Named(level + number, value) == ("\"" + level) + number + "\": " + value
  {
    NamedReads(level + number, value);
    assert "\"" + (level + number) == ("\"" + level) + number;
  }

  lemma RoundedDown(total: nat, n: nat)
    requires n > 0
    ensures total / n * n <= total < (total / n + 1) * n
  {
  }

  lemma CuTextReads(v: CuView)
    requires CuFull(v)
    ensures CuText(v) ==
            "{" + ("\"cu_" + Decimal(v.cu) + "\": " + List(GroupTexts(v.groups)) + ","
                   + ("\"avg_wave_count\": " + Decimal(TotalWaves(v.groups) / |v.groups|))) + "}"
  {
    LevelReads("cu_", Decimal(v.cu), List(GroupTexts(v.groups)));
    NamedReads("avg_wave_count", Decimal(TotalWaves(v.groups) / |v.groups|));
    assert "\"" + "cu_" == "\"cu_" && "\"" + "avg_wave_count" + "\": " == "\"avg_wave_count\": ";
  }

  /** The average in that text: how many waves the compute unit holds, by workgroups, rounded down. */
  lemma AverageIsWavesPerGroup(g: Groups, v: seq<GroupView>)
    requires v != [] && GroupsListed(g, v)
    ensures TotalWaves(v) / |v| * |g| <= |WavesOf(g, g.Keys)| < (TotalWaves(v) / |v| + 1) * |g|
  {
    WavesAreCounted(g, v);
    RoundedDown(TotalWaves(v), |v|);
  }

  const FIRST_GROUP: GroupView := GroupView(Workgroup(4, 5, 6), 7)
  const SECOND_GROUP: GroupView := GroupView(Workgroup(7, 8, 9), 2)
  const TWO_GROUPS: CuView := CuView(3, [FIRST_GROUP, SECOND_GROUP])
  const ONE_SE: SeView := SeView(2, [TWO_GROUPS])
  const ONE_XCC: XccView := XccView(1, [ONE_SE])

  lemma OneText(s: string)
    ensures Join([s]) == s && List([s]) == "[" + s + "]"
  {
  }

  lemma GroupTextsRead()
    ensures List(GroupTexts(TWO_GROUPS.groups)) == "[\"(4,5,6)\",\"(7,8,9)\"]"
  {
    var a, b := GroupText(FIRST_GROUP), GroupText(SECOND_GROUP);
    assert a == "\"(4,5,6)\"" && b == "\"(7,8,9)\"";
    assert GroupTexts(TWO_GROUPS.groups) == [a, b] && [a, b][..1] == [a];
    OneText(a);
    assert Join([a, b]) == a + "," + b;
  }

  lemma AverageReads()
    ensures TotalWaves(TWO_GROUPS.groups) == 9
  {
    var groups := TWO_GROUPS.groups;
    assert groups[..1] == [FIRST_GROUP] && [FIRST_GROUP][..0] == [];
    assert TotalWaves([FIRST_GROUP]) == 7;
  }

  lemma DigitsRead()
    ensures Decimal(1) == "1" && Decimal(2) == "2" && Decimal(3) == "3" && Decimal(4) == "4" && Decimal(8) == "8"
  {
  }

  lemma CuPieces(items: string)
    ensures "{" + ("\"cu_" + "3" + "\": " + items + "," + ("\"avg_wave_count\": " + "4")) + "}" ==
            "{\"cu_3\": " + items + ",\"avg_wave_count\": 4}"
  {
    assert "\"cu_" + "3" + "\": " == "\"cu_3\": ";
    assert "\"avg_wave_count\": " + "4" == "\"avg_wave_count\": 4";
    var tail := "\"avg_wave_count\": 4";
    assert "{" + ("\"cu_3\": " + items + "," + tail) + "}" == "{" + "\"cu_3\": " + items + ("," + tail + "}");
  }

  /** Nine waves of two workgroups on a compute unit. */
  lemma TwoGroupsRead()
    ensures CuText(TWO_GROUPS) == "{\"cu_3\": " + "[\"(4,5,6)\",\"(7,8,9)\"]" + ",\"avg_wave_count\": 4}"
  {
    GroupTextsRead();
    AverageReads();
    CuTextReads(TWO_GROUPS);
    DigitsRead();
    CuPieces(List(GroupTexts(TWO_GROUPS.groups)));
  }

  lemma LevelPieces(before: string, value: string)
    ensures "{" + (before + ("[" + value + "]")) + "}" == "{" + before + "[" + value + "]}"
  {
  }

  lemma SeReads()
    ensures SeText(ONE_SE) == "{" + "\"se_2\": " + "[" + CuText(TWO_GROUPS) + "]}"
  {
    var cu := CuText(TWO_GROUPS);
    assert CuTexts(ONE_SE.cus) == [cu];
    OneText(cu);
    DigitsRead();
    LevelReads("se_", "2", "[" + cu + "]");
    assert ("\"" + "se_") + "2" + "\": " == "\"se_2\": ";
    LevelPieces("\"se_2\": ", cu);
  }

  /** The compute unit stands in its shader engine, and that in its XCC. */
  lemma XccReads()
    ensures XccText(ONE_XCC) == "{" + "\"xcc_1\": " + "[" + SeText(ONE_SE) + "]}"
  {
    var se := SeText(ONE_SE);
    assert SeTexts(ONE_XCC.ses) == [se];
    OneText(se);
    DigitsRead();
    LevelReads("xcc_", "1", "[" + se + "]");
    assert ("\"" + "xcc_") + "1" + "\": " == "\"xcc_1\": ";
    LevelPieces("\"xcc_1\": ", se);
  }

  lemma HeadingReads(kernel: string, dispatch: nat)
    ensures Heading(kernel, dispatch) ==
            ("\"kernel\": " + ("\"" + kernel + "\"")) + ", " + ("\"dispatch\": " + Decimal(dispatch)) + ", " + "\"resources\":"
  {
    NamedReads("kernel", Quoted(kernel));
    NamedReads("dispatch", Decimal(dispatch));
    assert "\"" + "kernel" + "\": " == "\"kernel\": " && "\"" + "dispatch" + "\": " == "\"dispatch\": ";
    assert Quoted("resources") + ":" == "\"resources\":";
  }

  /** The list of resources stands between the heading and the closing brace. */
  lemma ReportReads(kernel: string, dispatch: nat)
    ensures ViewFull([ONE_XCC])
    ensures Report(kernel, dispatch, [ONE_XCC]) ==
            "{" + (("\"kernel\": " + ("\"" + kernel + "\"")) + ", " + ("\"dispatch\": " + Decimal(dispatch)) + ", "
                   + "\"resources\":" + ("[" + XccText(ONE_XCC) + "]")) + "}" + "\n"
  {
    assert XccTexts([ONE_XCC]) == [XccText(ONE_XCC)];
    OneText(XccText(ONE_XCC));
    HeadingReads(kernel, dispatch);
  }
}
