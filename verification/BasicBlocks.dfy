// Basic-block accounting (src/basic_block_analysis.cc): a state machine per wave whose
// credits depend only on each wave's own messages and telescope over a wave's lives.
module BasicBlocks {
  import opened Credits
  import opened Words
  import CR = ComputeResources

  // -------------------------------------------------------------------------
  // Data model
  // -------------------------------------------------------------------------

  datatype Wave = Wave(x: nat, y: nat, z: nat, id: nat)

  /** What the accounting looks at: whether a block has instructions and ends in s_endpgm. */
  datatype Block = Block(isEmpty: bool, endsProgram: bool)

  type Kernel = seq<Block>

  /** The header of a basic-block message. */
  datatype Header = Header(wave: Wave, xcc: nat, se: nat, cu: nat, exec: nat, block: nat, timestamp: nat)

  datatype WaveState = WaveState(block: nat, start: nat, count: nat)

  datatype BlockInfo = BlockInfo(threads: nat, count: nat, duration: nat)

  datatype State = State(waves: map<Wave, WaveState>, info: map<nat, BlockInfo>)

  const START: State := State(map[], map[])

  ghost predicate Wellformed(kernel: Kernel, h: Header) {
    h.block < |kernel| && h.timestamp < TWO_64 && h.exec < TWO_64
  }

  ghost predicate AllWellformed(kernel: Kernel, ms: seq<Header>) {
    forall i | 0 <= i < |ms| :: Wellformed(kernel, ms[i])
  }

  predicate HasInstructions(kernel: Kernel, block: nat) {
    block < |kernel| && !kernel[block].isEmpty
  }

  predicate EndsProgram(kernel: Kernel, block: nat) {
    block < |kernel| && kernel[block].endsProgram
  }

  // -------------------------------------------------------------------------
  // Active threads
  // -------------------------------------------------------------------------

  function PopCount(mask: nat): nat {
    if mask == 0 then 0 else mask % 2 + PopCount(mask / 2)
  }

  predicate IsSet(mask: nat, lane: nat)
    decreases lane
  {
    if lane == 0 then mask % 2 == 1 else IsSet(mask / 2, lane - 1)
  }

  /** The lanes below `width` whose bit is set. */
  function ActiveLanes(mask: nat, width: nat): set<nat> {
    set lane: nat | lane < width && IsSet(mask, lane)
  }

  function PowerOfTwo(n: nat): nat {
    if n == 0 then 1 else 2 * PowerOfTwo(n - 1)
  }

  function Next(lane: nat): nat {
    lane + 1
  }

  function Nexts(s: set<nat>): set<nat> {
    set lane | lane in s :: Next(lane)
  }

  lemma {:induction false} NextsSize(s: set<nat>)
    ensures |Nexts(s)| == |s|
  {
    if s != {} {
      var x :| x in s;
      NextsSize(s - {x});
      assert Nexts(s) == Nexts(s - {x}) + {Next(x)};
    }
  }

  lemma ActiveLanesOfHalf(mask: nat, width: nat)
    requires width > 0
    ensures |ActiveLanes(mask, width)| == |ActiveLanes(mask / 2, width - 1)| + mask % 2
  {
    var half, all := ActiveLanes(mask / 2, width - 1), ActiveLanes(mask, width);
    forall lane | lane in all && lane > 0 ensures lane in Nexts(half) {
      assert lane - 1 in half && Next(lane - 1) == lane;
    }
    NextsSize(half);
    assert 0 in all <==> mask % 2 == 1;
    if mask % 2 == 1 {
      assert all == Nexts(half) + {0};
    } else {
      assert all == Nexts(half);
    }
  }

  /** The bit count of an execution mask is the number of its active lanes. */
  lemma {:induction false} PopCountIsActiveLanes(mask: nat, width: nat)
    requires mask < PowerOfTwo(width)
    ensures PopCount(mask) == |ActiveLanes(mask, width)|
  {
    if width == 0 {
      assert ActiveLanes(mask, 0) == {};
    } else {
      PopCountIsActiveLanes(mask / 2, width - 1);
      ActiveLanesOfHalf(mask, width);
    }
  }

  method CountSetBits(mask: nat) returns (count: nat)
    ensures count == PopCount(mask)
  {
    count := 0;
    var rest := mask;
    while rest != 0
      invariant count + PopCount(rest) == PopCount(mask)
    {
      count := count + rest % 2;
      rest := rest / 2;
    }
  }

  // -------------------------------------------------------------------------
  // One message
  // -------------------------------------------------------------------------

  function Credited(info: map<nat, BlockInfo>, block: nat, count: nat, threads: nat, time: nat): map<nat, BlockInfo> {
    if block in info then
      var i := info[block];
      info[block := BlockInfo(i.threads + threads, i.count + count, Add64(i.duration, time))]
    else
      info[block := BlockInfo(threads, 1, time)]
  }

  /** The running times in the states are 64-bit words, and every wave state counts one execution. */
  ghost predicate ValidState(s: State) {
    && (forall w | w in s.waves :: s.waves[w].count == 1 && s.waves[w].start < TWO_64)
    && (forall b | b in s.info :: s.info[b].duration < TWO_64)
  }

  function Step(kernel: Kernel, s: State, h: Header): State
    requires ValidState(s) && Wellformed(kernel, h)
  {
    if !HasInstructions(kernel, h.block) then s
    else if h.wave in s.waves then
      var w := s.waves[h.wave];
      State(
        if EndsProgram(kernel, h.block) then s.waves - {h.wave}
        else s.waves[h.wave := WaveState(h.block, h.timestamp, 1)],
        Credited(s.info, w.block, w.count, PopCount(h.exec), Sub64(h.timestamp, w.start)))
    else
      s.(waves := s.waves[h.wave := WaveState(h.block, h.timestamp, 1)])
  }

  lemma StepIsValid(kernel: Kernel, s: State, h: Header)
    requires ValidState(s) && Wellformed(kernel, h)
    ensures ValidState(Step(kernel, s, h))
  {
  }

  datatype Database = Absent | KernelUnknown | Found(kernel: Kernel)

  /** Where the header of a message says that its wave ran. */
  ghost predicate IsPlaceOf(p: CR.Place, h: Header) {
    && p.xcc == h.xcc && p.se == h.se && p.cu == h.cu
    && p.group.x == h.wave.x && p.group.y == h.wave.y && p.group.z == h.wave.z && p.wave == h.wave.id
  }

  ghost predicate SomePlaceOf(p: CR.Place, ms: seq<Header>) {
    exists i :: 0 <= i < |ms| && IsPlaceOf(p, ms[i])
  }

  /** The map holds exactly the places of these messages. */
  ghost predicate HoldsPlacesOf(resources: CR.Resources, ms: seq<Header>) {
    forall p :: CR.Holds(resources, p) <==> SomePlaceOf(p, ms)
  }

  lemma PlacesOfOneMore(before: CR.Resources, after: CR.Resources, ms: seq<Header>, h: Header)
    requires HoldsPlacesOf(before, ms)
    requires forall p :: CR.Holds(after, p) <==> CR.Holds(before, p) || IsPlaceOf(p, h)
    ensures HoldsPlacesOf(after, ms + [h])
  {
    var all := ms + [h];
    forall p ensures CR.Holds(after, p) <==> SomePlaceOf(p, all) {
      if CR.Holds(before, p) {
        var i :| 0 <= i < |ms| && IsPlaceOf(p, ms[i]);
        assert all[i] == ms[i];
      }
      if IsPlaceOf(p, h) {
        assert all[|ms|] == h;
      }
    }
  }

  class Analysis {
    const database: Database
    var waveStates: map<Wave, WaveState>
    var blockInfo: map<nat, BlockInfo>
    var resources: CR.Resources
    var messageCount: nat
    /** The messages handled so far. */
    ghost var handled: seq<Header>

    constructor (database: Database)
      ensures this.database == database && Valid()
      ensures View() == START && resources == map[] && messageCount == 0 && handled == []
    {
      this.database := database;
      waveStates, blockInfo, resources, messageCount, handled := map[], map[], map[], 0, [];
    }

    function View(): State
      reads this`waveStates, this`blockInfo
    {
      State(waveStates, blockInfo)
    }

    ghost predicate Valid()
      reads this
    {
      ValidState(View()) && ResourcesValid() && AccountsFor(handled) && messageCount == |handled|
    }

    /** The accounts are those of these messages. */
    ghost predicate AccountsFor(ms: seq<Header>)
      reads this`waveStates, this`blockInfo
    {
      database.Found? ==> AllWellformed(database.kernel, ms) && View() == Run(database.kernel, ms)
    }

    /** The resources are the places of the messages handled. */
    ghost predicate ResourcesValid()
      reads this`resources, this`handled
    {
      CR.NoEmptyInside(resources) && HoldsPlacesOf(resources, handled)
    }

    static function PlaceOf(h: Header): (p: CR.Place)
      ensures IsPlaceOf(p, h)
    {
      CR.Place(h.xcc, h.se, h.cu, CR.Workgroup(h.wave.x, h.wave.y, h.wave.z), h.wave.id)
    }

    method UpdateComputeResources(h: Header)
      requires ResourcesValid()
      modifies this`resources, this`handled
      ensures ResourcesValid() && resources != map[] && handled == old(handled) + [h]
      ensures forall q :: CR.Holds(resources, q) <==> old(CR.Holds(resources, q)) || IsPlaceOf(q, h)
    {
      ghost var before := resources;
      resources := CR.Insert(resources, PlaceOf(h));
      PlacesOfOneMore(before, resources, handled, h);
      handled := handled + [h];
    }

    /** The accounting of a message whose block has instructions. */
    method Account(kernel: Kernel, h: Header)
      requires ValidState(View()) && Wellformed(kernel, h) && HasInstructions(kernel, h.block)
      modifies this`waveStates, this`blockInfo
      ensures ValidState(View()) && View() == Step(kernel, old(View()), h)
    {
      ghost var before := View();
      StepIsValid(kernel, before, h);
      if h.wave in waveStates {
        var w := waveStates[h.wave];
        var threads := CountSetBits(h.exec);
        if w.block in blockInfo {
          var i := blockInfo[w.block];
          blockInfo := blockInfo[w.block :=
            BlockInfo(i.threads + threads, i.count + w.count, Add64(i.duration, Sub64(h.timestamp, w.start)))];
        } else {
          blockInfo := blockInfo[w.block := BlockInfo(threads, 1, Sub64(h.timestamp, w.start))];
        }
        if kernel[h.block].endsProgram {
          waveStates := waveStates - {h.wave};
        } else {
          waveStates := waveStates[h.wave := WaveState(h.block, h.timestamp, 1)];
        }
      } else {
        waveStates := waveStates[h.wave := WaveState(h.block, h.timestamp, 1)];
      }
    }

    /** The accounting of any message, after the messages `before`. */
    method AccountNext(kernel: Kernel, h: Header, ghost before: seq<Header>)
      requires database == Found(kernel) && ValidState(View()) && AccountsFor(before) && Wellformed(kernel, h)
      modifies this`waveStates, this`blockInfo
      ensures ValidState(View()) && AccountsFor(before + [h]) && View() == Step(kernel, old(View()), h)
    {
      RunOneMore(kernel, before, h);
      if !kernel[h.block].isEmpty {
        Account(kernel, h);
      }
    }

    method Handle(h: Header) returns (ok: bool)
      requires Valid()
      requires database.Found? ==> Wellformed(database.kernel, h)
      modifies this
      ensures Valid()
      ensures ok == !database.KernelUnknown?
      ensures View() == if database.Found? then Step(database.kernel, old(View()), h) else old(View())
      ensures messageCount == old(messageCount) + if database.Absent? then 0 else 1
      ensures database.Absent? ==> resources == old(resources)
      ensures !database.Absent? ==> resources != map[]
      ensures !database.Absent? ==>
                forall q :: CR.Holds(resources, q) <==> old(CR.Holds(resources, q)) || IsPlaceOf(q, h)
      ensures handled == if database.Absent? then old(handled) else old(handled) + [h]
    {
      if database.Absent? {
        return true;
      }
      messageCount := messageCount + 1;
      UpdateComputeResources(h);
      assert View() == old(View());
      if database.KernelUnknown? {
        return false;
      }
      AccountNext(database.kernel, h, old(handled));
      ok := true;
    }
  }

  // -------------------------------------------------------------------------
  // Streams
  // -------------------------------------------------------------------------

  function RunFrom(kernel: Kernel, s: State, ms: seq<Header>): (r: State)
    requires ValidState(s) && AllWellformed(kernel, ms)
    ensures ValidState(r)
    decreases |ms|
  {
    if ms == [] then s
    else
      StepIsValid(kernel, s, ms[0]);
      RunFrom(kernel, Step(kernel, s, ms[0]), ms[1..])
  }

  lemma {:induction false} RunConcat(kernel: Kernel, s: State, a: seq<Header>, b: seq<Header>)
    requires ValidState(s) && AllWellformed(kernel, a) && AllWellformed(kernel, b)
    ensures RunFrom(kernel, s, a + b) == RunFrom(kernel, RunFrom(kernel, s, a), b)
    decreases |a|
  {
    if a == [] {
      assert a + b == b;
    } else {
      assert (a + b)[1..] == a[1..] + b;
      StepIsValid(kernel, s, a[0]);
      RunConcat(kernel, Step(kernel, s, a[0]), a[1..], b);
    }
  }

  /** The messages of one wave, in order. */
  function OfWave(ms: seq<Header>, w: Wave): seq<Header> {
    if ms == [] then []
    else (if ms[0].wave == w then [ms[0]] else []) + OfWave(ms[1..], w)
  }

  lemma {:induction false} OfWaveConcat(a: seq<Header>, b: seq<Header>, w: Wave)
    ensures OfWave(a + b, w) == OfWave(a, w) + OfWave(b, w)
  {
    if a == [] {
      assert a + b == b;
    } else {
      assert (a + b)[1..] == a[1..] + b;
      OfWaveConcat(a[1..], b, w);
    }
  }

  // -------------------------------------------------------------------------
  // Messages of different waves commute
  // -------------------------------------------------------------------------

  lemma CreditedCommutes(info: map<nat, BlockInfo>, b: nat, t: nat, d: nat, c: nat, u: nat, e: nat)
    requires forall k | k in info :: info[k].duration < TWO_64
    requires d < TWO_64 && e < TWO_64
    ensures Credited(Credited(info, b, 1, t, d), c, 1, u, e) == Credited(Credited(info, c, 1, u, e), b, 1, t, d)
  {
    var x, y := Credited(Credited(info, b, 1, t, d), c, 1, u, e), Credited(Credited(info, c, 1, u, e), b, 1, t, d);
    assert x.Keys == y.Keys;
    if b == c {
      if b in info {
        Add64Commutes(info[b].duration, d, e);
      }
      assert x[b] == y[b];
    }
    forall k | k in x && k != b && k != c ensures x[k] == y[k] {
    }
  }

  lemma StepsCommute(kernel: Kernel, s: State, g: Header, h: Header)
    requires ValidState(s) && Wellformed(kernel, g) && Wellformed(kernel, h) && g.wave != h.wave
    requires ValidState(Step(kernel, s, g)) && ValidState(Step(kernel, s, h))
    ensures Step(kernel, Step(kernel, s, g), h) == Step(kernel, Step(kernel, s, h), g)
  {
    var x, y := Step(kernel, Step(kernel, s, g), h), Step(kernel, Step(kernel, s, h), g);
    assert x.waves == y.waves;
    if HasInstructions(kernel, g.block) && HasInstructions(kernel, h.block) && g.wave in s.waves && h.wave in s.waves {
      var v, w := s.waves[g.wave], s.waves[h.wave];
      CreditedCommutes(s.info, v.block, PopCount(g.exec), Sub64(g.timestamp, v.start),
        w.block, PopCount(h.exec), Sub64(h.timestamp, w.start));
    }
  }

  /** A message can be moved before any messages of other waves. */
  lemma {:induction false} MoveToFront(kernel: Kernel, s: State, before: seq<Header>, h: Header)
    requires ValidState(s) && AllWellformed(kernel, before) && Wellformed(kernel, h)
    requires forall i | 0 <= i < |before| :: before[i].wave != h.wave
    ensures RunFrom(kernel, s, before + [h]) == RunFrom(kernel, s, [h] + before)
    decreases |before|
  {
    if before != [] {
      var g := before[0];
      StepIsValid(kernel, s, g);
      StepIsValid(kernel, s, h);
      StepsCommute(kernel, s, g, h);
      assert (before + [h])[1..] == before[1..] + [h];
      MoveToFront(kernel, Step(kernel, s, g), before[1..], h);
      assert ([h] + before)[1..] == before && ([h] + before[1..])[1..] == before[1..];
      StepIsValid(kernel, Step(kernel, s, g), h);
    } else {
      assert before + [h] == [h] + before;
    }
  }

  /** Where a wave's first message stands in a stream. */
  lemma {:induction false} FirstOfWave(ms: seq<Header>, w: Wave) returns (i: nat)
    requires OfWave(ms, w) != []
    ensures i < |ms| && ms[i] == OfWave(ms, w)[0] && ms[i].wave == w
    ensures forall k | 0 <= k < i :: ms[k].wave != w
    ensures OfWave(ms[..i], w) == []
  {
    if ms[0].wave == w {
      i := 0;
    } else {
      var j := FirstOfWave(ms[1..], w);
      i := j + 1;
      assert ms[..i][1..] == ms[1..][..j];
    }
  }

  /** Two streams with the same messages per wave leave the same state, however the waves interleave. */
  lemma {:induction false} InterleavingDoesNotMatter(kernel: Kernel, s: State, a: seq<Header>, b: seq<Header>)
    requires ValidState(s) && AllWellformed(kernel, a) && AllWellformed(kernel, b)
    requires forall w :: OfWave(a, w) == OfWave(b, w)
    ensures RunFrom(kernel, s, a) == RunFrom(kernel, s, b)
    decreases |a|
  {
    if a == [] {
      NoMessages(b);
    } else {
      var h := a[0];
      assert OfWave(b, h.wave) == OfWave(a, h.wave);
      var i := FirstOfWave(b, h.wave);
      var rest := b[..i] + b[i + 1..];
      forall w ensures OfWave(a[1..], w) == OfWave(rest, w) {
        SameAfterRemoval(a, b, i, w);
      }
      StepIsValid(kernel, s, h);
      InterleavingDoesNotMatter(kernel, Step(kernel, s, h), a[1..], rest);
      MoveInStream(kernel, s, b, i);
    }
  }

  lemma NoMessages(b: seq<Header>)
    requires forall w :: OfWave(b, w) == []
    ensures b == []
  {
    assert b != [] ==> OfWave(b, b[0].wave) != [];
  }

  lemma RemovalFromWave(b: seq<Header>, i: nat, w: Wave)
    requires i < |b|
    ensures OfWave(b, w) == OfWave(b[..i], w) + (if b[i].wave == w then [b[i]] else []) + OfWave(b[i + 1..], w)
    ensures OfWave(b[..i] + b[i + 1..], w) == OfWave(b[..i], w) + OfWave(b[i + 1..], w)
  {
    assert b == b[..i] + b[i..];
    OfWaveConcat(b[..i], b[i..], w);
    assert b[i..][1..] == b[i + 1..];
    OfWaveConcat(b[..i], b[i + 1..], w);
  }

  lemma SameAfterRemoval(a: seq<Header>, b: seq<Header>, i: nat, w: Wave)
    requires a != [] && i < |b| && b[i] == a[0]
    requires OfWave(a, w) == OfWave(b, w) && (w == a[0].wave ==> OfWave(b[..i], w) == [])
    ensures OfWave(a[1..], w) == OfWave(b[..i] + b[i + 1..], w)
  {
    RemovalFromWave(b, i, w);
    SameTail(a[0], OfWave(a[1..], w), OfWave(b[..i], w), OfWave(b[i + 1..], w), w == a[0].wave);
  }

  lemma SameTail(h: Header, rest: seq<Header>, p: seq<Header>, q: seq<Header>, own: bool)
    requires (if own then [h] else []) + rest == p + (if own then [h] else []) + q
    requires own ==> p == []
    ensures rest == p + q
  {
    if own {
      assert rest == ([h] + rest)[1..] && q == ([h] + q)[1..] && [] + [h] + q == [h] + q && p + q == q;
    } else {
      assert [] + rest == rest && p + [] + q == p + q;
    }
  }

  lemma MoveInStream(kernel: Kernel, s: State, b: seq<Header>, i: nat)
    requires ValidState(s) && AllWellformed(kernel, b) && i < |b|
    requires forall k | 0 <= k < i :: b[k].wave != b[i].wave
    ensures ValidState(Step(kernel, s, b[i]))
    ensures RunFrom(kernel, s, b) == RunFrom(kernel, Step(kernel, s, b[i]), b[..i] + b[i + 1..])
  {
    StepIsValid(kernel, s, b[i]);
    var before, h, after := b[..i], b[i], b[i + 1..];
    assert b == (before + [h]) + after;
    RunConcat(kernel, s, before + [h], after);
    MoveToFront(kernel, s, before, h);
    RunConcat(kernel, s, [h] + before, after);
    assert (([h] + before) + after)[1..] == before + after;
  }

  // -------------------------------------------------------------------------
  // Lives: what a wave's own messages are worth
  // -------------------------------------------------------------------------

  function Run(kernel: Kernel, ms: seq<Header>): State
    requires AllWellformed(kernel, ms)
  {
    RunFrom(kernel, START, ms)
  }

  lemma RunSnoc(kernel: Kernel, ms: seq<Header>)
    requires ms != [] && AllWellformed(kernel, ms)
    ensures var n := |ms| - 1; Run(kernel, ms) == Step(kernel, Run(kernel, ms[..n]), ms[n])
  {
    var n := |ms| - 1;
    assert ms == ms[..n] + [ms[n]];
    RunConcat(kernel, START, ms[..n], [ms[n]]);
    StepIsValid(kernel, Run(kernel, ms[..n]), ms[n]);
  }

  lemma RunOneMore(kernel: Kernel, ms: seq<Header>, h: Header)
    requires AllWellformed(kernel, ms) && Wellformed(kernel, h)
    ensures AllWellformed(kernel, ms + [h]) && Run(kernel, ms + [h]) == Step(kernel, Run(kernel, ms), h)
  {
    RunSnoc(kernel, ms + [h]);
    assert (ms + [h])[..|ms|] == ms;
  }

  /** The messages of wave w whose block has instructions. */
  function Accounted(kernel: Kernel, ms: seq<Header>, w: Wave): seq<Header> {
    if ms == [] then []
    else
      var n := |ms| - 1;
      Accounted(kernel, ms[..n], w)
      + if ms[n].wave == w && HasInstructions(kernel, ms[n].block) then [ms[n]] else []
  }

  /** A life is over at an s_endpgm block, unless that is the block it began with. */
  predicate Closed(kernel: Kernel, life: seq<Header>) {
    |life| >= 2 && EndsProgram(kernel, life[|life| - 1].block)
  }

  /** The accounted messages of one wave, cut into lives. */
  function Lives(kernel: Kernel, q: seq<Header>): (lives: seq<seq<Header>>)
    ensures forall i | 0 <= i < |lives| :: lives[i] != []
    ensures q != [] ==> lives != [] && lives[|lives| - 1][|lives[|lives| - 1]| - 1] == q[|q| - 1]
  {
    if q == [] then []
    else
      var n := |q| - 1;
      var earlier := Lives(kernel, q[..n]);
      if earlier == [] || Closed(kernel, earlier[|earlier| - 1]) then earlier + [[q[n]]]
      else earlier[|earlier| - 1 := earlier[|earlier| - 1] + [q[n]]]
  }

  /** A life of the wave is going on. */
  predicate Alive(kernel: Kernel, q: seq<Header>) {
    q != [] && var lives := Lives(kernel, q); !Closed(kernel, lives[|lives| - 1])
  }

  /** From the first to the last accounted timestamp, summed over the lives. */
  function Spans(lives: seq<seq<Header>>): int
    requires forall i | 0 <= i < |lives| :: lives[i] != []
  {
    if lives == [] then 0
    else
      var n := |lives| - 1;
      Spans(lives[..n]) + lives[n][|lives[n]| - 1].timestamp - lives[n][0].timestamp
  }

  /** The active threads of all messages of a life but its first. */
  function LaterThreads(life: seq<Header>): nat {
    if |life| <= 1 then 0 else LaterThreads(life[..|life| - 1]) + PopCount(life[|life| - 1].exec)
  }

  function ThreadsOf(lives: seq<seq<Header>>): nat {
    if lives == [] then 0 else ThreadsOf(lives[..|lives| - 1]) + LaterThreads(lives[|lives| - 1])
  }

  /** Within a life, the block of each message earns the time until the next message, and that one's threads. */
  function Earned(kernel: Kernel, q: seq<Header>, blocks: set<nat>): Credit {
    if q == [] then NONE
    else
      var n := |q| - 1;
      Earned(kernel, q[..n], blocks).Plus(EarnedBy(kernel, q[..n], q[n], blocks))
  }

  function EarnedBy(kernel: Kernel, q: seq<Header>, h: Header, blocks: set<nat>): Credit {
    if Alive(kernel, q) && q[|q| - 1].block in blocks
    then Credit(1, PopCount(h.exec), h.timestamp - q[|q| - 1].timestamp)
    else NONE
  }

  lemma SpansAfter(lives: seq<seq<Header>>, h: Header)
    requires (forall i | 0 <= i < |lives| :: lives[i] != []) && lives != []
    ensures var k := |lives| - 1;
            Spans(lives[k := lives[k] + [h]]) == Spans(lives) + h.timestamp - lives[k][|lives[k]| - 1].timestamp
  {
    var k := |lives| - 1;
    assert lives[k := lives[k] + [h]][..k] == lives[..k];
  }

  lemma SpansOfNew(lives: seq<seq<Header>>, h: Header)
    requires forall i | 0 <= i < |lives| :: lives[i] != []
    ensures Spans(lives + [[h]]) == Spans(lives)
  {
    assert (lives + [[h]])[..|lives|] == lives;
  }

  /** A message goes on with the last life if that is going on, and else begins one. */
  lemma LivesAfter(kernel: Kernel, q: seq<Header>)
    requires q != []
    ensures var n := |q| - 1;
            var earlier := Lives(kernel, q[..n]);
            Lives(kernel, q) ==
              if Alive(kernel, q[..n]) then earlier[|earlier| - 1 := earlier[|earlier| - 1] + [q[n]]]
              else earlier + [[q[n]]]
  {
  }

  lemma EarnedAfterOne(kernel: Kernel, q: seq<Header>, blocks: set<nat>)
    requires q != [] && forall i | 0 <= i < |q| :: q[i].block in blocks
    ensures var n := |q| - 1;
            Earned(kernel, q, blocks) == Earned(kernel, q[..n], blocks).Plus(
              if Alive(kernel, q[..n]) then Credit(1, PopCount(q[n].exec), q[n].timestamp - q[n - 1].timestamp) else NONE)
  {
    var n := |q| - 1;
    if n > 0 {
      assert q[..n][n - 1] == q[n - 1];
    }
  }

  /** Over all blocks the earnings telescope: spans of lives, and one execution fewer than messages per life. */
  lemma {:induction false} EarningsTelescope(kernel: Kernel, q: seq<Header>, blocks: set<nat>)
    requires forall i | 0 <= i < |q| :: q[i].block in blocks
    ensures Earned(kernel, q, blocks).duration == Spans(Lives(kernel, q))
    ensures Earned(kernel, q, blocks).count == |q| - |Lives(kernel, q)|
  {
    if q != [] {
      var n := |q| - 1;
      EarningsTelescope(kernel, q[..n], blocks);
      LivesAfter(kernel, q);
      EarnedAfterOne(kernel, q, blocks);
      var earlier := Lives(kernel, q[..n]);
      if Alive(kernel, q[..n]) {
        SpansAfter(earlier, q[n]);
      } else {
        SpansOfNew(earlier, q[n]);
      }
    }
  }

  lemma ThreadsAfter(lives: seq<seq<Header>>, h: Header)
    requires lives != [] && lives[|lives| - 1] != []
    ensures var k := |lives| - 1;
            ThreadsOf(lives[k := lives[k] + [h]]) == ThreadsOf(lives) + PopCount(h.exec)
  {
    var k := |lives| - 1;
    var longer := lives[k] + [h];
    assert longer[..|longer| - 1] == lives[k];
    assert lives[k := longer][..k] == lives[..k];
  }

  lemma ThreadsOfNew(lives: seq<seq<Header>>, h: Header)
    ensures ThreadsOf(lives + [[h]]) == ThreadsOf(lives)
  {
    assert (lives + [[h]])[..|lives|] == lives;
  }

  /** And the threads are those of all messages but the first of each life. */
  lemma {:induction false} ThreadsTelescope(kernel: Kernel, q: seq<Header>, blocks: set<nat>)
    requires forall i | 0 <= i < |q| :: q[i].block in blocks
    ensures Earned(kernel, q, blocks).threads == ThreadsOf(Lives(kernel, q))
  {
    if q != [] {
      var n := |q| - 1;
      ThreadsTelescope(kernel, q[..n], blocks);
      LivesAfter(kernel, q);
      EarnedAfterOne(kernel, q, blocks);
      var earlier := Lives(kernel, q[..n]);
      if Alive(kernel, q[..n]) {
        ThreadsAfter(earlier, q[n]);
      } else {
        ThreadsOfNew(earlier, q[n]);
      }
    }
  }

  // -------------------------------------------------------------------------
  // Conservation
  // -------------------------------------------------------------------------

  function InfoAt(info: map<nat, BlockInfo>, b: nat): Credit {
    if b in info then Credit(info[b].count, info[b].threads, info[b].duration) else NONE
  }

  ghost function InfoOf(info: map<nat, BlockInfo>): nat -> Credit {
    (b: nat) => InfoAt(info, b)
  }

  ghost function InfoSum(info: map<nat, BlockInfo>, blocks: set<nat>): Credit {
    Sum(blocks, InfoOf(info))
  }

  ghost function WaveCredits(kernel: Kernel, ms: seq<Header>, blocks: set<nat>): Wave -> Credit {
    w => Earned(kernel, Accounted(kernel, ms, w), blocks)
  }

  /** The wave has a state exactly when its life goes on, and then the state is its last message. */
  ghost predicate Tracks(kernel: Kernel, q: seq<Header>, s: State, w: Wave) {
    && (w in s.waves <==> Alive(kernel, q))
    && (w in s.waves ==> s.waves[w] == WaveState(q[|q| - 1].block, q[|q| - 1].timestamp, 1))
  }

  /** A life goes on after a message unless the message ends a life that had begun before. */
  lemma AliveAfter(kernel: Kernel, p: seq<Header>, h: Header)
    ensures Alive(kernel, p + [h]) <==> !(Alive(kernel, p) && EndsProgram(kernel, h.block))
  {
    assert (p + [h])[..|p|] == p;
  }

  lemma StepTracks(kernel: Kernel, p: seq<Header>, s: State, h: Header, w: Wave)
    requires ValidState(s) && Wellformed(kernel, h) && Tracks(kernel, p, s, w)
    ensures var q := p + if h.wave == w && HasInstructions(kernel, h.block) then [h] else [];
            Tracks(kernel, q, Step(kernel, s, h), w)
  {
    if h.wave == w && HasInstructions(kernel, h.block) {
      AliveAfter(kernel, p, h);
    } else {
      assert p + [] == p;
    }
  }

  lemma {:induction false} WavesTrackLives(kernel: Kernel, ms: seq<Header>, w: Wave)
    requires AllWellformed(kernel, ms)
    ensures Tracks(kernel, Accounted(kernel, ms, w), Run(kernel, ms), w)
  {
    if ms != [] {
      var n := |ms| - 1;
      WavesTrackLives(kernel, ms[..n], w);
      RunSnoc(kernel, ms);
      StepTracks(kernel, Accounted(kernel, ms[..n], w), Run(kernel, ms[..n]), ms[n], w);
    }
  }

  lemma Add64Congruent(before: nat, start: nat, stop: nat)
    requires before < TWO_64 && start < TWO_64 && stop < TWO_64
    ensures Word(Add64(before, Sub64(stop, start)) - before) == Word(stop - start)
    ensures start <= stop ==> Add64(before, Sub64(stop, start)) - before <= stop - start
    ensures before == 0 ==> Add64(before, Sub64(stop, start)) == Sub64(stop, start)
  {
  }

  /** Crediting a block adds one execution, the threads, and a time that is right modulo the word. */
  lemma CreditedAt(info: map<nat, BlockInfo>, b: nat, threads: nat, start: nat, stop: nat) returns (extra: Credit)
    requires start < TWO_64 && stop < TWO_64
    requires forall k | k in info :: info[k].duration < TWO_64
    ensures InfoAt(Credited(info, b, 1, threads, Sub64(stop, start)), b) == InfoAt(info, b).Plus(extra)
    ensures Congruent(extra, Credit(1, threads, stop - start))
    ensures start <= stop ==> extra.duration <= stop - start
  {
    var before := InfoAt(info, b).duration;
    extra := Credit(1, threads, Add64(before, Sub64(stop, start)) - before);
    Add64Congruent(before, start, stop);
  }

  /** Crediting a block changes the sum over a set of blocks by the time since the block was entered. */
  lemma CreditedSum(info: map<nat, BlockInfo>, b: nat, threads: nat, start: nat, stop: nat, blocks: set<nat>)
    requires start < TWO_64 && stop < TWO_64
    requires forall k | k in info :: info[k].duration < TWO_64
    ensures Grew(InfoSum(Credited(info, b, 1, threads, Sub64(stop, start)), blocks), InfoSum(info, blocks),
                 if b in blocks then Credit(1, threads, stop - start) else NONE, start <= stop)
  {
    var next := Credited(info, b, 1, threads, Sub64(stop, start));
    if b in blocks {
      var extra := CreditedAt(info, b, threads, start, stop);
      SumChangesAt(blocks, InfoOf(info), InfoOf(next), b, extra);
      GrewBySimilar(InfoSum(info, blocks), extra, Credit(1, threads, stop - start), start <= stop);
    } else {
      SumAgrees(blocks, InfoOf(info), InfoOf(next));
      GrewByNothing(InfoSum(info, blocks), start <= stop);
    }
  }

  // What the block totals are compared with: the earnings of all waves.

  ghost function Owed(kernel: Kernel, ms: seq<Header>, waves: set<Wave>, blocks: set<nat>): Credit {
    Sum(waves, WaveCredits(kernel, ms, blocks))
  }

  /** What the last message of a stream earns for its wave. */
  function LastEarned(kernel: Kernel, p: seq<Header>, h: Header, blocks: set<nat>): Credit {
    if HasInstructions(kernel, h.block) then EarnedBy(kernel, p, h, blocks) else NONE
  }

  /** One more message adds what its wave earns by it. */
  lemma OwedAfter(kernel: Kernel, ms: seq<Header>, waves: set<Wave>, blocks: set<nat>)
    requires ms != [] && ms[|ms| - 1].wave in waves
    ensures var n := |ms| - 1;
            Owed(kernel, ms, waves, blocks) == Owed(kernel, ms[..n], waves, blocks).Plus(
              LastEarned(kernel, Accounted(kernel, ms[..n], ms[n].wave), ms[n], blocks))
  {
    var n := |ms| - 1;
    var h := ms[n];
    var f, g := WaveCredits(kernel, ms[..n], blocks), WaveCredits(kernel, ms, blocks);
    forall w | w in waves ensures g(w) == f(w).Plus(
        if w == h.wave then LastEarned(kernel, Accounted(kernel, ms[..n], w), h, blocks) else NONE)
    {
      EarnedAfter(kernel, ms, w, blocks);
    }
    SumChangesAt(waves, f, g, h.wave, LastEarned(kernel, Accounted(kernel, ms[..n], h.wave), h, blocks));
  }

  lemma EarnedAfter(kernel: Kernel, ms: seq<Header>, w: Wave, blocks: set<nat>)
    requires ms != []
    ensures var n := |ms| - 1; var p := Accounted(kernel, ms[..n], w);
            Earned(kernel, Accounted(kernel, ms, w), blocks) == Earned(kernel, p, blocks).Plus(
              if w == ms[n].wave then LastEarned(kernel, p, ms[n], blocks) else NONE)
  {
    var n := |ms| - 1;
    var p := Accounted(kernel, ms[..n], w);
    if ms[n].wave == w && HasInstructions(kernel, ms[n].block) {
      assert (p + [ms[n]])[..|p|] == p;
    } else {
      assert p + [] == p;
    }
  }

  /** Every wave's accounted timestamps never go back. */
  ghost predicate Monotone(q: seq<Header>) {
    forall i | 0 < i < |q| :: q[i - 1].timestamp <= q[i].timestamp
  }

  ghost predicate AllMonotone(kernel: Kernel, ms: seq<Header>) {
    forall w :: Monotone(Accounted(kernel, ms, w))
  }

  lemma AllMonotonePrefix(kernel: Kernel, ms: seq<Header>)
    requires ms != [] && AllMonotone(kernel, ms)
    ensures AllMonotone(kernel, ms[..|ms| - 1])
  {
    var earlier := ms[..|ms| - 1];
    forall w ensures Monotone(Accounted(kernel, earlier, w)) {
      var q, p := Accounted(kernel, ms, w), Accounted(kernel, earlier, w);
      assert Monotone(q);
      forall i | 0 < i < |p| ensures p[i - 1].timestamp <= p[i].timestamp {
        assert p[i] == q[i] && p[i - 1] == q[i - 1];
      }
    }
  }

  predicate InOrder(p: seq<Header>, h: Header) {
    p != [] ==> p[|p| - 1].timestamp <= h.timestamp
  }

  /** One message credits the blocks with what its wave earns by it. */
  lemma StepCredits(kernel: Kernel, p: seq<Header>, s: State, h: Header, blocks: set<nat>)
    requires ValidState(s) && Wellformed(kernel, h) && Tracks(kernel, p, s, h.wave)
    ensures Grew(InfoSum(Step(kernel, s, h).info, blocks), InfoSum(s.info, blocks),
                 LastEarned(kernel, p, h, blocks), HasInstructions(kernel, h.block) ==> InOrder(p, h))
  {
    if HasInstructions(kernel, h.block) && h.wave in s.waves {
      CreditedSum(s.info, s.waves[h.wave].block, PopCount(h.exec), s.waves[h.wave].start, h.timestamp, blocks);
    } else {
      GrewByNothing(InfoSum(s.info, blocks), HasInstructions(kernel, h.block) ==> InOrder(p, h));
    }
  }

  lemma LastInOrder(kernel: Kernel, ms: seq<Header>)
    requires ms != [] && AllMonotone(kernel, ms) && HasInstructions(kernel, ms[|ms| - 1].block)
    ensures InOrder(Accounted(kernel, ms[..|ms| - 1], ms[|ms| - 1].wave), ms[|ms| - 1])
  {
    var h := ms[|ms| - 1];
    var p, q := Accounted(kernel, ms[..|ms| - 1], h.wave), Accounted(kernel, ms, h.wave);
    assert Monotone(q) && q == p + [h];
    if p != [] {
      assert q[|p|] == h && q[|p| - 1] == p[|p| - 1];
    }
  }

  /** The totals of any set of blocks are what the waves earned in them, modulo the 64-bit word. */
  lemma {:induction false} BlocksHoldEarnings(kernel: Kernel, ms: seq<Header>, waves: set<Wave>, blocks: set<nat>)
    requires AllWellformed(kernel, ms)
    requires forall i | 0 <= i < |ms| :: ms[i].wave in waves
    ensures Congruent(InfoSum(Run(kernel, ms).info, blocks), Owed(kernel, ms, waves, blocks))
    ensures AllMonotone(kernel, ms) ==>
              InfoSum(Run(kernel, ms).info, blocks).duration <= Owed(kernel, ms, waves, blocks).duration
  {
    if ms == [] {
      SumOfNone(blocks, InfoOf(START.info));
      SumOfNone(waves, WaveCredits(kernel, ms, blocks));
    } else {
      var n := |ms| - 1;
      var h, s := ms[n], Run(kernel, ms[..n]);
      var p := Accounted(kernel, ms[..n], h.wave);
      BlocksHoldEarnings(kernel, ms[..n], waves, blocks);
      RunSnoc(kernel, ms);
      WavesTrackLives(kernel, ms[..n], h.wave);
      StepCredits(kernel, p, s, h, blocks);
      OwedAfter(kernel, ms, waves, blocks);
      if AllMonotone(kernel, ms) {
        AllMonotonePrefix(kernel, ms);
        if HasInstructions(kernel, h.block) {
          LastInOrder(kernel, ms);
        }
        GrewChain(InfoSum(Run(kernel, ms).info, blocks), InfoSum(s.info, blocks), LastEarned(kernel, p, h, blocks),
          Owed(kernel, ms[..n], waves, blocks), true);
      } else {
        GrewChain(InfoSum(Run(kernel, ms).info, blocks), InfoSum(s.info, blocks), LastEarned(kernel, p, h, blocks),
          Owed(kernel, ms[..n], waves, blocks), false);
      }
    }
  }

  /** Each single block: executions and threads exactly, and the time modulo the 64-bit word. */
  lemma BlockHoldsEarnings(kernel: Kernel, ms: seq<Header>, waves: set<Wave>, b: nat)
    requires AllWellformed(kernel, ms)
    requires forall i | 0 <= i < |ms| :: ms[i].wave in waves
    ensures Congruent(InfoAt(Run(kernel, ms).info, b), Owed(kernel, ms, waves, {b}))
  {
    BlocksHoldEarnings(kernel, ms, waves, {b});
    InfoSumOfOne(Run(kernel, ms).info, b);
  }

  lemma InfoSumOfOne(info: map<nat, BlockInfo>, b: nat)
    ensures InfoSum(info, {b}) == InfoAt(info, b)
  {
    SumOfOne(b, InfoOf(info));
  }

  lemma {:induction false} InfoSumNotNegative(info: map<nat, BlockInfo>, blocks: set<nat>)
    ensures InfoSum(info, blocks).duration >= 0
  {
    if blocks != {} {
      var b :| b in blocks;
      SumPicks(blocks, InfoOf(info), b);
      InfoSumNotNegative(info, blocks - {b});
    }
  }

  /** No wrap-around: with timestamps that never go back and earnings below 2^64, the totals are exact. */
  lemma BlocksHoldExactEarnings(kernel: Kernel, ms: seq<Header>, waves: set<Wave>, blocks: set<nat>)
    requires AllWellformed(kernel, ms) && AllMonotone(kernel, ms)
    requires forall i | 0 <= i < |ms| :: ms[i].wave in waves
    requires Owed(kernel, ms, waves, blocks).duration < TWO_64
    ensures InfoSum(Run(kernel, ms).info, blocks) == Owed(kernel, ms, waves, blocks)
  {
    BlocksHoldEarnings(kernel, ms, waves, blocks);
    InfoSumNotNegative(Run(kernel, ms).info, blocks);
    CongruentSmall(InfoSum(Run(kernel, ms).info, blocks), Owed(kernel, ms, waves, blocks));
  }

  /** The blocks of the kernel that are ever accounted. */
  function AllBlocks(kernel: Kernel): set<nat> {
    set b: nat | b < |kernel| && HasInstructions(kernel, b)
  }

  /** A wave's lives: spans of time, and one execution fewer than messages for each. */
  ghost function LifeCredits(kernel: Kernel, ms: seq<Header>): Wave -> Credit {
    w => LifeCredit(kernel, Accounted(kernel, ms, w))
  }

  function LifeCredit(kernel: Kernel, q: seq<Header>): Credit {
    var lives := Lives(kernel, q);
    Credit(|q| - |lives|, ThreadsOf(lives), Spans(lives))
  }

  lemma {:induction false} AccountedHaveInstructions(kernel: Kernel, ms: seq<Header>, w: Wave)
    ensures forall i | 0 <= i < |Accounted(kernel, ms, w)| :: Accounted(kernel, ms, w)[i].block in AllBlocks(kernel)
  {
    if ms != [] {
      AccountedHaveInstructions(kernel, ms[..|ms| - 1], w);
    }
  }

  lemma OwedIsLives(kernel: Kernel, ms: seq<Header>, waves: set<Wave>)
    ensures Owed(kernel, ms, waves, AllBlocks(kernel)) == Sum(waves, LifeCredits(kernel, ms))
  {
    forall w | w in waves ensures WaveCredits(kernel, ms, AllBlocks(kernel))(w) == LifeCredits(kernel, ms)(w) {
      AccountedHaveInstructions(kernel, ms, w);
      EarningsTelescope(kernel, Accounted(kernel, ms, w), AllBlocks(kernel));
      ThreadsTelescope(kernel, Accounted(kernel, ms, w), AllBlocks(kernel));
    }
    SumAgrees(waves, WaveCredits(kernel, ms, AllBlocks(kernel)), LifeCredits(kernel, ms));
  }

  /** Over all blocks, the totals are the lives of the waves: time and executions are conserved. */
  lemma TotalsAreLives(kernel: Kernel, ms: seq<Header>, waves: set<Wave>)
    requires AllWellformed(kernel, ms)
    requires forall i | 0 <= i < |ms| :: ms[i].wave in waves
    ensures Congruent(InfoSum(Run(kernel, ms).info, AllBlocks(kernel)), Sum(waves, LifeCredits(kernel, ms)))
    ensures AllMonotone(kernel, ms) && Sum(waves, LifeCredits(kernel, ms)).duration < TWO_64 ==>
              InfoSum(Run(kernel, ms).info, AllBlocks(kernel)) == Sum(waves, LifeCredits(kernel, ms))
  {
    OwedIsLives(kernel, ms, waves);
    BlocksHoldEarnings(kernel, ms, waves, AllBlocks(kernel));
    if AllMonotone(kernel, ms) && Sum(waves, LifeCredits(kernel, ms)).duration < TWO_64 {
      BlocksHoldExactEarnings(kernel, ms, waves, AllBlocks(kernel));
    }
  }

  /** Two messages of a wave: the first one's block is credited with the time in between and the second one's threads. */
  lemma FirstBlockIsCredited(kernel: Kernel, g: Header, h: Header)
    requires Wellformed(kernel, g) && Wellformed(kernel, h) && g.wave == h.wave && g.timestamp <= h.timestamp
    requires HasInstructions(kernel, g.block) && HasInstructions(kernel, h.block)
    ensures AllWellformed(kernel, [g, h])
    ensures Run(kernel, [g, h]).info == map[g.block := BlockInfo(PopCount(h.exec), 1, h.timestamp - g.timestamp)]
    ensures Run(kernel, [g, h]).waves ==
            if EndsProgram(kernel, h.block) then map[] else map[h.wave := WaveState(h.block, h.timestamp, 1)]
  {
    RunOneMore(kernel, [], g);
    RunOneMore(kernel, [g], h);
    assert [] + [g] == [g] && [g] + [h] == [g, h];
    assert Run(kernel, []) == START;
    assert Run(kernel, [g]) == State(map[g.wave := WaveState(g.block, g.timestamp, 1)], map[]);
  }
}
