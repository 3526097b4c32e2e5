// The life of dispatches under every interleaving of application threads, the GPU and the
// signal runner (src/interceptor.cc). Each critical section is one atomic step.
module Dispatch {
  import opened Wrappers
  import opened Interceptor

  /** What has become of the packet that a thread got from fixupPacket. */
  datatype Phase = Prepared | Submitted | Finished

  /** Where the signal runner stands; the snapshot from `next` on is still unprocessed. */
  datatype Runner =
    | Idle
    | Scanning(snapshot: seq<nat>, next: nat)
    | Completing(snapshot: seq<nat>, next: nat)

  datatype State = State(
    core: Core, dispatchCount: nat, tickets: set<nat>,
    requests: map<nat, Packet>, packets: map<nat, Packet>, phases: map<nat, Phase>, runner: Runner)

  datatype Action =
    | TakeId
    | FixupStep(id: nat, packet: Packet, answers: Answers)
    | Write(id: nat)
    | Finish(id: nat)
    | Snapshot(order: seq<nat>)
    | Poll
    | CompleteStep

  ghost predicate Distinct(s: seq<nat>) {
    forall i, j | 0 <= i < j < |s| :: s[i] != s[j]
  }

  /** New signals have nonzero handles that name no signal yet; new memory and objects are not in use. */
  ghost predicate FreshAnswers(c: Core, e: Answers) {
    && |e.freshSignals| == SIGPOOL_INCREMENT && Distinct(e.freshSignals)
    && (forall x | x in e.freshSignals :: x != 0 && x !in c.world.values)
    && (e.buffer.Some? ==> e.buffer.value !in c.world.liveBuffers)
    && (e.comms.Some? ==> e.comms.value !in c.world.liveComms)
  }

  ghost predicate Enabled(run: bool, s: State, a: Action) {
    match a
    case TakeId => true
    case FixupStep(id, packet, answers) =>
      id in s.tickets && FreshAnswers(s.core, answers) && Fixup(run, s.core, id, packet, answers).Some?
    case Write(id) => id in s.phases && s.phases[id] == Prepared
    case Finish(id) =>
      id in s.phases && s.phases[id] == Submitted && id in s.packets && s.packets[id].completion in s.core.world.values
    case Snapshot(order) =>
      && (s.runner.Idle? || (s.runner.Scanning? && s.runner.next == |s.runner.snapshot|))
      && Enumerates(order, s.core.pending.Keys)
    case Poll => s.runner.Scanning? && s.runner.next < |s.runner.snapshot|
    case CompleteStep => s.runner.Completing? && s.runner.next < |s.runner.snapshot|
  }

  ghost function Next(run: bool, s: State, a: Action): State
    requires Enabled(run, s, a)
  {
    match a
    case TakeId =>
      s.(dispatchCount := s.dispatchCount + 1, tickets := s.tickets + {s.dispatchCount + 1})
    case FixupStep(id, packet, answers) =>
      var (core, out) := Fixup(run, s.core, id, packet, answers).value;
      s.(core := core, tickets := s.tickets - {id}, requests := s.requests[id := packet],
         packets := s.packets[id := out], phases := s.phases[id := Prepared])
    case Write(id) => s.(phases := s.phases[id := Submitted])
    case Finish(id) =>
      // The packet processor decrements the completion signal that the packet carries.
      var sig := s.packets[id].completion;
      var w := s.core.world;
      s.(core := s.core.(world := w.(values := w.values[sig := w.values[sig] - 1])), phases := s.phases[id := Finished])
    case Snapshot(order) =>
      s.(runner := if order == [] then Idle else Scanning(order, 0))
    case Poll =>
      var r := s.runner;
      s.(runner := if IsZero(s.core.world, r.snapshot[r.next]) then Completing(r.snapshot, r.next)
                   else Scanning(r.snapshot, r.next + 1))
    case CompleteStep =>
      var r := s.runner;
      s.(core := Complete(s.core, r.snapshot[r.next]), runner := Scanning(r.snapshot, r.next + 1))
  }

  /** Before the first dispatch: SIGPOOL_INCREMENT pooled signals and an idle runner. */
  ghost predicate Initial(s: State) {
    exists signals: seq<nat> ::
      && |signals| == SIGPOOL_INCREMENT && Distinct(signals) && 0 !in signals
      && s == State(Core(signals, map[], map[], CreateAll(EMPTY, signals)), 0, {}, map[], map[], map[], Idle)
  }

  /** The states that a sequence of actions leads through. */
  ghost predicate IsRun(run: bool, states: seq<State>, actions: seq<Action>) {
    && |states| == |actions| + 1
    && Initial(states[0])
    && forall i | 0 <= i < |actions| ::
         Enabled(run, states[i], actions[i]) && states[i + 1] == Next(run, states[i], actions[i])
  }

  // -------------------------------------------------------------------------
  // The invariant
  // -------------------------------------------------------------------------

  /** Every created signal is either pooled, once and with value 1, or pending. */
  ghost predicate SignalsOwned(c: Core) {
    && Distinct(c.pool)
    && (forall x | x in c.pool :: x !in c.pending && x in c.world.values && c.world.values[x] == 1)
    && (forall x | x in c.pending :: x in c.world.values)
    && (forall x | x in c.world.values :: x in c.pool || x in c.pending)
    && 0 !in c.world.values
  }

  /** The map is injective and its values are exactly the live things. */
  ghost predicate OwnsExactly(m: map<nat, nat>, live: set<nat>) {
    Injective(m, live) && |live| == |m|
  }

  ghost predicate Injective(m: map<nat, nat>, live: set<nat>) {
    && (forall x | x in m :: m[x] in live)
    && (forall x, y | x in m && y in m && x != y :: m[x] != m[y])
  }

  /** The comms objects of the pending signals. */
  function CommsOf(pending: map<nat, KernelInfo>): map<nat, nat> {
    map x | x in pending && pending[x].comms.Some? :: pending[x].comms.value
  }

  /** Buffers and comms objects belong to exactly one pending signal, and both or neither is there. */
  ghost predicate BuffersOwned(c: Core) {
    && c.kernargs.Keys == CommsOf(c.pending).Keys
    && OwnsExactly(c.kernargs, c.world.liveBuffers)
    && OwnsExactly(CommsOf(c.pending), c.world.liveComms)
    && c.world.allocations - c.world.releases == |c.kernargs|
    && c.world.badReleases == 0
  }

  /** The number of created signals is the peak number of pending ones, rounded up to whole refills. */
  ghost predicate PoolSized(c: Core) {
    var w := c.world;
    && |c.pool| + |c.pending| == |w.values|
    && |c.pending| <= w.peak
    && |w.values| == SIGPOOL_INCREMENT * RefillsFor(w.peak)
  }

  /** How many times SIGPOOL_INCREMENT signals are needed for `peak` at once; at least once. */
  function RefillsFor(peak: nat): nat {
    if peak <= SIGPOOL_INCREMENT then 1 else (peak + SIGPOOL_INCREMENT - 1) / SIGPOOL_INCREMENT
  }

  /** A pending signal belongs to a dispatch whose packet carries it, and shows whether that has finished. */
  ghost predicate PendingLinked(s: State, x: nat)
    requires x in s.core.pending
  {
    var info := s.core.pending[x];
    var d := info.dispatch;
    && d in s.packets && d in s.requests && d in s.phases
    && d !in s.core.world.completed
    && s.packets[d].completion == x
    && info.appSignal == s.requests[d].completion
    && x in s.core.world.values
    && s.core.world.values[x] == (if s.phases[d] == Finished then 0 else 1)
    && s.packets[d].kernarg == (if x in s.core.kernargs then s.core.kernargs[x] else s.requests[d].kernarg)
  }

  /** A dispatch is completed and finished, or its packet's signal is pending for it. */
  ghost predicate DispatchLinked(s: State, d: nat) {
    && d in s.packets && d in s.phases && d in s.requests
    && (d in s.core.world.completed ==> s.phases[d] == Finished)
    && (d !in s.core.world.completed ==>
          s.packets[d].completion in s.core.pending && s.core.pending[s.packets[d].completion].dispatch == d)
  }

  ghost predicate Linked(s: State) {
    && (forall x {:trigger PendingLinked(s, x)} | x in s.core.pending :: PendingLinked(s, x))
    && (forall d {:trigger DispatchLinked(s, d)} | d in s.phases :: DispatchLinked(s, d))
    && IdsUsedOnce(s)
  }

  /** Tickets are not used yet, ids come from the counter, and no dispatch is completed twice. */
  ghost predicate IdsUsedOnce(s: State) {
    && (forall d | d in s.core.world.completed :: d in s.phases)
    && (forall d | d in s.tickets :: d !in s.phases && d <= s.dispatchCount)
    && (forall d | d in s.phases :: d <= s.dispatchCount)
    && Distinct(s.core.world.completed)
    && s.requests.Keys == s.phases.Keys
  }

  /** The application decrements owed for a list of completed dispatches, in order. */
  function OwedDecrements(requests: map<nat, Packet>, completed: seq<nat>): seq<(nat, nat)> {
    if completed == [] then []
    else
      var n := |completed| - 1;
      var d := completed[n];
      OwedDecrements(requests, completed[..n])
      + if d in requests && requests[d].completion != 0 then [(d, requests[d].completion)] else []
  }

  /** The unprocessed snapshot names pending signals, each once; one being completed has reached zero. */
  ghost predicate RunnerSane(s: State) {
    && s.core.world.alarms == 0
    && (!s.runner.Idle? ==>
          && s.runner.next <= |s.runner.snapshot| && Distinct(s.runner.snapshot)
          && forall k | s.runner.next <= k < |s.runner.snapshot| :: s.runner.snapshot[k] in s.core.pending)
    && (s.runner.Completing? ==>
          s.runner.next < |s.runner.snapshot| && IsZero(s.core.world, s.runner.snapshot[s.runner.next]))
  }

  ghost predicate Inv(s: State) {
    && SignalsOwned(s.core)
    && BuffersOwned(s.core)
    && PoolSized(s.core)
    && Linked(s)
    && s.core.world.decrements == OwedDecrements(s.requests, s.core.world.completed)
    && RunnerSane(s)
  }

  // -------------------------------------------------------------------------
  // Creating signals
  // -------------------------------------------------------------------------

  /** Creating distinct new signals adds exactly them, all with value 1, and changes nothing else. */
  ghost predicate CreatesOnly(w: World, v: World, signals: seq<nat>) {
    && v == w.(values := v.values)
    && (forall x :: x in v.values <==> x in w.values || x in signals)
    && (forall x | x in w.values :: v.values[x] == w.values[x])
    && (forall x | x in signals :: v.values[x] == 1)
    && |v.values| == |w.values| + |signals|
  }

  lemma CreateOneMore(w: World, v: World, signals: seq<nat>, x: nat)
    requires CreatesOnly(w, v, signals) && x !in v.values
    ensures CreatesOnly(w, v.Create(x), signals + [x])
  {
    assert v.Create(x).values.Keys == v.values.Keys + {x};
  }

  lemma {:induction false} CreateAllEffect(w: World, signals: seq<nat>)
    requires Distinct(signals) && forall x | x in signals :: x !in w.values
    ensures CreatesOnly(w, CreateAll(w, signals), signals)
  {
    if signals != [] {
      var n := |signals| - 1;
      CreateAllEffect(w, signals[..n]);
      CreateOneMore(w, CreateAll(w, signals[..n]), signals[..n], signals[n]);
      assert signals[..n] + [signals[n]] == signals;
    }
  }

  // -------------------------------------------------------------------------
  // What the two critical sections do, as relations on the guarded fields
  // -------------------------------------------------------------------------

  /** A signal has gone from the pool, refilled if need be, to a new pending dispatch. */
  ghost predicate TakesSignal(c: Core, d: Core, sig: nat, info: KernelInfo) {
    && sig != 0 && sig !in c.pending && sig !in d.pool && Distinct(d.pool)
    && sig in d.world.values && d.world.values[sig] == 1
    && (forall x | x in d.pool :: x !in c.pending && x in d.world.values && d.world.values[x] == 1)
    && (forall x | x in c.world.values :: x in d.world.values && d.world.values[x] == c.world.values[x])
    && (forall x | x in d.world.values :: x in c.pending || x in d.pool || x == sig)
    && 0 !in d.world.values
    && d.pending == c.pending[sig := info]
    && d.world.peak == (if c.world.peak < |d.pending| then |d.pending| else c.world.peak)
    && |d.world.values| == |c.world.values| + (if c.pool == [] then SIGPOOL_INCREMENT else 0)
    && |d.pool| + 1 == (if c.pool == [] then SIGPOOL_INCREMENT else |c.pool|)
  }

  /** The signal has got a buffer and a comms object, or neither; the rest of the world is as before. */
  ghost predicate TakesBuffer(c: Core, d: Core, sig: nat, info: KernelInfo, buffer: Option<nat>) {
    && buffer.Some? == info.comms.Some?
    && d.kernargs == (if buffer.Some? then c.kernargs[sig := buffer.value] else c.kernargs)
    && (buffer.Some? ==> buffer.value !in c.world.liveBuffers && info.comms.value !in c.world.liveComms)
    && d.world.liveBuffers == (if buffer.Some? then c.world.liveBuffers + {buffer.value} else c.world.liveBuffers)
    && d.world.liveComms == (if buffer.Some? then c.world.liveComms + {info.comms.value} else c.world.liveComms)
    && d.world.allocations == c.world.allocations + (if buffer.Some? then 1 else 0)
    && d.world.releases == c.world.releases && d.world.badReleases == c.world.badReleases
    && d.world.alarms == c.world.alarms
    && d.world.completed == c.world.completed && d.world.decrements == c.world.decrements
  }

  ghost predicate Takes(c: Core, d: Core, sig: nat, info: KernelInfo, buffer: Option<nat>) {
    TakesSignal(c, d, sig, info) && TakesBuffer(c, d, sig, info, buffer)
  }

  lemma RefillEffect(c: Core, e: Answers)
    requires SignalsOwned(c) && FreshAnswers(c, e)
    ensures var r := Refilled(c, e.freshSignals);
            && SignalsOwned(r) && r.pool != []
            && r.pending == c.pending && r.kernargs == c.kernargs && r.world == c.world.(values := r.world.values)
            && (forall x | x in c.world.values :: x in r.world.values && r.world.values[x] == c.world.values[x])
            && |r.world.values| == |c.world.values| + (if c.pool == [] then SIGPOOL_INCREMENT else 0)
            && |r.pool| == if c.pool == [] then SIGPOOL_INCREMENT else |c.pool|
  {
    if c.pool == [] {
      CreateAllEffect(c.world, e.freshSignals);
    }
  }

  lemma LastIsApart(pool: seq<nat>)
    requires Distinct(pool) && pool != []
    ensures var n := |pool| - 1;
            && pool[n] in pool && pool[n] !in pool[..n] && Distinct(pool[..n])
            && forall x :: x in pool <==> x in pool[..n] || x == pool[n]
  {
    assert pool == pool[..|pool| - 1] + [pool[|pool| - 1]];
  }

  /** The buffer that the dispatch gets, if it is instrumented. */
  function BufferOf(run: bool, e: Answers): Option<nat> {
    match Decide(run, e)
    case Instrumented(_, buffer, _) => Some(buffer)
    case _ => None
  }

  function InfoOf(run: bool, id: nat, packet: Packet, e: Answers): KernelInfo {
    match Decide(run, e)
    case Instrumented(_, _, comms) => KernelInfo(packet.completion, id, Some(comms))
    case _ => KernelInfo(packet.completion, id, None)
  }

  /** The fields of a fixed-up core that do not depend on the choice. */
  lemma FixupSignalFields(run: bool, c: Core, id: nat, packet: Packet, e: Answers)
    requires |e.freshSignals| == SIGPOOL_INCREMENT && Fixup(run, c, id, packet, e).Some?
    ensures var (d, out) := Fixup(run, c, id, packet, e).value;
            var r := Refilled(c, e.freshSignals);
            var n := |r.pool| - 1;
            && out.completion == r.pool[n] && d.pool == r.pool[..n]
            && d.pending == r.pending[out.completion := InfoOf(run, id, packet, e)]
            && d.world.values == r.world.values
            && d.world.peak == (if r.world.peak < |d.pending| then |d.pending| else r.world.peak)
  {
  }

  lemma FixupTakesSignal(run: bool, c: Core, id: nat, packet: Packet, e: Answers)
    requires SignalsOwned(c) && FreshAnswers(c, e) && Fixup(run, c, id, packet, e).Some?
    ensures var (d, out) := Fixup(run, c, id, packet, e).value;
            TakesSignal(c, d, out.completion, InfoOf(run, id, packet, e))
  {
    FixupSignalFields(run, c, id, packet, e);
    RefillEffect(c, e);
    LastIsApart(Refilled(c, e.freshSignals).pool);
  }

  /** A refill touches the pool and the values of signals only. */
  lemma RefillKeepsRest(c: Core, signals: seq<nat>)
    requires signals != []
    ensures var r := Refilled(c, signals);
            r.pool != [] && r.kernargs == c.kernargs && r.world == c.world.(values := r.world.values)
  {
    CreateAllKeepsRest(c.world, signals);
  }

  /** Pending a signal with a buffer and a comms object, after a refill. */
  lemma EquippingTakesBuffer(c: Core, r: Core, sig: nat, info: KernelInfo, buffer: nat)
    requires r.pool != [] && r.kernargs == c.kernargs && r.world == c.world.(values := r.world.values)
    requires info.comms.Some? && buffer !in c.world.liveBuffers && info.comms.value !in c.world.liveComms
    ensures TakesBuffer(c, Pended(Equipped(r, sig, buffer, info.comms.value), info), sig, info, Some(buffer))
  {
  }

  /** Pending a signal without them, after a refill. */
  lemma PendingTakesNoBuffer(c: Core, r: Core, sig: nat, info: KernelInfo)
    requires r.pool != [] && r.kernargs == c.kernargs && r.world == c.world.(values := r.world.values)
    requires info.comms.None?
    ensures TakesBuffer(c, Pended(r, info), sig, info, None)
  {
  }

  lemma FixupTakesBuffer(run: bool, c: Core, id: nat, packet: Packet, e: Answers)
    requires |e.freshSignals| == SIGPOOL_INCREMENT && Fixup(run, c, id, packet, e).Some?
    requires e.buffer.Some? ==> e.buffer.value !in c.world.liveBuffers
    requires e.comms.Some? ==> e.comms.value !in c.world.liveComms
    ensures var (d, out) := Fixup(run, c, id, packet, e).value;
            TakesBuffer(c, d, out.completion, InfoOf(run, id, packet, e), BufferOf(run, e))
  {
    var r := Refilled(c, e.freshSignals);
    var sig := r.pool[|r.pool| - 1];
    var info := InfoOf(run, id, packet, e);
    RefillKeepsRest(c, e.freshSignals);
    match Decide(run, e)
    case Plain => PendingTakesNoBuffer(c, r, sig, info);
    case Instrumented(_, buffer, _) => EquippingTakesBuffer(c, r, sig, info, buffer);
  }

  /** fixupPacket takes the signal that its packet carries. */
  lemma FixupTakes(run: bool, c: Core, id: nat, packet: Packet, e: Answers)
    requires SignalsOwned(c) && FreshAnswers(c, e) && Fixup(run, c, id, packet, e).Some?
    ensures var (d, out) := Fixup(run, c, id, packet, e).value;
            Takes(c, d, out.completion, InfoOf(run, id, packet, e), BufferOf(run, e))
  {
    FixupTakesSignal(run, c, id, packet, e);
    FixupTakesBuffer(run, c, id, packet, e);
  }

  /** A pending signal has gone back to the pool with value 1, and its dispatch is in the history. */
  ghost predicate ReturnsSignal(c: Core, d: Core, sig: nat)
    requires sig in c.pending
  {
    var info := c.pending[sig];
    && d.pool == c.pool + [sig]
    && d.pending == c.pending - {sig}
    && d.world.values == c.world.values[sig := 1]
    && d.world.completed == c.world.completed + [info.dispatch]
    && d.world.decrements == c.world.decrements +
         (if info.appSignal != 0 then [(info.dispatch, info.appSignal)] else [])
    && d.world.alarms == c.world.alarms && d.world.peak == c.world.peak
  }

  /** Its buffer and its comms object, if it had them, are released. */
  ghost predicate ReturnsBuffer(c: Core, d: Core, sig: nat, comms: Option<nat>) {
    && d.kernargs == c.kernargs - {sig}
    && d.world.allocations == c.world.allocations
    && d.world.releases == c.world.releases + (if sig in c.kernargs then 1 else 0)
    && d.world.liveBuffers == c.world.liveBuffers - (if sig in c.kernargs then {c.kernargs[sig]} else {})
    && d.world.liveComms == c.world.liveComms - (if comms.Some? then {comms.value} else {})
    && ((sig in c.kernargs ==> c.kernargs[sig] in c.world.liveBuffers)
        && (comms.Some? ==> comms.value in c.world.liveComms)
        ==> d.world.badReleases == c.world.badReleases)
  }

  ghost predicate Returns(c: Core, d: Core, sig: nat)
    requires sig in c.pending
  {
    ReturnsSignal(c, d, sig) && ReturnsBuffer(c, d, sig, c.pending[sig].comms)
  }

  lemma CompleteReturns(c: Core, sig: nat)
    requires sig in c.pending
    ensures Returns(c, Complete(c, sig), sig)
  {
    assert sig !in c.kernargs ==> c.kernargs - {sig} == c.kernargs;
  }

  // -------------------------------------------------------------------------
  // Ownership of signals, buffers and comms objects
  // -------------------------------------------------------------------------

  lemma TakingKeepsSignals(c: Core, d: Core, sig: nat, info: KernelInfo)
    requires SignalsOwned(c) && TakesSignal(c, d, sig, info)
    ensures SignalsOwned(d)
  {
  }

  lemma InjectiveOneMore(m: map<nat, nat>, live: set<nat>, k: nat, v: nat)
    requires Injective(m, live) && k !in m && v !in live
    ensures Injective(m[k := v], live + {v})
  {
  }

  lemma SizeOneMore(m: map<nat, nat>, k: nat, v: nat)
    requires k !in m
    ensures |m[k := v]| == |m| + 1
  {
    assert m[k := v].Keys == m.Keys + {k};
  }

  lemma OwnsOneMore(m: map<nat, nat>, live: set<nat>, k: nat, v: nat)
    requires OwnsExactly(m, live) && k !in m && v !in live
    ensures OwnsExactly(m[k := v], live + {v}) && |m[k := v]| == |m| + 1
  {
    InjectiveOneMore(m, live, k, v);
    SizeOneMore(m, k, v);
  }

  lemma InjectiveOneLess(m: map<nat, nat>, live: set<nat>, k: nat)
    requires Injective(m, live) && k in m
    ensures Injective(m - {k}, live - {m[k]})
  {
  }

  lemma OwnsOneLess(m: map<nat, nat>, live: set<nat>, k: nat)
    requires OwnsExactly(m, live) && k in m
    ensures OwnsExactly(m - {k}, live - {m[k]}) && |m - {k}| == |m| - 1
  {
    InjectiveOneLess(m, live, k);
    assert (m - {k}).Keys == m.Keys - {k};
  }

  lemma CommsAfterTaking(pending: map<nat, KernelInfo>, sig: nat, info: KernelInfo)
    requires sig !in pending
    ensures CommsOf(pending[sig := info]) ==
            if info.comms.Some? then CommsOf(pending)[sig := info.comms.value] else CommsOf(pending)
  {
  }

  lemma CommsAfterReturning(pending: map<nat, KernelInfo>, sig: nat)
    ensures CommsOf(pending - {sig}) == CommsOf(pending) - {sig}
    ensures sig !in CommsOf(pending) ==> CommsOf(pending) - {sig} == CommsOf(pending)
  {
  }

  lemma TakingKeepsBuffers(c: Core, d: Core, sig: nat, info: KernelInfo, buffer: Option<nat>)
    requires BuffersOwned(c) && TakesBuffer(c, d, sig, info, buffer)
    requires sig !in c.pending && d.pending == c.pending[sig := info]
    ensures BuffersOwned(d)
  {
    CommsAfterTaking(c.pending, sig, info);
    if buffer.Some? {
      assert sig !in CommsOf(c.pending).Keys;
      OwnsOneMore(c.kernargs, c.world.liveBuffers, sig, buffer.value);
      OwnsOneMore(CommsOf(c.pending), c.world.liveComms, sig, info.comms.value);
    }
  }

  lemma ReturningKeepsSignals(c: Core, d: Core, sig: nat)
    requires SignalsOwned(c) && sig in c.pending && ReturnsSignal(c, d, sig)
    ensures SignalsOwned(d)
  {
    assert sig !in c.pool;
  }

  lemma ReturningKeepsBuffers(c: Core, d: Core, sig: nat)
    requires BuffersOwned(c) && sig in c.pending
    requires ReturnsBuffer(c, d, sig, c.pending[sig].comms) && d.pending == c.pending - {sig}
    ensures BuffersOwned(d)
  {
    CommsAfterReturning(c.pending, sig);
    if sig in c.kernargs {
      assert sig in CommsOf(c.pending).Keys;
      OwnsOneLess(c.kernargs, c.world.liveBuffers, sig);
      OwnsOneLess(CommsOf(c.pending), c.world.liveComms, sig);
    } else {
      assert sig !in CommsOf(c.pending).Keys;
      NothingRemoved(c.kernargs, sig);
    }
  }

  lemma NothingRemoved(m: map<nat, nat>, k: nat)
    requires k !in m
    ensures m - {k} == m
  {
  }

  // -------------------------------------------------------------------------
  // The size of the pool
  // -------------------------------------------------------------------------

  lemma RefillsCover(peak: nat, other: nat)
    ensures peak <= SIGPOOL_INCREMENT * RefillsFor(peak)
    ensures peak <= other <= SIGPOOL_INCREMENT * RefillsFor(peak) ==> RefillsFor(other) == RefillsFor(peak)
    ensures peak == SIGPOOL_INCREMENT * RefillsFor(peak) ==> RefillsFor(peak + 1) == RefillsFor(peak) + 1
  {
  }

  lemma TakingKeepsSize(c: Core, d: Core, sig: nat, info: KernelInfo)
    requires PoolSized(c) && TakesSignal(c, d, sig, info)
    ensures PoolSized(d)
  {
    assert d.pending.Keys == c.pending.Keys + {sig};
    RefillsCover(c.world.peak, d.world.peak);
  }

  lemma ReturningKeepsSize(c: Core, d: Core, sig: nat)
    requires SignalsOwned(c) && PoolSized(c) && sig in c.pending && ReturnsSignal(c, d, sig)
    ensures PoolSized(d)
  {
    assert d.pending.Keys == c.pending.Keys - {sig};
    assert d.world.values.Keys == c.world.values.Keys;
  }

  // -------------------------------------------------------------------------
  // Links between signals and dispatches
  // -------------------------------------------------------------------------

  /** The packet differs from the request only where the dispatch needs it. */
  lemma FixupPacketFields(run: bool, c: Core, id: nat, packet: Packet, e: Answers)
    requires |e.freshSignals| == SIGPOOL_INCREMENT && Fixup(run, c, id, packet, e).Some?
    ensures var wanted := run && e.hasKernels && e.known && e.alternative != 0 && e.canDispatch;
            var out := Fixup(run, c, id, packet, e).value.1;
            && (!wanted ==> out == packet.(completion := out.completion))
            && (wanted ==>
                  && e.buffer.Some? && e.descriptor.Some?
                  && out == Packet(e.alternative, e.buffer.value, e.descriptor.value.privateSize,
                                   e.descriptor.value.groupSize, out.completion, packet.other))
  {
    FixupDecides(run, c, id, packet, e);
  }

  /** The new dispatch of a fixup step. */
  ghost predicate Adds(s: State, t: State, id: nat, request: Packet, out: Packet, buffer: Option<nat>) {
    && id in s.tickets && id !in s.phases
    && t.tickets == s.tickets - {id} && t.dispatchCount == s.dispatchCount && t.runner == s.runner
    && t.requests == s.requests[id := request] && t.packets == s.packets[id := out]
    && t.phases == s.phases[id := Prepared]
    && out.kernarg == (if buffer.Some? then buffer.value else request.kernarg)
    && out.completion in t.core.pending
    && Takes(s.core, t.core, out.completion, t.core.pending[out.completion], buffer)
    && t.core.pending[out.completion].dispatch == id
    && t.core.pending[out.completion].appSignal == request.completion
  }

  lemma FixupAdds(run: bool, s: State, a: Action)
    requires SignalsOwned(s.core) && Linked(s) && a.FixupStep? && Enabled(run, s, a)
    ensures var out := Fixup(run, s.core, a.id, a.packet, a.answers).value.1;
            Adds(s, Next(run, s, a), a.id, a.packet, out, BufferOf(run, a.answers))
  {
    FixupTakes(run, s.core, a.id, a.packet, a.answers);
    FixupPacketFields(run, s.core, a.id, a.packet, a.answers);
  }

  lemma OtherPendingStays(s: State, t: State, id: nat, request: Packet, out: Packet, buffer: Option<nat>, x: nat)
    requires Linked(s) && Adds(s, t, id, request, out, buffer) && x in s.core.pending
    ensures PendingLinked(t, x)
  {
    assert PendingLinked(s, x) && x != out.completion;
  }

  lemma NewPendingIsLinked(s: State, t: State, id: nat, request: Packet, out: Packet, buffer: Option<nat>)
    requires Linked(s) && BuffersOwned(s.core) && Adds(s, t, id, request, out, buffer)
    ensures PendingLinked(t, out.completion)
  {
    assert out.completion !in CommsOf(s.core.pending).Keys;
  }

  lemma OtherDispatchStays(s: State, t: State, id: nat, request: Packet, out: Packet, buffer: Option<nat>, d: nat)
    requires Linked(s) && Adds(s, t, id, request, out, buffer) && d in s.phases
    ensures DispatchLinked(t, d)
  {
    assert DispatchLinked(s, d) && d != id;
  }

  lemma AddingKeepsIds(s: State, t: State, id: nat, request: Packet, out: Packet, buffer: Option<nat>)
    requires IdsUsedOnce(s) && Adds(s, t, id, request, out, buffer)
    ensures IdsUsedOnce(t)
  {
  }

  lemma AddingKeepsLinks(s: State, t: State, id: nat, request: Packet, out: Packet, buffer: Option<nat>)
    requires Linked(s) && BuffersOwned(s.core) && Adds(s, t, id, request, out, buffer)
    ensures Linked(t)
  {
    AddingKeepsIds(s, t, id, request, out, buffer);
    NewPendingIsLinked(s, t, id, request, out, buffer);
    forall x | x in t.core.pending && x != out.completion ensures PendingLinked(t, x) {
      OtherPendingStays(s, t, id, request, out, buffer, x);
    }
    forall d | d in t.phases && d != id ensures DispatchLinked(t, d) {
      OtherDispatchStays(s, t, id, request, out, buffer, d);
    }
  }

  lemma FinishKeepsLinks(run: bool, s: State, a: Action)
    requires Linked(s) && a.Finish? && Enabled(run, s, a)
    ensures s.packets[a.id].completion in s.core.pending && s.core.world.values[s.packets[a.id].completion] == 1
    ensures Linked(Next(run, s, a))
  {
    var sig := s.packets[a.id].completion;
    assert DispatchLinked(s, a.id);
    assert PendingLinked(s, sig);
    var t := Next(run, s, a);
    forall x | x in t.core.pending ensures PendingLinked(t, x) {
      assert PendingLinked(s, x);
    }
    forall d | d in t.phases ensures DispatchLinked(t, d) {
      assert DispatchLinked(s, d);
    }
  }

  lemma CompletedStaysLinked(s: State, t: State, sig: nat, d: nat)
    requires Linked(s) && sig in s.core.pending && Returns(s.core, t.core, sig) && IsZero(s.core.world, sig)
    requires t.packets == s.packets && t.requests == s.requests && t.phases == s.phases && d in t.phases
    ensures DispatchLinked(t, d)
  {
    assert DispatchLinked(s, d) && PendingLinked(s, sig);
  }

  lemma ReturningKeepsLinks(s: State, t: State, sig: nat)
    requires Linked(s) && sig in s.core.pending && Returns(s.core, t.core, sig) && IsZero(s.core.world, sig)
    requires t.packets == s.packets && t.requests == s.requests && t.phases == s.phases
    requires t.tickets == s.tickets && t.dispatchCount == s.dispatchCount
    ensures Linked(t)
  {
    assert PendingLinked(s, sig);
    forall x | x in t.core.pending ensures PendingLinked(t, x) {
      assert PendingLinked(s, x);
      assert s.core.pending[x].dispatch != s.core.pending[sig].dispatch;
    }
    forall d | d in t.phases ensures DispatchLinked(t, d) {
      CompletedStaysLinked(s, t, sig, d);
    }
  }

  // -------------------------------------------------------------------------
  // Every step keeps the invariant
  // -------------------------------------------------------------------------

  lemma {:induction false} OwedIgnoresNew(requests: map<nat, Packet>, id: nat, request: Packet, completed: seq<nat>)
    requires id !in completed
    ensures OwedDecrements(requests[id := request], completed) == OwedDecrements(requests, completed)
  {
    if completed != [] {
      OwedIgnoresNew(requests, id, request, completed[..|completed| - 1]);
    }
  }

  lemma AddingKeepsInv(s: State, t: State, id: nat, request: Packet, out: Packet, buffer: Option<nat>)
    requires Inv(s) && Adds(s, t, id, request, out, buffer)
    ensures Inv(t)
  {
    var info := t.core.pending[out.completion];
    TakingKeepsSignals(s.core, t.core, out.completion, info);
    TakingKeepsBuffers(s.core, t.core, out.completion, info, buffer);
    TakingKeepsSize(s.core, t.core, out.completion, info);
    AddingKeepsLinks(s, t, id, request, out, buffer);
    OwedIgnoresNew(s.requests, id, request, s.core.world.completed);
  }

  lemma FixupKeepsInv(run: bool, s: State, a: Action)
    requires Inv(s) && a.FixupStep? && Enabled(run, s, a)
    ensures Inv(Next(run, s, a))
  {
    var out := Fixup(run, s.core, a.id, a.packet, a.answers).value.1;
    FixupAdds(run, s, a);
    AddingKeepsInv(s, Next(run, s, a), a.id, a.packet, out, BufferOf(run, a.answers));
  }

  lemma FinishKeepsInv(run: bool, s: State, a: Action)
    requires Inv(s) && a.Finish? && Enabled(run, s, a)
    ensures Inv(Next(run, s, a))
  {
    FinishKeepsLinks(run, s, a);
    var sig := s.packets[a.id].completion;
    assert Next(run, s, a).core.world.values.Keys == s.core.world.values.Keys;
    assert sig !in s.core.pool;
  }

  lemma ReturningKeepsHistory(s: State, c: Core, sig: nat)
    requires sig in s.core.pending && Returns(s.core, c, sig) && PendingLinked(s, sig)
    requires s.core.world.decrements == OwedDecrements(s.requests, s.core.world.completed)
    ensures c.world.decrements == OwedDecrements(s.requests, c.world.completed)
  {
    var completed := s.core.world.completed;
    assert (completed + [s.core.pending[sig].dispatch])[..|completed|] == completed;
  }

  lemma ReturningKeepsRunner(s: State, t: State)
    requires RunnerSane(s) && s.runner.Completing?
    requires Returns(s.core, t.core, s.runner.snapshot[s.runner.next])
    requires t.runner == Scanning(s.runner.snapshot, s.runner.next + 1)
    ensures RunnerSane(t)
  {
  }

  lemma ReturningKeepsInv(s: State, t: State)
    requires Inv(s) && s.runner.Completing? && Returns(s.core, t.core, s.runner.snapshot[s.runner.next])
    requires t == s.(core := t.core, runner := Scanning(s.runner.snapshot, s.runner.next + 1))
    ensures Inv(t)
  {
    var sig := s.runner.snapshot[s.runner.next];
    ReturningKeepsSignals(s.core, t.core, sig);
    ReturningKeepsBuffers(s.core, t.core, sig);
    ReturningKeepsSize(s.core, t.core, sig);
    ReturningKeepsLinks(s, t, sig);
    assert PendingLinked(s, sig);
    ReturningKeepsHistory(s, t.core, sig);
    ReturningKeepsRunner(s, t);
  }

  lemma CompleteReturnsNext(run: bool, s: State, a: Action)
    requires Inv(s) && a.CompleteStep? && Enabled(run, s, a)
    ensures var t := Next(run, s, a);
            && t == s.(core := t.core, runner := Scanning(s.runner.snapshot, s.runner.next + 1))
            && Returns(s.core, t.core, s.runner.snapshot[s.runner.next])
  {
    CompleteReturns(s.core, s.runner.snapshot[s.runner.next]);
  }

  lemma CompleteKeepsInv(run: bool, s: State, a: Action)
    requires Inv(s) && a.CompleteStep? && Enabled(run, s, a)
    ensures Inv(Next(run, s, a))
  {
    CompleteReturnsNext(run, s, a);
    ReturningKeepsInv(s, Next(run, s, a));
  }

  lemma StepKeepsInv(run: bool, s: State, a: Action)
    requires Inv(s) && Enabled(run, s, a)
    ensures Inv(Next(run, s, a))
  {
    match a
    case FixupStep(_, _, _) => FixupKeepsInv(run, s, a);
    case Finish(_) => FinishKeepsInv(run, s, a);
    case CompleteStep => CompleteKeepsInv(run, s, a);
    case TakeId => TicketKeepsLinks(s, Next(run, s, a));
    case Write(id) => WriteKeepsLinks(s, Next(run, s, a), id);
    case _ => RunnerStepKeepsInv(run, s, a);
  }

  /** Taking a ticket leaves the guarded fields and the dispatches alone. */
  lemma TicketKeepsLinks(s: State, t: State)
    requires Linked(s)
    requires t == s.(dispatchCount := s.dispatchCount + 1, tickets := s.tickets + {s.dispatchCount + 1})
    ensures Linked(t)
  {
    SameLinks(s, t);
  }

  lemma SameLinks(s: State, t: State)
    requires Linked(s)
    requires t.core == s.core && t.packets == s.packets && t.requests == s.requests && t.phases == s.phases
    ensures forall x {:trigger PendingLinked(t, x)} | x in t.core.pending :: PendingLinked(t, x)
    ensures forall d {:trigger DispatchLinked(t, d)} | d in t.phases :: DispatchLinked(t, d)
  {
    forall x | x in t.core.pending ensures PendingLinked(t, x) {
      assert PendingLinked(s, x);
    }
    forall d | d in t.phases ensures DispatchLinked(t, d) {
      assert DispatchLinked(s, d);
    }
  }

  lemma WriteKeepsLinks(s: State, t: State, id: nat)
    requires Linked(s) && id in s.phases && s.phases[id] == Prepared
    requires t == s.(phases := s.phases[id := Submitted])
    ensures Linked(t)
  {
    forall x | x in t.core.pending ensures PendingLinked(t, x) {
      assert PendingLinked(s, x);
    }
    forall d | d in t.phases ensures DispatchLinked(t, d) {
      assert DispatchLinked(s, d);
    }
    assert t.phases.Keys == s.phases.Keys;
  }

  lemma RunnerStepKeepsInv(run: bool, s: State, a: Action)
    requires Inv(s) && Enabled(run, s, a) && (a.Snapshot? || a.Poll?)
    ensures Inv(Next(run, s, a))
  {
    SameLinks(s, Next(run, s, a));
  }

  lemma InitialInv(s: State)
    requires Initial(s)
    ensures Inv(s)
  {
    var signals: seq<nat> :|
      && |signals| == SIGPOOL_INCREMENT && Distinct(signals) && 0 !in signals
      && s == State(Core(signals, map[], map[], CreateAll(EMPTY, signals)), 0, {}, map[], map[], map[], Idle);
    CreateAllEffect(EMPTY, signals);
  }

  /** In every run, whatever the interleaving, every state satisfies the invariant. */
  lemma {:induction false} RunsKeepInv(run: bool, states: seq<State>, actions: seq<Action>, i: nat)
    requires IsRun(run, states, actions) && i < |states|
    ensures Inv(states[i])
  {
    if i == 0 {
      InitialInv(states[0]);
    } else {
      RunsKeepInv(run, states, actions, i - 1);
      StepKeepsInv(run, states[i - 1], actions[i - 1]);
    }
  }

  // -------------------------------------------------------------------------
  // What every run keeps
  // -------------------------------------------------------------------------

  /** A created signal is pooled, once and with value 1, or pending, never both; the snapshot's rest is pending. */
  lemma SignalsHaveOneOwner(run: bool, states: seq<State>, actions: seq<Action>, i: nat)
    requires IsRun(run, states, actions) && i < |states|
    ensures var s := states[i];
            && Distinct(s.core.pool)
            && (forall x :: x in s.core.world.values <==> x in s.core.pool || x in s.core.pending)
            && (forall x | x in s.core.pool :: x !in s.core.pending && s.core.world.values[x] == 1)
            && (!s.runner.Idle? ==>
                  && s.runner.next <= |s.runner.snapshot| && Distinct(s.runner.snapshot[s.runner.next..])
                  && forall x | x in s.runner.snapshot[s.runner.next..] :: x in s.core.pending)
  {
    RunsKeepInv(run, states, actions, i);
  }

  /** signalCompleted always finds its signal: the branch for a missing one is never taken. */
  lemma MissingSignalIsUnreachable(run: bool, states: seq<State>, actions: seq<Action>, i: nat)
    requires IsRun(run, states, actions) && i < |states|
    ensures states[i].core.world.alarms == 0
    ensures i < |actions| && actions[i].CompleteStep? ==>
              states[i].runner.snapshot[states[i].runner.next] in states[i].core.pending
  {
    RunsKeepInv(run, states, actions, i);
    if i < |actions| {
      assert Enabled(run, states[i], actions[i]);
    }
  }

  /** The decrements name each completed dispatch with an application signal once, with its own signal. */
  ghost predicate DecrementsExact(requests: map<nat, Packet>, completed: seq<nat>, decrements: seq<(nat, nat)>) {
    && (forall i, j | 0 <= i < j < |decrements| :: decrements[i].0 != decrements[j].0)
    && (forall d, a :: (d, a) in decrements <==>
          d in completed && d in requests && requests[d].completion == a && a != 0)
  }

  lemma {:induction false} OwedIsExact(requests: map<nat, Packet>, completed: seq<nat>)
    requires Distinct(completed)
    ensures DecrementsExact(requests, completed, OwedDecrements(requests, completed))
  {
    if completed != [] {
      var n := |completed| - 1;
      var d := completed[n];
      var earlier, all := OwedDecrements(requests, completed[..n]), OwedDecrements(requests, completed);
      OwedIsExact(requests, completed[..n]);
      assert forall x :: x in completed <==> x in completed[..n] || x == d;
      forall i | 0 <= i < |earlier| ensures earlier[i].0 != d {
        assert (earlier[i].0, earlier[i].1) in earlier;
      }
    }
  }

  /** An application signal goes down at most once per dispatch, and only after the kernel has finished. */
  lemma AppSignalsGoDownOnce(run: bool, states: seq<State>, actions: seq<Action>, i: nat)
    requires IsRun(run, states, actions) && i < |states|
    ensures var s := states[i];
            && DecrementsExact(s.requests, s.core.world.completed, s.core.world.decrements)
            && forall d | d in s.core.world.completed :: d in s.phases && s.phases[d] == Finished
  {
    RunsKeepInv(run, states, actions, i);
    var s := states[i];
    OwedIsExact(s.requests, s.core.world.completed);
    forall d | d in s.core.world.completed ensures d in s.phases && s.phases[d] == Finished {
      assert DispatchLinked(s, d);
    }
  }

  /** Allocations minus releases are the pending instrumented dispatches; nothing is released twice. */
  lemma BuffersAreConserved(run: bool, states: seq<State>, actions: seq<Action>, i: nat)
    requires IsRun(run, states, actions) && i < |states|
    ensures var c := states[i].core;
            && c.world.allocations - c.world.releases == |CommsOf(c.pending)| == |c.world.liveBuffers| == |c.world.liveComms|
            && c.kernargs.Keys == CommsOf(c.pending).Keys
            && c.world.badReleases == 0
  {
    RunsKeepInv(run, states, actions, i);
    var c := states[i].core;
    assert |c.kernargs| == |c.kernargs.Keys| == |CommsOf(c.pending).Keys| == |CommsOf(c.pending)|;
  }

  /**
   * Until signalCompleted has run for it, a dispatch has its completion signal and, when
   * instrumented, its kernarg buffer to itself, and the buffer is not freed.
   */
  lemma NothingIsTakenFromRunningKernels(run: bool, states: seq<State>, actions: seq<Action>, i: nat, d: nat, e: nat)
    requires IsRun(run, states, actions) && i < |states|
    requires d in states[i].phases && e in states[i].phases && d != e
    requires d !in states[i].core.world.completed && e !in states[i].core.world.completed
    ensures var s := states[i];
            && d in s.packets && e in s.packets && d in s.requests
            && s.packets[d].completion in s.core.pending && s.packets[d].completion != s.packets[e].completion
            && (s.packets[d].completion !in s.core.kernargs ==> s.packets[d].kernarg == s.requests[d].kernarg)
            && (s.packets[d].completion in s.core.kernargs ==> s.packets[d].kernarg in s.core.world.liveBuffers)
            && (s.packets[d].completion in s.core.kernargs && s.packets[e].completion in s.core.kernargs ==>
                  s.packets[d].kernarg != s.packets[e].kernarg)
  {
    RunsKeepInv(run, states, actions, i);
    var s := states[i];
    assert DispatchLinked(s, d) && DispatchLinked(s, e);
    assert PendingLinked(s, s.packets[d].completion) && PendingLinked(s, s.packets[e].completion);
  }

  /** The most signals that are pending at once in these states. */
  ghost predicate IsMostPending(states: seq<State>, most: nat) {
    && (forall j | 0 <= j < |states| :: |states[j].core.pending| <= most)
    && exists j :: 0 <= j < |states| && |states[j].core.pending| == most
  }

  lemma PeakOnlyGrowsInFixup(run: bool, s: State, a: Action)
    requires Enabled(run, s, a) && !a.FixupStep?
    ensures Next(run, s, a).core.world.peak == s.core.world.peak
  {
  }

  lemma StepRaisesPeak(run: bool, s: State, a: Action)
    requires Inv(s) && Enabled(run, s, a)
    ensures var t := Next(run, s, a);
            t.core.world.peak == if s.core.world.peak < |t.core.pending| then |t.core.pending| else s.core.world.peak
  {
    if a.FixupStep? {
      FixupTakes(run, s.core, a.id, a.packet, a.answers);
    } else {
      StepKeepsInv(run, s, a);
      PeakOnlyGrowsInFixup(run, s, a);
    }
  }

  lemma MostWithOneMore(states: seq<State>, most: nat, t: State)
    requires IsMostPending(states, most)
    ensures IsMostPending(states + [t], if most < |t.core.pending| then |t.core.pending| else most)
  {
    var j :| 0 <= j < |states| && |states[j].core.pending| == most;
    var all := states + [t];
    assert all[j] == states[j] && all[|states|] == t;
  }

  lemma NothingWasPending(s: State)
    requires Initial(s)
    ensures s.core.pending == map[] && s.core.world.peak == 0
  {
    CreateAllKeepsRest(EMPTY, s.core.pool);
  }

  lemma RunRaisesPeak(run: bool, states: seq<State>, actions: seq<Action>, i: nat)
    requires IsRun(run, states, actions) && 0 < i < |states|
    ensures var before, count := states[i - 1].core.world.peak, |states[i].core.pending|;
            states[i].core.world.peak == if before < count then count else before
  {
    RunsKeepInv(run, states, actions, i - 1);
    StepRaisesPeak(run, states[i - 1], actions[i - 1]);
  }

  lemma {:induction false} PeakIsMost(run: bool, states: seq<State>, actions: seq<Action>, i: nat)
    requires IsRun(run, states, actions) && i < |states|
    ensures IsMostPending(states[..i + 1], states[i].core.world.peak)
  {
    if i == 0 {
      NothingWasPending(states[0]);
      assert |states[..1][0].core.pending| == 0;
    } else {
      PeakIsMost(run, states, actions, i - 1);
      RunRaisesPeak(run, states, actions, i);
      MostWithOneMore(states[..i], states[i - 1].core.world.peak, states[i]);
      assert states[..i + 1] == states[..i] + [states[i]];
    }
  }

  lemma PoolFitsPeak(run: bool, states: seq<State>, actions: seq<Action>, i: nat)
    requires IsRun(run, states, actions) && i < |states|
    ensures var w := states[i].core.world; |w.values| == SIGPOOL_INCREMENT * RefillsFor(w.peak)
  {
    RunsKeepInv(run, states, actions, i);
  }

  /** The pool grows only when it must: as many signals as the most that were ever pending at once need. */
  lemma PoolIsAsSmallAsNeeded(run: bool, states: seq<State>, actions: seq<Action>, i: nat, most: nat)
    requires IsRun(run, states, actions) && i < |states| && IsMostPending(states[..i + 1], most)
    ensures var n := |states[i].core.world.values|; n % 8 == 0 && 8 <= n && most <= n && (n == 8 || n - 8 < most)
  {
    PoolFitsPeak(run, states, actions, i);
    PeakIsMost(run, states, actions, i);
  }

  /** Nothing has been allocated, and every packet is its request with another completion signal. */
  ghost predicate Untouched(s: State) {
    && s.core.world.allocations == 0
    && forall d | d in s.packets ::
         d in s.requests && s.packets[d] == s.requests[d].(completion := s.packets[d].completion)
  }

  lemma StepLeavesPackets(s: State, a: Action)
    requires Enabled(false, s, a) && Untouched(s)
    ensures Untouched(Next(false, s, a))
  {
    if a.FixupStep? {
      FixupDecides(false, s.core, a.id, a.packet, a.answers);
    }
  }

  /** Without instrumentation no run changes anything of a packet but its completion signal. */
  lemma {:induction false} WithoutInstrumentation(states: seq<State>, actions: seq<Action>, i: nat)
    requires IsRun(false, states, actions) && i < |states|
    ensures states[i].core.world.allocations == 0
    ensures forall d | d in states[i].packets ::
              d in states[i].requests
              && states[i].packets[d] == states[i].requests[d].(completion := states[i].packets[d].completion)
  {
    if i == 0 {
      CreateAllKeepsRest(EMPTY, states[0].core.pool);
    } else {
      WithoutInstrumentation(states, actions, i - 1);
      StepLeavesPackets(states[i - 1], actions[i - 1]);
    }
  }

  // -------------------------------------------------------------------------
  // A pass of the runner
  // -------------------------------------------------------------------------

  /** What a pass over this snapshot has done: the signals that were zero are gone, all else is as it was. */
  ghost predicate CompletedZeros(c: Core, snapshot: seq<nat>, d: Core) {
    && (forall x :: x in d.pending <==> x in c.pending && !(x in snapshot && IsZero(c.world, x)))
    && (forall x | x in d.pending :: d.pending[x] == c.pending[x])
    && (forall x | x in c.pending && !(x in snapshot && IsZero(c.world, x)) ::
          IsZero(d.world, x) <==> IsZero(c.world, x))
    && d.world.alarms == c.world.alarms
  }

  lemma CompletedOneMore(c: Core, snapshot: seq<nat>, sig: nat, d: Core, e: Core)
    requires CompletedZeros(c, snapshot, d) && sig in c.pending && sig !in snapshot
    requires if IsZero(d.world, sig) then Returns(d, e, sig) else e == d
    ensures CompletedZeros(c, snapshot + [sig], e)
  {
    assert forall x :: x in snapshot + [sig] <==> x in snapshot || x == sig;
  }

  /** A pass over pending signals completes exactly those that have reached zero. */
  lemma {:induction false} PassCompletesZeros(c: Core, snapshot: seq<nat>)
    requires Distinct(snapshot) && forall x | x in snapshot :: x in c.pending
    ensures CompletedZeros(c, snapshot, Pass(c, snapshot))
  {
    if snapshot != [] {
      var n := |snapshot| - 1;
      var sig, d := snapshot[n], Pass(c, snapshot[..n]);
      PassCompletesZeros(c, snapshot[..n]);
      assert sig in snapshot && sig !in snapshot[..n];
      if IsZero(d.world, sig) {
        CompleteReturns(d, sig);
      }
      CompletedOneMore(c, snapshot[..n], sig, d, Pass(c, snapshot));
      assert snapshot[..n] + [sig] == snapshot;
    }
  }

  /** Once all kernels have finished, one undisturbed pass leaves nothing pending. */
  lemma FinishedKernelsAreDrained(run: bool, states: seq<State>, actions: seq<Action>, i: nat, order: seq<nat>)
    requires IsRun(run, states, actions) && i < |states|
    requires Enumerates(order, states[i].core.pending.Keys)
    requires forall d | d in states[i].phases :: states[i].phases[d] == Finished
    ensures Pass(states[i].core, order).pending == map[]
    ensures Pass(states[i].core, order).world.alarms == 0
  {
    RunsKeepInv(run, states, actions, i);
    var s := states[i];
    forall x | x in s.core.pending ensures IsZero(s.core.world, x) {
      assert PendingLinked(s, x);
    }
    PassCompletesZeros(s.core, order);
  }
}
