// The dispatch interceptor of src/interceptor.cc: the fields its mutex guards, and the
// two operations that change them, fixupPacket and signalCompleted.
module Interceptor {
  import opened Wrappers

  const SIGPOOL_INCREMENT: nat := 8

  /** A kernel dispatch packet; `other` stands for every field that the interceptor only copies. */
  datatype Packet = Packet(
    kernelObject: nat, kernarg: nat, privateSize: nat, groupSize: nat, completion: nat, other: nat)

  /** What is remembered about a pending dispatch; the model adds which dispatch it is. */
  datatype KernelInfo = KernelInfo(appSignal: nat, dispatch: nat, comms: Option<nat>)

  datatype Sizes = Sizes(privateSize: nat, groupSize: nat)

  /** The answers of the kernel cache, the dispatch controller, the allocator and the runtime. */
  datatype Answers = Answers(
    freshSignals: seq<nat>, hasKernels: bool, known: bool, alternative: nat, argSize: nat,
    canDispatch: bool, descriptor: Option<Sizes>, buffer: Option<nat>, comms: Option<nat>)

  /**
   * What the guarded fields refer to outside: the value of every signal the interceptor
   * created, the kernarg buffers and comms objects that exist, and a history.
   */
  datatype World = World(
    values: map<nat, int>, liveBuffers: set<nat>, liveComms: set<nat>,
    allocations: nat, releases: nat, badReleases: nat, alarms: nat, peak: nat,
    completed: seq<nat>, decrements: seq<(nat, nat)>)
  {
    /** hsa_signal_create with initial value 1. */
    function Create(sig: nat): World {
      this.(values := values[sig := 1])
    }

    function Allocate(buffer: nat, comms: nat): World {
      this.(liveBuffers := liveBuffers + {buffer}, liveComms := liveComms + {comms}, allocations := allocations + 1)
    }

    function Pending(count: nat): World {
      this.(peak := if peak < count then count else peak)
    }

    /** The dispatch is done: its application signal, if it has one, goes down by one. */
    function Retire(info: KernelInfo): World {
      this.(completed := completed + [info.dispatch],
            decrements := decrements + if info.appSignal != 0 then [(info.dispatch, info.appSignal)] else [])
    }

    function Reset(sig: nat): World {
      this.(values := values[sig := 1])
    }

    function Free(buffer: nat): World {
      this.(liveBuffers := liveBuffers - {buffer}, releases := releases + 1,
            badReleases := badReleases + if buffer in liveBuffers then 0 else 1)
    }

    function CheckIn(comms: nat): World {
      this.(liveComms := liveComms - {comms}, badReleases := badReleases + if comms in liveComms then 0 else 1)
    }

    function Alarm(): World {
      this.(alarms := alarms + 1)
    }
  }

  const EMPTY: World := World(map[], {}, {}, 0, 0, 0, 0, 0, [], [])

  /** The fields that the mutex guards, and the world. */
  datatype Core = Core(pool: seq<nat>, pending: map<nat, KernelInfo>, kernargs: map<nat, nat>, world: World)

  // -------------------------------------------------------------------------
  // fixupPacket
  // -------------------------------------------------------------------------

  datatype Choice = Plain | Instrumented(sizes: Sizes, buffer: nat, comms: nat) | Abort

  /** Which branch fixupPacket takes; missing sizes, descriptors, memory or comms objects end the process. */
  function Decide(run: bool, e: Answers): Choice {
    if e.hasKernels && e.known && e.alternative != 0 && run && e.canDispatch then
      if e.argSize != 0 && e.descriptor.Some? && e.buffer.Some? && e.comms.Some?
      then Instrumented(e.descriptor.value, e.buffer.value, e.comms.value)
      else Abort
    else Plain
  }

  function CreateAll(w: World, signals: seq<nat>): World {
    if signals == [] then w else CreateAll(w, signals[..|signals| - 1]).Create(signals[|signals| - 1])
  }

  /** An empty pool is refilled with new signals. */
  function Refilled(c: Core, signals: seq<nat>): Core {
    if c.pool == [] then c.(pool := signals, world := CreateAll(c.world, signals)) else c
  }

  /** Takes the last pooled signal and makes it pending. */
  function Pended(c: Core, info: KernelInfo): Core
    requires c.pool != []
  {
    var n := |c.pool| - 1;
    var pending := c.pending[c.pool[n] := info];
    Core(c.pool[..n], pending, c.kernargs, c.world.Pending(|pending|))
  }

  /** Remembers the kernarg buffer and the comms object of a signal. */
  function Equipped(c: Core, sig: nat, buffer: nat, comms: nat): Core {
    c.(kernargs := c.kernargs[sig := buffer], world := c.world.Allocate(buffer, comms))
  }

  /** None when the process ends inside the call. */
  function Fixup(run: bool, c: Core, id: nat, packet: Packet, e: Answers): Option<(Core, Packet)>
    requires |e.freshSignals| == SIGPOOL_INCREMENT
  {
    var r := Refilled(c, e.freshSignals);
    var sig := r.pool[|r.pool| - 1];
    match Decide(run, e)
    case Abort => None
    case Plain =>
      Some((Pended(r, KernelInfo(packet.completion, id, None)), packet.(completion := sig)))
    case Instrumented(sizes, buffer, comms) =>
      Some((Pended(Equipped(r, sig, buffer, comms), KernelInfo(packet.completion, id, Some(comms))),
            packet.(kernelObject := e.alternative, kernarg := buffer, privateSize := sizes.privateSize,
                    groupSize := sizes.groupSize, completion := sig)))
  }

  /** The packet stays as it was but for its signal, and nothing is allocated. */
  ghost predicate LeftAlone(c: Core, packet: Packet, id: nat, d: Core, out: Packet) {
    && out == packet.(completion := out.completion)
    && d.kernargs == c.kernargs
    && out.completion in d.pending && d.pending[out.completion] == KernelInfo(packet.completion, id, None)
    && d.world.allocations == c.world.allocations
    && d.world.liveBuffers == c.world.liveBuffers && d.world.liveComms == c.world.liveComms
  }

  /** The packet names the alternative and the new segment, which belongs to its signal, as the comms object does. */
  ghost predicate Redirected(c: Core, packet: Packet, id: nat, e: Answers, d: Core, out: Packet) {
    && e.descriptor.Some? && e.buffer.Some? && e.comms.Some?
    && out.kernelObject == e.alternative && out.kernarg == e.buffer.value
    && out.privateSize == e.descriptor.value.privateSize && out.groupSize == e.descriptor.value.groupSize
    && out.other == packet.other
    && d.kernargs == c.kernargs[out.completion := e.buffer.value]
    && out.completion in d.pending && d.pending[out.completion] == KernelInfo(packet.completion, id, e.comms)
    && d.world.allocations == c.world.allocations + 1
    && d.world.liveBuffers == c.world.liveBuffers + {e.buffer.value}
    && d.world.liveComms == c.world.liveComms + {e.comms.value}
  }

  lemma {:induction false} CreateAllKeepsRest(w: World, signals: seq<nat>)
    ensures CreateAll(w, signals) == w.(values := CreateAll(w, signals).values)
  {
    if signals != [] {
      CreateAllKeepsRest(w, signals[..|signals| - 1]);
    }
  }

  /**
   * When a packet is rewritten: in instrumented mode, when the kernel is known, has an alternative
   * and may be dispatched. Then a missing size, descriptor, buffer or comms object ends the process.
   */
  ghost predicate Decided(run: bool, c: Core, id: nat, packet: Packet, e: Answers, d: Core, dispatch: Option<Packet>) {
    var wanted := run && e.hasKernels && e.known && e.alternative != 0 && e.canDispatch;
    && (dispatch.None? <==> wanted && (e.argSize == 0 || e.descriptor.None? || e.buffer.None? || e.comms.None?))
    && (dispatch.Some? ==>
          if wanted then Redirected(c, packet, id, e, d, dispatch.value) else LeftAlone(c, packet, id, d, dispatch.value))
  }

  lemma FixupDecides(run: bool, c: Core, id: nat, packet: Packet, e: Answers)
    requires |e.freshSignals| == SIGPOOL_INCREMENT
    ensures var r := Fixup(run, c, id, packet, e);
            if r.Some? then Decided(run, c, id, packet, e, r.value.0, Some(r.value.1))
            else Decided(run, c, id, packet, e, c, None)
  {
    if c.pool == [] {
      CreateAllKeepsRest(c.world, e.freshSignals);
    }
  }

  // -------------------------------------------------------------------------
  // signalCompleted
  // -------------------------------------------------------------------------

  /** Removes a signal's kernarg buffer, if it has one, and frees it. */
  function WithoutKernarg(c: Core, sig: nat): Core {
    if sig in c.kernargs
    then c.(kernargs := c.kernargs - {sig}, world := c.world.Free(c.kernargs[sig]))
    else c
  }

  function WithoutComms(c: Core, comms: Option<nat>): Core {
    if comms.Some? then c.(world := c.world.CheckIn(comms.value)) else c
  }

  function Complete(c: Core, sig: nat): Core {
    if sig !in c.pending then c.(world := c.world.Alarm())
    else
      var info := c.pending[sig];
      var d := c.(pending := c.pending - {sig}, world := c.world.Retire(info).Reset(sig));
      var e := WithoutKernarg(d, sig);
      WithoutComms(e.(pool := e.pool + [sig]), info.comms)
  }

  /** signalWait with a short timeout: whether the signal has reached zero. */
  predicate IsZero(w: World, sig: nat) {
    sig in w.values && w.values[sig] == 0
  }

  /** The runner's walk over a snapshot when nothing else happens meanwhile. */
  function Pass(c: Core, snapshot: seq<nat>): Core {
    if snapshot == [] then c
    else
      var n := |snapshot| - 1;
      var d := Pass(c, snapshot[..n]);
      if IsZero(d.world, snapshot[n]) then Complete(d, snapshot[n]) else d
  }

  // -------------------------------------------------------------------------
  // The class
  // -------------------------------------------------------------------------

  ghost predicate Ascending(s: seq<nat>) {
    forall i, j | 0 <= i < j < |s| :: s[i] < s[j]
  }

  ghost predicate Enumerates(s: seq<nat>, keys: set<nat>) {
    && (forall i, j | 0 <= i < j < |s| :: s[i] != s[j])
    && (forall x :: x in s <==> x in keys)
  }

  method Least(s: set<nat>) returns (m: nat)
    requires s != {}
    ensures m in s && forall x | x in s :: m <= x
  {
    m :| m in s;
    var rest := s - {m};
    while rest != {}
      invariant rest < s && m in s
      invariant forall x | x in s && x !in rest :: m <= x
      decreases rest
    {
      var x :| x in rest;
      rest := rest - {x};
      if x < m {
        m := x;
      }
    }
  }

  class HsaInterceptor {
    const runInstrumented: bool
    var sigPool: seq<nat>
    var pendingSignals: map<nat, KernelInfo>
    var pendingKernargs: map<nat, nat>
    var world: World

    function View(): Core
      reads this
    {
      Core(sigPool, pendingSignals, pendingKernargs, world)
    }

    constructor (run: bool, signals: seq<nat>)
      requires |signals| == SIGPOOL_INCREMENT
      ensures runInstrumented == run
      ensures View() == Core(signals, map[], map[], CreateAll(EMPTY, signals))
    {
      runInstrumented := run;
      sigPool, pendingSignals, pendingKernargs, world := [], map[], map[], EMPTY;
      new;
      CreateSignals(signals);
      assert [] + signals == signals;
    }

    /** The loop that creates SIGPOOL_INCREMENT signals. */
    method CreateSignals(signals: seq<nat>)
      requires |signals| == SIGPOOL_INCREMENT
      modifies this`sigPool, this`world
      ensures sigPool == old(sigPool) + signals && world == CreateAll(old(world), signals)
    {
      for i := 0 to SIGPOOL_INCREMENT
        invariant sigPool == old(sigPool) + signals[..i] && world == CreateAll(old(world), signals[..i])
      {
        world := world.Create(signals[i]);
        sigPool := sigPool + [signals[i]];
        assert signals[..i + 1] == signals[..i] + [signals[i]];
      }
      assert signals[..SIGPOOL_INCREMENT] == signals;
    }

    /** Takes the last pooled signal; an empty pool is refilled first. */
    method TakeSignal(signals: seq<nat>) returns (sig: nat)
      requires |signals| == SIGPOOL_INCREMENT
      modifies this`sigPool, this`world
      ensures var r := Refilled(old(View()), signals);
              sigPool + [sig] == r.pool && world == r.world
    {
      if |sigPool| == 0 {
        CreateSignals(signals);
        assert [] + signals == signals;
      }
      sig := sigPool[|sigPool| - 1];
      sigPool := sigPool[..|sigPool| - 1];
    }

    /** One critical section of an application thread. */
    method FixupPacket(id: nat, packet: Packet, e: Answers) returns (dispatch: Option<Packet>)
      requires |e.freshSignals| == SIGPOOL_INCREMENT
      modifies this
      ensures var r := Fixup(runInstrumented, old(View()), id, packet, e);
              && (dispatch.Some? <==> r.Some?)
              && (r.Some? ==> View() == r.value.0 && dispatch == Some(r.value.1))
      ensures Decided(runInstrumented, old(View()), id, packet, e, View(), dispatch)
    {
      FixupDecides(runInstrumented, View(), id, packet, e);
      var sig := TakeSignal(e.freshSignals);
      var comms: Option<nat> := None;
      var out := packet;
      if e.hasKernels && e.known && e.alternative != 0 {
        if runInstrumented && e.canDispatch {
          out := out.(kernelObject := e.alternative);
          if e.argSize == 0 || e.descriptor.None? || e.buffer.None? || e.comms.None? {
            return None;
          }
          var buffer := e.buffer.value;
          comms := e.comms;
          world := world.Allocate(buffer, comms.value);
          out := out.(kernarg := buffer, privateSize := e.descriptor.value.privateSize,
                      groupSize := e.descriptor.value.groupSize);
          pendingKernargs := pendingKernargs[sig := buffer];
        } else {
          out := out.(kernelObject := packet.kernelObject);
        }
      }
      pendingSignals := pendingSignals[sig := KernelInfo(out.completion, id, comms)];
      world := world.Pending(|pendingSignals|);
      out := out.(completion := sig);
      dispatch := Some(out);
    }

    /** One critical section of the runner thread. */
    method SignalCompleted(sig: nat)
      modifies this
      ensures View() == Complete(old(View()), sig)
    {
      if sig in pendingSignals {
        var info := pendingSignals[sig];
        pendingSignals := pendingSignals - {sig};
        world := world.Retire(info);
        world := world.Reset(sig);
        if sig in pendingKernargs {
          world := world.Free(pendingKernargs[sig]);
          pendingKernargs := pendingKernargs - {sig};
        }
        sigPool := sigPool + [sig];
        if info.comms.Some? {
          world := world.CheckIn(info.comms.value);
        }
      } else {
        world := world.Alarm();
      }
    }

    /** The pending signals in handle order. */
    method GetPendingSignals() returns (out: seq<nat>)
      ensures Ascending(out) && Enumerates(out, pendingSignals.Keys)
    {
      out := [];
      var rest := pendingSignals.Keys;
      while rest != {}
        invariant rest <= pendingSignals.Keys
        invariant Ascending(out)
        invariant forall x :: x in out <==> x in pendingSignals.Keys && x !in rest
        invariant forall x, y | x in out && y in rest :: x < y
        decreases rest
      {
        var x := Least(rest);
        forall i | 0 <= i < |out| ensures out[i] < x {
          assert out[i] in out;
        }
        rest := rest - {x};
        out := out + [x];
      }
    }

    /** The body of the runner's do loop. */
    method RunnerPass(snapshot: seq<nat>)
      modifies this
      ensures View() == Pass(old(View()), snapshot)
    {
      for i := 0 to |snapshot|
        invariant View() == Pass(old(View()), snapshot[..i])
      {
        if IsZero(world, snapshot[i]) {
          SignalCompleted(snapshot[i]);
        }
        assert snapshot[..i + 1][..i] == snapshot[..i];
      }
      assert snapshot[..|snapshot|] == snapshot;
    }
  }
}
