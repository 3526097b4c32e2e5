// The pass that reports the start of basic blocks (src/instrumentation/AMDGCNSubmitBBStart.cpp),
// and that its clones announce exactly the blocks that the original runs.
module BlockPass {
  import opened Wrappers
  import opened Ir
  import opened Kernels
  import opened Words

  /** The user type of messages about block starts. */
  const BLOCK_START: nat := 2

  /** The kernel that is instrumented and the hash of file names. */
  datatype Context = Context(kernel: Kernel, hash: string -> nat)

  /** How many instructions at the start of the code are PHIs. */
  function Phis(code: seq<Instr>): (n: nat)
    ensures n <= |code| && forall k | 0 <= k < n :: code[k].op.Phi?
    ensures n < |code| ==> !code[n].op.Phi?
  {
    if code == [] || !code[0].op.Phi? then 0 else 1 + Phis(code[1..])
  }

  /** Where the instruction after the PHIs comes from; it may be the terminator. */
  function LocAfterPhis(b: Block): Option<Loc> {
    if Phis(b.code) < |b.code| then b.code[Phis(b.code)].loc else b.endLoc
  }

  function HeaderOf(c: Context, b: Block, n: nat): Instr {
    Instr(SubmitHeader(Use(Comms), SiteOf(c.hash, LocAfterPhis(b)), BLOCK_START, n % TWO_32), LocAfterPhis(b))
  }

  function WithHeader(c: Context, b: Block, n: nat): Block {
    b.(code := b.code[..Phis(b.code)] + [HeaderOf(c, b, n)] + b.code[Phis(b.code)..])
  }

  function InstrumentedKernel(c: Context): Kernel {
    Clone(c.kernel).(blocks :=
      seq(|c.kernel.blocks|, b requires 0 <= b < |c.kernel.blocks| => WithHeader(c, c.kernel.blocks[b], b)))
  }

  // -------------------------------------------------------------------------
  // The pass
  // -------------------------------------------------------------------------

  lemma {:induction false} PhisAre(code: seq<Instr>, n: nat)
    requires n <= |code| && (forall k | 0 <= k < n :: code[k].op.Phi?) && (n < |code| ==> !code[n].op.Phi?)
    ensures Phis(code) == n
  {
    if n > 0 {
      PhisAre(code[1..], n - 1);
    }
  }

  method InstrumentClone(clone: Function, c: Context)
    requires clone.Body() == Clone(c.kernel)
    modifies clone
    ensures clone.Body() == InstrumentedKernel(c)
  {
    var counter := 0;
    ghost var result := InstrumentedKernel(c).blocks;
    for b := 0 to |clone.blocks|
      invariant |clone.blocks| == |result| && counter == b
      invariant forall k | 0 <= k < b :: clone.blocks[k] == result[k]
      invariant forall k | b <= k < |result| :: clone.blocks[k] == c.kernel.blocks[k]
    {
      var block := clone.blocks[b];
      var i := 0;
      while i < |block.code| && block.code[i].op.Phi?
        invariant 0 <= i <= |block.code| && forall k | 0 <= k < i :: block.code[k].op.Phi?
      {
        i := i + 1;
      }
      PhisAre(block.code, i);
      var loc := if i < |block.code| then block.code[i].loc else block.endLoc;
      var header := Instr(SubmitHeader(Use(Comms), SiteOf(c.hash, loc), BLOCK_START, counter % TWO_32), loc);
      clone.blocks := clone.blocks[b := block.(code := block.code[..i] + [header] + block.code[i..])];
      assert clone.blocks[b] == result[b];
      counter := counter + 1;
    }
    assert clone.blocks == result;
  }

  function Made(kernels: seq<Kernel>, hash: string -> nat): (made: seq<Kernel>)
    ensures |made| == |kernels|
  {
    seq(|kernels|, i requires 0 <= i < |kernels| => InstrumentedKernel(Context(kernels[i], hash)))
  }

  method InstrumentKernel(m: CodeModule, original: Function, hash: string -> nat) returns (clone: Function)
    modifies m
    ensures fresh(clone) && m.functions == old(m.functions) + [clone]
    ensures clone.Body() == InstrumentedKernel(Context(original.Body(), hash))
  {
    clone := CloneKernelWithExtraArg(original, m);
    InstrumentClone(clone, Context(Kernel(original.name, original.params, original.blocks), hash));
  }

  predicate HasBlocks(kernel: Kernel) {
    kernel.blocks != []
  }

  ghost predicate SomeBlocks(kernels: seq<Kernel>) {
    exists i :: 0 <= i < |kernels| && HasBlocks(kernels[i])
  }

  lemma SomeBlocksOneMore(kernels: seq<Kernel>, kernel: Kernel)
    ensures SomeBlocks(kernels + [kernel]) <==> SomeBlocks(kernels) || HasBlocks(kernel)
  {
    var all := kernels + [kernel];
    if HasBlocks(kernel) {
      assert HasBlocks(all[|kernels|]);
    } else if i :| 0 <= i < |kernels| && HasBlocks(kernels[i]) {
      assert HasBlocks(all[i]);
    }
  }

  method RunOnModule(m: CodeModule, isTarget: bool, linked: bool, hash: string -> nat) returns (modified: bool)
    modifies m
    ensures !isTarget || !linked ==> !modified && m.functions == old(m.functions)
    ensures isTarget && linked ==>
              ClonesAppended(m.functions, old(m.functions), Made(old(Bodies(GpuKernels(m.functions))), hash))
    ensures isTarget && linked ==>
              modified == SomeBlocks(old(Bodies(GpuKernels(m.functions))))
  {
    modified := false;
    if !isTarget || !linked {
      return;
    }
    var kernels := CollectGpuKernels(m);
    ghost var functions, made := m.functions, Made(Bodies(kernels), hash);
    for i := 0 to |kernels|
      invariant ClonesAppended(m.functions, functions, made[..i])
      invariant Bodies(kernels) == old(Bodies(kernels))
      invariant modified == SomeBlocks(Bodies(kernels)[..i])
    {
      ghost var before := m.functions;
      var clone := InstrumentKernel(m, kernels[i], hash);
      AppendClone(before, functions, made[..i], clone);
      assert made[..i + 1] == made[..i] + [made[i]];
      assert Bodies(kernels)[..i + 1] == Bodies(kernels)[..i] + [kernels[i].Body()];
      SomeBlocksOneMore(Bodies(kernels)[..i], kernels[i].Body());
      if kernels[i].blocks != [] {
        modified := true;
      }
    }
    assert made[..|kernels|] == made && Bodies(kernels)[..|kernels|] == Bodies(kernels);
  }

  // -------------------------------------------------------------------------
  // What the clone reports
  // -------------------------------------------------------------------------

  function HeaderMessageOf(c: Context, comms: int, b: nat): Event
    requires b < |c.kernel.blocks|
  {
    HeaderMessage(comms, SiteOf(c.hash, LocAfterPhis(c.kernel.blocks[b])), BLOCK_START, b % TWO_32)
  }

  /** On entry to a block its header follows at once. */
  function Reported(c: Context, comms: int, e: Event): seq<Event> {
    if e.Enter? && e.block < |c.kernel.blocks| then [e, HeaderMessageOf(c, comms, e.block)] else [e]
  }

  function Expand(c: Context, comms: int, log: seq<Event>): seq<Event> {
    if log == [] then [] else Expand(c, comms, log[..|log| - 1]) + Reported(c, comms, log[|log| - 1])
  }

  lemma ExpandOneMore(c: Context, comms: int, log: seq<Event>, e: Event)
    ensures Expand(c, comms, log + [e]) == Expand(c, comms, log) + Reported(c, comms, e)
  {
    assert (log + [e])[..|log|] == log;
  }

  lemma Regroup(a: seq<Event>, b: seq<Event>, rest: seq<Event>)
    ensures a + (b + rest) == (a + b) + rest
  {
  }

  predicate OnlyAccesses(events: seq<Event>) {
    forall k | 0 <= k < |events| :: events[k].Access?
  }

  lemma {:induction false} ExpandAccesses(c: Context, comms: int, log: seq<Event>, events: seq<Event>, all: seq<Event>)
    requires OnlyAccesses(events) && all == log + events
    ensures Expand(c, comms, all) == Expand(c, comms, log) + events
    decreases |events|
  {
    if events == [] {
      assert all == log;
      assert Expand(c, comms, log) + [] == Expand(c, comms, log);
    } else {
      var init, e := events[..|events| - 1], events[|events| - 1];
      ExpandAccesses(c, comms, log, init, log + init);
      ExpandOneMore(c, comms, log + init, e);
      assert init + [e] == events;
      Regroup(log, init, [e]);
      Regroup(Expand(c, comms, log), init, [e]);
      assert Reported(c, comms, e) == [e];
    }
  }

  ghost predicate EnvsAgree(comms: int, s: State, t: State) {
    VarsAgree(s.env, t.env) && s.mem == t.mem && Value(Use(Comms), t.env) == comms
  }

  /** The same source code run in both: the same accesses are added to both logs. */
  lemma {:induction false} CodeAgrees(m: Machine, comms: int, code: seq<Instr>, from: nat, entryA: Env, entryB: Env,
                                      s: State, t: State) returns (events: seq<Event>)
    requires SourceCode(code) && VarsAgree(entryA, entryB) && EnvsAgree(comms, s, t)
    ensures OnlyAccesses(events) && ((forall k | 0 <= k < |code| :: code[k].op.Phi?) ==> events == [])
    ensures EnvsAgree(comms, RunCode(m, code, from, entryA, s), RunCode(m, code, from, entryB, t))
    ensures RunCode(m, code, from, entryA, s).log == s.log + events
    ensures RunCode(m, code, from, entryB, t).log == t.log + events
    decreases |code|
  {
    if code == [] {
      events := [];
    } else {
      assert SourceOp(code[0].op);
      SourceStepAgrees(m, code[0], from, entryA, entryB, s, t);
      var first := EffectOf(m, code[0], from, entryA, s.env, s.mem).events;
      var s1, t1 := Step(m, code[0], from, entryA, s), Step(m, code[0], from, entryB, t);
      var rest := CodeAgrees(m, comms, code[1..], from, entryA, entryB, s1, t1);
      events := first + rest;
      Regroup(s.log, first, rest);
      Regroup(t.log, first, rest);
    }
  }

  ghost predicate Mirrors(c: Context, comms: int, s: State, t: State) {
    EnvsAgree(comms, s, t) && t.log == Expand(c, comms, s.log)
  }

  lemma HeaderRuns(m: Machine, c: Context, b: Block, n: nat, from: nat, entry: Env, t: State)
    ensures Step(m, HeaderOf(c, b, n), from, entry, t) ==
            t.(log := t.log + [HeaderMessage(Value(Use(Comms), t.env), SiteOf(c.hash, LocAfterPhis(b)), BLOCK_START, n % TWO_32)])
  {
  }

  lemma WithHeaderRuns(m: Machine, c: Context, b: Block, n: nat, from: nat, entry: Env, t: State)
    ensures var phis := RunCode(m, b.code[..Phis(b.code)], from, entry, t);
            RunCode(m, WithHeader(c, b, n).code, from, entry, t) ==
            RunCode(m, b.code[Phis(b.code)..], from, entry, Step(m, HeaderOf(c, b, n), from, entry, phis))
  {
    var front, header, back := b.code[..Phis(b.code)], [HeaderOf(c, b, n)], b.code[Phis(b.code)..];
    RunConcat(m, front + header, back, from, entry, t);
    RunConcat(m, front, header, from, entry, t);
    RunOne(m, header[0], from, entry, RunCode(m, front, from, entry, t));
  }

  lemma SplitRuns(m: Machine, b: Block, from: nat, entry: Env, s: State)
    ensures RunCode(m, b.code, from, entry, s) ==
            RunCode(m, b.code[Phis(b.code)..], from, entry, RunCode(m, b.code[..Phis(b.code)], from, entry, s))
  {
    var front, back := b.code[..Phis(b.code)], b.code[Phis(b.code)..];
    assert b.code == front + back;
    RunConcat(m, front, back, from, entry, s);
  }

  /** Up to its header, a block only logs that it is entered. */
  lemma FrontMirrors(m: Machine, c: Context, comms: int, n: nat, from: nat, entryA: Env, entryB: Env, s: State, t: State)
    requires n < |c.kernel.blocks| && SourceCode(c.kernel.blocks[n].code)
    requires VarsAgree(entryA, entryB) && Mirrors(c, comms, s, t)
    ensures var b := c.kernel.blocks[n];
            var front := b.code[..Phis(b.code)];
            Mirrors(c, comms, RunCode(m, front, from, entryA, Entered(n, s)),
                    Step(m, HeaderOf(c, b, n), from, entryB, RunCode(m, front, from, entryB, Entered(n, t))))
  {
    var b := c.kernel.blocks[n];
    var front := b.code[..Phis(b.code)];
    var nothing := CodeAgrees(m, comms, front, from, entryA, entryB, Entered(n, s), Entered(n, t));
    var s1, t1 := RunCode(m, front, from, entryA, Entered(n, s)), RunCode(m, front, from, entryB, Entered(n, t));
    HeaderRuns(m, c, b, n, from, entryB, t1);
    ExpandOneMore(c, comms, s.log, Enter(n));
    assert s1.log == s.log + [Enter(n)];
    assert t1.log + [HeaderMessageOf(c, comms, n)] == t.log + Reported(c, comms, Enter(n));
  }

  /** After it, both log the same accesses. */
  lemma BackMirrors(m: Machine, c: Context, comms: int, code: seq<Instr>, from: nat, entryA: Env, entryB: Env,
                    s: State, t: State)
    requires SourceCode(code) && VarsAgree(entryA, entryB) && Mirrors(c, comms, s, t)
    ensures Mirrors(c, comms, RunCode(m, code, from, entryA, s), RunCode(m, code, from, entryB, t))
  {
    var events := CodeAgrees(m, comms, code, from, entryA, entryB, s, t);
    ExpandAccesses(c, comms, s.log, events, s.log + events);
  }

  lemma BlockMirrors(m: Machine, c: Context, comms: int, n: nat, from: nat, entryA: Env, entryB: Env, s: State, t: State)
    requires n < |c.kernel.blocks| && SourceCode(c.kernel.blocks[n].code)
    requires VarsAgree(entryA, entryB) && Mirrors(c, comms, s, t)
    ensures var b := c.kernel.blocks[n];
            Mirrors(c, comms, RunCode(m, b.code, from, entryA, Entered(n, s)),
                    RunCode(m, WithHeader(c, b, n).code, from, entryB, Entered(n, t)))
  {
    var b := c.kernel.blocks[n];
    var front, back := b.code[..Phis(b.code)], b.code[Phis(b.code)..];
    SplitRuns(m, b, from, entryA, Entered(n, s));
    WithHeaderRuns(m, c, b, n, from, entryB, Entered(n, t));
    FrontMirrors(m, c, comms, n, from, entryA, entryB, s, t);
    BackMirrors(m, c, comms, back, from, entryA, entryB, RunCode(m, front, from, entryA, Entered(n, s)),
                Step(m, HeaderOf(c, b, n), from, entryB, RunCode(m, front, from, entryB, Entered(n, t))));
  }

  ghost predicate Related(c: Context, comms: int, a: Config, b: Config) {
    && (a.At? ==> b.At? && a.block == b.block && a.from == b.from)
    && (a.Done? ==> b.Done?)
    && Mirrors(c, comms, a.state, b.state)
  }

  lemma StepMirrors(m: Machine, c: Context, comms: int, a: Config, b: Config)
    requires IsSource(c.kernel) && Related(c, comms, a, b)
    ensures Related(c, comms, StepBlock(m, c.kernel, a), StepBlock(m, InstrumentedKernel(c), b))
  {
    if a.At? && a.block < |c.kernel.blocks| {
      var block := c.kernel.blocks[a.block];
      BlockMirrors(m, c, comms, a.block, a.from, a.state.env, b.state.env, a.state, b.state);
      if block.end.Jump? {
        OperandAgrees(block.end.on,
          RunCode(m, block.code, a.from, a.state.env, Entered(a.block, a.state)).env,
          RunCode(m, WithHeader(c, block, a.block).code, a.from, b.state.env, Entered(a.block, b.state)).env);
      }
    }
  }

  lemma StartRelated(c: Context, comms: int, env: Env, mem: Memory)
    ensures Related(c, comms, Start(env, mem), Start(env[Comms := comms], mem))
  {
    assert Expand(c, comms, []) == [];
  }

  /** However many blocks are run: the same way, the same memory, and a header for each block entered. */
  lemma {:induction false} CloneSimulates(m: Machine, c: Context, comms: int, n: nat, env: Env, mem: Memory)
    requires IsSource(c.kernel)
    ensures Related(c, comms, Run(m, c.kernel, n, Start(env, mem)),
                    Run(m, InstrumentedKernel(c), n, Start(env[Comms := comms], mem)))
  {
    if n == 0 {
      StartRelated(c, comms, env, mem);
    } else {
      CloneSimulates(m, c, comms, n - 1, env, mem);
      StepMirrors(m, c, comms, Run(m, c.kernel, n - 1, Start(env, mem)),
                  Run(m, InstrumentedKernel(c), n - 1, Start(env[Comms := comms], mem)));
    }
  }

  /** The header of block b, field by field; its place is that of what follows the PHIs. */
  ghost predicate TellsBlock(c: Context, comms: int, header: Event, b: nat) {
    && header.HeaderMessage? && b < |c.kernel.blocks|
    && header.comms == comms && header.userType == 2 && header.userData == b % 0x1_0000_0000
    && exists n: nat ::
         && IsAfterPhis(c.kernel.blocks[b].code, n)
         && IsSiteOf(header.site, c.hash,
              if n < |c.kernel.blocks[b].code| then c.kernel.blocks[b].code[n].loc else c.kernel.blocks[b].endLoc)
  }

  ghost predicate IsAfterPhis(code: seq<Instr>, n: nat) {
    && n <= |code| && (forall k | 0 <= k < n :: code[k].op.Phi?)
    && (n < |code| ==> !code[n].op.Phi?)
  }

  /** Right after a block is entered, and nowhere else, its header is sent. */
  ghost predicate HeaderAt(c: Context, comms: int, trace: seq<Event>, j: nat)
    requires j < |trace|
  {
    && (trace[j].Enter? ==> j + 1 < |trace| && TellsBlock(c, comms, trace[j + 1], trace[j].block))
    && (trace[j].HeaderMessage? ==> j > 0 && trace[j - 1].Enter?)
  }

  lemma HeaderTells(c: Context, comms: int, b: nat)
    requires b < |c.kernel.blocks|
    ensures TellsBlock(c, comms, HeaderMessageOf(c, comms, b), b)
  {
    assert IsAfterPhis(c.kernel.blocks[b].code, Phis(c.kernel.blocks[b].code));
  }

  lemma {:induction false} ExpandHasHeaders(c: Context, comms: int, log: seq<Event>)
    requires FromSource(c, log)
    ensures forall j | 0 <= j < |Expand(c, comms, log)| :: HeaderAt(c, comms, Expand(c, comms, log), j)
  {
    if log != [] {
      var init, e := log[..|log| - 1], log[|log| - 1];
      ExpandHasHeaders(c, comms, init);
      var before, trace := Expand(c, comms, init), Expand(c, comms, log);
      if e.Enter? {
        HeaderTells(c, comms, e.block);
      }
      forall j | 0 <= j < |trace| ensures HeaderAt(c, comms, trace, j) {
        if j < |before| {
          assert HeaderAt(c, comms, before, j);
        }
      }
    }
  }

  /** In the clone's trace each entry of a block is followed by its header, with all its fields. */
  lemma ClonesSendHeaders(m: Machine, c: Context, comms: int, n: nat, env: Env, mem: Memory)
    requires IsSource(c.kernel)
    ensures var trace := Run(m, InstrumentedKernel(c), n, Start(env[Comms := comms], mem)).state.log;
            forall j | 0 <= j < |trace| :: HeaderAt(c, comms, trace, j)
  {
    CloneSimulates(m, c, comms, n, env, mem);
    RunLogsBlocks(m, c, n, env, mem);
    ExpandHasHeaders(c, comms, Run(m, c.kernel, n, Start(env, mem)).state.log);
  }

  /** The blocks that a log enters. */
  function Way(log: seq<Event>): seq<nat> {
    if log == [] then []
    else Way(log[..|log| - 1]) + if log[|log| - 1].Enter? then [log[|log| - 1].block] else []
  }

  /** The user data of the headers in a log. */
  function Reports(log: seq<Event>): seq<nat> {
    if log == [] then []
    else Reports(log[..|log| - 1]) + if log[|log| - 1].HeaderMessage? then [log[|log| - 1].userData] else []
  }

  lemma ReportsOneMore(log: seq<Event>, e: Event)
    ensures Reports(log + [e]) == Reports(log) + if e.HeaderMessage? then [e.userData] else []
  {
    assert (log + [e])[..|log|] == log;
  }

  lemma EntryIsReported(c: Context, comms: int, before: seq<Event>, b: nat)
    requires b < |c.kernel.blocks| <= TWO_32
    ensures Reports(before + Reported(c, comms, Enter(b))) == Reports(before) + [b]
  {
    var header := HeaderMessageOf(c, comms, b);
    ReportsOneMore(before, Enter(b));
    ReportsOneMore(before + [Enter(b)], header);
    assert before + [Enter(b), header] == (before + [Enter(b)]) + [header];
  }

  /** A log that the original leaves: no messages, and only blocks that exist. */
  predicate FromSource(c: Context, log: seq<Event>) {
    forall k | 0 <= k < |log| :: log[k].Access? || (log[k].Enter? && log[k].block < |c.kernel.blocks|)
  }

  lemma {:induction false} ReportsAreTheWay(c: Context, comms: int, log: seq<Event>)
    requires FromSource(c, log) && |c.kernel.blocks| <= TWO_32
    ensures Reports(Expand(c, comms, log)) == Way(log)
  {
    if log != [] {
      var init, e := log[..|log| - 1], log[|log| - 1];
      ReportsAreTheWay(c, comms, init);
      var before := Expand(c, comms, init);
      if e.Enter? {
        EntryIsReported(c, comms, before, e.block);
      } else {
        ReportsOneMore(before, e);
      }
    }
  }

  lemma {:induction false} RunLogsBlocks(m: Machine, c: Context, n: nat, env: Env, mem: Memory)
    requires IsSource(c.kernel)
    ensures FromSource(c, Run(m, c.kernel, n, Start(env, mem)).state.log)
  {
    if n > 0 {
      RunLogsBlocks(m, c, n - 1, env, mem);
      var a := Run(m, c.kernel, n - 1, Start(env, mem));
      if a.At? && a.block < |c.kernel.blocks| {
        var s := Entered(a.block, a.state);
        var events := CodeAgrees(m, Value(Use(Comms), s.env), c.kernel.blocks[a.block].code, a.from, a.state.env, a.state.env, s, s);
      }
    }
  }

  /** The indices that the clone reports are, in order, the blocks that the original enters. */
  lemma ClonesReportTheWay(m: Machine, c: Context, comms: int, n: nat, env: Env, mem: Memory)
    requires IsSource(c.kernel) && |c.kernel.blocks| <= TWO_32
    ensures Reports(Run(m, InstrumentedKernel(c), n, Start(env[Comms := comms], mem)).state.log) ==
            Way(Run(m, c.kernel, n, Start(env, mem)).state.log)
  {
    CloneSimulates(m, c, comms, n, env, mem);
    RunLogsBlocks(m, c, n, env, mem);
    ReportsAreTheWay(c, comms, Run(m, c.kernel, n, Start(env, mem)).state.log);
  }
}
