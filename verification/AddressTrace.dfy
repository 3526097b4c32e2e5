// Running a kernel that reports its memory accesses: it goes the same way and leaves the same
// memory as the original, and its messages are those that the original's accesses call for.
module AddressTrace {
  import opened Wrappers
  import opened Ir
  import opened AddressPass
  import opened Dominance
  import Scope
  import opened Words

  // -------------------------------------------------------------------------
  // The messages that accesses call for
  // -------------------------------------------------------------------------

  /** The address that the message for a buffer access carries. */
  function BufferAddress(k: Kernel, desc: Operand, base: int, offset: int): nat {
    ((if Traced(k, desc).Some? then base else 0) + SignExtended(offset)) % TWO_64
  }

  function MessageOf(m: Machine, c: Context, comms: int, e: Event): Event
    requires e.Access? && IsAccess(e.instr.op)
  {
    var site := SiteOf(c.hash, e.instr.loc);
    match e.instr.op
    case Load(_, _, space, stripped, size) =>
      AddressMessage(comms, if space == FLAT_SPACE then e.base else m.flat(space, e.base),
                     site, READ, stripped % 256, size % 0x1_0000)
    case Store(_, _, space, stripped, size) =>
      AddressMessage(comms, if space == FLAT_SPACE then e.base else m.flat(space, e.base),
                     site, WRITE, stripped % 256, size % 0x1_0000)
    case BufferLoad(_, _, desc, _, _, size) =>
      AddressMessage(comms, BufferAddress(c.kernel, desc, e.base, e.offset), site, READ, GLOBAL_SPACE, size % 0x1_0000)
    case BufferStore(_, _, desc, _, _, size) =>
      AddressMessage(comms, BufferAddress(c.kernel, desc, e.base, e.offset), site, WRITE, GLOBAL_SPACE, size % 0x1_0000)
  }

  /** An access in scope is announced by its message; anything else is observed as it was. */
  function Reported(m: Machine, c: Context, comms: int, e: Event): seq<Event> {
    if e.Access? && Selected(c, e.instr) then [MessageOf(m, c, comms, e), e] else [e]
  }

  function Expand(m: Machine, c: Context, comms: int, log: seq<Event>): seq<Event> {
    if log == [] then []
    else Expand(m, c, comms, log[..|log| - 1]) + Reported(m, c, comms, log[|log| - 1])
  }

  lemma ExpandOneMore(m: Machine, c: Context, comms: int, log: seq<Event>, e: Event)
    ensures Expand(m, c, comms, log + [e]) == Expand(m, c, comms, log) + Reported(m, c, comms, e)
  {
    assert (log + [e])[..|log|] == log;
  }

  // -------------------------------------------------------------------------
  // Descriptors match their bases
  // -------------------------------------------------------------------------

  /** These descriptors match their bases now. */
  ghost predicate Match(m: Machine, k: Kernel, env: Env, regs: set<Reg>) {
    forall r | r in regs ::
      Traced(k, Use(r)).Some? && m.rsrcBase(Value(Use(r), env)) == Value(Traced(k, Use(r)).value, env)
  }

  lemma MatchAfterSet(m: Machine, k: Kernel, env: Env, regs: set<Reg>, dst: Reg, v: int)
    requires Match(m, k, env, regs)
    ensures Match(m, k, env[dst := v], set r | r in regs && !Touches(k, dst, r))
  {
  }

  lemma StepKeepsMatch(m: Machine, k: Kernel, i: Instr, from: nat, entry: Env, s: State, regs: set<Reg>)
    requires KeepsBases(m) && SourceOp(i.op) && Match(m, k, s.env, regs)
    ensures Match(m, k, Step(m, i, from, entry, s).env, Current(k, i, regs))
  {
    var e := EffectOf(m, i, from, entry, s.env, s.mem);
    if e.sets.Some? {
      MatchAfterSet(m, k, s.env, regs, e.sets.value.0, e.sets.value.1);
    }
  }

  lemma {:induction false} CodeRsrcIsSource(code: seq<Instr>, r: Reg)
    requires SourceCode(code) && CodeRsrc(code, r).Some?
    ensures SourceOperand(CodeRsrc(code, r).value)
  {
    assert SourceOp(code[0].op);
    if !(code[0].op.MakeRsrc? && code[0].op.dst == r) {
      CodeRsrcIsSource(code[1..], r);
    }
  }

  lemma {:induction false} BlocksRsrcIsSource(blocks: seq<Block>, r: Reg)
    requires forall b | 0 <= b < |blocks| :: SourceCode(blocks[b].code)
    requires BlocksRsrc(blocks, r).Some?
    ensures SourceOperand(BlocksRsrc(blocks, r).value)
  {
    if CodeRsrc(blocks[0].code, r).Some? {
      CodeRsrcIsSource(blocks[0].code, r);
    } else {
      BlocksRsrcIsSource(blocks[1..], r);
    }
  }

  // -------------------------------------------------------------------------
  // What the added code does
  // -------------------------------------------------------------------------

  /** Only values that the pass made are set, and one message is sent. */
  ghost predicate OnlySends(t: State, u: State, message: Event) {
    && VarsAgree(t.env, u.env) && Value(Use(Comms), u.env) == Value(Use(Comms), t.env)
    && u.mem == t.mem && u.log == t.log + [message]
  }

  lemma RunPair(m: Machine, a: Instr, b: Instr, from: nat, entry: Env, s: State)
    ensures RunCode(m, [a, b], from, entry, s) == Step(m, b, from, entry, Step(m, a, from, entry, s))
  {
    assert [a, b] == [a] + [b];
    RunConcat(m, [a], [b], from, entry, s);
    RunOne(m, a, from, entry, s);
    RunOne(m, b, from, entry, Step(m, a, from, entry, s));
  }

  lemma PointerCodeRuns(m: Machine, c: Context, i: Instr, n: nat, ptr: Operand, space: nat, stripped: nat, size: nat,
                        kind: nat, from: nat, entry: Env, t: State)
    ensures var addr := if space == FLAT_SPACE then Value(ptr, t.env) else m.flat(space, Value(ptr, t.env));
            OnlySends(t, RunCode(m, PointerCode(c, i, n, ptr, space, stripped, size, kind), from, entry, t),
              AddressMessage(Value(Use(Comms), t.env), addr, SiteOf(c.hash, i.loc), kind, stripped % 256, size % 0x1_0000))
  {
    if space == FLAT_SPACE {
      RunOne(m, Submit(c, i, ptr, kind, stripped, size), from, entry, t);
    } else {
      RunPair(m, Instr(PointerCast(Temp(n, 0), ptr, space), i.loc),
              Submit(c, i, Use(Temp(n, 0)), kind, stripped, size), from, entry, t);
    }
  }

  function SetTemp(t: State, n: nat, part: nat, v: int): State {
    t.(env := t.env[Temp(n, part) := v])
  }

  /** Each of these instructions sets one value and does nothing else. */
  lemma Computes(m: Machine, i: Instr, n: nat, part: nat, v: int, from: nat, entry: Env, t: State)
    requires i.op.PtrToInt? || i.op.SExt? || i.op.Add? || i.op.IntToPtr?
    requires i.op.dst == Temp(n, part) && EffectOf(m, i, from, entry, t.env, t.mem).sets == Some((i.op.dst, v))
    ensures Step(m, i, from, entry, t) == SetTemp(t, n, part, v)
  {
    assert t.log + [] == t.log;
  }

  lemma RunFour(m: Machine, i0: Instr, i1: Instr, i2: Instr, i3: Instr, from: nat, entry: Env, s: State)
    ensures RunCode(m, [i0, i1, i2, i3], from, entry, s) ==
            Step(m, i3, from, entry, Step(m, i2, from, entry, Step(m, i1, from, entry, Step(m, i0, from, entry, s))))
  {
    assert [i0, i1, i2, i3] == [i0, i1] + [i2, i3];
    RunConcat(m, [i0, i1], [i2, i3], from, entry, s);
    RunPair(m, i0, i1, from, entry, s);
    RunPair(m, i2, i3, from, entry, Step(m, i1, from, entry, Step(m, i0, from, entry, s)));
  }

  /** The instructions that compute a buffer address from its base and offset. */
  function AddressCode(i: Instr, n: nat, base: Operand, offset: Operand): seq<Instr> {
    [Instr(PtrToInt(Temp(n, 0), base), i.loc), Instr(SExt(Temp(n, 1), offset), i.loc),
     Instr(Add(Temp(n, 2), Use(Temp(n, 0)), Use(Temp(n, 1))), i.loc),
     Instr(IntToPtr(Temp(n, 3), Use(Temp(n, 2))), i.loc)]
  }

  lemma AddressIsComputed(m: Machine, i: Instr, n: nat, base: Operand, offset: Operand, from: nat, entry: Env, t: State)
    requires SourceOperand(base) && SourceOperand(offset)
    ensures var x, y := Value(base, t.env), SignExtended(Value(offset, t.env));
            RunCode(m, AddressCode(i, n, base, offset), from, entry, t) ==
            SetTemp(SetTemp(SetTemp(SetTemp(t, n, 0, x), n, 1, y), n, 2, (x + y) % TWO_64), n, 3, (x + y) % TWO_64)
  {
    var code := AddressCode(i, n, base, offset);
    var x, y := Value(base, t.env), SignExtended(Value(offset, t.env));
    var t1 := SetTemp(t, n, 0, x);
    var t2 := SetTemp(t1, n, 1, y);
    var t3 := SetTemp(t2, n, 2, (x + y) % TWO_64);
    Computes(m, code[0], n, 0, x, from, entry, t);
    Computes(m, code[1], n, 1, y, from, entry, t1);
    Computes(m, code[2], n, 2, (x + y) % TWO_64, from, entry, t2);
    Computes(m, code[3], n, 3, (x + y) % TWO_64, from, entry, t3);
    RunFour(m, code[0], code[1], code[2], code[3], from, entry, t);
    assert code == [code[0], code[1], code[2], code[3]];
  }

  lemma BufferCodeRuns(m: Machine, c: Context, i: Instr, n: nat, desc: Operand, offset: Operand, size: nat,
                       kind: nat, from: nat, entry: Env, t: State)
    requires SourceOperand(BaseOrNull(c.kernel, desc)) && SourceOperand(offset)
    ensures var addr := (Value(BaseOrNull(c.kernel, desc), t.env) + SignExtended(Value(offset, t.env))) % TWO_64;
            OnlySends(t, RunCode(m, BufferCode(c, i, n, desc, offset, size, kind), from, entry, t),
              AddressMessage(Value(Use(Comms), t.env), addr, SiteOf(c.hash, i.loc), kind, GLOBAL_SPACE % 256, size % 0x1_0000))
  {
    var base, submit := BaseOrNull(c.kernel, desc), Submit(c, i, Use(Temp(n, 3)), kind, GLOBAL_SPACE, size);
    assert BufferCode(c, i, n, desc, offset, size, kind) == AddressCode(i, n, base, offset) + [submit];
    AddressIsComputed(m, i, n, base, offset, from, entry, t);
    var u := RunCode(m, AddressCode(i, n, base, offset), from, entry, t);
    RunConcat(m, AddressCode(i, n, base, offset), [submit], from, entry, t);
    RunOne(m, submit, from, entry, u);
  }

  // -------------------------------------------------------------------------
  // Simulation
  // -------------------------------------------------------------------------

  /** The clone's state t stands for the original's state s. */
  ghost predicate Mirrors(m: Machine, c: Context, comms: int, s: State, t: State) {
    && VarsAgree(s.env, t.env) && s.mem == t.mem
    && Value(Use(Comms), t.env) == comms
    && t.log == Expand(m, c, comms, s.log)
  }

  lemma BaseAgrees(m: Machine, k: Kernel, desc: Operand, regs: set<Reg>, a: Env, b: Env)
    requires IsSource(k) && SourceOperand(desc) && VarsAgree(a, b) && Match(m, k, a, regs)
    requires Traced(k, desc).Some? ==> desc.reg in regs
    ensures SourceOperand(BaseOrNull(k, desc))
    ensures Value(BaseOrNull(k, desc), b) == if Traced(k, desc).Some? then m.rsrcBase(Value(desc, b)) else 0
  {
    if Traced(k, desc).Some? {
      BlocksRsrcIsSource(k.blocks, desc.reg);
      OperandAgrees(Traced(k, desc).value, a, b);
      OperandAgrees(desc, a, b);
    }
  }

  lemma PointerAccessSends(m: Machine, c: Context, i: Instr, n: nat, from: nat, entry: Env, t: State)
    requires Selected(c, i) && (i.op.Load? || i.op.Store?)
    ensures OnlySends(t, RunCode(m, Added(c, i, n), from, entry, t),
              MessageOf(m, c, Value(Use(Comms), t.env), Access(i, Value(i.op.ptr, t.env), 0, [])))
  {
    match i.op
    case Load(_, ptr, space, stripped, size) =>
      PointerCodeRuns(m, c, i, n, ptr, space, stripped, size, READ, from, entry, t);
    case Store(_, ptr, space, stripped, size) =>
      PointerCodeRuns(m, c, i, n, ptr, space, stripped, size, WRITE, from, entry, t);
  }

  lemma BufferAccessSends(m: Machine, c: Context, i: Instr, n: nat, from: nat, entry: Env, t: State)
    requires Selected(c, i) && (i.op.BufferLoad? || i.op.BufferStore?)
    requires SourceOperand(BaseOrNull(c.kernel, i.op.desc)) && SourceOperand(i.op.offset)
    requires Value(BaseOrNull(c.kernel, i.op.desc), t.env) ==
             if Traced(c.kernel, i.op.desc).Some? then m.rsrcBase(Value(i.op.desc, t.env)) else 0
    ensures var e := Access(i, m.rsrcBase(Value(i.op.desc, t.env)), Value(i.op.offset, t.env), Values(i.op.rest, t.env));
            OnlySends(t, RunCode(m, Added(c, i, n), from, entry, t), MessageOf(m, c, Value(Use(Comms), t.env), e))
  {
    match i.op
    case BufferLoad(_, _, desc, offset, _, size) =>
      BufferCodeRuns(m, c, i, n, desc, offset, size, READ, from, entry, t);
    case BufferStore(_, _, desc, offset, _, size) =>
      BufferCodeRuns(m, c, i, n, desc, offset, size, WRITE, from, entry, t);
  }

  /** The code added before a selected access sends the message that the access calls for. */
  lemma AddedSends(m: Machine, c: Context, i: Instr, n: nat, from: nat, entry: Env, env: Env, t: State, regs: set<Reg>)
    requires IsSource(c.kernel) && SourceOp(i.op) && Selected(c, i)
    requires VarsAgree(env, t.env) && Match(m, c.kernel, env, regs) && UsesCurrent(c.kernel, i, regs)
    ensures var e := EffectOf(m, i, from, entry, t.env, t.mem).events;
            && |e| == 1 && e[0].Access? && e[0].instr == i
            && OnlySends(t, RunCode(m, Added(c, i, n), from, entry, t), MessageOf(m, c, Value(Use(Comms), t.env), e[0]))
  {
    if i.op.Load? || i.op.Store? {
      PointerAccessSends(m, c, i, n, from, entry, t);
    } else {
      BaseAgrees(m, c.kernel, i.op.desc, regs, env, t.env);
      BufferAccessSends(m, c, i, n, from, entry, t);
    }
  }

  lemma SelectedMirrors(m: Machine, c: Context, comms: int, i: Instr, n: nat, from: nat, entryA: Env, entryB: Env,
                        s: State, t: State, regs: set<Reg>)
    requires IsSource(c.kernel) && SourceOp(i.op) && VarsAgree(entryA, entryB) && Mirrors(m, c, comms, s, t)
    requires Match(m, c.kernel, s.env, regs) && UsesCurrent(c.kernel, i, regs) && Selected(c, i)
    ensures Mirrors(m, c, comms, Step(m, i, from, entryA, s),
                    Step(m, i, from, entryB, RunCode(m, Added(c, i, n), from, entryB, t)))
  {
    var e := EffectOf(m, i, from, entryA, s.env, s.mem).events;
    SameEffect(m, i, from, entryA, entryB, s.env, t.env, s.mem);
    AddedSends(m, c, i, n, from, entryB, s.env, t, regs);
    var u := RunCode(m, Added(c, i, n), from, entryB, t);
    SourceStepAgrees(m, i, from, entryA, entryB, s, u);
    assert e == [e[0]];
    ExpandOneMore(m, c, comms, s.log, e[0]);
  }

  /** One source instruction, with what was added before it. */
  lemma InstrMirrors(m: Machine, c: Context, comms: int, i: Instr, n: nat, from: nat, entryA: Env, entryB: Env,
                     s: State, t: State, regs: set<Reg>)
    requires IsSource(c.kernel) && SourceOp(i.op) && VarsAgree(entryA, entryB) && Mirrors(m, c, comms, s, t)
    requires Match(m, c.kernel, s.env, regs) && UsesCurrent(c.kernel, i, regs)
    ensures Mirrors(m, c, comms, Step(m, i, from, entryA, s),
                    Step(m, i, from, entryB, RunCode(m, Added(c, i, n), from, entryB, t)))
  {
    if Selected(c, i) {
      SelectedMirrors(m, c, comms, i, n, from, entryA, entryB, s, t, regs);
    } else {
      NothingToAdd(c, i, n);
      SourceStepAgrees(m, i, from, entryA, entryB, s, t);
      NothingReported(m, c, comms, i, from, entryA, s);
    }
  }

  lemma NothingReported(m: Machine, c: Context, comms: int, i: Instr, from: nat, entry: Env, s: State)
    requires SourceOp(i.op) && !Selected(c, i)
    ensures var e := EffectOf(m, i, from, entry, s.env, s.mem).events;
            Expand(m, c, comms, s.log + e) == Expand(m, c, comms, s.log) + e
  {
    var e := EffectOf(m, i, from, entry, s.env, s.mem).events;
    if e == [] {
      assert s.log + e == s.log;
    } else {
      assert e == [e[0]];
      ExpandOneMore(m, c, comms, s.log, e[0]);
    }
  }

  lemma {:induction false} CodeMirrors(m: Machine, c: Context, comms: int, code: seq<Instr>, n: nat, from: nat,
                                       entryA: Env, entryB: Env, s: State, t: State, regs: set<Reg>)
    requires KeepsBases(m) && IsSource(c.kernel) && SourceCode(code) && VarsAgree(entryA, entryB)
    requires Mirrors(m, c, comms, s, t)
    requires Match(m, c.kernel, s.env, regs) && CodeUsesCurrent(c.kernel, code, regs)
    ensures Mirrors(m, c, comms, RunCode(m, code, from, entryA, s), RunCode(m, Instrumented(c, code, n), from, entryB, t))
    ensures Match(m, c.kernel, RunCode(m, code, from, entryA, s).env, CurrentAfter(c.kernel, code, regs))
    decreases |code|
  {
    if code != [] {
      var i, next := code[0], if Selected(c, code[0]) then n + 1 else n;
      assert SourceOp(i.op);
      InstrMirrors(m, c, comms, i, n, from, entryA, entryB, s, t, regs);
      StepKeepsMatch(m, c.kernel, i, from, entryA, s, regs);
      FirstThenRest(m, Added(c, i, n), i, Instrumented(c, code[1..], next), from, entryB, t);
      CodeMirrors(m, c, comms, code[1..], next, from, entryA, entryB, Step(m, i, from, entryA, s),
                  Step(m, i, from, entryB, RunCode(m, Added(c, i, n), from, entryB, t)), Current(c.kernel, i, regs));
    }
  }

  lemma FirstThenRest(m: Machine, a: seq<Instr>, i: Instr, b: seq<Instr>, from: nat, entry: Env, t: State)
    ensures RunCode(m, a + [i] + b, from, entry, t) ==
            RunCode(m, b, from, entry, Step(m, i, from, entry, RunCode(m, a, from, entry, t)))
  {
    RunConcat(m, a + [i], b, from, entry, t);
    RunConcat(m, a, [i], from, entry, t);
    RunOne(m, i, from, entry, RunCode(m, a, from, entry, t));
  }

  /** Both stand at the same block, having come the same way, or both have ended. */
  ghost predicate Related(m: Machine, c: Context, comms: int, a: Config, b: Config) {
    && (a.At? ==> b.At? && a.block == b.block && a.from == b.from)
    && (a.Done? ==> b.Done?)
    && Mirrors(m, c, comms, a.state, b.state)
  }

  /** The path has led to where the original stands; descriptors that are current on it match their bases. */
  ghost predicate Came(m: Machine, k: Kernel, p: seq<nat>, a: Config) {
    a.At? && a.block < |k.blocks| ==>
      && IsPath(k, p) && p[|p| - 1] == a.block
      && Match(m, k, a.state.env, CurrentOn(k, p[..|p| - 1]))
  }

  lemma EnterMirrors(m: Machine, c: Context, comms: int, b: nat, s: State, t: State)
    requires Mirrors(m, c, comms, s, t)
    ensures Mirrors(m, c, comms, Entered(b, s), Entered(b, t))
  {
    ExpandOneMore(m, c, comms, s.log, Enter(b));
  }

  lemma StepMirrors(m: Machine, c: Context, comms: int, p: seq<nat>, a: Config, b: Config) returns (next: seq<nat>)
    requires KeepsBases(m) && IsSource(c.kernel) && IsSsa(c.kernel)
    requires Related(m, c, comms, a, b) && Came(m, c.kernel, p, a)
    ensures Related(m, c, comms, StepBlock(m, c.kernel, a), StepBlock(m, InstrumentedKernel(c), b))
    ensures Came(m, c.kernel, next, StepBlock(m, c.kernel, a))
  {
    next := p;
    if a.At? && a.block < |c.kernel.blocks| {
      var at, regs := a.block, CurrentOn(c.kernel, p[..|p| - 1]);
      var block := c.kernel.blocks[at];
      EnterMirrors(m, c, comms, at, a.state, b.state);
      assert SourceCode(block.code);
      SsaUsesCurrent(c.kernel, p);
      CodeMirrors(m, c, comms, block.code, SitesBefore(c, at), a.from, a.state.env, b.state.env,
                  Entered(at, a.state), Entered(at, b.state), regs);
      var s := RunCode(m, block.code, a.from, a.state.env, Entered(at, a.state));
      var t := RunCode(m, Instrumented(c, block.code, SitesBefore(c, at)), a.from, b.state.env, Entered(at, b.state));
      next := LeaveMirrors(m, c, comms, p, at, s, t);
    }
  }

  lemma LeaveRelates(m: Machine, c: Context, comms: int, end: Terminator, at: nat, s: State, t: State)
    requires (end.Jump? ==> SourceOperand(end.on)) && Mirrors(m, c, comms, s, t)
    ensures Related(m, c, comms, Leave(end, at, s), Leave(end, at, t))
  {
    if end.Jump? {
      OperandAgrees(end.on, s.env, t.env);
    }
  }

  lemma PathGoesOn(m: Machine, k: Kernel, p: seq<nat>, s: State)
    requires IsPath(k, p) && k.blocks[p[|p| - 1]].end.Jump?
    requires Match(m, k, s.env, CurrentOn(k, p))
    ensures var at := p[|p| - 1]; var next := Target(k.blocks[at].end, s.env); Came(m, k, p + [next], At(next, at, s))
  {
    var next := Target(k.blocks[p[|p| - 1]].end, s.env);
    assert (p + [next])[..|p|] == p;
  }

  lemma LeaveMirrors(m: Machine, c: Context, comms: int, p: seq<nat>, at: nat, s: State, t: State) returns (next: seq<nat>)
    requires IsSource(c.kernel) && IsPath(c.kernel, p) && p[|p| - 1] == at && Mirrors(m, c, comms, s, t)
    requires Match(m, c.kernel, s.env, CurrentAfter(c.kernel, c.kernel.blocks[at].code, CurrentOn(c.kernel, p[..|p| - 1])))
    ensures Related(m, c, comms, Leave(c.kernel.blocks[at].end, at, s), Leave(c.kernel.blocks[at].end, at, t))
    ensures Came(m, c.kernel, next, Leave(c.kernel.blocks[at].end, at, s))
  {
    LeaveRelates(m, c, comms, c.kernel.blocks[at].end, at, s, t);
    next := p;
    if c.kernel.blocks[at].end.Jump? {
      PathGoesOn(m, c.kernel, p, s);
      next := p + [Target(c.kernel.blocks[at].end, s.env)];
    }
  }

  lemma {:induction false} SimulatesAlong(m: Machine, c: Context, comms: int, n: nat, env: Env, mem: Memory)
      returns (p: seq<nat>)
    requires KeepsBases(m) && IsSource(c.kernel) && IsSsa(c.kernel)
    ensures Related(m, c, comms, Run(m, c.kernel, n, Start(env, mem)),
                    Run(m, InstrumentedKernel(c), n, Start(env[Comms := comms], mem)))
    ensures Came(m, c.kernel, p, Run(m, c.kernel, n, Start(env, mem)))
  {
    if n == 0 {
      p := [0];
    } else {
      var q := SimulatesAlong(m, c, comms, n - 1, env, mem);
      p := StepMirrors(m, c, comms, q, Run(m, c.kernel, n - 1, Start(env, mem)),
                       Run(m, InstrumentedKernel(c), n - 1, Start(env[Comms := comms], mem)));
    }
  }

  /**
   * However many blocks are run, from any arguments and any memory: clone and original stand at
   * the same place with the same memory, and the clone has observed what the original has, with
   * one message just before each access in scope.
   */
  lemma CloneSimulates(m: Machine, c: Context, comms: int, n: nat, env: Env, mem: Memory)
    requires KeepsBases(m) && IsSource(c.kernel) && IsSsa(c.kernel)
    ensures Related(m, c, comms, Run(m, c.kernel, n, Start(env, mem)),
                    Run(m, InstrumentedKernel(c), n, Start(env[Comms := comms], mem)))
  {
    var p := SimulatesAlong(m, c, comms, n, env, mem);
  }

  // -------------------------------------------------------------------------
  // Reading the trace
  // -------------------------------------------------------------------------

  predicate Silent(log: seq<Event>) {
    forall k | 0 <= k < |log| :: log[k].Enter? || (log[k].Access? && IsAccess(log[k].instr.op))
  }

  lemma StepIsSilent(m: Machine, i: Instr, from: nat, entry: Env, s: State)
    requires SourceOp(i.op) && Silent(s.log)
    ensures Silent(Step(m, i, from, entry, s).log)
  {
    var e := EffectOf(m, i, from, entry, s.env, s.mem).events;
    assert Silent(e);
  }

  lemma {:induction false} CodeIsSilent(m: Machine, code: seq<Instr>, from: nat, entry: Env, s: State)
    requires SourceCode(code) && Silent(s.log)
    ensures Silent(RunCode(m, code, from, entry, s).log)
    decreases |code|
  {
    if code != [] {
      assert SourceOp(code[0].op);
      StepIsSilent(m, code[0], from, entry, s);
      CodeIsSilent(m, code[1..], from, entry, Step(m, code[0], from, entry, s));
    }
  }

  /** The original sends no messages. */
  lemma {:induction false} SourceIsSilent(m: Machine, k: Kernel, n: nat, env: Env, mem: Memory)
    requires IsSource(k)
    ensures Silent(Run(m, k, n, Start(env, mem)).state.log)
  {
    if n > 0 {
      SourceIsSilent(m, k, n - 1, env, mem);
      var c := Run(m, k, n - 1, Start(env, mem));
      if c.At? && c.block < |k.blocks| {
        CodeIsSilent(m, k.blocks[c.block].code, c.from, c.state.env, Entered(c.block, c.state));
      }
    }
  }

  /** The trace without its messages. */
  function Erased(log: seq<Event>): seq<Event> {
    if log == [] then []
    else Erased(log[..|log| - 1]) + if log[|log| - 1].AddressMessage? then [] else [log[|log| - 1]]
  }

  /** Position j holds an access in scope exactly when its message stands before it; messages stand nowhere else. */
  predicate Announced(m: Machine, c: Context, comms: int, trace: seq<Event>, j: nat)
    requires j < |trace|
  {
    && (trace[j].Access? && Selected(c, trace[j].instr) ==>
          j > 0 && trace[j - 1] == MessageOf(m, c, comms, trace[j]))
    && (trace[j].AddressMessage? ==>
          j + 1 < |trace| && trace[j + 1].Access? && Selected(c, trace[j + 1].instr)
          && trace[j] == MessageOf(m, c, comms, trace[j + 1]))
  }

  lemma {:induction false} EachAccessAnnounced(m: Machine, c: Context, comms: int, log: seq<Event>)
    requires Silent(log)
    ensures forall j | 0 <= j < |Expand(m, c, comms, log)| :: Announced(m, c, comms, Expand(m, c, comms, log), j)
  {
    if log != [] {
      var init, e := log[..|log| - 1], log[|log| - 1];
      EachAccessAnnounced(m, c, comms, init);
      var before, trace := Expand(m, c, comms, init), Expand(m, c, comms, log);
      forall j | 0 <= j < |trace| ensures Announced(m, c, comms, trace, j) {
        if j < |before| {
          assert Announced(m, c, comms, before, j);
        }
      }
    }
  }

  /** What a message says about the access that it announces, field by field. */
  ghost predicate Tells(m: Machine, c: Context, comms: int, message: Event, e: Event) {
    && message.AddressMessage? && e.Access? && IsAccess(e.instr.op)
    && message.comms == comms
    && IsSiteOf(message.site, c.hash, e.instr.loc)
    && message.kind == (if e.instr.op.Load? || e.instr.op.BufferLoad? then 1 else 2)
    && message.bytes == e.instr.op.size % 0x1_0000
    && (e.instr.op.Load? || e.instr.op.Store? ==>
          && message.addrSpace == e.instr.op.strippedSpace % 256
          && message.addr == (if e.instr.op.space == 0 then e.base else m.flat(e.instr.op.space, e.base)))
    && (e.instr.op.BufferLoad? || e.instr.op.BufferStore? ==>
          message.addrSpace == 1 && message.addr == BufferAddress(c.kernel, e.instr.op.desc, e.base, e.offset))
  }

  lemma MessageTells(m: Machine, c: Context, comms: int, e: Event)
    requires e.Access? && IsAccess(e.instr.op)
    ensures Tells(m, c, comms, MessageOf(m, c, comms, e), e)
  {
  }

  /** Without entries everything is in scope; otherwise what has a location that some entry covers. */
  ghost predicate IsInScope(entries: seq<Scope.Entry>, loc: Option<Loc>) {
    entries == [] ||
    (loc.Some? && exists k :: 0 <= k < |entries| && Scope.Covers(entries[k], loc.value.file, loc.value.line))
  }

  /** Where an access stands, a message tells of it just before it exactly when it is in scope; each message does. */
  ghost predicate ToldAt(m: Machine, c: Context, comms: int, trace: seq<Event>, j: nat)
    requires j < |trace|
  {
    && (trace[j].Access? ==>
          ((j > 0 && Tells(m, c, comms, trace[j - 1], trace[j])) <==> IsInScope(c.entries, trace[j].instr.loc)))
    && (trace[j].AddressMessage? ==> j + 1 < |trace| && Tells(m, c, comms, trace[j], trace[j + 1]))
  }

  lemma {:induction false} ExpandIsTold(m: Machine, c: Context, comms: int, log: seq<Event>)
    requires Silent(log)
    ensures forall j | 0 <= j < |Expand(m, c, comms, log)| :: ToldAt(m, c, comms, Expand(m, c, comms, log), j)
    ensures log != [] ==> Expand(m, c, comms, log) != [] && !Expand(m, c, comms, log)[|Expand(m, c, comms, log)| - 1].AddressMessage?
  {
    if log != [] {
      var init, e := log[..|log| - 1], log[|log| - 1];
      ExpandIsTold(m, c, comms, init);
      var before, trace := Expand(m, c, comms, init), Expand(m, c, comms, log);
      if e.Access? {
        MessageTells(m, c, comms, e);
      }
      forall j | 0 <= j < |trace| ensures ToldAt(m, c, comms, trace, j) {
        if j < |before| {
          assert ToldAt(m, c, comms, before, j);
        }
      }
    }
  }

  lemma ErasedOneMore(log: seq<Event>, e: Event)
    ensures Erased(log + [e]) == Erased(log) + if e.AddressMessage? then [] else [e]
  {
    assert (log + [e])[..|log|] == log;
  }

  lemma ErasedPair(log: seq<Event>, message: Event, e: Event)
    requires message.AddressMessage? && !e.AddressMessage?
    ensures Erased(log + [message, e]) == Erased(log) + [e]
  {
    ErasedOneMore(log, message);
    ErasedOneMore(log + [message], e);
    assert log + [message, e] == (log + [message]) + [e];
  }

  /** Without its messages the clone's trace is the original's. */
  lemma {:induction false} ErasingGivesOriginal(m: Machine, c: Context, comms: int, log: seq<Event>)
    requires Silent(log)
    ensures Erased(Expand(m, c, comms, log)) == log
  {
    if log != [] {
      var init, e := log[..|log| - 1], log[|log| - 1];
      ErasingGivesOriginal(m, c, comms, init);
      var before := Expand(m, c, comms, init);
      if e.Access? && Selected(c, e.instr) {
        ErasedPair(before, MessageOf(m, c, comms, e), e);
      } else {
        ErasedOneMore(before, e);
      }
      assert log == init + [e];
    }
  }

  /** Steps of clone and original, read off their traces. */
  lemma CloneTrace(m: Machine, c: Context, comms: int, n: nat, env: Env, mem: Memory)
    requires KeepsBases(m) && IsSource(c.kernel) && IsSsa(c.kernel)
    ensures var original := Run(m, c.kernel, n, Start(env, mem)).state;
            var clone := Run(m, InstrumentedKernel(c), n, Start(env[Comms := comms], mem)).state;
            && clone.mem == original.mem && Erased(clone.log) == original.log
            && (forall j | 0 <= j < |clone.log| :: Announced(m, c, comms, clone.log, j))
            && (forall j | 0 <= j < |clone.log| :: ToldAt(m, c, comms, clone.log, j))
  {
    CloneSimulates(m, c, comms, n, env, mem);
    SourceIsSilent(m, c.kernel, n, env, mem);
    var log := Run(m, c.kernel, n, Start(env, mem)).state.log;
    ErasingGivesOriginal(m, c, comms, log);
    EachAccessAnnounced(m, c, comms, log);
    ExpandIsTold(m, c, comms, log);
  }

  // -------------------------------------------------------------------------
  // Whether the address of a buffer access is exact
  // -------------------------------------------------------------------------

  /** A stride has 14 bits. */
  const STRIDES: nat := 0x4000

  /**
   * A buffer access with all its operands: offset and scalar offset of a raw one, and index, offset
   * and scalar offset of a struct one. What follows these is not part of the address.
   */
  predicate IsBufferAccess(e: Event) {
    && e.Access? && (e.instr.op.BufferLoad? || e.instr.op.BufferStore?)
    && |e.rest| >= (if e.instr.op.form.Raw? then 1 else 2)
    && 0 <= e.base && 0 <= e.offset < TWO_32 && forall k | 0 <= k < |e.rest| :: 0 <= e.rest[k] < TWO_32
  }

  /** The address that it goes to, in a buffer of structs of `stride` bytes that is not swizzled. */
  function BufferTarget(e: Event, stride: nat): int
    requires IsBufferAccess(e)
  {
    match e.instr.op.form
    case Raw => e.base + e.offset + e.rest[0]
    case Struct => e.base + stride * e.offset + e.rest[0] + e.rest[1]
  }

  /** What that address has beyond the base and the operand that the pass looks at. */
  function Unseen(e: Event, stride: nat): int
    requires IsBufferAccess(e)
  {
    match e.instr.op.form
    case Raw => e.rest[0]
    case Struct => (stride - 1) * e.offset + e.rest[0] + e.rest[1]
  }

  lemma StrideTimesIndex(stride: nat, index: nat)
    requires stride < STRIDES && index < TWO_32
    ensures stride * index == (stride - 1) * index + index
    ensures 0 <= stride * index <= STRIDES * TWO_32
  {
    calc {
      stride * index;
      <= STRIDES * index;
      <= STRIDES * TWO_32;
    }
  }

  lemma TargetIsSplit(e: Event, stride: nat)
    requires IsBufferAccess(e) && stride < STRIDES
    ensures BufferTarget(e, stride) == e.base + e.offset + Unseen(e, stride)
    ensures 0 <= e.offset + Unseen(e, stride) && Unseen(e, stride) < TWO_64 - TWO_32
  {
    StrideTimesIndex(stride, e.offset);
  }

  lemma TracedIsExact(base: nat, first: nat, unseen: int)
    requires first < TWO_32 && 0 <= first + unseen && unseen < TWO_64 - TWO_32 && base + first + unseen < TWO_64
    ensures (base + SignExtended(first)) % TWO_64 == base + first + unseen <==> first < TWO_31 && unseen == 0
  {
    if first < TWO_31 {
      assert SignExtended(first) == first;
    } else {
      assert SignExtended(first) == first + TWO_64 - TWO_32;
    }
  }

  lemma UntracedIsExact(base: nat, first: nat, unseen: int)
    requires first < TWO_32
    ensures SignExtended(first) % TWO_64 == base + first + unseen <==>
            base + unseen == if first < TWO_31 then 0 else TWO_64 - TWO_32
  {
    if first < TWO_31 {
      assert SignExtended(first) == first;
    } else {
      assert SignExtended(first) == first + TWO_64 - TWO_32;
    }
  }

  lemma MessageCarries(m: Machine, c: Context, comms: int, e: Event)
    requires IsBufferAccess(e)
    ensures MessageOf(m, c, comms, e).AddressMessage?
    ensures MessageOf(m, c, comms, e).addr == BufferAddress(c.kernel, e.instr.op.desc, e.base, e.offset)
  {
  }

  /**
   * With a traced descriptor the message carries the accessed address exactly when the operand
   * that the pass looks at is not negative as a signed number and the others add nothing to it;
   * otherwise, when base and other operands add up to what the sign extension adds.
   */
  lemma BufferAddressIsExact(m: Machine, c: Context, comms: int, e: Event, stride: nat)
    requires IsBufferAccess(e) && stride < STRIDES && BufferTarget(e, stride) < TWO_64
    ensures MessageOf(m, c, comms, e).addr == BufferTarget(e, stride) <==>
            if Traced(c.kernel, e.instr.op.desc).Some? then e.offset < TWO_31 && Unseen(e, stride) == 0
            else e.base + Unseen(e, stride) == if e.offset < TWO_31 then 0 else TWO_64 - TWO_32
  {
    TargetIsSplit(e, stride);
    MessageCarries(m, c, comms, e);
    if Traced(c.kernel, e.instr.op.desc).Some? {
      TracedIsExact(e.base, e.offset, Unseen(e, stride));
    } else {
      UntracedIsExact(e.base, e.offset, Unseen(e, stride));
    }
  }

  lemma NothingAdded(stride: nat, index: nat, a: nat, b: nat)
    ensures (stride - 1) * index + a + b == 0 <==>
            if stride == 0 then a + b == index else a == 0 && b == 0 && (stride == 1 || index == 0)
  {
    if stride > 1 && index > 0 {
      assert (stride - 1) * index > 0;
    }
  }

  /** When the operands of a struct access add nothing to its index. */
  lemma StructAddsNothing(e: Event, stride: nat)
    requires IsBufferAccess(e) && e.instr.op.form.Struct?
    ensures Unseen(e, stride) == 0 <==>
            if stride == 0 then e.rest[0] + e.rest[1] == e.offset
            else e.rest[0] == 0 && e.rest[1] == 0 && (stride == 1 || e.offset == 0)
  {
    NothingAdded(stride, e.offset, e.rest[0], e.rest[1]);
  }

  /** Makes a descriptor from its argument and reads with 4 and then 16 behind the descriptor. */
  function ReadsAway(form: Form): Instr {
    Instr(BufferLoad(Var(2), form, Use(Var(1)), Const(4), [Const(16), Const(0), Const(0)], 4), None)
  }

  function AwayKernel(form: Form): Kernel {
    Kernel("away", [Var(0)],
      [Block([Instr(MakeRsrc(Var(1), Use(Var(0)), [Const(0), Const(0), Const(0)]), None), ReadsAway(form)], Return, None)])
  }

  function AwayAccess(form: Form, base: int): Event {
    Access(ReadsAway(form), base, 4, [16, 0, 0])
  }

  lemma AwayIsSource(form: Form)
    ensures IsSource(AwayKernel(form))
  {
  }

  lemma AwayIsSsa(form: Form)
    ensures IsSsa(AwayKernel(form))
  {
    var k := AwayKernel(form);
    forall r, b, i | SetsAt(k, b, i, r) ensures b == 0 && ((i == 0 && r == Var(1)) || (i == 1 && r == Var(2))) {
    }
  }

  lemma AwayIsTraced(form: Form)
    ensures Traced(AwayKernel(form), Use(Var(1))) == Some(Use(Var(0)))
  {
  }

  lemma AwayRuns(m: Machine, form: Form, env: Env, mem: Memory)
    requires KeepsBases(m)
    ensures Run(m, AwayKernel(form), 1, Start(env, mem)).state.log ==
            [Enter(0), AwayAccess(form, Value(Use(Var(0)), env))]
  {
    var code, s := AwayKernel(form).blocks[0].code, Entered(0, State(env, mem, []));
    var desc := m.rsrc(Value(Use(Var(0)), env), Values([Const(0), Const(0), Const(0)], env));
    var t := Step(m, code[0], 0, env, s);
    assert t == s.(env := env[Var(1) := desc]);
    RunPair(m, code[0], code[1], 0, env, s);
    assert code == [code[0], code[1]];
    assert Values([Const(16), Const(0), Const(0)], t.env) == [16, 0, 0];
    assert Step(m, code[1], 0, env, t).log == t.log + [AwayAccess(form, Value(Use(Var(0)), env))];
    assert Run(m, AwayKernel(form), 0, Start(env, mem)) == Start(env, mem);
  }

  lemma AwayMessage(m: Machine, form: Form, hash: string -> nat, comms: int, base: int)
    requires 0 <= base < TWO_64 - 4
    ensures Reported(m, Context(AwayKernel(form), [], hash), comms, AwayAccess(form, base)) ==
            [AddressMessage(comms, base + 4, SiteOf(hash, None), READ, GLOBAL_SPACE, 4), AwayAccess(form, base)]
  {
    AwayIsTraced(form);
  }

  lemma AwayIsReported(m: Machine, form: Form, hash: string -> nat, comms: int, base: int)
    requires 0 <= base < TWO_64 - 4
    ensures Expand(m, Context(AwayKernel(form), [], hash), comms, [Enter(0), AwayAccess(form, base)]) ==
            [Enter(0), AddressMessage(comms, base + 4, SiteOf(hash, None), READ, GLOBAL_SPACE, 4), AwayAccess(form, base)]
  {
    var c, e := Context(AwayKernel(form), [], hash), AwayAccess(form, base);
    AwayMessage(m, form, hash, comms, base);
    ExpandOneMore(m, c, comms, [], Enter(0));
    assert [] + [Enter(0)] == [Enter(0)];
    ExpandOneMore(m, c, comms, [Enter(0)], e);
    assert [Enter(0)] + [e] == [Enter(0), e];
  }

  lemma AwayTarget(form: Form, base: nat, stride: nat)
    ensures var e := AwayAccess(form, base);
            IsBufferAccess(e) && BufferTarget(e, stride) == base + (if form.Raw? then 20 else 4 * stride + 16) != base + 4
  {
  }

  /** On every machine, with every base: this access goes elsewhere than the clone reports. */
  lemma AddressIsMissed(m: Machine, form: Form, hash: string -> nat, comms: int, env: Env, mem: Memory, stride: nat)
    requires KeepsBases(m) && 0 <= Value(Use(Var(0)), env) < TWO_64 - 4
    ensures var c, base := Context(AwayKernel(form), [], hash), Value(Use(Var(0)), env);
            var e := AwayAccess(form, base);
            && Run(m, InstrumentedKernel(c), 1, Start(env[Comms := comms], mem)).state.log ==
                 [Enter(0), AddressMessage(comms, base + 4, SiteOf(hash, None), READ, GLOBAL_SPACE, 4), e]
            && IsBufferAccess(e) && BufferTarget(e, stride) != base + 4
  {
    AwayIsSource(form);
    AwayIsSsa(form);
    AwayRuns(m, form, env, mem);
    CloneSimulates(m, Context(AwayKernel(form), [], hash), comms, 1, env, mem);
    AwayIsReported(m, form, hash, comms, Value(Use(Var(0)), env));
    AwayTarget(form, Value(Use(Var(0)), env), stride);
  }
}
