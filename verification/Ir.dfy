// Kernels as the instrumentation passes see them: control-flow graphs of instructions in
// static single assignment form, and what running one does. Instructions that the passes
// treat alike are `Other`, with whatever effect the machine gives them.
module Ir {
  import opened Text
  import opened Wrappers
  import opened Words

  const FLAT_SPACE: nat := 0
  const GLOBAL_SPACE: nat := 1

  /** A debug location; `file` is the full path. */
  datatype Loc = Loc(file: string, line: nat, column: nat)

  /** A value of the source kernel, the argument that clones add, or a value that a pass adds. */
  datatype Reg = Var(id: nat) | Comms | Temp(site: nat, part: nat)

  datatype Operand = Const(value: int) | Use(reg: Reg)

  /** llvm.amdgcn.raw.ptr.buffer and llvm.amdgcn.struct.ptr.buffer. */
  datatype Form = Raw | Struct

  datatype Op =
    | Phi(dst: Reg, incoming: map<nat, Operand>)
    | Load(dst: Reg, ptr: Operand, space: nat, strippedSpace: nat, size: nat)
    | Store(data: Operand, ptr: Operand, space: nat, strippedSpace: nat, size: nat)
    | MakeRsrc(dst: Reg, base: Operand, rest: seq<Operand>)
    // Of a buffer access the pass looks at the descriptor and the operand after it, not at `rest`.
    // That operand is the byte offset of a raw access, and the index of a struct access.
    | BufferLoad(dst: Reg, form: Form, desc: Operand, offset: Operand, rest: seq<Operand>, size: nat)
    | BufferStore(data: Operand, form: Form, desc: Operand, offset: Operand, rest: seq<Operand>, size: nat)
    | Other(dst: Reg, name: string, args: seq<Operand>)
    // Only the passes write the following.
    | PointerCast(dst: Reg, ptr: Operand, space: nat)
    | PtrToInt(dst: Reg, ptr: Operand)
    | SExt(dst: Reg, arg: Operand)
    | Add(dst: Reg, left: Operand, right: Operand)
    | IntToPtr(dst: Reg, arg: Operand)
    | SubmitAddress(comms: Operand, addr: Operand, site: Site, kind: nat, addrSpace: nat, bytes: nat)
    | SubmitHeader(comms: Operand, site: Site, userType: nat, userData: nat)

  /** Where a message says it comes from: hash of the file, line and column. */
  datatype Site = Site(file: nat, line: nat, column: nat)

  /** The site names the file, by its hash, the line and the column of the location, if there is one. */
  ghost predicate IsSiteOf(site: Site, hash: string -> nat, loc: Option<Loc>) {
    match loc
    case Some(l) => site.file == hash(l.file) && site.line == l.line && site.column == l.column
    case None => site.file == hash("<unknown source file>") && site.line == 0 && site.column == 0
  }

  function SiteOf(hash: string -> nat, loc: Option<Loc>): Site {
    if loc.Some? then Site(hash(loc.value.file), loc.value.line, loc.value.column)
    else Site(hash(UNKNOWN_FILE), 0, 0)
  }

  lemma SiteNamesLoc(hash: string -> nat, loc: Option<Loc>)
    ensures IsSiteOf(SiteOf(hash, loc), hash, loc)
  {
  }

  datatype Instr = Instr(op: Op, loc: Option<Loc>)

  datatype Terminator = Jump(on: Operand, cases: map<int, nat>, default: nat) | Return

  /** PHIs come first in `code`; the terminator is kept apart from it. */
  datatype Block = Block(code: seq<Instr>, end: Terminator, endLoc: Option<Loc>)

  datatype Kernel = Kernel(name: string, params: seq<Reg>, blocks: seq<Block>)

  // -------------------------------------------------------------------------
  // Running
  // -------------------------------------------------------------------------

  type Memory = map<int, int>
  type Env = map<Reg, int>

  /**
   * How the hardware behaves: any effect of other instructions, any loads and stores, any
   * encoding of buffer descriptors, any way of seeing an address of some space as a flat one.
   */
  datatype Machine = Machine(
    other: (string, seq<int>, Memory) -> (int, Memory),
    load: (Memory, nat, int, nat) -> int,
    store: (Memory, nat, int, nat, int) -> Memory,
    bufferLoad: (Memory, int, seq<int>, nat) -> int,
    bufferStore: (Memory, int, seq<int>, nat, int) -> Memory,
    rsrc: (int, seq<int>) -> int,
    rsrcBase: int -> int,
    flat: (nat, int) -> int)

  /** A descriptor gives back the base that it was made from. */
  ghost predicate KeepsBases(m: Machine) {
    forall base, rest :: m.rsrcBase(m.rsrc(base, rest)) == base
  }

  /** What can be observed: blocks entered, memory accessed by an instruction, messages sent. */
  datatype Event =
    | Enter(block: nat)
    | Access(instr: Instr, base: int, offset: int, rest: seq<int>)
    | AddressMessage(comms: int, addr: int, site: Site, kind: nat, addrSpace: nat, bytes: nat)
    | HeaderMessage(comms: int, site: Site, userType: nat, userData: nat)

  datatype State = State(env: Env, mem: Memory, log: seq<Event>)

  datatype Config = At(block: nat, from: nat, state: State) | Done(state: State)

  function Value(o: Operand, env: Env): int {
    match o
    case Const(v) => v
    case Use(r) => if r in env then env[r] else 0
  }

  function Values(os: seq<Operand>, env: Env): (vs: seq<int>)
    ensures |vs| == |os|
  {
    seq(|os|, i requires 0 <= i < |os| => Value(os[i], env))
  }

  /** A 32-bit number as a signed one of 64 bits. */
  function SignExtended(v: int): nat {
    if v % TWO_32 < TWO_31 then v % TWO_32 else v % TWO_32 + (TWO_64 - TWO_32)
  }

  /** What an instruction does: the register it sets, the memory it leaves, what is observed. */
  datatype Effect = Effect(sets: Option<(Reg, int)>, mem: Memory, events: seq<Event>)

  /** PHIs read the registers as they were on entry to the block, all at once. */
  function EffectOf(m: Machine, i: Instr, from: nat, entry: Env, env: Env, mem: Memory): Effect {
    match i.op
    case Phi(dst, incoming) =>
      Effect(Some((dst, if from in incoming then Value(incoming[from], entry) else 0)), mem, [])
    case Load(dst, ptr, space, _, size) =>
      Effect(Some((dst, m.load(mem, space, Value(ptr, env), size))), mem, [Access(i, Value(ptr, env), 0, [])])
    case Store(data, ptr, space, _, size) =>
      Effect(None, m.store(mem, space, Value(ptr, env), size, Value(data, env)), [Access(i, Value(ptr, env), 0, [])])
    case MakeRsrc(dst, base, rest) =>
      Effect(Some((dst, m.rsrc(Value(base, env), Values(rest, env)))), mem, [])
    case BufferLoad(dst, _, desc, offset, rest, size) =>
      Effect(Some((dst, m.bufferLoad(mem, Value(desc, env), [Value(offset, env)] + Values(rest, env), size))), mem,
             [Access(i, m.rsrcBase(Value(desc, env)), Value(offset, env), Values(rest, env))])
    case BufferStore(data, _, desc, offset, rest, size) =>
      Effect(None, m.bufferStore(mem, Value(desc, env), [Value(offset, env)] + Values(rest, env), size, Value(data, env)),
             [Access(i, m.rsrcBase(Value(desc, env)), Value(offset, env), Values(rest, env))])
    case Other(dst, name, args) =>
      var (result, after) := m.other(name, Values(args, env), mem);
      Effect(Some((dst, result)), after, [])
    case PointerCast(dst, ptr, space) =>
      Effect(Some((dst, m.flat(space, Value(ptr, env)))), mem, [])
    case PtrToInt(dst, ptr) => Effect(Some((dst, Value(ptr, env))), mem, [])
    case SExt(dst, arg) => Effect(Some((dst, SignExtended(Value(arg, env)))), mem, [])
    case Add(dst, left, right) => Effect(Some((dst, (Value(left, env) + Value(right, env)) % TWO_64)), mem, [])
    case IntToPtr(dst, arg) => Effect(Some((dst, Value(arg, env))), mem, [])
    case SubmitAddress(comms, addr, site, kind, addrSpace, bytes) =>
      Effect(None, mem, [AddressMessage(Value(comms, env), Value(addr, env), site, kind, addrSpace, bytes)])
    case SubmitHeader(comms, site, userType, userData) =>
      Effect(None, mem, [HeaderMessage(Value(comms, env), site, userType, userData)])
  }

  function Apply(s: State, e: Effect): State {
    State(if e.sets.Some? then s.env[e.sets.value.0 := e.sets.value.1] else s.env, e.mem, s.log + e.events)
  }

  function Step(m: Machine, i: Instr, from: nat, entry: Env, s: State): State {
    Apply(s, EffectOf(m, i, from, entry, s.env, s.mem))
  }

  function RunCode(m: Machine, code: seq<Instr>, from: nat, entry: Env, s: State): State {
    if code == [] then s else RunCode(m, code[1..], from, entry, Step(m, code[0], from, entry, s))
  }

  function Target(end: Terminator, env: Env): nat
    requires end.Jump?
  {
    if Value(end.on, env) in end.cases then end.cases[Value(end.on, env)] else end.default
  }

  function Entered(b: nat, s: State): State {
    s.(log := s.log + [Enter(b)])
  }

  function Leave(end: Terminator, b: nat, s: State): Config {
    if end.Return? then Done(s) else At(Target(end, s.env), b, s)
  }

  function StepBlock(m: Machine, k: Kernel, c: Config): Config {
    if c.At? && c.block < |k.blocks| then
      Leave(k.blocks[c.block].end, c.block,
            RunCode(m, k.blocks[c.block].code, c.from, c.state.env, Entered(c.block, c.state)))
    else Done(c.state)
  }

  function Run(m: Machine, k: Kernel, n: nat, c: Config): Config {
    if n == 0 then c else StepBlock(m, k, Run(m, k, n - 1, c))
  }

  function Start(env: Env, mem: Memory): Config {
    At(0, 0, State(env, mem, []))
  }

  // -------------------------------------------------------------------------
  // Kernels before the passes
  // -------------------------------------------------------------------------

  predicate SourceOperand(o: Operand) {
    o.Use? ==> o.reg.Var?
  }

  predicate SourceOperands(os: seq<Operand>) {
    forall i | 0 <= i < |os| :: SourceOperand(os[i])
  }

  predicate SourceOp(op: Op) {
    match op
    case Phi(dst, incoming) => dst.Var? && forall p | p in incoming :: SourceOperand(incoming[p])
    case Load(dst, ptr, _, _, _) => dst.Var? && SourceOperand(ptr)
    case Store(data, ptr, _, _, _) => SourceOperand(data) && SourceOperand(ptr)
    case MakeRsrc(dst, base, rest) => dst.Var? && SourceOperand(base) && SourceOperands(rest)
    case BufferLoad(dst, _, desc, offset, rest, _) =>
      dst.Var? && SourceOperand(desc) && SourceOperand(offset) && SourceOperands(rest)
    case BufferStore(data, _, desc, offset, rest, _) =>
      SourceOperand(data) && SourceOperand(desc) && SourceOperand(offset) && SourceOperands(rest)
    case Other(dst, _, args) => dst.Var? && SourceOperands(args)
    case _ => false
  }

  predicate SourceCode(code: seq<Instr>) {
    forall i | 0 <= i < |code| :: SourceOp(code[i].op)
  }

  predicate IsSource(k: Kernel) {
    forall b | 0 <= b < |k.blocks| ::
      SourceCode(k.blocks[b].code) && (k.blocks[b].end.Jump? ==> SourceOperand(k.blocks[b].end.on))
  }

  // -------------------------------------------------------------------------
  // Source instructions do the same in both kernels
  // -------------------------------------------------------------------------

  /** The two agree on the values of the source kernel. */
  ghost predicate VarsAgree(a: Env, b: Env) {
    forall id: nat :: Value(Use(Var(id)), a) == Value(Use(Var(id)), b)
  }

  lemma OperandsAgree(os: seq<Operand>, a: Env, b: Env)
    requires VarsAgree(a, b) && SourceOperands(os)
    ensures Values(os, a) == Values(os, b)
  {
    forall i | 0 <= i < |os| ensures Values(os, a)[i] == Values(os, b)[i] {
      assert SourceOperand(os[i]);
    }
  }

  lemma OperandAgrees(o: Operand, a: Env, b: Env)
    requires VarsAgree(a, b) && SourceOperand(o)
    ensures Value(o, a) == Value(o, b)
  {
  }

  lemma SameEffect(m: Machine, i: Instr, from: nat, entryA: Env, entryB: Env, a: Env, b: Env, mem: Memory)
    requires SourceOp(i.op) && VarsAgree(entryA, entryB) && VarsAgree(a, b)
    ensures EffectOf(m, i, from, entryA, a, mem) == EffectOf(m, i, from, entryB, b, mem)
  {
    match i.op
    case Phi(_, incoming) =>
      if from in incoming {
        OperandAgrees(incoming[from], entryA, entryB);
      }
    case Load(_, ptr, _, _, _) => OperandAgrees(ptr, a, b);
    case Store(data, ptr, _, _, _) =>
      OperandAgrees(data, a, b);
      OperandAgrees(ptr, a, b);
    case MakeRsrc(_, base, rest) =>
      OperandAgrees(base, a, b);
      OperandsAgree(rest, a, b);
    case BufferLoad(_, _, desc, offset, rest, _) =>
      OperandAgrees(desc, a, b);
      OperandAgrees(offset, a, b);
      OperandsAgree(rest, a, b);
    case BufferStore(data, _, desc, offset, rest, _) =>
      OperandAgrees(data, a, b);
      OperandAgrees(desc, a, b);
      OperandAgrees(offset, a, b);
      OperandsAgree(rest, a, b);
    case Other(_, _, args) => OperandsAgree(args, a, b);
  }

  lemma SetsOnlyVars(m: Machine, i: Instr, from: nat, entry: Env, env: Env, mem: Memory)
    requires SourceOp(i.op)
    ensures var sets := EffectOf(m, i, from, entry, env, mem).sets; sets.Some? ==> sets.value.0.Var?
  {
  }

  lemma SameUpdate(a: Env, b: Env, r: Reg, v: int)
    requires VarsAgree(a, b) && r.Var?
    ensures VarsAgree(a[r := v], b[r := v])
  {
  }

  /** One source instruction keeps the agreement and is observed alike. */
  lemma SourceStepAgrees(m: Machine, i: Instr, from: nat, entryA: Env, entryB: Env, s: State, t: State)
    requires SourceOp(i.op) && VarsAgree(entryA, entryB) && VarsAgree(s.env, t.env) && s.mem == t.mem
    ensures var e := EffectOf(m, i, from, entryA, s.env, s.mem);
            && VarsAgree(Step(m, i, from, entryA, s).env, Step(m, i, from, entryB, t).env)
            && Step(m, i, from, entryA, s).mem == Step(m, i, from, entryB, t).mem
            && Step(m, i, from, entryA, s).log == s.log + e.events
            && Step(m, i, from, entryB, t).log == t.log + e.events
            && Value(Use(Comms), Step(m, i, from, entryB, t).env) == Value(Use(Comms), t.env)
  {
    SameEffect(m, i, from, entryA, entryB, s.env, t.env, s.mem);
    SetsOnlyVars(m, i, from, entryA, s.env, s.mem);
    var e := EffectOf(m, i, from, entryA, s.env, s.mem);
    if e.sets.Some? {
      SameUpdate(s.env, t.env, e.sets.value.0, e.sets.value.1);
    }
  }

  lemma {:induction false} RunConcat(m: Machine, a: seq<Instr>, b: seq<Instr>, from: nat, entry: Env, s: State)
    ensures RunCode(m, a + b, from, entry, s) == RunCode(m, b, from, entry, RunCode(m, a, from, entry, s))
  {
    if a == [] {
      assert a + b == b;
    } else {
      assert (a + b)[1..] == a[1..] + b;
      RunConcat(m, a[1..], b, from, entry, Step(m, a[0], from, entry, s));
    }
  }

  lemma RunOne(m: Machine, i: Instr, from: nat, entry: Env, s: State)
    ensures RunCode(m, [i], from, entry, s) == Step(m, i, from, entry, s)
  {
    assert [i][1..] == [];
  }
}
