// The pass that reports memory accesses (src/instrumentation/AMDGCNSubmitAddressMessages.cpp):
// what it adds to a clone, and that the clone still does what the original does.
module AddressPass {
  import opened Wrappers
  import opened Ir
  import opened Kernels
  import Scope

  const READ: nat := 1
  const WRITE: nat := 2

  // -------------------------------------------------------------------------
  // What is added
  // -------------------------------------------------------------------------

  /** The kernel that is instrumented, the scope, and the hash of file names. */
  datatype Context = Context(kernel: Kernel, entries: seq<Scope.Entry>, hash: string -> nat)

  predicate IsAccess(op: Op) {
    op.Load? || op.Store? || op.BufferLoad? || op.BufferStore?
  }

  predicate InScope(entries: seq<Scope.Entry>, loc: Option<Loc>) {
    entries == [] || (loc.Some? && Scope.InScope(entries, loc.value.file, loc.value.line))
  }

  predicate Selected(c: Context, i: Instr) {
    InScope(c.entries, i.loc) && IsAccess(i.op)
  }

  function CodeRsrc(code: seq<Instr>, r: Reg): Option<Operand> {
    if code == [] then None
    else if code[0].op.MakeRsrc? && code[0].op.dst == r then Some(code[0].op.base)
    else CodeRsrc(code[1..], r)
  }

  function BlocksRsrc(blocks: seq<Block>, r: Reg): Option<Operand> {
    if blocks == [] then None
    else if CodeRsrc(blocks[0].code, r).Some? then CodeRsrc(blocks[0].code, r)
    else BlocksRsrc(blocks[1..], r)
  }

  /** The base of a descriptor whose definition is a call of make.buffer.rsrc. */
  function Traced(k: Kernel, desc: Operand): Option<Operand> {
    if desc.Use? then BlocksRsrc(k.blocks, desc.reg) else None
  }

  function BaseOrNull(k: Kernel, desc: Operand): Operand {
    if Traced(k, desc).Some? then Traced(k, desc).value else Const(0)
  }

  function Submit(c: Context, i: Instr, addr: Operand, kind: nat, addrSpace: nat, size: nat): Instr {
    Instr(SubmitAddress(Use(Comms), addr, SiteOf(c.hash, i.loc), kind, addrSpace % 256, size % 0x1_0000), i.loc)
  }

  function PointerCode(c: Context, i: Instr, n: nat, ptr: Operand, space: nat, stripped: nat, size: nat, kind: nat)
    : seq<Instr>
  {
    if space == FLAT_SPACE then [Submit(c, i, ptr, kind, stripped, size)]
    else
      [Instr(PointerCast(Temp(n, 0), ptr, space), i.loc), Submit(c, i, Use(Temp(n, 0)), kind, stripped, size)]
  }

  function BufferCode(c: Context, i: Instr, n: nat, desc: Operand, offset: Operand, size: nat, kind: nat): seq<Instr> {
    [Instr(PtrToInt(Temp(n, 0), BaseOrNull(c.kernel, desc)), i.loc),
     Instr(SExt(Temp(n, 1), offset), i.loc),
     Instr(Add(Temp(n, 2), Use(Temp(n, 0)), Use(Temp(n, 1))), i.loc),
     Instr(IntToPtr(Temp(n, 3), Use(Temp(n, 2))), i.loc),
     Submit(c, i, Use(Temp(n, 3)), kind, GLOBAL_SPACE, size)]
  }

  /** What stands before instruction i in the clone; n counts the accesses instrumented so far. */
  function Added(c: Context, i: Instr, n: nat): seq<Instr> {
    if !InScope(c.entries, i.loc) then [] else
      match i.op
      case Load(_, ptr, space, stripped, size) => PointerCode(c, i, n, ptr, space, stripped, size, READ)
      case Store(_, ptr, space, stripped, size) => PointerCode(c, i, n, ptr, space, stripped, size, WRITE)
      case BufferLoad(_, _, desc, offset, _, size) => BufferCode(c, i, n, desc, offset, size, READ)
      case BufferStore(_, _, desc, offset, _, size) => BufferCode(c, i, n, desc, offset, size, WRITE)
      case _ => []
  }

  function Sites(c: Context, code: seq<Instr>): nat {
    if code == [] then 0 else (if Selected(c, code[0]) then 1 else 0) + Sites(c, code[1..])
  }

  function Instrumented(c: Context, code: seq<Instr>, n: nat): seq<Instr> {
    if code == [] then []
    else Added(c, code[0], n) + [code[0]] + Instrumented(c, code[1..], if Selected(c, code[0]) then n + 1 else n)
  }

  /** How many accesses are instrumented before block b. */
  function SitesBefore(c: Context, b: nat): nat
    requires b <= |c.kernel.blocks|
  {
    if b == 0 then 0 else SitesBefore(c, b - 1) + Sites(c, c.kernel.blocks[b - 1].code)
  }

  function InstrumentedBlock(c: Context, b: nat): Block
    requires b < |c.kernel.blocks|
  {
    c.kernel.blocks[b].(code := Instrumented(c, c.kernel.blocks[b].code, SitesBefore(c, b)))
  }

  function InstrumentedKernel(c: Context): Kernel {
    Clone(c.kernel).(blocks :=
      seq(|c.kernel.blocks|, b requires 0 <= b < |c.kernel.blocks| => InstrumentedBlock(c, b)))
  }

  // -------------------------------------------------------------------------
  // The pass
  // -------------------------------------------------------------------------

  /** The code that is inserted before position i; the caller has found an access there. */
  method Inject(c: Context, code: seq<Instr>, i: nat, n: nat) returns (after: seq<Instr>, next: nat)
    requires i < |code| && Selected(c, code[i])
    ensures after == code[..i] + Added(c, code[i], n) + code[i..] && next == i + |Added(c, code[i], n)|
  {
    var added;
    match code[i].op {
      case Load(_, ptr, space, stripped, size) =>
        added := PointerCode(c, code[i], n, ptr, space, stripped, size, READ);
      case Store(_, ptr, space, stripped, size) =>
        added := PointerCode(c, code[i], n, ptr, space, stripped, size, WRITE);
      case BufferLoad(_, _, desc, offset, _, size) =>
        added := BufferCode(c, code[i], n, desc, offset, size, READ);
      case BufferStore(_, _, desc, offset, _, size) =>
        added := BufferCode(c, code[i], n, desc, offset, size, WRITE);
    }
    after, next := code[..i] + added + code[i..], i + |added|;
  }

  lemma NothingToAdd(c: Context, i: Instr, n: nat)
    requires !Selected(c, i)
    ensures Added(c, i, n) == []
  {
  }

  /** Before position i the code is finished; the rest is still to be instrumented, from site n on. */
  ghost predicate Progress(c: Context, result: seq<Instr>, total: nat, code: seq<Instr>, i: nat, n: nat) {
    && i <= |code|
    && result == code[..i] + Instrumented(c, code[i..], n)
    && total == n + Sites(c, code[i..])
  }

  lemma AtInstruction(c: Context, code: seq<Instr>, i: nat, n: nat)
    requires i < |code|
    ensures Instrumented(c, code[i..], n) ==
            (Added(c, code[i], n) + [code[i]]) + Instrumented(c, code[i + 1..], if Selected(c, code[i]) then n + 1 else n)
    ensures Sites(c, code[i..]) == (if Selected(c, code[i]) then 1 else 0) + Sites(c, code[i + 1..])
  {
    assert code[i..][0] == code[i] && code[i..][1..] == code[i + 1..];
  }

  lemma Regroup(a: seq<Instr>, b: seq<Instr>, rest: seq<Instr>)
    ensures a + (b + rest) == (a + b) + rest
  {
  }

  lemma SkipStep(c: Context, result: seq<Instr>, total: nat, code: seq<Instr>, i: nat, n: nat)
    requires Progress(c, result, total, code, i, n) && i < |code| && !Selected(c, code[i])
    ensures Progress(c, result, total, code, i + 1, n)
  {
    AtInstruction(c, code, i, n);
    NothingToAdd(c, code[i], n);
    Regroup(code[..i], [code[i]], Instrumented(c, code[i + 1..], n));
    assert [] + [code[i]] == [code[i]] && code[..i + 1] == code[..i] + [code[i]];
  }

  lemma InsertedAt(code: seq<Instr>, i: nat, added: seq<Instr>, after: seq<Instr>)
    requires i < |code| && after == code[..i] + added + code[i..]
    ensures var next := i + |added| + 1;
            && next <= |after| && after[next..] == code[i + 1..] && after[..next] == code[..i] + (added + [code[i]])
  {
  }

  lemma InjectStep(c: Context, result: seq<Instr>, total: nat, code: seq<Instr>, i: nat, n: nat,
                   added: seq<Instr>, after: seq<Instr>)
    requires Progress(c, result, total, code, i, n) && i < |code| && Selected(c, code[i])
    requires added == Added(c, code[i], n) && after == code[..i] + added + code[i..]
    ensures Progress(c, result, total, after, i + |added| + 1, n + 1)
  {
    AtInstruction(c, code, i, n);
    InsertedAt(code, i, added, after);
    Regroup(code[..i], added + [code[i]], Instrumented(c, code[i + 1..], n + 1));
  }

  method Covered(scope: Scope.InstrumentationScope, loc: Option<Loc>) returns (covered: bool)
    requires scope.Valid()
    ensures covered == InScope(scope.entries, loc)
  {
    if scope.active {
      if loc.None? {
        return false;
      }
      covered := scope.Matches(loc.value.file, loc.value.line);
    } else {
      covered := true;
    }
  }

  /** One round of the loop: past the instruction at i, and past what is inserted before it. */
  method InstrumentAt(scope: Scope.InstrumentationScope, c: Context, code: seq<Instr>, i: nat, n: nat,
                      ghost result: seq<Instr>, ghost total: nat) returns (after: seq<Instr>, next: nat, sites: nat)
    requires scope.Valid() && c.entries == scope.entries
    requires i < |code| && Progress(c, result, total, code, i, n)
    ensures Progress(c, result, total, after, next, sites) && |after| - next < |code| - i
  {
    var covered := Covered(scope, code[i].loc);
    if covered && IsAccess(code[i].op) {
      after, next := Inject(c, code, i, n);
      InjectStep(c, result, total, code, i, n, Added(c, code[i], n), after);
      next, sites := next + 1, n + 1;
    } else {
      SkipStep(c, result, total, code, i, n);
      after, next, sites := code, i + 1, n;
    }
  }

  /** The loop over one block of the clone. */
  method InstrumentCode(scope: Scope.InstrumentationScope, c: Context, original: seq<Instr>, first: nat)
      returns (code: seq<Instr>, n: nat)
    requires scope.Valid() && c.entries == scope.entries
    ensures code == Instrumented(c, original, first) && n == first + Sites(c, original)
  {
    code, n := original, first;
    var i: nat := 0;
    ghost var result, total := Instrumented(c, original, first), first + Sites(c, original);
    assert code[..0] == [] && code[0..] == code;
    while i < |code|
      invariant i <= |code| && Progress(c, result, total, code, i, n)
      decreases |code| - i
    {
      code, i, n := InstrumentAt(scope, c, code, i, n, result, total);
    }
    assert code[..i] == code && code[i..] == [];
  }

  method InstrumentClone(clone: Function, scope: Scope.InstrumentationScope, c: Context) returns (n: nat)
    requires scope.Valid() && c.entries == scope.entries
    requires clone.Body() == Clone(c.kernel)
    modifies clone
    ensures clone.Body() == InstrumentedKernel(c)
    ensures n == SitesBefore(c, |c.kernel.blocks|)
  {
    n := 0;
    ghost var result := InstrumentedKernel(c).blocks;
    for b := 0 to |clone.blocks|
      invariant |clone.blocks| == |result|
      invariant n == SitesBefore(c, b)
      invariant forall k | 0 <= k < b :: clone.blocks[k] == result[k]
      invariant forall k | b <= k < |result| :: clone.blocks[k] == c.kernel.blocks[k]
    {
      var code;
      code, n := InstrumentCode(scope, c, clone.blocks[b].code, n);
      clone.blocks := clone.blocks[b := clone.blocks[b].(code := code)];
      assert clone.blocks[b] == result[b];
    }
    assert clone.blocks == result;
  }

  /** Clones that a run of the pass makes of these kernels. */
  function Made(kernels: seq<Kernel>, entries: seq<Scope.Entry>, hash: string -> nat): (made: seq<Kernel>)
    ensures |made| == |kernels|
  {
    seq(|kernels|, i requires 0 <= i < |kernels| => InstrumentedKernel(Context(kernels[i], entries, hash)))
  }

  /** The pass finds something to instrument in the kernel. */
  ghost predicate HasSites(kernel: Kernel, entries: seq<Scope.Entry>, hash: string -> nat) {
    SitesBefore(Context(kernel, entries, hash), |kernel.blocks|) > 0
  }

  ghost predicate SomeSites(kernels: seq<Kernel>, entries: seq<Scope.Entry>, hash: string -> nat) {
    exists i :: 0 <= i < |kernels| && HasSites(kernels[i], entries, hash)
  }

  lemma SomeSitesOneMore(kernels: seq<Kernel>, kernel: Kernel, entries: seq<Scope.Entry>, hash: string -> nat)
    ensures SomeSites(kernels + [kernel], entries, hash) <==>
            SomeSites(kernels, entries, hash) || HasSites(kernel, entries, hash)
  {
    var all := kernels + [kernel];
    if HasSites(kernel, entries, hash) {
      assert HasSites(all[|kernels|], entries, hash);
    } else if i :| 0 <= i < |kernels| && HasSites(kernels[i], entries, hash) {
      assert HasSites(all[i], entries, hash);
    }
  }

  method InstrumentKernel(m: CodeModule, original: Function, scope: Scope.InstrumentationScope, hash: string -> nat)
      returns (clone: Function, n: nat)
    requires scope.Valid()
    modifies m
    ensures fresh(clone) && m.functions == old(m.functions) + [clone]
    ensures clone.Body() == InstrumentedKernel(Context(original.Body(), scope.entries, hash))
    ensures n == SitesBefore(Context(original.Body(), scope.entries, hash), |original.blocks|)
  {
    clone := CloneKernelWithExtraArg(original, m);
    var kernel := Kernel(original.name, original.params, original.blocks);
    n := InstrumentClone(clone, scope, Context(kernel, scope.entries, hash));
  }

  /** `isTarget` and `linked` say whether the module is one for the GPU and took the device library. */
  method RunOnModule(m: CodeModule, isTarget: bool, linked: bool, scope: Scope.InstrumentationScope, hash: string -> nat)
      returns (modified: bool)
    requires scope.Valid()
    modifies m
    ensures !isTarget || !linked ==> !modified && m.functions == old(m.functions)
    ensures isTarget && linked ==>
              ClonesAppended(m.functions, old(m.functions),
                             Made(old(Bodies(GpuKernels(m.functions))), scope.entries, hash))
    ensures isTarget && linked ==>
              modified == SomeSites(old(Bodies(GpuKernels(m.functions))), scope.entries, hash)
  {
    modified := false;
    if !isTarget || !linked {
      return;
    }
    var kernels := CollectGpuKernels(m);
    ghost var functions, made := m.functions, Made(Bodies(kernels), scope.entries, hash);
    for i := 0 to |kernels|
      invariant ClonesAppended(m.functions, functions, made[..i])
      invariant Bodies(kernels) == old(Bodies(kernels))
      invariant modified == SomeSites(Bodies(kernels)[..i], scope.entries, hash)
    {
      ghost var before := m.functions;
      var clone, n := InstrumentKernel(m, kernels[i], scope, hash);
      AppendClone(before, functions, made[..i], clone);
      assert made[..i + 1] == made[..i] + [made[i]];
      assert Bodies(kernels)[..i + 1] == Bodies(kernels)[..i] + [kernels[i].Body()];
      SomeSitesOneMore(Bodies(kernels)[..i], kernels[i].Body(), scope.entries, hash);
      modified := modified || n > 0;
    }
    assert made[..|kernels|] == made && Bodies(kernels)[..|kernels|] == Bodies(kernels);
  }
}
