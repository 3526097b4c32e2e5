// Modules of functions, and the clones that the instrumentation passes work on
// (src/instrumentation/InstrumentationCommon.cpp).
module Kernels {
  import opened Ir
  import opened KernelNames

  class Function {
    const name: string
    const isIntrinsic: bool
    const isKernel: bool
    const params: seq<Reg>
    var blocks: seq<Block>

    constructor (name: string, isIntrinsic: bool, isKernel: bool, params: seq<Reg>, blocks: seq<Block>)
      ensures this.name == name && this.isIntrinsic == isIntrinsic && this.isKernel == isKernel
      ensures this.params == params && this.blocks == blocks
    {
      this.name, this.isIntrinsic, this.isKernel := name, isIntrinsic, isKernel;
      this.params, this.blocks := params, blocks;
    }

    ghost function Body(): Kernel
      reads this
    {
      Kernel(name, params, blocks)
    }
  }

  class CodeModule {
    var functions: seq<Function>

    constructor ()
      ensures functions == []
    {
      functions := [];
    }
  }

  /** The kernels among the functions, in order. */
  function GpuKernels(functions: seq<Function>): seq<Function> {
    if functions == [] then []
    else
      var last := functions[|functions| - 1];
      GpuKernels(functions[..|functions| - 1]) + if !last.isIntrinsic && last.isKernel then [last] else []
  }

  /** They are the functions that are kernels and no intrinsics, all of them, each where it stood among the others. */
  lemma {:induction false} GpuKernelsMeaning(functions: seq<Function>) returns (at: seq<nat>)
    ensures |at| == |GpuKernels(functions)|
    ensures forall k | 0 <= k < |at| :: at[k] < |functions| && GpuKernels(functions)[k] == functions[at[k]]
    ensures forall j, k | 0 <= j < k < |at| :: at[j] < at[k]
    ensures forall i: nat :: i in at <==> i < |functions| && functions[i].isKernel && !functions[i].isIntrinsic
  {
    at := [];
    if functions != [] {
      var n := |functions| - 1;
      at := GpuKernelsMeaning(functions[..n]);
      if functions[n].isKernel && !functions[n].isIntrinsic {
        at := at + [n];
      }
    }
  }

  method CollectGpuKernels(m: CodeModule) returns (kernels: seq<Function>)
    ensures kernels == GpuKernels(m.functions)
  {
    kernels := [];
    for i := 0 to |m.functions|
      invariant kernels == GpuKernels(m.functions[..i])
    {
      assert m.functions[..i + 1][..i] == m.functions[..i];
      if m.functions[i].isIntrinsic {
        continue;
      }
      if m.functions[i].isKernel {
        kernels := kernels + [m.functions[i]];
      }
    }
    assert m.functions[..|m.functions|] == m.functions;
  }

  /** The clone before anything is injected: one more argument, and the name that dispatches look for. */
  function Clone(k: Kernel): Kernel {
    Kernel(CloneName(k.name), k.params + [Comms], k.blocks)
  }

  method CloneKernelWithExtraArg(original: Function, m: CodeModule) returns (clone: Function)
    modifies m
    ensures fresh(clone) && clone.isKernel == original.isKernel && clone.isIntrinsic == original.isIntrinsic
    ensures clone.Body() == Clone(original.Body())
    ensures clone.name == "__amd_crk_" + original.name + "Pv"
    ensures clone.params == original.params + [Comms] && clone.blocks == original.blocks
    ensures m.functions == old(m.functions) + [clone]
  {
    clone := new Function(CloneName(original.name), original.isIntrinsic, original.isKernel,
                          original.params + [Comms], original.blocks);
    m.functions := m.functions + [clone];
  }

  ghost function Bodies(functions: seq<Function>): (bodies: seq<Kernel>)
    reads functions
    ensures |bodies| == |functions|
  {
    seq(|functions|, i requires 0 <= i < |functions| reads functions => functions[i].Body())
  }

  /** Functions of a module after a pass: those from before, and for each kernel the clone made of it. */
  ghost predicate ClonesAppended(now: seq<Function>, before: seq<Function>, made: seq<Kernel>)
    reads now
  {
    && |now| == |before| + |made| && now[..|before|] == before
    && forall i | 0 <= i < |made| :: now[|before| + i].Body() == made[i]
  }

  lemma AppendClone(now: seq<Function>, before: seq<Function>, made: seq<Kernel>, clone: Function)
    requires ClonesAppended(now, before, made)
    ensures ClonesAppended(now + [clone], before, made + [clone.Body()])
  {
    assert (now + [clone])[..|before|] == now[..|before|];
  }
}
