// Static single assignment form, and what the passes draw from it: where a buffer access uses
// a descriptor made from some base, that base still has the value the descriptor was made from.
module Dominance {
  import opened Wrappers
  import opened Ir
  import opened AddressPass

  // -------------------------------------------------------------------------
  // Static single assignment form
  // -------------------------------------------------------------------------

  function Sets(op: Op): Option<Reg> {
    match op
    case Phi(dst, _) => Some(dst)
    case Load(dst, _, _, _, _) => Some(dst)
    case MakeRsrc(dst, _, _) => Some(dst)
    case BufferLoad(dst, _, _, _, _, _) => Some(dst)
    case Other(dst, _, _) => Some(dst)
    case _ => None
  }

  /** The instruction reads r where it stands; PHIs read at the ends of the blocks before. */
  predicate Reads(op: Op, r: Reg) {
    match op
    case Load(_, ptr, _, _, _) => ptr == Use(r)
    case Store(data, ptr, _, _, _) => data == Use(r) || ptr == Use(r)
    case MakeRsrc(_, base, rest) => base == Use(r) || Use(r) in rest
    case BufferLoad(_, _, desc, offset, rest, _) => desc == Use(r) || offset == Use(r) || Use(r) in rest
    case BufferStore(data, _, desc, offset, rest, _) =>
      data == Use(r) || desc == Use(r) || offset == Use(r) || Use(r) in rest
    case Other(_, _, args) => Use(r) in args
    case _ => false
  }

  predicate SetsAt(k: Kernel, b: nat, i: nat, r: Reg) {
    b < |k.blocks| && i < |k.blocks[b].code| && Sets(k.blocks[b].code[i].op) == Some(r)
  }

  predicate ReadsAt(k: Kernel, b: nat, i: nat, r: Reg) {
    b < |k.blocks| && i < |k.blocks[b].code| && Reads(k.blocks[b].code[i].op, r)
  }

  ghost predicate IsSuccessor(end: Terminator, b: nat) {
    end.Jump? && (b == end.default || exists v :: v in end.cases && end.cases[v] == b)
  }

  /** Blocks that can be run one after the other, from the entry on. */
  ghost predicate IsPath(k: Kernel, p: seq<nat>) {
    && p != [] && p[0] == 0
    && (forall i | 0 <= i < |p| :: p[i] < |k.blocks|)
    && (forall i | 0 < i < |p| :: IsSuccessor(k.blocks[p[i - 1]].end, p[i]))
  }

  /** Every way to block u leads through block b. */
  ghost predicate Dominates(k: Kernel, b: nat, u: nat) {
    forall p | IsPath(k, p) && p[|p| - 1] == u :: b in p
  }

  /** The instruction at i in block b comes before that at j in block u on every way there. */
  ghost predicate Before(k: Kernel, b: nat, i: nat, u: nat, j: nat) {
    if b == u then i < j else Dominates(k, b, u)
  }

  /** Each value is set by one instruction, which comes before every instruction that reads it. */
  ghost predicate IsSsa(k: Kernel) {
    && (forall r, b, i, c, j | SetsAt(k, b, i, r) && SetsAt(k, c, j, r) :: b == c && i == j)
    && (forall r, b, i, u, j | SetsAt(k, b, i, r) && ReadsAt(k, u, j, r) :: Before(k, b, i, u, j))
  }

  // -------------------------------------------------------------------------
  // Descriptors that match their bases
  // -------------------------------------------------------------------------

  /** Setting dst makes r, or the base that r is made from, another value. */
  predicate Touches(k: Kernel, dst: Reg, r: Reg) {
    r == dst || Traced(k, Use(r)) == Some(Use(dst))
  }

  function Current(k: Kernel, i: Instr, regs: set<Reg>): set<Reg> {
    var left := if Sets(i.op).Some? then set r | r in regs && !Touches(k, Sets(i.op).value, r) else regs;
    if i.op.MakeRsrc? && Traced(k, Use(i.op.dst)) == Some(i.op.base) && i.op.base != Use(i.op.dst)
    then left + {i.op.dst} else left
  }

  function CurrentAfter(k: Kernel, code: seq<Instr>, regs: set<Reg>): set<Reg> {
    if code == [] then regs else CurrentAfter(k, code[1..], Current(k, code[0], regs))
  }

  /** The descriptors that match their bases after running these blocks. */
  function CurrentOn(k: Kernel, p: seq<nat>): set<Reg>
    requires forall i | 0 <= i < |p| :: p[i] < |k.blocks|
  {
    if p == [] then {} else CurrentAfter(k, k.blocks[p[|p| - 1]].code, CurrentOn(k, p[..|p| - 1]))
  }

  /** A buffer access uses a descriptor that matches its base, if the base can be traced. */
  predicate UsesCurrent(k: Kernel, i: Instr, regs: set<Reg>) {
    i.op.BufferLoad? || i.op.BufferStore? ==> (Traced(k, i.op.desc).Some? ==> i.op.desc.reg in regs)
  }

  predicate CodeUsesCurrent(k: Kernel, code: seq<Instr>, regs: set<Reg>) {
    code == [] || (UsesCurrent(k, code[0], regs) && CodeUsesCurrent(k, code[1..], Current(k, code[0], regs)))
  }

  predicate Quiet(k: Kernel, code: seq<Instr>, r: Reg) {
    forall i | 0 <= i < |code| :: Sets(code[i].op).Some? ==> !Touches(k, Sets(code[i].op).value, r)
  }

  lemma {:induction false} StaysCurrent(k: Kernel, code: seq<Instr>, regs: set<Reg>, r: Reg)
    requires r in regs && Quiet(k, code, r)
    ensures r in CurrentAfter(k, code, regs)
    decreases |code|
  {
    if code != [] {
      StaysCurrent(k, code[1..], Current(k, code[0], regs), r);
    }
  }

  /** The instruction makes r from its traced base. */
  predicate Makes(k: Kernel, i: Instr, r: Reg) {
    i.op.MakeRsrc? && i.op.dst == r && Traced(k, Use(r)) == Some(i.op.base) && i.op.base != Use(r)
  }

  lemma {:induction false} BecomesCurrent(k: Kernel, code: seq<Instr>, i: nat, regs: set<Reg>, r: Reg)
    requires i < |code| && Makes(k, code[i], r) && Quiet(k, code[i + 1..], r)
    ensures r in CurrentAfter(k, code, regs)
    decreases i
  {
    if i == 0 {
      StaysCurrent(k, code[1..], Current(k, code[0], regs), r);
    } else {
      assert code[1..][i - 1 + 1..] == code[i + 1..];
      BecomesCurrent(k, code[1..], i - 1, Current(k, code[0], regs), r);
    }
  }

  lemma {:induction false} UsesOneByOne(k: Kernel, code: seq<Instr>, regs: set<Reg>)
    requires forall i | 0 <= i < |code| :: UsesCurrent(k, code[i], CurrentAfter(k, code[..i], regs))
    ensures CodeUsesCurrent(k, code, regs)
    decreases |code|
  {
    if code != [] {
      assert code[..0] == [];
      var next := Current(k, code[0], regs);
      forall i | 0 <= i < |code[1..]| ensures UsesCurrent(k, code[1..][i], CurrentAfter(k, code[1..][..i], next)) {
        assert code[..i + 1][1..] == code[1..][..i];
        assert UsesCurrent(k, code[i + 1], CurrentAfter(k, code[..i + 1], regs));
      }
      UsesOneByOne(k, code[1..], next);
    }
  }

  // -------------------------------------------------------------------------
  // Where traced descriptors are made
  // -------------------------------------------------------------------------

  lemma {:induction false} FoundInCode(code: seq<Instr>, r: Reg) returns (i: nat)
    requires CodeRsrc(code, r).Some?
    ensures i < |code| && code[i].op.MakeRsrc? && code[i].op.dst == r && CodeRsrc(code, r) == Some(code[i].op.base)
  {
    if code[0].op.MakeRsrc? && code[0].op.dst == r {
      i := 0;
    } else {
      var j := FoundInCode(code[1..], r);
      i := j + 1;
    }
  }

  lemma {:induction false} FoundInBlocks(blocks: seq<Block>, r: Reg) returns (b: nat, i: nat)
    requires BlocksRsrc(blocks, r).Some?
    ensures b < |blocks| && i < |blocks[b].code|
    ensures blocks[b].code[i].op.MakeRsrc? && blocks[b].code[i].op.dst == r
    ensures BlocksRsrc(blocks, r) == Some(blocks[b].code[i].op.base)
  {
    if CodeRsrc(blocks[0].code, r).Some? {
      b := 0;
      i := FoundInCode(blocks[0].code, r);
    } else {
      var c;
      c, i := FoundInBlocks(blocks[1..], r);
      b := c + 1;
    }
  }

  /** A traced descriptor is made by one instruction, and its base is another value. */
  lemma MadeSomewhere(k: Kernel, r: Reg) returns (b: nat, i: nat)
    requires IsSsa(k) && Traced(k, Use(r)).Some?
    ensures SetsAt(k, b, i, r) && Makes(k, k.blocks[b].code[i], r)
  {
    b, i := FoundInBlocks(k.blocks, r);
    assert SetsAt(k, b, i, r);
    assert ReadsAt(k, b, i, r) ==> Before(k, b, i, b, i);
  }

  // -------------------------------------------------------------------------
  // Dominance keeps descriptors current
  // -------------------------------------------------------------------------

  /** The base of r is set in block c. */
  ghost predicate BaseSetIn(k: Kernel, r: Reg, c: nat) {
    exists j, x :: SetsAt(k, c, j, x) && Traced(k, Use(r)) == Some(Use(x))
  }

  /** What touches r: the one instruction that makes it, or the one that sets its base, which comes before. */
  lemma TouchedWhere(k: Kernel, r: Reg, b: nat, i: nat, c: nat, j: nat)
    requires IsSsa(k) && SetsAt(k, b, i, r) && Makes(k, k.blocks[b].code[i], r)
    requires c < |k.blocks| && j < |k.blocks[c].code| && Sets(k.blocks[c].code[j].op).Some?
    requires Touches(k, Sets(k.blocks[c].code[j].op).value, r)
    ensures (c == b && j == i) || (BaseSetIn(k, r, c) && Before(k, c, j, b, i))
  {
    var dst := Sets(k.blocks[c].code[j].op).value;
    assert SetsAt(k, c, j, dst);
    if dst != r {
      assert ReadsAt(k, b, i, dst);
    }
  }

  lemma QuietAfterMaking(k: Kernel, r: Reg, b: nat, i: nat, end: nat)
    requires IsSsa(k) && SetsAt(k, b, i, r) && Makes(k, k.blocks[b].code[i], r) && i < end <= |k.blocks[b].code|
    ensures Quiet(k, k.blocks[b].code[..end][i + 1..], r)
  {
    var code := k.blocks[b].code[..end][i + 1..];
    forall j | 0 <= j < |code| && Sets(code[j].op).Some? ensures !Touches(k, Sets(code[j].op).value, r) {
      assert code[j] == k.blocks[b].code[i + 1 + j];
      if Touches(k, Sets(code[j].op).value, r) {
        TouchedWhere(k, r, b, i, b, i + 1 + j);
      }
    }
  }

  lemma QuietElsewhere(k: Kernel, r: Reg, b: nat, i: nat, c: nat, end: nat)
    requires IsSsa(k) && SetsAt(k, b, i, r) && Makes(k, k.blocks[b].code[i], r)
    requires c < |k.blocks| && c != b && !BaseSetIn(k, r, c) && end <= |k.blocks[c].code|
    ensures Quiet(k, k.blocks[c].code[..end], r)
  {
    var code := k.blocks[c].code[..end];
    forall j | 0 <= j < |code| && Sets(code[j].op).Some? ensures !Touches(k, Sets(code[j].op).value, r) {
      if Touches(k, Sets(code[j].op).value, r) {
        TouchedWhere(k, r, b, i, c, j);
      }
    }
  }

  /** Once r is made and as long as its base is not set again, r matches its base. */
  lemma {:induction false} CurrentAlong(k: Kernel, p: seq<nat>, at: nat, r: Reg, b: nat, i: nat)
    requires IsSsa(k) && SetsAt(k, b, i, r) && Makes(k, k.blocks[b].code[i], r)
    requires forall n | 0 <= n < |p| :: p[n] < |k.blocks|
    requires at < |p| && p[at] == b && forall n | at < n < |p| :: p[n] != b && !BaseSetIn(k, r, p[n])
    ensures r in CurrentOn(k, p)
    decreases |p|
  {
    var last := |p| - 1;
    var code := k.blocks[p[last]].code;
    assert code[..|code|] == code;
    if at == last {
      QuietAfterMaking(k, r, b, i, |code|);
      BecomesCurrent(k, code, i, CurrentOn(k, p[..last]), r);
    } else {
      CurrentAlong(k, p[..last], at, r, b, i);
      QuietElsewhere(k, r, b, i, p[last], |code|);
      StaysCurrent(k, code, CurrentOn(k, p[..last]), r);
    }
  }

  lemma {:induction false} LastOf(p: seq<nat>, b: nat) returns (at: nat)
    requires b in p
    ensures at < |p| && p[at] == b && forall n | at < n < |p| :: p[n] != b
  {
    if p[|p| - 1] == b {
      at := |p| - 1;
    } else {
      assert p == p[..|p| - 1] + [p[|p| - 1]];
      at := LastOf(p[..|p| - 1], b);
    }
  }

  lemma {:induction false} FirstOf(p: seq<nat>, b: nat) returns (at: nat)
    requires b in p
    ensures at < |p| && p[at] == b && forall n | 0 <= n < at :: p[n] != b
  {
    if p[0] == b {
      at := 0;
    } else {
      assert p == [p[0]] + p[1..];
      var j := FirstOf(p[1..], b);
      at := j + 1;
    }
  }

  lemma PathPrefix(k: Kernel, p: seq<nat>, n: nat)
    requires IsPath(k, p) && 0 < n <= |p|
    ensures IsPath(k, p[..n])
  {
  }

  /** Two visits of the same block: what lies between them can be left out. */
  lemma ShorterPath(k: Kernel, p: seq<nat>, i: nat, j: nat)
    requires IsPath(k, p) && i <= j < |p| && p[i] == p[j]
    ensures IsPath(k, p[..i] + p[j..]) && (p[..i] + p[j..])[|p[..i] + p[j..]| - 1] == p[|p| - 1]
  {
    var q := p[..i] + p[j..];
    forall n | 0 < n < |q| ensures IsSuccessor(k.blocks[q[n - 1]].end, q[n]) {
      if n > i {
        assert q[n] == p[n - i + j] && q[n - 1] == p[n - i + j - 1];
      } else if n == i {
        assert q[n] == p[i] && q[n - 1] == p[i - 1];
      } else {
        assert q[n] == p[n] && q[n - 1] == p[n - 1];
      }
    }
  }

  /** Before the first visit of a block, nothing that it dominates is visited. */
  lemma NotVisitedBefore(k: Kernel, p: seq<nat>, c: nat, first: nat, b: nat, n: nat)
    requires IsPath(k, p) && b != c && Dominates(k, c, b)
    requires n < first < |p| && p[first] == c && forall m | 0 <= m < first :: p[m] != c
    ensures p[n] != b
  {
    var q := p[..n + 1];
    PathPrefix(k, p, n + 1);
    assert c !in q by {
      assert forall m | 0 <= m < |q| :: q[m] == p[m];
    }
    assert q[|q| - 1] == p[n];
  }

  /**
   * Block c dominates block b and is visited after the last visit of b. Then there is a way
   * around b: straight to the first visit of c, and on from the later one.
   */
  lemma WayAround(k: Kernel, p: seq<nat>, b: nat, at: nat, c: nat, j: nat)
    requires IsPath(k, p) && b != c && Dominates(k, c, b)
    requires at < j < |p| && p[j] == c && (forall n | at < n < |p| :: p[n] != b)
    ensures !Dominates(k, b, p[|p| - 1])
  {
    var first := FirstOf(p, c);
    forall n | 0 <= n < first ensures p[n] != b {
      NotVisitedBefore(k, p, c, first, b, n);
    }
    ShorterPath(k, p, first, j);
    var q := p[..first] + p[j..];
    assert b !in q by {
      assert forall m | 0 <= m < |q| :: q[m] == if m < first then p[m] else p[m - first + j];
    }
  }

  lemma BaseSetAfter(k: Kernel, p: seq<nat>, r: Reg, b: nat, i: nat, at: nat, n: nat)
    requires IsSsa(k) && IsPath(k, p) && SetsAt(k, b, i, r) && Makes(k, k.blocks[b].code[i], r)
    requires at < n < |p| && (forall n | at < n < |p| :: p[n] != b) && BaseSetIn(k, r, p[n])
    ensures !Dominates(k, b, p[|p| - 1])
  {
    var j, x :| SetsAt(k, p[n], j, x) && Traced(k, Use(r)) == Some(Use(x));
    assert ReadsAt(k, b, i, x);
    assert Before(k, p[n], j, b, i);
    WayAround(k, p, b, at, p[n], n);
  }

  /** A traced descriptor that is read at j in the last block of a path matches its base there. */
  lemma ReadsCurrent(k: Kernel, p: seq<nat>, j: nat, r: Reg)
    requires IsSsa(k) && IsPath(k, p) && Traced(k, Use(r)).Some?
    requires ReadsAt(k, p[|p| - 1], j, r)
    ensures r in CurrentAfter(k, k.blocks[p[|p| - 1]].code[..j], CurrentOn(k, p[..|p| - 1]))
  {
    var u, before := p[|p| - 1], p[..|p| - 1];
    var code := k.blocks[u].code[..j];
    var b, i := MadeSomewhere(k, r);
    assert Before(k, b, i, u, j);
    if b == u {
      QuietAfterMaking(k, r, b, i, j);
      BecomesCurrent(k, code, i, CurrentOn(k, before), r);
    } else {
      assert b in p;
      assert p == before + [u];
      var at := LastOf(before, b);
      forall n | at < n < |p| ensures p[n] != b && !BaseSetIn(k, r, p[n]) {
        if BaseSetIn(k, r, p[n]) {
          BaseSetAfter(k, p, r, b, i, at, n);
        }
      }
      CurrentAlong(k, before, at, r, b, i);
      QuietElsewhere(k, r, b, i, u, j);
      StaysCurrent(k, code, CurrentOn(k, before), r);
    }
  }

  /** In static single assignment form buffer accesses only use descriptors that match their bases. */
  lemma SsaUsesCurrent(k: Kernel, p: seq<nat>)
    requires IsSsa(k) && IsPath(k, p)
    ensures CodeUsesCurrent(k, k.blocks[p[|p| - 1]].code, CurrentOn(k, p[..|p| - 1]))
  {
    var code, regs := k.blocks[p[|p| - 1]].code, CurrentOn(k, p[..|p| - 1]);
    forall j | 0 <= j < |code| ensures UsesCurrent(k, code[j], CurrentAfter(k, code[..j], regs)) {
      if (code[j].op.BufferLoad? || code[j].op.BufferStore?) && Traced(k, code[j].op.desc).Some? {
        assert ReadsAt(k, p[|p| - 1], j, code[j].op.desc.reg);
        ReadsCurrent(k, p, j, code[j].op.desc.reg);
      }
    }
    UsesOneByOne(k, code, regs);
  }
}
