// Kernel arguments of instrumented clones: the descriptor computed from the metadata and
// its lookup (src/utils.cc), the rewriting of the segment (src/interceptor.cc), and the
// argument layout of the clone that the three must meet together.
module Kernargs {
  import opened Wrappers
  import opened KernelNames
  import opened Words

  const ARG_ALIGN: nat := 8
  const POINTER_SIZE: nat := 8

  type Byte = b: nat | b < 256

  // -------------------------------------------------------------------------
  // Metadata and descriptors
  // -------------------------------------------------------------------------

  /** One entry of `.args`: its `.value_kind`, `.offset` and `.size`. */
  datatype Arg = Arg(kind: string, offset: nat, size: nat)

  datatype Metadata = Metadata(args: seq<Arg>, kernargSize: nat, privateSize: nat, groupSize: nat)

  datatype Descriptor = Descriptor(
    explicitLength: nat, explicitCount: nat, hiddenLength: nat, kernargLength: nat,
    privateSize: nat, groupSize: nat, cloneHiddenLength: nat)

  const HIDDEN: string := "hidden_"

  predicate IsHidden(a: Arg) {
    |HIDDEN| <= |a.kind| && a.kind[..|HIDDEN|] == HIDDEN
  }

  function RoundArgsLength(n: nat): nat {
    (n + (ARG_ALIGN - 1)) / ARG_ALIGN * ARG_ALIGN
  }

  /** Where the last explicit argument of the list ends. */
  function ExplicitEnd(args: seq<Arg>): nat {
    if args == [] then 0
    else if IsHidden(args[|args| - 1]) then ExplicitEnd(args[..|args| - 1])
    else args[|args| - 1].offset + args[|args| - 1].size
  }

  function ExplicitCount(args: seq<Arg>): nat {
    if args == [] then 0
    else ExplicitCount(args[..|args| - 1]) + if IsHidden(args[|args| - 1]) then 0 else 1
  }

  function Describe(m: Metadata): Descriptor {
    var rounded := RoundArgsLength(ExplicitEnd(m.args));
    var explicitLength := if rounded < m.kernargSize then rounded else m.kernargSize;
    Descriptor(explicitLength, ExplicitCount(m.args), m.kernargSize - explicitLength, m.kernargSize,
               m.privateSize, m.groupSize, 0)
  }

  method ComputeKernargData(m: Metadata) returns (desc: Descriptor)
    ensures desc == Describe(m)
    ensures desc.privateSize == m.privateSize && desc.groupSize == m.groupSize
    ensures desc.kernargLength == m.kernargSize == desc.explicitLength + desc.hiddenLength
  {
    desc := Descriptor(0, 0, 0, m.kernargSize, m.privateSize, m.groupSize, 0);
    for j := 0 to |m.args|
      invariant desc.kernargLength == m.kernargSize && desc.cloneHiddenLength == 0
      invariant desc.privateSize == m.privateSize && desc.groupSize == m.groupSize
      invariant desc.explicitLength == ExplicitEnd(m.args[..j])
      invariant desc.explicitCount == ExplicitCount(m.args[..j])
    {
      var arg := m.args[j];
      if IsHidden(arg) {
        desc := desc.(hiddenLength := arg.offset + arg.size);
      } else {
        desc := desc.(explicitCount := desc.explicitCount + 1, explicitLength := arg.offset + arg.size);
      }
      assert m.args[..j + 1][..j] == m.args[..j];
    }
    assert m.args[..|m.args|] == m.args;
    var rounded := RoundArgsLength(desc.explicitLength);
    desc := desc.(explicitLength := if rounded < desc.kernargLength then rounded else desc.kernargLength);
    desc := desc.(hiddenLength := desc.kernargLength - desc.explicitLength);
  }

  // -------------------------------------------------------------------------
  // Lookup
  // -------------------------------------------------------------------------

  /** How many hidden bytes the kernel without instrumentation has, as far as it is known. */
  function CloneHiddenLength(args: map<string, Descriptor>, name: string): nat {
    if name in args && args[name].hiddenLength != 0 && args[name].explicitLength <= args[name].kernargLength
    then args[name].kernargLength - args[name].explicitLength
    else 0
  }

  function Lookup(args: map<string, Descriptor>, name: string, instrumented: bool): Option<Descriptor> {
    var key := if instrumented then InstrumentedName(name) else name;
    if key in args
    then Some(args[key].(cloneHiddenLength := if instrumented then CloneHiddenLength(args, name) else 0))
    else None
  }

  ghost predicate DescriptorsFit(args: map<string, Descriptor>) {
    forall n | n in args :: args[n].explicitLength <= args[n].kernargLength
  }

  class ArgumentCache {
    var argMap: map<string, Descriptor>

    constructor ()
      ensures argMap == map[]
    {
      argMap := map[];
    }

    method TryLookup(name: string, instrumented: bool) returns (desc: Option<Descriptor>)
      requires DescriptorsFit(argMap)
      ensures desc == Lookup(argMap, name, instrumented)
    {
      var cloneHiddenLength := 0;
      var key := name;
      if instrumented {
        if name in argMap {
          if argMap[name].hiddenLength != 0 {
            cloneHiddenLength := argMap[name].kernargLength - argMap[name].explicitLength;
          }
        }
        key := GetInstrumentedName(name);
      }
      if key in argMap {
        desc := Some(argMap[key].(cloneHiddenLength := cloneHiddenLength));
      } else {
        desc := None;
      }
    }

    /**
     * Looks twice: the second time after the descriptors of loaded code objects have been
     * added, which never replace a descriptor that is already there.
     */
    method GetArgDescriptor(name: string, instrumented: bool, loaded: Option<map<string, Descriptor>>)
        returns (desc: Option<Descriptor>)
      requires DescriptorsFit(argMap) && (loaded.Some? ==> DescriptorsFit(loaded.value))
      modifies this
      ensures DescriptorsFit(argMap)
      ensures var first := Lookup(old(argMap), name, instrumented);
              if first.Some? || loaded.None? then desc == first && argMap == old(argMap)
              else argMap == loaded.value + old(argMap) && desc == Lookup(argMap, name, instrumented)
    {
      desc := TryLookup(name, instrumented);
      if desc.Some? {
        return;
      }
      if loaded.Some? {
        argMap := loaded.value + argMap;
        desc := TryLookup(name, instrumented);
      }
    }
  }

  // -------------------------------------------------------------------------
  // Rewriting the segment
  // -------------------------------------------------------------------------

  function ByteAt(v: nat, k: nat): Byte {
    if k == 0 then v % 256 else ByteAt(v / 256, k - 1)
  }

  /** A number as `n` bytes, least significant first. */
  function LittleEndian(v: nat, n: nat): (s: seq<Byte>)
    ensures |s| == n
  {
    seq(n, k requires 0 <= k < n => ByteAt(v, k))
  }

  function FromLittleEndian(s: seq<Byte>): nat {
    if s == [] then 0 else s[0] + 256 * FromLittleEndian(s[1..])
  }

  function PowerOf256(n: nat): nat {
    if n == 0 then 1 else 256 * PowerOf256(n - 1)
  }

  lemma {:induction false} LittleEndianRoundTrip(v: nat, n: nat)
    requires v < PowerOf256(n)
    ensures FromLittleEndian(LittleEndian(v, n)) == v
  {
    if n > 0 {
      LittleEndianRoundTrip(v / 256, n - 1);
      assert LittleEndian(v, n)[1..] == LittleEndian(v / 256, n - 1);
    }
  }

  lemma PointerReadsBack(v: nat)
    requires v < TWO_64
    ensures FromLittleEndian(LittleEndian(v, POINTER_SIZE)) == v
  {
    assert PowerOf256(4) == 0x1_0000_0000;
    assert PowerOf256(8) == TWO_64;
    LittleEndianRoundTrip(v, POINTER_SIZE);
  }

  function Zeros(n: nat): (s: seq<Byte>)
    ensures |s| == n && forall k | 0 <= k < n :: s[k] == 0
  {
    seq(n, _ => 0)
  }

  /** What fixupKernArgs demands of its descriptor and its source buffer. */
  ghost predicate CanRewrite(src: seq<Byte>, desc: Descriptor) {
    && POINTER_SIZE <= desc.explicitLength <= desc.kernargLength
    && desc.explicitLength - POINTER_SIZE + desc.cloneHiddenLength <= |src|
  }

  /** The assertion in fixupKernArgs about the hidden arguments. */
  predicate HiddenFit(desc: Descriptor)
    requires desc.explicitLength <= desc.kernargLength
  {
    desc.cloneHiddenLength != 0 ==> desc.cloneHiddenLength <= desc.kernargLength - desc.explicitLength
  }

  /** The new segment: explicit arguments, the comms pointer, hidden arguments, zeros. */
  function Rewritten(src: seq<Byte>, comms: nat, desc: Descriptor): (s: seq<Byte>)
    requires POINTER_SIZE <= desc.explicitLength <= desc.kernargLength
    requires desc.explicitLength - POINTER_SIZE + desc.cloneHiddenLength <= |src|
    requires HiddenFit(desc)
    ensures |s| == desc.kernargLength
  {
    var cut, hidden := desc.explicitLength - POINTER_SIZE, desc.cloneHiddenLength;
    src[..cut] + LittleEndian(comms, POINTER_SIZE) + src[cut..cut + hidden]
    + Zeros(desc.kernargLength - desc.explicitLength - hidden)
  }

  method Memset(dst: array<Byte>, n: nat)
    requires n <= dst.Length
    modifies dst
    ensures forall k | 0 <= k < n :: dst[k] == 0
    ensures forall k | n <= k < dst.Length :: dst[k] == old(dst[k])
  {
    forall k | 0 <= k < n {
      dst[k] := 0;
    }
  }

  method Memcpy(dst: array<Byte>, at: nat, bytes: seq<Byte>)
    requires at + |bytes| <= dst.Length
    modifies dst
    ensures forall k | 0 <= k < |bytes| :: dst[at + k] == bytes[k]
    ensures forall k | 0 <= k < dst.Length && !(at <= k < at + |bytes|) :: dst[k] == old(dst[k])
  {
    forall k | 0 <= k < |bytes| {
      dst[at + k] := bytes[k];
    }
  }

  /** Fails, before the hidden arguments are copied, when they do not fit. */
  method FixupKernArgs(dst: array<Byte>, src: seq<Byte>, comms: nat, desc: Descriptor) returns (ok: bool)
    requires CanRewrite(src, desc) && desc.kernargLength <= dst.Length
    modifies dst
    ensures ok == HiddenFit(desc)
    ensures ok ==> dst[..desc.kernargLength] == Rewritten(src, comms, desc)
    ensures dst[desc.kernargLength..] == old(dst[desc.kernargLength..])
  {
    var cut, hidden := desc.explicitLength - POINTER_SIZE, desc.cloneHiddenLength;
    Memset(dst, desc.kernargLength);
    Memcpy(dst, 0, src[..cut]);
    if hidden != 0 {
      if hidden > desc.kernargLength - desc.explicitLength {
        return false;
      }
      Memcpy(dst, desc.explicitLength, src[cut..cut + hidden]);
    }
    Memcpy(dst, cut, LittleEndian(comms, POINTER_SIZE));
    ok := true;
  }

  // -------------------------------------------------------------------------
  // The layout of argument segments
  // -------------------------------------------------------------------------

  /** An explicit parameter, placed at the next multiple of its alignment, which is 2 to the power `shift`. */
  datatype Param = Param(kind: string, size: nat, shift: nat)

  /** A hidden argument at a fixed distance from the start of the hidden area. */
  datatype Hidden = Hidden(kind: string, at: nat, size: nat)

  datatype Signature = Signature(params: seq<Param>, hidden: seq<Hidden>, hiddenBytes: nat, privateSize: nat, groupSize: nat)

  ghost predicate WellFormed(g: Signature) {
    && (forall i | 0 <= i < |g.params| :: !IsHidden(Arg(g.params[i].kind, 0, 0)))
    && (forall i | 0 <= i < |g.hidden| ::
          IsHidden(Arg(g.hidden[i].kind, 0, 0)) && g.hidden[i].at + g.hidden[i].size <= g.hiddenBytes)
  }

  /** The first multiple of 2 to the power `shift` that is not below n. */
  function NextMultiple(n: nat, shift: nat): nat {
    if shift == 0 then n else 2 * NextMultiple((n + 1) / 2, shift - 1)
  }

  /** Bytes in whole dwords. */
  function Dwords(n: nat): nat {
    (n + 3) / 4 * 4
  }

  /** Where the first n parameters end. */
  function ParamsEnd(params: seq<Param>, n: nat): nat
    requires n <= |params|
    decreases n, 0
  {
    if n == 0 then 0 else ParamOffset(params, n - 1) + params[n - 1].size
  }

  function ParamOffset(params: seq<Param>, i: nat): nat
    requires i < |params|
    decreases i, 1
  {
    NextMultiple(ParamsEnd(params, i), params[i].shift)
  }

  /** Hidden arguments start at the next multiple of 8 after the explicit ones. */
  function HiddenStart(g: Signature): nat
    requires WellFormed(g)
  {
    RoundArgsLength(ParamsEnd(g.params, |g.params|))
  }

  function HiddenOffset(g: Signature, j: nat): nat
    requires WellFormed(g) && j < |g.hidden|
  {
    HiddenStart(g) + g.hidden[j].at
  }

  /** The segment covers the hidden area, if there is one, in whole dwords. */
  function SegmentSize(g: Signature): nat
    requires WellFormed(g)
  {
    Dwords(if g.hiddenBytes == 0 then ParamsEnd(g.params, |g.params|) else HiddenStart(g) + g.hiddenBytes)
  }

  function ParamArgs(params: seq<Param>, n: nat): seq<Arg>
    requires n <= |params|
  {
    seq(n, i requires 0 <= i < n => Arg(params[i].kind, ParamOffset(params, i), params[i].size))
  }

  function HiddenArgs(g: Signature, n: nat): seq<Arg>
    requires WellFormed(g) && n <= |g.hidden|
  {
    seq(n, j requires 0 <= j < n => Arg(g.hidden[j].kind, HiddenOffset(g, j), g.hidden[j].size))
  }

  /** The metadata that the compiler writes for a kernel with this signature. */
  function MetadataOf(g: Signature): Metadata
    requires WellFormed(g)
  {
    Metadata(ParamArgs(g.params, |g.params|) + HiddenArgs(g, |g.hidden|), SegmentSize(g), g.privateSize, g.groupSize)
  }

  const COMMS_PARAM: Param := Param("global_buffer", POINTER_SIZE, 3)

  /** The clone takes one more pointer; its hidden area is that of the original when the original has one. */
  ghost predicate IsCloneOf(clone: Signature, g: Signature) {
    && clone.params == g.params + [COMMS_PARAM]
    && (g.hiddenBytes != 0 ==> clone.hidden == g.hidden && clone.hiddenBytes == g.hiddenBytes)
  }

  // -------------------------------------------------------------------------
  // Descriptors of laid-out kernels
  // -------------------------------------------------------------------------

  lemma {:induction false} NextMultipleIsAbove(n: nat, shift: nat)
    ensures n <= NextMultiple(n, shift)
  {
    if shift > 0 {
      NextMultipleIsAbove((n + 1) / 2, shift - 1);
    }
  }

  lemma NextQword(n: nat)
    ensures NextMultiple(n, 3) == RoundArgsLength(n)
  {
    var a, b, c := (n + 1) / 2, (n + 3) / 4, (n + 7) / 8;
    assert (a + 1) / 2 == b && (b + 1) / 2 == c;
    assert NextMultiple(b, 1) == 2 * c;
    assert NextMultiple(a, 2) == 4 * c;
  }

  lemma QwordsFit(n: nat)
    ensures RoundArgsLength(n) % 8 == 0 && n <= RoundArgsLength(n) < n + 8
  {
    var q := (n + 7) / 8;
    assert RoundArgsLength(n) == q * 8;
  }

  lemma QwordsMonotone(m: nat, n: nat)
    requires m <= n
    ensures RoundArgsLength(m) <= RoundArgsLength(n)
  {
    assert (m + 7) / 8 <= (n + 7) / 8;
  }

  lemma WholeQwords(n: nat)
    requires n % 8 == 0
    ensures RoundArgsLength(n) == n
  {
    var q := n / 8;
    assert (n + 7) / 8 == q;
  }

  lemma DwordsFit(n: nat)
    ensures n <= Dwords(n) <= RoundArgsLength(n)
  {
    var q, r := (n + 7) / 8, (n + 3) / 4;
    assert r <= 2 * q;
  }

  lemma DwordsAfterQwords(m: nat, n: nat)
    requires m % 8 == 0
    ensures Dwords(m + n) == m + Dwords(n)
  {
    var k := m / 8;
    assert m + n + 3 == (2 * k) * 4 + (n + 3);
    assert (m + n + 3) / 4 == 2 * k + (n + 3) / 4;
  }

  lemma {:induction false} ParamBeforeEnd(params: seq<Param>, i: nat, n: nat)
    requires i < n <= |params|
    ensures ParamOffset(params, i) + params[i].size <= ParamsEnd(params, n)
  {
    if i < n - 1 {
      ParamBeforeEnd(params, i, n - 1);
      NextMultipleIsAbove(ParamsEnd(params, n - 1), params[n - 1].shift);
    }
  }

  lemma {:induction false} SamePrefixSameOffsets(params: seq<Param>, more: seq<Param>, n: nat)
    requires n <= |params|
    ensures ParamsEnd(params + more, n) == ParamsEnd(params, n)
    ensures n < |params| ==> ParamOffset(params + more, n) == ParamOffset(params, n)
  {
    if n > 0 {
      SamePrefixSameOffsets(params, more, n - 1);
    }
  }

  lemma {:induction false} HiddenArgsSkipped(args: seq<Arg>, g: Signature, n: nat)
    requires WellFormed(g) && n <= |g.hidden|
    ensures ExplicitEnd(args + HiddenArgs(g, n)) == ExplicitEnd(args)
    ensures ExplicitCount(args + HiddenArgs(g, n)) == ExplicitCount(args)
  {
    if n == 0 {
      assert args + HiddenArgs(g, 0) == args;
    } else {
      var all := args + HiddenArgs(g, n);
      assert all[..|all| - 1] == args + HiddenArgs(g, n - 1);
      HiddenArgsSkipped(args, g, n - 1);
    }
  }

  lemma {:induction false} ParamArgsCounted(params: seq<Param>, n: nat)
    requires n <= |params|
    requires forall i | 0 <= i < |params| :: !IsHidden(Arg(params[i].kind, 0, 0))
    ensures ExplicitEnd(ParamArgs(params, n)) == ParamsEnd(params, n)
    ensures ExplicitCount(ParamArgs(params, n)) == n
  {
    if n > 0 {
      assert ParamArgs(params, n)[..n - 1] == ParamArgs(params, n - 1);
      ParamArgsCounted(params, n - 1);
    }
  }

  lemma SegmentCoversHidden(g: Signature)
    requires WellFormed(g)
    ensures HiddenStart(g) % 8 == 0
    ensures g.hiddenBytes != 0 ==> SegmentSize(g) == HiddenStart(g) + Dwords(g.hiddenBytes)
    ensures g.hiddenBytes == 0 ==> SegmentSize(g) <= HiddenStart(g)
  {
    var end := ParamsEnd(g.params, |g.params|);
    QwordsFit(end);
    if g.hiddenBytes != 0 {
      DwordsAfterQwords(HiddenStart(g), g.hiddenBytes);
    } else {
      DwordsFit(end);
    }
  }

  lemma DescribedLengths(g: Signature)
    requires WellFormed(g)
    ensures var d := Describe(MetadataOf(g));
            && d.explicitCount == |g.params| && d.kernargLength == SegmentSize(g)
            && d.explicitLength == (if HiddenStart(g) < SegmentSize(g) then HiddenStart(g) else SegmentSize(g))
            && d.hiddenLength == d.kernargLength - d.explicitLength && d.cloneHiddenLength == 0
  {
    HiddenArgsSkipped(ParamArgs(g.params, |g.params|), g, |g.hidden|);
    ParamArgsCounted(g.params, |g.params|);
  }

  /** The descriptor finds the end of the explicit arguments and the size of the hidden area. */
  lemma DescriptorOfLayout(g: Signature)
    requires WellFormed(g)
    ensures var d := Describe(MetadataOf(g));
            && d.explicitCount == |g.params| && d.kernargLength == SegmentSize(g)
            && d.explicitLength + d.hiddenLength == d.kernargLength
            && (g.hiddenBytes != 0 ==> d.explicitLength == HiddenStart(g) && d.hiddenLength == Dwords(g.hiddenBytes))
            && (g.hiddenBytes == 0 ==> d.hiddenLength == 0)
            && d.privateSize == g.privateSize && d.groupSize == g.groupSize
  {
    DescribedLengths(g);
    SegmentCoversHidden(g);
    if g.hiddenBytes != 0 {
      DwordsFit(g.hiddenBytes);
    }
  }

  lemma PointerPlace(clone: Signature, g: Signature)
    requires WellFormed(g) && WellFormed(clone) && IsCloneOf(clone, g)
    ensures ParamOffset(clone.params, |g.params|) == HiddenStart(g)
  {
    SamePrefixSameOffsets(g.params, [COMMS_PARAM], |g.params|);
    NextQword(ParamsEnd(g.params, |g.params|));
  }

  lemma EndOfClone(clone: Signature, g: Signature)
    requires WellFormed(g) && WellFormed(clone) && IsCloneOf(clone, g)
    ensures ParamsEnd(clone.params, |clone.params|) == HiddenStart(g) + POINTER_SIZE
  {
    PointerPlace(clone, g);
  }

  /** In the clone the pointer stands where the original's hidden area starts, and that area moves by 8. */
  lemma ClonePointerPlace(clone: Signature, g: Signature)
    requires WellFormed(g) && WellFormed(clone) && IsCloneOf(clone, g)
    ensures ParamOffset(clone.params, |g.params|) == HiddenStart(g)
    ensures HiddenStart(clone) == HiddenStart(g) + POINTER_SIZE
  {
    PointerPlace(clone, g);
    EndOfClone(clone, g);
    SegmentCoversHidden(g);
    var start := HiddenStart(g);
    WholeQwords(start + POINTER_SIZE);
  }

  lemma CloneSegment(clone: Signature, g: Signature)
    requires WellFormed(g) && WellFormed(clone) && IsCloneOf(clone, g)
    ensures Describe(MetadataOf(clone)).explicitLength == HiddenStart(g) + POINTER_SIZE
    ensures Describe(MetadataOf(clone)).kernargLength == SegmentSize(clone) >= HiddenStart(g) + POINTER_SIZE
    ensures g.hiddenBytes != 0 ==> SegmentSize(clone) == HiddenStart(g) + POINTER_SIZE + Dwords(g.hiddenBytes)
  {
    ClonePointerPlace(clone, g);
    DescriptorOfLayout(clone);
    SegmentCoversHidden(clone);
    if clone.hiddenBytes != 0 {
      DwordsFit(clone.hiddenBytes);
    } else {
      DescribedLengths(clone);
      assert ParamsEnd(clone.params, |clone.params|) == HiddenStart(clone);
      DwordsFit(HiddenStart(clone));
    }
  }

  // -------------------------------------------------------------------------
  // The three together
  // -------------------------------------------------------------------------

  /** The bytes of `segment` from `at` on. */
  function Slice(segment: seq<Byte>, at: nat, size: nat): seq<Byte>
    requires at + size <= |segment|
  {
    segment[at..at + size]
  }

  /** The descriptor that is used for a dispatch when both kernels are in the cache. */
  function UsedDescriptor(clone: Signature, g: Signature): Descriptor
    requires WellFormed(g) && WellFormed(clone)
  {
    var d := Describe(MetadataOf(g));
    Describe(MetadataOf(clone)).(
      cloneHiddenLength := if d.hiddenLength != 0 then d.kernargLength - d.explicitLength else 0)
  }

  /**
   * Looking the clone up by the original's name yields that descriptor exactly when the original
   * is known or has no hidden arguments; otherwise its hidden arguments would be dropped.
   */
  lemma LookupYieldsUsedDescriptor(args: map<string, Descriptor>, name: string, clone: Signature, g: Signature)
    requires WellFormed(g) && WellFormed(clone)
    requires name in args ==> args[name] == Describe(MetadataOf(g))
    requires InstrumentedName(name) in args && args[InstrumentedName(name)] == Describe(MetadataOf(clone))
    ensures Lookup(args, name, true) == Some(UsedDescriptor(clone, g)) <==> name in args || g.hiddenBytes == 0
  {
    DescriptorOfLayout(g);
    if g.hiddenBytes != 0 {
      DwordsFit(g.hiddenBytes);
    }
  }

  /** Whether or not the original is known, a dispatch gets the clone's segment sizes, which go into its packet. */
  lemma LookupYieldsCloneSizes(args: map<string, Descriptor>, name: string, clone: Signature)
    requires WellFormed(clone)
    requires InstrumentedName(name) in args && args[InstrumentedName(name)] == Describe(MetadataOf(clone))
    ensures var found := Lookup(args, name, true);
            && found.Some? && found.value.kernargLength == SegmentSize(clone)
            && found.value.privateSize == clone.privateSize && found.value.groupSize == clone.groupSize
  {
    DescriptorOfLayout(clone);
  }

  /** With the clone alone in the cache, a descriptor is found that copies no hidden arguments. */
  lemma HiddenArgumentsDropped(name: string, clone: Signature, g: Signature)
    requires WellFormed(g) && WellFormed(clone) && g.hiddenBytes != 0
    ensures var args := map[InstrumentedName(name) := Describe(MetadataOf(clone))];
            && Lookup(args, name, true) == Some(UsedDescriptor(clone, g).(cloneHiddenLength := 0))
            && UsedDescriptor(clone, g).cloneHiddenLength == Dwords(g.hiddenBytes) > 0
  {
    InstrumentedIsLonger(name);
    DescriptorOfLayout(g);
    DwordsFit(g.hiddenBytes);
  }

  /** How many bytes of the original's hidden area are copied. */
  function HiddenCopied(g: Signature): nat {
    if g.hiddenBytes == 0 then 0 else Dwords(g.hiddenBytes)
  }

  lemma SourceCoversHidden(g: Signature)
    requires WellFormed(g)
    ensures HiddenStart(g) + HiddenCopied(g) <= RoundArgsLength(SegmentSize(g))
  {
    SegmentCoversHidden(g);
    QwordsFit(SegmentSize(g));
    if g.hiddenBytes == 0 {
      var end := ParamsEnd(g.params, |g.params|);
      DwordsFit(end);
      QwordsMonotone(end, SegmentSize(g));
    }
  }

  /** The descriptor of a clone can be used on any source segment padded to a multiple of 8 bytes. */
  lemma CloneCanBeRewritten(clone: Signature, g: Signature, src: seq<Byte>)
    requires WellFormed(g) && WellFormed(clone) && IsCloneOf(clone, g)
    requires |src| == RoundArgsLength(SegmentSize(g))
    ensures CanRewrite(src, UsedDescriptor(clone, g)) && HiddenFit(UsedDescriptor(clone, g))
    ensures UsedDescriptor(clone, g).kernargLength == SegmentSize(clone)
    ensures UsedDescriptor(clone, g).explicitLength == HiddenStart(g) + POINTER_SIZE
    ensures UsedDescriptor(clone, g).cloneHiddenLength == HiddenCopied(g)
  {
    DescriptorOfLayout(g);
    CloneSegment(clone, g);
    SourceCoversHidden(g);
  }

  /** Where each part of the new segment stands. */
  lemma RewrittenParts(src: seq<Byte>, comms: nat, desc: Descriptor)
    requires CanRewrite(src, desc) && HiddenFit(desc)
    ensures var s := Rewritten(src, comms, desc);
            var cut, hidden := desc.explicitLength - POINTER_SIZE, desc.cloneHiddenLength;
            && s[..cut] == src[..cut]
            && s[cut..desc.explicitLength] == LittleEndian(comms, POINTER_SIZE)
            && s[desc.explicitLength..desc.explicitLength + hidden] == src[cut..cut + hidden]
            && s[desc.explicitLength + hidden..] == Zeros(desc.kernargLength - desc.explicitLength - hidden)
  {
  }

  lemma SliceOfEqual(a: seq<Byte>, i: nat, b: seq<Byte>, j: nat, length: nat, at: nat, size: nat)
    requires i + length <= |a| && j + length <= |b| && a[i..i + length] == b[j..j + length] && at + size <= length
    ensures Slice(a, i + at, size) == Slice(b, j + at, size)
  {
    var x, y := Slice(a, i + at, size), Slice(b, j + at, size);
    forall k | 0 <= k < size ensures x[k] == y[k] {
      assert a[i..i + length][at + k] == b[j..j + length][at + k];
    }
  }

  /** An original, its clone, and a segment for the original that is padded to a multiple of 8 bytes. */
  ghost predicate Rewritable(clone: Signature, g: Signature, src: seq<Byte>) {
    WellFormed(g) && WellFormed(clone) && IsCloneOf(clone, g) && |src| == RoundArgsLength(SegmentSize(g))
  }

  /** The clone's segment. */
  ghost function CloneSegmentOf(clone: Signature, g: Signature, src: seq<Byte>, comms: nat): (s: seq<Byte>)
    requires Rewritable(clone, g, src)
    ensures |s| == SegmentSize(clone)
  {
    CloneCanBeRewritten(clone, g, src);
    Rewritten(src, comms, UsedDescriptor(clone, g))
  }

  /** Where each part of it comes from. */
  lemma CloneSegmentParts(clone: Signature, g: Signature, src: seq<Byte>, comms: nat)
    requires Rewritable(clone, g, src)
    ensures var s, start, h := CloneSegmentOf(clone, g, src, comms), HiddenStart(g), HiddenCopied(g);
            && start + h <= |src| && start + POINTER_SIZE + h <= |s|
            && s[..start] == src[..start]
            && s[start..start + POINTER_SIZE] == LittleEndian(comms, POINTER_SIZE)
            && s[start + POINTER_SIZE..start + POINTER_SIZE + h] == src[start..start + h]
            && s[start + POINTER_SIZE + h..] == Zeros(SegmentSize(clone) - start - POINTER_SIZE - h)
  {
    CloneCanBeRewritten(clone, g, src);
    SourceCoversHidden(g);
    RewrittenParts(src, comms, UsedDescriptor(clone, g));
  }

  /** Explicit arguments keep their bytes and offsets. */
  lemma ExplicitArgumentsKept(clone: Signature, g: Signature, src: seq<Byte>, comms: nat, i: nat)
    requires Rewritable(clone, g, src) && i < |g.params|
    ensures var at, size, s := ParamOffset(clone.params, i), g.params[i].size, CloneSegmentOf(clone, g, src, comms);
            && at == ParamOffset(g.params, i)
            && at + size <= |src| && at + size <= |s| && Slice(s, at, size) == Slice(src, at, size)
  {
    CloneSegmentParts(clone, g, src, comms);
    SamePrefixSameOffsets(g.params, [COMMS_PARAM], i);
    ParamInFront(g, i);
    var s, start := CloneSegmentOf(clone, g, src, comms), HiddenStart(g);
    assert s[0..0 + start] == src[0..0 + start];
    SliceOfEqual(s, 0, src, 0, start, ParamOffset(g.params, i), g.params[i].size);
  }

  lemma ParamInFront(g: Signature, i: nat)
    requires WellFormed(g) && i < |g.params|
    ensures ParamOffset(g.params, i) + g.params[i].size <= HiddenStart(g)
  {
    ParamBeforeEnd(g.params, i, |g.params|);
    QwordsFit(ParamsEnd(g.params, |g.params|));
  }

  /** The pointer stands in the clone's last parameter, and the kernel reads back its value. */
  lemma PointerArrives(clone: Signature, g: Signature, src: seq<Byte>, comms: nat)
    requires Rewritable(clone, g, src) && comms < TWO_64
    ensures var at, s := ParamOffset(clone.params, |g.params|), CloneSegmentOf(clone, g, src, comms);
            && at + POINTER_SIZE <= |s|
            && FromLittleEndian(Slice(s, at, POINTER_SIZE)) == comms
  {
    CloneSegmentParts(clone, g, src, comms);
    ClonePointerPlace(clone, g);
    PointerReadsBack(comms);
  }

  /** Hidden arguments keep their bytes and move by exactly the size of the pointer. */
  lemma HiddenArgumentsMove(clone: Signature, g: Signature, src: seq<Byte>, comms: nat, j: nat)
    requires Rewritable(clone, g, src) && g.hiddenBytes != 0 && j < |g.hidden|
    ensures var at, size, s := HiddenOffset(g, j), g.hidden[j].size, CloneSegmentOf(clone, g, src, comms);
            && HiddenOffset(clone, j) == at + POINTER_SIZE
            && at + size <= |src| && at + POINTER_SIZE + size <= |s|
            && Slice(s, at + POINTER_SIZE, size) == Slice(src, at, size)
  {
    CloneSegmentParts(clone, g, src, comms);
    ClonePointerPlace(clone, g);
    DwordsFit(g.hiddenBytes);
    var s, start := CloneSegmentOf(clone, g, src, comms), HiddenStart(g);
    SliceOfEqual(s, start + POINTER_SIZE, src, start, HiddenCopied(g), g.hidden[j].at, g.hidden[j].size);
  }

  /** Past the copied hidden area everything is zero, and so is all of it when the original has none. */
  lemma RestIsZero(clone: Signature, g: Signature, src: seq<Byte>, comms: nat, k: nat)
    requires Rewritable(clone, g, src) && HiddenStart(clone) + HiddenCopied(g) <= k < SegmentSize(clone)
    ensures CloneSegmentOf(clone, g, src, comms)[k] == 0
  {
    CloneSegmentParts(clone, g, src, comms);
    ClonePointerPlace(clone, g);
    var s, from := CloneSegmentOf(clone, g, src, comms), HiddenStart(clone) + HiddenCopied(g);
    assert s[from..][k - from] == 0;
  }

  // -------------------------------------------------------------------------
  // Bytes outside the arguments
  // -------------------------------------------------------------------------

  predicate InParam(params: seq<Param>, i: nat, k: nat)
    requires i < |params|
  {
    ParamOffset(params, i) <= k < ParamOffset(params, i) + params[i].size
  }

  ghost predicate InHidden(g: Signature, j: nat, k: nat)
    requires WellFormed(g) && j < |g.hidden|
  {
    HiddenOffset(g, j) <= k < HiddenOffset(g, j) + g.hidden[j].size
  }

  ghost predicate InSomeParam(g: Signature, k: nat) {
    exists i: nat :: i < |g.params| && InParam(g.params, i, k)
  }

  ghost predicate InSomeHidden(g: Signature, k: nat)
    requires WellFormed(g)
  {
    exists j: nat :: j < |g.hidden| && InHidden(g, j, k)
  }

  /** Byte k of a segment belongs to no argument. */
  ghost predicate IsPadding(g: Signature, k: nat)
    requires WellFormed(g)
  {
    !InSomeParam(g, k) && !InSomeHidden(g, k)
  }

  /** Every byte among the first n of the segment that belongs to no argument is zero. */
  ghost predicate PaddingIsZero(g: Signature, segment: seq<Byte>, n: nat)
    requires WellFormed(g) && n <= |segment|
  {
    forall k: nat | k < n && IsPadding(g, k) :: segment[k] == 0
  }

  lemma ParamsInFront(g: Signature, k: nat)
    requires WellFormed(g) && HiddenStart(g) <= k
    ensures !InSomeParam(g, k)
  {
    forall i: nat | i < |g.params| ensures !InParam(g.params, i, k) {
      ParamInFront(g, i);
    }
  }

  /** Before the hidden area both kernels have the same padding. */
  lemma SamePaddingInFront(clone: Signature, g: Signature, k: nat)
    requires WellFormed(g) && WellFormed(clone) && IsCloneOf(clone, g) && k < HiddenStart(g)
    ensures IsPadding(clone, k) <==> IsPadding(g, k)
  {
    var n := |g.params|;
    ClonePointerPlace(clone, g);
    assert !InParam(clone.params, n, k);
    forall i: nat | i < n ensures InParam(clone.params, i, k) <==> InParam(g.params, i, k) {
      SamePrefixSameOffsets(g.params, [COMMS_PARAM], i);
    }
    if i: nat :| i < |clone.params| && InParam(clone.params, i, k) {
      assert InParam(g.params, i, k);
    }
    if i: nat :| i < n && InParam(g.params, i, k) {
      assert InParam(clone.params, i, k);
    }
  }

  /** In the hidden area the clone's padding is the original's, moved by the size of the pointer. */
  lemma SamePaddingBehind(clone: Signature, g: Signature, k: nat)
    requires WellFormed(g) && WellFormed(clone) && IsCloneOf(clone, g) && g.hiddenBytes != 0 && HiddenStart(g) <= k
    ensures IsPadding(clone, k + POINTER_SIZE) <==> IsPadding(g, k)
  {
    ClonePointerPlace(clone, g);
    ParamsInFront(g, k);
    ParamsInFront(clone, k + POINTER_SIZE);
    forall j: nat | j < |g.hidden| ensures InHidden(clone, j, k + POINTER_SIZE) <==> InHidden(g, j, k) {
    }
    if j: nat :| j < |g.hidden| && InHidden(g, j, k) {
      assert InHidden(clone, j, k + POINTER_SIZE);
    }
    var moved := k + POINTER_SIZE;
    if j: nat :| j < |clone.hidden| && InHidden(clone, j, moved) {
      assert InHidden(g, j, k);
    }
  }

  lemma PointerIsNoPadding(clone: Signature, g: Signature, k: nat)
    requires WellFormed(g) && WellFormed(clone) && IsCloneOf(clone, g)
    requires HiddenStart(g) <= k < HiddenStart(g) + POINTER_SIZE
    ensures !IsPadding(clone, k)
  {
    ClonePointerPlace(clone, g);
    assert InParam(clone.params, |g.params|, k);
  }

  lemma BytesInFront(clone: Signature, g: Signature, src: seq<Byte>, comms: nat, k: nat)
    requires Rewritable(clone, g, src) && k < HiddenStart(g)
    ensures k < |src| && k < SegmentSize(clone) && CloneSegmentOf(clone, g, src, comms)[k] == src[k]
  {
    CloneSegmentParts(clone, g, src, comms);
    assert src[..HiddenStart(g)][k] == src[k];
  }

  lemma BytesBehind(clone: Signature, g: Signature, src: seq<Byte>, comms: nat, k: nat)
    requires Rewritable(clone, g, src) && HiddenStart(g) <= k < HiddenStart(g) + HiddenCopied(g)
    ensures k < |src| && k + POINTER_SIZE < SegmentSize(clone)
    ensures CloneSegmentOf(clone, g, src, comms)[k + POINTER_SIZE] == src[k]
  {
    CloneSegmentParts(clone, g, src, comms);
    var start, h := HiddenStart(g), HiddenCopied(g);
    assert src[start..start + h][k - start] == src[k];
  }

  /**
   * All bytes of the clone's segment outside its arguments are zero exactly when, in what is
   * copied of the original's segment, all bytes outside its arguments are.
   */
  lemma OtherBytesAreZero(clone: Signature, g: Signature, src: seq<Byte>, comms: nat)
    requires Rewritable(clone, g, src)
    ensures HiddenStart(g) + HiddenCopied(g) <= |src|
    ensures PaddingIsZero(clone, CloneSegmentOf(clone, g, src, comms), SegmentSize(clone)) <==>
            PaddingIsZero(g, src, HiddenStart(g) + HiddenCopied(g))
  {
    var s, start, h := CloneSegmentOf(clone, g, src, comms), HiddenStart(g), HiddenCopied(g);
    CloneSegmentParts(clone, g, src, comms);
    if PaddingIsZero(g, src, start + h) {
      forall k: nat | k < SegmentSize(clone) && IsPadding(clone, k) ensures s[k] == 0 {
        CloneByteIsZero(clone, g, src, comms, k);
      }
    }
    if PaddingIsZero(clone, s, SegmentSize(clone)) {
      forall k: nat | k < start + h && IsPadding(g, k) ensures src[k] == 0 {
        SourceByteIsZero(clone, g, src, comms, k);
      }
    }
  }

  lemma CloneByteIsZero(clone: Signature, g: Signature, src: seq<Byte>, comms: nat, k: nat)
    requires Rewritable(clone, g, src) && HiddenStart(g) + HiddenCopied(g) <= |src|
    requires PaddingIsZero(g, src, HiddenStart(g) + HiddenCopied(g))
    requires k < SegmentSize(clone) && IsPadding(clone, k)
    ensures CloneSegmentOf(clone, g, src, comms)[k] == 0
  {
    ClonePointerPlace(clone, g);
    if k < HiddenStart(g) {
      SamePaddingInFront(clone, g, k);
      BytesInFront(clone, g, src, comms, k);
    } else if k < HiddenStart(clone) {
      PointerIsNoPadding(clone, g, k);
    } else if k < HiddenStart(clone) + HiddenCopied(g) {
      SamePaddingBehind(clone, g, k - POINTER_SIZE);
      BytesBehind(clone, g, src, comms, k - POINTER_SIZE);
    } else {
      RestIsZero(clone, g, src, comms, k);
    }
  }

  lemma SourceByteIsZero(clone: Signature, g: Signature, src: seq<Byte>, comms: nat, k: nat)
    requires Rewritable(clone, g, src)
    requires PaddingIsZero(clone, CloneSegmentOf(clone, g, src, comms), SegmentSize(clone))
    requires k < HiddenStart(g) + HiddenCopied(g) && IsPadding(g, k)
    ensures k < |src| && src[k] == 0
  {
    if k < HiddenStart(g) {
      BytesInFront(clone, g, src, comms, k);
      SamePaddingInFront(clone, g, k);
    } else {
      BytesBehind(clone, g, src, comms, k);
      SamePaddingBehind(clone, g, k);
    }
  }

  /** A kernel with a byte and a dword: the second byte of its segment is padding. */
  const BYTE_AND_DWORD: Signature :=
    Signature([Param("by_value", 1, 0), Param("by_value", 4, 2)], [], 0, 0, 0)

  const BYTE_AND_DWORD_CLONE: Signature :=
    Signature([Param("by_value", 1, 0), Param("by_value", 4, 2), COMMS_PARAM], [], 0, 0, 0)

  lemma ExampleIsWellFormed()
    ensures WellFormed(BYTE_AND_DWORD) && WellFormed(BYTE_AND_DWORD_CLONE)
    ensures IsCloneOf(BYTE_AND_DWORD_CLONE, BYTE_AND_DWORD)
  {
    assert HIDDEN[0] == 'h' && |HIDDEN| == 7;
    assert "by_value"[..7][0] == 'b' && "global_buffer"[..7][0] == 'g';
  }

  const ONE_HIDDEN: Signature := Signature([], [Hidden("hidden_block_count_x", 0, 4)], 4, 0, 0)

  const ONE_HIDDEN_CLONE: Signature := ONE_HIDDEN.(params := [COMMS_PARAM])

  /** For one kernel: its only hidden argument is not copied. */
  lemma HiddenArgumentIsDropped()
    ensures WellFormed(ONE_HIDDEN) && WellFormed(ONE_HIDDEN_CLONE) && IsCloneOf(ONE_HIDDEN_CLONE, ONE_HIDDEN)
    ensures var args := map[InstrumentedName("k") := Describe(MetadataOf(ONE_HIDDEN_CLONE))];
            var found := Lookup(args, "k", true);
            found.Some? && found.value.cloneHiddenLength == 0
            && UsedDescriptor(ONE_HIDDEN_CLONE, ONE_HIDDEN).cloneHiddenLength == 4
  {
    assert HIDDEN[0] == 'h' && "hidden_block_count_x"[..|HIDDEN|] == HIDDEN;
    assert "global_buffer"[..7][0] == 'g';
    HiddenArgumentsDropped("k", ONE_HIDDEN_CLONE, ONE_HIDDEN);
  }

  /** Padding that is not zero in the source arrives in the clone's segment. */
  lemma PaddingArrives(comms: nat)
    ensures var g, clone, src := BYTE_AND_DWORD, BYTE_AND_DWORD_CLONE, [7, 255, 0, 0, 1, 0, 0, 0];
            && Rewritable(clone, g, src) && IsPadding(clone, 1) && 1 < SegmentSize(clone)
            && CloneSegmentOf(clone, g, src, comms)[1] == 255
  {
    var g, clone, src: seq<Byte> := BYTE_AND_DWORD, BYTE_AND_DWORD_CLONE, [7, 255, 0, 0, 1, 0, 0, 0];
    ExampleIsWellFormed();
    assert ParamsEnd(g.params, 1) == 1 && ParamOffset(g.params, 1) == 4 && ParamsEnd(g.params, 2) == 8;
    assert HiddenStart(g) == 8 && SegmentSize(g) == 8;
    BytesInFront(clone, g, src, comms, 1);
    SamePaddingInFront(clone, g, 1);
    forall i: nat | i < |g.params| ensures !InParam(g.params, i, 1) {
      assert i == 0 || i == 1;
    }
  }
}
