// L2 cache lines of one global memory message (src/memory_analysis_handler.cc):
// the number of lines used, the number said to be needed, and how the two compare.
module CacheLines {
  import opened FiniteSets
  import opened Words

  /** Index of the line that byte `address` lies on. */
  function LineOf(address: nat, lineSize: nat): nat
    requires lineSize > 0
  {
    address / lineSize
  }

  /** Last byte of an access, in the wrapping 64-bit arithmetic of the handler. */
  function LastByte(address: nat, size: nat): nat {
    (address + size + (TWO_64 - 1)) % TWO_64
  }

  /** The lines between the first and the last byte of one access; none when the last byte wrapped below. */
  function LinesOfAccess(address: nat, size: nat, lineSize: nat): set<nat>
    requires lineSize > 0
  {
    Interval(LineOf(address, lineSize), LineOf(LastByte(address, size), lineSize) + 1)
  }

  function LinesOf(addresses: seq<nat>, size: nat, lineSize: nat): set<nat>
    requires lineSize > 0
  {
    if addresses == [] then {}
    else
      var n := |addresses| - 1;
      LinesOf(addresses[..n], size, lineSize) + LinesOfAccess(addresses[n], size, lineSize)
  }

  function LinesNeeded(lanes: nat, size: nat, lineSize: nat): nat
    requires lineSize > 0
  {
    RoundedUp(lanes * size, lineSize)
  }

  function RoundedUp(bytes: nat, lineSize: nat): nat
    requires lineSize > 0
  {
    (bytes + lineSize - 1) / lineSize
  }

  /** The inner loop: every line from that of the first byte to that of the last. */
  method InsertLines(before: set<nat>, first: nat, last: nat) returns (lines: set<nat>)
    ensures lines == before + Interval(first, last + 1)
  {
    lines := before;
    var line := first;
    while line <= last
      invariant first <= line && (first <= last ==> line <= last + 1) && (last < first ==> line == first)
      invariant lines == before + Interval(first, line)
    {
      lines := lines + {line};
      line := line + 1;
    }
  }

  method CollectLines(addresses: seq<nat>, size: nat, lineSize: nat) returns (lines: set<nat>)
    requires lineSize > 0
    ensures lines == LinesOf(addresses, size, lineSize)
  {
    lines := {};
    for i := 0 to |addresses|
      invariant lines == LinesOf(addresses[..i], size, lineSize)
    {
      var first := LineOf(addresses[i], lineSize);
      var last := LineOf(LastByte(addresses[i], size), lineSize);
      lines := InsertLines(lines, first, last);
      assert addresses[..i + 1][..i] == addresses[..i];
    }
    assert addresses[..|addresses|] == addresses;
  }

  // -------------------------------------------------------------------------
  // The bytes behind the lines
  // -------------------------------------------------------------------------

  /** Every access has a size and ends inside the 64-bit address space. */
  ghost predicate InAddressSpace(addresses: seq<nat>, size: nat) {
    size > 0 && forall i | 0 <= i < |addresses| :: addresses[i] + size <= TWO_64
  }

  function BytesOf(addresses: seq<nat>, size: nat): set<nat> {
    if addresses == [] then {}
    else
      var n := |addresses| - 1;
      BytesOf(addresses[..n], size) + Interval(addresses[n], addresses[n] + size)
  }

  ghost predicate Disjoint(addresses: seq<nat>, size: nat) {
    forall i, j | 0 <= i < j < |addresses| ::
      addresses[i] + size <= addresses[j] || addresses[j] + size <= addresses[i]
  }

  /** The lines that a set of bytes lies on. */
  function LinesUnder(bytes: set<nat>, lineSize: nat): set<nat>
    requires lineSize > 0
  {
    set b | b in bytes :: LineOf(b, lineSize)
  }

  lemma ProductAtLeast(k: int, n: nat)
    requires k >= 1
    ensures k * n >= n
  {
  }

  lemma QuotientIsUnique(x: nat, q: nat, m: nat, lineSize: nat)
    requires lineSize > 0 && x == q * lineSize + m && m < lineSize
    ensures x / lineSize == q && x % lineSize == m
  {
    var e := q - x / lineSize;
    assert e * lineSize == x % lineSize - m;
    if e >= 1 {
      ProductAtLeast(e, lineSize);
    } else if e <= -1 {
      ProductAtLeast(-e, lineSize);
    }
  }

  lemma LineOfIsMonotone(a: nat, b: nat, lineSize: nat)
    requires lineSize > 0 && a <= b
    ensures LineOf(a, lineSize) <= LineOf(b, lineSize)
  {
    var e := LineOf(a, lineSize) - LineOf(b, lineSize);
    assert e * lineSize == a - a % lineSize - (b - b % lineSize);
    if e >= 1 {
      ProductAtLeast(e, lineSize);
    }
  }

  /** Every line between those of the first and the last byte holds a byte of the run. */
  lemma ByteOnLine(lo: nat, hi: nat, line: nat, lineSize: nat) returns (b: nat)
    requires lineSize > 0 && lo < hi
    requires LineOf(lo, lineSize) <= line <= LineOf(hi - 1, lineSize)
    ensures lo <= b < hi && LineOf(b, lineSize) == line
  {
    if line == LineOf(lo, lineSize) {
      b := lo;
    } else if line == LineOf(hi - 1, lineSize) {
      b := hi - 1;
    } else {
      b := line * lineSize;
      QuotientIsUnique(b, line, 0, lineSize);
      if b < lo {
        LineOfIsMonotone(b, lo, lineSize);
      } else if hi <= b {
        LineOfIsMonotone(hi - 1, b, lineSize);
      }
    }
  }

  /** A contiguous run of bytes lies on the lines from that of its first byte to that of its last. */
  lemma LinesUnderInterval(lo: nat, hi: nat, lineSize: nat)
    requires lineSize > 0 && lo < hi
    ensures LinesUnder(Interval(lo, hi), lineSize) == Interval(LineOf(lo, lineSize), LineOf(hi - 1, lineSize) + 1)
  {
    var lines := LinesUnder(Interval(lo, hi), lineSize);
    var range := Interval(LineOf(lo, lineSize), LineOf(hi - 1, lineSize) + 1);
    forall l | l in lines ensures l in range {
      var b :| b in Interval(lo, hi) && l == LineOf(b, lineSize);
      LineOfIsMonotone(lo, b, lineSize);
      LineOfIsMonotone(b, hi - 1, lineSize);
    }
    forall l | l in range ensures l in lines {
      var b := ByteOnLine(lo, hi, l, lineSize);
      assert b in Interval(lo, hi);
    }
  }

  lemma LinesOfOneAccess(address: nat, size: nat, lineSize: nat)
    requires lineSize > 0 && size > 0 && address + size <= TWO_64
    ensures LinesOfAccess(address, size, lineSize) == LinesUnder(Interval(address, address + size), lineSize)
  {
    assert LastByte(address, size) == address + size - 1;
    LinesUnderInterval(address, address + size, lineSize);
  }

  lemma LinesUnderUnion(s: set<nat>, t: set<nat>, lineSize: nat)
    requires lineSize > 0
    ensures LinesUnder(s + t, lineSize) == LinesUnder(s, lineSize) + LinesUnder(t, lineSize)
  {
  }

  /** The lines counted are exactly those that hold a byte of some access. */
  lemma {:induction false} LinesAreByteLines(addresses: seq<nat>, size: nat, lineSize: nat)
    requires lineSize > 0 && InAddressSpace(addresses, size)
    ensures LinesOf(addresses, size, lineSize) == LinesUnder(BytesOf(addresses, size), lineSize)
  {
    if addresses != [] {
      var n := |addresses| - 1;
      LinesAreByteLines(addresses[..n], size, lineSize);
      LinesOfOneAccess(addresses[n], size, lineSize);
      LinesUnderUnion(BytesOf(addresses[..n], size), Interval(addresses[n], addresses[n] + size), lineSize);
    }
  }

  // -------------------------------------------------------------------------
  // Lower bound: disjoint accesses cannot be packed tighter
  // -------------------------------------------------------------------------

  lemma ByteAboveLineStart(b: nat, lineSize: nat)
    requires lineSize > 0
    ensures LineOf(b, lineSize) * lineSize <= b < LineOf(b, lineSize) * lineSize + lineSize
  {
  }

  lemma BytesOnOneLine(bytes: set<nat>, line: nat, lineSize: nat)
    requires lineSize > 0
    requires forall b | b in bytes :: LineOf(b, lineSize) == line
    ensures |bytes| <= lineSize
  {
    var first := line * lineSize;
    forall b | b in bytes ensures b in Interval(first, first + lineSize) {
      ByteAboveLineStart(b, lineSize);
    }
    IntervalSize(first, first + lineSize);
    SubsetSize(bytes, Interval(first, first + lineSize));
  }

  /** The bytes that lie on one line. */
  function BytesOn(bytes: set<nat>, line: nat, lineSize: nat): set<nat>
    requires lineSize > 0
  {
    set b | b in bytes && LineOf(b, lineSize) == line
  }

  lemma WithoutLine(bytes: set<nat>, line: nat, lineSize: nat)
    requires lineSize > 0 && line in LinesUnder(bytes, lineSize)
    ensures LinesUnder(bytes - BytesOn(bytes, line, lineSize), lineSize) == LinesUnder(bytes, lineSize) - {line}
    ensures |bytes| == |BytesOn(bytes, line, lineSize)| + |bytes - BytesOn(bytes, line, lineSize)|
  {
    var here := BytesOn(bytes, line, lineSize);
    assert bytes == here + (bytes - here);
  }

  lemma OneFewer(k: nat, n: nat)
    requires k > 0
    ensures k * n == (k - 1) * n + n
  {
  }

  lemma {:induction false} LinesHoldBytes(bytes: set<nat>, lineSize: nat)
    requires lineSize > 0
    ensures |bytes| <= |LinesUnder(bytes, lineSize)| * lineSize
    decreases |LinesUnder(bytes, lineSize)|
  {
    if bytes != {} {
      var x :| x in bytes;
      var line := LineOf(x, lineSize);
      assert line in LinesUnder(bytes, lineSize);
      WithoutLine(bytes, line, lineSize);
      BytesOnOneLine(BytesOn(bytes, line, lineSize), line, lineSize);
      LinesHoldBytes(bytes - BytesOn(bytes, line, lineSize), lineSize);
      OneFewer(|LinesUnder(bytes, lineSize)|, lineSize);
    }
  }

  lemma {:induction false} BytesInSomeAccess(addresses: seq<nat>, size: nat, b: nat)
    requires b in BytesOf(addresses, size)
    ensures exists i :: 0 <= i < |addresses| && addresses[i] <= b < addresses[i] + size
  {
    var n := |addresses| - 1;
    if b in BytesOf(addresses[..n], size) {
      BytesInSomeAccess(addresses[..n], size, b);
      var i :| 0 <= i < n && addresses[..n][i] <= b < addresses[..n][i] + size;
      assert addresses[i] <= b < addresses[i] + size;
    } else {
      assert b in Interval(addresses[n], addresses[n] + size);
    }
  }

  lemma LastAccessIsApart(addresses: seq<nat>, size: nat)
    requires addresses != [] && Disjoint(addresses, size)
    ensures var n := |addresses| - 1;
            BytesOf(addresses[..n], size) !! Interval(addresses[n], addresses[n] + size)
  {
    var n := |addresses| - 1;
    forall b | b in BytesOf(addresses[..n], size) ensures b !in Interval(addresses[n], addresses[n] + size) {
      BytesInSomeAccess(addresses[..n], size, b);
      var i :| 0 <= i < n && addresses[..n][i] <= b < addresses[..n][i] + size;
      assert addresses[i] + size <= addresses[n] || addresses[n] + size <= addresses[i];
    }
  }

  /** n * size as a repeated sum. */
  function TotalBytes(n: nat, size: nat): nat {
    if n == 0 then 0 else TotalBytes(n - 1, size) + size
  }

  lemma {:induction false} TotalIsProduct(n: nat, size: nat)
    ensures TotalBytes(n, size) == n * size
  {
    if n > 0 {
      TotalIsProduct(n - 1, size);
    }
  }

  lemma {:induction false} DisjointByteCount(addresses: seq<nat>, size: nat)
    requires Disjoint(addresses, size)
    ensures |BytesOf(addresses, size)| == TotalBytes(|addresses|, size)
  {
    if addresses != [] {
      var n := |addresses| - 1;
      DisjointByteCount(addresses[..n], size);
      LastAccessIsApart(addresses, size);
      IntervalSize(addresses[n], addresses[n] + size);
    }
  }

  /** The least k with k * lineSize >= bytes, so LinesNeeded is the packing bound. */
  lemma CeilingDivision(bytes: nat, lineSize: nat, k: nat)
    requires lineSize > 0
    ensures RoundedUp(bytes, lineSize) <= k <==> bytes <= k * lineSize
  {
    var c := (bytes + lineSize - 1) / lineSize;
    var r := (bytes + lineSize - 1) % lineSize;
    assert bytes + lineSize - 1 == c * lineSize + r;
    if c <= k {
      assert c * lineSize <= k * lineSize;
    } else {
      assert (k + 1) * lineSize <= c * lineSize;
      assert (k + 1) * lineSize == k * lineSize + lineSize;
    }
  }

  lemma PackingBound(bytes: set<nat>, lineSize: nat)
    requires lineSize > 0
    ensures RoundedUp(|bytes|, lineSize) <= |LinesUnder(bytes, lineSize)|
  {
    LinesHoldBytes(bytes, lineSize);
    CeilingDivision(|bytes|, lineSize, |LinesUnder(bytes, lineSize)|);
  }

  lemma DisjointUseAtLeastNeeded(addresses: seq<nat>, size: nat, lineSize: nat)
    requires lineSize > 0 && InAddressSpace(addresses, size) && Disjoint(addresses, size)
    ensures |LinesOf(addresses, size, lineSize)| >= LinesNeeded(|addresses|, size, lineSize)
  {
    DisjointByteCount(addresses, size);
    TotalIsProduct(|addresses|, size);
    PackingBound(BytesOf(addresses, size), lineSize);
    LinesAreByteLines(addresses, size, lineSize);
  }

  /** Lanes that share an address use one line while several are said to be needed. */
  lemma SharedAddressUsesFewerThanNeeded()
    ensures exists addresses: seq<nat>, size, lineSize: nat ::
              && lineSize > 0 && InAddressSpace(addresses, size)
              && |LinesOf(addresses, size, lineSize)| < LinesNeeded(|addresses|, size, lineSize)
  {
    var addresses: seq<nat> := seq(64, _ => 0);
    assert InAddressSpace(addresses, 4);
    var bytes := BytesOf(addresses, 4);
    forall b | b in bytes ensures LineOf(b, 64) == 0 {
      BytesInSomeAccess(addresses, 4, b);
    }
    LinesAreByteLines(addresses, 4, 64);
    SubsetSize(LinesOf(addresses, 4, 64), {0});
    assert LinesNeeded(|addresses|, 4, 64) == 4;
  }

  lemma {:induction false} AccessBytes(addresses: seq<nat>, size: nat, i: nat, b: nat)
    requires i < |addresses| && addresses[i] <= b < addresses[i] + size
    ensures b in BytesOf(addresses, size)
  {
    var n := |addresses| - 1;
    if i < n {
      AccessBytes(addresses[..n], size, i, b);
    }
  }

  lemma UnionSize(s: set<nat>, t: set<nat>)
    ensures |s + t| == |s| + |t| - |s * t|
  {
    assert s + t == s + (t - s) && t == (t - s) + (s * t);
  }

  /** The last access overlaps an earlier one. */
  lemma OverlapIsNotEmpty(addresses: seq<nat>, size: nat, i: nat)
    requires size > 0 && i < |addresses| - 1
    requires addresses[i] < addresses[|addresses| - 1] + size && addresses[|addresses| - 1] < addresses[i] + size
    ensures |BytesOf(addresses[..|addresses| - 1], size) * Interval(addresses[|addresses| - 1], addresses[|addresses| - 1] + size)| > 0
  {
    var n := |addresses| - 1;
    var b := if addresses[i] < addresses[n] then addresses[n] else addresses[i];
    AccessBytes(addresses[..n], size, i, b);
    assert b in BytesOf(addresses[..n], size) * Interval(addresses[n], addresses[n] + size);
  }

  /** There are as many bytes as lanes and sizes call for exactly when no two accesses overlap. */
  lemma {:induction false} OverlapLosesBytes(addresses: seq<nat>, size: nat)
    requires size > 0
    ensures |BytesOf(addresses, size)| <= TotalBytes(|addresses|, size)
    ensures |BytesOf(addresses, size)| == TotalBytes(|addresses|, size) ==> Disjoint(addresses, size)
  {
    if addresses != [] {
      var n := |addresses| - 1;
      var earlier, last := BytesOf(addresses[..n], size), Interval(addresses[n], addresses[n] + size);
      OverlapLosesBytes(addresses[..n], size);
      UnionSize(earlier, last);
      IntervalSize(addresses[n], addresses[n] + size);
      if |BytesOf(addresses, size)| == TotalBytes(|addresses|, size) {
        forall i, j | 0 <= i < j < |addresses|
          ensures addresses[i] + size <= addresses[j] || addresses[j] + size <= addresses[i]
        {
          if j < n {
            assert addresses[..n][i] == addresses[i] && addresses[..n][j] == addresses[j];
          } else if addresses[i] < addresses[n] + size && addresses[n] < addresses[i] + size {
            OverlapIsNotEmpty(addresses, size, i);
          }
        }
      }
    }
  }

  /** Lines of a single byte are the bytes themselves. */
  lemma LinesOfOneByte(addresses: seq<nat>, size: nat)
    requires InAddressSpace(addresses, size)
    ensures LinesOf(addresses, size, 1) == BytesOf(addresses, size)
    ensures LinesNeeded(|addresses|, size, 1) == TotalBytes(|addresses|, size)
  {
    LinesAreByteLines(addresses, size, 1);
    TotalIsProduct(|addresses|, size);
    var bytes := BytesOf(addresses, size);
    assert forall b | b in bytes :: LineOf(b, 1) == b;
    assert LinesUnder(bytes, 1) == bytes;
  }

  /** The lines used reach the lines needed, whatever the line size, exactly when no two accesses overlap. */
  lemma NeededIsALowerBound(addresses: seq<nat>, size: nat)
    requires InAddressSpace(addresses, size)
    ensures (forall lineSize: nat | lineSize > 0 ::
               |LinesOf(addresses, size, lineSize)| >= LinesNeeded(|addresses|, size, lineSize)) <==>
            Disjoint(addresses, size)
  {
    if Disjoint(addresses, size) {
      forall lineSize: nat | lineSize > 0
        ensures |LinesOf(addresses, size, lineSize)| >= LinesNeeded(|addresses|, size, lineSize)
      {
        DisjointUseAtLeastNeeded(addresses, size, lineSize);
      }
    }
    if forall lineSize: nat | lineSize > 0 ::
         |LinesOf(addresses, size, lineSize)| >= LinesNeeded(|addresses|, size, lineSize)
    {
      assert |LinesOf(addresses, size, 1)| >= LinesNeeded(|addresses|, size, 1);
      LinesOfOneByte(addresses, size);
      OverlapLosesBytes(addresses, size);
    }
  }

  // -------------------------------------------------------------------------
  // Upper bound: accesses that tile one region
  // -------------------------------------------------------------------------

  /** In whatever order, the accesses cover exactly the region of their total size at `base`. */
  ghost predicate Tiles(addresses: seq<nat>, size: nat, base: nat) {
    addresses != [] && BytesOf(addresses, size) == Interval(base, base + |addresses| * size)
  }

  /** Adding n moves a byte on by the quotient of n, plus one line when the two remainders carry. */
  lemma LineAfter(base: nat, n: nat, lineSize: nat)
    requires lineSize > 0
    ensures LineOf(base + n, lineSize) ==
            LineOf(base, lineSize) + LineOf(n, lineSize) + if base % lineSize + n % lineSize < lineSize then 0 else 1
  {
    var q, r, c, m := base / lineSize, base % lineSize, n / lineSize, n % lineSize;
    assert (q + c) * lineSize == q * lineSize + c * lineSize;
    if r + m < lineSize {
      QuotientIsUnique(base + n, q + c, r + m, lineSize);
    } else {
      assert (q + c + 1) * lineSize == (q + c) * lineSize + lineSize;
      QuotientIsUnique(base + n, q + c + 1, r + m - lineSize, lineSize);
    }
  }

  lemma CeilingOfPositive(total: nat, lineSize: nat)
    requires lineSize > 0 && total >= 1
    ensures RoundedUp(total, lineSize) == LineOf(total - 1, lineSize) + 1
  {
    var c, m := (total - 1) / lineSize, (total - 1) % lineSize;
    assert (c + 1) * lineSize == c * lineSize + lineSize;
    QuotientIsUnique(total + lineSize - 1, c + 1, m, lineSize);
  }

  lemma TiledLines(addresses: seq<nat>, size: nat, lineSize: nat, base: nat, total: nat)
    requires lineSize > 0 && InAddressSpace(addresses, size)
    requires total >= 1 && BytesOf(addresses, size) == Interval(base, base + total)
    ensures |LinesOf(addresses, size, lineSize)| == LineOf(base + total - 1, lineSize) + 1 - LineOf(base, lineSize)
  {
    LinesAreByteLines(addresses, size, lineSize);
    LinesUnderInterval(base, base + total, lineSize);
    LineOfIsMonotone(base, base + total - 1, lineSize);
    IntervalSize(LineOf(base, lineSize), LineOf(base + total - 1, lineSize) + 1);
  }

  /** A tiled region uses the needed lines, plus one exactly when its start offset spills over a boundary. */
  lemma TiledUse(addresses: seq<nat>, size: nat, lineSize: nat, base: nat)
    requires lineSize > 0 && InAddressSpace(addresses, size) && Tiles(addresses, size, base)
    ensures var used, needed := |LinesOf(addresses, size, lineSize)|, LinesNeeded(|addresses|, size, lineSize);
            && needed <= used <= needed + 1
            && (used == needed <==> base % lineSize + (|addresses| * size - 1) % lineSize < lineSize)
            && (base % lineSize == 0 ==> used == needed)
  {
    var total := |addresses| * size;
    ProductAtLeast(|addresses|, size);
    TiledLines(addresses, size, lineSize, base, total);
    CeilingOfPositive(total, lineSize);
    LineAfter(base, total - 1, lineSize);
  }
}
