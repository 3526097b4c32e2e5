// LDS bank conflicts: the conflict_set class of src/memory_analysis_handler.cc,
// and what its count means in terms of memory requests.
module BankConflicts {
  import opened FiniteSets

  const NO_BANKS: nat := 32
  const DWORD_SIZE: nat := 4

  // -------------------------------------------------------------------------
  // The count as a function of the registered dwords
  // -------------------------------------------------------------------------

  /** The dwords of `dwords` that live on bank `b`. */
  function OnBank(dwords: set<nat>, b: nat): set<nat> {
    set d | d in dwords && d % NO_BANKS == b
  }

  /** The largest number of different dwords on one of the banks below `n`, and at least one. */
  function Busiest(dwords: set<nat>, n: nat): (m: nat)
    ensures m >= 1
    ensures forall b: nat | b < n :: |OnBank(dwords, b)| <= m
    ensures m == 1 || exists b: nat :: b < n && m == |OnBank(dwords, b)|
  {
    if n == 0 then 1
    else
      var m := Busiest(dwords, n - 1);
      if m < |OnBank(dwords, n - 1)| then |OnBank(dwords, n - 1)| else m
  }

  function ConflictCount(dwords: set<nat>): nat {
    Busiest(dwords, NO_BANKS) - 1
  }

  lemma NothingConflicts()
    ensures ConflictCount({}) == 0
  {
    forall b: nat ensures OnBank({}, b) == {} {
    }
  }

  /** There are 32 banks. */
  lemma PairConflicts(d: nat, e: nat)
    ensures ConflictCount({d, e}) == if d != e && d % 32 == e % 32 then 1 else 0
  {
    forall b: nat ensures |OnBank({d, e}, b)| == if d != e && d % 32 == b && e % 32 == b then 2
                                                else if d % 32 == b || e % 32 == b then 1 else 0
    {
      if d != e && d % 32 == b && e % 32 == b {
        assert OnBank({d, e}, b) == {d, e};
      } else if d % 32 == b {
        assert OnBank({d, e}, b) == {d};
      } else if e % 32 == b {
        assert OnBank({d, e}, b) == {e};
      } else {
        assert OnBank({d, e}, b) == {};
      }
    }
    assert |OnBank({d, e}, d % 32)| <= Busiest({d, e}, NO_BANKS);
  }

  // -------------------------------------------------------------------------
  // Schedules of memory requests: the definition the count stands in for
  // -------------------------------------------------------------------------

  /** One request serves at most one dword per bank. */
  ghost predicate ConflictFree(request: set<nat>) {
    forall d, e | d in request && e in request && d % NO_BANKS == e % NO_BANKS :: d == e
  }

  ghost predicate Serves(schedule: seq<set<nat>>, dwords: set<nat>) {
    && (forall i | 0 <= i < |schedule| :: ConflictFree(schedule[i]))
    && (forall d | d in dwords :: exists i :: 0 <= i < |schedule| && d in schedule[i])
  }

  lemma {:induction false} OneRequestPerDwordOfABank(schedule: seq<set<nat>>, dwords: set<nat>, b: nat)
    requires Serves(schedule, dwords)
    ensures |OnBank(dwords, b)| <= |schedule|
    decreases |schedule|
  {
    if schedule == [] {
      assert OnBank(dwords, b) == {};
    } else {
      var n := |schedule| - 1;
      var rest := dwords - schedule[n];
      forall d | d in rest ensures exists i :: 0 <= i < n && d in schedule[..n][i] {
        var i :| 0 <= i < |schedule| && d in schedule[i];
        assert schedule[..n][i] == schedule[i];
      }
      OneRequestPerDwordOfABank(schedule[..n], rest, b);
      if d :| d in OnBank(dwords, b) && d in schedule[n] {
        assert OnBank(dwords, b) <= OnBank(rest, b) + {d};
        SubsetSize(OnBank(dwords, b), OnBank(rest, b) + {d});
      } else {
        assert OnBank(dwords, b) == OnBank(rest, b);
      }
    }
  }

  /** No schedule is shorter than the count plus one. */
  lemma ScheduleLowerBound(schedule: seq<set<nat>>, dwords: set<nat>)
    requires Serves(schedule, dwords)
    requires dwords != {}
    ensures |schedule| >= ConflictCount(dwords) + 1
  {
    var m := Busiest(dwords, NO_BANKS);
    if m == 1 {
      var d :| d in dwords;
      var i :| 0 <= i < |schedule| && d in schedule[i];
    } else {
      var b: nat :| b < NO_BANKS && m == |OnBank(dwords, b)|;
      OneRequestPerDwordOfABank(schedule, dwords, b);
    }
  }

  ghost function Pick(s: set<nat>): (d: nat)
    requires s != {}
    ensures d in s
  {
    var d :| d in s; d
  }

  /** A request with one dword from every bank that still has some. */
  ghost function Request(dwords: set<nat>): (r: set<nat>)
    ensures r <= dwords && ConflictFree(r)
    ensures forall b: nat | b < NO_BANKS && OnBank(dwords, b) != {} :: Pick(OnBank(dwords, b)) in r
  {
    set b: nat | b < NO_BANKS && OnBank(dwords, b) != {} :: Pick(OnBank(dwords, b))
  }

  lemma BankIsNotEmpty(dwords: set<nat>, d: nat)
    requires d in dwords
    ensures |OnBank(dwords, d % NO_BANKS)| > 0
  {
    assert d in OnBank(dwords, d % NO_BANKS);
  }

  lemma {:induction false} ScheduleOfLength(dwords: set<nat>, k: nat) returns (schedule: seq<set<nat>>)
    requires forall b: nat | b < NO_BANKS :: |OnBank(dwords, b)| <= k
    ensures |schedule| == k && Serves(schedule, dwords)
  {
    if k == 0 {
      schedule := [];
      if d :| d in dwords {
        BankIsNotEmpty(dwords, d);
      }
    } else {
      var r := Request(dwords);
      forall b: nat | b < NO_BANKS ensures |OnBank(dwords - r, b)| <= k - 1 {
        if OnBank(dwords, b) == {} {
          assert OnBank(dwords - r, b) == {};
        } else {
          var p := Pick(OnBank(dwords, b));
          assert OnBank(dwords - r, b) <= OnBank(dwords, b) - {p};
          SubsetSize(OnBank(dwords - r, b), OnBank(dwords, b) - {p});
        }
      }
      var rest := ScheduleOfLength(dwords - r, k - 1);
      schedule := [r] + rest;
      assert Serves(rest, dwords - r);
      forall d | d in dwords ensures exists i :: 0 <= i < |schedule| && d in schedule[i] {
        if d in r {
          assert d in schedule[0];
        } else {
          assert d in dwords - r;
          var i :| 0 <= i < |rest| && d in rest[i];
          assert d in schedule[i + 1];
        }
      }
    }
  }

  /** A schedule of exactly the count plus one requests exists, so the lower bound is met. */
  lemma OptimalScheduleExists(dwords: set<nat>) returns (schedule: seq<set<nat>>)
    ensures Serves(schedule, dwords)
    ensures |schedule| == ConflictCount(dwords) + 1
  {
    schedule := ScheduleOfLength(dwords, ConflictCount(dwords) + 1);
  }

  // -------------------------------------------------------------------------
  // Registering only the first dword of each access
  // -------------------------------------------------------------------------

  predicate SupportedSize(size: nat) {
    size in {1, 2, 4, 8, 16}
  }

  function FirstDwords(addresses: set<nat>): set<nat> {
    set a | a in addresses :: a / DWORD_SIZE
  }

  /** Every dword that a byte of one of the accesses lies in. */
  function TouchedDwords(addresses: set<nat>, size: nat): set<nat> {
    set a, k | a in addresses && k in Interval(0, size) :: (a + k) / DWORD_SIZE
  }

  /** Some bank of `t` holds at least as many dwords as bank `b` of `s`. */
  ghost predicate Dominated(s: set<nat>, b: nat, t: set<nat>) {
    exists c: nat :: c < NO_BANKS && |OnBank(s, b)| <= |OnBank(t, c)|
  }

  lemma BusiestIsMonotone(s: set<nat>, t: set<nat>)
    requires forall b: nat | b < NO_BANKS :: Dominated(s, b, t)
    ensures Busiest(s, NO_BANKS) <= Busiest(t, NO_BANKS)
  {
    var m := Busiest(s, NO_BANKS);
    if m > 1 {
      var b: nat :| b < NO_BANKS && m == |OnBank(s, b)|;
      assert Dominated(s, b, t);
    }
  }

  /** Which dword of an aligned access of `size` bytes bank `b` holds. */
  function DwordIndex(b: nat, size: nat): (k: nat)
    ensures k <= b
  {
    if size == 16 then b % 4 else if size == 8 then b % 2 else 0
  }

  lemma RemainderIs(x: nat, h: nat, r: nat)
    requires x == NO_BANKS * h + r && r < NO_BANKS
    ensures x % NO_BANKS == r
  {
  }

  lemma BankInPair(q: nat, j: nat)
    requires j < 2
    ensures (2 * q + j) % NO_BANKS == (2 * q) % NO_BANKS + j
    ensures (2 * q + j) % NO_BANKS % 2 == j
  {
    var h, r := q / 16, q % 16;
    RemainderIs(2 * q + j, h, 2 * r + j);
    RemainderIs(2 * q, h, 2 * r);
  }

  lemma BankInQuad(q: nat, j: nat)
    requires j < 4
    ensures (4 * q + j) % NO_BANKS == (4 * q) % NO_BANKS + j
    ensures (4 * q + j) % NO_BANKS % 4 == j
  {
    var h, r := q / 8, q % 8;
    RemainderIs(4 * q + j, h, 4 * r + j);
    RemainderIs(4 * q, h, 4 * r);
  }

  /** The touched dword `d` lies `j` above the first dword of its access. */
  predicate OffsetInGroup(a: nat, d: nat, j: nat) {
    && d == a / DWORD_SIZE + j
    && d % NO_BANKS == (a / DWORD_SIZE) % NO_BANKS + j
  }

  lemma OffsetOfPair(a: nat, k: nat)
    requires a % 8 == 0 && k < 8
    ensures var d := (a + k) / DWORD_SIZE; OffsetInGroup(a, d, d % NO_BANKS % 2)
  {
    var q := a / 8;
    assert a / 4 == 2 * q && (a + k) / 4 == 2 * q + k / 4;
    BankInPair(q, k / 4);
  }

  lemma OffsetOfQuad(a: nat, k: nat)
    requires a % 16 == 0 && k < 16
    ensures var d := (a + k) / DWORD_SIZE; OffsetInGroup(a, d, d % NO_BANKS % 4)
  {
    var q := a / 16;
    assert a / 4 == 4 * q && (a + k) / 4 == 4 * q + k / 4;
    BankInQuad(q, k / 4);
  }

  lemma TouchedDwordOffset(a: nat, k: nat, size: nat)
    requires SupportedSize(size) && a % size == 0 && k < size
    ensures var d := (a + k) / DWORD_SIZE; OffsetInGroup(a, d, DwordIndex(d % NO_BANKS, size))
  {
    if size == 16 {
      OffsetOfQuad(a, k);
    } else if size == 8 {
      OffsetOfPair(a, k);
    } else {
      assert (a + k) / 4 == a / 4;
    }
  }

  lemma FirstDwordIsTouched(addresses: set<nat>, size: nat)
    requires size > 0
    ensures FirstDwords(addresses) <= TouchedDwords(addresses, size)
  {
    forall d | d in FirstDwords(addresses) ensures d in TouchedDwords(addresses, size) {
      var a :| a in addresses && d == a / DWORD_SIZE;
      assert 0 in Interval(0, size) && (a + 0) / DWORD_SIZE == d;
    }
  }

  /** Bank b sees at most as many touched dwords as the bank of the first dwords below it. */
  lemma TouchedBankHasFirstBank(addresses: set<nat>, size: nat, b: nat)
    requires SupportedSize(size) && b < NO_BANKS
    requires forall a | a in addresses :: a % size == 0
    ensures Dominated(TouchedDwords(addresses, size), b, FirstDwords(addresses))
  {
    var k := DwordIndex(b, size);
    forall d | d in OnBank(TouchedDwords(addresses, size), b)
      ensures d >= k && d - k in OnBank(FirstDwords(addresses), b - k)
    {
      var a, j :| a in addresses && j in Interval(0, size) && d == (a + j) / DWORD_SIZE;
      TouchedDwordOffset(a, j, size);
      var f := a / DWORD_SIZE;
      assert f in OnBank(FirstDwords(addresses), b - k);
      assert d - k == f;
    }
    ShiftedSize(OnBank(TouchedDwords(addresses, size), b), k, OnBank(FirstDwords(addresses), b - k));
  }

  /** For naturally aligned accesses the first dwords alone give the same count as all touched dwords. */
  lemma FirstDwordIsEnough(addresses: set<nat>, size: nat)
    requires SupportedSize(size)
    requires forall a | a in addresses :: a % size == 0
    ensures ConflictCount(FirstDwords(addresses)) == ConflictCount(TouchedDwords(addresses, size))
  {
    var first := FirstDwords(addresses);
    var touched := TouchedDwords(addresses, size);
    FirstDwordIsTouched(addresses, size);
    forall b: nat | b < NO_BANKS ensures Dominated(first, b, touched) {
      assert OnBank(first, b) <= OnBank(touched, b);
      SubsetSize(OnBank(first, b), OnBank(touched, b));
    }
    BusiestIsMonotone(first, touched);
    forall b: nat | b < NO_BANKS ensures Dominated(touched, b, first) {
      TouchedBankHasFirstBank(addresses, size, b);
    }
    BusiestIsMonotone(touched, first);
  }

  // -------------------------------------------------------------------------
  // The class
  // -------------------------------------------------------------------------

  /** The lanes named by a list of [first, last) pairs. */
  function LanesOf(ranges: seq<(nat, nat)>): set<nat> {
    if ranges == [] then {}
    else
      var n := |ranges| - 1;
      LanesOf(ranges[..n]) + Interval(ranges[n].0, ranges[n].1)
  }

  method InsertRange(lanes: set<nat>, first: nat, end: nat) returns (r: set<nat>)
    requires first < end
    ensures r == lanes + Interval(first, end)
  {
    r := lanes;
    var i := first;
    while i != end
      invariant first <= i <= end
      invariant r == lanes + Interval(first, i)
      decreases end - i
    {
      r := r + {i};
      i := i + 1;
    }
  }

  method CollectLanes(ranges: seq<(nat, nat)>) returns (lanes: set<nat>)
    requires forall k | 0 <= k < |ranges| :: ranges[k].0 < ranges[k].1
    ensures lanes == LanesOf(ranges)
  {
    lanes := {};
    for k := 0 to |ranges|
      invariant lanes == LanesOf(ranges[..k])
    {
      lanes := InsertRange(lanes, ranges[k].0, ranges[k].1);
      assert ranges[..k + 1][..k] == ranges[..k];
    }
    assert ranges[..|ranges|] == ranges;
  }

  class ConflictSet {
    const lanes: set<nat>
    var banks: seq<set<nat>>
    // Which access size the set serves and its place among the sets of that size.
    ghost const size: nat
    ghost const place: nat

    ghost predicate Valid()
      reads this
    {
      && |banks| == NO_BANKS
      && forall b, d | 0 <= b < NO_BANKS && d in banks[b] :: d % NO_BANKS == b
    }

    /** The dwords registered since the last clear. */
    ghost function Dwords(): set<nat>
      requires Valid()
      reads this
    {
      set b, d | 0 <= b < NO_BANKS && d in banks[b] :: d
    }

    lemma BankContents(b: nat)
      requires Valid() && b < NO_BANKS
      ensures banks[b] == OnBank(Dwords(), b)
    {
      forall d | d in OnBank(Dwords(), b) ensures d in banks[b] {
        var c, e :| 0 <= c < NO_BANKS && e in banks[c] && e == d;
      }
    }

    constructor (ranges: seq<(nat, nat)>, ghost size: nat, ghost place: nat)
      requires forall k | 0 <= k < |ranges| :: ranges[k].0 < ranges[k].1
      ensures Valid() && Dwords() == {} && lanes == LanesOf(ranges)
      ensures this.size == size && this.place == place
    {
      var collected := CollectLanes(ranges);
      lanes := collected;
      this.size, this.place := size, place;
      banks := seq(NO_BANKS, _ => {});
    }

    method RegisterAccess(lane: nat, address: nat) returns (registered: bool)
      requires Valid()
      modifies this
      ensures Valid()
      ensures registered == (lane in lanes)
      ensures Dwords() == old(Dwords()) + (if registered then {address / DWORD_SIZE} else {})
    {
      if lane !in lanes {
        return false;
      }
      var dword := address / DWORD_SIZE;
      var bank := dword % NO_BANKS;
      ghost var before := banks;
      banks := banks[bank := banks[bank] + {dword}];
      assert dword in banks[bank];
      forall d | d in old(Dwords()) ensures d in Dwords() {
        var b, e :| 0 <= b < NO_BANKS && e in before[b] && e == d;
        assert d in banks[b];
      }
      registered := true;
    }

    method BankConflictCount() returns (count: nat)
      requires Valid()
      ensures count == ConflictCount(Dwords())
    {
      var most := 1;
      for b := 0 to |banks|
        invariant most == Busiest(Dwords(), b)
      {
        BankContents(b);
        if most < |banks[b]| {
          most := |banks[b]|;
        }
      }
      count := most - 1;
    }

    method Clear()
      requires Valid()
      modifies this
      ensures Valid() && Dwords() == {}
    {
      for b := 0 to |banks|
        invariant |banks| == NO_BANKS
        invariant forall c | 0 <= c < b :: banks[c] == {}
        invariant forall c | b <= c < NO_BANKS :: banks[c] == old(banks[c])
      {
        banks := banks[b := {}];
      }
    }
  }
}
