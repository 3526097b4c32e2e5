// The memory analysis handler of src/memory_analysis_handler.cc: what one message
// contributes, how contributions are stored, and what is stored after a whole stream.
module MemoryAnalysis {
  import opened Text
  import opened Wrappers
  import opened BankConflicts
  import opened CacheLines
  import opened FiniteSets

  const NO_ISA_INSTRUCTION: nat := 0xffff

  datatype Space = Flat | Global | Gds | Shared | Constant | Scratch | Undefined

  datatype Dwarf = Dwarf(file: string, accessSize: nat)

  /** An address message: one lane id and one address per active lane, and the header fields. */
  datatype Message = Message(
    isAddress: bool, space: Space, kind: nat, size: nat,
    lanes: seq<nat>, addresses: seq<nat>,
    fileHash: nat, line: nat, column: nat,
    lineSize: nat, dwarf: Dwarf)

  datatype Location = Location(file: string, line: nat, column: nat)

  datatype AccessKey = AccessKey(irSize: nat, isaSize: nat, kind: nat)

  /** LDS entries use `conflicts`; global entries use `needed` and `used`. */
  datatype Amount = Amount(conflicts: nat, needed: nat, used: nat) {
    function Plus(other: Amount): (sum: Amount)
      ensures sum.conflicts == conflicts + other.conflicts
      ensures sum.needed == needed + other.needed && sum.used == used + other.used
    {
      Amount(conflicts + other.conflicts, needed + other.needed, used + other.used)
    }
  }

  datatype Entry = Entry(key: AccessKey, accesses: nat, amount: Amount)

  datatype Record = Record(location: Location, key: AccessKey, amount: Amount)

  /** What the sender guarantees: lane ids are the set bits of a 64-bit mask, one address for each. */
  ghost predicate WellFormed(m: Message) {
    && |m.lanes| == |m.addresses|
    && (forall i | 0 <= i < |m.lanes| :: m.lanes[i] < 64)
    && (forall i, j | 0 <= i < j < |m.lanes| :: m.lanes[i] < m.lanes[j])
    && (m.space == Shared && SupportedSize(m.size) ==>
          forall i | 0 <= i < |m.addresses| :: m.addresses[i] % m.size == 0)
  }

  // -------------------------------------------------------------------------
  // Conflict-set tables
  // -------------------------------------------------------------------------

  function Ranges(size: nat): seq<seq<(nat, nat)>>
    requires SupportedSize(size)
  {
    if size == 16 then
      [[(0, 4), (20, 24)], [(4, 8), (16, 20)], [(8, 12), (28, 32)], [(12, 16), (24, 28)],
       [(32, 36), (52, 56)], [(36, 40), (48, 52)], [(40, 44), (60, 64)], [(44, 48), (56, 60)]]
    else if size == 8 then
      [[(0, 16)], [(16, 32)], [(32, 48)], [(48, 64)]]
    else
      [[(0, 32)], [(32, 64)]]
  }

  /** For 16-byte accesses: the conflict set of each group of four consecutive lanes. */
  const SET_OF_QUAD: seq<nat> := [0, 1, 2, 3, 1, 0, 3, 2, 4, 5, 6, 7, 5, 4, 7, 6]

  /** The index of the one conflict set that lane belongs to. */
  function SetOfLane(size: nat, lane: nat): (i: nat)
    requires SupportedSize(size) && lane < 64
    ensures i < |Ranges(size)|
  {
    if size == 16 then SET_OF_QUAD[lane / 4]
    else if size == 8 then lane / 16
    else lane / 32
  }

  lemma LanesOfOne(r: (nat, nat))
    ensures LanesOf([r]) == Interval(r.0, r.1)
  {
    assert [r][..0] == [];
  }

  lemma LanesOfTwo(r: (nat, nat), s: (nat, nat))
    ensures LanesOf([r, s]) == Interval(r.0, r.1) + Interval(s.0, s.1)
  {
    LanesOfOne(r);
    assert [r, s][..1] == [r];
  }

  lemma QuadsPartitioned(lane: nat, i: nat)
    requires lane < 64 && i < 8
    ensures lane in LanesOf(Ranges(16)[i]) <==> i == SetOfLane(16, lane)
  {
    var ranges := Ranges(16)[i];
    LanesOfTwo(ranges[0], ranges[1]);
    assert ranges == [ranges[0], ranges[1]];
    InQuad(lane, ranges[0]);
    InQuad(lane, ranges[1]);
  }

  lemma InQuad(lane: nat, r: (nat, nat))
    requires r.0 % 4 == 0 && r.1 == r.0 + 4
    ensures lane in Interval(r.0, r.1) <==> lane / 4 == r.0 / 4
  {
  }

  /** The conflict sets of one size partition the 64 lanes. */
  lemma LanesPartitioned(size: nat, lane: nat, i: nat)
    requires SupportedSize(size) && lane < 64 && i < |Ranges(size)|
    ensures lane in LanesOf(Ranges(size)[i]) <==> i == SetOfLane(size, lane)
  {
    if size == 16 {
      QuadsPartitioned(lane, i);
    } else {
      var range := Ranges(size)[i][0];
      LanesOfOne(range);
      assert Ranges(size)[i] == [range];
    }
  }

  // -------------------------------------------------------------------------
  // What one message contributes, as a function of the message alone
  // -------------------------------------------------------------------------

  /** The dwords that the first n active lanes register in the conflict set of `lanes`. */
  function Registered(m: Message, lanes: set<nat>, n: nat): set<nat>
    requires n <= |m.lanes| == |m.addresses|
  {
    if n == 0 then {}
    else
      Registered(m, lanes, n - 1)
      + if m.lanes[n - 1] in lanes then {m.addresses[n - 1] / DWORD_SIZE} else {}
  }

  /** The dwords registered in each conflict set of the message's access size. */
  function RegisteredSets(m: Message): seq<set<nat>>
    requires |m.lanes| == |m.addresses| && SupportedSize(m.size)
  {
    seq(|Ranges(m.size)|, i requires 0 <= i < |Ranges(m.size)| =>
      Registered(m, LanesOf(Ranges(m.size)[i]), |m.lanes|))
  }

  function SumOfConflicts(dwords: seq<set<nat>>): nat {
    if dwords == [] then 0
    else SumOfConflicts(dwords[..|dwords| - 1]) + ConflictCount(dwords[|dwords| - 1])
  }

  function MessageConflicts(m: Message): nat
    requires |m.lanes| == |m.addresses| && SupportedSize(m.size)
  {
    SumOfConflicts(RegisteredSets(m))
  }

  lemma {:induction false} ConflictsOfBoth(a: seq<set<nat>>, b: seq<set<nat>>)
    ensures SumOfConflicts(a + b) == SumOfConflicts(a) + SumOfConflicts(b)
  {
    if b == [] {
      assert a + b == a;
    } else {
      var n := |b| - 1;
      ConflictsOfBoth(a, b[..n]);
      assert (a + b)[..|a| + n] == a + b[..n];
    }
  }

  lemma ConflictsOfOne(dwords: set<nat>)
    ensures SumOfConflicts([dwords]) == ConflictCount(dwords)
  {
    assert [dwords][..0] == [];
  }

  /** For accesses of up to 4 bytes, the conflicts of both halves of the wave are added. */
  lemma HalvesAreAdded(m: Message)
    requires |m.lanes| == |m.addresses| && m.size in {1, 2, 4}
    ensures MessageConflicts(m) == ConflictCount(Registered(m, Interval(0, 32), |m.lanes|))
                                   + ConflictCount(Registered(m, Interval(32, 64), |m.lanes|))
  {
    LanesOfOne((0, 32));
    LanesOfOne((32, 64));
    var low, high := Registered(m, Interval(0, 32), |m.lanes|), Registered(m, Interval(32, 64), |m.lanes|);
    assert RegisteredSets(m) == [low] + [high];
    ConflictsOfBoth([low], [high]);
    ConflictsOfOne(low);
    ConflictsOfOne(high);
  }

  /** The accesses of two lanes conflict when they are to different dwords of the same one of 32 banks. */
  lemma TwoLanesConflict(m: Message, a: nat, b: nat)
    requires m.lanes == [0, 1] && m.addresses == [a, b] && m.size == 4
    ensures MessageConflicts(m) == if a / 4 != b / 4 && a / 4 % 32 == b / 4 % 32 then 1 else 0
  {
    HalvesAreAdded(m);
    var low, high := Interval(0, 32), Interval(32, 64);
    assert Registered(m, low, 0) == {} && Registered(m, high, 0) == {};
    assert Registered(m, low, 1) == {a / 4} && Registered(m, high, 1) == {};
    assert Registered(m, low, 2) == {a / 4, b / 4} && Registered(m, high, 2) == {};
    NothingConflicts();
    PairConflicts(a / 4, b / 4);
  }

  /** The addresses of the first n active lanes that belong to a conflict set. */
  function AddressesIn(m: Message, lanes: set<nat>, n: nat): set<nat>
    requires n <= |m.lanes| == |m.addresses|
  {
    if n == 0 then {}
    else AddressesIn(m, lanes, n - 1) + if m.lanes[n - 1] in lanes then {m.addresses[n - 1]} else {}
  }

  lemma {:induction false} RegisteredAreFirstDwords(m: Message, lanes: set<nat>, n: nat)
    requires n <= |m.lanes| == |m.addresses|
    ensures Registered(m, lanes, n) == FirstDwords(AddressesIn(m, lanes, n))
    ensures forall a | a in AddressesIn(m, lanes, n) :: a in m.addresses
  {
    if n > 0 {
      RegisteredAreFirstDwords(m, lanes, n - 1);
    }
  }

  /** The conflicts of a set are those of every dword its lanes touch, not only of the registered ones. */
  lemma ConflictsCoverTouchedDwords(m: Message, lanes: set<nat>)
    requires WellFormed(m) && m.space == Shared && SupportedSize(m.size)
    ensures ConflictCount(Registered(m, lanes, |m.lanes|))
         == ConflictCount(TouchedDwords(AddressesIn(m, lanes, |m.lanes|), m.size))
  {
    RegisteredAreFirstDwords(m, lanes, |m.lanes|);
    FirstDwordIsEnough(AddressesIn(m, lanes, |m.lanes|), m.size);
  }

  function FileOf(files: map<nat, string>, hash: nat): string {
    if hash in files && files[hash] != "" then files[hash] else UNKNOWN_FILE
  }

  /** A message about an LDS access whose file name is looked up. */
  predicate AsksForFile(m: Message) {
    m.isAddress && m.space == Shared && SupportedSize(m.size)
  }

  function LdsRecord(files: map<nat, string>, m: Message): Option<Record>
    requires |m.lanes| == |m.addresses|
  {
    if AsksForFile(m) then
      Some(Record(Location(FileOf(files, m.fileHash), m.line, m.column),
                  AccessKey(m.size, 0, m.kind), Amount(MessageConflicts(m), 0, 0)))
    else None
  }

  /** The access size that the line count uses: the ISA-level one when it is known and differs. */
  function LineDataSize(m: Message): nat {
    if m.dwarf.accessSize != 0 && m.dwarf.accessSize != m.size then m.dwarf.accessSize else m.size
  }

  function GlobalRecord(m: Message): Option<Record>
  {
    if !m.isAddress || m.space != Global || m.lineSize == 0 || m.dwarf.accessSize == NO_ISA_INSTRUCTION then None
    else
      var size := LineDataSize(m);
      var needed := LinesNeeded(|m.addresses|, size, m.lineSize);
      var used := |LinesOf(m.addresses, size, m.lineSize)|;
      if size != m.size && used == needed + 1 then None
      else
        Some(Record(Location(m.dwarf.file, m.line, m.column),
                    AccessKey(m.size, m.dwarf.accessSize, m.kind), Amount(0, needed, used)))
  }

  /** An LDS message is recorded at its place, with no ISA-level size, and with its conflicts alone. */
  lemma LdsRecordMeaning(files: map<nat, string>, m: Message)
    requires |m.lanes| == |m.addresses|
    ensures LdsRecord(files, m).Some? <==> m.isAddress && m.space == Shared && m.size in {1, 2, 4, 8, 16}
    ensures LdsRecord(files, m).Some? ==>
              var r := LdsRecord(files, m).value;
              && r.location.line == m.line && r.location.column == m.column
              && r.key.irSize == m.size && r.key.isaSize == 0 && r.key.kind == m.kind
              && r.amount.conflicts == MessageConflicts(m) && r.amount.needed == 0 && r.amount.used == 0
  {
  }

  /**
   * A global message is recorded with the lines needed and used by accesses of the ISA-level size,
   * if that is known. It is dropped when it has no ISA instruction, or when that size differs and
   * one line more than needed is used.
   */
  lemma GlobalRecordMeaning(m: Message)
    requires m.isAddress && m.space == Global && m.lineSize != 0
    ensures var size := if m.dwarf.accessSize != 0 then m.dwarf.accessSize else m.size;
            var needed := LinesNeeded(|m.addresses|, size, m.lineSize);
            var used := |LinesOf(m.addresses, size, m.lineSize)|;
            && (GlobalRecord(m).None? <==>
                  m.dwarf.accessSize == 0xffff || (m.dwarf.accessSize !in {0, m.size} && used == needed + 1))
            && (GlobalRecord(m).Some? ==>
                  var r := GlobalRecord(m).value;
                  && r.location.file == m.dwarf.file && r.location.line == m.line && r.location.column == m.column
                  && r.key.irSize == m.size && r.key.isaSize == m.dwarf.accessSize && r.key.kind == m.kind
                  && r.amount.conflicts == 0 && r.amount.needed == needed && r.amount.used == used)
  {
  }

  /** What the handler tells its caller. */
  predicate Handled(m: Message) {
    && m.isAddress
    && ((m.space == Global && m.lineSize != 0) || (m.space == Shared && SupportedSize(m.size)))
  }

  // -------------------------------------------------------------------------
  // The stored totals
  // -------------------------------------------------------------------------

  type Store = map<Location, seq<Entry>>

  datatype Totals = Totals(lds: Store, global: Store, files: map<nat, string>)

  function At(store: Store, location: Location): seq<Entry> {
    if location in store then store[location] else []
  }

  /** Adds to the first entry with the key, or appends one. */
  function Accumulate(entries: seq<Entry>, key: AccessKey, amount: Amount): seq<Entry> {
    if entries == [] then [Entry(key, 1, amount)]
    else if entries[0].key == key then
      [Entry(key, entries[0].accesses + 1, entries[0].amount.Plus(amount))] + entries[1..]
    else [entries[0]] + Accumulate(entries[1..], key, amount)
  }

  /** What is summed up for a location and key. */
  datatype Quantity = Accesses | Conflicts | Needed | Used

  /** What one access of this amount counts for. */
  function InAccess(amount: Amount, q: Quantity): nat {
    match q
    case Accesses => 1
    case Conflicts => amount.conflicts
    case Needed => amount.needed
    case Used => amount.used
  }

  function InEntry(e: Entry, q: Quantity): nat {
    match q
    case Accesses => e.accesses
    case Conflicts => e.amount.conflicts
    case Needed => e.amount.needed
    case Used => e.amount.used
  }

  /** What the one entry for the key holds; nothing when there is none. */
  function Held(entries: seq<Entry>, key: AccessKey, q: Quantity): nat {
    if entries == [] then 0
    else if entries[0].key == key then InEntry(entries[0], q)
    else Held(entries[1..], key, q)
  }

  /** What is held for the key is more by the access; all else is as it was. */
  lemma {:induction false} AccumulateRaises(entries: seq<Entry>, key: AccessKey, amount: Amount, k: AccessKey, q: Quantity)
    ensures Held(Accumulate(entries, key, amount), k, q) ==
            Held(entries, k, q) + if k == key then InAccess(amount, q) else 0
  {
    var r := Accumulate(entries, key, amount);
    if entries == [] {
      assert r[1..] == entries;
    } else if entries[0].key != key {
      AccumulateRaises(entries[1..], key, amount, k, q);
      assert r[1..] == Accumulate(entries[1..], key, amount);
    } else {
      assert r[1..] == entries[1..];
    }
  }

  function Put(store: Store, record: Option<Record>): Store {
    match record
    case None => store
    case Some(r) => store[r.location := Accumulate(At(store, r.location), r.key, r.amount)]
  }

  function Step(t: Totals, m: Message): Totals
    requires |m.lanes| == |m.addresses|
  {
    Totals(Put(t.lds, LdsRecord(t.files, m)), Put(t.global, GlobalRecord(m)), Learn(t.files, m))
  }

  /** Looking up an unknown hash enters an empty name for it. */
  function Asked(files: map<nat, string>, hash: nat): map<nat, string> {
    if hash in files then files else files[hash := ""]
  }

  /** Global messages teach the handler the file name behind a hash; messages about LDS accesses ask for it. */
  function Learn(files: map<nat, string>, m: Message): map<nat, string> {
    if GlobalRecord(m).Some? then files[m.fileHash := m.dwarf.file]
    else if AsksForFile(m) then Asked(files, m.fileHash)
    else files
  }

  // -------------------------------------------------------------------------
  // The handler
  // -------------------------------------------------------------------------

  /** The conflict sets of one access size, in table order, all without registered dwords. */
  ghost predicate Ready(sets: seq<ConflictSet>, size: nat)
    requires SupportedSize(size)
    reads sets
  {
    && |sets| == |Ranges(size)|
    && forall i | 0 <= i < |sets| :: ReadyAt(sets[i], size, i)
  }

  ghost predicate ReadyAt(s: ConflictSet, size: nat, i: nat)
    requires SupportedSize(size) && i < |Ranges(size)|
    reads s
  {
    s.size == size && s.place == i && s.lanes == LanesOf(Ranges(size)[i]) && s.Valid() && s.Dwords() == {}
  }

  method MakeConflictSets(size: nat) returns (sets: seq<ConflictSet>)
    requires SupportedSize(size)
    ensures Ready(sets, size) && forall s | s in sets :: fresh(s)
  {
    var ranges := Ranges(size);
    sets := [];
    for k := 0 to |ranges|
      invariant |sets| == k
      invariant forall i | 0 <= i < k :: fresh(sets[i]) && ReadyAt(sets[i], size, i)
    {
      var s := new ConflictSet(ranges[k], size, k);
      sets := sets + [s];
    }
  }

  /** Offers an access to the conflict sets in turn until one takes it. */
  method RegisterLane(sets: seq<ConflictSet>, lane: nat, address: nat)
    requires forall i | 0 <= i < |sets| :: sets[i].Valid()
    requires forall i | 0 <= i < |sets| :: sets[i].place == i
    requires forall i, j | 0 <= i < j < |sets| && lane in sets[i].lanes :: lane !in sets[j].lanes
    modifies sets
    ensures forall i | 0 <= i < |sets| :: sets[i].Valid()
    ensures forall i | 0 <= i < |sets| ::
              sets[i].Dwords() == old(sets[i].Dwords()) + if lane in sets[i].lanes then {address / DWORD_SIZE} else {}
  {
    for i := 0 to |sets|
      invariant forall k | 0 <= k < |sets| :: sets[k].Valid()
      invariant forall k | 0 <= k < i :: lane !in sets[k].lanes
      invariant forall k | 0 <= k < |sets| :: sets[k].Dwords() == old(sets[k].Dwords())
    {
      var taken := sets[i].RegisterAccess(lane, address);
      if taken {
        break;
      }
    }
  }

  method CountAndClearOne(s: ConflictSet) returns (count: nat)
    requires s.Valid()
    modifies s
    ensures count == ConflictCount(old(s.Dwords()))
    ensures s.Valid() && s.Dwords() == {}
  {
    count := s.BankConflictCount();
    s.Clear();
  }

  method CountAndClear(sets: seq<ConflictSet>, ghost dwords: seq<set<nat>>) returns (count: nat)
    requires |sets| == |dwords|
    requires forall i | 0 <= i < |sets| :: sets[i].Valid() && sets[i].Dwords() == dwords[i]
    requires forall i | 0 <= i < |sets| :: sets[i].place == i
    modifies sets
    ensures count == SumOfConflicts(dwords)
    ensures forall i | 0 <= i < |sets| :: sets[i].Valid() && sets[i].Dwords() == {}
  {
    count := 0;
    for k := 0 to |sets|
      invariant count == SumOfConflicts(dwords[..k])
      invariant forall i | 0 <= i < k :: sets[i].Valid() && sets[i].Dwords() == {}
      invariant forall i | k <= i < |sets| :: unchanged(sets[i])
    {
      var c := CountAndClearOne(sets[k]);
      count := count + c;
      assert dwords[..k + 1][..k] == dwords[..k];
    }
    assert dwords[..|sets|] == dwords;
  }

  method RegisterAll(sets: seq<ConflictSet>, m: Message)
    requires WellFormed(m) && SupportedSize(m.size) && Ready(sets, m.size)
    modifies sets
    ensures forall i | 0 <= i < |sets| :: sets[i].Valid()
    ensures forall i | 0 <= i < |sets| :: sets[i].Dwords() == Registered(m, sets[i].lanes, |m.lanes|)
  {
    for n := 0 to |m.lanes|
      invariant forall i | 0 <= i < |sets| :: sets[i].Valid()
      invariant forall i | 0 <= i < |sets| :: sets[i].Dwords() == Registered(m, sets[i].lanes, n)
    {
      forall i, j | 0 <= i < j < |sets| && m.lanes[n] in sets[i].lanes ensures m.lanes[n] !in sets[j].lanes {
        LanesPartitioned(m.size, m.lanes[n], i);
        LanesPartitioned(m.size, m.lanes[n], j);
      }
      RegisterLane(sets, m.lanes[n], m.addresses[n]);
    }
  }

  /** Registers every active lane, counts, and leaves the banks empty again. */
  method CountBankConflicts(sets: seq<ConflictSet>, m: Message) returns (count: nat)
    requires WellFormed(m) && SupportedSize(m.size) && Ready(sets, m.size)
    modifies sets
    ensures count == MessageConflicts(m)
    ensures Ready(sets, m.size)
  {
    forall i | 0 <= i < |sets| ensures sets[i].place == i && sets[i].lanes == LanesOf(Ranges(m.size)[i]) {
      assert ReadyAt(sets[i], m.size, i);
    }
    RegisterAll(sets, m);
    count := CountAndClear(sets, RegisteredSets(m));
  }

  /** The find_if over the entries of a location, then the update or the push_back. */
  method AddAccess(entries: seq<Entry>, key: AccessKey, amount: Amount) returns (r: seq<Entry>)
    ensures r == Accumulate(entries, key, amount)
    ensures forall k: AccessKey, q ::
              Held(r, k, q) == Held(entries, k, q) + if k == key then InAccess(amount, q) else 0
  {
    forall k: AccessKey, q
      ensures Held(Accumulate(entries, key, amount), k, q) ==
              Held(entries, k, q) + if k == key then InAccess(amount, q) else 0
    {
      AccumulateRaises(entries, key, amount, k, q);
    }
    var i := 0;
    while i < |entries| && entries[i].key != key
      invariant 0 <= i <= |entries|
      invariant Accumulate(entries, key, amount) == entries[..i] + Accumulate(entries[i..], key, amount)
    {
      assert entries[i..][1..] == entries[i + 1..];
      i := i + 1;
    }
    if i < |entries| {
      var e := entries[i];
      r := entries[i := Entry(key, e.accesses + 1, e.amount.Plus(amount))];
      assert entries[i..][1..] == entries[i + 1..];
    } else {
      r := entries + [Entry(key, 1, amount)];
    }
  }

  type Table = map<nat, seq<ConflictSet>>

  ghost function AllMembers(table: Table): set<ConflictSet> {
    set size, s | size in table && s in table[size] :: s
  }

  /** Every listed size has its conflict sets, and all their banks are empty. */
  ghost predicate TableReady(table: Table)
    reads AllMembers(table)
  {
    forall size | size in table ::
      SupportedSize(size) && (forall s | s in table[size] :: s in AllMembers(table)) && Ready(table[size], size)
  }

  method AddSize(table: Table, size: nat) returns (r: Table)
    requires SupportedSize(size) && size !in table
    requires TableReady(table)
    ensures TableReady(r) && fresh(AllMembers(r) - AllMembers(table))
    ensures r.Keys == table.Keys + {size}
  {
    var sets := MakeConflictSets(size);
    r := table[size := sets];
    forall s | s in AllMembers(r) ensures s in AllMembers(table) || s in sets {
      var k :| k in r && s in r[k];
      assert k != size ==> s in table[k];
    }
  }

  method MakeTable() returns (table: Table)
    ensures TableReady(table) && table.Keys == {1, 2, 4, 8, 16}
    ensures fresh(AllMembers(table))
  {
    table := map[];
    var size := 1;
    while size <= 16
      invariant size in {1, 2, 4, 8, 16, 32}
      invariant forall k :: k in table <==> k in {1, 2, 4, 8, 16} && k < size
      invariant TableReady(table) && fresh(AllMembers(table))
    {
      table := AddSize(table, size);
      size := 2 * size;
    }
  }

  method CountWithTable(table: Table, m: Message) returns (count: nat)
    requires WellFormed(m) && m.size in table && SupportedSize(m.size) && TableReady(table)
    modifies AllMembers(table)
    ensures count == MessageConflicts(m)
    ensures TableReady(table)
  {
    count := CountBankConflicts(table[m.size], m);
    forall other | other in table && other != m.size ensures Ready(table[other], other) {
      assert old(Ready(table[other], other));
      forall i | 0 <= i < |table[other]| ensures ReadyAt(table[other][i], other, i) {
        assert old(ReadyAt(table[other][i], other, i));
      }
    }
  }

  /** The part of the bank conflict analysis before anything is stored. */
  method MeasureConflicts(table: Table, files: map<nat, string>, m: Message) returns (record: Record)
    requires WellFormed(m) && m.isAddress && m.space == Shared
    requires m.size in table && SupportedSize(m.size) && TableReady(table)
    modifies AllMembers(table)
    ensures Some(record) == LdsRecord(files, m)
    ensures TableReady(table)
  {
    var count := CountWithTable(table, m);
    record := Record(Location(FileOf(files, m.fileHash), m.line, m.column),
      AccessKey(m.size, 0, m.kind), Amount(count, 0, 0));
  }

  /** The part of the line count analysis before anything is stored; None when the message is dropped. */
  method MeasureLines(m: Message) returns (record: Option<Record>)
    requires m.isAddress && m.space == Global && m.lineSize != 0
    ensures record == GlobalRecord(m)
  {
    if m.dwarf.accessSize == NO_ISA_INSTRUCTION {
      return None;
    }
    var size, corrected := m.size, false;
    if m.dwarf.accessSize != 0 && m.dwarf.accessSize != size {
      size, corrected := m.dwarf.accessSize, true;
    }
    var needed := LinesNeeded(|m.addresses|, size, m.lineSize);
    var lines := CollectLines(m.addresses, size, m.lineSize);
    var used := |lines|;
    if corrected && used == needed + 1 {
      return None;
    }
    record := Some(Record(Location(m.dwarf.file, m.line, m.column),
      AccessKey(m.size, m.dwarf.accessSize, m.kind), Amount(0, needed, used)));
  }

  class Handler {
    const conflictSets: Table
    var ldsAccesses: Store
    var globalAccesses: Store
    var fileNames: map<nat, string>

    /** All five sizes are there, and between messages all banks are empty. */
    ghost predicate Valid()
      reads AllMembers(conflictSets)
    {
      && conflictSets.Keys == {1, 2, 4, 8, 16}
      && TableReady(conflictSets)
    }

    ghost function View(): Totals
      reads this
    {
      Totals(ldsAccesses, globalAccesses, fileNames)
    }

    constructor ()
      ensures Valid() && fresh(AllMembers(conflictSets))
      ensures View() == Totals(map[], map[], map[])
    {
      var table := MakeTable();
      conflictSets := table;
      ldsAccesses, globalAccesses, fileNames := map[], map[], map[];
    }

    method StoreConflicts(record: Record)
      modifies this`ldsAccesses
      ensures ldsAccesses == Put(old(ldsAccesses), Some(record))
    {
      var entries := AddAccess(At(ldsAccesses, record.location), record.key, record.amount);
      ldsAccesses := ldsAccesses[record.location := entries];
    }

    /** Looking up a hash enters an empty name when there is none. */
    method EnterHash(hash: nat)
      modifies this`fileNames
      ensures fileNames == Asked(old(fileNames), hash)
    {
      if hash !in fileNames {
        fileNames := fileNames[hash := ""];
      }
    }

    method HandleBankConflicts(m: Message) returns (handled: bool)
      requires Valid() && WellFormed(m) && m.isAddress && m.space == Shared
      modifies this`ldsAccesses, this`fileNames, AllMembers(conflictSets)
      ensures Valid()
      ensures handled == Handled(m)
      ensures ldsAccesses == Put(old(ldsAccesses), LdsRecord(old(fileNames), m))
      ensures fileNames == Learn(old(fileNames), m)
    {
      if m.size !in conflictSets {
        return false;
      }
      var record := MeasureConflicts(conflictSets, fileNames, m);
      EnterHash(m.fileHash);
      StoreConflicts(record);
      handled := true;
    }

    method HandleCacheLines(m: Message) returns (handled: bool)
      requires m.isAddress && m.space == Global
      modifies this`globalAccesses, this`fileNames
      ensures handled == Handled(m)
      ensures fileNames == Learn(old(fileNames), m)
      ensures globalAccesses == Put(old(globalAccesses), GlobalRecord(m))
    {
      if m.lineSize == 0 {
        return false;
      }
      var record := MeasureLines(m);
      if record.Some? {
        var location := record.value.location;
        var entries := AddAccess(At(globalAccesses, location), record.value.key, record.value.amount);
        globalAccesses := globalAccesses[location := entries];
        fileNames := fileNames[m.fileHash := m.dwarf.file];
      }
      handled := true;
    }

    method Handle(m: Message) returns (handled: bool)
      requires Valid() && WellFormed(m)
      modifies this, AllMembers(conflictSets)
      ensures Valid()
      ensures handled == Handled(m)
      ensures View() == Step(old(View()), m)
    {
      if !m.isAddress {
        return false;
      }
      match m.space
      case Global => handled := HandleCacheLines(m);
      case Shared => handled := HandleBankConflicts(m);
      case _ => handled := false;
    }
  }

  // -------------------------------------------------------------------------
  // Whole streams
  // -------------------------------------------------------------------------

  ghost predicate Matched(ms: seq<Message>) {
    forall i | 0 <= i < |ms| :: |ms[i].lanes| == |ms[i].addresses|
  }

  /** The totals after a stream of messages. */
  function Process(ms: seq<Message>): Totals
    requires Matched(ms)
  {
    if ms == [] then Totals(map[], map[], map[])
    else Step(Process(ms[..|ms| - 1]), ms[|ms| - 1])
  }

  /** The entries of the map of file names after a stream. */
  function KnownFiles(ms: seq<Message>): map<nat, string> {
    if ms == [] then map[] else Learn(KnownFiles(ms[..|ms| - 1]), ms[|ms| - 1])
  }

  function Listed(r: Option<Record>): seq<Record> {
    if r.Some? then [r.value] else []
  }

  function LdsRecords(ms: seq<Message>): seq<Record>
    requires Matched(ms)
  {
    if ms == [] then []
    else
      var n := |ms| - 1;
      LdsRecords(ms[..n]) + Listed(LdsRecord(KnownFiles(ms[..n]), ms[n]))
  }

  function GlobalRecords(ms: seq<Message>): seq<Record> {
    if ms == [] then []
    else
      var n := |ms| - 1;
      GlobalRecords(ms[..n]) + Listed(GlobalRecord(ms[n]))
  }

  /** The sum over the records for the location and key. */
  function Sum(rs: seq<Record>, location: Location, key: AccessKey, q: Quantity): nat {
    if rs == [] then 0
    else
      var n := |rs| - 1;
      Sum(rs[..n], location, key, q) + if rs[n].location == location && rs[n].key == key then InAccess(rs[n].amount, q) else 0
  }

  ghost predicate NoDuplicateKeys(entries: seq<Entry>) {
    forall i, j | 0 <= i < j < |entries| :: entries[i].key != entries[j].key
  }

  /** The store holds exactly the sums over the records, one entry per location and key. */
  ghost predicate SummarisesAt(store: Store, rs: seq<Record>, location: Location) {
    && NoDuplicateKeys(At(store, location))
    && (forall e | e in At(store, location) :: e.accesses > 0)
    && (forall key: AccessKey, q :: Held(At(store, location), key, q) == Sum(rs, location, key, q))
  }

  ghost predicate Summarises(store: Store, rs: seq<Record>) {
    forall location: Location :: SummarisesAt(store, rs, location)
  }

  lemma {:induction false} AccumulateKeepsKeys(entries: seq<Entry>, key: AccessKey, amount: Amount)
    requires NoDuplicateKeys(entries)
    ensures var r := Accumulate(entries, key, amount);
            NoDuplicateKeys(r) && forall e | e in r :: e.key == key || exists f :: f in entries && f.key == e.key
  {
    if entries != [] && entries[0].key != key {
      AccumulateKeepsKeys(entries[1..], key, amount);
    }
  }

  lemma {:induction false} AccumulateMeaning(entries: seq<Entry>, key: AccessKey, amount: Amount)
    requires NoDuplicateKeys(entries) && forall e | e in entries :: e.accesses > 0
    ensures var r := Accumulate(entries, key, amount);
            && NoDuplicateKeys(r)
            && (forall e | e in r :: e.accesses > 0)
            && (forall e | e in r :: e.key == key || exists f :: f in entries && f.key == e.key)
            && forall k: AccessKey, q ::
                 Held(r, k, q) == Held(entries, k, q) + if k == key then InAccess(amount, q) else 0
  {
    AccumulateKeepsKeys(entries, key, amount);
    forall k: AccessKey, q
      ensures Held(Accumulate(entries, key, amount), k, q) ==
              Held(entries, k, q) + if k == key then InAccess(amount, q) else 0
    {
      AccumulateRaises(entries, key, amount, k, q);
    }
    if entries != [] && entries[0].key != key {
      AccumulateMeaning(entries[1..], key, amount);
    }
  }

  lemma PutSummarisesAt(store: Store, rs: seq<Record>, r: Record, location: Location)
    requires SummarisesAt(store, rs, location)
    ensures SummarisesAt(Put(store, Some(r)), rs + [r], location)
  {
    assert (rs + [r])[..|rs|] == rs;
    if r.location == location {
      AccumulateMeaning(At(store, location), r.key, r.amount);
    }
    forall key: AccessKey, q
      ensures Held(At(Put(store, Some(r)), location), key, q) == Sum(rs + [r], location, key, q)
    {
      assert Held(At(store, location), key, q) == Sum(rs, location, key, q);
    }
  }

  lemma PutSummarises(store: Store, rs: seq<Record>, r: Option<Record>)
    requires Summarises(store, rs)
    ensures Summarises(Put(store, r), rs + Listed(r))
  {
    if r.None? {
      assert rs + Listed(r) == rs;
    } else {
      forall location: Location ensures SummarisesAt(Put(store, r), rs + [r.value], location) {
        PutSummarisesAt(store, rs, r.value, location);
      }
    }
  }

  /** After any stream, the stores hold the sums of what each message contributes on its own. */
  lemma {:induction false} TotalsAreSums(ms: seq<Message>)
    requires Matched(ms)
    ensures Process(ms).files == KnownFiles(ms)
    ensures Summarises(Process(ms).lds, LdsRecords(ms))
    ensures Summarises(Process(ms).global, GlobalRecords(ms))
  {
    if ms != [] {
      var n := |ms| - 1;
      TotalsAreSums(ms[..n]);
      PutSummarises(Process(ms[..n]).lds, LdsRecords(ms[..n]), LdsRecord(KnownFiles(ms[..n]), ms[n]));
      PutSummarises(Process(ms[..n]).global, GlobalRecords(ms[..n]), GlobalRecord(ms[n]));
    }
  }

  // -------------------------------------------------------------------------
  // The file names of LDS accesses
  // -------------------------------------------------------------------------

  /** A recorded global message with this file hash. */
  predicate Teaches(m: Message, hash: nat) {
    GlobalRecord(m).Some? && m.fileHash == hash
  }

  /** The last one of them in the stream. */
  ghost predicate IsLastTeacher(ms: seq<Message>, hash: nat, i: nat) {
    i < |ms| && Teaches(ms[i], hash) && forall j | i < j < |ms| :: !Teaches(ms[j], hash)
  }

  lemma LastTeacherOneMore(ms: seq<Message>, hash: nat, i: nat)
    requires ms != []
    ensures var n := |ms| - 1;
            IsLastTeacher(ms, hash, i) <==>
            if Teaches(ms[n], hash) then i == n else i < n && IsLastTeacher(ms[..n], hash, i)
  {
  }

  /** A message that enters the hash into the map, if it is not there yet. */
  predicate Mentions(m: Message, hash: nat) {
    Teaches(m, hash) || (AsksForFile(m) && m.fileHash == hash)
  }

  /** A hash has an entry exactly when a recorded global or an LDS message of the stream has it. */
  lemma {:induction false} KnownFilesAreMentioned(ms: seq<Message>, hash: nat)
    ensures hash in KnownFiles(ms) <==> exists m :: m in ms && Mentions(m, hash)
  {
    if ms != [] {
      var n := |ms| - 1;
      KnownFilesAreMentioned(ms[..n], hash);
      assert ms == ms[..n] + [ms[n]];
      assert hash in KnownFiles(ms) <==> hash in KnownFiles(ms[..n]) || Mentions(ms[n], hash);
    }
  }

  /** The entry is the last name given by a recorded global message, and empty when there is none. */
  lemma {:induction false} KnownFilesMeaning(ms: seq<Message>, hash: nat)
    ensures forall i: nat | IsLastTeacher(ms, hash, i) :: hash in KnownFiles(ms) && KnownFiles(ms)[hash] == ms[i].dwarf.file
    ensures hash in KnownFiles(ms) && (forall i: nat :: !IsLastTeacher(ms, hash, i)) ==> KnownFiles(ms)[hash] == ""
  {
    if ms != [] {
      var n := |ms| - 1;
      KnownFilesMeaning(ms[..n], hash);
      forall i: nat ensures IsLastTeacher(ms, hash, i) <==>
          if Teaches(ms[n], hash) then i == n else i < n && IsLastTeacher(ms[..n], hash, i)
      {
        LastTeacherOneMore(ms, hash, i);
      }
      if Teaches(ms[n], hash) {
        assert IsLastTeacher(ms, hash, n);
      }
    }
  }

  /** The file under which a stream's next LDS message is stored. */
  function LdsFile(ms: seq<Message>, m: Message): string
    requires Matched(ms)
  {
    FileOf(Process(ms).files, m.fileHash)
  }

  predicate IsLdsAccess(m: Message) {
    AsksForFile(m) && |m.lanes| == |m.addresses|
  }

  lemma LdsPlace(files: map<nat, string>, m: Message)
    requires IsLdsAccess(m)
    ensures LdsRecord(files, m).Some?
    ensures LdsRecord(files, m).value.location == Location(FileOf(files, m.fileHash), m.line, m.column)
  {
  }

  lemma LdsAccessIsStored(ms: seq<Message>, m: Message)
    requires Matched(ms) && IsLdsAccess(m)
    ensures Matched(ms + [m])
    ensures Process(ms + [m]).lds.Keys == Process(ms).lds.Keys + {Location(LdsFile(ms, m), m.line, m.column)}
  {
    assert (ms + [m])[..|ms|] == ms;
    LdsPlace(Process(ms).files, m);
  }

  lemma FileIsLastNamed(files: map<nat, string>, ms: seq<Message>, hash: nat, file: string)
    requires files == KnownFiles(ms) && file != "" && file != UNKNOWN_FILE
    ensures FileOf(files, hash) == file <==> exists i: nat :: IsLastTeacher(ms, hash, i) && ms[i].dwarf.file == file
  {
    KnownFilesMeaning(ms, hash);
  }

  lemma FileIsUnknown(files: map<nat, string>, ms: seq<Message>, hash: nat)
    requires files == KnownFiles(ms)
    ensures FileOf(files, hash) == UNKNOWN_FILE <==>
            forall i: nat | IsLastTeacher(ms, hash, i) :: ms[i].dwarf.file == "" || ms[i].dwarf.file == UNKNOWN_FILE
  {
    KnownFilesMeaning(ms, hash);
  }

  /**
   * An LDS access is stored under a file name exactly when the last recorded global message with
   * its hash gives that name, and under the name for unknown files exactly when there is none or
   * it gives no proper name.
   */
  lemma LdsFileIsLastNamed(ms: seq<Message>, m: Message, file: string)
    requires Matched(ms) && IsLdsAccess(m)
    ensures Matched(ms + [m]) && Location(LdsFile(ms, m), m.line, m.column) in Process(ms + [m]).lds.Keys
    ensures file != "" && file != UNKNOWN_FILE ==>
              (LdsFile(ms, m) == file <==>
               exists i: nat :: IsLastTeacher(ms, m.fileHash, i) && ms[i].dwarf.file == file)
    ensures LdsFile(ms, m) == UNKNOWN_FILE <==>
            forall i: nat | IsLastTeacher(ms, m.fileHash, i) :: ms[i].dwarf.file == "" || ms[i].dwarf.file == UNKNOWN_FILE
  {
    TotalsAreSums(ms);
    LdsAccessIsStored(ms, m);
    FileIsUnknown(Process(ms).files, ms, m.fileHash);
    if file != "" && file != UNKNOWN_FILE {
      FileIsLastNamed(Process(ms).files, ms, m.fileHash, file);
    }
  }

  lemma AloneItIsUnknown(m: Message)
    requires IsLdsAccess(m)
    ensures Matched([m]) && Process([m]).lds.Keys == {Location(UNKNOWN_FILE, m.line, m.column)}
  {
    LdsAccessIsStored([], m);
    assert [] + [m] == [m];
  }

  lemma NamingIsLearnt(a: Message, hash: nat)
    requires Teaches(a, hash) && |a.lanes| == |a.addresses|
    ensures Matched([a]) && Process([a]).files == map[hash := a.dwarf.file] && Process([a]).lds == map[]
  {
    assert [a][..0] == [];
  }

  lemma AfterNamingItIsKnown(a: Message, m: Message)
    requires IsLdsAccess(m) && |a.lanes| == |a.addresses| && Teaches(a, m.fileHash) && a.dwarf.file != ""
    ensures Matched([a, m]) && Process([a, m]).lds.Keys == {Location(a.dwarf.file, m.line, m.column)}
  {
    NamingIsLearnt(a, m.fileHash);
    LdsAccessIsStored([a], m);
    assert [a] + [m] == [a, m];
  }

  /**
   * The same LDS access is stored at different places: on its own under the name for unknown
   * files, and after any recorded global access with its hash under the name that this one gives.
   */
  lemma LdsPlaceDependsOnTheStream(a: Message, m: Message)
    requires IsLdsAccess(m) && |a.lanes| == |a.addresses|
    requires Teaches(a, m.fileHash) && a.dwarf.file != "" && a.dwarf.file != UNKNOWN_FILE
    ensures Matched([m]) && Process([m]).lds.Keys == {Location(UNKNOWN_FILE, m.line, m.column)}
    ensures Matched([a, m]) && Process([a, m]).lds.Keys == {Location(a.dwarf.file, m.line, m.column)}
    ensures Process([m]).lds.Keys != Process([a, m]).lds.Keys
  {
    AloneItIsUnknown(m);
    AfterNamingItIsKnown(a, m);
    assert Location(UNKNOWN_FILE, m.line, m.column) !in Process([a, m]).lds.Keys;
  }

  /** A global access that gives a file its name, and an LDS access with the same hash. */
  const NAMING: Message :=
    Message(true, Global, 1, 4, [0], [0], 7, 1, 1, 64, Dwarf("kernel.cpp", 4))

  const LDS_ACCESS: Message :=
    Message(true, Shared, 1, 4, [0], [0], 7, 2, 1, 64, Dwarf("", 0))

  /** These two are such messages. */
  lemma SuchMessagesExist()
    ensures WellFormed(NAMING) && WellFormed(LDS_ACCESS) && IsLdsAccess(LDS_ACCESS)
    ensures Teaches(NAMING, LDS_ACCESS.fileHash) && NAMING.dwarf.file != "" && NAMING.dwarf.file != UNKNOWN_FILE
  {
  }
}
