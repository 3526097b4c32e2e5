// Sums of block credits over finite sets, and durations modulo the 64-bit word.
module Credits {
  import opened Words

  function Add64(a: nat, b: nat): nat {
    (a + b) % TWO_64
  }

  function Sub64(a: nat, b: nat): nat
    requires a < TWO_64 && b < TWO_64
  {
    (a - b + TWO_64) % TWO_64
  }

  /** Executions, threads and time credited to basic blocks. */
  datatype Credit = Credit(count: int, threads: int, duration: int) {
    function Plus(other: Credit): (sum: Credit)
      ensures sum.count == count + other.count && sum.threads == threads + other.threads
      ensures sum.duration == duration + other.duration
    {
      Credit(count + other.count, threads + other.threads, duration + other.duration)
    }
  }

  const NONE: Credit := Credit(0, 0, 0)

  /** The value a 64-bit word holds. */
  function Word(x: int): nat {
    x % TWO_64
  }

  /** The same counts, and durations that a 64-bit word cannot tell apart. */
  ghost predicate Congruent(a: Credit, b: Credit) {
    a.count == b.count && a.threads == b.threads && Word(a.duration) == Word(b.duration)
  }

  lemma WordOfSum(a: int, b: int, c: int)
    requires Word(a) == Word(b)
    ensures Word(a + c) == Word(b + c)
  {
    var k := a / TWO_64 - b / TWO_64;
    assert a == b + k * TWO_64;
    assert (b + c + k * TWO_64) % TWO_64 == (b + c) % TWO_64;
  }

  lemma CongruentSmall(a: Credit, b: Credit)
    requires Congruent(a, b) && 0 <= a.duration <= b.duration < TWO_64
    ensures a == b
  {
  }

  lemma Add64Commutes(a: nat, b: nat, c: nat)
    ensures Add64(Add64(a, b), c) == Add64(Add64(a, c), b)
  {
    AddToWord(a + b, c);
    AddToWord(a + c, b);
  }

  lemma AddToWord(x: nat, c: nat)
    ensures (x % TWO_64 + c) % TWO_64 == (x + c) % TWO_64
  {
    assert x == x / TWO_64 * TWO_64 + x % TWO_64;
  }

  /** `now` is `earlier` plus `extra` modulo the word, and no longer when `bounded`. */
  ghost predicate Grew(now: Credit, earlier: Credit, extra: Credit, bounded: bool) {
    Congruent(now, earlier.Plus(extra)) && (bounded ==> now.duration <= earlier.Plus(extra).duration)
  }

  lemma GrewChain(now: Credit, earlier: Credit, extra: Credit, owed: Credit, bounded: bool)
    requires Grew(now, earlier, extra, bounded)
    requires Congruent(earlier, owed)
    requires bounded ==> earlier.duration <= owed.duration
    ensures Congruent(now, owed.Plus(extra))
    ensures bounded ==> now.duration <= owed.Plus(extra).duration
  {
    WordOfSum(earlier.duration, owed.duration, extra.duration);
  }

  lemma GrewBySimilar(earlier: Credit, extra: Credit, similar: Credit, bounded: bool)
    requires Congruent(extra, similar) && (bounded ==> extra.duration <= similar.duration)
    ensures Grew(earlier.Plus(extra), earlier, similar, bounded)
  {
    WordOfSum(extra.duration, similar.duration, earlier.duration);
  }

  lemma GrewByNothing(c: Credit, bounded: bool)
    ensures Grew(c, c, NONE, bounded)
  {
  }

  ghost function Sum<T>(s: set<T>, f: T -> Credit): Credit {
    if s == {} then NONE
    else
      var x :| x in s;
      Sum(s - {x}, f).Plus(f(x))
  }

  lemma {:induction false} SumPicks<T>(s: set<T>, f: T -> Credit, x: T)
    requires x in s
    ensures Sum(s, f) == Sum(s - {x}, f).Plus(f(x))
  {
    var y :| y in s && Sum(s, f) == Sum(s - {y}, f).Plus(f(y));
    if y != x {
      SumPicks(s - {y}, f, x);
      SumPicks(s - {x}, f, y);
      var rest := s - {x} - {y};
      assert s - {y} - {x} == rest;
      assert Sum(s, f) == Sum(rest, f).Plus(f(x)).Plus(f(y));
      assert Sum(s - {x}, f) == Sum(rest, f).Plus(f(y));
    }
  }

  lemma {:induction false} SumAgrees<T>(s: set<T>, f: T -> Credit, g: T -> Credit)
    requires forall x | x in s :: f(x) == g(x)
    ensures Sum(s, f) == Sum(s, g)
  {
    if s != {} {
      var x :| x in s;
      SumPicks(s, f, x);
      SumPicks(s, g, x);
      SumAgrees(s - {x}, f, g);
    }
  }

  /** Changing the summand of one element changes the sum by as much. */
  lemma SumChangesAt<T>(s: set<T>, f: T -> Credit, g: T -> Credit, x: T, extra: Credit)
    requires forall y | y in s && y != x :: f(y) == g(y)
    requires x in s && g(x) == f(x).Plus(extra)
    ensures Sum(s, g) == Sum(s, f).Plus(extra)
  {
    SumPicks(s, f, x);
    SumPicks(s, g, x);
    SumAgrees(s - {x}, f, g);
  }

  lemma SumOfOne<T>(x: T, f: T -> Credit)
    ensures Sum({x}, f) == f(x)
  {
    SumPicks({x}, f, x);
    assert {x} - {x} == {};
    assert Sum({}, f) == NONE;
  }

  lemma {:induction false} SumOfNone<T>(s: set<T>, f: T -> Credit)
    requires forall x | x in s :: f(x) == NONE
    ensures Sum(s, f) == NONE
  {
    if s != {} {
      var x :| x in s;
      SumPicks(s, f, x);
      SumOfNone(s - {x}, f);
    }
  }
}
