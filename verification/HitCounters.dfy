/** Counters for occasional logging: "every n-th hit at a location", with a counter that is
    reset whenever it reaches a fixed bound. */
module HitCounters {

  const MAX_LOG_PER_COUNTER: nat := 100000

  datatype Location = Location(filename: string, lineNumber: nat)

  /** The counter after one more hit with threshold n. */
  function NextCount(count: nat, n: nat): nat {
    1 + if count >= MAX_LOG_PER_COUNTER then (if n >= 1 then MAX_LOG_PER_COUNTER % n else 0) else count
  }

  predicate Triggers(count: nat, n: nat) {
    n >= 1 && count != 0 && count % n == 0
  }

  // ----- hits at one location

  ghost function CountAfterHits(k: nat, n: nat): nat {
    if k == 0 then 0 else NextCount(CountAfterHits(k - 1, n), n)
  }

  lemma {:induction false} MultipleAtLeast(n: int, d: int)
    requires n > 0 && d > 0
    ensures n * d >= n
  {
    if d > 1 {
      MultipleAtLeast(n, d - 1);
      assert n * d == n * (d - 1) + n;
    }
  }

  lemma MultipleOutOfRange(n: int, d: int)
    requires n > 0 && d != 0
    ensures n * d >= n || n * d <= -n
  {
    if d > 0 {
      MultipleAtLeast(n, d);
    } else {
      MultipleAtLeast(n, -d);
      assert n * d == -(n * -d);
    }
  }

  /** A remainder below n is the remainder. */
  lemma ModuloOf(q: nat, r: nat, n: nat)
    requires r < n
    ensures (q * n + r) % n == r
  {
    var x := q * n + r;
    var (q', r') := (x / n, x % n);
    assert n * (q' - q) == r - r';
    if q' != q {
      MultipleOutOfRange(n, q' - q);
    }
  }

  lemma SuccessorResidue(a: nat, n: nat)
    requires n > 0
    ensures (a + 1) % n == if a % n + 1 == n then 0 else a % n + 1
  {
    var (q, r) := (a / n, a % n);
    if r + 1 == n {
      assert a + 1 == (q + 1) * n + 0;
      ModuloOf(q + 1, 0, n);
    } else {
      assert a + 1 == q * n + (r + 1);
      ModuloOf(q, r + 1, n);
    }
  }

  lemma ResidueOfResidue(a: nat, n: nat)
    requires n > 0
    ensures (a % n) % n == a % n
  {
    ModuloOf(0, a % n, n);
  }

  /** Resets do not disturb the count modulo a threshold within the bound. */
  lemma {:induction false} CountKeepsResidue(k: nat, n: nat)
    requires 1 <= n <= 100000
    ensures CountAfterHits(k, n) <= 100000
    ensures CountAfterHits(k, n) % n == k % n
    ensures k > 0 ==> CountAfterHits(k, n) > 0
  {
    if k > 0 {
      CountKeepsResidue(k - 1, n);
      var count := CountAfterHits(k - 1, n);
      var start := if count == MAX_LOG_PER_COUNTER then count % n else count;
      SuccessorResidue(k - 1, n);
      SuccessorResidue(start, n);
      ResidueOfResidue(count, n);
    }
  }

  /** Beyond the bound the counter sticks just past it. */
  lemma {:induction false} CountSticks(k: nat, n: nat)
    requires n > 100000
    ensures CountAfterHits(k, n) == if k <= 100000 then k else 100001
  {
    if k > 0 {
      CountSticks(k - 1, n);
    }
  }

  ghost predicate EveryNth(n: nat)
    requires n >= 1
  {
    forall k: nat :: k >= 1 ==> (Triggers(CountAfterHits(k, n), n) <==> k % n == 0)
  }

  /** A threshold triggers on exactly its multiples iff it is within the bound. */
  lemma EveryNthIffWithinBound(n: nat)
    requires n >= 1
    ensures EveryNth(n) <==> n <= 100000
  {
    if n <= MAX_LOG_PER_COUNTER {
      forall k: nat | k >= 1 ensures Triggers(CountAfterHits(k, n), n) <==> k % n == 0 {
        CountKeepsResidue(k, n);
      }
    } else if n == MAX_LOG_PER_COUNTER + 1 {
      CountSticks(n + 1, n);
      ModuloOf(1, 1, n);
      assert !(Triggers(CountAfterHits(n + 1, n), n) <==> (n + 1) % n == 0);
    } else {
      CountSticks(n, n);
      assert !(Triggers(CountAfterHits(n, n), n) <==> n % n == 0);
    }
  }

  // ----- hits at many locations

  datatype Call = Call(location: Location, n: nat)

  ghost function Hits(calls: seq<Call>, location: Location): nat {
    if calls == [] then 0 else
    Hits(calls[..|calls| - 1], location) + if calls[|calls| - 1].location == location then 1 else 0
  }

  ghost function CountAfter(calls: seq<Call>, location: Location): nat {
    if calls == [] then 0 else
    var (before, last) := (CountAfter(calls[..|calls| - 1], location), calls[|calls| - 1]);
    if last.location == location then NextCount(before, last.n) else before
  }

  ghost predicate FixedThreshold(calls: seq<Call>, location: Location, n: nat) {
    forall c <- calls :: c.location == location ==> c.n == n
  }

  /** Calls elsewhere do not matter. */
  lemma {:induction false} InterleavingIsInvisible(calls: seq<Call>, location: Location, n: nat)
    requires FixedThreshold(calls, location, n)
    ensures CountAfter(calls, location) == CountAfterHits(Hits(calls, location), n)
  {
    if calls != [] {
      InterleavingIsInvisible(calls[..|calls| - 1], location, n);
      assert calls[|calls| - 1] in calls;
    }
  }

  /** So each location sees its own every-n-th rhythm. */
  lemma EveryNthCallTriggers(calls: seq<Call>, location: Location, n: nat)
    requires FixedThreshold(calls, location, n) && 1 <= n <= 100000
    requires Hits(calls, location) > 0
    ensures Triggers(CountAfter(calls, location), n) <==> Hits(calls, location) % n == 0
  {
    InterleavingIsInvisible(calls, location, n);
    EveryNthIffWithinBound(n);
  }

  lemma OneMoreCall(calls: seq<Call>, call: Call, location: Location)
    ensures Hits(calls + [call], location) == Hits(calls, location) + if call.location == location then 1 else 0
    ensures CountAfter(calls + [call], location) ==
            if call.location == location then NextCount(CountAfter(calls, location), call.n)
            else CountAfter(calls, location)
  {
    assert (calls + [call])[..|calls|] == calls;
  }

  class HitCounter {
    const location: Location
    var hitCounts: nat

    constructor (location: Location)
      ensures this.location == location && hitCounts == 0
    {
      this.location := location;
      hitCounts := 0;
    }

    method ValidateHitCounts(n: nat)
      modifies this
      ensures hitCounts == NextCount(old(hitCounts), n)
      ensures old(hitCounts) < 100000 ==> hitCounts == old(hitCounts) + 1
      ensures old(hitCounts) >= 100000 ==> hitCounts == if n == 0 then 1 else 100000 % n + 1
    {
      if hitCounts >= MAX_LOG_PER_COUNTER {
        hitCounts := if n >= 1 then MAX_LOG_PER_COUNTER % n else 0;
      }
      hitCounts := hitCounts + 1;
    }
  }

  class RegisteredHitCounters {
    var list: seq<HitCounter>
    ghost var calls: seq<Call>

    /** At most one counter per file and line, each with the count its calls have made. */
    ghost predicate Valid()
      reads this, list
    {
      && (forall i, j | 0 <= i < j < |list| :: list[i].location != list[j].location)
      && (forall i | 0 <= i < |list| :: list[i].hitCounts == CountAfter(calls, list[i].location))
      && (forall l: Location :: Registered(l) || CountAfter(calls, l) == 0)
    }

    ghost predicate Registered(location: Location)
      reads this, list
    {
      exists i :: 0 <= i < |list| && list[i].location == location
    }

    constructor ()
      ensures Valid() && calls == [] && list == []
    {
      list, calls := [], [];
    }

    method Get(location: Location) returns (counter: HitCounter?, ghost index: nat)
      requires Valid()
      ensures counter == null <==> !Registered(location)
      ensures counter != null ==> index < |list| && list[index] == counter && counter.location == location
    {
      for i := 0 to |list|
        invariant forall j | 0 <= j < i :: list[j].location != location
      {
        if list[i].location == location {
          return list[i], i;
        }
      }
      return null, 0;
    }

    /** The counter of a location, registered anew if it has none. */
    method Obtain(location: Location) returns (counter: HitCounter, ghost index: nat)
      requires Valid()
      modifies `list
      ensures Valid() && old(list) <= list
      ensures index < |list| && list[index] == counter && counter.location == location
      ensures counter in old(list) || fresh(counter)
      ensures forall c <- list :: c in old(list) || c == counter
    {
      var found;
      found, index := Get(location);
      if found == null {
        counter := new HitCounter(location);
        index := |list|;
        list := list + [counter];
        forall l: Location ensures Registered(l) || CountAfter(calls, l) == 0 {
          if i :| 0 <= i < |old(list)| && old(list)[i].location == l {
            assert list[i].location == l;
          }
        }
      } else {
        counter := found;
      }
    }

    /** By EveryNthCallTriggers this says true on exactly the n-th, 2n-th, 3n-th, ... call
        at the location, if all calls there use the same n within the bound. */
    method ValidateEveryN(location: Location, n: nat) returns (result: bool)
      requires Valid()
      modifies this, list
      ensures Valid() && calls == old(calls) + [Call(location, n)]
      ensures forall c <- list :: c in old(list) || fresh(c)
      ensures result <==> n >= 1 && CountAfter(calls, location) != 0 && CountAfter(calls, location) % n == 0
    {
      var counter, index := Obtain(location);
      counter.ValidateHitCounts(n);
      result := Triggers(counter.hitCounts, n);
      ghost var calls' := calls + [Call(location, n)];
      forall l: Location ensures CountAfter(calls', l) ==
          if location == l then NextCount(CountAfter(calls, l), n) else CountAfter(calls, l)
      {
        OneMoreCall(calls, Call(location, n), l);
      }
      assert Registered(location);
      calls := calls';
    }
  }
}
