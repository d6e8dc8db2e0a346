/** The prerequisite graph of mock expectations: three recursive traversals of a shared
    acyclic graph, and the invariant of all call histories that makes their shortcuts right. */
module Expectations {

  class Expectation {
    /** The cardinality Between(minCalls, maxCalls). */
    const minCalls: nat
    const maxCalls: nat
    const retiresOnSaturation: bool
    const immediatePrerequisites: seq<Expectation>
    /** Prerequisites are set up before what depends on them. */
    ghost const rank: nat
    var callCount: nat
    var retired: bool

    constructor (minCalls: nat, maxCalls: nat, retiresOnSaturation: bool, prerequisites: seq<Expectation>,
          ghost rank: nat)
      requires forall p <- prerequisites :: p.rank < rank
      ensures immediatePrerequisites == prerequisites && this.rank == rank
      ensures this.minCalls == minCalls && this.maxCalls == maxCalls && this.retiresOnSaturation == retiresOnSaturation
      ensures callCount == 0 && !retired
    {
      this.minCalls, this.maxCalls, this.retiresOnSaturation := minCalls, maxCalls, retiresOnSaturation;
      immediatePrerequisites, this.rank := prerequisites, rank;
      callCount, retired := 0, false;
    }

    predicate IsSatisfied()
      reads this
    {
      minCalls <= callCount <= maxCalls
    }

    predicate IsSaturated()
      reads this
    {
      callCount >= maxCalls
    }

    method RetireAllPreRequisites(ghost g: set<Expectation>)
      requires this in g && Acyclic(g) && RetiredClosed(g)
      modifies g`retired
      ensures forall x <- g :: x.retired <==> old(x.retired) || x in Prerequisites(g, this)
      ensures RetiredClosed(g)
      decreases rank
    {
      if retired {
        return;
      }
      for i := 0 to |immediatePrerequisites|
        invariant forall x <- g :: x.retired <==> old(x.retired) || x in PrerequisitesBelow(g, this, i)
        invariant RetiredClosed(g)
      {
        var prerequisite := immediatePrerequisites[i];
        if !prerequisite.retired {
          prerequisite.RetireAllPreRequisites(g);
          prerequisite.retired := true;
        }
      }
    }

    method AllPrerequisitesAreSatisfied(ghost g: set<Expectation>) returns (r: bool)
      requires this in g && Acyclic(g)
      ensures r <==> AllSatisfied(Prerequisites(g, this))
      decreases rank
    {
      for i := 0 to |immediatePrerequisites|
        invariant AllSatisfied(PrerequisitesBelow(g, this, i))
      {
        var prerequisite := immediatePrerequisites[i];
        var satisfied := prerequisite.IsSatisfied();
        if satisfied {
          satisfied := prerequisite.AllPrerequisitesAreSatisfied(g);
        }
        if !satisfied {
          BelowGrows(g, this, i + 1, |immediatePrerequisites|);
          return false;
        }
        assert PrerequisitesBelow(g, this, i + 1) ==
               PrerequisitesBelow(g, this, i) + {prerequisite} + Prerequisites(g, prerequisite);
      }
      return true;
    }

    /** Adds to `found` the unsatisfied prerequisites that are reached through satisfied, never
        called ones alone: enough to explain every unsatisfied one. */
    method FindUnsatisfiedPrerequisites(ghost g: set<Expectation>,
          found: set<Expectation>) returns (result: set<Expectation>)
      requires this in g && Acyclic(g)
      ensures result == found + LeadTo(g, this, |immediatePrerequisites|)
      ensures forall x <- result - found :: x in Prerequisites(g, this) && !(x.minCalls <= x.callCount <= x.maxCalls)
      ensures CalledInOrder(g) ==> Explains(g, result, Prerequisites(g, this))
      decreases rank
    {
      result := found;
      for i := 0 to |immediatePrerequisites|
        invariant result == found + LeadTo(g, this, i)
      {
        var prerequisite := immediatePrerequisites[i];
        LeadToNext(g, this, i);
        if prerequisite.IsSatisfied() {
          if prerequisite.callCount == 0 {
            result := prerequisite.FindUnsatisfiedPrerequisites(g, result);
          }
        } else {
          result := result + {prerequisite};
        }
      }
      LeadToExplains(g, this, |immediatePrerequisites|);
    }

    /** ShouldHandleArguments, with the match of the arguments themselves left to the caller. */
    method ShouldHandle(ghost g: set<Expectation>, matches: bool) returns (r: bool)
      requires this in g && Acyclic(g)
      ensures r <==> !retired && AllSatisfied(Prerequisites(g, this)) && matches
    {
      if retired {
        return false;
      }
      r := AllPrerequisitesAreSatisfied(g);
      r := r && matches;
    }

    /** A call that this expectation handles. */
    method GetActionForArguments(ghost g: set<Expectation>)
      requires this in g && Acyclic(g) && HistoryInv(g)
      requires !retired && AllSatisfied(Prerequisites(g, this))
      modifies g`retired, this`callCount
      ensures HistoryInv(g)
      ensures callCount == old(callCount) + 1
      ensures forall x <- g :: x != this ==>
                (x.retired <==> old(x.retired) || (old(callCount) < maxCalls && x in Prerequisites(g, this)))
      ensures retired <==> retiresOnSaturation && callCount == maxCalls
    {
      NotItsOwnPrerequisite(g, this);
      if IsSaturated() {
        callCount := callCount + 1;
        return;
      }
      CallUnsaturated(g);
    }

    /** The rest of GetActionForArguments, on an expectation that may be called once more. */
    method CallUnsaturated(ghost g: set<Expectation>)
      requires this in g && Acyclic(g) && HistoryInv(g)
      requires !retired && AllSatisfied(Prerequisites(g, this)) && callCount < maxCalls
      modifies g`retired, this`callCount
      ensures HistoryInv(g) && callCount == old(callCount) + 1
      ensures forall x <- g :: x != this ==> (x.retired <==> old(x.retired) || x in Prerequisites(g, this))
      ensures retired <==> retiresOnSaturation && callCount == maxCalls
    {
      NotItsOwnPrerequisite(g, this);
      callCount := callCount + 1;
      RetireAllPreRequisites(g);
      if retiresOnSaturation && IsSaturated() {
        retired := true;
      }
    }
  }

  // ----- the graph

  ghost predicate Acyclic(g: set<Expectation>) {
    forall e <- g, p <- e.immediatePrerequisites :: p in g && p.rank < e.rank
  }

  /** All transitive prerequisites of e. */
  ghost function Prerequisites(g: set<Expectation>, e: Expectation): set<Expectation>
    requires Acyclic(g) && e in g
    decreases e.rank, |e.immediatePrerequisites| + 1
  {
    PrerequisitesBelow(g, e, |e.immediatePrerequisites|)
  }

  /** Those reached through the first n immediate prerequisites. */
  ghost function PrerequisitesBelow(g: set<Expectation>, e: Expectation, n: nat): (s: set<Expectation>)
    requires Acyclic(g) && e in g && n <= |e.immediatePrerequisites|
    ensures s <= g
    decreases e.rank, n
  {
    if n == 0 then {} else
    var p := e.immediatePrerequisites[n - 1];
    PrerequisitesBelow(g, e, n - 1) + {p} + Prerequisites(g, p)
  }

  /** The route from e to x, by the numbers of the immediate prerequisites to take. */
  ghost predicate Reaches(g: set<Expectation>, e: Expectation, route: seq<nat>, x: Expectation)
    requires Acyclic(g) && e in g
    decreases |route|
  {
    && route != [] && route[0] < |e.immediatePrerequisites|
    && var p := e.immediatePrerequisites[route[0]];
       if |route| == 1 then p == x else Reaches(g, p, route[1..], x)
  }

  ghost predicate Reachable(g: set<Expectation>, e: Expectation, x: Expectation)
    requires Acyclic(g) && e in g
  {
    exists route: seq<nat> :: Reaches(g, e, route, x)
  }

  lemma {:induction false} RouteToPrerequisite(g: set<Expectation>, e: Expectation, n: nat, x: Expectation)
    returns (route: seq<nat>)
    requires Acyclic(g) && e in g && n <= |e.immediatePrerequisites| && x in PrerequisitesBelow(g, e, n)
    ensures Reaches(g, e, route, x)
    decreases e.rank, n
  {
    var p := e.immediatePrerequisites[n - 1];
    if x in PrerequisitesBelow(g, e, n - 1) {
      route := RouteToPrerequisite(g, e, n - 1, x);
    } else if x == p {
      route := [n - 1];
    } else {
      var rest := RouteToPrerequisite(g, p, |p.immediatePrerequisites|, x);
      route := [n - 1] + rest;
    }
  }

  lemma {:induction false} RoutesStayWithin(g: set<Expectation>, e: Expectation, route: seq<nat>, x: Expectation)
    requires Acyclic(g) && e in g && Reaches(g, e, route, x)
    ensures x in Prerequisites(g, e)
    decreases |route|
  {
    var p := e.immediatePrerequisites[route[0]];
    BelowGrows(g, e, route[0] + 1, |e.immediatePrerequisites|);
    if |route| > 1 {
      RoutesStayWithin(g, p, route[1..], x);
    }
  }

  /** The prerequisites are what immediate prerequisites reach, in one step or more. */
  lemma PrerequisitesAreReached(g: set<Expectation>, e: Expectation, x: Expectation)
    requires Acyclic(g) && e in g
    ensures x in Prerequisites(g, e) <==> Reachable(g, e, x)
  {
    if x in Prerequisites(g, e) {
      var route := RouteToPrerequisite(g, e, |e.immediatePrerequisites|, x);
      assert Reaches(g, e, route, x);
    }
    if Reachable(g, e, x) {
      var route: seq<nat> :| Reaches(g, e, route, x);
      RoutesStayWithin(g, e, route, x);
    }
  }

  /** A route to an unsatisfied x, with satisfied and never called prerequisites on the way. */
  ghost predicate Leads(g: set<Expectation>, e: Expectation, route: seq<nat>, x: Expectation)
    requires Acyclic(g) && e in g
    reads g
    decreases |route|
  {
    && route != [] && route[0] < |e.immediatePrerequisites|
    && var p := e.immediatePrerequisites[route[0]];
       if |route| == 1 then p == x && !(p.minCalls <= p.callCount <= p.maxCalls)
       else p.callCount == 0 == p.minCalls && Leads(g, p, route[1..], x)
  }

  ghost predicate LeadsBelow(g: set<Expectation>, e: Expectation, n: nat, x: Expectation)
    requires Acyclic(g) && e in g
    reads g
  {
    exists route: seq<nat> :: Leads(g, e, route, x) && route[0] < n
  }

  /** Where such routes lead that start with one of the first n immediate prerequisites. */
  ghost function LeadTo(g: set<Expectation>, e: Expectation, n: nat): set<Expectation>
    requires Acyclic(g) && e in g
    reads g
  {
    set x | x in g && LeadsBelow(g, e, n, x)
  }

  lemma LeadToNext(g: set<Expectation>, e: Expectation, i: nat)
    requires Acyclic(g) && e in g && i < |e.immediatePrerequisites|
    ensures var p := e.immediatePrerequisites[i];
            LeadTo(g, e, i + 1) == LeadTo(g, e, i) +
              if !(p.minCalls <= p.callCount <= p.maxCalls) then {p}
              else if p.callCount == 0 then LeadTo(g, p, |p.immediatePrerequisites|) else {}
  {
    var p := e.immediatePrerequisites[i];
    forall x | x in g ensures LeadsBelow(g, e, i + 1, x) <==> LeadsBelow(g, e, i, x) || LeadsThrough(g, p, x) {
      if LeadsThrough(g, p, x) {
        if x == p && !(p.minCalls <= p.callCount <= p.maxCalls) {
          assert Leads(g, e, [i], x);
        } else {
          var rest :| Leads(g, p, rest, x) && rest[0] < |p.immediatePrerequisites|;
          assert ([i] + rest)[1..] == rest;
          assert Leads(g, e, [i] + rest, x);
        }
      }
      if LeadsBelow(g, e, i + 1, x) && !LeadsBelow(g, e, i, x) {
        var route :| Leads(g, e, route, x) && route[0] < i + 1;
        if |route| > 1 {
          assert Leads(g, p, route[1..], x);
        }
      }
    }
  }

  ghost predicate LeadsThrough(g: set<Expectation>, p: Expectation, x: Expectation)
    requires Acyclic(g) && p in g
    reads g
  {
    || (x == p && !(p.minCalls <= p.callCount <= p.maxCalls))
    || (p.callCount == 0 == p.minCalls && LeadsBelow(g, p, |p.immediatePrerequisites|, x))
  }

  lemma {:induction false} BelowGrows(g: set<Expectation>, e: Expectation, m: nat, n: nat)
    requires Acyclic(g) && e in g && m <= n <= |e.immediatePrerequisites|
    ensures PrerequisitesBelow(g, e, m) <= PrerequisitesBelow(g, e, n)
  {
    if m < n {
      BelowGrows(g, e, m, n - 1);
    }
  }

  lemma {:induction false} PrerequisitesTransitive(g: set<Expectation>, e: Expectation, n: nat, p: Expectation)
    requires Acyclic(g) && e in g && n <= |e.immediatePrerequisites| && p in PrerequisitesBelow(g, e, n)
    ensures p.rank < e.rank && Prerequisites(g, p) <= PrerequisitesBelow(g, e, n)
    decreases e.rank, n
  {
    var q := e.immediatePrerequisites[n - 1];
    if p in PrerequisitesBelow(g, e, n - 1) {
      PrerequisitesTransitive(g, e, n - 1, p);
    } else if p != q {
      PrerequisitesTransitive(g, q, |q.immediatePrerequisites|, p);
    }
  }

  lemma NotItsOwnPrerequisite(g: set<Expectation>, e: Expectation)
    requires Acyclic(g) && e in g
    ensures e !in Prerequisites(g, e)
  {
    if e in Prerequisites(g, e) {
      PrerequisitesTransitive(g, e, |e.immediatePrerequisites|, e);
    }
  }

  /** Called from minCalls to maxCalls times. */
  ghost predicate AllSatisfied(s: set<Expectation>)
    reads s
  {
    forall x <- s :: x.minCalls <= x.callCount <= x.maxCalls
  }

  ghost predicate AllRetired(s: set<Expectation>)
    reads s
  {
    forall x <- s :: x.retired
  }

  /** An expectation is not retired before its prerequisites. */
  ghost predicate RetiredClosed(g: set<Expectation>)
    requires Acyclic(g)
    reads g
  {
    forall e <- g :: e.retired ==> AllRetired(Prerequisites(g, e))
  }

  /** A satisfied expectation that has been called has all its prerequisites satisfied. */
  ghost predicate CalledInOrder(g: set<Expectation>)
    requires Acyclic(g)
    reads g
  {
    forall e <- g :: e.callCount > 0 && e.IsSatisfied() ==> AllSatisfied(Prerequisites(g, e))
  }

  /** Every unsatisfied member of s is in `found` or behind a member of `found`. */
  ghost predicate Explains(g: set<Expectation>, found: set<Expectation>, s: set<Expectation>)
    requires Acyclic(g)
    reads s
  {
    forall x <- s :: x.IsSatisfied() || x in found || exists y <- found :: y in g && x in Prerequisites(g, y)
  }

  /** What such routes lead to are prerequisites, and if calls came in order no unsatisfied one
      is left unexplained. */
  lemma {:induction false} LeadToExplains(g: set<Expectation>, e: Expectation, n: nat)
    requires Acyclic(g) && e in g && n <= |e.immediatePrerequisites|
    ensures forall x <- LeadTo(g, e, n) ::
              x in PrerequisitesBelow(g, e, n) && !(x.minCalls <= x.callCount <= x.maxCalls)
    ensures CalledInOrder(g) ==> Explains(g, LeadTo(g, e, n), PrerequisitesBelow(g, e, n))
    decreases e.rank, n
  {
    if n > 0 {
      var p := e.immediatePrerequisites[n - 1];
      LeadToExplains(g, e, n - 1);
      LeadToExplains(g, p, |p.immediatePrerequisites|);
      LeadToNext(g, e, n - 1);
    }
  }

  // ----- all histories of calls

  /** What every history of handled calls keeps.  An expectation that allows calls at all and
      has been called has its prerequisites satisfied, and retired so that they stay so. */
  ghost predicate HistoryInv(g: set<Expectation>)
    requires Acyclic(g)
    reads g
  {
    && RetiredClosed(g)
    && forall e <- g :: e.callCount > 0 && e.maxCalls > 0 ==>
         AllSatisfied(Prerequisites(g, e)) && AllRetired(Prerequisites(g, e))
  }

  lemma FreshHistory(g: set<Expectation>)
    requires Acyclic(g)
    requires forall e <- g :: e.callCount == 0 && !e.retired
    ensures HistoryInv(g)
  {
  }

  lemma HistoryIsInOrder(g: set<Expectation>)
    requires Acyclic(g) && HistoryInv(g)
    ensures CalledInOrder(g)
  {
  }

  // ----- which calls a history accepts

  /** A call offered to an expectation, with arguments that match it or not. */
  datatype Offer = Offer(to: Expectation, matches: bool)

  datatype Ledger = Ledger(counts: map<Expectation, nat>, retired: set<Expectation>) {
    ghost predicate Satisfied(e: Expectation)
      requires e in counts
    {
      e.minCalls <= counts[e] <= e.maxCalls
    }

    ghost predicate Accepts(g: set<Expectation>, o: Offer)
      requires Acyclic(g) && o.to in g && counts.Keys == g
    {
      o.to !in retired && (forall p <- Prerequisites(g, o.to) :: Satisfied(p)) && o.matches
    }

    /** One more call; the prerequisites have had their last, and so has a saturated
        expectation that retires on saturation. */
    ghost function Called(g: set<Expectation>, e: Expectation): Ledger
      requires Acyclic(g) && e in g && counts.Keys == g
    {
      var counts' := counts[e := counts[e] + 1];
      if counts[e] >= e.maxCalls then this.(counts := counts') else
      Ledger(counts',
        retired + Prerequisites(g, e) + if e.retiresOnSaturation && counts'[e] >= e.maxCalls then {e} else {})
    }
  }

  ghost function LedgerOf(g: set<Expectation>): (l: Ledger)
    reads g
    ensures l.counts.Keys == g
  {
    Ledger(map e | e in g :: e.callCount, set e | e in g && e.retired)
  }

  ghost predicate Offered(g: set<Expectation>, offers: seq<Offer>) {
    forall o <- offers :: o.to in g
  }

  ghost function After(g: set<Expectation>, offers: seq<Offer>): (l: Ledger)
    requires Acyclic(g) && Offered(g, offers)
    ensures l.counts.Keys == g
  {
    if offers == [] then Ledger(map e | e in g :: 0, {}) else
    var before := After(g, offers[..|offers| - 1]);
    var o := offers[|offers| - 1];
    if before.Accepts(g, o) then before.Called(g, o.to) else before
  }

  /** The k-th offer is accepted when its turn comes. */
  ghost predicate Accepted(g: set<Expectation>, offers: seq<Offer>, k: nat)
    requires Acyclic(g) && Offered(g, offers) && k < |offers|
  {
    After(g, offers[..k]).Accepts(g, offers[k])
  }

  ghost function AcceptedBy(g: set<Expectation>, offers: seq<Offer>, e: Expectation): set<nat>
    requires Acyclic(g) && Offered(g, offers)
  {
    set k: nat | k < |offers| && offers[k].to == e && Accepted(g, offers, k)
  }

  ghost function Below(s: set<nat>, n: nat): set<nat> {
    set k | k in s && k < n
  }

  lemma AfterPrefix(g: set<Expectation>, offers: seq<Offer>, k: nat)
    requires Acyclic(g) && Offered(g, offers) && k < |offers|
    ensures After(g, offers[..k + 1]) ==
            if Accepted(g, offers, k) then After(g, offers[..k]).Called(g, offers[k].to) else After(g, offers[..k])
  {
    assert offers[..k + 1][..k] == offers[..k];
  }

  lemma BelowNext(s: set<nat>, n: nat)
    ensures |Below(s, n + 1)| == |Below(s, n)| + if n in s then 1 else 0
  {
    assert Below(s, n + 1) == Below(s, n) + if n in s then {n} else {};
  }

  /** The call count of e is the number of accepted calls to it, at every point of the history. */
  lemma {:induction false} CountsAreAcceptedCalls(g: set<Expectation>, offers: seq<Offer>, n: nat, e: Expectation)
    requires Acyclic(g) && Offered(g, offers) && n <= |offers| && e in g
    ensures After(g, offers[..n]).counts[e] == |Below(AcceptedBy(g, offers, e), n)|
  {
    if n == 0 {
      assert Below(AcceptedBy(g, offers, e), n) == {};
    } else {
      AfterPrefix(g, offers, n - 1);
      CountsAreAcceptedCalls(g, offers, n - 1, e);
      BelowNext(AcceptedBy(g, offers, e), n - 1);
    }
  }

  /** Once a call to e has been accepted, its prerequisites are satisfied and retired for good. */
  ghost predicate Settled(g: set<Expectation>, l: Ledger, e: Expectation)
    requires Acyclic(g) && e in g && l.counts.Keys == g
  {
    forall p <- Prerequisites(g, e) :: l.Satisfied(p) && p in l.retired
  }

  lemma {:induction false} CalledIsSettled(g: set<Expectation>, offers: seq<Offer>, e: Expectation)
    requires Acyclic(g) && Offered(g, offers) && e in g && e.maxCalls > 0
    ensures After(g, offers).counts[e] > 0 ==> Settled(g, After(g, offers), e)
  {
    if offers != [] && After(g, offers).counts[e] > 0 {
      var n := |offers| - 1;
      var before, o := After(g, offers[..n]), offers[n];
      CalledIsSettled(g, offers[..n], e);
      NotItsOwnPrerequisite(g, e);
    }
  }

  /** Calls come in order: after an accepted call to an expectation that allows calls, no call
      to any of its prerequisites is accepted. */
  lemma CallsComeInOrder(g: set<Expectation>, offers: seq<Offer>, i: nat, j: nat)
    requires Acyclic(g) && Offered(g, offers) && i < |offers| && j < |offers|
    requires Accepted(g, offers, i) && offers[i].to.maxCalls > 0
    requires Accepted(g, offers, j) && offers[j].to in Prerequisites(g, offers[i].to)
    ensures j < i
  {
    NotItsOwnPrerequisite(g, offers[i].to);
    if i < j {
      CountsAreAcceptedCalls(g, offers, j, offers[i].to);
      assert i in Below(AcceptedBy(g, offers, offers[i].to), j);
      CalledIsSettled(g, offers[..j], offers[i].to);
    }
  }

  /** Any sequence of calls, each offered to some expectation, is handled as `After` says and
      keeps the invariant; after it the explanation of a refused call is empty exactly when no
      prerequisite is missing. */
  method HandleCalls(g: set<Expectation>, offers: seq<Offer>,
        asked: Expectation) returns (unsatisfied: set<Expectation>)
    requires Acyclic(g) && asked in g && Offered(g, offers)
    requires forall e <- g :: e.callCount == 0 && !e.retired
    modifies g
    ensures HistoryInv(g) && LedgerOf(g) == After(g, offers)
    ensures unsatisfied == {} <==> AllSatisfied(Prerequisites(g, asked))
    ensures forall x <- unsatisfied :: x in Prerequisites(g, asked) && !(x.minCalls <= x.callCount <= x.maxCalls)
  {
    FreshHistory(g);
    assert offers[..0] == [];
    for i := 0 to |offers|
      invariant HistoryInv(g) && LedgerOf(g) == After(g, offers[..i])
    {
      AfterPrefix(g, offers, i);
      HandleCall(g, offers[i]);
    }
    assert offers[..|offers|] == offers;
    HistoryIsInOrder(g);
    unsatisfied := asked.FindUnsatisfiedPrerequisites(g, {});
  }

  method HandleCall(g: set<Expectation>, o: Offer)
    requires Acyclic(g) && o.to in g && HistoryInv(g)
    modifies g
    ensures HistoryInv(g)
    ensures LedgerOf(g) == if old(LedgerOf(g).Accepts(g, o)) then old(LedgerOf(g)).Called(g, o.to) else old(LedgerOf(g))
  {
    var handles := o.to.ShouldHandle(g, o.matches);
    if handles {
      Handle(g, o.to);
    }
  }

  method Handle(g: set<Expectation>, e: Expectation)
    requires Acyclic(g) && e in g && HistoryInv(g)
    requires !e.retired && AllSatisfied(Prerequisites(g, e))
    modifies g
    ensures HistoryInv(g)
    ensures LedgerOf(g) == old(LedgerOf(g)).Called(g, e)
  {
    NotItsOwnPrerequisite(g, e);
    ghost var after := LedgerOf(g).Called(g, e);
    e.GetActionForArguments(g);
    forall x | x in g ensures x.callCount == after.counts[x] && (x.retired <==> x in after.retired) {
      if x == e {
      }
    }
    assert LedgerOf(g).counts == after.counts;
    assert LedgerOf(g).retired == after.retired;
  }
}
