/** What UnorderedElementsAre decides with a maximum matching. */
module UnorderedElementsAre {
  import opened Matchings
  import MaxBipartiteMatch

  /** True iff every matcher can be given an element of its own.  On false, `short` is a
      set of matchers that between them accept too few elements. */
  method FindPairing(matrix: Graph) returns (result: bool, ghost short: set<nat>)
    ensures result <==> HasPairing(matrix)
    ensures !result ==> HallViolator(matrix, short)
  {
    var matches, cover := MaxBipartiteMatch.FindMaxBipartiteMatching(matrix);
    var maxFlow := |matches|;
    result := maxFlow == matrix.rhsSize;
    short := Below(matrix.rhsSize) - cover.rights;
    if !result {
      forall owner: seq<nat> | IsPairing(matrix, owner) ensures false {
        NoPairingWithoutFullFlow(matrix, PairSet(matches), owner);
      }
      MatchingFitsRight(matrix, PairSet(matches));
      SmallCoverGivesViolator(matrix, cover);
      return;
    }
    FullMatchingIsPairing(matrix, PairSet(matches));
  }

  lemma MatchingFitsRight(g: Graph, m: set<Pair>)
    requires IsMatching(g, m)
    ensures |m| <= g.rhsSize
  {
    BelowSize(g.rhsSize);
    DistinctKeysBound(m, (p: Pair) => p.1, Below(g.rhsSize));
  }

  lemma NoPairingWithoutFullFlow(g: Graph, m: set<Pair>, owner: seq<nat>)
    requires IsMaximum(g, m) && IsPairing(g, owner)
    ensures |m| == g.rhsSize
  {
    PairingIsFullMatching(g, owner);
    MatchingFitsRight(g, m);
  }

  ghost predicate AcceptedBelow(g: Graph, l: int, n: nat) {
    exists r: nat :: r < n && Edge(g, l, r)
  }

  ghost predicate AcceptsBelow(g: Graph, r: int, n: nat) {
    exists l: nat :: l < n && Edge(g, l, r)
  }

  lemma OneMoreEntry(g: Graph, l: nat, r: nat)
    ensures AcceptedBelow(g, l, r + 1) <==> AcceptedBelow(g, l, r) || Edge(g, l, r)
    ensures AcceptsBelow(g, r, l + 1) <==> AcceptsBelow(g, r, l) || Edge(g, l, r)
  {
  }

  /** Every matcher matches some element and every element some matcher. */
  ghost predicate NoneIsolated(g: Graph) {
    && (forall r | 0 <= r < g.rhsSize :: AcceptsBelow(g, r, g.lhsSize))
    && (forall l | 0 <= l < g.lhsSize :: AcceptedBelow(g, l, g.rhsSize))
  }

  method VerifyAllElementsAndMatchersAreMatched(matrix: Graph) returns (result: bool)
    ensures result <==> NoneIsolated(matrix)
  {
    result := true;
    var elementMatched := new bool[matrix.lhsSize](_ => false);
    var matcherMatched := new bool[matrix.rhsSize](_ => false);
    for ilhs := 0 to matrix.lhsSize
      invariant forall l | 0 <= l < ilhs :: elementMatched[l] <==> AcceptedBelow(matrix, l, matrix.rhsSize)
      invariant forall l | ilhs <= l < matrix.lhsSize :: !elementMatched[l]
      invariant forall r | 0 <= r < matrix.rhsSize :: matcherMatched[r] <==> AcceptsBelow(matrix, r, ilhs)
    {
      for irhs := 0 to matrix.rhsSize
        invariant forall l | 0 <= l < ilhs :: elementMatched[l] <==> AcceptedBelow(matrix, l, matrix.rhsSize)
        invariant elementMatched[ilhs] <==> AcceptedBelow(matrix, ilhs, irhs)
        invariant forall l | ilhs < l < matrix.lhsSize :: !elementMatched[l]
        invariant forall r | 0 <= r < irhs :: matcherMatched[r] <==> AcceptsBelow(matrix, r, ilhs + 1)
        invariant forall r | irhs <= r < matrix.rhsSize :: matcherMatched[r] <==> AcceptsBelow(matrix, r, ilhs)
      {
        var matched := matrix.HasEdge(ilhs, irhs);
        OneMoreEntry(matrix, ilhs, irhs);
        elementMatched[ilhs] := elementMatched[ilhs] || matched;
        matcherMatched[irhs] := matcherMatched[irhs] || matched;
      }
    }
    for mi := 0 to matcherMatched.Length
      invariant result <==> forall r | 0 <= r < mi :: matcherMatched[r]
    {
      if !matcherMatched[mi] {
        result := false;
      }
    }
    ghost var matchersOk := result;
    for ei := 0 to elementMatched.Length
      invariant result <==> matchersOk && forall l | 0 <= l < ei :: elementMatched[l]
    {
      if !elementMatched[ei] {
        result := false;
      }
    }
  }

  /** The pre-check rejects no square matrix that has a pairing. */
  lemma PairingIsolatesNone(g: Graph)
    requires g.lhsSize == g.rhsSize && HasPairing(g)
    ensures NoneIsolated(g)
  {
    var owner: seq<nat> :| IsPairing(g, owner);
    forall l | 0 <= l < g.lhsSize ensures AcceptedBelow(g, l, g.rhsSize) {
      PairingReachesElement(g, owner, l);
    }
    forall r | 0 <= r < g.rhsSize ensures AcceptsBelow(g, r, g.lhsSize) {
      assert Edge(g, owner[r], r);
    }
  }

  lemma PairingReachesElement(g: Graph, owner: seq<nat>, l: nat)
    requires IsPairing(g, owner) && l < g.lhsSize == g.rhsSize
    ensures AcceptedBelow(g, l, g.rhsSize)
  {
    var m := PairingEdges(owner, Below(g.rhsSize));
    var others := Below(g.lhsSize) - {l};
    PairingIsFullMatching(g, owner);
    BelowSize(g.lhsSize);
    assert |others| == g.lhsSize - 1;
    if p :| p in m && p.0 == l {
      assert Edge(g, l, p.1);
    } else {
      DistinctKeysBound(m, (p: Pair) => p.0, others);
    }
  }

  /** Some permutation of the elements satisfies the matchers one by one. */
  ghost predicate SomePermutationMatches<E>(elements: seq<E>, matchers: seq<E -> bool>) {
    exists order: seq<nat> :: PermutationMatches(elements, matchers, order)
  }

  ghost predicate PermutationMatches<E>(elements: seq<E>, matchers: seq<E -> bool>, order: seq<nat>) {
    && |order| == |matchers| == |elements|
    && (forall i | 0 <= i < |order| :: order[i] < |elements| && matchers[i](elements[order[i]]))
    && (forall i, j | 0 <= i < j < |order| :: order[i] != order[j])
  }

  /** The matrix holds exactly which element each matcher accepts. */
  method AnalyzeElements<E>(elements: seq<E>, matchers: seq<E -> bool>) returns (matrix: Graph)
    ensures matrix.lhsSize == |elements| && matrix.rhsSize == |matchers|
    ensures forall l, r | 0 <= l < |elements| && 0 <= r < |matchers| ::
              matrix.HasEdge(l, r) <==> matchers[r](elements[l])
  {
    var didMatch: seq<bool> := [];
    var n := |matchers|;
    for ilhs := 0 to |elements|
      invariant |didMatch| == ilhs * n
      invariant RowsDone(elements, matchers, ilhs, didMatch)
    {
      ghost var rows := didMatch;
      for irhs := 0 to n
        invariant |didMatch| == |rows| + irhs && didMatch[..|rows|] == rows
        invariant forall r | 0 <= r < irhs :: didMatch[|rows| + r] <==> matchers[r](elements[ilhs])
      {
        didMatch := didMatch + [matchers[irhs](elements[ilhs])];
      }
      AddRow(elements, matchers, ilhs, rows, didMatch);
    }
    matrix := MatchMatrix(|elements|, n, didMatch);
  }

  ghost predicate RowsDone<E>(elements: seq<E>, matchers: seq<E -> bool>, rows: nat, didMatch: seq<bool>) {
    && rows <= |elements|
    && |didMatch| == rows * |matchers|
    && var m := MatchMatrix(rows, |matchers|, didMatch);
       forall l, r | 0 <= l < rows && 0 <= r < |matchers| :: m.HasEdge(l, r) <==> matchers[r](elements[l])
  }

  lemma AddRow<E>(elements: seq<E>, matchers: seq<E -> bool>, n: nat, rows: seq<bool>, rows': seq<bool>)
    requires RowsDone(elements, matchers, n, rows) && n < |elements|
    requires |rows'| == |rows| + |matchers| && rows'[..|rows|] == rows
    requires forall r | 0 <= r < |matchers| :: rows'[|rows| + r] <==> matchers[r](elements[n])
    ensures |rows'| == (n + 1) * |matchers|
    ensures RowsDone(elements, matchers, n + 1, rows')
  {
    var m, m' := MatchMatrix(n, |matchers|, rows), MatchMatrix(n + 1, |matchers|, rows');
    forall l, r | 0 <= l < n + 1 && 0 <= r < |matchers| ensures m'.HasEdge(l, r) <==> matchers[r](elements[l]) {
      if l < n {
        assert m'.SpaceIndex(l, r) == m.SpaceIndex(l, r) < |rows|;
        assert m.HasEdge(l, r) <==> matchers[r](elements[l]);
      }
    }
  }

  /** UnorderedElementsAre accepts a container iff some permutation of it matches. */
  method MatchAndExplain<E>(elements: seq<E>, matchers: seq<E -> bool>) returns (result: bool)
    ensures result <==> SomePermutationMatches(elements, matchers)
  {
    var matrix := AnalyzeElements(elements, matchers);
    var actualCount := matrix.lhsSize;
    if actualCount == 0 && |matchers| == 0 {
      assert PermutationMatches(elements, matchers, []);
      return true;
    }
    if actualCount != |matchers| {
      return false;
    }
    PairingsArePermutations(elements, matchers, matrix);
    if HasPairing(matrix) {
      PairingIsolatesNone(matrix);
    }
    result := VerifyAllElementsAndMatchersAreMatched(matrix);
    if result {
      ghost var short;
      result, short := FindPairing(matrix);
    }
  }

  lemma PairingsArePermutations<E>(elements: seq<E>, matchers: seq<E -> bool>, matrix: Graph)
    requires matrix.lhsSize == |elements| == |matchers| == matrix.rhsSize
    requires forall l, r | 0 <= l < |elements| && 0 <= r < |matchers| ::
               matrix.HasEdge(l, r) <==> matchers[r](elements[l])
    ensures HasPairing(matrix) <==> SomePermutationMatches(elements, matchers)
  {
    forall order: seq<nat> ensures IsPairing(matrix, order) <==> PermutationMatches(elements, matchers, order) {
    }
  }
}
