/** The graph of an unordered match and what is true of its matchings:
    weak duality with vertex covers, Hall's condition, and how one augmenting
    path changes a matching.  Left nodes are elements, right nodes matchers. */
module Matchings {

  const UNUSED: int := -1

  /** Connectivity matrix of elements by matchers, flattened element by element. */
  datatype MatchMatrix = MatchMatrix(lhsSize: nat, rhsSize: nat, matched: seq<bool>) {
    ghost predicate Valid() {
      |matched| == lhsSize * rhsSize
    }

    function SpaceIndex(ilhs: nat, irhs: nat): (i: nat)
      requires ilhs < lhsSize && irhs < rhsSize
      ensures i < lhsSize * rhsSize
    {
      SpaceIndexInRange(ilhs, irhs);
      ilhs * rhsSize + irhs
    }

    lemma SpaceIndexInRange(ilhs: nat, irhs: nat)
      requires ilhs < lhsSize && irhs < rhsSize
      ensures ilhs * rhsSize + irhs < lhsSize * rhsSize
    {
      assert (ilhs + 1) * rhsSize <= lhsSize * rhsSize;
    }

    predicate HasEdge(ilhs: nat, irhs: nat)
      requires Valid()
      requires ilhs < lhsSize && irhs < rhsSize
    {
      matched[SpaceIndex(ilhs, irhs)]
    }
  }

  type Graph = g: MatchMatrix | g.Valid() witness MatchMatrix(0, 0, [])

  ghost predicate Edge(g: Graph, l: int, r: int) {
    0 <= l < g.lhsSize && 0 <= r < g.rhsSize && g.HasEdge(l, r)
  }

  // ----- matchings and covers

  type Pair = (nat, nat)

  /** Edges no two of which share an end. */
  ghost predicate IsMatching(g: Graph, m: set<Pair>) {
    && (forall p <- m :: Edge(g, p.0, p.1))
    && (forall p <- m, q <- m :: p.0 == q.0 || p.1 == q.1 ==> p == q)
  }

  ghost predicate IsMaximum(g: Graph, m: set<Pair>) {
    && IsMatching(g, m)
    && forall m': set<Pair> :: IsMatching(g, m') ==> |m'| <= |m|
  }

  datatype Cover = Cover(lefts: set<nat>, rights: set<nat>) {
    ghost function Size(): nat { |lefts| + |rights| }
  }

  ghost predicate IsCover(g: Graph, c: Cover) {
    forall l: nat, r: nat :: Edge(g, l, r) ==> l in c.lefts || r in c.rights
  }

  /** A set of pairs with distinct keys in `s` is no larger than `s`. */
  lemma {:induction false} DistinctKeysBound(m: set<Pair>, key: Pair -> nat, s: set<nat>)
    requires forall p <- m :: key(p) in s
    requires forall p <- m, q <- m :: key(p) == key(q) ==> p == q
    ensures |m| <= |s|
  {
    if p :| p in m {
      DistinctKeysBound(m - {p}, key, s - {key(p)});
      assert |m| == |m - {p}| + 1;
    }
  }

  /** Any matching fits inside any vertex cover. */
  lemma WeakDuality(g: Graph, m: set<Pair>, c: Cover)
    requires IsMatching(g, m) && IsCover(g, c)
    ensures |m| <= c.Size()
  {
    var byLeft := set p | p in m && p.0 in c.lefts;
    DistinctKeysBound(byLeft, (p: Pair) => p.0, c.lefts);
    DistinctKeysBound(m - byLeft, (p: Pair) => p.1, c.rights);
    assert m == byLeft + (m - byLeft);
  }

  // ----- pairings of all matchers, and Hall's condition

  /** `owner[r]` is the element given to matcher r: distinct and matching. */
  ghost predicate IsPairing(g: Graph, owner: seq<nat>) {
    && |owner| == g.rhsSize
    && (forall r | 0 <= r < |owner| :: Edge(g, owner[r], r))
    && (forall r, r' | 0 <= r < r' < |owner| :: owner[r] != owner[r'])
  }

  ghost predicate HasPairing(g: Graph) {
    exists owner: seq<nat> :: IsPairing(g, owner)
  }

  function Below(n: nat): (s: set<nat>)
    ensures forall i: nat :: i in s <==> i < n
  {
    if n == 0 then {} else Below(n - 1) + {n - 1}
  }

  lemma {:induction false} BelowSize(n: nat)
    ensures |Below(n)| == n
  {
    if n > 0 {
      BelowSize(n - 1);
    }
  }

  /** The elements that some matcher of `w` accepts. */
  ghost function Neighbours(g: Graph, w: set<nat>): set<nat> {
    set l | l in Below(g.lhsSize) && exists r <- w :: Edge(g, l, r)
  }

  /** A set of matchers that jointly accept fewer elements than it has members. */
  ghost predicate HallViolator(g: Graph, w: set<nat>) {
    && w <= Below(g.rhsSize)
    && |Neighbours(g, w)| < |w|
  }

  ghost function PairingEdges(owner: seq<nat>, w: set<nat>): set<Pair>
    requires w <= Below(|owner|)
  {
    set r | r in w :: (owner[r], r)
  }

  lemma {:induction false} PairingEdgesSize(owner: seq<nat>, w: set<nat>)
    requires w <= Below(|owner|)
    ensures |PairingEdges(owner, w)| == |w|
  {
    if r :| r in w {
      PairingEdgesSize(owner, w - {r});
      assert PairingEdges(owner, w) == PairingEdges(owner, w - {r}) + {(owner[r], r)};
    }
  }

  /** The easy half of Hall's theorem: a violator rules out every pairing. */
  lemma HallViolatorBlocksPairing(g: Graph, w: set<nat>)
    requires HallViolator(g, w)
    ensures !HasPairing(g)
  {
    forall owner: seq<nat> | IsPairing(g, owner) ensures false {
      var m := PairingEdges(owner, w);
      PairingEdgesSize(owner, w);
      DistinctKeysBound(m, (p: Pair) => p.0, Neighbours(g, w));
    }
  }

  /** The hard half: a cover smaller than the number of matchers yields a violator. */
  lemma SmallCoverGivesViolator(g: Graph, c: Cover)
    requires IsCover(g, c) && c.Size() < g.rhsSize
    ensures HallViolator(g, Below(g.rhsSize) - c.rights)
  {
    var all := Below(g.rhsSize);
    var w := all - c.rights;
    BelowSize(g.rhsSize);
    SubsetSize(Neighbours(g, w), c.lefts);
    SubsetSize(all * c.rights, c.rights);
    assert all == w + all * c.rights;
  }

  lemma SubsetSize(a: set<nat>, b: set<nat>)
    requires a <= b
    ensures |a| <= |b|
  {
    assert b == a + (b - a);
  }

  ghost predicate Owned(m: set<Pair>, r: nat) {
    exists l: nat :: (l, r) in m
  }

  ghost function OwnerOf(m: set<Pair>, r: nat): (l: nat)
    requires Owned(m, r)
    ensures (l, r) in m
  {
    var l: nat :| (l, r) in m; l
  }

  /** A matching as large as the right side pairs every matcher. */
  lemma FullMatchingIsPairing(g: Graph, m: set<Pair>)
    requires IsMatching(g, m) && |m| == g.rhsSize
    ensures HasPairing(g)
  {
    forall r: nat | r < g.rhsSize ensures Owned(m, r) {
      if !Owned(m, r) {
        BelowSize(g.rhsSize);
        DistinctKeysBound(m, (p: Pair) => p.1, Below(g.rhsSize) - {r});
      }
    }
    var owner := seq(g.rhsSize, r requires 0 <= r < g.rhsSize => OwnerOf(m, r));
    assert forall r | 0 <= r < |owner| :: (owner[r], r) in m;
    assert IsPairing(g, owner);
  }

  /** No matching is larger than the right side, and a pairing is one that large. */
  lemma PairingIsFullMatching(g: Graph, owner: seq<nat>)
    requires IsPairing(g, owner)
    ensures IsMatching(g, PairingEdges(owner, Below(g.rhsSize)))
    ensures |PairingEdges(owner, Below(g.rhsSize))| == g.rhsSize
  {
    BelowSize(g.rhsSize);
    PairingEdgesSize(owner, Below(g.rhsSize));
  }

  // ----- the flow kept in two mutually referent vectors

  /** left[l] == UNUSED or right[left[l]] == l, the same from the right, and all flow on edges. */
  ghost predicate Mutual(g: Graph, left: seq<int>, right: seq<int>) {
    && |left| == g.lhsSize && |right| == g.rhsSize
    && (forall l | 0 <= l < |left| :: left[l] != UNUSED ==> Edge(g, l, left[l]) && right[left[l]] == l)
    && (forall r | 0 <= r < |right| :: right[r] != UNUSED ==> Edge(g, right[r], r) && left[right[r]] == r)
  }

  ghost function MatchedLefts(left: seq<int>, n: nat): set<nat>
    requires n <= |left|
  {
    set l: nat | l < n && left[l] != UNUSED
  }

  /** A simple path of the residual graph from left node l to the sink, given by
      its right nodes: each but the last is matched, and the path goes on from its partner. */
  ghost predicate AugmentingPath(g: Graph, right: seq<int>, l: int, path: seq<nat>)
    requires |right| == g.rhsSize
    decreases |path|
  {
    && path != [] && Edge(g, l, path[0]) && path[0] !in path[1..]
    && if |path| == 1 then right[path[0]] == UNUSED else
       right[path[0]] != UNUSED && AugmentingPath(g, right, right[path[0]], path[1..])
  }

  ghost predicate InRange(left: seq<int>, right: seq<int>, path: seq<nat>) {
    forall i | 0 <= i < |path| :: path[i] < |right| && (right[path[i]] == UNUSED || 0 <= right[path[i]] < |left|)
  }

  /** Pushing one unit of flow along an augmenting path, far end first. */
  ghost function Augmented(left: seq<int>, right: seq<int>, l: int, path: seq<nat>): (r: (seq<int>, seq<int>))
    requires path != [] && 0 <= l < |left|
    requires InRange(left, right, path)
    ensures |r.0| == |left| && |r.1| == |right|
    decreases |path|
  {
    var (left', right') :=
      if |path| == 1 || right[path[0]] == UNUSED then (left, right)
      else Augmented(left, right, right[path[0]], path[1..]);
    (left'[l := path[0]], right'[path[0] := l])
  }

  lemma {:induction false} PathInRange(g: Graph, left: seq<int>, right: seq<int>, l: int, path: seq<nat>)
    requires Mutual(g, left, right) && AugmentingPath(g, right, l, path)
    ensures 0 <= l < |left| && InRange(left, right, path)
    decreases |path|
  {
    if |path| > 1 {
      PathInRange(g, left, right, right[path[0]], path[1..]);
      assert path == [path[0]] + path[1..];
    }
  }

  /** Giving the free right node r to l, and freeing the node l had before, if any. */
  lemma Relink(g: Graph, left: seq<int>, right: seq<int>, l: int, r: int)
    requires Mutual(g, left, right) && Edge(g, l, r) && right[r] == UNUSED
    ensures Mutual(g, left[l := r], if left[l] == UNUSED then right[r := l] else right[r := l][left[l] := UNUSED])
  {
  }

  /** Flow along a path moves only l, the path and its partners, and leaves no matched node unmatched. */
  lemma {:induction false} AugmentedMovesOnlyPath(g: Graph, left: seq<int>, right: seq<int>, l: int, path: seq<nat>)
    requires Mutual(g, left, right) && AugmentingPath(g, right, l, path) && InRange(left, right, path)
    ensures var (left', right') := Augmented(left, right, l, path);
            && left'[l] == path[0]
            && (forall k | 0 <= k < |left| && k != l :: left'[k] == UNUSED <==> left[k] == UNUSED)
            && (forall k | 0 <= k < |left| && k != l && left[k] !in path :: left'[k] == left[k])
            && (forall r | 0 <= r < |right| && r !in path :: right'[r] == right[r])
    decreases |path|
  {
    var r := path[0];
    assert path == [r] + path[1..];
    if |path| > 1 {
      assert left[right[r]] == r;
      AugmentedMovesOnlyPath(g, left, right, right[r], path[1..]);
    }
  }

  /** Flow along a path keeps mutual reference, also when l is already matched to a node off the
      path, whose back reference is then the one stale entry (the caller overwrites it). */
  lemma {:induction false} AugmentedKeepsFlow(g: Graph, left: seq<int>, right: seq<int>, l: int, path: seq<nat>)
    requires Mutual(g, left, right) && AugmentingPath(g, right, l, path) && InRange(left, right, path)
    requires left[l] !in path
    ensures var (left', right') := Augmented(left, right, l, path);
            Mutual(g, left', if left[l] == UNUSED then right' else right'[left[l] := UNUSED])
    decreases |path|
  {
    var r := path[0];
    if |path| == 1 {
      Relink(g, left, right, l, r);
    } else {
      var l1 := right[r];
      AugmentedKeepsFlow(g, left, right, l1, path[1..]);
      AugmentedMovesOnlyPath(g, left, right, l1, path[1..]);
      var (left1, right1) := Augmented(left, right, l1, path[1..]);
      Relink(g, left1, right1[r := UNUSED], l, r);
      assert right1[r := UNUSED][r := l] == right1[r := l];
    }
  }

  /** One augmentation of an unmatched left node adds that node to the matched
      ones, removes none, and restores mutual reference. */
  lemma AugmentationGrowsByOne(g: Graph, left: seq<int>, right: seq<int>, l: nat, path: seq<nat>)
    requires Mutual(g, left, right) && AugmentingPath(g, right, l, path)
    requires l < |left| && left[l] == UNUSED
    requires InRange(left, right, path)
    ensures var (left', right') := Augmented(left, right, l, path);
            && Mutual(g, left', right')
            && MatchedLefts(left', |left|) == MatchedLefts(left, |left|) + {l}
            && |MatchedLefts(left', |left|)| == |MatchedLefts(left, |left|)| + 1
  {
    AugmentedKeepsFlow(g, left, right, l, path);
    AugmentedMovesOnlyPath(g, left, right, l, path);
    var (left', _) := Augmented(left, right, l, path);
    assert MatchedLefts(left', |left|) == MatchedLefts(left, |left|) + {l};
  }

  // ----- searches that failed

  /** What a failed search from l leaves behind: it saw every neighbour of l, and each
      right node it newly saw is matched to a left node all of whose neighbours it saw. */
  ghost predicate Exhausted(g: Graph, right: seq<int>, l: int, before: seq<bool>, after: seq<bool>) {
    && |right| == |before| == |after| == g.rhsSize
    && (forall r :: Edge(g, l, r) ==> after[r])
    && (forall r | 0 <= r < |after| && after[r] && !before[r] ::
          right[r] != UNUSED && forall r' :: Edge(g, right[r], r') ==> after[r'])
  }

  ghost predicate Avoids(path: seq<nat>, seen: seq<bool>) {
    forall r <- path :: r < |seen| && !seen[r]
  }

  lemma {:induction false} ExhaustedHasNoPath(g: Graph, right: seq<int>, l: int, before: seq<bool>, after: seq<bool>,
        path: seq<nat>)
    requires Exhausted(g, right, l, before, after)
    requires AugmentingPath(g, right, l, path)
    requires Avoids(path, before)
    ensures false
    decreases |path|
  {
    if |path| > 1 {
      assert Exhausted(g, right, right[path[0]], before, after);
      assert Avoids(path[1..], before);
      ExhaustedHasNoPath(g, right, right[path[0]], before, after, path[1..]);
    }
  }

  ghost predicate Reachable(g: Graph, right: seq<int>, l: int, seen: seq<bool>)
    requires |right| == g.rhsSize
  {
    exists path: seq<nat> :: AugmentingPath(g, right, l, path) && Avoids(path, seen)
  }

  lemma ExhaustedIsUnreachable(g: Graph, right: seq<int>, l: int, before: seq<bool>, after: seq<bool>)
    requires Exhausted(g, right, l, before, after)
    ensures !Reachable(g, right, l, before)
  {
    forall path: seq<nat> | AugmentingPath(g, right, l, path) && Avoids(path, before) ensures false {
      ExhaustedHasNoPath(g, right, l, before, after, path);
    }
  }

  /** The state of a search from l that has dealt with the right nodes below n in vain. */
  ghost predicate Searching(g: Graph, right: seq<int>, l: int, before: seq<bool>, now: seq<bool>, n: nat) {
    && |right| == |before| == |now| == g.rhsSize
    && (forall r | 0 <= r < |now| :: before[r] ==> now[r])
    && (forall r | 0 <= r < n :: Edge(g, l, r) ==> now[r])
    && (forall r | 0 <= r < |now| && now[r] && !before[r] ::
          right[r] != UNUSED && forall r' :: Edge(g, right[r], r') ==> now[r'])
  }

  lemma DeadEndKeepsSearching(g: Graph, right: seq<int>, l: int, before: seq<bool>, now: seq<bool>, n: nat,
        after: seq<bool>)
    requires Searching(g, right, l, before, now, n) && n < g.rhsSize
    requires right[n] != UNUSED && Exhausted(g, right, right[n], now[n := true], after)
    requires forall r | 0 <= r < |after| :: now[n := true][r] ==> after[r]
    ensures Searching(g, right, l, before, after, n + 1)
  {
  }

  /** A path found behind right node n, or its being unmatched, makes a path from l. */
  lemma StepOntoPath(g: Graph, left: seq<int>, right: seq<int>, l: int, before: seq<bool>, now: seq<bool>, n: nat,
        rest: seq<nat>)
    requires Mutual(g, left, right) && Searching(g, right, l, before, now, n)
    requires Edge(g, l, n) && !now[n]
    requires if right[n] == UNUSED then rest == [] else
             AugmentingPath(g, right, right[n], rest) && Avoids(rest, now[n := true])
    ensures AugmentingPath(g, right, l, [n] + rest) && Avoids([n] + rest, before)
    ensures Reachable(g, right, l, before) && InRange(left, right, [n] + rest)
    ensures right[n] != UNUSED ==> InRange(left, right, rest)
    ensures Augmented(left, right, l, [n] + rest) ==
            var (left', right') := if right[n] == UNUSED then (left, right) else Augmented(left, right, right[n], rest);
            (left'[l := n], right'[n := l])
  {
    var path := [n] + rest;
    assert path[1..] == rest;
    PathInRange(g, left, right, l, path);
  }

  /** Right nodes that no later search can leave once it enters: all matched, and
      closed under the step to a partner's neighbours.  Every unmatched left node
      below n has all its neighbours in it. */
  ghost predicate DeadZone(g: Graph, left: seq<int>, right: seq<int>, n: nat, dead: set<nat>) {
    && |left| == g.lhsSize && |right| == g.rhsSize && n <= |left|
    && (forall r <- dead :: r < |right| && right[r] != UNUSED &&
          forall r': nat :: Edge(g, right[r], r') ==> r' in dead)
    && (forall l | 0 <= l < n && left[l] == UNUSED :: forall r: nat :: Edge(g, l, r) ==> r in dead)
  }

  lemma {:induction false} PathAvoidsDeadZone(g: Graph, left: seq<int>, right: seq<int>, n: nat, dead: set<nat>,
        l: int, path: seq<nat>)
    requires DeadZone(g, left, right, n, dead) && AugmentingPath(g, right, l, path)
    ensures forall r <- path :: r !in dead
    decreases |path|
  {
    if |path| > 1 {
      PathAvoidsDeadZone(g, left, right, n, dead, right[path[0]], path[1..]);
      assert path == [path[0]] + path[1..];
    }
  }

  /** A left node whose search failed can never start an augmenting path again. */
  lemma FailedNodeStaysFailed(g: Graph, left: seq<int>, right: seq<int>, n: nat, dead: set<nat>, l: nat, path: seq<nat>)
    requires DeadZone(g, left, right, n, dead)
    requires l < n && left[l] == UNUSED
    ensures !AugmentingPath(g, right, l, path)
  {
    if AugmentingPath(g, right, l, path) {
      assert path[0] in path && path[0] in dead;
      PathAvoidsDeadZone(g, left, right, n, dead, l, path);
    }
  }

  /** The dead zone outlives every later augmentation: its matched pairs do not move. */
  lemma DeadZoneSurvivesAugmentation(g: Graph, left: seq<int>, right: seq<int>, n: nat, dead: set<nat>, path: seq<nat>)
    requires Mutual(g, left, right) && DeadZone(g, left, right, n, dead)
    requires n < |left| && left[n] == UNUSED
    requires AugmentingPath(g, right, n, path) && InRange(left, right, path)
    ensures var (left', right') := Augmented(left, right, n, path);
            && DeadZone(g, left', right', n + 1, dead)
            && forall r <- dead :: right'[r] == right[r]
  {
    AugmentedMovesOnlyPath(g, left, right, n, path);
    PathAvoidsDeadZone(g, left, right, n, dead, n, path);
  }

  /** The state of the outer loop: left nodes below n are matched or failed, the rest untouched. */
  ghost predicate SearchedBelow(g: Graph, left: seq<int>, right: seq<int>, n: nat, dead: set<nat>) {
    && Mutual(g, left, right)
    && DeadZone(g, left, right, n, dead)
    && (forall l | n <= l < |left| :: left[l] == UNUSED)
  }

  lemma SuccessKeepsSearchedBelow(g: Graph, left: seq<int>, right: seq<int>, n: nat, dead: set<nat>, path: seq<nat>)
    requires SearchedBelow(g, left, right, n, dead) && n < |left|
    requires AugmentingPath(g, right, n, path) && InRange(left, right, path)
    ensures var (left', right') := Augmented(left, right, n, path);
            SearchedBelow(g, left', right', n + 1, dead)
  {
    AugmentedKeepsFlow(g, left, right, n, path);
    AugmentedMovesOnlyPath(g, left, right, n, path);
    DeadZoneSurvivesAugmentation(g, left, right, n, dead, path);
  }

  lemma FailureKeepsSearchedBelow(g: Graph, left: seq<int>, right: seq<int>, n: nat, dead: set<nat>,
        before: seq<bool>, after: seq<bool>)
    requires SearchedBelow(g, left, right, n, dead) && n < |left|
    requires Exhausted(g, right, n, before, after)
    requires forall r | 0 <= r < |before| :: !before[r]
    ensures SearchedBelow(g, left, right, n + 1, dead + set r: nat | r < |after| && after[r])
  {
  }

  // ----- optimality

  ghost function PairSet(pairs: seq<Pair>): set<Pair> {
    set p | p in pairs
  }

  /** `pairs` lists the matched left nodes below n with their partners, in order. */
  ghost predicate ListsFlow(left: seq<int>, n: nat, pairs: seq<Pair>) {
    && n <= |left|
    && (forall p <- pairs :: p.0 < n && left[p.0] == p.1)
    && (forall i, j | 0 <= i < j < |pairs| :: pairs[i].0 < pairs[j].0)
    && |pairs| == |PairSet(pairs)| == |MatchedLefts(left, n)|
  }

  lemma ListNextFlow(left: seq<int>, n: nat, pairs: seq<Pair>)
    requires ListsFlow(left, n, pairs) && n < |left|
    ensures left[n] == UNUSED ==> ListsFlow(left, n + 1, pairs)
    ensures left[n] >= 0 ==> ListsFlow(left, n + 1, pairs + [(n, left[n] as nat)])
  {
    if left[n] == UNUSED {
      assert MatchedLefts(left, n + 1) == MatchedLefts(left, n);
    } else if left[n] >= 0 {
      var p: Pair := (n, left[n] as nat);
      assert MatchedLefts(left, n + 1) == MatchedLefts(left, n) + {n};
      assert PairSet(pairs + [p]) == PairSet(pairs) + {p};
    }
  }

  /** The flow listed when every left node is matched or failed is a maximum matching. */
  lemma ListedFlowIsMaximum(g: Graph, left: seq<int>, right: seq<int>, pairs: seq<Pair>, c: Cover)
    requires Mutual(g, left, right) && ListsFlow(left, |left|, pairs)
    requires IsCover(g, c) && c.Size() == |MatchedLefts(left, |left|)|
    ensures IsMaximum(g, PairSet(pairs))
  {
    forall m: set<Pair> | IsMatching(g, m) ensures |m| <= |PairSet(pairs)| {
      WeakDuality(g, m, c);
    }
  }

  ghost function Partners(right: seq<int>, dead: set<nat>): set<nat>
    requires forall r <- dead :: r < |right| && 0 <= right[r]
  {
    set r | r in dead :: right[r]
  }

  lemma {:induction false} PartnersSize(right: seq<int>, dead: set<nat>)
    requires forall r <- dead :: r < |right| && 0 <= right[r]
    requires forall r <- dead, r' <- dead :: right[r] == right[r'] ==> r == r'
    ensures |Partners(right, dead)| == |dead|
  {
    if r :| r in dead {
      PartnersSize(right, dead - {r});
      assert Partners(right, dead) == Partners(right, dead - {r}) + {right[r] as nat};
    }
  }

  /** König: once every left node is matched or failed, the matched left nodes that lead
      nowhere dead, together with the dead right nodes, are a cover as large as the matching. */
  lemma DeadZoneGivesCover(g: Graph, left: seq<int>, right: seq<int>, dead: set<nat>) returns (c: Cover)
    requires Mutual(g, left, right) && DeadZone(g, left, right, |left|, dead)
    ensures IsCover(g, c) && c.Size() == |MatchedLefts(left, |left|)|
  {
    var matched := MatchedLefts(left, |left|);
    var partners := Partners(right, dead);
    c := Cover(matched - partners, dead);
    assert c.Size() == |matched| by {
      PartnersSize(right, dead);
      assert matched == (matched - partners) + partners;
    }
    forall l: nat, r: nat | Edge(g, l, r) ensures l in c.lefts || r in c.rights {
      if l in partners {
        var r' :| r' in dead && right[r'] == l;
        assert r in dead;
      }
    }
  }
}
