/** Maximum bipartite matching by depth-first search for augmenting paths,
    in the two mutable vectors of the original class. */
module MaxBipartiteMatch {
  import opened Matchings

  ghost function Unseen(seen: seq<bool>): set<nat> {
    set r: nat | r < |seen| && !seen[r]
  }

  class MaxBipartiteMatchState {
    const graph: Graph
    const left: array<int>
    const right: array<int>

    ghost predicate Valid()
      reads this, left, right
    {
      && left != right
      && left.Length == graph.lhsSize && right.Length == graph.rhsSize
      && Mutual(graph, left[..], right[..])
    }

    /** How the original's constructor leaves the vectors: no flow at all. */
    constructor (g: Graph)
      ensures Valid() && graph == g && fresh(left) && fresh(right)
      ensures forall l | 0 <= l < left.Length :: left[l] == UNUSED
    {
      graph := g;
      left := new int[g.lhsSize](_ => UNUSED);
      right := new int[g.rhsSize](_ => UNUSED);
    }

    /** Depth-first search from ilhs to the sink over the right nodes not yet seen.
        A search entered through a right node has that node already marked. */
    method TryAugment(ilhs: nat, seen: array<bool>) returns (ok: bool, ghost path: seq<nat>)
      requires Valid() && ilhs < left.Length && seen.Length == right.Length
      requires left[ilhs] == UNUSED || seen[left[ilhs]]
      modifies left, right, seen
      ensures forall r | 0 <= r < seen.Length :: old(seen[r]) ==> seen[r]
      ensures ok <==> Reachable(graph, old(right[..]), ilhs, old(seen[..]))
      ensures ok ==> AugmentingPath(graph, old(right[..]), ilhs, path) && Avoids(path, old(seen[..]))
                     && InRange(old(left[..]), old(right[..]), path)
                     && (left[..], right[..]) == Augmented(old(left[..]), old(right[..]), ilhs, path)
      ensures !ok ==> left[..] == old(left[..]) && right[..] == old(right[..])
                      && Exhausted(graph, right[..], ilhs, old(seen[..]), seen[..])
      decreases Unseen(seen[..])
    {
      ghost var seen0, left0, right0 := seen[..], left[..], right[..];
      for irhs := 0 to graph.rhsSize
        invariant left[..] == left0 && right[..] == right0
        invariant Searching(graph, right0, ilhs, seen0, seen[..], irhs)
      {
        if seen[irhs] {
          continue;
        }
        if !graph.HasEdge(ilhs, irhs) {
          continue;
        }
        ghost var seen1 := seen[..];
        seen[irhs] := true;
        assert seen[..] == seen1[irhs := true];
        var found := right[irhs] == UNUSED;
        ghost var rest: seq<nat> := [];
        if !found {
          assert irhs in Unseen(seen0) && irhs !in Unseen(seen[..]);
          found, rest := TryAugment(right[irhs], seen);
        }
        if found {
          path := [irhs] + rest;
          StepOntoPath(graph, left0, right0, ilhs, seen0, seen1, irhs, rest);
          left[ilhs] := irhs;
          right[irhs] := ilhs;
          return true, path;
        }
        DeadEndKeepsSearching(graph, right0, ilhs, seen0, seen1, irhs, seen[..]);
      }
      ExhaustedIsUnreachable(graph, right0, ilhs, seen0, seen[..]);
      return false, [];
    }

    /** One round of the outer loop: a search from ilhs with every right node unseen. */
    method Visit(ilhs: nat, ghost dead: set<nat>) returns (ghost dead': set<nat>)
      requires Valid() && ilhs < left.Length
      requires SearchedBelow(graph, left[..], right[..], ilhs, dead)
      modifies left, right
      ensures SearchedBelow(graph, left[..], right[..], ilhs + 1, dead')
      ensures MatchedLefts(left[..], left.Length) ==
              old(MatchedLefts(left[..], left.Length)) + if left[ilhs] == UNUSED then {} else {ilhs}
    {
      assert left[ilhs] == UNUSED;  // the original's own run-time check
      var seen := new bool[graph.rhsSize](_ => false);
      ghost var left0, right0, seen0 := left[..], right[..], seen[..];
      var ok, path := TryAugment(ilhs, seen);
      if ok {
        AugmentationGrowsByOne(graph, left0, right0, ilhs, path);
        SuccessKeepsSearchedBelow(graph, left0, right0, ilhs, dead, path);
        dead' := dead;
      } else {
        FailureKeepsSearchedBelow(graph, left0, right0, ilhs, dead, seen0, seen[..]);
        dead' := dead + set r: nat | r < seen.Length && seen[r];
      }
    }

    /** The pairs of a maximum matching, by increasing left node, with a vertex
        cover of the same size as the certificate that none is larger. */
    method Compute() returns (result: seq<Pair>, ghost cover: Cover)
      requires Valid()
      requires forall l | 0 <= l < left.Length :: left[l] == UNUSED
      modifies left, right
      ensures Valid()
      ensures forall i, j | 0 <= i < j < |result| :: result[i].0 < result[j].0
      ensures |result| == |PairSet(result)| && IsMaximum(graph, PairSet(result))
      ensures IsCover(graph, cover) && cover.Size() == |result|
    {
      ghost var dead: set<nat> := {};
      for ilhs := 0 to graph.lhsSize
        invariant SearchedBelow(graph, left[..], right[..], ilhs, dead)
      {
        dead := Visit(ilhs, dead);
      }
      ghost var flow, back := left[..], right[..];
      cover := DeadZoneGivesCover(graph, flow, back, dead);

      result := [];
      for ilhs := 0 to left.Length
        invariant left[..] == flow && right[..] == back
        invariant ListsFlow(flow, ilhs, result)
      {
        ListNextFlow(flow, ilhs, result);
        var irhs := left[ilhs];
        if irhs == UNUSED {
          continue;
        }
        var pair: Pair := (ilhs, irhs);
        result := result + [pair];
      }
      ListedFlowIsMaximum(graph, flow, back, result, cover);
    }
  }

  method FindMaxBipartiteMatching(g: Graph) returns (result: seq<Pair>, ghost cover: Cover)
    ensures forall i, j | 0 <= i < j < |result| :: result[i].0 < result[j].0
    ensures |result| == |PairSet(result)| && IsMaximum(g, PairSet(result))
    ensures IsCover(g, cover) && cover.Size() == |result|
  {
    var state := new MaxBipartiteMatchState(g);
    result, cover := state.Compute();
  }
}
