/** What decided each branch the agent has taken: in every state of every run, the listing, the
    candidates, the target, and how far the shipping loop got are traced back to the state of the
    world that the agent saw. */
module Decisions {
  import opened Helpers
  import opened LogShipping
  import opened Rounds
  import opened ChannelSelector

  /** The agent has not moved since its step from state j. */
  ghost predicate Since(r: seq<State>, j: nat, k: nat) {
    && j < k < |r|
    && forall m | j < m <= k :: r[m].phase == r[k].phase
  }

  /** The step that led to the phase of state k. */
  lemma {:induction false} LastMove(r: seq<State>, k: nat) returns (j: nat)
    requires IsRun(r) && k < |r| && !r[k].phase.Idle?
    ensures Since(r, j, k) && r[j].phase != r[k].phase && AgentStep(r[j], r[j + 1])
  {
    assert IsStep(r, k - 1);
    if r[k - 1].phase != r[k].phase {
      j := k - 1;
    } else {
      j := LastMove(r, k - 1);
    }
  }

  // ----- the listing and the candidates

  /** The listing is the whole directory, or nothing if the stop file was there. */
  lemma ListingIsTheDirectory(r: seq<State>, k: nat) returns (j: nat)
    requires IsRun(r) && k < |r| && r[k].phase.Listed?
    ensures Since(r, j, k) && r[j].phase == Picked(r[k].phase.t)
    ensures r[k].phase.listed == if r[j].env.stopped then [] else r[j].env.local
  {
    j := LastMove(r, k);
  }

  ghost predicate InLoop(phase: Phase) {
    phase.Shipping? || phase.Checking? || phase.Counting?
  }

  /** State j dry-runs its listing, and the loop of state k is about what that found. */
  ghost predicate QueriedAt(r: seq<State>, j: nat, k: nat) {
    && j < k < |r| && r[j].phase.Listed? && InLoop(r[k].phase)
    && r[j].phase.t == r[k].phase.t && r[j].env.rsync.Works?
    && (forall m | j < m <= k :: InLoop(r[m].phase))
    && r[j].phase.listed != [] && r[k].phase.batch.asOf == Last(r[j].phase.listed)
    && Ascending(r[k].phase.batch.candidates)
    && AreMissingTail(r[k].phase.batch.candidates, r[j].phase.listed, r[j].env, r[k].phase.t)
  }

  /** The listed files such that they and all listed after them are there and not on t. */
  ghost predicate AreMissingTail(candidates: seq<Name>, listed: seq<Name>, e: Env, t: Target) {
    forall f :: f in candidates <==>
                f in listed && forall g <- listed :: f <= g ==> g in e.local && g !in e.On(t)
  }

  lemma QueryFindsMissingTail(r: seq<State>, j: nat)
    requires IsRun(r) && j < |r| && r[j].phase.Listed? && r[j].Query().phase.Shipping?
    ensures var (s, s') := (r[j], r[j].Query());
            && s'.phase.t == s.phase.t && s.phase.listed != [] && s'.phase.batch.asOf == Last(s.phase.listed)
            && Ascending(s'.phase.batch.candidates)
            && AreMissingTail(s'.phase.batch.candidates, s.phase.listed, s.env, s.phase.t)
  {
    RunKeepsInv(r, j);
    var (e, t, listed) := (r[j].env, r[j].phase.t, r[j].phase.listed);
    QueryKeepsInv(e, t, listed, Candidates(listed, e, t));
    TailOfKept(listed, set f | f in e.local && f !in e.On(t));
  }

  /** Every candidate of every shipment was found missing by a dry run that worked, and no file
      that it found missing behind them was left out. */
  lemma {:induction false} CandidatesWereMissing(r: seq<State>, k: nat) returns (j: nat)
    requires IsRun(r) && k < |r| && InLoop(r[k].phase)
    ensures QueriedAt(r, j, k)
  {
    assert IsStep(r, k - 1);
    if InLoop(r[k - 1].phase) {
      j := CandidatesWereMissing(r, k - 1);
    } else {
      j := k - 1;
      QueryFindsMissingTail(r, j);
    }
  }

  // ----- the shipping loop

  /** A file is looked for only after rsync has failed on it, or it was not there to send. */
  lemma CheckedFileHasFailed(r: seq<State>, k: nat) returns (j: nat)
    requires IsRun(r) && k < |r| && r[k].phase.Checking?
    ensures Since(r, j, k) && r[j].phase == Shipping(r[k].phase.t, r[k].phase.batch)
    ensures r[k].phase.batch.i < |r[k].phase.batch.candidates|
    ensures !r[j].env.rsync.Works? || r[k].phase.batch.Current() !in r[j].env.local
  {
    RunKeepsInv(r, k);
    j := LastMove(r, k);
  }

  /** The loop stops early only at a file that is still there when it is looked for. */
  lemma LoopStopsAtFileStillThere(r: seq<State>, k: nat) returns (j: nat)
    requires IsRun(r) && k < |r| && r[k].phase.Counting?
    requires r[k].phase.batch.i < |r[k].phase.batch.candidates|
    ensures Since(r, j, k) && r[j].phase == Checking(r[k].phase.t, r[k].phase.batch)
    ensures r[k].phase.batch.Current() in r[j].env.local
  {
    j := LastMove(r, k);
  }

  /** In state j the loop is at f. */
  ghost predicate IsAt(s: State, f: Name) {
    InLoop(s.phase) && s.phase.batch.i < |s.phase.batch.candidates| && s.phase.batch.Current() == f
  }

  /** A file counts as sent only if it was there and rsync worked on it. */
  lemma {:induction false} SentFileWasShipped(r: seq<State>, k: nat, f: Name) returns (j: nat)
    requires IsRun(r) && k < |r| && InLoop(r[k].phase) && f in r[k].phase.batch.sent
    ensures j < k && r[j].phase.Shipping? && r[j].phase.t == r[k].phase.t && IsAt(r[j], f)
    ensures r[j].env.rsync.Works? && f in r[j].env.local
  {
    assert IsStep(r, k - 1);
    if InLoop(r[k - 1].phase) && f in r[k - 1].phase.batch.sent {
      j := SentFileWasShipped(r, k - 1, f);
    } else {
      j := k - 1;
    }
  }

  /** A file counts as lost only if it was gone when it was looked for. */
  lemma {:induction false} LostFileWasGone(r: seq<State>, k: nat, f: Name) returns (j: nat)
    requires IsRun(r) && k < |r| && InLoop(r[k].phase) && f in r[k].phase.batch.lost
    ensures j < k && r[j].phase.Checking? && r[j].phase.t == r[k].phase.t && IsAt(r[j], f)
    ensures f !in r[j].env.local
  {
    assert IsStep(r, k - 1);
    if InLoop(r[k - 1].phase) && f in r[k - 1].phase.batch.lost {
      j := LostFileWasGone(r, k - 1, f);
    } else {
      j := k - 1;
    }
  }

  // ----- the target

  /** Without failover every round is to the primary, and the secondary is never touched. */
  lemma {:induction false} SingleChannelIsThePrimary(r: seq<State>, k: nat)
    requires IsRun(r) && k < |r| && r[0].patience == 0
    ensures r[k].patience == 0 && r[k].calls == []
    ensures !r[k].phase.Idle? ==> r[k].phase.t == Primary
    ensures r[k].env.secondary == r[0].env.secondary
  {
    if k > 0 {
      SingleChannelIsThePrimary(r, k - 1);
      assert IsStep(r, k - 1);
    }
  }

  /** With failover every round is to the channel of the selector from its pick to its end. */
  lemma {:induction false} TargetIsTheSelectors(r: seq<State>, k: nat)
    requires IsRun(r) && k < |r| && r[0].patience > 0
    ensures r[k].patience == r[0].patience && r[k].start == r[0].start
    ensures !r[k].phase.Idle? ==> r[k].phase.t == if r[k].selector.primaryOk then Primary else Secondary
  {
    if k > 0 {
      TargetIsTheSelectors(r, k - 1);
      assert IsStep(r, k - 1);
    }
  }

  /** A round starts with one call of the selector, at that moment. */
  lemma RoundStartsWithPick(r: seq<State>, k: nat)
    requires IsRun(r) && k + 1 < |r| && r[k].phase.Idle? && !r[k + 1].phase.Idle?
    ensures r[k + 1].env == r[k].env && r[k + 1].phase.Picked?
    ensures r[k + 1].calls == r[k].calls + if r[k].patience == 0 then [] else [Call.Pick(r[k].env.clock)]
  {
    assert IsStep(r, k);
  }

  /** A round leaves the primary exactly when `patience` seconds have passed since the start and
      since every heartbeat on, or return to, the primary. */
  lemma AgentFailsOverIffQuiet(r: seq<State>, k: nat)
    requires IsRun(r) && k + 1 < |r| && r[k].phase.Idle? && !r[k + 1].phase.Idle?
    requires r[0].patience > 0 && r[k].selector.primaryOk
    ensures var s := r[k];
            r[k + 1].phase == Picked(Secondary) <==>
              && s.env.clock - s.start >= s.patience
              && forall c | 0 <= c < |s.calls| ::
                   s.SelectorRun().RefreshesAt(c) ==> s.env.clock - s.calls[c].now >= s.patience
  {
    RunKeepsInv(r, k);
    assert IsStep(r, k);
    TargetIsTheSelectors(r, k + 1);
    var s := r[k];
    s.SelectorRun().LastIsLatestRefresh(|s.calls|);
    s.SelectorRun().LastIsPast(|s.calls|);
  }

  /** On the secondary since its call c, it goes back to the primary exactly when `patience`
      seconds have passed since that call. */
  lemma AgentReturnsIffWaited(r: seq<State>, k: nat, c: nat)
    requires IsRun(r) && k + 1 < |r| && r[k].phase.Idle? && !r[k + 1].phase.Idle?
    requires r[0].patience > 0 && c < |r[k].calls| && r[k].SelectorRun().SwitchesAt(c)
    requires forall m | c < m <= |r[k].calls| :: !r[k].SelectorRun().At(m).primaryOk
    ensures r[k + 1].phase == Picked(Primary) <==> r[k].env.clock - r[k].calls[c].now >= r[k].patience
  {
    RunKeepsInv(r, k);
    assert IsStep(r, k);
    TargetIsTheSelectors(r, k + 1);
    r[k].SelectorRun().SecondaryKeepsFlipTime(c, |r[k].calls|);
  }
}
