/** What whole rounds of the log-shipping protocol do: what ends them, what a heartbeat proves,
    and what a round without failures achieves. */
module Rounds {
  import opened Helpers
  import opened LogShipping
  import opened ChannelSelector

  ghost predicate IsEnvStep(s: State, s': State) {
    EnvStep(s.env, s'.env) && s' == s.(env := s'.env)
  }

  // ----- what a heartbeat proves

  /** The state that earns a heartbeat: files were sent and are on the target, or the dry run
      leaves nothing to ship. */
  ghost predicate Earns(s: State, t: Target, round: Round) {
    match s.phase
    case Counting(t', b) =>
      t' == t && b.sent != {} && b.sent <= s.env.On(t) && round == Round(|b.sent|, |b.candidates|)
    case Listed(t', listed) =>
      && t' == t && (listed == [] || s.env.rsync.Works?)
      && Candidates(listed, s.env, t) == [] && round == Round(0, 0)
    case _ => false
  }

  /** State k is about to heartbeat, has been since state j, and j earned it. */
  ghost predicate EarnedAt(r: seq<State>, j: nat, k: nat) {
    && j < k < |r| && r[k].phase.Finishing?
    && Earns(r[j], r[k].phase.t, r[k].phase.round)
    && forall m | j < m <= k :: r[m].phase == r[k].phase
  }

  lemma {:induction false} FinishingIsEarned(r: seq<State>, k: nat) returns (j: nat)
    requires IsRun(r) && k < |r| && r[k].phase.Finishing?
    ensures EarnedAt(r, j, k)
  {
    RunKeepsInv(r, k - 1);
    assert IsStep(r, k - 1);
    if r[k - 1].phase.Finishing? {
      j := FinishingIsEarned(r, k - 1);
    } else {
      j := k - 1;
    }
  }

  /** Call c of state i is the heartbeat of an earlier state, which had earned it. */
  ghost predicate HeartbeatEarned(r: seq<State>, i: nat, c: nat) {
    exists j: nat, k: nat :: HeartbeatFrom(r, i, c, j, k)
  }

  ghost predicate HeartbeatFrom(r: seq<State>, i: nat, c: nat, j: nat, k: nat) {
    && k < i < |r| && c < |r[i].calls|
    && EarnedAt(r, j, k)
    && |r[k].calls| == c && r[i].calls[c] == Beat(r[k].env.clock, r[k].phase.round)
    && r[k + 1] == r[k].Heartbeat()
  }

  /** Every heartbeat in every reachable state ends a round whose files are on the target, or
      whose dry run left nothing to ship. */
  lemma {:induction false} HeartbeatsAreEarned(r: seq<State>, i: nat, c: nat)
    requires IsRun(r) && i < |r| && c < |r[i].calls| && r[i].calls[c].Beat?
    ensures HeartbeatEarned(r, i, c)
  {
    assert i > 0;
    assert IsStep(r, i - 1);
    if c < |r[i - 1].calls| {
      CallsOnlyGrow(r, i - 1);
      HeartbeatsAreEarned(r, i - 1, c);
      var j: nat, k: nat :| HeartbeatFrom(r, i - 1, c, j, k);
      assert HeartbeatFrom(r, i, c, j, k);
    } else {
      var j := FinishingIsEarned(r, i - 1);
      assert HeartbeatFrom(r, i, c, j, i - 1);
    }
  }

  lemma CallsOnlyGrow(r: seq<State>, i: nat)
    requires IsRun(r) && i + 1 < |r|
    ensures r[i].calls <= r[i + 1].calls
  {
    assert IsStep(r, i);
  }

  // ----- what ends a round

  /** How many rounds a run has begun. */
  ghost function Begun(r: seq<State>): nat {
    if |r| < 2 then 0 else
    Begun(r[..|r| - 1]) + if r[|r| - 2].phase.Idle? && r[|r| - 1].phase.Picked? then 1 else 0
  }

  ghost predicate Active(r: seq<State>, from: int, to: int) {
    && 0 <= from <= to <= |r|
    && forall m | from <= m < to :: !r[m].phase.Idle?
  }

  ghost predicate Resting(r: seq<State>, from: int, to: int) {
    && 0 <= from <= to <= |r|
    && forall m | from <= m < to :: r[m].phase.Idle?
  }

  /** A run that is idle up to its pick, and idle again after its end, has begun one round. */
  lemma {:induction false} OneRoundBegun(r: seq<State>, from: nat, picked: nat, end: nat, n: nat)
    requires 0 < from <= picked <= end < |r| && from <= n <= |r|
    requires Resting(r, from - 1, picked) && r[picked].phase.Picked?
    requires Active(r, picked, end + 1) && Resting(r, end + 1, |r|)
    ensures Begun(r[..n]) == Begun(r[..from]) + if picked < n then 1 else 0
  {
    if from < n {
      OneRoundBegun(r, from, picked, end, n - 1);
      assert r[..n][..n - 1] == r[..n - 1];
    }
  }

  /** The agent's part of s' is that of s, idle, after these calls. */
  ghost predicate IdleAfter(s: State, s': State, calls: seq<Call<Round>>) {
    s'.phase == Idle && s'.env == s.env && s'.calls == s.calls + calls
  }

  /** State `end` is the last active one of a round: its heartbeat, earned since `from`; or a
      failed dry run of something; or a shipment of which nothing got through. */
  ghost predicate RoundEnds(r: seq<State>, from: nat, end: nat) {
    && from <= end && end + 1 < |r|
    && match r[end].phase
       case Finishing(_, round) =>
         && IdleAfter(r[end], r[end + 1], if r[end].patience == 0 then [] else [Beat(r[end].env.clock, round)])
         && exists j: nat :: from <= j && EarnedAt(r, j, end)
       case Listed(_, listed) => listed != [] && !r[end].env.rsync.Works? && IdleAfter(r[end], r[end + 1], [])
       case Counting(_, b) => b.sent == {} && IdleAfter(r[end], r[end + 1], [])
       case _ => false
  }

  /** Every round that ends, ends so: with a heartbeat only if its query or its count earned one.
      A query that would have earned one may have failed. */
  lemma EveryEndIsOfARound(r: seq<State>, from: nat, end: nat)
    requires IsRun(r) && 0 < from <= end && end + 1 < |r|
    requires r[from - 1].phase.Idle? && !r[end].phase.Idle? && r[end + 1].phase.Idle?
    ensures RoundEnds(r, from, end)
  {
    assert IsStep(r, end);
    if r[end].phase.Finishing? {
      var j := FinishingIsEarned(r, end);
      assert from <= j;
    }
  }

  // ----- the stop file

  /** A round that finds the stop file when it lists the directory ships nothing to either
      target up to its end, which is a heartbeat for nothing to ship. */
  lemma {:induction false} StopFileHaltsShipping(r: seq<State>, i: nat, j: nat)
    requires IsRun(r) && i < j < |r|
    requires r[i].phase.Picked? && r[i].env.stopped && r[i + 1].phase.Listed?
    requires forall k | i < k < j :: !r[k].phase.Idle?
    ensures r[j].env.primary == r[i].env.primary && r[j].env.secondary == r[i].env.secondary
    ensures r[j].phase in {Listed(r[i].phase.t, []), Finishing(r[i].phase.t, Round(0, 0)), Idle}
    ensures r[j].phase.Idle? ==> r[j - 1].phase.Finishing? && r[j] == r[j - 1].Heartbeat()
    decreases j - i
  {
    assert IsStep(r, j - 1);
    if j > i + 1 {
      StopFileHaltsShipping(r, i, j - 1);
    }
  }

  // ----- a round without failures

  /** A step in which the directory is idle, no stop file is there when it is listed, the dry
      run works and no ship fails.  The clock may go on, the stop file come and go, and rsync
      fail while nobody uses it. */
  ghost predicate QuietStep(s: State, s': State) {
    && Next(s, s')
    && s'.env.local == s.env.local
    && !(s.phase.Picked? && s'.phase.Listed? && s.env.stopped)
    && !s'.phase.Checking?
    && !(s.phase.Listed? && s'.phase.Idle?)
  }

  /** Step k is quiet and is not the heartbeat that ends the round. */
  ghost predicate QuietAt(r: seq<State>, k: nat)
    requires k + 1 < |r|
  {
    QuietStep(r[k], r[k + 1]) && !(r[k].phase.Finishing? && r[k + 1].phase.Idle?)
  }

  ghost predicate OnItsWay(s: State, t: Target, local: seq<Name>) {
    && s.env.local == local
    && match s.phase
       case Picked(t') => t' == t
       case Listed(t', listed) => t' == t && listed == local
       case Shipping(t', b) =>
         && t' == t && local != [] && b.asOf == Last(local) && |b.sent| == b.i
         && |b.candidates| <= |local| && forall f <- b.candidates :: f in local
       case Counting(t', b) => t' == t && local != [] && b.asOf == Last(local) && |b.sent| == b.i == |b.candidates|
       case Finishing(t', _) => t' == t && forall f <- local :: f in s.env.On(t)
       case _ => false
  }

  /** An upper bound on the agent's steps up to the heartbeat; 0 only when it is due. */
  ghost function StepsLeft(s: State): nat {
    match s.phase
    case Picked(_) => |s.env.local| + 4
    case Listed(_, listed) => |listed| + 3
    case Shipping(_, b) => 2 + if b.i <= |b.candidates| then |b.candidates| - b.i else 0
    case Counting(_, _) => 1
    case _ => 0
  }

  /** The agent's steps from state i to state j, which are the steps that change the phase. */
  ghost function Moves(r: seq<State>, i: nat, j: nat): nat
    requires i <= j < |r|
    decreases j
  {
    if i == j then 0 else Moves(r, i, j - 1) + if r[j].phase == r[j - 1].phase then 0 else 1
  }

  lemma MovesAdd(r: seq<State>, i: nat, j: nat)
    requires i < j < |r|
    ensures Moves(r, i, j) == Moves(r, i, j - 1) + Moves(r, j - 1, j)
  {
  }

  lemma QuietCandidates(r: seq<State>, i: nat)
    requires IsRun(r) && i < |r| && r[i].phase.Listed? && r[i].phase.listed == r[i].env.local
    requires NoStranding(r[i].env, r[i].phase.t)
    ensures var (e, local, t) := (r[i].env, r[i].env.local, r[i].phase.t);
            var c := Candidates(local, e, t);
            if c == [] then forall f <- local :: f in e.On(t)
            else local != [] && SortNames(c) == c && |c| <= |local| && forall f <- c :: f in local
  {
    RunKeepsInv(r, i);
    QueryFindsAllMissing(r, i);
    var (e, local, t) := (r[i].env, r[i].env.local, r[i].phase.t);
    var c := Candidates(local, e, t);
    EmptyIffNoMembers(c);
    if c != [] {
      CommonSuffixIsCommon(local, NotOnTarget(local, e, t));
      QueryKeepsInv(e, t, local, c);
    }
  }

  lemma QuietQueryStaysOnItsWay(r: seq<State>, i: nat, t: Target, local: seq<Name>)
    requires IsRun(r) && i < |r| && NoStranding(r[i].env, t)
    requires OnItsWay(r[i], t, local) && r[i].phase.Listed?
    ensures OnItsWay(r[i].Query(), t, local) && StepsLeft(r[i].Query()) < StepsLeft(r[i])
  {
    QuietCandidates(r, i);
  }

  lemma QuietCountStaysOnItsWay(r: seq<State>, i: nat, t: Target, local: seq<Name>)
    requires IsRun(r) && i < |r| && NoStranding(r[i].env, t)
    requires OnItsWay(r[i], t, local) && r[i].phase.Counting?
    ensures OnItsWay(r[i].EndRound(), t, local) && StepsLeft(r[i].EndRound()) < StepsLeft(r[i])
  {
    RunKeepsInv(r, i);
    CompletedLoopCatchesUp(r, i);
    forall f | f in local ensures f in r[i].env.On(t) {
      AscendingEndsHighest(local, f);
    }
  }

  lemma QuietShipStaysOnItsWay(s: State, s': State, t: Target, local: seq<Name>)
    requires Inv(s) && OnItsWay(s, t, local) && s.phase.Shipping?
    requires AgentStep(s, s') && !s'.phase.Checking?
    ensures OnItsWay(s', t, local) && StepsLeft(s') < StepsLeft(s)
  {
    var b := s.phase.batch;
    if b.i < |b.candidates| {
      DropCurrent(b);
      assert |b.Sent().sent| == |b.sent| + 1;
    }
  }

  lemma QuietEnvStaysOnItsWay(s: State, s': State, t: Target, local: seq<Name>)
    requires Inv(s) && OnItsWay(s, t, local) && IsEnvStep(s, s') && s'.env.local == s.env.local
    ensures OnItsWay(s', t, local) && StepsLeft(s') == StepsLeft(s) && s'.phase == s.phase
  {
    EnvStepIsLater(s.env, s'.env);
  }

  lemma QuietStepStaysOnItsWay(r: seq<State>, i: nat, t: Target, local: seq<Name>)
    requires IsRun(r) && i + 1 < |r| && NoStranding(r[i].env, t)
    requires OnItsWay(r[i], t, local) && QuietAt(r, i)
    ensures OnItsWay(r[i + 1], t, local)
    ensures Moves(r, i, i + 1) + StepsLeft(r[i + 1]) <= StepsLeft(r[i])
  {
    RunKeepsInv(r, i);
    if IsEnvStep(r[i], r[i + 1]) {
      QuietEnvStaysOnItsWay(r[i], r[i + 1], t, local);
    } else {
      match r[i].phase
      case Picked(_) =>
        assert r[i + 1].phase == Listed(t, local);
      case Listed(_, _) =>
        QuietQueryStaysOnItsWay(r, i, t, local);
      case Shipping(_, _) =>
        QuietShipStaysOnItsWay(r[i], r[i + 1], t, local);
      case Counting(_, _) =>
        QuietCountStaysOnItsWay(r, i, t, local);
      case _ =>
    }
  }

  lemma EmptyIffNoMembers(s: seq<Name>)
    ensures s == [] <==> forall f :: f !in s
  {
    if s != [] {
      assert s[0] in s;
    }
  }

  ghost predicate QuietRound(r: seq<State>, i: nat, j: nat) {
    && i <= j < |r|
    && r[i].phase.Picked?
    && NoStranding(r[i].env, r[i].phase.t)
    && forall k | i <= k < j :: QuietAt(r, k)
  }

  lemma {:induction false} QuietRoundStaysOnItsWay(r: seq<State>, i: nat, j: nat)
    requires IsRun(r) && QuietRound(r, i, j)
    ensures OnItsWay(r[j], r[i].phase.t, r[i].env.local)
    ensures Moves(r, i, j) + StepsLeft(r[j]) <= |r[i].env.local| + 4
    decreases j - i
  {
    if i < j {
      QuietRoundStaysOnItsWay(r, i, j - 1);
      NoStrandingForever(r, i, j - 1, r[i].phase.t);
      assert QuietAt(r, j - 1);
      QuietStepStaysOnItsWay(r, j - 1, r[i].phase.t, r[i].env.local);
      MovesAdd(r, i, j);
    }
  }

  /** A quiet round comes to its heartbeat within four agent steps more than there are files.
      Then the whole directory is on the target, and a round on it has nothing to ship. */
  lemma QuietRoundShipsEverything(r: seq<State>, i: nat, j: nat)
    requires IsRun(r) && QuietRound(r, i, j)
    ensures Moves(r, i, j) <= |r[i].env.local| + 4
    ensures Moves(r, i, j) == |r[i].env.local| + 4 ==> r[j].phase.Finishing?
    ensures r[j].phase.Finishing? ==>
              && (forall f <- r[j].env.local :: f in r[j].env.On(r[i].phase.t))
              && Candidates(r[j].env.local, r[j].env, r[i].phase.t) == []
  {
    QuietRoundStaysOnItsWay(r, i, j);
    if r[j].phase.Finishing? {
      RunKeepsInv(r, j);
      CandidatesAreMissing(r[j].env, r[i].phase.t, r[j].env.local);
      EmptyIffNoMembers(Candidates(r[j].env.local, r[j].env, r[i].phase.t));
    }
  }

  /** Until then the agent has a next step, and any it takes while rsync works and the directory
      may be listed keeps the round quiet. */
  lemma QuietRoundCanMove(r: seq<State>, i: nat, j: nat)
    requires IsRun(r) && QuietRound(r, i, j) && !r[j].phase.Finishing?
    ensures exists s' :: AgentStep(r[j], s')
    ensures r[j].env.rsync.Works? && !r[j].env.stopped ==>
              forall s' :: AgentStep(r[j], s') ==> QuietStep(r[j], s') && s'.phase != r[j].phase
  {
    QuietRoundStaysOnItsWay(r, i, j);
    RunKeepsInv(r, j);
    var s := r[j];
    match s.phase
    case Picked(t) =>
      assert AgentStep(s, s.(phase := Listed(t, s.env.Listing())));
    case Listed(_, listed) =>
      assert AgentStep(s, if listed != [] && !s.env.rsync.Works? then s.(phase := Idle) else s.Query());
    case Shipping(t, b) =>
      if b.i < |b.candidates| {
        assert b.Current() in b.candidates;
        assert AgentStep(s, s.Ship());
      } else {
        assert AgentStep(s, s.(phase := Counting(t, b)));
      }
    case Counting(_, _) =>
      assert AgentStep(s, s.EndRound());
  }
}
