/** The agent's code, step by step, in a world that may change before every system call.
    The ghost `run` records every state passed through; each method only ever extends it by
    steps of the protocol, so what LogShipping proves of runs holds of this code. */
module BarnAgent {
  import opened Helpers
  import opened LogShipping
  import opened Rounds
  import ChannelSelector

  /** Validation<T>: a BarnError or a value. */
  datatype Validation<T> = BarnError | Value(get: T)

  lemma RunGrows(r: seq<State>, s: State)
    requires IsRun(r) && Next(Last(r), s)
    ensures IsRun(r + [s])
  {
    var r' := r + [s];
    forall i | 0 <= i < |r'| - 1 ensures IsStep(r', i) {
      if i < |r| - 1 {
        assert IsStep(r, i);
      }
    }
  }

  /** A later point of the same round: active up to there, with no call on the selector. */
  ghost predicate Continues(r: seq<State>, r': seq<State>) {
    r != [] && r <= r' && Last(r').calls == Last(r).calls && Active(r', |r| - 1, |r'| - 1)
  }

  /** The agent has not moved, whatever has happened around it. */
  ghost predicate Waits(r: seq<State>, r': seq<State>) {
    r != [] && r <= r' && forall m | |r| - 1 <= m < |r'| :: r'[m].phase == Last(r).phase
  }

  /** The calls of s and, if there is a selector to call, the pick that begins a round. */
  ghost function WithPick(s: State, now: int): seq<ChannelSelector.Call<Round>> {
    s.calls + if s.patience == 0 then [] else [ChannelSelector.Call.Pick(now)]
  }

  class Agent {
    const patience: nat
    /** Null when there is no failover: SingleChannelSelector. */
    const selector: ChannelSelector.FailoverChannelSelector?<Target>
    /** What the system calls see and change. */
    var env: Env
    ghost var run: seq<State>

    ghost predicate Valid()
      reads this, selector
    {
      && IsRun(run)
      && Last(run).env == env && Last(run).patience == patience
      && (selector == null <==> patience == 0)
      && (selector != null ==>
            && selector.State() == Last(run).selector && selector.secondsBeforeFailover == patience
            && selector.primary == Primary && selector.secondary == Secondary)
    }

    ghost function Phase(): Phase
      requires run != []
      reads this
    {
      Last(run).phase
    }

    /** The selector that create_channel_selector chooses. */
    constructor (env: Env, secondsBeforeFailover: nat)
      requires env.Valid()
      ensures Valid() && Phase() == Idle && this.env == env && patience == secondsBeforeFailover
      ensures run == [State(env, secondsBeforeFailover, env.clock, ChannelSelector.Selector(true, env.clock), [], Idle)]
      ensures selector != null ==> fresh(selector)
    {
      patience := secondsBeforeFailover;
      this.env := env;
      if secondsBeforeFailover == 0 {
        selector := null;
      } else {
        selector := new ChannelSelector.FailoverChannelSelector(Primary, Secondary, secondsBeforeFailover, env.clock);
      }
      run := [State(env, secondsBeforeFailover, env.clock, ChannelSelector.Selector(true, env.clock), [], Idle)];
    }

    ghost method Advance(s: State)
      requires IsRun(run) && Next(Last(run), s)
      modifies `run
      ensures run == old(run) + [s] && IsRun(run)
    {
      RunGrows(run, s);
      run := run + [s];
    }

    /** Anything svlogd, the operator and the clock may do meanwhile. */
    method Interfere()
      requires Valid()
      modifies `env, `run
      ensures Valid() && Waits(old(run), run) && Last(run) == old(Last(run)).(env := env)
    {
      var steps: nat :| steps >= 0;
      for k := 0 to steps
        invariant Valid() && Waits(old(run), run) && Last(run) == old(Last(run)).(env := env)
      {
        var e := env;
        if {
          case true =>
            var f: Name :| f > env.newest;
            e := env.(local := env.local + [f], newest := f);
          case env.local != [] =>
            e := env.(local := env.local[1..]);
          case true =>
            var stopped: bool := *;
            e := env.(stopped := stopped);
          case true =>
            var now: int :| now >= env.clock;
            e := env.(clock := now);
          case true =>
            var rsync: Rsync := *;
            e := env.(rsync := rsync);
        }
        assert EnvStep(env, e);
        Advance(Last(run).(env := e));
        env := e;
      }
    }

    // ----- the system calls

    method ListLogDirectory() returns (files: seq<Name>)
      requires Valid()
      modifies `env, `run
      ensures Valid() && Waits(old(run), run) && Last(run) == old(Last(run)).(env := env)
      ensures files == if env.stopped then [] else env.local
    {
      Interfere();
      files := env.Listing();
    }

    method LogFilesNotOnTarget(files: seq<Name>, t: Target) returns (missing: Validation<seq<Name>>)
      requires Valid()
      modifies `env, `run
      ensures Valid() && Waits(old(run), run) && Last(run) == old(Last(run)).(env := env)
      ensures missing == if files == [] then Value([]) else
                         if env.rsync.Works? then Value(NotOnTarget(files, env, t)) else BarnError
    {
      if |files| == 0 {
        return Value([]);
      }
      Interfere();
      missing := if env.rsync.Works? then Value(NotOnTarget(files, env, t)) else BarnError;
    }

    method ShipFile(f: Name, t: Target) returns (ok: bool)
      requires Valid() && Phase().Shipping? && Phase().t == t
      requires Phase().batch.i < |Phase().batch.candidates| && Phase().batch.Current() == f
      modifies `env, `run
      ensures Valid() && Continues(old(run), run) && |run| > |old(run)|
      ensures ok <==> f in run[|run| - 2].env.local && run[|run| - 2].env.rsync.Works?
      ensures ok ==> f in env.On(t)
      ensures Phase() == if ok then Shipping(t, old(Phase()).batch.Sent()) else Checking(t, old(Phase()).batch)
    {
      Interfere();
      ghost var s := Last(run);
      ok := false;
      if f in env.local && !env.rsync.Fails? {
        ok := env.rsync.Works?;
        env := env.Landed(t, f);
      }
      Advance(s.Ship());
    }

    method FileExists(f: Name) returns (there: bool)
      requires Valid()
      modifies `env, `run
      ensures Valid() && Waits(old(run), run) && Last(run) == old(Last(run)).(env := env)
      ensures there <==> f in env.local
    {
      Interfere();
      there := f in env.local;
    }

    // ----- the round

    method PickChannel() returns (t: Target, ghost now: int)
      requires Valid() && Phase() == Idle
      modifies this, selector
      ensures Valid() && old(run) <= run && Phase() == Picked(t)
      ensures Resting(run, |old(run)| - 1, |run| - 1)
      ensures t == if selector == null || selector.primaryOk then Primary else Secondary
      ensures Last(run).calls == WithPick(old(Last(run)), now)
    {
      Interfere();
      now := env.clock;
      if selector == null {
        t := Primary;
      } else {
        t := selector.PickChannel(env.clock);
      }
      Advance(Last(run).Pick());
    }

    method ListSource(t: Target) returns (existing: seq<Name>)
      requires Valid() && Phase() == Picked(t)
      modifies `env, `run
      ensures Valid() && Continues(old(run), run) && Phase() == Listed(t, existing)
    {
      existing := ListLogDirectory();
      Advance(Last(run).(phase := Listed(t, existing)));
    }

    method QueryCandidates(t: Target) returns (logs: Validation<seq<Name>>)
      requires Valid() && Phase() == Picked(t)
      modifies `env, `run
      ensures Valid() && Continues(old(run), run)
      ensures match logs
              case BarnError => Phase() == Idle && |run| > |old(run)| && run[|run| - 2].phase.Listed?
              case Value(c) =>
                if c == [] then Phase() == Finishing(t, Round(0, 0)) else
                && Phase().Shipping? && Phase().t == t
                && Phase().batch == Batch(SortNames(c), Phase().batch.asOf, 0, {}, {})
    {
      var existing := ListSource(t);
      var missing := LogFilesNotOnTarget(existing, t);
      if missing.BarnError? {
        Advance(Last(run).(phase := Idle));
        return BarnError;
      }
      Advance(Last(run).Query());
      if |existing| == 0 {
        return Value([]);
      }
      var tail := TailIntersection(existing, missing.get);
      logs := Value(tail);
    }

    /** One iteration of ship_candidates: the file is sent, or still there, or lost. */
    method ShipOne(f: Name, t: Target) returns (ok: bool, there: bool)
      requires Valid() && Phase().Shipping? && Phase().t == t
      requires Phase().batch.i < |Phase().batch.candidates| && Phase().batch.Current() == f
      modifies `env, `run
      ensures Valid() && Continues(old(run), run)
      ensures var b := old(Phase()).batch;
              && Phase() == (if ok then Shipping(t, b.Sent()) else
                             if there then Counting(t, b) else Shipping(t, b.Lost()))
              && |b.Sent().sent| == |b.sent| + 1 && |b.Lost().lost| == |b.lost| + 1
      ensures if ok then f in env.On(t) else there <==> f in env.local
    {
      BatchCounts(run);
      there := true;
      ok := ShipFile(f, t);
      if !ok {
        there := FileExists(f);
        Advance(Last(run).Check());
      }
    }

    /** The loop of ship_candidates: in order, up to the first file that fails but is still there. */
    method ShipInOrder(t: Target, candidates: seq<Name>) returns (numShipped: nat, numLost: nat)
      requires Valid() && Phase().Shipping? && Phase().t == t
      requires Phase().batch == Batch(candidates, Phase().batch.asOf, 0, {}, {})
      modifies `env, `run
      ensures Valid() && Continues(old(run), run) && Phase().Counting? && Phase().t == t
      ensures Phase().batch.candidates == candidates
      ensures numShipped == |Phase().batch.sent| && numLost == |Phase().batch.lost|
    {
      numShipped, numLost := 0, 0;
      for i := 0 to |candidates|
        invariant Valid() && Continues(old(run), run) && Phase().Shipping? && Phase().t == t
        invariant Phase().batch.candidates == candidates && Phase().batch.i == i
        invariant |Phase().batch.sent| == numShipped && |Phase().batch.lost| == numLost
      {
        var ok, there := ShipOne(candidates[i], t);
        if ok {
          numShipped := numShipped + 1;
        } else if there {
          return;
        } else {
          numLost := numLost + 1;
        }
      }
      Advance(Last(run).(phase := Counting(t, Phase().batch)));
    }

    /** How many candidates a new listing lacks: never fewer than were lost. */
    method CountRotated(t: Target, candidates: seq<Name>) returns (numRotated: nat)
      requires Valid() && Phase().Counting? && Phase().t == t && Phase().batch.candidates == candidates
      modifies `env, `run
      ensures Valid() && Waits(old(run), run) && Last(run) == old(Last(run)).(env := env)
      ensures numRotated == |Missing(candidates, if env.stopped then [] else env.local)|
      ensures numRotated >= |Phase().batch.lost|
    {
      var currentLogs := ListLogDirectory();
      CountingIsReady(run);
      numRotated := CountMissingNames(candidates, currentLogs);
    }

    method ShipCandidates(t: Target, candidates: seq<Name>) returns (shipped: Validation<nat>)
      requires Valid()
      requires if candidates == [] then Phase() == Finishing(t, Round(0, 0)) else
               && Phase().Shipping? && Phase().t == t
               && Phase().batch == Batch(SortNames(candidates), Phase().batch.asOf, 0, {}, {})
      modifies `env, `run
      ensures Valid() && Continues(old(run), run)
      ensures match shipped
              case BarnError =>
                candidates != [] && Phase() == Idle && |run| > |old(run)| && run[|run| - 2].phase.Counting?
              case Value(n) => Phase() == Finishing(t, Round(n, |candidates|)) && (n > 0 || candidates == [])
    {
      if |candidates| == 0 {
        return Value(0);
      }
      var sorted := SortNames(candidates);
      var numShipped, numLostDuringShip := ShipInOrder(t, sorted);
      var numRotatedDuringShip := CountRotated(t, sorted);
      assert numRotatedDuringShip >= numLostDuringShip;
      shipped := EndShipment(t, numShipped);
    }

    /** The result of ship_candidates: an error when nothing was shipped. */
    method EndShipment(t: Target, numShipped: nat) returns (shipped: Validation<nat>)
      requires Valid() && Phase().Counting? && Phase().t == t && numShipped == |Phase().batch.sent|
      modifies `env, `run
      ensures Valid() && Continues(old(run), run) && |run| == |old(run)| + 1
      ensures shipped == if numShipped == 0 then BarnError else Value(numShipped)
      ensures Phase() == if numShipped == 0 then Idle else
                         Finishing(t, Round(numShipped, |old(Phase()).batch.candidates|))
    {
      CountingEndsRound(Last(run));
      Advance(Last(run).EndRound());
      shipped := if numShipped == 0 then BarnError else Value(numShipped);
    }

    /** The body of dispatch_new_logs up to its sleep: a channel is picked in state `picked`, and
        the round fails in its query or its shipment, or is due a heartbeat. */
    method ShipNewLogs() returns (ok: bool, ghost picked: nat, ghost now: int)
      requires Valid() && Phase() == Idle
      modifies this, selector
      ensures Valid() && old(run) <= run && |old(run)| <= picked < |run|
      ensures Resting(run, |old(run)| - 1, picked) && run[picked].phase.Picked?
      ensures if ok then Active(run, picked, |run|) && Phase().Finishing?
              else && Active(run, picked, |run| - 1) && Phase() == Idle && picked < |run| - 1
                   && (run[|run| - 2].phase.Listed? || run[|run| - 2].phase.Counting?)
      ensures Last(run).calls == WithPick(old(Last(run)), now)
    {
      var t;
      t, now := PickChannel();
      picked := |run| - 1;
      var logsToShip := QueryCandidates(t);
      if logsToShip.BarnError? {
        return false, picked, now;
      }
      var numShipped := ShipCandidates(t, logsToShip.get);
      ok := !numShipped.BarnError?;
    }

    /** The sleep that ends a round, and before it is over the heartbeat if one is due. */
    method FinishRound(ok: bool) returns (ghost end: nat)
      requires Valid() && |run| > 1
      requires if ok then Phase().Finishing? else Phase() == Idle
      modifies this, selector
      ensures Valid() && Phase() == Idle && old(run) <= run
      ensures end + 1 < |run| && Resting(run, end + 1, |run|) && Last(run).calls == run[end + 1].calls
      ensures if ok
              then Active(run, |old(run)| - 1, end + 1) && run[end].calls == old(Last(run)).calls
              else end == |old(run)| - 2
    {
      end := |run| - 2;
      Interfere();  // sleep_it, or wait for a new file
      if ok {
        end := |run| - 1;
        if selector != null {
          selector.Heartbeat(env.clock);
        }
        Advance(Last(run).Heartbeat());
      }
    }

    /** One iteration of the agent's loop: one round is begun, and ends at state `end` as rounds
        do, with a heartbeat exactly if the round earned one.  The selector, if there is one,
        has been called once to pick, and once more for that heartbeat. */
    method DispatchNewLogs() returns (ghost end: nat, ghost now: int)
      requires Valid() && Phase() == Idle
      modifies this, selector
      ensures Valid() && Phase() == Idle && old(run) <= run
      ensures Begun(run) == Begun(old(run)) + 1
      ensures RoundEnds(run, |old(run)|, end)
      ensures run[end].calls == WithPick(old(Last(run)), now) && Last(run).calls == run[end + 1].calls
    {
      var ok;
      ghost var picked;
      ok, picked, now := ShipNewLogs();
      end := FinishRound(ok);
      OneRoundEnded(old(run), run, picked, end);
    }

    /** Any number of iterations: that many rounds are begun, and what is stranded on a target
        afterwards was stranded before. */
    method DispatchRounds(n: nat)
      requires Valid() && Phase() == Idle
      modifies this, selector
      ensures Valid() && Phase() == Idle && old(run) <= run
      ensures Begun(run) == Begun(old(run)) + n
      ensures forall t: Target :: Stranded(env, t) == StillLocal(old(Stranded(env, t)), env)
      ensures forall t: Target :: old(NoStranding(env, t)) ==> NoStranding(env, t)
    {
      for k := 0 to n
        invariant Valid() && Phase() == Idle && old(run) <= run
        invariant Begun(run) == Begun(old(run)) + k
      {
        ghost var end, now := DispatchNewLogs();
      }
      ghost var i, j := |old(run)| - 1, |run| - 1;
      forall t: Target
        ensures Stranded(env, t) == StillLocal(old(Stranded(env, t)), env)
        ensures old(NoStranding(env, t)) ==> NoStranding(env, t)
      {
        StrandedOnlyByTheStart(run, i, j, t);
        if NoStranding(run[i].env, t) {
          NoStrandingForever(run, i, j, t);
        }
      }
    }
  }

  lemma BatchCounts(r: seq<State>)
    requires IsRun(r) && Last(r).phase.Shipping? && Last(r).phase.batch.i < |Last(r).phase.batch.candidates|
    ensures var b := Last(r).phase.batch;
            |b.Sent().sent| == |b.sent| + 1 && |b.Lost().lost| == |b.lost| + 1
  {
    RunKeepsInv(r, |r| - 1);
    DropCurrent(Last(r).phase.batch);
  }

  lemma CountingEndsRound(s: State)
    requires s.phase.Counting?
    ensures Next(s, s.EndRound())
  {
  }

  lemma CountingIsReady(r: seq<State>)
    requires IsRun(r) && Last(r).phase.Counting?
    ensures var (candidates, listing) := (Last(r).phase.batch.candidates, Last(r).env.Listing());
            && SortedBy(NameLess, listing) && SortedBy(NameLess, candidates)
            && |Last(r).phase.batch.lost| <= |Missing(candidates, listing)|
  {
    RunKeepsInv(r, |r| - 1);
    AscendingIsSorted(Last(r).env.Listing());
    AscendingIsSorted(Last(r).phase.batch.candidates);
    RotatedCoversLost(r, |r| - 1);
  }

  lemma AscendingIsSorted(s: seq<Name>)
    requires Ascending(s)
    ensures SortedBy(NameLess, s)
  {
  }

  lemma OneRoundEnded(r: seq<State>, r': seq<State>, picked: nat, end: nat)
    requires IsRun(r') && r != [] && r <= r' && |r| <= picked <= end && end + 1 < |r'|
    requires Resting(r', |r| - 1, picked) && r'[picked].phase.Picked?
    requires Active(r', picked, end + 1) && Resting(r', end + 1, |r'|)
    ensures Begun(r') == Begun(r) + 1 && RoundEnds(r', |r|, end)
    ensures r'[end].phase.Finishing? || r'[end + 1].calls == r'[end].calls
  {
    EveryEndIsOfARound(r', |r|, end);
    OneRoundBegun(r', |r|, picked, end, |r'|);
    assert r'[..|r'|] == r' && r'[..|r|] == r;
  }

  /** count_missing on names. */
  method CountMissingNames(small: seq<Name>, big: seq<Name>) returns (missing: nat)
    requires SortedBy(NameLess, small) && SortedBy(NameLess, big)
    ensures missing == |Missing(small, big)|
  {
    missing := CountMissing(NameLess, small, big);
  }
}
