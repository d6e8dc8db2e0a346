/** Time-based failover between a primary and a secondary channel. */
module ChannelSelector {

  /** `primaryOk`, and the time of the last heartbeat on the primary or of the flip to
      the secondary. */
  datatype Selector = Selector(primaryOk: bool, lastHeartbeatTime: int) {
    function Heartbeat(now: int): Selector {
      if primaryOk then this.(lastHeartbeatTime := now) else this
    }

    function PickChannel(patience: int, now: int): Selector {
      var sinceHeartbeat := now - lastHeartbeatTime;
      if sinceHeartbeat < patience then this else Selector(!primaryOk, now)
    }
  }

  class FailoverChannelSelector<T> {
    const primary: T
    const secondary: T
    const secondsBeforeFailover: int
    var primaryOk: bool
    var lastHeartbeatTime: int

    ghost function State(): Selector
      reads this
    {
      Selector(primaryOk, lastHeartbeatTime)
    }

    constructor (primary: T, secondary: T, secondsBeforeFailover: int, now: int)
      requires secondsBeforeFailover > 0
      ensures State() == Selector(true, now)
      ensures this.primary == primary && this.secondary == secondary
      ensures this.secondsBeforeFailover == secondsBeforeFailover
    {
      this.primary, this.secondary, this.secondsBeforeFailover := primary, secondary, secondsBeforeFailover;
      primaryOk, lastHeartbeatTime := true, now;
    }

    function Current(): T
      reads this
    {
      if primaryOk then primary else secondary
    }

    method Heartbeat(now: int)
      modifies this
      ensures State() == old(State()).Heartbeat(now)
    {
      if primaryOk {
        lastHeartbeatTime := now;
      }
    }

    method PickChannel(now: int) returns (channel: T)
      modifies this
      ensures State() == old(State()).PickChannel(secondsBeforeFailover, now)
      ensures channel == if primaryOk then primary else secondary
    {
      var timeSinceHeartbeat := now - lastHeartbeatTime;
      if primaryOk && timeSinceHeartbeat < secondsBeforeFailover {
        // normal case
      } else if primaryOk {
        primaryOk := false;
        lastHeartbeatTime := now;
      } else if timeSinceHeartbeat < secondsBeforeFailover {
        // on secondary, stay there for now
      } else {
        primaryOk := true;
        lastHeartbeatTime := now;
      }
      channel := Current();
    }
  }

  // ----- runs of a selector: any calls, at non-decreasing times

  /** One call, and its time.  A heartbeat may carry what the caller reports with it. */
  datatype Call<R> = Pick(now: int) | Beat(now: int, report: R)

  /** A run of `calls` on a selector built at `start`. */
  datatype Run<R> = Run(start: int, patience: int, calls: seq<Call<R>>) {
    ghost predicate Monotone() {
      && (calls != [] ==> start <= calls[0].now)
      && forall i, j | 0 <= i < j < |calls| :: calls[i].now <= calls[j].now
    }

    /** The selector after the first n calls. */
    ghost function At(n: nat): Selector
      requires n <= |calls|
    {
      if n == 0 then Selector(true, start) else
      match calls[n - 1]
      case Pick(now) => At(n - 1).PickChannel(patience, now)
      case Beat(now, _) => At(n - 1).Heartbeat(now)
    }

    ghost predicate SwitchesAt(n: nat)
      requires n < |calls|
    {
      At(n).primaryOk != At(n + 1).primaryOk
    }

    ghost function Switches(n: nat): nat
      requires n <= |calls|
    {
      if n == 0 then 0 else Switches(n - 1) + if SwitchesAt(n - 1) then 1 else 0
    }

    ghost function TimeAt(n: nat): int
      requires n <= |calls|
    {
      if n == 0 then start else calls[n - 1].now
    }

    /** Call n is a heartbeat on the primary or brings the primary back. */
    ghost predicate RefreshesAt(n: nat)
      requires n < |calls|
    {
      if calls[n].Beat? then At(n).primaryOk else !At(n).primaryOk && At(n + 1).primaryOk
    }

    /** Later calls do not change what the earlier ones did. */
    lemma {:induction false} AtDependsOnPast(call: Call<R>, n: nat)
      requires n <= |calls|
      ensures this.(calls := calls + [call]).At(n) == At(n)
    {
      if n > 0 {
        AtDependsOnPast(call, n - 1);
      }
    }

    /** Call n brings the primary's turn to an end, or the secondary's. */
    lemma SwitchIsTimed(n: nat)
      requires n < |calls| && SwitchesAt(n)
      ensures calls[n].Pick? && calls[n].now - At(n).lastHeartbeatTime >= patience
      ensures At(n + 1).lastHeartbeatTime == calls[n].now
    {
    }

    lemma {:induction false} LastIsPast(n: nat)
      requires Monotone() && n <= |calls|
      ensures start <= At(n).lastHeartbeatTime <= TimeAt(n)
    {
      if n > 0 {
        LastIsPast(n - 1);
      }
    }

    /** Each switch so far has cost `patience`. */
    ghost function SwitchingTime(n: nat): int
      requires n <= |calls|
    {
      if n == 0 then 0 else SwitchingTime(n - 1) + if SwitchesAt(n - 1) then patience else 0
    }

    lemma {:induction false} SwitchingTimeIsProduct(n: nat)
      requires n <= |calls|
      ensures SwitchingTime(n) == Switches(n) * patience
    {
      if n > 0 {
        SwitchingTimeIsProduct(n - 1);
      }
    }

    lemma {:induction false} SwitchingTimeBoundedByLast(n: nat)
      requires Monotone() && n <= |calls|
      ensures SwitchingTime(n) <= At(n).lastHeartbeatTime - start
    {
      if n > 0 {
        SwitchingTimeBoundedByLast(n - 1);
        LastIsPast(n - 1);
      }
    }

    /** Switching is rate-limited, whatever heartbeats occur. */
    lemma SwitchesTakeTime(n: nat)
      requires Monotone() && n <= |calls|
      ensures Switches(n) * patience <= TimeAt(n) - start
    {
      SwitchingTimeIsProduct(n);
      SwitchingTimeBoundedByLast(n);
      LastIsPast(n);
    }

    /** Between a switch away from the primary at call i and call j, nothing moves the flip time. */
    lemma {:induction false} SecondaryKeepsFlipTime(i: nat, j: nat)
      requires i < j <= |calls| && SwitchesAt(i)
      requires forall k | i < k <= j :: !At(k).primaryOk
      ensures At(j).lastHeartbeatTime == calls[i].now
    {
      if i + 1 < j {
        SecondaryKeepsFlipTime(i, j - 1);
        assert !At(j - 1).primaryOk && !At(j).primaryOk;
        PickOnSecondary(j - 1);
      }
    }

    lemma PickOnSecondary(n: nat)
      requires n < |calls| && !At(n).primaryOk && !At(n + 1).primaryOk
      ensures At(n + 1) == At(n)
    {
    }

    /** Every stay on the secondary lasts at least `patience`. */
    lemma SecondaryStayLasts(i: nat, j: nat)
      requires i < j < |calls| && SwitchesAt(i) && SwitchesAt(j)
      requires forall k | i < k <= j :: !At(k).primaryOk
      ensures calls[j].now - calls[i].now >= patience
    {
      SecondaryKeepsFlipTime(i, j);
    }

    /** And it ends at the first pick made `patience` or more after the flip. */
    lemma ReturnsToPrimaryIffWaited(i: nat, j: nat)
      requires i < j < |calls| && SwitchesAt(i) && calls[j].Pick?
      requires forall k | i < k <= j :: !At(k).primaryOk
      ensures At(j + 1).primaryOk <==> calls[j].now - calls[i].now >= patience
    {
      SecondaryKeepsFlipTime(i, j);
    }

    /** The remembered time is the latest of the start, the flips and the refreshes; on the
        primary it is the start or a refresh. */
    lemma {:induction false} LastIsLatestRefresh(n: nat)
      requires Monotone() && n <= |calls|
      ensures forall i | 0 <= i < n :: RefreshesAt(i) ==> calls[i].now <= At(n).lastHeartbeatTime
      ensures At(n).primaryOk ==>
                || At(n).lastHeartbeatTime == start
                || exists i :: 0 <= i < n && RefreshesAt(i) && At(n).lastHeartbeatTime == calls[i].now
    {
      if n > 0 {
        LastIsLatestRefresh(n - 1);
        LastIsPast(n - 1);
        if RefreshesAt(n - 1) {
          assert At(n).lastHeartbeatTime == calls[n - 1].now;
        }
      }
    }

    /** pick_channel leaves the primary exactly when `patience` has passed since the start,
        every return to the primary and every heartbeat on it. */
    lemma LeavesPrimaryIffQuiet(n: nat)
      requires Monotone() && n < |calls| && calls[n].Pick? && At(n).primaryOk
      ensures !At(n + 1).primaryOk <==>
              && calls[n].now - start >= patience
              && forall i | 0 <= i < n :: RefreshesAt(i) ==> calls[n].now - calls[i].now >= patience
    {
      LastIsLatestRefresh(n);
      LastIsPast(n);
    }
  }
}
