/** connector/liveness.go and connector/health.go: probes around blocking stages and the
    monitor that turns their ages into health conditions. Instants are nanoseconds. */
module Liveness {
  import opened Common

  const NO_STAGE: string := ""

  /** A probe's fields as a value. An empty stage means "waiting for work". */
  datatype ProbeState = ProbeState(stage: string, since: int) {
    predicate Active() {
      stage != NO_STAGE
    }

    function Touched(now: int): ProbeState {
      if Active() then ProbeState(stage, now) else this
    }

    /** What the monitor tests at an evaluation instant. */
    predicate Stuck(now: int, threshold: int) {
      Active() && now - since > threshold
    }
  }

  class Probe {
    var stage: string
    var since: int

    constructor ()
      ensures View() == ProbeState(NO_STAGE, 0)
    {
      stage, since := NO_STAGE, 0;
    }

    function View(): ProbeState
      reads this
    {
      ProbeState(stage, since)
    }

    method Begin(name: string, now: int)
      modifies this
      ensures View() == ProbeState(name, now)
    {
      stage := name;
      since := now;
    }

    method End()
      modifies this
      ensures !View().Active()
    {
      stage := NO_STAGE;
      since := 0;
    }

    method Touch(now: int)
      modifies this
      ensures View() == old(View()).Touched(now)
    {
      if stage == NO_STAGE {
        return;
      }
      since := now;
    }

    method Sample(now: int) returns (name: string, age: int, active: bool)
      ensures active == View().Active()
      ensures active ==> name == stage && age == now - since
      ensures !active ==> name == NO_STAGE && age == 0
    {
      if stage == NO_STAGE {
        return NO_STAGE, 0, false;
      }
      return stage, now - since, true;
    }
  }

  datatype Condition = Rebinding | FetchStalled | StageStuck(owner: string)

  /** The active conditions with the instant each was raised. Edge-triggered: raising an
      active condition or clearing an inactive one changes nothing. */
  class HealthState {
    var active: map<Condition, int>
    var lastFetchSuccess: int
    var lastEvaluate: int

    constructor ()
      ensures active == map[] && lastFetchSuccess == 0 && lastEvaluate == 0
    {
      active, lastFetchSuccess, lastEvaluate := map[], 0, 0;
    }

    method RecordFetchSuccess(now: int)
      modifies this`lastFetchSuccess
      ensures lastFetchSuccess == now
    {
      lastFetchSuccess := now;
    }

    method Set(reason: Condition, now: int)
      modifies this`active
      ensures active == old(if reason in active then active else active[reason := now])
    {
      if reason in active {
        return;
      }
      active := active[reason := now];
    }

    method Clear(reason: Condition)
      modifies this`active
      ensures active == old(active) - {reason}
    {
      if reason in active {
        active := active - {reason};
      }
    }
  }

  datatype ProbeRef = ProbeRef(owner: string, probe: Probe)

  class HealthMonitor {
    const health: HealthState
    const probes: seq<ProbeRef>
    const stuckThreshold: int

    constructor (health: HealthState, probes: seq<ProbeRef>, stuckThreshold: int)
      ensures this.health == health && this.probes == probes && this.stuckThreshold == stuckThreshold
    {
      this.health, this.probes, this.stuckThreshold := health, probes, stuckThreshold;
    }

    /** The probes are owned by distinct goroutines. */
    ghost predicate DistinctOwners() {
      forall i, j :: 0 <= i < j < |probes| ==> probes[i].owner != probes[j].owner
    }

    ghost predicate StuckAt(i: nat, now: int)
      requires i < |probes|
      reads set r | r in probes :: r.probe
    {
      probes[i].probe.View().Stuck(now, stuckThreshold)
    }

    /** One pass: afterwards a stage condition is active exactly for the stuck probes, a
        fetch stall exactly when the last success is too old and no re-bind is under way,
        and a condition that stays active keeps the instant it was raised. */
    method Evaluate(now: int)
      requires DistinctOwners()
      modifies health
      ensures forall i :: 0 <= i < |probes| ==> (StageStuck(probes[i].owner) in health.active <==> StuckAt(i, now))
      ensures FetchStalled in health.active <==>
                now - health.lastFetchSuccess > stuckThreshold && Rebinding !in health.active
      ensures Rebinding in health.active <==> Rebinding in old(health.active)
      ensures forall c :: c in health.active ==> health.active[c] == if c in old(health.active) then old(health.active)[c] else now
      ensures health.lastEvaluate == now && health.lastFetchSuccess == old(health.lastFetchSuccess)
    {
      for i := 0 to |probes|
        invariant health.lastFetchSuccess == old(health.lastFetchSuccess)
        invariant forall k :: 0 <= k < i ==> (StageStuck(probes[k].owner) in health.active <==> StuckAt(k, now))
        invariant forall c :: (forall k :: 0 <= k < i ==> c != StageStuck(probes[k].owner)) ==>
                    (c in health.active <==> c in old(health.active))
        invariant forall c :: c in health.active ==>
                    health.active[c] == if c in old(health.active) then old(health.active)[c] else now
      {
        var condition := StageStuck(probes[i].owner);
        var _, age, active := probes[i].probe.Sample(now);
        if active && age > stuckThreshold {
          health.Set(condition, now);
        } else {
          health.Clear(condition);
        }
      }
      var stalled := now - health.lastFetchSuccess > stuckThreshold && Rebinding !in health.active;
      if stalled {
        health.Set(FetchStalled, now);
      } else {
        health.Clear(FetchStalled);
      }
      health.lastEvaluate := now;
    }
  }
}
