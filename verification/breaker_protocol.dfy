/** The breaker as a concurrent protocol. Every operation holds the mutex, so a run is a
    sequence of atomic steps over one breaker and any number of requests in flight. */
module BreakerProtocol {
  import opened Common
  import opened Resilience

  /** Begin and Finish are the two locked halves of Execute; the id names the goroutine. */
  datatype Event =
    | Begin(id: nat, now: int, draw: int)
    | Finish(id: nat, failed: bool, now: int, draw: int)
    | Reset

  /** The breaker plus history. An epoch is one stay in half-open; a request is tagged with
      the epoch that admitted it, None when it was admitted while the breaker was closed.
      epochResults and stragglers count, within the current epoch, the results recorded and
      those of them that belong to requests admitted earlier. log holds the results recorded
      since the last Reset, true for a failure. */
  datatype System = System(
    breaker: Breaker,
    epoch: nat,
    inFlight: map<nat, Option<nat>>,
    epochResults: nat,
    stragglers: nat,
    log: seq<bool>)
  {
    /** The requests of the current epoch that are still running. */
    ghost function Current(): set<nat> {
      set id | id in inFlight && inFlight[id] == Some(epoch)
    }

    predicate Enabled(c: Config, e: Event) {
      match e
      case Begin(id, _, draw) => id !in inFlight && (breaker.state == Open ==> c.DrawOk(draw))
      case Finish(id, _, _, draw) => id in inFlight && (breaker.state == Open ==> c.DrawOk(draw))
      case Reset => true
    }

    /** Installs the breaker's next value, starting a new epoch when it enters half-open. */
    function Advance(next: Breaker): System {
      if next.state == HalfOpen && breaker.state != HalfOpen
      then this.(breaker := next, epoch := epoch + 1, epochResults := 0, stragglers := 0)
      else this.(breaker := next)
    }

    /** The state update that every operation makes under the lock. */
    function Settle(c: Config, now: int, draw: int): System {
      Advance(breaker.Update(c, now, draw))
    }

    /** Admission after the update: a rejected request leaves nothing behind. */
    function Admit(id: nat): System {
      match breaker.state
      case Open => this
      case Closed => this.(inFlight := inFlight[id := None])
      case HalfOpen =>
        if breaker.HasSlot()
        then this.(breaker := breaker.ClaimSlot(), inFlight := inFlight[id := Some(epoch)])
        else this
    }

    /** A request in flight leaves with its result, before the update. */
    function Note(id: nat, failed: bool, now: int): System
      requires id in inFlight
    {
      var left := this.(inFlight := inFlight - {id}, log := log + [failed], breaker := breaker.Record(failed, now));
      if breaker.state == HalfOpen
      then left.(epochResults := epochResults + 1,
                 stragglers := if inFlight[id] == Some(epoch) then stragglers else stragglers + 1)
      else left
    }

    function Step(c: Config, e: Event): System
      requires Enabled(c, e)
    {
      match e
      case Begin(id, now, draw) => Settle(c, now, draw).Admit(id)
      case Finish(id, failed, now, draw) => Note(id, failed, now).Settle(c, now, draw)
      case Reset => this.(breaker := breaker.Reset(c), log := [])
    }
  }

  /** The protocol's steps are the operations of the class: same breaker, same admission. */
  lemma StepsAreOperations(c: Config, s: System, e: Event)
    requires s.Enabled(c, e)
    ensures var t := s.Step(c, e);
            match e
            case Begin(id, now, draw) => (t.breaker, id in t.inFlight) == s.breaker.Begin(c, now, draw)
            case Finish(id, failed, now, draw) => t.breaker == s.breaker.Finish(c, failed, now, draw) && id !in t.inFlight
            case Reset => t.breaker == s.breaker.Reset(c) && t.inFlight == s.inFlight
  {}

  function Start(c: Config): System {
    System(Initial(c), 0, map[], 0, 0, [])
  }

  /** The state after a sequence of steps; None when some step was not enabled. */
  function Run(c: Config, events: seq<Event>): Option<System> {
    if events == [] then Some(Start(c))
    else
      var last := |events| - 1;
      match Run(c, events[..last])
      case None => None
      case Some(s) => if s.Enabled(c, events[last]) then Some(s.Step(c, events[last])) else None
  }

  lemma RunAppend(c: Config, events: seq<Event>, e: Event)
    requires Run(c, events).Some? && Run(c, events).value.Enabled(c, e)
    ensures Run(c, events + [e]) == Some(Run(c, events).value.Step(c, e))
  {
    assert (events + [e])[..|events|] == events;
  }

  // ---------------------------------------------------------------- invariant

  /** Length of the run of failures at the end of the log. */
  function TrailingFailures(log: seq<bool>): nat {
    if log == [] || !log[|log| - 1] then 0 else 1 + TrailingFailures(log[..|log| - 1])
  }

  /** base * 2^j */
  function Level(c: Config, j: nat): int {
    if j == 0 then c.baseAllowed else 2 * Level(c, j - 1)
  }

  lemma LevelIsPower(c: Config, j: nat)
    ensures Level(c, j) == c.baseAllowed * Pow2(j)
    ensures Level(c, j) - c.baseAllowed == c.baseAllowed * (Pow2(j) - 1)
  {}

  /** Where the recovery ladder stands, no failure being counted: at level j with at most
      that many successes, or past the last level an int64 can hold (only without a ceiling). */
  ghost predicate OnRung(c: Config, s: System, j: nat) {
    var b := s.breaker;
    && Level(c, j) <= c.Cap()
    && b.activeRequests <= Level(c, j)
    && SuccessesAtEnd(s.log, s.epochResults)
    && (if b.allowedRequests != 0 then
          && b.allowedRequests == Level(c, j)
          && 0 <= b.consecutiveSuccesses <= Level(c, j)
          && s.epochResults == Level(c, j) - c.baseAllowed + b.consecutiveSuccesses
        else
          && c.maxAllowed == 0
          && Level(c, j + 1) > c.Cap()
          && Level(c, j + 1) - c.baseAllowed <= s.epochResults <= Level(c, j + 1) - c.baseAllowed + 1)
  }

  /** Between two operations the update has been made, so no level is complete. */
  ghost predicate AtLevel(c: Config, s: System, j: nat) {
    && OnRung(c, s, j)
    && (if s.breaker.allowedRequests != 0 then s.breaker.consecutiveSuccesses < Level(c, j)
        else s.epochResults == Level(c, j + 1) - c.baseAllowed)
  }

  /** The last n results are all successes. */
  predicate SuccessesAtEnd(log: seq<bool>, n: nat) {
    n <= |log| && forall i :: |log| - n <= i < |log| ==> !log[i]
  }

  /** Holds at every moment, also in the middle of an operation. */
  ghost predicate Counted(c: Config, s: System) {
    && s.breaker.consecutiveFailures == TrailingFailures(s.log)
    && (forall id :: id in s.inFlight && s.inFlight[id].Some? ==> s.inFlight[id].value <= s.epoch)
    && (s.breaker.state == HalfOpen ==> s.breaker.activeRequests == |s.Current()| - s.stragglers)
  }

  /** Holds before the update: a result has been noted, or a request has arrived. */
  ghost predicate Unsettled(c: Config, s: System) {
    && Counted(c, s)
    && (s.breaker.state == Closed ==> s.breaker.consecutiveFailures <= c.failureThreshold)
    && (s.breaker.state == HalfOpen && s.breaker.consecutiveFailures == 0 ==> exists j: nat :: OnRung(c, s, j))
  }

  /** Holds after the update. While failures are still counted in half-open, the epoch has
      recorded nothing and runs exactly `probes` requests. */
  ghost predicate Settled(c: Config, s: System, probes: nat) {
    && Counted(c, s)
    && (s.breaker.state == Closed ==> s.breaker.consecutiveFailures < c.failureThreshold)
    && (s.breaker.state == HalfOpen ==>
          && (exists j: nat :: AtLevel(c, s, j))
          && (s.breaker.consecutiveFailures >= 1 ==> s.epochResults == 0 && |s.Current()| == probes))
  }

  ghost predicate Invariant(c: Config, s: System) {
    Settled(c, s, 1)
  }

  // ------------------------------------------------- preservation, stage by stage

  lemma LevelPositive(c: Config, j: nat)
    requires c.Accepted()
    ensures Level(c, j) >= c.baseAllowed >= 1
  {}

  /** Entering half-open starts an epoch without requests on the first rung. */
  lemma EntrySettles(c: Config, s: System, now: int, draw: int)
    requires c.Accepted() && Counted(c, s) && s.breaker.state == Open
    ensures Settled(c, s.Settle(c, now, draw), 0)
  {
    var t := s.Settle(c, now, draw);
    if t.breaker.state == HalfOpen {
      assert t.Current() == {};
      assert AtLevel(c, t, 0);
    }
  }

  /** From a complete rung the ladder is climbed, left at its end, or left behind the int64 range. */
  lemma RungSettles(c: Config, s: System, j: nat)
    requires c.Accepted() && OnRung(c, s, j) && s.breaker.state == HalfOpen && s.breaker.consecutiveFailures == 0
    ensures var t := s.(breaker := s.breaker.UpdateHalfOpen(c));
            if t.breaker.state == HalfOpen then AtLevel(c, t, j) || AtLevel(c, t, j + 1)
            else
              && t.breaker.state == Closed
              && Level(c, j) <= c.Cap() < Level(c, j + 1)
              && (s.breaker.allowedRequests == 0 <==> c.maxAllowed == 0)
              && (c.maxAllowed > 0 ==> t.epochResults == Level(c, j + 1) - c.baseAllowed)
  {
    LevelPositive(c, j);
    WrapTestIsExact(c, Level(c, j));
  }

  lemma UpdateSettles(c: Config, s: System, now: int, draw: int)
    requires c.Accepted() && Unsettled(c, s)
    ensures Settled(c, s.Settle(c, now, draw), 0)
  {
    var t := s.Settle(c, now, draw);
    match s.breaker.state
    case Closed =>
    case Open => EntrySettles(c, s, now, draw);
    case HalfOpen =>
      if s.breaker.consecutiveFailures == 0 {
        var j: nat :| OnRung(c, s, j);
        RungSettles(c, s, j);
        assert t == s.(breaker := s.breaker.UpdateHalfOpen(c));
        assert t.Current() == s.Current();
      }
  }

  /** Admitting a request of the current epoch adds it to the epoch's requests. */
  lemma AdmissionCounts(s: System, id: nat)
    requires id !in s.inFlight
    ensures |s.(inFlight := s.inFlight[id := Some(s.epoch)]).Current()| == |s.Current()| + 1
    ensures s.(inFlight := s.inFlight[id := None]).Current() == s.Current()
  {
    assert s.(inFlight := s.inFlight[id := Some(s.epoch)]).Current() == s.Current() + {id};
  }

  /** A request that is still half-open after its update meets a positive limit. */
  lemma BeginMeetsLimit(c: Config, s: System, now: int, draw: int)
    requires c.Accepted() && Invariant(c, s)
    ensures var b := s.breaker.Update(c, now, draw);
            b.state == HalfOpen ==> b.allowedRequests >= 1
  {
    if s.breaker.state == HalfOpen {
      var j: nat :| AtLevel(c, s, j);
      LevelPositive(c, j);
    }
  }

  lemma AdmissionKeeps(c: Config, s: System, id: nat)
    requires c.Accepted() && Settled(c, s, 0) && id !in s.inFlight
    requires s.breaker.state == HalfOpen ==> s.breaker.allowedRequests >= 1
    ensures Invariant(c, s.Admit(id))
  {
    var t := s.Admit(id);
    AdmissionCounts(s, id);
    if s.breaker.state == HalfOpen {
      var j: nat :| AtLevel(c, s, j);
      LevelPositive(c, j);
      assert s.breaker.consecutiveFailures >= 1 ==> s.breaker.HasSlot();
      assert s.breaker.HasSlot() ==> t.Current() == s.(inFlight := s.inFlight[id := Some(s.epoch)]).Current();
      assert AtLevel(c, t, j);
    }
  }

  /** A finishing request gives its slot back, or counts as a straggler. */
  lemma NotingKeeps(c: Config, s: System, id: nat, failed: bool, now: int)
    requires c.Accepted() && Invariant(c, s) && id in s.inFlight
    ensures Unsettled(c, s.Note(id, failed, now))
  {
    var t := s.Note(id, failed, now);
    assert t.log[..|t.log| - 1] == s.log;
    assert t.Current() == s.Current() - {id};
    if s.breaker.state == HalfOpen && !failed {
      var j: nat :| AtLevel(c, s, j);
      LevelPositive(c, j);
      assert OnRung(c, t, j);
    }
  }

  /** A failure just recorded cannot be older than the timeout. */
  lemma FailureDoesNotExpire(c: Config, s: System, now: int, draw: int)
    requires c.Accepted() && c.DrawOk(draw) && s.breaker.state == Open && s.breaker.lastFailureTime == now
    ensures s.Settle(c, now, draw).breaker.state == Open
  {
    EffectiveTimeoutBounds(c, draw);
  }

  lemma FinishKeeps(c: Config, s: System, e: Event)
    requires c.Accepted() && Invariant(c, s) && s.Enabled(c, e) && e.Finish?
    ensures Invariant(c, s.Step(c, e))
  {
    var noted := s.Note(e.id, e.failed, e.now);
    NotingKeeps(c, s, e.id, e.failed, e.now);
    UpdateSettles(c, noted, e.now, e.draw);
    if e.failed && s.breaker.state == Open {
      FailureDoesNotExpire(c, noted, e.now, e.draw);
    }
  }

  lemma StepKeeps(c: Config, s: System, e: Event)
    requires c.Accepted() && Invariant(c, s) && s.Enabled(c, e)
    ensures Invariant(c, s.Step(c, e))
  {
    match e
    case Begin(id, now, draw) =>
      assert Unsettled(c, s);
      UpdateSettles(c, s, now, draw);
      BeginMeetsLimit(c, s, now, draw);
      AdmissionKeeps(c, s.Settle(c, now, draw), id);
    case Finish(_, _, _, _) => FinishKeeps(c, s, e);
    case Reset =>
  }

  lemma {:induction false} RunKeeps(c: Config, events: seq<Event>)
    requires c.Accepted() && Run(c, events).Some?
    ensures Invariant(c, Run(c, events).value)
  {
    if events != [] {
      var last := |events| - 1;
      RunKeeps(c, events[..last]);
      StepKeeps(c, Run(c, events[..last]).value, events[last]);
    }
  }

  // ------------------------------------------------------------ what runs promise

  /** Slot accounting, over every interleaving: the counter is the current epoch's requests
      minus the late finishers it was wrongly credited with, so the limit may be exceeded by
      at most those, and not at all when there are none. */
  lemma SlotAccounting(c: Config, events: seq<Event>)
    requires c.Accepted() && Run(c, events).Some?
    ensures var s := Run(c, events).value;
            s.breaker.state == HalfOpen ==>
              && s.breaker.activeRequests == |s.Current()| - s.stragglers
              && var limit := if s.breaker.allowedRequests == 0 then c.Cap() else s.breaker.allowedRequests;
                 |s.Current()| <= limit + s.stragglers
  {
    RunKeeps(c, events);
    var s := Run(c, events).value;
    if s.breaker.state == HalfOpen {
      var j: nat :| AtLevel(c, s, j);
    }
  }

  /** One more step at the end of a run. */
  lemma RunStep(c: Config, events: seq<Event>, e: Event)
    requires c.Accepted() && Run(c, events + [e]).Some?
    ensures Run(c, events).Some?
    ensures var s := Run(c, events).value;
            Invariant(c, s) && s.Enabled(c, e) && Run(c, events + [e]).value == s.Step(c, e)
  {
    assert (events + [e])[..|events|] == events;
    RunKeeps(c, events);
  }

  /** The results an epoch holds when it closes from rung k. */
  ghost predicate ClosedAt(c: Config, t: System, byFinish: bool, k: nat) {
    && c.baseAllowed * Pow2(k) <= c.Cap() < c.baseAllowed * Pow2(k + 1)
    && SuccessesAtEnd(t.log, t.epochResults)
    && var full := c.baseAllowed * (Pow2(k + 1) - 1);
       if c.maxAllowed > 0 then t.epochResults == full && byFinish
       else t.epochResults == full + if byFinish then 1 else 0
  }

  /** Only a successful result, or the update past an unlimited level, closes the breaker. */
  lemma ClosingStep(c: Config, s: System, e: Event) returns (k: nat)
    requires c.Accepted() && Invariant(c, s) && s.Enabled(c, e) && !e.Reset?
    requires s.breaker.state == HalfOpen && s.Step(c, e).breaker.state == Closed
    ensures Level(c, k) <= c.Cap() < Level(c, k + 1)
    ensures var t, full := s.Step(c, e), Level(c, k + 1) - c.baseAllowed;
            && SuccessesAtEnd(t.log, t.epochResults)
            && (if c.maxAllowed > 0 then t.epochResults == full && e.Finish?
                else t.epochResults == full + if e.Finish? then 1 else 0)
  {
    k :| AtLevel(c, s, k);
    LevelPositive(c, k);
    if e.Finish? {
      var noted := s.Note(e.id, e.failed, e.now);
      NotingKeeps(c, s, e.id, e.failed, e.now);
      assert !e.failed && OnRung(c, noted, k);
      RungSettles(c, noted, k);
    } else {
      RungSettles(c, s, k);
    }
  }

  lemma ClosesAtRung(c: Config, s: System, e: Event) returns (k: nat)
    requires c.Accepted() && Invariant(c, s) && s.Enabled(c, e) && !e.Reset?
    requires s.breaker.state == HalfOpen && s.Step(c, e).breaker.state == Closed
    ensures ClosedAt(c, s.Step(c, e), e.Finish?, k)
  {
    k := ClosingStep(c, s, e);
    LevelIsPower(c, k);
    LevelIsPower(c, k + 1);
  }

  /** Exact recovery length. An epoch that closes other than by Reset recorded exactly
      base * (2^(k+1) - 1) results, none of them a failure, where k is the last rung of the
      ladder. Without a ceiling the ladder ends at the last level an int64 holds, and the
      closing step may itself record one more result. */
  lemma RecoveryLength(c: Config, events: seq<Event>, e: Event)
    requires c.Accepted() && Run(c, events + [e]).Some? && !e.Reset?
    requires Run(c, events).Some? && Run(c, events).value.breaker.state == HalfOpen
    requires Run(c, events + [e]).value.breaker.state == Closed
    ensures exists k: nat :: ClosedAt(c, Run(c, events + [e]).value, e.Finish?, k)
  {
    RunStep(c, events, e);
    var k := ClosesAtRung(c, Run(c, events).value, e);
  }

  /** From closed, only a result that completes a run of failures opens the breaker. */
  lemma ClosedStep(c: Config, s: System, e: Event)
    requires s.breaker.state == Closed && s.Enabled(c, e)
    requires s.breaker.consecutiveFailures == TrailingFailures(s.log) < c.failureThreshold
    ensures var t := s.Step(c, e);
            && t.breaker.state != HalfOpen
            && (t.breaker.state == Open <==> e.Finish? && TrailingFailures(t.log) == c.failureThreshold)
  {
    ClosedCounts(c, s, e);
    if e.Finish? {
      TrailingSnoc(s.log, e.failed);
    }
  }

  lemma ClosedCounts(c: Config, s: System, e: Event)
    requires s.breaker.state == Closed && s.Enabled(c, e) && 0 <= s.breaker.consecutiveFailures < c.failureThreshold
    ensures var t := s.Step(c, e);
            && t.breaker.state != HalfOpen
            && (t.breaker.state == Open <==> e.Finish? && e.failed && s.breaker.consecutiveFailures + 1 == c.failureThreshold)
            && (e.Finish? ==> t.log == s.log + [e.failed])
  {}

  lemma TrailingSnoc(log: seq<bool>, failed: bool)
    ensures TrailingFailures(log + [failed]) == if failed then 1 + TrailingFailures(log) else 0
  {
    assert (log + [failed])[..|log|] == log;
  }

  /** From open, only a Reset closes it. */
  lemma OpenStep(c: Config, s: System, e: Event)
    requires s.breaker.state == Open && s.Enabled(c, e)
    ensures s.Step(c, e).breaker.state == Closed ==> e.Reset?
  {}

  /** Opening history: the failure counter is the trailing run of failures since the last
      Reset; a closed breaker is below its threshold, opens exactly at the result that
      completes a run of failureThreshold failures, and never skips to half-open; an open
      one closes only by Reset. */
  lemma OpeningHistory(c: Config, events: seq<Event>, e: Event)
    requires c.Accepted() && Run(c, events + [e]).Some?
    ensures Run(c, events).Some?
    ensures var s, t := Run(c, events).value, Run(c, events + [e]).value;
            && t.breaker.consecutiveFailures == TrailingFailures(t.log)
            && (t.breaker.state == Closed ==> TrailingFailures(t.log) < c.failureThreshold)
            && (s.breaker.state == Closed ==>
                  && t.breaker.state != HalfOpen
                  && (t.breaker.state == Open <==> e.Finish? && TrailingFailures(t.log) == c.failureThreshold))
            && (s.breaker.state == Open && t.breaker.state == Closed ==> e.Reset?)
  {
    RunStep(c, events, e);
    var s := Run(c, events).value;
    StepKeeps(c, s, e);
    if s.breaker.state == Closed {
      ClosedStep(c, s, e);
    } else if s.breaker.state == Open {
      OpenStep(c, s, e);
    }
  }

  /** Entering half-open does not clear the failures that opened the breaker, so a second
      request arriving before the epoch's first result reopens it: this happens to a Begin
      in half-open exactly when such failures are still counted. */
  lemma SecondProbeReopens(c: Config, events: seq<Event>, e: Event)
    requires c.Accepted() && Run(c, events + [e]).Some? && e.Begin?
    requires Run(c, events).Some? && Run(c, events).value.breaker.state == HalfOpen
    ensures var s, t := Run(c, events).value, Run(c, events + [e]).value;
            && (t.breaker.state == Open <==> TrailingFailures(s.log) >= 1)
            && (t.breaker.state == Open ==> s.epochResults == 0 && |s.Current()| == 1 && t.inFlight == s.inFlight)
  {
    RunStep(c, events, e);
  }

  /** The "no limit" admission branch is dead: a Begin that finds the breaker half-open
      after its update always meets a positive limit. */
  lemma AdmissionIsAlwaysLimited(c: Config, events: seq<Event>, now: int, draw: int)
    requires c.Accepted() && Run(c, events).Some?
    ensures var b := Run(c, events).value.breaker.Update(c, now, draw);
            b.state == HalfOpen ==> b.allowedRequests >= 1
  {
    RunKeeps(c, events);
    BeginMeetsLimit(c, Run(c, events).value, now, draw);
  }

  // ------------------------------- the limit is per epoch, not per breaker

  /** k failing requests in a row: the breaker opens when k reaches the threshold. */
  lemma {:induction false} Outage(c: Config, k: nat) returns (events: seq<Event>)
    requires c.Accepted() && k <= c.failureThreshold
    ensures Run(c, events).Some?
    ensures var s := Run(c, events).value;
            && s.breaker.state == (if k == c.failureThreshold then Open else Closed)
            && s.breaker.consecutiveFailures == k && s.inFlight == map[]
            && (k > 0 ==> s.breaker.lastFailureTime == 0)
  {
    if k == 0 {
      events := [];
    } else {
      var before := Outage(c, k - 1);
      events := before + [Begin(0, 0, 0)] + [Finish(0, true, 0, 0)];
      RunAppend(c, before, Begin(0, 0, 0));
      RunAppend(c, before + [Begin(0, 0, 0)], Finish(0, true, 0, 0));
    }
  }

  // ------------------------------------------------ recovery does happen

  /** In half-open with at least one success recorded, and no request in flight. */
  ghost predicate Recovering(s: System) {
    && s.breaker.state == HalfOpen && s.breaker.consecutiveFailures == 0
    && s.inFlight == map[] && s.stragglers == 0
  }

  /** e closes, after the events, an epoch other than by Reset. */
  ghost predicate Closes(c: Config, events: seq<Event>, e: Event) {
    && !e.Reset? && Run(c, events).Some? && Run(c, events + [e]).Some?
    && Run(c, events).value.breaker.state == HalfOpen && Run(c, events + [e]).value.breaker.state == Closed
  }

  /** A rung bounds what its epoch has recorded. */
  lemma RecordedBelow(c: Config, s: System)
    requires c.Accepted() && Invariant(c, s) && s.breaker.state == HalfOpen
    ensures s.epochResults <= 2 * c.Cap()
  {
    var j: nat :| AtLevel(c, s, j);
    LevelPositive(c, j);
    assert Level(c, j + 1) == 2 * Level(c, j);
  }

  /** The next request is admitted, unless its update closes the breaker. */
  lemma ProbeAdmitted(c: Config, s: System)
    requires c.Accepted() && Invariant(c, s) && Recovering(s)
    ensures s.Enabled(c, Begin(0, 0, 0))
    ensures var t := s.Step(c, Begin(0, 0, 0));
            t.breaker.state == Closed ||
            (t.breaker.state == HalfOpen && t.breaker.consecutiveFailures == 0 && t.stragglers == 0
             && t.inFlight == map[0 := Some(t.epoch)] && t.epochResults == s.epochResults)
  {
    assert s.Current() == {};
    var j: nat :| AtLevel(c, s, j);
  }

  /** Its success is recorded, and closes the breaker or leaves it recovering. */
  lemma ProbeSucceeds(c: Config, s: System)
    requires c.Accepted() && Invariant(c, s) && s.breaker.state == HalfOpen
    requires s.inFlight == map[0 := Some(s.epoch)] && s.stragglers == 0
    ensures s.Enabled(c, Finish(0, false, 0, 0))
    ensures var t := s.Step(c, Finish(0, false, 0, 0));
            t.breaker.state == Closed || (Recovering(t) && t.epochResults == s.epochResults + 1)
  {
    assert map[0 := Some(s.epoch)] - {0} == map[];
  }

  /** Successful probes, one after the other, close the breaker. */
  lemma {:induction false} RecoveryGoesOn(c: Config, events: seq<Event>)
    requires c.Accepted() && Run(c, events).Some? && Recovering(Run(c, events).value)
    ensures exists more, e :: Closes(c, more, e)
    decreases 2 * c.Cap() - Run(c, events).value.epochResults
  {
    var s, begin, finish := Run(c, events).value, Begin(0, 0, 0), Finish(0, false, 0, 0);
    RunKeeps(c, events);
    ProbeAdmitted(c, s);
    RunAppend(c, events, begin);
    if s.Step(c, begin).breaker.state == Closed {
      assert Closes(c, events, begin);
    } else {
      RunKeeps(c, events + [begin]);
      ProbeSucceeds(c, s.Step(c, begin));
      RunAppend(c, events + [begin], finish);
      ProbeRecorded(c, events + [begin], finish);
    }
  }

  lemma {:induction false} ProbeRecorded(c: Config, events: seq<Event>, finish: Event)
    requires c.Accepted() && Run(c, events).Some? && Run(c, events).value.breaker.state == HalfOpen
    requires finish == Finish(0, false, 0, 0) && Run(c, events + [finish]).Some?
    requires var t := Run(c, events + [finish]).value;
             t.breaker.state == Closed || (Recovering(t) && t.epochResults == Run(c, events).value.epochResults + 1)
    ensures exists more, e :: Closes(c, more, e)
    decreases 2 * c.Cap() - Run(c, events).value.epochResults, 1
  {
    var t := Run(c, events + [finish]).value;
    if t.breaker.state == Closed {
      assert Closes(c, events, finish);
    } else {
      RunKeeps(c, events + [finish]);
      RecordedBelow(c, t);
      RecoveryGoesOn(c, events + [finish]);
    }
  }

  /** The first request after the timeout is a probe of a new epoch. */
  lemma FirstProbe(c: Config, s: System)
    requires c.Accepted() && c.DrawOk(0) && s.breaker.state == Open && s.breaker.lastFailureTime == 0 && s.inFlight == map[]
    ensures s.Enabled(c, Begin(0, c.timeout + 1, 0))
    ensures var t := s.Step(c, Begin(0, c.timeout + 1, 0));
            t.breaker.state == HalfOpen && t.inFlight == map[0 := Some(t.epoch)] && t.stragglers == 0
  {}

  /** Every accepted breaker can recover: after an outage successful probes climb its whole
      ladder, and what they record is told by RecoveryLength. */
  lemma RecoveryHappens(c: Config)
    requires c.Accepted() && c.DrawOk(0)
    ensures exists events, e :: Closes(c, events, e) && exists k: nat :: ClosedAt(c, Run(c, events + [e]).value, e.Finish?, k)
  {
    var outage := Outage(c, c.failureThreshold);
    var begin, finish := Begin(0, c.timeout + 1, 0), Finish(0, false, 0, 0);
    FirstProbe(c, Run(c, outage).value);
    RunAppend(c, outage, begin);
    RunKeeps(c, outage + [begin]);
    ProbeSucceeds(c, Run(c, outage + [begin]).value);
    RunAppend(c, outage + [begin], finish);
    ProbeRecorded(c, outage + [begin], finish);
    var events, e :| Closes(c, events, e);
    RecoveryLength(c, events, e);
  }

  /** n probes admitted in half-open are running although the breaker is open. */
  ghost predicate PiledUp(s: System, n: nat) {
    && s.breaker.state == Open && s.breaker.consecutiveFailures >= 1 && s.breaker.lastFailureTime == 0
    && (forall id: nat :: id in s.inFlight <==> id < n)
    && (forall id: nat :: id in s.inFlight ==> s.inFlight[id].Some?)
  }

  /** One probe is admitted, and the next request reopens the breaker. */
  lemma ProbePair(c: Config, s: System, n: nat)
    requires c.Accepted() && c.DrawOk(0) && PiledUp(s, n)
    ensures var probe, second := Begin(n, c.timeout + 1, 0), Begin(n + 1, c.timeout + 1, 0);
            && s.Enabled(c, probe) && s.Step(c, probe).Enabled(c, second)
            && PiledUp(s.Step(c, probe).Step(c, second), n + 1)
  {}

  ghost predicate Reaches(c: Config, events: seq<Event>, n: nat) {
    Run(c, events).Some? && PiledUp(Run(c, events).value, n)
  }

  lemma PairExtends(c: Config, before: seq<Event>, n: nat) returns (events: seq<Event>)
    requires c.Accepted() && c.DrawOk(0) && Reaches(c, before, n)
    ensures Reaches(c, events, n + 1)
  {
    var probe, second := Begin(n, c.timeout + 1, 0), Begin(n + 1, c.timeout + 1, 0);
    ProbePair(c, Run(c, before).value, n);
    RunAppend(c, before, probe);
    RunAppend(c, before + [probe], second);
    events := before + [probe] + [second];
  }

  lemma OutageReaches(c: Config)
    requires c.Accepted() && c.DrawOk(0)
    ensures exists events :: Reaches(c, events, 0)
  {
    var events := Outage(c, c.failureThreshold);
    assert Reaches(c, events, 0);
  }

  /** No number bounds the probes in flight at once: every reopening makes room for another
      epoch while the earlier probes still run. So no bound on all half-open requests
      together holds of the breaker; SlotAccounting's is per epoch. */
  lemma {:induction false} ProbesPileUp(c: Config, n: nat)
    requires c.Accepted() && c.DrawOk(0)
    ensures exists events :: Reaches(c, events, n)
  {
    if n == 0 {
      OutageReaches(c);
    } else {
      ProbesPileUp(c, n - 1);
      var before :| Reaches(c, before, n - 1);
      var events := PairExtends(c, before, n - 1);
    }
  }
}
