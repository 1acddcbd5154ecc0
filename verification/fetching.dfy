/** connector/connector.go: the fetch loop with its re-bind ladder, and the error channel it
    shares with the workers; connector/resilience/backoff.go: the delays. */
module Fetching {
  import opened Common
  import opened Liveness
  import Sink

  // --------------------------------------------------------- delays

  /** The delay sequence of one retrying goroutine: base, doubled each time, at most max. */
  class Backoff {
    const base: int
    const max: int
    var next: int
    /** Delays handed out since the start of the sequence. */
    ghost var taken: nat

    ghost predicate Valid()
      reads this
    {
      1 <= base <= max <= MAX_INT64 / 2 && next == Sink.DelayAt(base, max, taken)
    }

    constructor (base: int, max: int)
      requires 1 <= base <= max <= MAX_INT64 / 2
      ensures Valid() && this.base == base && this.max == max && taken == 0
    {
      this.base, this.max, next, taken := base, max, base, 0;
    }

    method Next() returns (delay: int)
      requires Valid()
      modifies this
      ensures Valid() && delay == Sink.DelayAt(base, max, old(taken)) && taken == old(taken) + 1
    {
      Sink.DoubledIsPositive(base, taken);
      delay := next;
      next := Wrap64(next * 2);
      if next > max {
        next := max;
      }
      taken := taken + 1;
    }

    method Reset()
      requires Valid()
      modifies this
      ensures Valid() && taken == 0
    {
      next := base;
      taken := 0;
    }
  }

  // --------------------------------------------------------- one round of the loop

  datatype FetchResult = Fetched(batch: seq<nat>) | TransientError | SubscriptionFailed

  /** cancelled: the context is done when the failure is looked at; cutWait: the following
      sleep is interrupted. */
  datatype RebindResult = Rebound | RebindFailed(cancelled: bool, cutWait: bool)

  /** What the loop meets in one round: a fetch is begun at fetchAt and returns at now.
      interrupted: the cancellation wins against the send of the batch, or against the sleep. */
  datatype Round = Round(
    fetchAt: int,
    now: int,
    cancelledAtHead: bool,
    fetch: FetchResult,
    cancelledAfterFetch: bool,
    interrupted: bool,
    rebinds: nat -> RebindResult)

  datatype FatalError = MaxRetriesExceeded(attempts: int)

  datatype Verdict = GoOn | Cancelled | Exhausted

  function RebindVerdict(rebinds: nat -> RebindResult, attempts: int, attempt: nat): Verdict
    decreases attempts - attempt
  {
    if attempt > attempts then Exhausted
    else match rebinds(attempt)
      case Rebound => GoOn
      case RebindFailed(cancelled, cutWait) =>
        if cancelled || (attempt < attempts && cutWait) then Cancelled
        else RebindVerdict(rebinds, attempts, attempt + 1)
  }

  function VerdictOf(r: Round, attempts: int): Verdict {
    if r.cancelledAtHead then Cancelled
    else match r.fetch
      case Fetched(_) => if r.interrupted then Cancelled else GoOn
      case TransientError => if r.cancelledAfterFetch || r.interrupted then Cancelled else GoOn
      case SubscriptionFailed => if r.cancelledAfterFetch then Cancelled else RebindVerdict(r.rebinds, attempts, 1)
  }

  function FetchedIn(r: Round): seq<seq<nat>> {
    if !r.cancelledAtHead && r.fetch.Fetched? && r.fetch.batch != [] then [r.fetch.batch] else []
  }

  function DeliveredIn(r: Round): seq<seq<nat>> {
    if r.interrupted then [] else FetchedIn(r)
  }

  /** The non-empty batches that the first n rounds fetched. */
  function FetchedBy(rounds: seq<Round>, n: nat): seq<seq<nat>>
    requires n <= |rounds|
  {
    if n == 0 then [] else FetchedBy(rounds, n - 1) + FetchedIn(rounds[n - 1])
  }

  /** What the liveness probe shows while the loop is blocked, stage after stage: it covers
      the fetch and the send of a batch, and no sleep. */
  function StagesIn(r: Round): seq<ProbeState> {
    if r.cancelledAtHead then []
    else [ProbeState("fetch", r.fetchAt)] + if FetchedIn(r) != [] then [ProbeState("dispatch", r.now)] else []
  }

  /** The fatal errors sent by a round. */
  function FatalIn(r: Round, attempts: int): seq<FatalError> {
    if VerdictOf(r, attempts) == Exhausted then [MaxRetriesExceeded(attempts)] else []
  }

  /** Each of the first n rounds lets the loop go on. */
  ghost predicate AllGoOn(rounds: seq<Round>, n: nat, attempts: int)
    requires n <= |rounds|
  {
    n == 0 || (AllGoOn(rounds, n - 1, attempts) && VerdictOf(rounds[n - 1], attempts) == GoOn)
  }

  /** The re-bind budget is exhausted exactly by that many failures in a row. */
  lemma {:induction false} ExhaustedByFailures(rebinds: nat -> RebindResult, attempts: int, attempt: nat)
    ensures RebindVerdict(rebinds, attempts, attempt) == Exhausted <==>
              forall k: nat :: attempt <= k <= attempts ==>
                && rebinds(k).RebindFailed? && !rebinds(k).cancelled && (k < attempts ==> !rebinds(k).cutWait)
    decreases attempts - attempt
  {
    if attempt <= attempts {
      ExhaustedByFailures(rebinds, attempts, attempt + 1);
      if rebinds(attempt).RebindFailed? && !rebinds(attempt).cancelled && (attempt < attempts ==> !rebinds(attempt).cutWait) {
        assert RebindVerdict(rebinds, attempts, attempt) == RebindVerdict(rebinds, attempts, attempt + 1);
      }
    }
  }

  /** What n rounds have put on the work channel: everything they fetched, in order, or all
      but the last batch, and that only when the last round was cancelled. */
  ghost predicate DeliveredInOrder(delivered: seq<seq<nat>>, rounds: seq<Round>, n: nat, attempts: int)
    requires n <= |rounds|
  {
    var fetched := FetchedBy(rounds, n);
    || delivered == fetched
    || (n > 0 && VerdictOf(rounds[n - 1], attempts) == Cancelled
        && fetched != [] && delivered == fetched[..|fetched| - 1])
  }

  lemma RoundGoesOn(rounds: seq<Round>, n: nat, attempts: int)
    requires n < |rounds| && VerdictOf(rounds[n], attempts) == GoOn
    ensures FetchedBy(rounds, n + 1) == FetchedBy(rounds, n) + DeliveredIn(rounds[n])
  {}

  lemma RoundEnds(rounds: seq<Round>, n: nat, attempts: int)
    requires n < |rounds| && VerdictOf(rounds[n], attempts) != GoOn
    ensures DeliveredInOrder(FetchedBy(rounds, n) + DeliveredIn(rounds[n]), rounds, n + 1, attempts)
  {}

  class Connector {
    const rebindBase: int
    const rebindMax: int
    const rebindAttempts: int
    const health: HealthState
    const probe: Probe
    /** What the probe showed in each blocking stage so far. */
    ghost var stages: seq<ProbeState>
    /** What went into the work channel, and how often it was closed. */
    var delivered: seq<seq<nat>>
    var closes: nat
    /** What the fetch loop sent on the error channel. */
    var fatal: seq<FatalError>
    var messagesFetched: nat
    var transientErrors: nat
    var subscriptionErrors: nat
    var rebindsAttempted: nat

    predicate DelaysAccepted() {
      1 <= rebindBase <= rebindMax <= MAX_INT64 / 2
    }

    constructor (rebindBase: int, rebindMax: int, rebindAttempts: int)
      ensures this.rebindBase == rebindBase && this.rebindMax == rebindMax && this.rebindAttempts == rebindAttempts
      ensures fresh(health) && health.active == map[] && fresh(probe) && !probe.View().Active()
      ensures delivered == [] && closes == 0 && fatal == [] && stages == []
    {
      this.rebindBase, this.rebindMax, this.rebindAttempts := rebindBase, rebindMax, rebindAttempts;
      health := new HealthState();
      probe := new Probe();
      delivered, closes, fatal, stages := [], 0, [], [];
      messagesFetched, transientErrors, subscriptionErrors, rebindsAttempted := 0, 0, 0, 0;
    }

    /** Nothing is fetched while the subscription counts as dead. The probe covers exactly
        the time in which the fetch blocks. */
    method FetchOnce(r: Round) returns (result: FetchResult)
      requires Rebinding !in health.active && !probe.View().Active()
      modifies probe, this`stages
      ensures result == r.fetch && !probe.View().Active()
      ensures stages == old(stages) + [ProbeState("fetch", r.fetchAt)]
    {
      probe.Begin("fetch", r.fetchAt);
      result := r.fetch;
      stages := stages + [probe.View()];
      probe.End();
    }

    /** Puts a non-empty batch on the work channel, with the probe set while the send blocks;
        false on cancellation. */
    method Dispatch(batch: seq<nat>, r: Round) returns (ok: bool)
      requires r.fetch == Fetched(batch) && !r.cancelledAtHead && !probe.View().Active()
      modifies this`delivered, this`stages, probe
      ensures ok == !r.interrupted && delivered == old(delivered) + DeliveredIn(r) && !probe.View().Active()
      ensures stages == old(stages) + if batch == [] then [] else [ProbeState("dispatch", r.now)]
    {
      if |batch| == 0 {
        return !r.interrupted;
      }
      probe.Begin("dispatch", r.now);
      if !r.interrupted {
        delivered := delivered + [batch];
      }
      stages := stages + [probe.View()];
      probe.End();
      return !r.interrupted;
    }

    /** The re-bind ladder. On success the condition is cleared and the fetch liveness
        refreshed; one fatal error is sent exactly when the budget is exhausted. The sleeps
        follow the doubling schedule and are not covered by the probe. */
    method RebindSubscription(r: Round) returns (ok: bool, delays: seq<int>)
      requires DelaysAccepted() && Rebinding !in health.active && !probe.View().Active()
      modifies this`fatal, this`rebindsAttempted, health
      ensures var v := RebindVerdict(r.rebinds, rebindAttempts, 1);
              && ok == (v == GoOn)
              && fatal == old(fatal) + (if v == Exhausted then [MaxRetriesExceeded(rebindAttempts)] else [])
      ensures ok ==> health.active == old(health.active) && health.lastFetchSuccess == r.now
      ensures forall k :: 0 <= k < |delays| ==> delays[k] == Sink.DelayAt(rebindBase, rebindMax, k)
      ensures rebindsAttempted <= old(rebindsAttempted) + (if rebindAttempts > 0 then rebindAttempts else 0)
    {
      health.Set(Rebinding, r.now);
      delays := [];
      var backoff := new Backoff(rebindBase, rebindMax);
      var attempt := 1;
      while attempt <= rebindAttempts
        invariant 1 <= attempt && (attempt > 1 ==> attempt <= rebindAttempts + 1)
        invariant RebindVerdict(r.rebinds, rebindAttempts, attempt) == RebindVerdict(r.rebinds, rebindAttempts, 1)
        invariant health.active == old(health.active)[Rebinding := r.now]
        invariant fatal == old(fatal) && rebindsAttempted == old(rebindsAttempted) + attempt - 1
        invariant fresh(backoff) && backoff.Valid() && backoff.base == rebindBase && backoff.max == rebindMax
        invariant attempt <= rebindAttempts ==> backoff.taken == attempt - 1
        invariant |delays| == backoff.taken
        invariant forall k :: 0 <= k < |delays| ==> delays[k] == Sink.DelayAt(rebindBase, rebindMax, k)
      {
        rebindsAttempted := rebindsAttempted + 1;
        var result := r.rebinds(attempt);
        if result == Rebound {
          health.RecordFetchSuccess(r.now);
          health.Clear(Rebinding);
          assert old(health.active)[Rebinding := r.now] - {Rebinding} == old(health.active);
          return true, delays;
        }
        if result.cancelled {
          return false, delays;
        }
        if attempt < rebindAttempts {
          var delay := backoff.Next();
          delays := delays + [delay];
          if result.cutWait {
            return false, delays;
          }
        }
        attempt := attempt + 1;
      }
      fatal := fatal + [MaxRetriesExceeded(rebindAttempts)];
      return false, delays;
    }

    method RecoverFetch(r: Round, backoff: Backoff) returns (ok: bool)
      requires !r.cancelledAtHead && !r.fetch.Fetched?
      requires DelaysAccepted() && Rebinding !in health.active && backoff.Valid() && !probe.View().Active()
      modifies this`fatal, this`rebindsAttempted, this`transientErrors, this`subscriptionErrors, health, backoff
      ensures ok == (VerdictOf(r, rebindAttempts) == GoOn) && backoff.Valid()
      ensures fatal == old(fatal) + FatalIn(r, rebindAttempts)
      ensures ok ==> health.active == old(health.active)
    {
      if r.cancelledAfterFetch {
        return false;
      }
      if r.fetch == SubscriptionFailed {
        subscriptionErrors := subscriptionErrors + 1;
        var delays;
        ok, delays := RebindSubscription(r);
        return;
      }
      transientErrors := transientErrors + 1;
      var delay := backoff.Next();
      return !r.interrupted;
    }

    /** One round; it starts by looking at the context. */
    method FetchRound(r: Round, backoff: Backoff) returns (ok: bool)
      requires DelaysAccepted() && Rebinding !in health.active && backoff.Valid() && !probe.View().Active()
      modifies this, health, backoff, probe
      ensures ok == (VerdictOf(r, rebindAttempts) == GoOn) && backoff.Valid() && !probe.View().Active()
      ensures delivered == old(delivered) + DeliveredIn(r) && closes == old(closes)
      ensures fatal == old(fatal) + FatalIn(r, rebindAttempts) && stages == old(stages) + StagesIn(r)
      ensures ok ==> health.active == old(health.active)
    {
      if r.cancelledAtHead {
        return false;
      }
      var result := FetchOnce(r);
      if !result.Fetched? {
        ok := RecoverFetch(r, backoff);
        return;
      }
      backoff.Reset();
      health.RecordFetchSuccess(r.now);
      messagesFetched := messagesFetched + |result.batch|;
      ok := Dispatch(result.batch, r);
    }

    /** Round i of a run, given what the rounds before it did. */
    method NextRound(rounds: seq<Round>, i: nat, backoff: Backoff) returns (goOn: bool)
      requires i < |rounds| && delivered == FetchedBy(rounds, i)
      requires DelaysAccepted() && Rebinding !in health.active && backoff.Valid() && !probe.View().Active()
      modifies this, health, backoff, probe
      ensures goOn <==> VerdictOf(rounds[i], rebindAttempts) == GoOn
      ensures goOn ==> delivered == FetchedBy(rounds, i + 1) && fatal == old(fatal) && health.active == old(health.active)
      ensures !goOn ==> DeliveredInOrder(delivered, rounds, i + 1, rebindAttempts)
                        && fatal == old(fatal) + FatalIn(rounds[i], rebindAttempts)
      ensures closes == old(closes) && backoff.Valid() && !probe.View().Active()
    {
      goOn := FetchRound(rounds[i], backoff);
      if goOn {
        RoundGoesOn(rounds, i, rebindAttempts);
      } else {
        RoundEnds(rounds, i, rebindAttempts);
      }
    }

    /** The loop over the rounds of a run. Non-empty batches reach the work channel once and in
        order; the channel is closed once, when the loop ends; at most one fatal error is
        sent, and only after the whole budget of re-binds failed in a row. The probe is left
        cleared. */
    method FetchLoop(rounds: seq<Round>, base: int, max: int) returns (n: nat, ended: bool)
      requires DelaysAccepted() && 1 <= base <= max <= MAX_INT64 / 2
      requires Rebinding !in health.active && !probe.View().Active() && delivered == []
      modifies this, health, probe
      ensures n <= |rounds|
      ensures if ended then n > 0 && VerdictOf(rounds[n - 1], rebindAttempts) != GoOn && AllGoOn(rounds, n - 1, rebindAttempts)
              else n == |rounds| && AllGoOn(rounds, n, rebindAttempts)
      ensures DeliveredInOrder(delivered, rounds, n, rebindAttempts)
      ensures closes == old(closes) + if ended then 1 else 0
      ensures fatal == old(fatal) + if ended then FatalIn(rounds[n - 1], rebindAttempts) else []
      ensures !probe.View().Active()
      ensures !ended ==> Rebinding !in health.active
    {
      var backoff := new Backoff(base, max);
      for i := 0 to |rounds|
        invariant AllGoOn(rounds, i, rebindAttempts)
        invariant fresh(backoff) && backoff.Valid() && Rebinding !in health.active && !probe.View().Active()
        invariant delivered == FetchedBy(rounds, i)
        invariant closes == old(closes) && fatal == old(fatal)
      {
        var goOn := NextRound(rounds, i, backoff);
        if !goOn {
          closes := closes + 1;
          return i + 1, true;
        }
      }
      return |rounds|, false;
    }
  }

  // --------------------------------------------------------- the error channel

  /** The goroutines that may still send, and what waits in the channel. Each of them sends at
      most once, when it ends. */
  datatype Senders = Senders(fetching: bool, working: seq<bool>, pending: nat, capacity: nat)

  datatype Ending = FetchEnds(fatal: bool) | WorkerEnds(w: nat, failed: bool) | MainReceives

  /** RunWithContext: room for every worker and the fetch loop. */
  function Launch(workers: nat): Senders {
    Senders(true, seq(workers, _ => true), 0, workers + 1)
  }

  predicate CanHappen(s: Senders, e: Ending) {
    match e
    case FetchEnds(_) => s.fetching
    case WorkerEnds(w, _) => w < |s.working| && s.working[w]
    case MainReceives => s.pending > 0
  }

  predicate Sends(e: Ending) {
    match e
    case FetchEnds(fatal) => fatal
    case WorkerEnds(_, failed) => failed
    case MainReceives => false
  }

  function After(s: Senders, e: Ending): Senders
    requires CanHappen(s, e)
  {
    var sent := if Sends(e) then 1 else 0;
    match e
    case FetchEnds(_) => s.(fetching := false, pending := s.pending + sent)
    case WorkerEnds(w, _) => s.(working := s.working[w := false], pending := s.pending + sent)
    case MainReceives => s.(pending := s.pending - 1)
  }

  function Running(working: seq<bool>): nat {
    if working == [] then 0 else Running(working[..|working| - 1]) + if working[|working| - 1] then 1 else 0
  }

  ghost predicate RoomForAll(s: Senders) {
    s.pending + Running(s.working) + (if s.fetching then 1 else 0) <= s.capacity
  }

  lemma {:induction false} OneFewer(working: seq<bool>, w: nat)
    requires w < |working| && working[w]
    ensures Running(working[w := false]) == Running(working) - 1
  {
    var n := |working| - 1;
    if w < n {
      assert working[w := false][..n] == working[..n][w := false];
      OneFewer(working[..n], w);
    } else {
      assert working[w := false][..n] == working[..n];
    }
  }

  lemma {:induction false} AllRunning(n: nat)
    ensures Running(seq(n, _ => true)) == n
  {
    if n > 0 {
      assert seq(n, _ => true)[..n - 1] == seq(n - 1, _ => true);
      AllRunning(n - 1);
    }
  }

  lemma EndingKeepsRoom(s: Senders, e: Ending)
    requires RoomForAll(s) && CanHappen(s, e)
    ensures RoomForAll(After(s, e)) && (Sends(e) ==> s.pending < s.capacity)
  {
    if e.WorkerEnds? {
      OneFewer(s.working, e.w);
    }
  }

  function RunSenders(s: Senders, events: seq<Ending>): Senders {
    if events == [] then s
    else
      var before := RunSenders(s, events[..|events| - 1]);
      if CanHappen(before, events[|events| - 1]) then After(before, events[|events| - 1]) else before
  }

  /** In every interleaving, received or not, a send on the error channel finds room. */
  lemma {:induction false} SendsNeverBlock(workers: nat, events: seq<Ending>, next: Ending)
    ensures var s := RunSenders(Launch(workers), events);
            RoomForAll(s) && (CanHappen(s, next) && Sends(next) ==> s.pending < s.capacity)
  {
    var s := RunSenders(Launch(workers), events);
    if events == [] {
      AllRunning(workers);
    } else {
      var last := events[|events| - 1];
      SendsNeverBlock(workers, events[..|events| - 1], last);
      var before := RunSenders(Launch(workers), events[..|events| - 1]);
      if CanHappen(before, last) {
        EndingKeepsRoom(before, last);
      }
    }
    if CanHappen(s, next) {
      EndingKeepsRoom(s, next);
    }
  }
}
