/** internal/sink/sink.go: the synchronous write with its retry ladder. */
module Sink {
  import opened Common
  import opened Liveness
  import opened Tables

  /** Go's nil error is None. A qdb error carries the two classifications the callers use. */
  datatype Error =
    | SinkClosed
    | NoTables
    | Cancelled
    | QdbError(retryable: bool, clusterUnavailable: bool)
    | BreakerOpen
    | MergeFailed
  {
    predicate IsClusterUnavailable() {
      QdbError? && clusterUnavailable
    }
  }

  datatype PushOutcome = Accepted | Rejected(retryable: bool, clusterUnavailable: bool) {
    function Error(): Option<Error> {
      if Accepted? then None else Some(QdbError(retryable, clusterUnavailable))
    }

    /** The loop goes on only after these. */
    predicate Retryable() {
      Rejected? && retryable
    }
  }

  /** What the surroundings do to one write, attempt by attempt: the outcome of the push, and
      whether the context is cancelled during the wait before it or found cancelled after. */
  datatype Script = Script(push: nat -> PushOutcome, cutWait: nat -> bool, cancelled: nat -> bool)

  /** Observable effects, in order. Touch is the onProgress callback. */
  datatype Action = Wait(delay: int, cut: bool) | Touch | Push(outcome: PushOutcome)

  datatype Outcome = Outcome(err: Option<Error>, trace: seq<Action>)

  const RETRY_BASE_BACKOFF: int := 3_000_000_000
  const RETRY_MAX_BACKOFF: int := 300_000_000_000

  /** One pass through the loop body: its effects, and the result if the loop ends there. */
  datatype Pass = GoOn(effects: seq<Action>, err: Option<Error>) | Return(effects: seq<Action>, err: Option<Error>)

  function Attempt(script: Script, attempts: int, attempt: nat, backoff: int): Pass {
    if attempt > 0 && script.cutWait(attempt) then Return([Wait(backoff, true)], Some(Cancelled))
    else if script.cancelled(attempt) then Return(Waited(attempt, backoff), Some(Cancelled))
    else
      var o := script.push(attempt);
      if !o.Retryable() then Return(Waited(attempt, backoff) + [Push(o)], o.Error())
      else GoOn(Waited(attempt, backoff) + [Push(o)] + Progress(attempts, attempt), o.Error())
  }

  function Waited(attempt: nat, backoff: int): seq<Action> {
    if attempt > 0 then [Wait(backoff, false), Touch] else []
  }

  function Progress(attempts: int, attempt: nat): seq<Action> {
    if attempt < attempts - 1 then [Touch] else []
  }

  function NextBackoff(attempt: nat, backoff: int, maxBackoff: int): int {
    if attempt > 0 then Min(Wrap64(backoff * 2), maxBackoff) else backoff
  }

  /** The rest of the loop from a given attempt; last is the error of the previous push. */
  function Retry(script: Script, attempts: int, maxBackoff: int, attempt: nat, backoff: int, last: Option<Error>): (o: Outcome)
    ensures last != Some(MergeFailed) ==> o.err != Some(MergeFailed)
    decreases attempts - attempt
  {
    if attempt >= attempts then Outcome(last, [])
    else
      var pass := Attempt(script, attempts, attempt, backoff);
      if pass.Return? then Outcome(pass.err, pass.effects)
      else
        var rest := Retry(script, attempts, maxBackoff, attempt + 1, NextBackoff(attempt, backoff, maxBackoff), pass.err);
        Outcome(rest.err, pass.effects + rest.trace)
  }

  // ------------------------------------------------------ what the ladder promises

  function PushOf(a: Action): seq<PushOutcome> {
    if a.Push? then [a.outcome] else []
  }

  function DelayOf(a: Action): seq<int> {
    if a.Wait? then [a.delay] else []
  }

  function Pushes(trace: seq<Action>): seq<PushOutcome> {
    if trace == [] then [] else PushOf(trace[0]) + Pushes(trace[1..])
  }

  function Delays(trace: seq<Action>): seq<int> {
    if trace == [] then [] else DelayOf(trace[0]) + Delays(trace[1..])
  }

  lemma {:induction false} PushesDistribute(a: seq<Action>, b: seq<Action>)
    ensures Pushes(a + b) == Pushes(a) + Pushes(b)
  {
    if a == [] {
      assert a + b == b;
    } else {
      assert (a + b)[1..] == a[1..] + b;
      PushesDistribute(a[1..], b);
    }
  }

  lemma {:induction false} DelaysDistribute(a: seq<Action>, b: seq<Action>)
    ensures Delays(a + b) == Delays(a) + Delays(b)
  {
    if a == [] {
      assert a + b == b;
    } else {
      assert (a + b)[1..] == a[1..] + b;
      DelaysDistribute(a[1..], b);
    }
  }

  lemma WaitedEffects(attempt: nat, backoff: int)
    ensures Pushes(Waited(attempt, backoff)) == []
    ensures Delays(Waited(attempt, backoff)) == if attempt > 0 then [backoff] else []
  {
    if attempt > 0 {
      assert Waited(attempt, backoff)[1..] == [Touch] && [Touch][1..] == [];
    }
  }

  lemma OneEffect(a: Action)
    ensures Pushes([a]) == PushOf(a) && Delays([a]) == DelayOf(a)
  {
    assert [a][1..] == [];
  }

  lemma AttemptPushes(script: Script, attempts: int, attempt: nat, backoff: int)
    ensures var pass, o := Attempt(script, attempts, attempt, backoff), script.push(attempt);
            if pass.err == Some(Cancelled) then pass.Return? && Pushes(pass.effects) == []
            else pass.err == o.Error() && Pushes(pass.effects) == [o] && (pass.GoOn? <==> o.Retryable())
  {
    var waited, push, progress := Waited(attempt, backoff), [Push(script.push(attempt))], Progress(attempts, attempt);
    WaitedEffects(attempt, backoff);
    OneEffect(Wait(backoff, true));
    OneEffect(Touch);
    OneEffect(push[0]);
    PushesDistribute(waited, push);
    PushesDistribute(waited + push, progress);
  }

  lemma AttemptDelays(script: Script, attempts: int, attempt: nat, backoff: int)
    ensures Delays(Attempt(script, attempts, attempt, backoff).effects) == if attempt > 0 then [backoff] else []
  {
    var waited, push, progress := Waited(attempt, backoff), [Push(script.push(attempt))], Progress(attempts, attempt);
    WaitedEffects(attempt, backoff);
    OneEffect(Wait(backoff, true));
    OneEffect(Touch);
    OneEffect(push[0]);
    DelaysDistribute(waited, push);
    DelaysDistribute(waited + push, progress);
  }

  /** All pushes but the last failed retryably; unless the context was cancelled, the last
      one's outcome is the result. */
  predicate WellEnded(err: Option<Error>, pushes: seq<PushOutcome>) {
    && (forall i :: 0 <= i < |pushes| - 1 ==> pushes[i].Retryable())
    && (if err == Some(Cancelled) then pushes == [] || pushes[|pushes| - 1].Retryable()
        else pushes != [] && pushes[|pushes| - 1].Error() == err)
  }

  /** base doubled k times. */
  function Doubled(base: int, k: nat): int {
    if k == 0 then base else 2 * Doubled(base, k - 1)
  }

  /** The delay before the (k+1)-th retry: the base doubled k times, capped after the first. */
  function DelayAt(base: int, maxBackoff: int, k: nat): int {
    if k == 0 then base else Min(Doubled(base, k), maxBackoff)
  }

  lemma {:induction false} DoubledIsPositive(base: int, k: nat)
    requires 0 <= base
    ensures base <= Doubled(base, k)
  {
    if k > 0 {
      DoubledIsPositive(base, k - 1);
    }
  }

  lemma BackoffDoubles(base: int, maxBackoff: int, attempt: nat)
    requires 0 <= base < TWO63 / 2 && 0 <= maxBackoff < TWO63 / 2
    ensures NextBackoff(0, base, maxBackoff) == DelayAt(base, maxBackoff, 0)
    ensures NextBackoff(attempt + 1, DelayAt(base, maxBackoff, attempt), maxBackoff) == DelayAt(base, maxBackoff, attempt + 1)
  {
    DoubledIsPositive(base, attempt);
  }

  lemma {:induction false} LadderPushes(script: Script, attempts: int, maxBackoff: int, attempt: nat, backoff: int, last: Option<Error>)
    requires attempt < attempts
    ensures var o := Retry(script, attempts, maxBackoff, attempt, backoff, last);
            |Pushes(o.trace)| <= attempts - attempt && WellEnded(o.err, Pushes(o.trace))
    decreases attempts - attempt
  {
    var pass := Attempt(script, attempts, attempt, backoff);
    AttemptPushes(script, attempts, attempt, backoff);
    if pass.GoOn? {
      var next := NextBackoff(attempt, backoff, maxBackoff);
      var rest := Retry(script, attempts, maxBackoff, attempt + 1, next, pass.err);
      PushesDistribute(pass.effects, rest.trace);
      if attempt + 1 < attempts {
        LadderPushes(script, attempts, maxBackoff, attempt + 1, next, pass.err);
      }
    }
  }

  /** The number of waits before an attempt's own. */
  function WaitsBefore(attempt: nat): nat {
    if attempt == 0 then 0 else attempt - 1
  }

  /** The delays from rung k on follow the schedule. */
  predicate OnSchedule(delays: seq<int>, base: int, maxBackoff: int, k: nat) {
    forall i :: 0 <= i < |delays| ==> delays[i] == DelayAt(base, maxBackoff, k + i)
  }

  lemma ScheduleExtends(delays: seq<int>, base: int, maxBackoff: int, k: nat)
    requires OnSchedule(delays, base, maxBackoff, k + 1)
    ensures OnSchedule([DelayAt(base, maxBackoff, k)] + delays, base, maxBackoff, k)
  {
    var all := [DelayAt(base, maxBackoff, k)] + delays;
    forall i | 0 <= i < |all|
      ensures all[i] == DelayAt(base, maxBackoff, k + i)
    {
      if i > 0 {
        assert all[i] == delays[i - 1] == DelayAt(base, maxBackoff, k + 1 + (i - 1));
      }
    }
  }

  lemma {:induction false} LadderDelays(script: Script, attempts: int, base: int, maxBackoff: int, attempt: nat, last: Option<Error>)
    requires 0 <= base < TWO63 / 2 && 0 <= maxBackoff < TWO63 / 2
    ensures var k := WaitsBefore(attempt);
            OnSchedule(Delays(Retry(script, attempts, maxBackoff, attempt, DelayAt(base, maxBackoff, k), last).trace), base, maxBackoff, k)
    decreases attempts - attempt
  {
    if attempt < attempts {
      var k := WaitsBefore(attempt);
      var backoff := DelayAt(base, maxBackoff, k);
      var pass := Attempt(script, attempts, attempt, backoff);
      AttemptDelays(script, attempts, attempt, backoff);
      if pass.GoOn? {
        BackoffDoubles(base, maxBackoff, k);
        var next := DelayAt(base, maxBackoff, WaitsBefore(attempt + 1));
        assert NextBackoff(attempt, backoff, maxBackoff) == next;
        var rest := Retry(script, attempts, maxBackoff, attempt + 1, next, pass.err);
        LadderDelays(script, attempts, base, maxBackoff, attempt + 1, pass.err);
        DelaysDistribute(pass.effects, rest.trace);
        if attempt > 0 {
          ScheduleExtends(Delays(rest.trace), base, maxBackoff, k);
        } else {
          assert [] + Delays(rest.trace) == Delays(rest.trace);
        }
      }
    }
  }

  /** The ladder of retryWithBackoff: at most one push per attempt, the result is the last
      push's, and the k-th delay is base * 2^k, capped after the first. Durations stay below
      2^62 ns so that doubling does not wrap. */
  lemma LadderResult(script: Script, attempts: int, base: int, maxBackoff: int)
    requires 0 <= base < TWO63 / 2 && 0 <= maxBackoff < TWO63 / 2
    ensures var o := Retry(script, attempts, maxBackoff, 0, base, None);
            && |Pushes(o.trace)| <= (if attempts > 0 then attempts else 0)
            && (attempts > 0 ==> WellEnded(o.err, Pushes(o.trace)))
            && OnSchedule(Delays(o.trace), base, maxBackoff, 0)
  {
    if attempts > 0 {
      LadderPushes(script, attempts, maxBackoff, 0, base, None);
    }
    LadderDelays(script, attempts, base, maxBackoff, 0, None);
  }

  /** Success without data: nil is returned for no attempts at all, although nothing was
      pushed. With at least one attempt, nil means that the last push was accepted. */
  lemma NilMeansPushed(script: Script, attempts: int, base: int, maxBackoff: int)
    requires 0 <= base < TWO63 / 2 && 0 <= maxBackoff < TWO63 / 2
    ensures var o := Retry(script, attempts, maxBackoff, 0, base, None);
            && ((o.err.None? ==> Accepted in Pushes(o.trace)) <==> attempts >= 1)
            && (Accepted in Pushes(o.trace) ==> o.err.None?)
  {
    LadderResult(script, attempts, base, maxBackoff);
  }

  // ------------------------------------------------------ a retrying worker is not stuck

  /** Every effect other than Touch has a Touch on each side of it, the ends excepted. */
  predicate TouchSeparated(trace: seq<Action>) {
    forall i :: 0 <= i < |trace| - 1 ==> trace[i].Touch? || trace[i + 1].Touch?
  }

  lemma {:induction false} RetryIsTouchSeparated(script: Script, attempts: int, maxBackoff: int, attempt: nat, backoff: int, last: Option<Error>)
    ensures TouchSeparated(Retry(script, attempts, maxBackoff, attempt, backoff, last).trace)
    decreases attempts - attempt
  {
    if attempt < attempts {
      var pass := Attempt(script, attempts, attempt, backoff);
      if pass.GoOn? {
        RetryIsTouchSeparated(script, attempts, maxBackoff, attempt + 1, NextBackoff(attempt, backoff, maxBackoff), pass.err);
      }
    }
  }

  /** The clock after each of the first i effects of a batch that began at start. */
  function Clock(start: int, durations: seq<int>, i: nat): int
    requires i <= |durations|
  {
    if i == 0 then start else Clock(start, durations, i - 1) + durations[i - 1]
  }

  /** The worker's probe once the first i effects are done: Begin, then the touches. */
  function ProbeAfter(start: int, pre: int, trace: seq<Action>, durations: seq<int>, i: nat): ProbeState
    requires |durations| == |trace| && i <= |trace|
  {
    if i == 0 then ProbeState("process", start)
    else
      var p := ProbeAfter(start, pre, trace, durations, i - 1);
      if trace[i - 1].Touch? then p.Touched(Clock(start + pre, durations, i)) else p
  }

  /** The batch's own work before and after the write, and the effects of the write, each
      short: one backoff step, or one push with the untouched work next to it, lasts at most
      the threshold. Callbacks take no time. */
  ghost predicate EachStepShort(trace: seq<Action>, durations: seq<int>, pre: int, post: int, threshold: int) {
    && |durations| == |trace| && 0 <= pre && 0 <= post
    && (trace == [] ==> pre + post <= threshold)
    && (trace != [] && trace[|trace| - 1].Touch? ==> post <= threshold)
    && forall i :: 0 <= i < |trace| ==>
         if trace[i].Touch? then durations[i] == 0
         else && 0 <= durations[i]
              && (if i == 0 then pre else 0) + durations[i] + (if i == |trace| - 1 then post else 0) <= threshold
  }

  lemma {:induction false} ProbeAge(start: int, trace: seq<Action>, durations: seq<int>, pre: int, post: int, threshold: int, i: nat)
    requires TouchSeparated(trace) && EachStepShort(trace, durations, pre, post, threshold) && i <= |trace|
    requires trace != [] ==> !trace[0].Touch?
    ensures var p, now := ProbeAfter(start, pre, trace, durations, i), Clock(start + pre, durations, i);
            && p.Active()
            && (i == 0 ==> now - p.since == pre)
            && (i > 0 && trace[i - 1].Touch? ==> now == p.since)
            && (i > 0 && !trace[i - 1].Touch? ==> now - p.since == (if i == 1 then pre else 0) + durations[i - 1])
  {
    if i > 0 {
      ProbeAge(start, trace, durations, pre, post, threshold, i - 1);
    }
  }

  /** However many attempts a write makes, no evaluation between Begin and End finds the
      worker stuck: not before the write, not during any effect of it, not afterwards. */
  lemma RetryingIsNotStuck(script: Script, attempts: int, base: int, maxBackoff: int,
                           start: int, durations: seq<int>, pre: int, post: int, threshold: int, i: nat, now: int)
    requires var trace := Retry(script, attempts, maxBackoff, 0, base, None).trace;
             EachStepShort(trace, durations, pre, post, threshold) && i <= |trace|
    requires start <= now
    requires var last := |durations|;
             if i < last then now <= Clock(start + pre, durations, i + 1) else now <= Clock(start + pre, durations, last) + post
    ensures var trace := Retry(script, attempts, maxBackoff, 0, base, None).trace;
            !ProbeAfter(start, pre, trace, durations, i).Stuck(now, threshold)
  {
    var trace := Retry(script, attempts, maxBackoff, 0, base, None).trace;
    RetryIsTouchSeparated(script, attempts, maxBackoff, 0, base, None);
    ProbeAge(start, trace, durations, pre, post, threshold, i);
  }

  // ------------------------------------------------------ the imperative write

  /** The rows of some tables, each as a table of its own. */
  ghost function RowsOf(tables: seq<Table>): multiset<Table>
    requires AllShaped(tables)
  {
    multiset(AllRows(tables))
  }

  /** Write as a function: refused when closed or handed nothing, else the ladder. */
  function WriteOutcome(closed: bool, attempts: int, script: Script, tables: seq<Table>): Outcome {
    if closed then Outcome(Some(SinkClosed), [])
    else if tables == [] then Outcome(Some(NoTables), [])
    else Retry(script, attempts, RETRY_MAX_BACKOFF, 0, RETRY_BASE_BACKOFF, None)
  }

  lemma Regroup(a: seq<Action>, b: seq<Action>, c: seq<Action>)
    ensures a + (b + c) == a + b + c
  {}

  class Sink {
    const attempts: int
    var closed: bool
    /** The rows of every push that returned nil. */
    ghost var stored: multiset<Table>

    constructor (attempts: int)
      ensures this.attempts == attempts && !closed && stored == multiset{}
    {
      this.attempts, closed, stored := attempts, false, multiset{};
    }

    /** A push takes all rows of all tables, or fails and takes none that the sink knows of. */
    method PushTables(tables: seq<Table>, outcome: PushOutcome) returns (err: Option<Error>)
      requires AllShaped(tables)
      modifies this`stored
      ensures err == outcome.Error()
      ensures stored == old(stored) + if err.None? then RowsOf(tables) else multiset{}
    {
      err := outcome.Error();
      if err.None? {
        stored := stored + RowsOf(tables);
      }
    }

    method RetryWithBackoff(script: Script, base: int, maxBackoff: int, tables: seq<Table>)
      returns (err: Option<Error>, trace: seq<Action>)
      requires AllShaped(tables)
      modifies this`stored
      ensures Outcome(err, trace) == Retry(script, attempts, maxBackoff, 0, base, None)
      ensures stored == old(stored) + if attempts > 0 && err.None? then RowsOf(tables) else multiset{}
    {
      trace, err := [], None;
      var backoff, attempt := base, 0;
      while attempt < attempts
        invariant 0 <= attempt && (attempts > 0 ==> attempt <= attempts) && (attempts <= 0 ==> attempt == 0)
        invariant attempt > 0 ==> err.Some?
        invariant stored == old(stored)
        invariant var rest := Retry(script, attempts, maxBackoff, attempt, backoff, err);
                  Retry(script, attempts, maxBackoff, 0, base, None) == Outcome(rest.err, trace + rest.trace)
      {
        var effects: seq<Action> := [];
        if attempt > 0 {
          if script.cutWait(attempt) {
            return Some(Cancelled), trace + [Wait(backoff, true)];
          }
          effects := [Wait(backoff, false), Touch];
          backoff := Min(Wrap64(backoff * 2), maxBackoff);
        }
        if script.cancelled(attempt) {
          return Some(Cancelled), trace + effects;
        }
        err := PushTables(tables, script.push(attempt));
        effects := effects + [Push(script.push(attempt))];
        if err.None? || !script.push(attempt).Retryable() {
          return err, trace + effects;
        }
        effects := effects + Progress(attempts, attempt);
        Regroup(trace, effects, Retry(script, attempts, maxBackoff, attempt + 1, backoff, err).trace);
        trace := trace + effects;
        attempt := attempt + 1;
      }
    }

    method Write(script: Script, tables: seq<Table>) returns (err: Option<Error>, trace: seq<Action>)
      requires AllShaped(tables)
      modifies this`stored
      ensures Outcome(err, trace) == WriteOutcome(closed, attempts, script, tables)
      ensures stored == old(stored) + if err.None? && attempts > 0 then RowsOf(tables) else multiset{}
    {
      if closed {
        return Some(SinkClosed), [];
      }
      if |tables| == 0 {
        return Some(NoTables), [];
      }
      err, trace := RetryWithBackoff(script, RETRY_BASE_BACKOFF, RETRY_MAX_BACKOFF, tables);
    }
  }
}
