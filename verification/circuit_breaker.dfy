/** connector/resilience/circuit_breaker.go: the breaker as a class whose methods run
    under its mutex, and the value-level step functions those methods refine. */
module Resilience {
  import opened Common

  datatype State = Closed | Open | HalfOpen

  /** maxAllowed == 0 means "no ceiling"; durations are nanoseconds. */
  datatype Config = Config(failureThreshold: int, timeout: int, jitterMax: int, baseAllowed: int, maxAllowed: int) {
    /** What connector/options.go enforces before a breaker is built; the timeout is kept
        under 146 years so that adding jitter stays inside int64. */
    predicate Accepted() {
      && failureThreshold >= 1
      && 0 < timeout <= MAX_INT64 / 2
      && 0 <= jitterMax <= timeout / 2
      && 1 <= baseAllowed <= MAX_INT64
      && (maxAllowed == 0 || baseAllowed <= maxAllowed <= MAX_INT64)
    }

    /** Largest level the doubling ladder can hold. */
    function Cap(): int {
      if maxAllowed > 0 then maxAllowed else MAX_INT64
    }

    /** Width of the random window added to the timeout: jitterMax capped at a tenth of it. */
    function JitterRange(): int {
      if jitterMax > timeout / 10 then timeout / 10 else jitterMax
    }

    /** A value Int63n may return; nothing satisfies it when the range is empty, where the program panics. */
    predicate DrawOk(draw: int) {
      jitterMax > 0 ==> 0 <= draw < JitterRange()
    }

    function EffectiveTimeout(draw: int): int {
      if jitterMax <= 0 then timeout else timeout + draw - JitterRange() / 2
    }
  }

  /** The zero time.Time in Unix nanoseconds. */
  const ZERO_TIME: int := -62_135_596_800_000_000_000

  /** time.Since saturates at the int64 range. */
  function Since(now: int, t: int): int {
    if now - t > MAX_INT64 then MAX_INT64 else if now - t < -TWO63 then -TWO63 else now - t
  }

  /** The mutable fields of the breaker as one value. */
  datatype Breaker = Breaker(
    state: State,
    consecutiveFailures: int,
    consecutiveSuccesses: int,
    lastFailureTime: int,
    allowedRequests: int,
    activeRequests: int)
  {
    function ResetHalfOpen(c: Config): Breaker {
      this.(allowedRequests := c.baseAllowed, activeRequests := 0, consecutiveSuccesses := 0)
    }

    function TransitionTo(c: Config, next: State): Breaker {
      var moved := this.(state := next);
      if next == HalfOpen then moved.ResetHalfOpen(c) else moved
    }

    function ProgressToNextLevel(c: Config, level: int): Breaker {
      var next := Wrap64(level * 2);
      if next < level || (c.maxAllowed > 0 && next > c.maxAllowed) then
        if c.maxAllowed == 0 then this.(allowedRequests := 0, consecutiveSuccesses := 0)
        else TransitionTo(c, Closed)
      else
        this.(allowedRequests := next, consecutiveSuccesses := 0)
    }

    function UpdateHalfOpen(c: Config): Breaker {
      if consecutiveFailures >= 1 then TransitionTo(c, Open)
      else if allowedRequests == 0 then TransitionTo(c, Closed)
      else if consecutiveSuccesses >= allowedRequests then ProgressToNextLevel(c, allowedRequests)
      else this
    }

    function Update(c: Config, now: int, draw: int): Breaker {
      match state
      case Closed => if consecutiveFailures >= c.failureThreshold then TransitionTo(c, Open) else this
      case Open =>
        if Since(now, lastFailureTime) > c.EffectiveTimeout(draw) then TransitionTo(c, HalfOpen) else this
      case HalfOpen => UpdateHalfOpen(c)
    }

    predicate HasSlot() {
      allowedRequests == 0 || activeRequests < allowedRequests
    }

    function ClaimSlot(): Breaker {
      if allowedRequests != 0 && activeRequests < allowedRequests
      then this.(activeRequests := activeRequests + 1)
      else this
    }

    function Begin(c: Config, now: int, draw: int): (Breaker, bool) {
      var b := Update(c, now, draw);
      match b.state
      case Open => (b, false)
      case HalfOpen => (b.ClaimSlot(), b.HasSlot())
      case Closed => (b, true)
    }

    function Record(failed: bool, now: int): Breaker {
      var b := if state == HalfOpen then this.(activeRequests := activeRequests - 1) else this;
      if failed
      then b.(consecutiveFailures := consecutiveFailures + 1, consecutiveSuccesses := 0, lastFailureTime := now)
      else b.(consecutiveSuccesses := consecutiveSuccesses + 1, consecutiveFailures := 0)
    }

    /** failed: the error says that the cluster was unavailable; every other outcome is a success. */
    function Finish(c: Config, failed: bool, now: int, draw: int): Breaker {
      Record(failed, now).Update(c, now, draw)
    }

    function Reset(c: Config): Breaker {
      this.(state := Closed, consecutiveFailures := 0, lastFailureTime := ZERO_TIME).ResetHalfOpen(c)
    }
  }

  function Initial(c: Config): Breaker {
    Breaker(Closed, 0, 0, ZERO_TIME, c.baseAllowed, 0)
  }

  /** The level test compares a wrapped product, yet it is exact: the ladder stops
      precisely when the doubled level leaves the configured or the int64 range. */
  lemma WrapTestIsExact(c: Config, level: int)
    requires c.Accepted() && 1 <= level <= c.Cap()
    ensures (Wrap64(level * 2) < level || (c.maxAllowed > 0 && Wrap64(level * 2) > c.maxAllowed)) <==> level * 2 > c.Cap()
  {
    if level * 2 > MAX_INT64 {
      WrapIsUnique(level * 2, level * 2 - TWO64, 1);
    }
  }

  /** Recovery waits stay within a twentieth of the configured timeout, and a draw
      exists (the program does not panic) unless jitter is on and the timeout is under 10 ns. */
  lemma EffectiveTimeoutBounds(c: Config, draw: int)
    requires c.Accepted() && c.DrawOk(draw)
    ensures c.timeout - c.timeout / 20 <= c.EffectiveTimeout(draw) <= c.timeout + c.timeout / 20
  {}

  lemma DrawExists(c: Config)
    requires c.Accepted()
    ensures (exists d :: c.DrawOk(d)) <==> (c.jitterMax == 0 || c.timeout >= 10)
  {
    if c.jitterMax == 0 || c.timeout >= 10 {
      assert c.DrawOk(0);
    }
  }

  class CircuitBreaker {
    const config: Config
    var state: State
    var consecutiveFailures: int
    var consecutiveSuccesses: int
    var lastFailureTime: int
    var allowedRequests: int
    var activeRequests: int

    function View(): Breaker
      reads this
    {
      Breaker(state, consecutiveFailures, consecutiveSuccesses, lastFailureTime, allowedRequests, activeRequests)
    }

    constructor (config: Config)
      ensures this.config == config && View() == Initial(config)
    {
      this.config := config;
      state, consecutiveFailures, consecutiveSuccesses, lastFailureTime := Closed, 0, 0, ZERO_TIME;
      allowedRequests, activeRequests := config.baseAllowed, 0;
    }

    method ResetHalfOpenStateLocked()
      modifies this
      ensures View() == old(View()).ResetHalfOpen(config)
    {
      allowedRequests := config.baseAllowed;
      activeRequests := 0;
      consecutiveSuccesses := 0;
    }

    method TransitionToLocked(next: State)
      modifies this
      ensures View() == old(View()).TransitionTo(config, next)
    {
      state := next;
      if next == HalfOpen {
        ResetHalfOpenStateLocked();
      }
    }

    method ProgressToNextLevelLocked(level: int)
      modifies this
      ensures View() == old(View()).ProgressToNextLevel(config, level)
    {
      var next := Wrap64(level * 2);
      if next < level || (config.maxAllowed > 0 && next > config.maxAllowed) {
        if config.maxAllowed == 0 {
          allowedRequests := 0;
          consecutiveSuccesses := 0;
        } else {
          TransitionToLocked(Closed);
        }
      } else {
        allowedRequests := next;
        consecutiveSuccesses := 0;
      }
    }

    method UpdateHalfOpenStateLocked()
      modifies this
      ensures View() == old(View()).UpdateHalfOpen(config)
    {
      if consecutiveFailures >= 1 {
        TransitionToLocked(Open);
        return;
      }
      var level := allowedRequests;
      if level == 0 {
        TransitionToLocked(Closed);
        return;
      }
      if consecutiveSuccesses >= level {
        ProgressToNextLevelLocked(level);
      }
    }

    method UpdateStateLocked(now: int, draw: int)
      requires state == Open ==> config.DrawOk(draw)
      modifies this
      ensures View() == old(View()).Update(config, now, draw)
    {
      match state {
        case Closed =>
          if consecutiveFailures >= config.failureThreshold {
            TransitionToLocked(Open);
          }
        case Open =>
          if Since(now, lastFailureTime) > config.EffectiveTimeout(draw) {
            TransitionToLocked(HalfOpen);
          }
        case HalfOpen =>
          UpdateHalfOpenStateLocked();
      }
    }

    /** The compare-and-swap of the original cannot fail: every writer holds the mutex. */
    method CanProceedHalfOpenLocked() returns (ok: bool)
      modifies this
      ensures View() == old(View()).ClaimSlot() && ok == old(View()).HasSlot()
    {
      if allowedRequests == 0 {
        return true;
      }
      if activeRequests >= allowedRequests {
        return false;
      }
      activeRequests := activeRequests + 1;
      return true;
    }

    method CanProceed(now: int, draw: int) returns (ok: bool)
      requires state == Open ==> config.DrawOk(draw)
      modifies this
      ensures (View(), ok) == old(View()).Begin(config, now, draw)
    {
      UpdateStateLocked(now, draw);
      match state {
        case Open => ok := false;
        case HalfOpen => ok := CanProceedHalfOpenLocked();
        case Closed => ok := true;
      }
    }

    method RecordResult(clusterUnavailable: bool, now: int, draw: int)
      requires state == Open ==> config.DrawOk(draw)
      modifies this
      ensures View() == old(View()).Finish(config, clusterUnavailable, now, draw)
    {
      if state == HalfOpen {
        activeRequests := activeRequests - 1;
      }
      if clusterUnavailable {
        consecutiveFailures := consecutiveFailures + 1;
        consecutiveSuccesses := 0;
        lastFailureTime := now;
      } else {
        consecutiveSuccesses := consecutiveSuccesses + 1;
        consecutiveFailures := 0;
      }
      UpdateStateLocked(now, draw);
    }

    method Reset()
      modifies this
      ensures View() == old(View()).Reset(config)
    {
      state := Closed;
      consecutiveFailures := 0;
      consecutiveSuccesses := 0;
      lastFailureTime := ZERO_TIME;
      ResetHalfOpenStateLocked();
    }
  }
}
