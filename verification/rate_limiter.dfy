/** tools/generator/internal/generator/continuous/ratelimit.go: a token bucket. Instants are
    nanoseconds, tokens and rates are reals. */
module RateLimiter {

  const SECOND: real := 1_000_000_000.0

  /** The tokens that flow in during some nanoseconds. */
  function Earned(rate: real, ns: int): real {
    rate * (ns as real / SECOND)
  }

  lemma EarnedAdds(rate: real, a: int, b: int)
    ensures Earned(rate, a + b) == Earned(rate, a) + Earned(rate, b)
  {
    assert (a + b) as real / SECOND == a as real / SECOND + b as real / SECOND;
  }

  lemma EarnedMonotone(rate: real, a: int, b: int)
    requires rate > 0.0 && a <= b
    ensures Earned(rate, a) <= Earned(rate, b)
  {
    var d := b as real / SECOND - a as real / SECOND;
    assert d >= 0.0 && rate * d >= 0.0;
    assert Earned(rate, b) - Earned(rate, a) == rate * d;
  }

  datatype Bucket = Bucket(rate: real, capacity: real, tokens: real, lastTime: int) {
    function Refilled(now: int): Bucket {
      var t := tokens + Earned(rate, now - lastTime);
      this.(tokens := if t > capacity then capacity else t, lastTime := now)
    }

    /** The exact time in nanoseconds until a whole token is there. */
    function Deficit(): real
      requires rate > 0.0
    {
      (1.0 - tokens) / rate * SECOND
    }

    /** The duration that is slept: the deficit, cut to whole nanoseconds. */
    function SleepTime(): int
      requires rate > 0.0
    {
      Deficit().Floor
    }

    /** A wait that looks at the clock at start and, if it sleeps, again at wake. */
    function Wait(start: int, wake: int): Bucket {
      var b := Refilled(start);
      if b.tokens < 1.0
      then b.(tokens := b.tokens + Earned(rate, wake - start) - 1.0, lastTime := wake)
      else b.(tokens := b.tokens - 1.0)
    }
  }

  /** The two clock readings of one call. */
  datatype Call = Call(start: int, wake: int)

  /** The clock does not run backwards and a sleep lasts at least as long as asked. */
  predicate Possible(b: Bucket, c: Call)
    requires b.rate > 0.0
  {
    var refilled := b.Refilled(c.start);
    b.lastTime <= c.start <= c.wake && (refilled.tokens < 1.0 ==> c.wake - c.start >= refilled.SleepTime())
  }

  /** A sleep not shorter than the exact deficit. */
  predicate Sufficient(b: Bucket, c: Call)
    requires b.rate > 0.0
  {
    var refilled := b.Refilled(c.start);
    refilled.tokens < 1.0 ==> (c.wake - c.start) as real >= refilled.Deficit()
  }

  lemma DeficitEarns(b: Bucket, ns: int)
    requires b.rate > 0.0
    ensures ns as real >= b.Deficit() <==> b.tokens + Earned(b.rate, ns) >= 1.0
  {
    var x, y := (1.0 - b.tokens) / b.rate, ns as real / SECOND;
    assert b.Deficit() == x * SECOND && ns as real == y * SECOND;
    assert b.rate * x == 1.0 - b.tokens;
    assert b.rate * (y - x) == Earned(b.rate, ns) - (1.0 - b.tokens);
    if y >= x {
      assert b.rate * (y - x) >= 0.0;
    } else {
      assert b.rate * (x - y) > 0.0;
    }
  }

  /** Tokens stay non-negative exactly when the sleep covers the deficit. */
  lemma NonNegativeIffSufficient(b: Bucket, c: Call)
    requires b.rate > 0.0
    ensures b.Wait(c.start, c.wake).tokens >= 0.0 <==> Sufficient(b, c)
  {
    DeficitEarns(b.Refilled(c.start), c.wake - c.start);
  }

  /** What the clock reading at the start of a call decides: whatever the sleep, the tokens stay
      non-negative if and only if a whole token is there or the deficit is a whole number of
      nanoseconds. Otherwise the shortest sleep that was asked for is too short. */
  lemma NeverNegativeExactly(b: Bucket, start: int)
    requires b.rate > 0.0 && b.lastTime <= start
    ensures var refilled := b.Refilled(start);
            (forall wake :: Possible(b, Call(start, wake)) ==> b.Wait(start, wake).tokens >= 0.0)
            <==> refilled.tokens >= 1.0 || refilled.Deficit() == refilled.SleepTime() as real
  {
    var refilled := b.Refilled(start);
    forall wake
      ensures b.Wait(start, wake).tokens >= 0.0 <==> Sufficient(b, Call(start, wake))
    {
      NonNegativeIffSufficient(b, Call(start, wake));
    }
    if refilled.tokens < 1.0 {
      DeficitPositive(refilled);
      var shortest := Call(start, start + refilled.SleepTime());
      assert Possible(b, shortest);
      assert Sufficient(b, shortest) <==> refilled.SleepTime() as real >= refilled.Deficit();
    }
  }

  lemma DeficitPositive(b: Bucket)
    requires b.rate > 0.0 && b.tokens < 1.0
    ensures b.Deficit() > 0.0 && b.SleepTime() >= 0
  {
    var x := (1.0 - b.tokens) / b.rate;
    assert b.rate * x == 1.0 - b.tokens;
    ScaledSign(b.rate, x);
  }

  lemma ScaledSign(rate: real, x: real)
    requires rate > 0.0
    ensures x <= 0.0 ==> rate * x <= 0.0
  {}

  /** Whatever the sleep, the tokens stay within the capacity if and only if the call does not
      sleep: the inflow of an over-long sleep is only cut by the next call. */
  lemma NeverAboveCapacityExactly(b: Bucket, start: int)
    requires b.rate > 0.0 && b.lastTime <= start
    ensures (forall wake :: Possible(b, Call(start, wake)) ==> b.Wait(start, wake).tokens <= b.capacity)
            <==> b.Refilled(start).tokens >= 1.0
  {
    var refilled := b.Refilled(start);
    if refilled.tokens < 1.0 {
      var ns := LongSleep(b.rate, b.capacity + 1.0 - refilled.tokens);
      DeficitPositive(refilled);
      var slept := if ns > refilled.SleepTime() then ns else refilled.SleepTime();
      EarnedMonotone(b.rate, ns, slept);
      assert Possible(b, Call(start, start + slept));
      assert b.Wait(start, start + slept).tokens == refilled.tokens + Earned(b.rate, slept) - 1.0;
    }
  }

  /** Some sleep lets more than any given number of tokens flow in. */
  lemma LongSleep(rate: real, tokens: real) returns (ns: int)
    requires rate > 0.0
    ensures ns >= 0 && Earned(rate, ns) > tokens
  {
    var x := tokens / rate * SECOND;
    ns := if x < 0.0 then 1 else x.Floor + 1;
    var y := ns as real / SECOND;
    assert y > tokens / rate by {
      assert ns as real > x;
    }
    assert rate * (tokens / rate) == tokens;
    assert rate * (y - tokens / rate) > 0.0;
  }

  /** One token a second, an empty bucket for one, and a sleep of three seconds instead of one. */
  lemma OversleepExceedsCapacity()
    ensures var b, c := Bucket(1.0, 1.0, 0.0, 0), Call(0, 3_000_000_000);
            Possible(b, c) && b.Wait(c.start, c.wake).tokens > b.capacity
  {
    var b := Bucket(1.0, 1.0, 0.0, 0);
    assert Earned(1.0, 0) == 0.0 && Earned(1.0, 3_000_000_000) == 3.0;
    assert b.Refilled(0) == b && b.Deficit() == SECOND && b.SleepTime() == 1_000_000_000;
  }

  /** A sleep of exactly the requested whole nanoseconds falls short of the deficit by less
      than one, so the tokens stay above minus the inflow of one nanosecond. */
  lemma BarelyNegative(b: Bucket, c: Call)
    requires b.rate > 0.0 && Possible(b, c)
    ensures b.Wait(c.start, c.wake).tokens > -Earned(b.rate, 1)
  {
    var refilled := b.Refilled(c.start);
    if refilled.tokens < 1.0 {
      var slept := c.wake - c.start;
      DeficitEarns(refilled, slept + 1);
      EarnedAdds(b.rate, slept, 1);
      assert (slept + 1) as real > refilled.Deficit();
      StrictlyEarns(refilled, slept + 1);
    } else {
      EarnedPositive(b.rate);
    }
  }

  lemma EarnedPositive(rate: real)
    requires rate > 0.0
    ensures Earned(rate, 1) > 0.0
  {}

  lemma StrictlyEarns(b: Bucket, ns: int)
    requires b.rate > 0.0 && ns as real > b.Deficit()
    ensures b.tokens + Earned(b.rate, ns) > 1.0
  {
    var x, y := (1.0 - b.tokens) / b.rate, ns as real / SECOND;
    assert b.rate * x == 1.0 - b.tokens && y > x;
    assert b.rate * (y - x) > 0.0;
    assert b.rate * (y - x) == Earned(b.rate, ns) - (1.0 - b.tokens);
  }

  /** The truncation does go below zero: at three tokens a second, an empty bucket and a sleep
      of exactly the 333333333 ns that are asked for. */
  lemma TruncationGoesNegative()
    ensures var b, c := Bucket(3.0, 3.0, 0.0, 0), Call(0, 333_333_333);
            Possible(b, c) && b.Wait(c.start, c.wake).tokens < 0.0
  {
    var b := Bucket(3.0, 3.0, 0.0, 0);
    assert Earned(3.0, 0) == 0.0 && b.Refilled(0) == b;
    assert b.Deficit() == 1.0 / 3.0 * SECOND;
    assert b.SleepTime() == 333_333_333;
  }

  // --------------------------------------------------------- runs

  function After(b: Bucket, calls: seq<Call>): Bucket {
    if calls == [] then b
    else
      var c := calls[|calls| - 1];
      After(b, calls[..|calls| - 1]).Wait(c.start, c.wake)
  }

  /** The calls of any number of goroutines, one after the other under the mutex. */
  ghost predicate Run(b: Bucket, calls: seq<Call>)
    requires b.rate > 0.0
  {
    calls == [] ||
    (var before, c := After(b, calls[..|calls| - 1]), calls[|calls| - 1];
     Run(b, calls[..|calls| - 1]) && before.rate == b.rate && Possible(before, c))
  }

  ghost predicate AllSufficient(b: Bucket, calls: seq<Call>)
    requires b.rate > 0.0
  {
    calls == [] ||
    (var before, c := After(b, calls[..|calls| - 1]), calls[|calls| - 1];
     AllSufficient(b, calls[..|calls| - 1]) && before.rate == b.rate && Sufficient(before, c))
  }

  /** When the n-th call returns: the last clock reading the bucket took. */
  lemma {:induction false} TokensAreBounded(b: Bucket, calls: seq<Call>)
    requires b.rate > 0.0 && Run(b, calls) && calls != []
    ensures var end := After(b, calls);
            && end.rate == b.rate && end.capacity == b.capacity && end.lastTime >= calls[0].start >= b.lastTime
            && end.tokens <= b.capacity + Earned(b.rate, end.lastTime - calls[0].start) - |calls| as real
  {
    var n := |calls| - 1;
    var before, c := After(b, calls[..n]), calls[n];
    var refilled := before.Refilled(c.start);
    if n == 0 {
      EarnedMonotone(b.rate, 0, c.wake - c.start);
    } else {
      assert calls[..n][0] == calls[0];
      TokensAreBounded(b, calls[..n]);
      EarnedAdds(b.rate, before.lastTime - calls[0].start, c.start - before.lastTime);
    }
    EarnedAdds(b.rate, c.start - calls[0].start, c.wake - c.start);
    assert Earned(b.rate, 0) == 0.0;
  }

  /** Of the calls that read the clock after an instant, such as the return of another call, at
      most capacity + rate * time return within that time, when sleeps cover the deficit;
      truncated sleeps add less than the inflow of one nanosecond. */
  lemma ReturnsAreLimited(b: Bucket, calls: seq<Call>, instant: int, time: nat)
    requires b.rate > 0.0 && b.capacity >= 0.0 && Run(b, calls)
    requires calls != [] ==> instant <= calls[0].start && After(b, calls).lastTime <= instant + time
    ensures |calls| as real < b.capacity + Earned(b.rate, time) + Earned(b.rate, 1)
    ensures AllSufficient(b, calls) ==> |calls| as real <= b.capacity + Earned(b.rate, time)
  {
    EarnedPositive(b.rate);
    EarnedMonotone(b.rate, 0, time);
    assert Earned(b.rate, 0) == 0.0;
    if calls != [] {
      TokensAreBounded(b, calls);
      EarnedMonotone(b.rate, After(b, calls).lastTime - calls[0].start, time);
      BalanceAfter(b, calls);
    }
  }

  /** The balance that a run leaves. */
  lemma BalanceAfter(b: Bucket, calls: seq<Call>)
    requires b.rate > 0.0 && Run(b, calls) && calls != []
    ensures After(b, calls).tokens > -Earned(b.rate, 1)
    ensures AllSufficient(b, calls) ==> After(b, calls).tokens >= 0.0
  {
    var before, c := After(b, calls[..|calls| - 1]), calls[|calls| - 1];
    BarelyNegative(before, c);
    NonNegativeIffSufficient(before, c);
  }

  class Limiter {
    var rate: real
    var capacity: real
    var tokens: real
    var lastTime: int

    function View(): Bucket
      reads this
    {
      Bucket(rate, capacity, tokens, lastTime)
    }

    /** A full bucket that holds the inflow of one second. */
    constructor (rate: real, now: int)
      ensures View() == Bucket(rate, rate, rate, now)
    {
      this.rate, capacity, tokens, lastTime := rate, rate, rate, now;
    }

    method Wait(start: int, wake: int)
      requires rate > 0.0
      modifies this`tokens, this`lastTime
      ensures View() == old(View()).Wait(start, wake)
    {
      tokens := tokens + Earned(rate, start - lastTime);
      if tokens > capacity {
        tokens := capacity;
      }
      lastTime := start;
      if tokens < 1.0 {
        tokens := tokens + Earned(rate, wake - lastTime);
        lastTime := wake;
      }
      tokens := tokens - 1.0;
    }

    method SetRate(rate: real)
      modifies this`rate, this`capacity
      ensures View() == old(View()).(rate := rate, capacity := rate)
    {
      this.rate, capacity := rate, rate;
    }
  }
}
