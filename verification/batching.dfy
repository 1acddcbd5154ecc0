/** tools/loader/internal/batch: collecting messages into batches by size and timeout, with
    a fixed size (batcher.go) or an adaptive one (adaptive.go). */
module Batching {
  import opened Common

  datatype Message = Data(payload: string) | Tombstone

  datatype Batch = DataBatch(messages: seq<string>) | TombstoneBatch

  /** What the select of the event loop picks. */
  datatype Event = Cancelled | Received(message: Message) | InputClosed | TimerFired

  /** finished: the loop has returned; closed: the output channel is closed as well. */
  datatype State = State(messages: seq<string>, timer: bool, output: seq<Batch>, finished: bool, closed: bool) {
    function SendBatch(): State {
      if messages == [] then this
      else State([], false, output + [DataBatch(messages)], finished, closed)
    }

    function SendTombstone(): State {
      this.(output := output + [TombstoneBatch])
    }

    function Add(limit: int, payload: string): State {
      var added := this.(messages := messages + [payload], timer := timer || messages == []);
      if |added.messages| >= limit then added.SendBatch() else added
    }

    /** One turn of the loop while batches of the given size are wanted. */
    function Handle(limit: int, e: Event): State {
      match e
      case Cancelled => SendBatch().SendTombstone().(finished := true)
      case InputClosed => SendBatch().(finished := true)
      case TimerFired => SendBatch()
      case Received(Tombstone) => SendBatch().SendTombstone().(finished := true)
      case Received(Data(payload)) => Add(limit, payload)
    }

    function Close(): State {
      this.(timer := false, closed := true)
    }
  }

  function Initial(): State {
    State([], false, [], false, false)
  }

  function Payload(e: Event): seq<string> {
    if e.Received? && e.message.Data? then [e.message.payload] else []
  }

  /** The data that arrived with the events of a run. */
  function Arrived(events: seq<Event>): seq<string> {
    if events == [] then [] else Arrived(events[..|events| - 1]) + Payload(events[|events| - 1])
  }

  function Flatten(output: seq<Batch>): seq<string> {
    if output == [] then []
    else
      Flatten(output[..|output| - 1]) +
      match output[|output| - 1]
      case DataBatch(messages) => messages
      case TombstoneBatch => []
  }

  /** No batch is empty or too large, and a tombstone is the last thing sent. */
  ghost predicate WellCut(output: seq<Batch>, bound: int, finished: bool) {
    forall k :: 0 <= k < |output| ==>
      match output[k]
      case DataBatch(messages) => 1 <= |messages| <= bound
      case TombstoneBatch => finished && k == |output| - 1
  }

  /** What holds of a batcher that never wants batches above the bound. */
  ghost predicate Invariant(s: State, bound: int, consumed: seq<string>) {
    && Flatten(s.output) + s.messages == consumed
    && WellCut(s.output, bound, s.finished)
    && |s.messages| < bound
    && (s.timer <==> s.messages != [])
    && (s.finished ==> s.messages == [])
    && (s.closed ==> s.finished)
  }

  lemma FlattenSnoc(output: seq<Batch>, b: Batch)
    ensures Flatten(output + [b]) == Flatten(output) + match b case DataBatch(messages) => messages case TombstoneBatch => []
  {
    assert (output + [b])[..|output|] == output;
  }

  lemma WellCutSnoc(output: seq<Batch>, b: Batch, bound: int, finished: bool)
    requires WellCut(output, bound, false)
    requires match b case DataBatch(messages) => 1 <= |messages| <= bound case TombstoneBatch => finished
    ensures WellCut(output + [b], bound, finished)
  {
    forall k | 0 <= k < |output| + 1
      ensures match (output + [b])[k]
              case DataBatch(messages) => 1 <= |messages| <= bound
              case TombstoneBatch => finished && k == |output|
    {
      assert k < |output| ==> (output + [b])[k] == output[k];
    }
  }

  /** Sending moves the buffer to the output and loses nothing. */
  lemma SendKeeps(s: State, bound: int, consumed: seq<string>)
    requires Flatten(s.output) + s.messages == consumed && |s.messages| <= bound && WellCut(s.output, bound, false)
    ensures var t := s.SendBatch();
            Flatten(t.output) == consumed && t.messages == [] && WellCut(t.output, bound, false)
  {
    if s.messages != [] {
      FlattenSnoc(s.output, DataBatch(s.messages));
      WellCutSnoc(s.output, DataBatch(s.messages), bound, false);
    } else {
      assert Flatten(s.output) + [] == Flatten(s.output);
    }
  }

  lemma TombstoneKeeps(s: State, bound: int)
    requires WellCut(s.output, bound, false)
    ensures var t := s.SendTombstone();
            Flatten(t.output) == Flatten(s.output) && WellCut(t.output, bound, true)
  {
    FlattenSnoc(s.output, TombstoneBatch);
    WellCutSnoc(s.output, TombstoneBatch, bound, true);
  }

  lemma AddKeeps(s: State, bound: int, consumed: seq<string>, limit: int, payload: string)
    requires Invariant(s, bound, consumed) && !s.finished && 1 <= limit <= bound
    ensures Invariant(s.Add(limit, payload), bound, consumed + [payload])
  {
    var added := s.(messages := s.messages + [payload], timer := s.timer || s.messages == []);
    assert Flatten(added.output) + added.messages == consumed + [payload];
    if |added.messages| >= limit {
      SendKeeps(added, bound, consumed + [payload]);
      assert Flatten(added.SendBatch().output) + [] == Flatten(added.SendBatch().output);
    }
  }

  lemma SentKeeps(s: State, bound: int, consumed: seq<string>, tombstone: bool)
    requires Invariant(s, bound, consumed) && !s.finished
    ensures var sent := s.SendBatch();
            && Invariant(sent, bound, consumed)
            && Invariant((if tombstone then sent.SendTombstone() else sent).(finished := true), bound, consumed)
  {
    SendKeeps(s, bound, consumed);
    TombstoneKeeps(s.SendBatch(), bound);
    assert consumed + [] == consumed;
  }

  /** Every turn of the loop keeps the invariant. */
  lemma HandleKeeps(s: State, bound: int, consumed: seq<string>, limit: int, e: Event)
    requires Invariant(s, bound, consumed) && !s.finished && 1 <= limit <= bound
    ensures Invariant(s.Handle(limit, e), bound, consumed + Payload(e))
  {
    assert consumed + [] == consumed;
    match e {
      case Received(Data(payload)) => AddKeeps(s, bound, consumed, limit, payload);
      case TimerFired => SentKeeps(s, bound, consumed, false);
      case Cancelled => SentKeeps(s, bound, consumed, true);
      case Received(Tombstone) => SentKeeps(s, bound, consumed, true);
      case InputClosed => SentKeeps(s, bound, consumed, false);
    }
  }

  lemma ArrivedNext(events: seq<Event>, n: nat)
    requires n < |events|
    ensures Arrived(events[..n + 1]) == Arrived(events[..n]) + Payload(events[n])
  {
    assert events[..n + 1][..n] == events[..n];
  }

  class Batcher {
    const size: int
    const timeout: int
    var messages: seq<string>
    /** The timer is running, or has fired without being looked at. */
    var timer: bool
    /** Everything sent to the output channel. */
    var output: seq<Batch>
    var finished: bool
    var closed: bool

    function View(): State
      reads this
    {
      State(messages, timer, output, finished, closed)
    }

    /** Sizes and timeouts that are not positive get defaults. */
    constructor (size: int, timeout: int)
      ensures View() == Initial()
      ensures this.size == (if size <= 0 then 500 else size) && this.timeout == (if timeout <= 0 then 100_000_000 else timeout)
    {
      this.size := if size <= 0 then 500 else size;
      this.timeout := if timeout <= 0 then 100_000_000 else timeout;
      messages, timer, output, finished, closed := [], false, [], false, false;
    }

    method StopTimer()
      modifies this`timer
      ensures !timer
    {
      timer := false;
    }

    method ResetTimer()
      modifies this`timer
      ensures timer
    {
      StopTimer();
      timer := true;
    }

    method SendBatch()
      modifies this`messages, this`timer, this`output
      ensures View() == old(View()).SendBatch()
    {
      if |messages| == 0 {
        return;
      }
      output := output + [DataBatch(messages)];
      messages := [];
      StopTimer();
    }

    method SendFinalBatch()
      modifies this`messages, this`timer, this`output
      ensures View() == old(View()).SendBatch()
    {
      if |messages| > 0 {
        SendBatch();
      }
    }

    method SendTombstoneBatch()
      modifies this`output
      ensures View() == old(View()).SendTombstone()
    {
      output := output + [TombstoneBatch];
    }

    /** One turn of the loop; limit is the size wanted at that time. */
    method Handle(limit: int, e: Event)
      modifies this
      ensures View() == old(View()).Handle(limit, e)
    {
      match e {
        case Cancelled =>
          SendFinalBatch();
          SendTombstoneBatch();
          finished := true;
        case InputClosed =>
          SendFinalBatch();
          finished := true;
        case TimerFired =>
          if |messages| > 0 {
            SendBatch();
          }
        case Received(message) =>
          if message == Tombstone {
            if |messages| > 0 {
              SendBatch();
            }
            SendTombstoneBatch();
            finished := true;
          } else {
            messages := messages + [message.payload];
            if |messages| == 1 {
              ResetTimer();
            }
            if |messages| >= limit {
              SendBatch();
            }
          }
      }
    }

    method Take(limit: int, e: Event, ghost bound: int, ghost consumed: seq<string>)
      requires Invariant(View(), bound, consumed) && !finished && 1 <= limit <= bound
      modifies this
      ensures Invariant(View(), bound, consumed + Payload(e)) && closed == old(closed)
    {
      HandleKeeps(View(), bound, consumed, limit, e);
      Handle(limit, e);
    }

    method Cleanup()
      modifies this
      ensures View() == old(View()).Close()
    {
      StopTimer();
      closed := true;
    }

    /** The loop over the events of a run, up to the one that ends it. The output is the
        consumed data cut into non-empty batches of at most size messages, in order; at most
        one tombstone follows them; and when the loop ends nothing stays behind. */
    method Run(events: seq<Event>) returns (n: nat)
      requires View() == Initial() && size >= 1
      modifies this
      ensures n <= |events| && Invariant(View(), size, Arrived(events[..n]))
      ensures closed == finished && (n < |events| ==> finished)
    {
      n := 0;
      while n < |events| && !finished
        invariant n <= |events| && Invariant(View(), size, Arrived(events[..n])) && !closed
      {
        ArrivedNext(events, n);
        Take(size, events[n], size, Arrived(events[..n]));
        n := n + 1;
      }
      if finished {
        Cleanup();
      }
    }
  }

  // --------------------------------------------------------- the adaptive batcher

  /** float64 arithmetic is exact on sizes up to here. */
  const EXACT_SIZE: int := 0x8_0000_0000_0000 / 3

  /** int(float64(size) * 1.5) */
  function Grown(size: nat): nat {
    size * 3 / 2
  }

  /** int(float64(size) * 0.75) */
  function Shrunk(size: nat): nat {
    size * 3 / 4
  }

  /** A turn of the batching loop, or of the adjusting loop with the throughput it measures. */
  datatype AdaptiveEvent = Turn(event: Event) | Adjust(now: int, throughput: real)

  function PayloadOf(e: AdaptiveEvent): seq<string> {
    match e
    case Turn(turn) => Payload(turn)
    case Adjust(_, _) => []
  }

  function ArrivedAdaptive(events: seq<AdaptiveEvent>): seq<string> {
    if events == [] then [] else ArrivedAdaptive(events[..|events| - 1]) + PayloadOf(events[|events| - 1])
  }

  lemma ArrivedAdaptiveNext(events: seq<AdaptiveEvent>, n: nat)
    requires n < |events|
    ensures ArrivedAdaptive(events[..n + 1]) == ArrivedAdaptive(events[..n]) + PayloadOf(events[n])
  {
    assert events[..n + 1][..n] == events[..n];
  }

  class AdaptiveBatcher {
    const batcher: Batcher
    const minSize: int
    const maxSize: int
    const targetRate: int
    const window: int
    var lastAdjust: int
    var currentSize: int

    predicate Valid()
      reads this
    {
      1 <= minSize <= currentSize <= maxSize
    }

    constructor (minSize: int, maxSize: int, targetRate: int, timeout: int, now: int)
      requires maxSize <= EXACT_SIZE
      ensures Valid() && fresh(batcher) && batcher.View() == Initial() && lastAdjust == now
      ensures this.maxSize == (if maxSize <= 0 then 1000 else maxSize)
      ensures this.minSize == Min(if minSize <= 0 then 10 else minSize, this.maxSize)
    {
      var low := if minSize <= 0 then 10 else minSize;
      var high := if maxSize <= 0 then 1000 else maxSize;
      if low > high {
        low := high;
      }
      var initialSize := low + (high - low) / 4;
      this.minSize, this.maxSize, currentSize := low, high, initialSize;
      this.targetRate, window := if targetRate <= 0 then 10_000 else targetRate, 10_000_000_000;
      batcher := new Batcher(initialSize, timeout);
      lastAdjust := now;
    }

    /** Half as much again below nine tenths of the target rate, a quarter less above eleven
        tenths, within the bounds and at most once a window. */
    method AdjustBatchSize(now: int, throughput: real)
      requires Valid()
      modifies this`currentSize, this`lastAdjust
      ensures Valid()
      ensures currentSize == (
                if now - old(lastAdjust) < window then old(currentSize)
                else if throughput < targetRate as real * 0.9 then Min(Grown(old(currentSize)), maxSize)
                else if throughput > targetRate as real * 1.1 then
                  if Shrunk(old(currentSize)) > minSize then Shrunk(old(currentSize)) else minSize
                else old(currentSize))
      ensures lastAdjust == if currentSize != old(currentSize) then now else old(lastAdjust)
    {
      if now - lastAdjust < window {
        return;
      }
      var newSize;
      if throughput < targetRate as real * 0.9 {
        newSize := Min(Grown(currentSize), maxSize);
      } else if throughput > targetRate as real * 1.1 {
        newSize := if Shrunk(currentSize) > minSize then Shrunk(currentSize) else minSize;
      } else {
        newSize := currentSize;
      }
      if newSize != currentSize {
        currentSize := newSize;
        lastAdjust := now;
      }
    }

    /** One turn of either loop. */
    method Take(e: AdaptiveEvent, ghost consumed: seq<string>)
      requires Valid() && Invariant(batcher.View(), maxSize, consumed) && !batcher.finished
      modifies this, batcher
      ensures Valid() && Invariant(batcher.View(), maxSize, consumed + PayloadOf(e)) && batcher.closed == old(batcher.closed)
    {
      match e {
        case Turn(turn) =>
          batcher.Take(currentSize, turn, maxSize, consumed);
        case Adjust(now, throughput) =>
          AdjustBatchSize(now, throughput);
          assert consumed + [] == consumed;
      }
    }

    /** Both loops, interleaved in any way: the same conservation with the largest size as
        the bound, and the current size never leaves its range. */
    method Run(events: seq<AdaptiveEvent>) returns (n: nat)
      requires Valid() && batcher.View() == Initial()
      modifies this, batcher
      ensures n <= |events| && Valid() && Invariant(batcher.View(), maxSize, ArrivedAdaptive(events[..n]))
      ensures batcher.closed == batcher.finished && (n < |events| ==> batcher.finished)
    {
      n := 0;
      while n < |events| && !batcher.finished
        invariant n <= |events| && Valid() && !batcher.closed
        invariant Invariant(batcher.View(), maxSize, ArrivedAdaptive(events[..n]))
      {
        ArrivedAdaptiveNext(events, n);
        Take(events[n], ArrivedAdaptive(events[..n]));
        n := n + 1;
      }
      if batcher.finished {
        batcher.Cleanup();
      }
    }
  }

  /** The size after n adjustments that all found the throughput too low. */
  function AfterGrowing(size: nat, maxSize: nat, n: nat): nat {
    if n == 0 then size
    else
      var before := AfterGrowing(size, maxSize, n - 1);
      if Grown(before) < maxSize then Grown(before) else maxSize
  }

  lemma {:induction false} GrowthAfter(size: nat, maxSize: nat, n: nat)
    requires 1 <= size <= maxSize
    ensures size == 1 < maxSize ==> AfterGrowing(size, maxSize, n) == 1
    ensures size >= 2 ==> AfterGrowing(size, maxSize, n) >= (if size + n < maxSize then size + n else maxSize)
    ensures AfterGrowing(size, maxSize, n) <= maxSize
  {
    if n > 0 {
      GrowthAfter(size, maxSize, n - 1);
    }
  }

  /** A throughput that stays too low drives the size to its maximum, unless the size is one:
      half as much again of one is still one after truncation. */
  lemma GrowsUnlessOne(size: nat, maxSize: nat)
    requires 1 <= size <= maxSize
    ensures (exists n :: AfterGrowing(size, maxSize, n) == maxSize) <==> size >= 2 || maxSize == 1
  {
    if size >= 2 || maxSize == 1 {
      GrowthAfter(size, maxSize, maxSize - size);
      assert AfterGrowing(size, maxSize, maxSize - size) == maxSize;
    } else {
      forall n: nat
        ensures AfterGrowing(size, maxSize, n) != maxSize
      {
        GrowthAfter(size, maxSize, n);
      }
    }
  }
}
