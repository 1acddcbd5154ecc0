/** tools/loader/internal/publisher: a pool of workers draining the batches of one batcher,
    as a protocol over every interleaving of their steps. */
module Publishing {
  import opened Common
  import opened Batching

  /** Busy: the messages of a batch, and how many of them are published. */
  datatype WorkerState = Idle | Busy(messages: seq<string>, done: nat) | Stopped

  /** bound is the largest batch size the batcher may want; consumed is the data the batcher took from its input; taken counts the batches received
      from the channel; lost holds what an error or the
      cancellation kept from being published. */
  datatype System = System(
    bound: int,
    batcher: State,
    consumed: seq<string>,
    taken: nat,
    workers: seq<WorkerState>,
    published: seq<string>,
    lost: seq<string>,
    errors: nat,
    batchesProcessed: nat,
    cancelled: bool)

  datatype Action =
    | Cancel
    | Batch(limit: int, event: Event)
    | CloseOutput
    | Receive(w: nat)
    | SeeClosed(w: nat)
    | SeeCancelled(w: nat)
    | Publish(w: nat)
    | PublishFails(w: nat)
    | Flush(w: nat)
    | FlushFails(w: nat)
    | Abandon(w: nat)

  function Start(bound: int, workers: nat): System {
    System(bound, Initial(), [], 0, seq(workers, _ => Idle), [], [], 0, 0, false)
  }

  ghost predicate IsBusy(s: System, w: nat) {
    w < |s.workers| && s.workers[w].Busy? && s.workers[w].done <= |s.workers[w].messages|
  }

  ghost predicate IsIdle(s: System, w: nat) {
    w < |s.workers| && s.workers[w] == Idle
  }

  /** Which actions the loops can take. The batcher's loop sees the cancellation it reacts to. */
  ghost predicate Enabled(s: System, a: Action) {
    match a
    case Cancel => true
    case Batch(limit, e) => !s.batcher.finished && 1 <= limit <= s.bound && (e == Cancelled ==> s.cancelled)
    case CloseOutput => s.batcher.finished && !s.batcher.closed
    case Receive(w) => IsIdle(s, w) && s.taken < |s.batcher.output|
    case SeeClosed(w) => IsIdle(s, w) && s.taken == |s.batcher.output| && s.batcher.closed
    case SeeCancelled(w) => IsIdle(s, w) && s.cancelled
    case Publish(w) => IsBusy(s, w) && s.workers[w].done < |s.workers[w].messages|
    case PublishFails(w) => IsBusy(s, w) && s.workers[w].done < |s.workers[w].messages|
    case Flush(w) => IsBusy(s, w) && s.workers[w].done == |s.workers[w].messages|
    case FlushFails(w) => IsBusy(s, w) && s.workers[w].done == |s.workers[w].messages|
    case Abandon(w) => IsBusy(s, w) && s.cancelled
  }

  ghost function Become(s: System, w: nat, state: WorkerState): System
    requires w < |s.workers|
  {
    s.(workers := s.workers[w := state])
  }

  /** The messages a worker still has to publish. */
  ghost function Unpublished(state: WorkerState): seq<string> {
    if state.Busy? && state.done <= |state.messages| then state.messages[state.done..] else []
  }

  ghost function Step(s: System, a: Action): System
    requires Enabled(s, a)
  {
    match a
    case Cancel => s.(cancelled := true)
    case Batch(limit, e) => s.(batcher := s.batcher.Handle(limit, e), consumed := s.consumed + Payload(e))
    case CloseOutput => s.(batcher := s.batcher.Close())
    case Receive(w) =>
      var t := s.(taken := s.taken + 1);
      (match s.batcher.output[s.taken]
       case TombstoneBatch => Become(t, w, Stopped)
       case DataBatch(messages) => Become(t, w, Busy(messages, 0)))
    case SeeClosed(w) => Become(s, w, Stopped)
    case SeeCancelled(w) => Become(s, w, Stopped)
    case Publish(w) =>
      var b := s.workers[w];
      Become(s, w, b.(done := b.done + 1)).(published := s.published + [b.messages[b.done]])
    case PublishFails(w) =>
      Become(s, w, Idle).(errors := s.errors + 1, lost := s.lost + Unpublished(s.workers[w]))
    case Flush(w) => Become(s, w, Idle).(batchesProcessed := s.batchesProcessed + 1)
    case FlushFails(w) => Become(s, w, Idle).(errors := s.errors + 1)
    case Abandon(w) => Become(s, w, Idle).(lost := s.lost + Unpublished(s.workers[w]))
  }

  /** What is not enabled does not happen. */
  ghost function Next(s: System, a: Action): System {
    if Enabled(s, a) then Step(s, a) else s
  }

  ghost function Run(s: System, actions: seq<Action>): System {
    if actions == [] then s else Next(Run(s, actions[..|actions| - 1]), actions[|actions| - 1])
  }

  /** wg.Wait returns, and the completion channel closes, when every worker has stopped. */
  ghost predicate Complete(s: System) {
    forall w :: 0 <= w < |s.workers| ==> s.workers[w] == Stopped
  }

  // --------------------------------------------------------- conservation

  /** How often a message is in the hands of the workers. */
  ghost function InFlight(workers: seq<WorkerState>, m: string): nat {
    if workers == [] then 0
    else InFlight(workers[..|workers| - 1], m) + Count(Unpublished(workers[|workers| - 1]), m)
  }

  /** What the workers have not received yet. */
  ghost function Upstream(b: State, taken: nat): seq<string>
    requires taken <= |b.output|
  {
    Flatten(b.output[taken..]) + b.messages
  }

  /** How often a message was published, lost, or is still on its way. */
  ghost function Accounted(s: System, m: string): nat
    requires s.taken <= |s.batcher.output|
  {
    Count(s.published, m) + Count(s.lost, m) + InFlight(s.workers, m) + Count(Upstream(s.batcher, s.taken), m)
  }

  /** Every consumed message is accounted for exactly as often as it was consumed. */
  ghost predicate Conserved(s: System) {
    s.taken <= |s.batcher.output| && forall m :: Accounted(s, m) == Count(s.consumed, m)
  }

  /** Only an error or the cancellation loses messages, and without the latter a worker stops
      only when there is nothing left to receive. */
  ghost predicate Orderly(s: System) {
    && (s.lost != [] ==> s.errors > 0 || s.cancelled)
    && (!s.cancelled && (exists w :: 0 <= w < |s.workers| && s.workers[w] == Stopped) ==>
          s.batcher.finished && s.taken == |s.batcher.output|)
    && (forall w :: 0 <= w < |s.workers| && s.workers[w].Busy? ==> s.workers[w].done <= |s.workers[w].messages|)
  }

  ghost predicate Holds(s: System) {
    Invariant(s.batcher, s.bound, s.consumed) && Conserved(s) && Orderly(s)
  }

  lemma InFlightSnoc(workers: seq<WorkerState>, last: WorkerState, m: string)
    ensures InFlight(workers + [last], m) == InFlight(workers, m) + Count(Unpublished(last), m)
  {
    assert (workers + [last])[..|workers|] == workers;
  }

  lemma {:induction false} InFlightUpdate(workers: seq<WorkerState>, w: nat, state: WorkerState, m: string)
    requires w < |workers|
    ensures InFlight(workers[w := state], m) + Count(Unpublished(workers[w]), m) == InFlight(workers, m) + Count(Unpublished(state), m)
  {
    var front, last := workers[..|workers| - 1], workers[|workers| - 1];
    assert workers == front + [last];
    InFlightSnoc(front, last, m);
    if w < |front| {
      assert workers[w := state] == front[w := state] + [last];
      InFlightUpdate(front, w, state, m);
      InFlightSnoc(front[w := state], last, m);
    } else {
      assert workers[w := state] == front + [state];
      InFlightSnoc(front, state, m);
    }
  }

  lemma {:induction false} FlattenDistributes(a: seq<Batching.Batch>, b: seq<Batching.Batch>)
    ensures Flatten(a + b) == Flatten(a) + Flatten(b)
  {
    if b == [] {
      assert a + b == a;
    } else {
      assert (a + b)[..|a + b| - 1] == a + b[..|b| - 1];
      FlattenDistributes(a, b[..|b| - 1]);
    }
  }

  /** A turn of the batcher only appends to the channel. */
  lemma HandleAppends(b: State, limit: int, e: Event)
    ensures b.output <= b.Handle(limit, e).output
  {}

  lemma CutFront(f: seq<string>, u: seq<string>, v: seq<string>, x: seq<string>, y: seq<string>, p: seq<string>)
    requires f + v + y == f + u + x + p
    ensures v + y == u + x + p
  {
    assert (f + v + y)[|f|..] == v + y;
    assert (f + u + x + p)[|f|..] == u + x + p;
  }

  lemma FlattenSplits(a: seq<Batching.Batch>, k: nat)
    requires k <= |a|
    ensures Flatten(a) == Flatten(a[..k]) + Flatten(a[k..])
  {
    assert a[..k] + a[k..] == a;
    FlattenDistributes(a[..k], a[k..]);
  }

  lemma TailsGrow(a: seq<Batching.Batch>, b: seq<Batching.Batch>, k: nat, x: seq<string>, y: seq<string>, p: seq<string>)
    requires k <= |a| && a <= b && Flatten(b) + y == Flatten(a) + x + p
    ensures Flatten(b[k..]) + y == Flatten(a[k..]) + x + p
  {
    FlattenSplits(a, k);
    FlattenSplits(b, k);
    assert b[..k] == a[..k];
    CutFront(Flatten(a[..k]), Flatten(a[k..]), Flatten(b[k..]), x, y, p);
  }

  /** What is upstream after a turn is what was upstream before, and the data that arrived. */
  lemma UpstreamGrows(s: System, limit: int, e: Event)
    requires Invariant(s.batcher, s.bound, s.consumed) && s.taken <= |s.batcher.output|
    requires Enabled(s, Batch(limit, e))
    ensures var t := Step(s, Batch(limit, e));
            && Invariant(t.batcher, t.bound, t.consumed) && s.batcher.output <= t.batcher.output
            && Upstream(t.batcher, t.taken) == Upstream(s.batcher, s.taken) + Payload(e)
  {
    var t := Step(s, Batch(limit, e));
    HandleKeeps(s.batcher, s.bound, s.consumed, limit, e);
    HandleAppends(s.batcher, limit, e);
    assert t.consumed == s.consumed + Payload(e);
    TailsGrow(s.batcher.output, t.batcher.output, s.taken, s.batcher.messages, t.batcher.messages, Payload(e));
  }

  /** The data of a batch. */
  function DataOf(b: Batching.Batch): seq<string> {
    match b
    case DataBatch(messages) => messages
    case TombstoneBatch => []
  }

  lemma FlattenFirst(output: seq<Batching.Batch>)
    requires output != []
    ensures Flatten(output) == DataOf(output[0]) + Flatten(output[1..])
  {
    FlattenSplits(output, 1);
    assert output[..1][..0] == [];
    assert Flatten(output[..1]) == Flatten([]) + DataOf(output[0]);
  }

  lemma UpstreamShrinks(b: State, taken: nat, m: string)
    requires taken < |b.output|
    ensures Count(Upstream(b, taken), m) == Count(DataOf(b.output[taken]), m) + Count(Upstream(b, taken + 1), m)
  {
    var left := b.output[taken..];
    FlattenFirst(left);
    assert left[1..] == b.output[taken + 1..];
    CountOfSum(Flatten(left), b.messages, m);
    CountOfSum(DataOf(left[0]), Flatten(left[1..]), m);
    CountOfSum(Flatten(left[1..]), b.messages, m);
  }

  lemma FreshBatch(messages: seq<string>, m: string)
    ensures Count(Unpublished(Busy(messages, 0)), m) == Count(messages, m)
  {
    assert messages[0..] == messages;
  }

  // --------------------------------------------------------- every step

  lemma BatchStepKeeps(s: System, limit: int, e: Event)
    requires Holds(s) && Enabled(s, Batch(limit, e))
    ensures Holds(Step(s, Batch(limit, e)))
  {
    var t := Step(s, Batch(limit, e));
    UpstreamGrows(s, limit, e);
    forall m
      ensures Accounted(t, m) == Count(t.consumed, m)
    {
      CountOfSum(Upstream(s.batcher, s.taken), Payload(e), m);
      CountOfSum(s.consumed, Payload(e), m);
      assert Accounted(s, m) == Count(s.consumed, m);
    }
  }

  lemma ReceiveConserves(s: System, w: nat, m: string)
    requires Enabled(s, Receive(w))
    ensures Accounted(Step(s, Receive(w)), m) == Accounted(s, m)
  {
    var t := Step(s, Receive(w));
    UpstreamShrinks(s.batcher, s.taken, m);
    InFlightUpdate(s.workers, w, t.workers[w], m);
    FreshBatch(DataOf(s.batcher.output[s.taken]), m);
  }

  lemma ReceiveKeeps(s: System, w: nat)
    requires Holds(s) && Enabled(s, Receive(w))
    ensures Holds(Step(s, Receive(w)))
  {
    forall m {
      ReceiveConserves(s, w, m);
    }
  }

  /** A worker leaves its batch, finished or not. */
  lemma LeaveKeeps(s: System, a: Action, w: nat)
    requires Holds(s) && Enabled(s, a)
    requires a in {PublishFails(w), Flush(w), FlushFails(w), Abandon(w)}
    ensures Holds(Step(s, a))
  {
    var t := Step(s, a);
    forall m
      ensures Accounted(t, m) == Count(t.consumed, m)
    {
      InFlightUpdate(s.workers, w, Idle, m);
      CountOfSum(s.lost, Unpublished(s.workers[w]), m);
      assert Accounted(s, m) == Count(s.consumed, m);
    }
  }

  lemma NextMessage(b: WorkerState, m: string)
    requires b.Busy? && b.done < |b.messages|
    ensures Count(Unpublished(b), m) == Count([b.messages[b.done]], m) + Count(Unpublished(b.(done := b.done + 1)), m)
  {
    assert b.messages[b.done..] == [b.messages[b.done]] + b.messages[b.done + 1..];
    CountOfSum([b.messages[b.done]], b.messages[b.done + 1..], m);
  }

  lemma PublishConserves(s: System, w: nat, m: string)
    requires Enabled(s, Publish(w)) && s.taken <= |s.batcher.output|
    ensures Accounted(Step(s, Publish(w)), m) == Accounted(s, m)
  {
    var b := s.workers[w];
    InFlightUpdate(s.workers, w, b.(done := b.done + 1), m);
    NextMessage(b, m);
    CountOfSum(s.published, [b.messages[b.done]], m);
  }

  lemma PublishKeeps(s: System, w: nat)
    requires Holds(s) && Enabled(s, Publish(w))
    ensures Holds(Step(s, Publish(w)))
  {
    forall m {
      PublishConserves(s, w, m);
    }
  }

  lemma StopKeeps(s: System, a: Action, w: nat)
    requires Holds(s) && Enabled(s, a) && a in {SeeClosed(w), SeeCancelled(w)}
    ensures Holds(Step(s, a))
  {
    var t := Step(s, a);
    forall m
      ensures Accounted(t, m) == Count(t.consumed, m)
    {
      InFlightUpdate(s.workers, w, Stopped, m);
      assert Accounted(s, m) == Count(s.consumed, m);
    }
  }

  /** Every step, of the batcher or of any worker, keeps the invariant. */
  lemma StepKeeps(s: System, a: Action)
    requires Holds(s) && Enabled(s, a)
    ensures Holds(Step(s, a))
  {
    match a {
      case Batch(limit, e) => BatchStepKeeps(s, limit, e);
      case Receive(w) => ReceiveKeeps(s, w);
      case SeeClosed(w) => StopKeeps(s, a, w);
      case SeeCancelled(w) => StopKeeps(s, a, w);
      case Publish(w) => PublishKeeps(s, w);
      case PublishFails(w) => LeaveKeeps(s, a, w);
      case Flush(w) => LeaveKeeps(s, a, w);
      case FlushFails(w) => LeaveKeeps(s, a, w);
      case Abandon(w) => LeaveKeeps(s, a, w);
      case Cancel =>
        assert forall m :: Accounted(Step(s, a), m) == Accounted(s, m);
      case CloseOutput =>
        assert forall m :: Accounted(Step(s, a), m) == Accounted(s, m);
    }
  }

  lemma {:induction false} NothingInFlight(workers: seq<WorkerState>, m: string)
    requires forall w :: 0 <= w < |workers| ==> !workers[w].Busy?
    ensures InFlight(workers, m) == 0
  {
    if workers != [] {
      NothingInFlight(workers[..|workers| - 1], m);
    }
  }

  lemma StartHolds(bound: int, workers: nat)
    requires bound >= 1
    ensures Holds(Start(bound, workers))
  {
    var s := Start(bound, workers);
    forall m
      ensures Accounted(s, m) == 0
    {
      NothingInFlight(s.workers, m);
    }
  }

  lemma NextKeeps(s: System, a: Action)
    requires Holds(s)
    ensures Holds(Next(s, a)) && |Next(s, a).workers| == |s.workers|
  {
    if Enabled(s, a) {
      StepKeeps(s, a);
    }
  }

  /** The invariant holds after every run, whatever the interleaving. */
  lemma {:induction false} RunKeeps(s: System, actions: seq<Action>)
    requires Holds(s)
    ensures Holds(Run(s, actions)) && |Run(s, actions).workers| == |s.workers|
  {
    if actions != [] {
      var before := Run(s, actions[..|actions| - 1]);
      RunKeeps(s, actions[..|actions| - 1]);
      NextKeeps(before, actions[|actions| - 1]);
    }
  }

  /** No message is ever published more often than it was consumed. */
  lemma PublishedAtMostOnce(bound: int, workers: nat, actions: seq<Action>, m: string)
    requires bound >= 1
    ensures var s := Run(Start(bound, workers), actions);
            Count(s.published, m) <= Count(s.consumed, m)
  {
    StartHolds(bound, workers);
    RunKeeps(Start(bound, workers), actions);
    var s := Run(Start(bound, workers), actions);
    assert Accounted(s, m) == Count(s.consumed, m);
  }

  /** When the completion channel closes without cancellation and without publish error, the
      batcher is through and every consumed message was published exactly once. */
  lemma CompletionMeansPublished(bound: int, workers: nat, actions: seq<Action>)
    requires bound >= 1 && workers >= 1
    ensures var s := Run(Start(bound, workers), actions);
            Complete(s) && !s.cancelled && s.errors == 0 ==>
              && multiset(s.published) == multiset(s.consumed)
              && s.batcher.finished && s.taken == |s.batcher.output|
  {
    StartHolds(bound, workers);
    RunKeeps(Start(bound, workers), actions);
    var s := Run(Start(bound, workers), actions);
    if Complete(s) && !s.cancelled && s.errors == 0 {
      assert s.workers[0] == Stopped;
      NothingLeft(s);
    }
  }

  lemma NothingLeft(s: System)
    requires Holds(s) && Complete(s) && s.lost == [] && s.batcher.finished && s.taken == |s.batcher.output|
    ensures multiset(s.published) == multiset(s.consumed)
  {
    assert Upstream(s.batcher, s.taken) == [];
    forall m
      ensures multiset(s.published)[m] == multiset(s.consumed)[m]
    {
      NothingInFlight(s.workers, m);
      assert Accounted(s, m) == Count(s.consumed, m);
      CountIsMultiplicity(s.published, m);
      CountIsMultiplicity(s.consumed, m);
    }
  }

  // --------------------------------------------------------- completion is reached

  ghost predicate WorkerAction(a: Action) {
    !a.Cancel? && !a.Batch? && !a.CloseOutput?
  }

  ghost function WorkOf(state: WorkerState): nat {
    match state
    case Idle => 1
    case Busy(messages, done) => 2 + |Unpublished(state)|
    case Stopped => 0
  }

  ghost function Work(workers: seq<WorkerState>): nat {
    if workers == [] then 0 else Work(workers[..|workers| - 1]) + WorkOf(workers[|workers| - 1])
  }

  ghost function Queued(output: seq<Batching.Batch>): nat {
    if output == [] then 0 else 2 + |DataOf(output[0])| + Queued(output[1..])
  }

  ghost function Remaining(s: System): nat
    requires s.taken <= |s.batcher.output|
  {
    Work(s.workers) + Queued(s.batcher.output[s.taken..])
  }

  lemma {:induction false} WorkUpdate(workers: seq<WorkerState>, w: nat, state: WorkerState)
    requires w < |workers|
    ensures Work(workers[w := state]) + WorkOf(workers[w]) == Work(workers) + WorkOf(state)
  {
    var n := |workers| - 1;
    if w < n {
      assert workers[w := state][..n] == workers[..n][w := state];
      WorkUpdate(workers[..n], w, state);
    } else {
      assert workers[w := state][..n] == workers[..n];
    }
  }

  /** Every step of a worker uses up work, so only finitely many follow the last turn of the batcher. */
  lemma WorkShrinks(s: System, a: Action)
    requires Holds(s) && Enabled(s, a) && WorkerAction(a)
    ensures Step(s, a).taken <= |Step(s, a).batcher.output| && Remaining(Step(s, a)) < Remaining(s)
  {
    var t := Step(s, a);
    WorkUpdate(s.workers, a.w, t.workers[a.w]);
    if a.Receive? {
      assert s.batcher.output[s.taken..][1..] == s.batcher.output[t.taken..];
    }
  }

  /** Once the channel is closed, a worker that has not stopped can always take a step without error. */
  lemma WorkersNeverBlock(s: System, w: nat)
    requires Holds(s) && s.batcher.closed && w < |s.workers| && s.workers[w] != Stopped
    ensures exists a :: a in {Receive(w), SeeClosed(w), Publish(w), Flush(w)} && Enabled(s, a)
  {
    if s.workers[w].Busy? {
      if s.workers[w].done < |s.workers[w].messages| {
        assert Enabled(s, Publish(w));
      } else {
        assert Enabled(s, Flush(w));
      }
    } else if s.taken < |s.batcher.output| {
      assert Enabled(s, Receive(w));
    } else {
      assert Enabled(s, SeeClosed(w));
    }
  }

  /** Every action is a worker's and enabled where it is taken. */
  ghost predicate Taken(s: System, actions: seq<Action>) {
    actions == [] ||
    (var front, a := actions[..|actions| - 1], actions[|actions| - 1];
     Taken(s, front) && WorkerAction(a) && Enabled(Run(s, front), a))
  }

  /** The workers cannot go on for ever: their steps are bounded by the work that remains. */
  lemma {:induction false} WorkersFinish(s: System, actions: seq<Action>)
    requires Holds(s) && Taken(s, actions)
    ensures Holds(Run(s, actions)) && |actions| + Remaining(Run(s, actions)) <= Remaining(s)
  {
    if actions != [] {
      var front, a := actions[..|actions| - 1], actions[|actions| - 1];
      WorkersFinish(s, front);
      StepKeeps(Run(s, front), a);
      WorkShrinks(Run(s, front), a);
    }
  }

  // --------------------------------------------------------- one worker's code

  /** What one call of publishBatch meets: whether it gets a slot, before which messages the
      context is found cancelled, which of them the connection rejects, and the flush. */
  datatype Surroundings = Surroundings(slot: bool, cancelledBefore: nat -> bool, rejects: nat -> bool, flushFails: bool)

  /** How far the loop over n messages gets from the i-th on. */
  function Reached(env: Surroundings, i: nat, n: nat): (r: nat)
    requires i <= n
    ensures i <= r <= n
    ensures forall k :: i <= k < r ==> !env.cancelledBefore(k) && !env.rejects(k)
    ensures r < n ==> env.cancelledBefore(r) || env.rejects(r)
    decreases n - i
  {
    if i < n && !env.cancelledBefore(i) && !env.rejects(i) then Reached(env, i + 1, n) else i
  }

  function Sent(env: Surroundings, n: nat): (r: nat)
    ensures r <= n
  {
    if env.slot then Reached(env, 0, n) else 0
  }

  /** The step a worker leaves its batch of n messages with. */
  function Ending(w: nat, env: Surroundings, n: nat): Action {
    var sent := Sent(env, n);
    if !env.slot || (sent < n && env.cancelledBefore(sent)) then Abandon(w)
    else if sent < n then PublishFails(w)
    else if env.flushFails then FlushFails(w)
    else Flush(w)
  }

  /** Where the loop over the messages stops, and how. */
  lemma EndsAt(env: Surroundings, i: nat, n: nat)
    requires env.slot && i <= n && Reached(env, 0, n) == Reached(env, i, n)
    requires i == n || env.cancelledBefore(i) || env.rejects(i)
    ensures Sent(env, n) == i
    ensures Ending(0, env, n) == if i < n then (if env.cancelledBefore(i) then Abandon(0) else PublishFails(0))
                                 else if env.flushFails then FlushFails(0) else Flush(0)
  {}

  class Publisher {
    const workers: nat
    /** What the connection accepted. */
    var published: seq<string>
    var messagesPublished: nat
    var batchesProcessed: nat
    var publishErrors: nat
    var workersCompleted: nat

    constructor (workers: int)
      ensures this.workers == (if workers <= 0 then 4 else workers) && published == []
      ensures messagesPublished == batchesProcessed == publishErrors == workersCompleted == 0
    {
      this.workers := if workers <= 0 then 4 else workers;
      published, messagesPublished, batchesProcessed, publishErrors, workersCompleted := [], 0, 0, 0, 0;
    }

    method OnWorkerCompleted()
      modifies this`workersCompleted
      ensures workersCompleted == old(workersCompleted) + 1
    {
      workersCompleted := workersCompleted + 1;
    }

    /** Publishes a prefix of the batch, all of it when it succeeds. */
    method PublishBatch(messages: seq<string>, env: Surroundings) returns (ok: bool)
      modifies this`published, this`messagesPublished, this`batchesProcessed, this`publishErrors
      ensures published == old(published) + messages[..Sent(env, |messages|)]
      ensures messagesPublished == old(messagesPublished) + Sent(env, |messages|)
      ensures var ending := Ending(0, env, |messages|);
              && ok == ending.Flush?
              && batchesProcessed == old(batchesProcessed) + (if ending.Flush? then 1 else 0)
              && publishErrors == old(publishErrors) + (if ending.PublishFails? || ending.FlushFails? then 1 else 0)
    {
      if !env.slot {
        return false;
      }
      for i := 0 to |messages|
        invariant Reached(env, 0, |messages|) == Reached(env, i, |messages|)
        invariant published == old(published) + messages[..i] && messagesPublished == old(messagesPublished) + i
        invariant batchesProcessed == old(batchesProcessed) && publishErrors == old(publishErrors)
      {
        if env.cancelledBefore(i) {
          EndsAt(env, i, |messages|);
          return false;
        }
        if env.rejects(i) {
          EndsAt(env, i, |messages|);
          publishErrors := publishErrors + 1;
          return false;
        }
        published := published + [messages[i]];
        messagesPublished := messagesPublished + 1;
      }
      EndsAt(env, |messages|, |messages|);
      if env.flushFails {
        publishErrors := publishErrors + 1;
        return false;
      }
      batchesProcessed := batchesProcessed + 1;
      return true;
    }
  }

  /** n messages of the batch of worker w. */
  ghost function Publishing(w: nat, n: nat): seq<Action> {
    seq(n, _ => Publish(w))
  }

  lemma {:induction false} PublishingSteps(s: System, w: nat, messages: seq<string>, n: nat)
    requires w < |s.workers| && s.workers[w] == Busy(messages, 0) && n <= |messages|
    ensures Run(s, Publishing(w, n)) == Become(s, w, Busy(messages, n)).(published := s.published + messages[..n])
  {
    if n == 0 {
      assert s.workers[w := s.workers[w]] == s.workers;
      assert s.published + messages[..0] == s.published;
    } else {
      PublishingSteps(s, w, messages, n - 1);
      assert Publishing(w, n) == Publishing(w, n - 1) + [Publish(w)];
      RunSnoc(s, Publishing(w, n - 1), Publish(w));
      PublishOne(s, w, messages, n - 1);
    }
  }

  lemma RunSnoc(s: System, actions: seq<Action>, a: Action)
    ensures Run(s, actions + [a]) == Next(Run(s, actions), a)
  {
    assert (actions + [a])[..|actions|] == actions;
  }

  /** Publishing one more message of a batch. */
  lemma PublishOne(s: System, w: nat, messages: seq<string>, k: nat)
    requires w < |s.workers| && k < |messages|
    ensures var t := Become(s, w, Busy(messages, k)).(published := s.published + messages[..k]);
            Next(t, Publish(w)) == Become(s, w, Busy(messages, k + 1)).(published := s.published + messages[..k + 1])
  {
    assert messages[..k + 1] == messages[..k] + [messages[k]];
    assert s.published + messages[..k + 1] == s.published + messages[..k] + [messages[k]];
    assert s.workers[w := Busy(messages, k)][w := Busy(messages, k + 1)] == s.workers[w := Busy(messages, k + 1)];
  }

  /** The last step of a worker that published some of its batch. */
  lemma EndingStep(s: System, w: nat, messages: seq<string>, env: Surroundings)
    requires var sent := Sent(env, |messages|); w < |s.workers| && s.workers[w] == Busy(messages, sent)
    requires Ending(w, env, |messages|).Abandon? ==> s.cancelled
    ensures var ending := Ending(w, env, |messages|);
            var t := Next(s, ending);
            && t.workers == s.workers[w := Idle] && t.published == s.published
            && t.batchesProcessed == s.batchesProcessed + (if ending.Flush? then 1 else 0)
            && t.errors == s.errors + (if ending.PublishFails? || ending.FlushFails? then 1 else 0)
            && (ending.Flush? ==> t.lost == s.lost)
  {}

  /** A call of publishBatch is a run of the protocol: it publishes, counts and fails alike. */
  lemma PublishBatchIsARun(s: System, w: nat, messages: seq<string>, env: Surroundings)
    requires w < |s.workers| && s.workers[w] == Busy(messages, 0)
    requires Ending(w, env, |messages|).Abandon? ==> s.cancelled
    ensures var sent, ending := Sent(env, |messages|), Ending(w, env, |messages|);
            var t := Run(s, Publishing(w, sent) + [ending]);
            && t.workers == s.workers[w := Idle] && t.published == s.published + messages[..sent]
            && t.batchesProcessed == s.batchesProcessed + (if ending.Flush? then 1 else 0)
            && t.errors == s.errors + (if ending.PublishFails? || ending.FlushFails? then 1 else 0)
            && (ending.Flush? ==> t.lost == s.lost)
  {
    var sent, ending := Sent(env, |messages|), Ending(w, env, |messages|);
    var actions := Publishing(w, sent) + [ending];
    assert actions[..|actions| - 1] == Publishing(w, sent);
    PublishingSteps(s, w, messages, sent);
    var before := Run(s, Publishing(w, sent));
    EndingStep(before, w, messages, env);
    assert Run(s, actions) == Next(before, ending);
    assert s.workers[w := Busy(messages, sent)][w := Idle] == s.workers[w := Idle];
  }

  /** What the select of a worker's loop picks. */
  datatype Input = SawCancel | SawClose | Got(batch: Batching.Batch, env: Surroundings)

  predicate Stops(i: Input) {
    !i.Got? || i.batch == TombstoneBatch
  }

  predicate Succeeds(i: Input) {
    i.Got? && i.batch.DataBatch? && Ending(0, i.env, |i.batch.messages|).Flush?
  }

  /** The messages of the batches that were published completely. */
  function Handled(inputs: seq<Input>): nat {
    if inputs == [] then 0
    else
      var i := inputs[|inputs| - 1];
      Handled(inputs[..|inputs| - 1]) + if Succeeds(i) then |i.batch.messages| else 0
  }

  class Worker {
    const publisher: Publisher
    var messagesHandled: nat
    var batchesHandled: nat

    constructor (publisher: Publisher)
      ensures this.publisher == publisher && messagesHandled == batchesHandled == 0
    {
      this.publisher, messagesHandled, batchesHandled := publisher, 0, 0;
    }

    method ProcessBatch(messages: seq<string>, env: Surroundings)
      modifies this, publisher
      ensures publisher.workersCompleted == old(publisher.workersCompleted)
      ensures publisher.published == old(publisher.published) + messages[..Sent(env, |messages|)]
      ensures var ok := Ending(0, env, |messages|).Flush?;
              && messagesHandled == old(messagesHandled) + (if ok then |messages| else 0)
              && batchesHandled == old(batchesHandled) + (if ok then 1 else 0)
    {
      var ok := publisher.PublishBatch(messages, env);
      if !ok {
        return;
      }
      messagesHandled := messagesHandled + |messages|;
      batchesHandled := batchesHandled + 1;
    }

    /** Handles batches until the first input that stops the worker, and reports that once. */
    method Run(inputs: seq<Input>) returns (n: nat)
      modifies this, publisher
      ensures n <= |inputs| && (forall k :: 0 <= k < n ==> !Stops(inputs[k])) && (n < |inputs| ==> Stops(inputs[n]))
      ensures publisher.workersCompleted == old(publisher.workersCompleted) + if n < |inputs| then 1 else 0
      ensures messagesHandled == old(messagesHandled) + Handled(inputs[..n])
    {
      n := 0;
      while n < |inputs|
        invariant n <= |inputs| && forall k :: 0 <= k < n ==> !Stops(inputs[k])
        invariant publisher.workersCompleted == old(publisher.workersCompleted)
        invariant messagesHandled == old(messagesHandled) + Handled(inputs[..n])
      {
        assert inputs[..n + 1][..n] == inputs[..n];
        match inputs[n] {
          case SawCancel =>
            publisher.OnWorkerCompleted();
            return;
          case SawClose =>
            publisher.OnWorkerCompleted();
            return;
          case Got(batch, env) =>
            if batch == TombstoneBatch {
              publisher.OnWorkerCompleted();
              return;
            }
            ProcessBatch(batch.messages, env);
        }
        n := n + 1;
      }
    }
  }
}
