/** tools/generator/internal/generator/engine.go: records drawn from stateful generators, one
    after the other or by several workers that share the generators under a mutex. */
module Generating {
  import opened Common

  type Value = string
  type Record = map<string, Value>
  /** The state of every generator, by field name. */
  type States = map<string, int>

  datatype Field = Field(name: string, internal: bool)

  /** generate draws a field's value from its generator's state and the fields drawn before;
      nest stores under a dotted path; transform applies the post-transformations. Generators
      and transformations are deterministic, and None is an error. */
  datatype Template = Template(
    fields: seq<Field>,
    table: string,
    generate: (string, int, Record) -> Option<(Value, int)>,
    nest: (Record, string, Value) -> Record,
    transform: Record -> Option<string>)

  ghost predicate HasGenerators(t: Template, states: States) {
    forall i :: 0 <= i < |t.fields| ==> t.fields[i].name in states
  }

  function Store(t: Template, f: Field, value: Value, record: Record): Record {
    if f.internal || '.' !in f.name then record[f.name := value] else t.nest(record, f.name, value)
  }

  /** The first n fields, in order. */
  function Fill(t: Template, states: States, n: nat): (r: Option<(Record, States)>)
    requires HasGenerators(t, states) && n <= |t.fields|
    ensures r.Some? ==> HasGenerators(t, r.value.1)
  {
    if n == 0 then Some((map[], states))
    else match Fill(t, states, n - 1)
      case None => None
      case Some((record, s)) =>
        var f := t.fields[n - 1];
        match t.generate(f.name, s[f.name], record)
        case None => None
        case Some((value, next)) => Some((Store(t, f, value, record), s[f.name := next]))
  }

  function InternalNames(fields: seq<Field>): set<string> {
    if fields == [] then {}
    else
      var last := fields[|fields| - 1];
      InternalNames(fields[..|fields| - 1]) + if last.internal then {last.name} else {}
  }

  function RawRecord(t: Template, states: States): (r: Option<(Record, States)>)
    requires HasGenerators(t, states)
    ensures r.Some? ==> HasGenerators(t, r.value.1)
  {
    match Fill(t, states, |t.fields|)
    case None => None
    case Some((record, s)) =>
      var named := if t.table != "" then record["$table" := t.table] else record;
      Some((named - InternalNames(t.fields), s))
  }

  /** n records of the serial generation and the states they leave behind. */
  function Serial(t: Template, states: States, n: nat): (r: Option<(seq<string>, States)>)
    requires HasGenerators(t, states)
    ensures r.Some? ==> |r.value.0| == n && HasGenerators(t, r.value.1)
  {
    if n == 0 then Some(([], states))
    else match Serial(t, states, n - 1)
      case None => None
      case Some((out, s)) =>
        match RawRecord(t, s)
        case None => None
        case Some((record, s')) =>
          match t.transform(record)
          case None => None
          case Some(o) => Some((out + [o], s'))
  }

  lemma {:induction false} SerialPrefix(t: Template, states: States, k: nat, n: nat)
    requires HasGenerators(t, states) && k <= n && Serial(t, states, n).Some?
    ensures Serial(t, states, k).Some?
  {
    if k < n {
      SerialPrefix(t, states, k, n - 1);
    }
  }

  // --------------------------------------------------------- the workers' shares

  function Share(count: nat, workers: nat, w: nat): nat
    requires workers > 0
  {
    count / workers + if w < count % workers then 1 else 0
  }

  function Shares(count: nat, workers: nat, n: nat): nat
    requires workers > 0
  {
    if n == 0 then 0 else Shares(count, workers, n - 1) + Share(count, workers, n - 1)
  }

  lemma {:induction false} SharesUpTo(count: nat, workers: nat, n: nat)
    requires workers > 0
    ensures Shares(count, workers, n) == n * (count / workers) + Min(n, count % workers)
  {
    if n > 0 {
      SharesUpTo(count, workers, n - 1);
      assert n * (count / workers) == (n - 1) * (count / workers) + count / workers;
    }
  }

  /** The shares of all workers sum to the count. */
  lemma SharesSum(count: nat, workers: nat)
    requires workers > 0
    ensures Shares(count, workers, workers) == count
  {
    SharesUpTo(count, workers, workers);
    assert count == workers * (count / workers) + count % workers;
  }

  // --------------------------------------------------------- the workers

  /** held: a raw record was drawn under the mutex and is not transformed yet. */
  datatype Worker = Worker(left: nat, held: Option<Record>, records: seq<string>)

  datatype System = System(states: States, drawn: nat, workers: seq<Worker>)

  /** Which worker goes on, with a draw or with the transformation of what it drew. */
  type Schedule = seq<nat>

  function Start(states: States, count: nat, workers: nat): System
    requires workers > 0
  {
    System(states, 0, seq(workers, w requires 0 <= w < workers => Worker(Share(count, workers, w), None, [])))
  }

  /** None when a generator or a transformation fails; a worker that is done stays done. */
  function Step(t: Template, s: System, w: nat): (r: Option<System>)
    requires HasGenerators(t, s.states)
    ensures r.Some? ==> HasGenerators(t, r.value.states)
  {
    if w >= |s.workers| then Some(s)
    else
      var me := s.workers[w];
      match me.held
      case Some(record) =>
        (match t.transform(record)
         case None => None
         case Some(o) => Some(s.(workers := s.workers[w := Worker(me.left, None, me.records + [o])])))
      case None =>
        if me.left == 0 then Some(s)
        else match RawRecord(t, s.states)
          case None => None
          case Some((record, states)) =>
            Some(System(states, s.drawn + 1, s.workers[w := Worker(me.left - 1, Some(record), me.records)]))
  }

  function Run(t: Template, s: System, schedule: Schedule): (r: Option<System>)
    requires HasGenerators(t, s.states)
    ensures r.Some? ==> HasGenerators(t, r.value.states)
  {
    if schedule == [] then Some(s)
    else match Run(t, s, schedule[..|schedule| - 1])
      case None => None
      case Some(before) => Step(t, before, schedule[|schedule| - 1])
  }

  ghost predicate Finished(s: System) {
    forall w :: 0 <= w < |s.workers| ==> s.workers[w].left == 0 && s.workers[w].held.None?
  }

  /** What is written at the end: the workers' records in worker order. */
  function Written(workers: seq<Worker>): seq<string> {
    if workers == [] then [] else Written(workers[..|workers| - 1]) + workers[|workers| - 1].records
  }

  // --------------------------------------------------------- interleavings

  /** How often a worker has, or will have after its transformation, the record x. */
  function Owns(t: Template, me: Worker, x: string): nat {
    Count(me.records, x) + if me.held.Some? && t.transform(me.held.value) == Some(x) then 1 else 0
  }

  function OwnedBy(t: Template, workers: seq<Worker>, x: string): nat {
    if workers == [] then 0 else OwnedBy(t, workers[..|workers| - 1], x) + Owns(t, workers[|workers| - 1], x)
  }

  function Left(workers: seq<Worker>): nat {
    if workers == [] then 0 else Left(workers[..|workers| - 1]) + workers[|workers| - 1].left
  }

  lemma {:induction false} WorkerUpdate(t: Template, workers: seq<Worker>, w: nat, me: Worker, x: string)
    requires w < |workers|
    ensures OwnedBy(t, workers[w := me], x) + Owns(t, workers[w], x) == OwnedBy(t, workers, x) + Owns(t, me, x)
    ensures Left(workers[w := me]) + workers[w].left == Left(workers) + me.left
  {
    var front, last := workers[..|workers| - 1], workers[|workers| - 1];
    assert workers == front + [last];
    WorkerSnoc(t, front, last, x);
    if w < |front| {
      assert workers[w := me] == front[w := me] + [last];
      WorkerUpdate(t, front, w, me, x);
      WorkerSnoc(t, front[w := me], last, x);
    } else {
      assert workers[w := me] == front + [me];
      WorkerSnoc(t, front, me, x);
    }
  }

  lemma WorkerSnoc(t: Template, workers: seq<Worker>, last: Worker, x: string)
    ensures OwnedBy(t, workers + [last], x) == OwnedBy(t, workers, x) + Owns(t, last, x)
    ensures Left(workers + [last]) == Left(workers) + last.left
  {
    assert (workers + [last])[..|workers|] == workers;
  }

  /** The generators are where the serial generation has them after as many draws, and
      together the workers own exactly its records. */
  ghost predicate Holds(t: Template, states: States, count: nat, s: System)
    requires HasGenerators(t, states)
  {
    && s.drawn + Left(s.workers) == count
    && Serial(t, states, s.drawn).Some? && s.states == Serial(t, states, s.drawn).value.1
    && (forall x :: OwnedBy(t, s.workers, x) == Count(Serial(t, states, s.drawn).value.0, x))
    && (forall w :: 0 <= w < |s.workers| && s.workers[w].held.Some? ==> t.transform(s.workers[w].held.value).Some?)
  }

  lemma {:induction false} StartOwnsNothing(t: Template, states: States, count: nat, workers: nat, n: nat, x: string)
    requires workers > 0 && n <= workers
    ensures OwnedBy(t, Start(states, count, workers).workers[..n], x) == 0
    ensures Left(Start(states, count, workers).workers[..n]) == Shares(count, workers, n)
  {
    if n > 0 {
      var all := Start(states, count, workers).workers;
      assert all[..n][..n - 1] == all[..n - 1];
      StartOwnsNothing(t, states, count, workers, n - 1, x);
    }
  }

  lemma StartHolds(t: Template, states: States, count: nat, workers: nat)
    requires HasGenerators(t, states) && workers > 0
    ensures Holds(t, states, count, Start(states, count, workers))
  {
    var s := Start(states, count, workers);
    assert s.workers[..workers] == s.workers;
    SharesSum(count, workers);
    StartOwnsNothing(t, states, count, workers, workers, "");
    forall x
      ensures OwnedBy(t, s.workers, x) == 0
    {
      StartOwnsNothing(t, states, count, workers, workers, x);
    }
  }

  /** The next draw of a worker is the next record of the serial generation. */
  lemma DrawIsNext(t: Template, states: States, k: nat)
    requires HasGenerators(t, states) && Serial(t, states, k + 1).Some?
    ensures Serial(t, states, k).Some?
    ensures var (out, s) := Serial(t, states, k).value;
            var drawn := RawRecord(t, s);
            && drawn.Some? && t.transform(drawn.value.0).Some?
            && Serial(t, states, k + 1) == Some((out + [t.transform(drawn.value.0).value], drawn.value.1))
  {}

  lemma DrawKeeps(t: Template, states: States, count: nat, s: System, w: nat)
    requires HasGenerators(t, states) && Serial(t, states, count).Some? && Holds(t, states, count, s)
    requires w < |s.workers| && s.workers[w].held.None? && s.workers[w].left > 0 && s.drawn < count
    ensures HasGenerators(t, s.states)
    ensures var r := Step(t, s, w); r.Some? && Holds(t, states, count, r.value)
  {
    SerialPrefix(t, states, s.drawn + 1, count);
    DrawIsNext(t, states, s.drawn);
    var me, record := s.workers[w], RawRecord(t, s.states).value.0;
    WorkerUpdate(t, s.workers, w, Worker(me.left - 1, Some(record), me.records), "");
    forall x {
      DrawOwns(t, s.workers, w, record, Serial(t, states, s.drawn).value.0, x);
    }
  }

  lemma DrawOwns(t: Template, workers: seq<Worker>, w: nat, record: Record, serial: seq<string>, x: string)
    requires w < |workers| && workers[w].held.None? && workers[w].left > 0
    requires OwnedBy(t, workers, x) == Count(serial, x) && t.transform(record).Some?
    ensures var me := Worker(workers[w].left - 1, Some(record), workers[w].records);
            OwnedBy(t, workers[w := me], x) == Count(serial + [t.transform(record).value], x)
  {
    WorkerUpdate(t, workers, w, Worker(workers[w].left - 1, Some(record), workers[w].records), x);
    CountOfOneMore(serial, t.transform(record).value, x);
  }

  lemma CountOfOneMore(records: seq<string>, o: string, x: string)
    ensures Count(records + [o], x) == Count(records, x) + if o == x then 1 else 0
  {
    assert (records + [o])[..|records|] == records;
  }

  lemma TransformKeeps(t: Template, states: States, count: nat, s: System, w: nat)
    requires HasGenerators(t, states) && Holds(t, states, count, s)
    requires w < |s.workers| && s.workers[w].held.Some?
    ensures HasGenerators(t, s.states)
    ensures var r := Step(t, s, w); r.Some? && Holds(t, states, count, r.value)
  {
    TransformOwns(t, s.workers, w, "");
    forall x {
      TransformOwns(t, s.workers, w, x);
    }
  }

  lemma TransformOwns(t: Template, workers: seq<Worker>, w: nat, x: string)
    requires w < |workers| && workers[w].held.Some? && t.transform(workers[w].held.value).Some?
    ensures var after := workers[w := Transformed(t, workers[w])];
            OwnedBy(t, after, x) == OwnedBy(t, workers, x) && Left(after) == Left(workers)
  {
    WorkerUpdate(t, workers, w, Transformed(t, workers[w]), x);
    TransformedOwns(t, workers[w], x);
  }

  /** A worker after its transformation. */
  function Transformed(t: Template, me: Worker): Worker
    requires me.held.Some? && t.transform(me.held.value).Some?
  {
    Worker(me.left, None, me.records + [t.transform(me.held.value).value])
  }

  lemma TransformedOwns(t: Template, me: Worker, x: string)
    requires me.held.Some? && t.transform(me.held.value).Some?
    ensures Owns(t, Transformed(t, me), x) == Owns(t, me, x)
  {
    CountOfOneMore(me.records, t.transform(me.held.value).value, x);
  }

  lemma {:induction false} LeftIsPositive(workers: seq<Worker>, w: nat)
    requires w < |workers|
    ensures workers[w].left <= Left(workers)
  {
    if w < |workers| - 1 {
      LeftIsPositive(workers[..|workers| - 1], w);
    }
  }

  lemma StepKeeps(t: Template, states: States, count: nat, s: System, w: nat)
    requires HasGenerators(t, states) && Serial(t, states, count).Some? && Holds(t, states, count, s)
    ensures HasGenerators(t, s.states)
    ensures var r := Step(t, s, w); r.Some? && Holds(t, states, count, r.value) && |r.value.workers| == |s.workers|
  {
    if w < |s.workers| {
      LeftIsPositive(s.workers, w);
      if s.workers[w].held.Some? {
        TransformKeeps(t, states, count, s, w);
      } else if s.workers[w].left > 0 {
        DrawKeeps(t, states, count, s, w);
      }
    }
  }

  /** If the serial generation succeeds, every schedule succeeds and keeps the invariant. */
  lemma {:induction false} RunKeeps(t: Template, states: States, count: nat, workers: nat, schedule: Schedule)
    requires HasGenerators(t, states) && Serial(t, states, count).Some? && workers > 0
    ensures var r := Run(t, Start(states, count, workers), schedule);
            r.Some? && Holds(t, states, count, r.value) && |r.value.workers| == workers
  {
    if schedule == [] {
      StartHolds(t, states, count, workers);
    } else {
      RunKeeps(t, states, count, workers, schedule[..|schedule| - 1]);
      StepKeeps(t, states, count, Run(t, Start(states, count, workers), schedule[..|schedule| - 1]).value, schedule[|schedule| - 1]);
    }
  }

  lemma {:induction false} WrittenIsOwned(t: Template, workers: seq<Worker>, x: string)
    requires forall w :: 0 <= w < |workers| ==> workers[w].left == 0 && workers[w].held.None?
    ensures Count(Written(workers), x) == OwnedBy(t, workers, x) && Left(workers) == 0
  {
    if workers != [] {
      var front := workers[..|workers| - 1];
      WrittenIsOwned(t, front, x);
      CountOfSum(Written(front), workers[|workers| - 1].records, x);
    }
  }

  /** The records of the serial generation, each as often, and its final generator states. */
  ghost predicate SameAsSerial(t: Template, states: States, count: nat, written: seq<string>, after: States)
    requires HasGenerators(t, states) && Serial(t, states, count).Some?
  {
    var (records, final) := Serial(t, states, count).value;
    multiset(written) == multiset(records) && after == final
  }

  /** Whatever the schedule, the workers together produce the records of the serial
      generation, each as often, and leave the generators in the same states. */
  lemma InterleavingDoesNotMatter(t: Template, states: States, count: nat, workers: nat, schedule: Schedule)
    requires HasGenerators(t, states) && Serial(t, states, count).Some? && workers > 0
    ensures var r := Run(t, Start(states, count, workers), schedule);
            r.Some? && (Finished(r.value) ==> SameAsSerial(t, states, count, Written(r.value.workers), r.value.states))
  {
    RunKeeps(t, states, count, workers, schedule);
    var s := Run(t, Start(states, count, workers), schedule).value;
    if Finished(s) {
      FinishedIsSerial(t, states, count, s);
    }
  }

  lemma FinishedIsSerial(t: Template, states: States, count: nat, s: System)
    requires HasGenerators(t, states) && Serial(t, states, count).Some? && Holds(t, states, count, s) && Finished(s)
    ensures SameAsSerial(t, states, count, Written(s.workers), s.states)
  {
    var serial := Serial(t, states, count).value.0;
    WrittenIsOwned(t, s.workers, "");
    forall x
      ensures multiset(Written(s.workers))[x] == multiset(serial)[x]
    {
      WrittenIsOwned(t, s.workers, x);
      CountIsMultiplicity(Written(s.workers), x);
      CountIsMultiplicity(serial, x);
    }
  }

  /** The turns that are still needed. */
  ghost function TurnsLeft(s: System): nat {
    2 * Left(s.workers) + Holding(s.workers)
  }

  function Holding(workers: seq<Worker>): nat {
    if workers == [] then 0
    else Holding(workers[..|workers| - 1]) + if workers[|workers| - 1].held.Some? then 1 else 0
  }

  lemma {:induction false} HoldingUpdate(workers: seq<Worker>, w: nat, me: Worker)
    requires w < |workers|
    ensures Holding(workers[w := me]) + (if workers[w].held.Some? then 1 else 0)
              == Holding(workers) + (if me.held.Some? then 1 else 0)
  {
    var n := |workers| - 1;
    if w < n {
      assert workers[w := me][..n] == workers[..n][w := me];
      HoldingUpdate(workers[..n], w, me);
    } else {
      assert workers[w := me][..n] == workers[..n];
    }
  }

  /** Every turn of a worker that is not done brings the run nearer to its end. */
  lemma TurnsShrink(t: Template, states: States, count: nat, s: System, w: nat)
    requires HasGenerators(t, states) && Serial(t, states, count).Some? && Holds(t, states, count, s)
    requires w < |s.workers| && (s.workers[w].held.Some? || s.workers[w].left > 0)
    ensures HasGenerators(t, s.states) && Step(t, s, w).Some? && TurnsLeft(Step(t, s, w).value) < TurnsLeft(s)
  {
    StepKeeps(t, states, count, s, w);
    var next := Step(t, s, w).value;
    WorkerUpdate(t, s.workers, w, next.workers[w], "");
    HoldingUpdate(s.workers, w, next.workers[w]);
  }

  // --------------------------------------------------------- the engine's code

  class Engine {
    const template: Template
    var states: States

    constructor (template: Template, states: States)
      requires HasGenerators(template, states)
      ensures this.template == template && this.states == states
    {
      this.template, this.states := template, states;
    }

    method GenerateRawRecord() returns (r: Option<Record>)
      requires HasGenerators(template, states)
      modifies this
      ensures HasGenerators(template, states)
      ensures var spec := RawRecord(template, old(states));
              if spec.Some? then r == Some(spec.value.0) && states == spec.value.1 else r.None?
    {
      var record: Record := map[];
      for i := 0 to |template.fields|
        invariant HasGenerators(template, states)
        invariant Fill(template, old(states), i) == Some((record, states))
      {
        var f := template.fields[i];
        var drawn := template.generate(f.name, states[f.name], record);
        if drawn.None? {
          FillStops(template, old(states), i + 1, |template.fields|);
          return None;
        }
        states := states[f.name := drawn.value.1];
        record := Store(template, f, drawn.value.0, record);
      }
      if template.table != "" {
        record := record["$table" := template.table];
      }
      record := RemoveInternal(record);
      return Some(record);
    }

    /** Removes the fields that are not meant for the output. */
    method RemoveInternal(record: Record) returns (r: Record)
      ensures r == record - InternalNames(template.fields)
    {
      r := record;
      for i := 0 to |template.fields|
        invariant r == record - InternalNames(template.fields[..i])
      {
        assert template.fields[..i + 1][..i] == template.fields[..i];
        if template.fields[i].internal {
          r := r - {template.fields[i].name};
        }
      }
      assert template.fields[..|template.fields|] == template.fields;
    }

    /** The serial generation; the written records are those before the first failure. */
    method GenerateRecords(count: nat) returns (ok: bool, written: seq<string>)
      requires HasGenerators(template, states)
      modifies this
      ensures HasGenerators(template, states)
      ensures var spec := Serial(template, old(states), count);
              if spec.Some? then ok && written == spec.value.0 && states == spec.value.1 else !ok
    {
      written := [];
      for i := 0 to count
        invariant HasGenerators(template, states)
        invariant Serial(template, old(states), i) == Some((written, states))
      {
        if Serial(template, old(states), count).Some? {
          SerialPrefix(template, old(states), i + 1, count);
        }
        var record := GenerateRawRecord();
        if record.None? {
          return false, written;
        }
        var o := template.transform(record.value);
        if o.None? {
          return false, written;
        }
        written := written + [o.value];
      }
      return true, written;
    }

    /** The parallel generation under a schedule of the workers' turns: it fails if one of them
        fails, and otherwise writes the records of every worker in worker order. */
    method GenerateRecordsParallel(count: nat, workers: int, schedule: Schedule)
      returns (ok: bool, written: seq<string>, ghost finished: bool)
      requires HasGenerators(template, states)
      modifies this
      ensures Serial(template, old(states), count).Some? ==>
                && ok
                && (finished ==> SameAsSerial(template, old(states), count, written, states))
    {
      var pool := if workers <= 0 then 1 else workers;
      ghost var start := Start(states, count, pool);
      var s := Start(states, count, pool);
      if Serial(template, states, count).Some? {
        InterleavingDoesNotMatter(template, states, count, pool, schedule);
      }
      for i := 0 to |schedule|
        invariant HasGenerators(template, s.states) && Run(template, start, schedule[..i]) == Some(s)
        invariant states == old(states)
      {
        assert schedule[..i + 1][..i] == schedule[..i];
        var next := Step(template, s, schedule[i]);
        if next.None? {
          RunStops(template, start, schedule, i + 1);
          return false, [], false;
        }
        s := next.value;
      }
      assert schedule[..|schedule|] == schedule;
      finished := Finished(s);
      states := s.states;
      written := [];
      for w := 0 to |s.workers|
        invariant written == Written(s.workers[..w])
      {
        assert s.workers[..w + 1][..w] == s.workers[..w];
        written := written + s.workers[w].records;
      }
      assert s.workers[..|s.workers|] == s.workers;
      return true, written, finished;
    }
  }

  lemma {:induction false} RunStops(t: Template, s: System, schedule: Schedule, i: nat)
    requires HasGenerators(t, s.states) && i <= |schedule| && Run(t, s, schedule[..i]).None?
    ensures Run(t, s, schedule).None?
    decreases |schedule| - i
  {
    if i < |schedule| {
      assert schedule[..i + 1][..i] == schedule[..i];
      RunStops(t, s, schedule, i + 1);
    } else {
      assert schedule[..i] == schedule;
    }
  }

  lemma {:induction false} FillStops(t: Template, states: States, i: nat, n: nat)
    requires HasGenerators(t, states) && i <= n <= |t.fields| && Fill(t, states, i).None?
    ensures Fill(t, states, n).None?
  {
    if i < n {
      FillStops(t, states, i, n - 1);
    }
  }
}
