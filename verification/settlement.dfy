/** connector/worker.go: which messages of a batch are acknowledged, and how. */
module Settlement {
  import opened Common
  import opened Sink
  import opened Source
  import opened Tables
  import YamlParser

  /** A message with what Parse returned for it. */
  datatype Message = Message(sequence: nat, parsed: Result<YamlParser.ParseResult>)

  datatype ParseErrorAction = Drop | Fail

  /** Messages that are negatively acknowledged because they did not parse. */
  predicate ParseFailed(action: ParseErrorAction, m: Message) {
    m.parsed.Err? || (action == Fail && m.parsed.value.outcome != YamlParser.OutcomeOK)
  }

  /** Messages that are acknowledged without a row. */
  predicate Dropped(action: ParseErrorAction, m: Message) {
    !ParseFailed(action, m) && m.parsed.value.outcome == YamlParser.OutcomeUnusable
  }

  /** Messages that parsed to no table at all. */
  predicate WithoutRows(action: ParseErrorAction, m: Message) {
    !ParseFailed(action, m) && !Dropped(action, m) && m.parsed.value.tables == []
  }

  /** The tables a message contributes. */
  function TablesOf(action: ParseErrorAction, m: Message): seq<Table> {
    if ParseFailed(action, m) || Dropped(action, m) then [] else m.parsed.value.tables
  }

  function AllTables(action: ParseErrorAction, batch: seq<Message>): seq<Table> {
    if batch == [] then []
    else AllTables(action, batch[..|batch| - 1]) + TablesOf(action, batch[|batch| - 1])
  }

  function FailedSequences(action: ParseErrorAction, batch: seq<Message>): seq<nat> {
    if batch == [] then []
    else
      var m := batch[|batch| - 1];
      FailedSequences(action, batch[..|batch| - 1]) + if ParseFailed(action, m) then [m.sequence] else []
  }

  /** How many messages are dropped, and how many parsed to no table. */
  function DroppedIn(action: ParseErrorAction, batch: seq<Message>): nat {
    if batch == [] then 0
    else DroppedIn(action, batch[..|batch| - 1]) + if Dropped(action, batch[|batch| - 1]) then 1 else 0
  }

  function RowlessIn(action: ParseErrorAction, batch: seq<Message>): nat {
    if batch == [] then 0
    else RowlessIn(action, batch[..|batch| - 1]) + if WithoutRows(action, batch[|batch| - 1]) then 1 else 0
  }

  function Sequences(batch: seq<Message>): (s: seq<nat>)
    ensures |s| == |batch| && forall i :: 0 <= i < |batch| ==> s[i] == batch[i].sequence
  {
    seq(|batch|, i requires 0 <= i < |batch| => batch[i].sequence)
  }

  /** Everything that is not among the failed sequences, in batch order. */
  function Without(batch: seq<Message>, failed: seq<nat>): seq<nat> {
    if batch == [] then []
    else
      var m := batch[|batch| - 1];
      Without(batch[..|batch| - 1], failed) + if m.sequence in failed then [] else [m.sequence]
  }

  function ValidSequences(action: ParseErrorAction, batch: seq<Message>): seq<nat> {
    Without(batch, FailedSequences(action, batch))
  }

  // --------------------------------------------------------- who is settled how

  lemma {:induction false} FailedAndValid(action: ParseErrorAction, batch: seq<Message>, failed: seq<nat>, s: nat)
    ensures s in FailedSequences(action, batch) <==> exists m :: m in batch && ParseFailed(action, m) && m.sequence == s
    ensures s in Without(batch, failed) <==> s !in failed && s in Sequences(batch)
  {
    if batch != [] {
      var last := |batch| - 1;
      FailedAndValid(action, batch[..last], failed, s);
      assert batch == batch[..last] + [batch[last]];
      assert Sequences(batch) == Sequences(batch[..last]) + [batch[last].sequence];
    }
  }

  /** The failed and the valid sequences are sequences of the batch. */
  lemma SelectionsAreKnown(action: ParseErrorAction, batch: seq<Message>, s: nat)
    ensures s in FailedSequences(action, batch) ==> s in Sequences(batch)
    ensures s in ValidSequences(action, batch) ==> s in Sequences(batch)
  {
    FailedAndValid(action, batch, FailedSequences(action, batch), s);
    if m :| m in batch && m.sequence == s {
      var i :| 0 <= i < |batch| && batch[i] == m;
      assert Sequences(batch)[i] == s;
    }
  }

  /** Distinct sequences stay distinct when some are left out. */
  lemma {:induction false} SelectionsAreDistinct(action: ParseErrorAction, batch: seq<Message>, failed: seq<nat>)
    requires Distinct(Sequences(batch))
    ensures Distinct(FailedSequences(action, batch)) && Distinct(Without(batch, failed))
  {
    if batch != [] {
      var front, last := batch[..|batch| - 1], batch[|batch| - 1];
      assert Sequences(batch) == Sequences(front) + [last.sequence];
      SelectionsAreDistinct(action, front, failed);
      FailedAndValid(action, front, failed, last.sequence);
      assert last.sequence !in Sequences(front);
      SelectionsAreKnown(action, front, last.sequence);
    }
  }

  /** Which messages of a batch the two acknowledgement calls reach. */
  lemma Reached(action: ParseErrorAction, batch: seq<Message>, t: nat)
    ensures var infos := Sequences(batch);
            && (t in Targets(infos, FailedSequences(action, batch)) <==>
                  t < |batch| && LastIndex(infos, infos[t]) == Some(t) && infos[t] in FailedSequences(action, batch))
            && (t in Targets(infos, ValidSequences(action, batch)) <==>
                  t < |batch| && LastIndex(infos, infos[t]) == Some(t) && infos[t] !in FailedSequences(action, batch))
  {
    var infos, failed := Sequences(batch), FailedSequences(action, batch);
    TargetsReach(infos, failed, t);
    TargetsReach(infos, ValidSequences(action, batch), t);
    if t < |batch| {
      FailedAndValid(action, batch, failed, infos[t]);
    }
  }

  /** The two calls never settle one message twice, and together they settle every message
      of the batch exactly when no two messages carry the same sequence. */
  lemma SettledExactly(action: ParseErrorAction, batch: seq<Message>)
    ensures var infos := Sequences(batch);
            var failed, valid := Targets(infos, FailedSequences(action, batch)), Targets(infos, ValidSequences(action, batch));
            && (forall t :: !(t in failed && t in valid))
            && ((forall t: nat :: t < |batch| ==> t in failed || t in valid) <==> Distinct(infos))
  {
    var infos := Sequences(batch);
    forall t
      ensures !(t in Targets(infos, FailedSequences(action, batch)) && t in Targets(infos, ValidSequences(action, batch)))
    {
      Apart(action, batch, t);
    }
    forall t: nat
      ensures t in Targets(infos, FailedSequences(action, batch)) || t in Targets(infos, ValidSequences(action, batch))
              <==> t < |batch| && LastIndex(infos, infos[t]) == Some(t)
    {
      Reached(action, batch, t);
    }
    LastOfEach(infos);
  }

  /** Every message is the last one of its sequence exactly when no two share one. */
  lemma LastOfEach(infos: seq<nat>)
    ensures (forall t: nat :: t < |infos| ==> LastIndex(infos, infos[t]) == Some(t)) <==> Distinct(infos)
  {
    if !Distinct(infos) {
      var i, j :| 0 <= i < j < |infos| && infos[i] == infos[j];
      assert LastIndex(infos, infos[i]) != Some(i);
    }
  }

  lemma {:induction false} SequenceCounts(action: ParseErrorAction, batch: seq<Message>, failed: seq<nat>)
    requires forall m :: m in batch ==> (m.sequence in failed <==> ParseFailed(action, m))
    ensures |FailedSequences(action, batch)| + |Without(batch, failed)| == |batch|
  {
    if batch != [] {
      SequenceCounts(action, batch[..|batch| - 1], failed);
    }
  }

  /** With distinct sequences exactly the failed messages have a failed sequence. */
  lemma FailedByOutcome(action: ParseErrorAction, batch: seq<Message>, i: nat)
    requires Distinct(Sequences(batch)) && i < |batch|
    ensures batch[i].sequence in FailedSequences(action, batch) <==> ParseFailed(action, batch[i])
  {
    FailedAndValid(action, batch, [], batch[i].sequence);
    assert batch[i] in batch;
    if m :| m in batch && ParseFailed(action, m) && m.sequence == batch[i].sequence {
      var j :| 0 <= j < |batch| && batch[j] == m;
      assert Sequences(batch)[i] == Sequences(batch)[j];
    }
  }

  /** With distinct sequences every message is counted once, as failed or as valid. */
  lemma BatchIsPartitioned(action: ParseErrorAction, batch: seq<Message>)
    requires Distinct(Sequences(batch))
    ensures |FailedSequences(action, batch)| + |ValidSequences(action, batch)| == |batch|
  {
    var failed := FailedSequences(action, batch);
    forall m | m in batch
      ensures m.sequence in failed <==> ParseFailed(action, m)
    {
      var i :| 0 <= i < |batch| && batch[i] == m;
      FailedByOutcome(action, batch, i);
    }
    SequenceCounts(action, batch, failed);
  }

  /** With distinct sequences a message is reached by the failed ones exactly if it failed. */
  lemma ReachedByOutcome(action: ParseErrorAction, batch: seq<Message>, t: nat)
    requires Distinct(Sequences(batch)) && t < |batch|
    ensures t in Targets(Sequences(batch), FailedSequences(action, batch)) <==> ParseFailed(action, batch[t])
    ensures t in Targets(Sequences(batch), ValidSequences(action, batch)) <==> !ParseFailed(action, batch[t])
  {
    var infos := Sequences(batch);
    Reached(action, batch, t);
    FailedByOutcome(action, batch, t);
    LastOfEach(infos);
  }

  /** How a run of the two acknowledging calls leaves the messages: every message is settled
      once, by how it parsed after a write without error, and by a negative acknowledgement
      otherwise. */
  ghost predicate AllSettled(action: ParseErrorAction, batch: seq<Message>, acked: seq<nat>, nacked: seq<nat>, err: Option<Error>) {
    && Distinct(acked) && Distinct(nacked) && |acked| + |nacked| == |batch|
    && (forall t :: t in acked || t in nacked ==> t < |batch|)
    && forall t: nat :: t < |batch| ==>
         && (t in acked <==> err.None? && !ParseFailed(action, batch[t]))
         && (t in nacked <==> err.Some? || ParseFailed(action, batch[t]))
  }

  /** What the calls leave when callbacks may fail: nothing is settled twice, an acknowledged
      message parsed, and it is acknowledged only without a write error. */
  ghost predicate SettledOnce(action: ParseErrorAction, batch: seq<Message>, acked: seq<nat>, nacked: seq<nat>, err: Option<Error>) {
    && (acked != [] ==> err.None?)
    && (forall t :: t in acked ==> t < |batch| && !ParseFailed(action, batch[t]) && t !in nacked)
    && (Distinct(Sequences(batch)) ==> Distinct(acked) && Distinct(nacked))
  }

  /** The positions the worker settles, as its calls do: the failed sequences first, then the
      valid ones one way or the other. */
  ghost predicate SettlesAs(infos: seq<nat>, failed: seq<nat>, valid: seq<nat>, w: Callbacks, acked: seq<nat>, nacked: seq<nat>, err: Option<Error>) {
    && acked == (if err.None? then SettledBy(infos, valid, w.ackFails) else [])
    && nacked == SettledBy(infos, failed, w.nackFails) + if err.None? then [] else SettledBy(infos, valid, w.nackFails)
  }

  ghost predicate Settles(action: ParseErrorAction, batch: seq<Message>, w: Callbacks, acked: seq<nat>, nacked: seq<nat>, err: Option<Error>) {
    SettlesAs(Sequences(batch), FailedSequences(action, batch), ValidSequences(action, batch), w, acked, nacked, err)
  }

  /** Which callbacks of a batch report an error, by position. */
  datatype Callbacks = Callbacks(ackFails: nat -> bool, nackFails: nat -> bool) {
    ghost predicate NeverFail() {
      NeverFails(ackFails) && NeverFails(nackFails)
    }
  }

  lemma DistinctJoin(a: seq<nat>, b: seq<nat>)
    requires Distinct(a) && Distinct(b) && forall t :: !(t in a && t in b)
    ensures Distinct(a + b)
  {
    forall i, j | 0 <= i < j < |a + b|
      ensures (a + b)[i] != (a + b)[j]
    {
      if i < |a| <= j {
        assert a[i] in a && b[j - |a|] in b;
      }
    }
  }

  lemma PrefixIsDistinct(a: seq<nat>, n: nat)
    requires Distinct(a) && n <= |a|
    ensures Distinct(a[..n])
  {}

  lemma SettledTargetsDistinct(action: ParseErrorAction, batch: seq<Message>, fails: nat -> bool)
    requires Distinct(Sequences(batch))
    ensures Distinct(SettledBy(Sequences(batch), FailedSequences(action, batch), fails))
    ensures Distinct(SettledBy(Sequences(batch), ValidSequences(action, batch), fails))
  {
    var infos, failed, valid := Sequences(batch), FailedSequences(action, batch), ValidSequences(action, batch);
    SelectionsAreDistinct(action, batch, failed);
    TargetsAreDistinct(infos, failed);
    TargetsAreDistinct(infos, valid);
    PrefixIsDistinct(Targets(infos, failed), Settled(Targets(infos, failed), fails));
    PrefixIsDistinct(Targets(infos, valid), Settled(Targets(infos, valid), fails));
  }

  /** The failed and the valid sequences never reach the same message. */
  lemma Apart(action: ParseErrorAction, batch: seq<Message>, t: nat)
    ensures !(t in Targets(Sequences(batch), FailedSequences(action, batch))
              && t in Targets(Sequences(batch), ValidSequences(action, batch)))
  {
    Reached(action, batch, t);
  }

  lemma AckedParsed(action: ParseErrorAction, batch: seq<Message>, t: nat)
    requires t in Targets(Sequences(batch), ValidSequences(action, batch))
    ensures t < |batch| && !ParseFailed(action, batch[t])
  {
    Reached(action, batch, t);
    FailedAndValid(action, batch, [], batch[t].sequence);
    assert batch[t] in batch;
  }

  /** Whatever callbacks fail, nothing is settled twice. */
  lemma NeverSettledTwice(action: ParseErrorAction, batch: seq<Message>, w: Callbacks, acked: seq<nat>, nacked: seq<nat>, err: Option<Error>)
    requires Settles(action, batch, w, acked, nacked, err)
    ensures SettledOnce(action, batch, acked, nacked, err)
  {
    forall t | t in acked
      ensures t < |batch| && !ParseFailed(action, batch[t]) && t !in nacked
    {
      AckedParsed(action, batch, t);
      Apart(action, batch, t);
    }
    if Distinct(Sequences(batch)) {
      SettledDistinct(action, batch, w, acked, nacked, err);
    }
  }

  lemma SettledDistinct(action: ParseErrorAction, batch: seq<Message>, w: Callbacks, acked: seq<nat>, nacked: seq<nat>, err: Option<Error>)
    requires Distinct(Sequences(batch)) && Settles(action, batch, w, acked, nacked, err)
    ensures Distinct(acked) && Distinct(nacked)
  {
    var infos := Sequences(batch);
    SettledTargetsDistinct(action, batch, w.ackFails);
    SettledTargetsDistinct(action, batch, w.nackFails);
    var a, b := SettledBy(infos, FailedSequences(action, batch), w.nackFails), SettledBy(infos, ValidSequences(action, batch), w.nackFails);
    forall t
      ensures !(t in a && t in b)
    {
      if t in a && t in b {
        Apart(action, batch, t);
      }
    }
    DistinctJoin(a, b);
    assert a + [] == a;
  }

  /** With distinct sequences, callbacks without errors settle the whole batch. */
  lemma WholeBatchSettled(action: ParseErrorAction, batch: seq<Message>, w: Callbacks, acked: seq<nat>, nacked: seq<nat>, err: Option<Error>)
    requires Distinct(Sequences(batch)) && w.NeverFail() && Settles(action, batch, w, acked, nacked, err)
    ensures AllSettled(action, batch, acked, nacked, err)
  {
    var infos := Sequences(batch);
    var failed, valid := Targets(infos, FailedSequences(action, batch)), Targets(infos, ValidSequences(action, batch));
    assert acked == if err.None? then valid else [];
    assert nacked == failed + if err.None? then [] else valid;
    SettledDistinct(action, batch, w, acked, nacked, err);
    forall t: nat | t < |batch|
      ensures t in acked <==> err.None? && !ParseFailed(action, batch[t])
      ensures t in nacked <==> err.Some? || ParseFailed(action, batch[t])
    {
      ReachedByOutcome(action, batch, t);
    }
    EachReachedOnce(action, batch);
  }

  lemma {:induction false} TargetsOfKnown(infos: seq<nat>, sequences: seq<nat>)
    requires forall s :: s in sequences ==> s in infos
    ensures |Targets(infos, sequences)| == |sequences|
  {
    if sequences != [] {
      var front := sequences[..|sequences| - 1];
      assert sequences == front + [sequences[|sequences| - 1]];
      TargetsOfKnown(infos, front);
      TargetsSnoc(infos, front, sequences[|sequences| - 1]);
    }
  }

  /** The two calls reach as many messages as there are. */
  lemma EachReachedOnce(action: ParseErrorAction, batch: seq<Message>)
    requires Distinct(Sequences(batch))
    ensures |Targets(Sequences(batch), FailedSequences(action, batch))| + |Targets(Sequences(batch), ValidSequences(action, batch))| == |batch|
  {
    var infos, failed, valid := Sequences(batch), FailedSequences(action, batch), ValidSequences(action, batch);
    forall s
      ensures s in failed ==> s in infos
      ensures s in valid ==> s in infos
    {
      SelectionsAreKnown(action, batch, s);
    }
    TargetsOfKnown(infos, failed);
    TargetsOfKnown(infos, valid);
    BatchIsPartitioned(action, batch);
  }
}
