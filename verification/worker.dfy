/** connector/worker.go: one batch from parsing to acknowledgement. */
module Worker {
  import opened Common
  import opened Explode
  import opened Resilience
  import opened Settlement
  import opened Sink
  import opened Source
  import opened Tables
  import RowFilter
  import YamlParser

  /** A message as fetched: data is None for a nil message, now the clock when it is parsed. */
  datatype RawMessage = RawMessage(sequence: nat, data: Option<seq<int>>, now: int)

  /** What Parse returns for a message. */
  ghost function Classify(x: Library, p: YamlParser.Parser, raw: RawMessage): Message
    requires YamlParser.Consistent(p)
  {
    Message(raw.sequence, if raw.data.None? then Err("nil message") else Ok(YamlParser.Parsed(x, p, raw.data.value, raw.now)))
  }

  ghost function Classified(x: Library, p: YamlParser.Parser, raws: seq<RawMessage>): (batch: seq<Message>)
    requires YamlParser.Consistent(p)
    ensures |batch| == |raws| && forall i :: 0 <= i < |raws| ==> batch[i] == Classify(x, p, raws[i])
  {
    seq(|raws|, i requires 0 <= i < |raws| => Classify(x, p, raws[i]))
  }

  /** One turn of the parsing loop. */
  lemma NextParsed(action: ParseErrorAction, batch: seq<Message>, k: nat)
    requires k < |batch|
    ensures AllTables(action, batch[..k + 1]) == AllTables(action, batch[..k]) + TablesOf(action, batch[k])
    ensures FailedSequences(action, batch[..k + 1]) == FailedSequences(action, batch[..k])
                                                      + if ParseFailed(action, batch[k]) then [batch[k].sequence] else []
    ensures DroppedIn(action, batch[..k + 1]) == DroppedIn(action, batch[..k]) + if Dropped(action, batch[k]) then 1 else 0
    ensures RowlessIn(action, batch[..k + 1]) == RowlessIn(action, batch[..k]) + if WithoutRows(action, batch[k]) then 1 else 0
  {
    assert batch[..k + 1][..k] == batch[..k];
  }

  // --------------------------------------------------------- rows

  /** Tables that the filter can be applied to as a whole. */
  ghost predicate Sound(f: Option<RowFilter.RowFilter>, tables: seq<Table>) {
    && AllShaped(tables)
    && (f.Some? ==> forall k :: 0 <= k < |tables| ==> RowFilter.LooksAtConstants(f.value, tables[k]))
  }

  /** The rows of some tables that pass the filter, each row judged by itself. */
  ghost function FilteredRows(f: Option<RowFilter.RowFilter>, tables: seq<Table>): multiset<Table>
    requires AllShaped(tables)
  {
    multiset(RowFilter.Kept(f, AllRows(tables)))
  }

  lemma FilteredRowsJoin(f: Option<RowFilter.RowFilter>, a: seq<Table>, b: seq<Table>)
    requires Sound(f, a) && Sound(f, b)
    ensures Sound(f, a + b) && FilteredRows(f, a + b) == FilteredRows(f, a) + FilteredRows(f, b)
  {
    AllRowsDistribute(a, b);
    RowFilter.KeptDistributes(f, AllRows(a), AllRows(b));
  }

  /** Filtering whole tables keeps the rows that pass one by one. */
  lemma FilterThenSplit(f: Option<RowFilter.RowFilter>, tables: seq<Table>)
    requires Sound(f, tables)
    ensures AllShaped(RowFilter.Kept(f, tables)) && RowsOf(RowFilter.Kept(f, tables)) == FilteredRows(f, tables)
  {
    if f.Some? {
      RowFilter.RowZeroIsExact(f.value, tables);
    }
  }

  ghost predicate SoundBatch(f: Option<RowFilter.RowFilter>, batch: seq<Message>) {
    forall i :: 0 <= i < |batch| && batch[i].parsed.Ok? ==> Sound(f, batch[i].parsed.value.tables)
  }

  /** The rows of a batch that pass the filter, message by message. */
  ghost function BatchRows(action: ParseErrorAction, f: Option<RowFilter.RowFilter>, batch: seq<Message>): multiset<Table>
    requires SoundBatch(f, batch)
  {
    if batch == [] then multiset{}
    else
      assert batch[|batch| - 1].parsed.Ok? ==> Sound(f, batch[|batch| - 1].parsed.value.tables);
      BatchRows(action, f, batch[..|batch| - 1]) + FilteredRows(f, TablesOf(action, batch[|batch| - 1]))
  }

  /** Filtering the batch's tables together or row by row and message by message is the same. */
  lemma {:induction false} SurvivorsAreKept(action: ParseErrorAction, f: Option<RowFilter.RowFilter>, batch: seq<Message>)
    requires SoundBatch(f, batch)
    ensures Sound(f, AllTables(action, batch)) && FilteredRows(f, AllTables(action, batch)) == BatchRows(action, f, batch)
  {
    if batch != [] {
      var front, last := batch[..|batch| - 1], batch[|batch| - 1];
      SurvivorsAreKept(action, f, front);
      assert last == batch[|batch| - 1];
      FilteredRowsJoin(f, AllTables(action, front), TablesOf(action, last));
    }
  }

  lemma {:induction false} MessageSurvivesInBatch(action: ParseErrorAction, f: Option<RowFilter.RowFilter>, batch: seq<Message>, i: nat)
    requires SoundBatch(f, batch) && i < |batch|
    ensures Sound(f, TablesOf(action, batch[i])) && FilteredRows(f, TablesOf(action, batch[i])) <= BatchRows(action, f, batch)
  {
    if i < |batch| - 1 {
      MessageSurvivesInBatch(action, f, batch[..|batch| - 1], i);
    }
  }

  lemma ParsedTablesAreSound(x: Library, p: YamlParser.Parser, data: seq<int>, now: int)
    requires YamlParser.Ready(p)
    ensures Sound(p.rowFilter, YamlParser.Parsed(x, p, data, now).tables)
  {
    var tables := YamlParser.Parsed(x, p, data, now).tables;
    forall k | 0 <= k < |tables|
      ensures tables[k].Shaped(|tables[k].index|)
      ensures p.rowFilter.Some? ==> RowFilter.LooksAtConstants(p.rowFilter.value, tables[k])
    {
      assert tables[k] in tables;
      YamlParser.FilteredColumnsAreConstant(x, p, tables[k]);
    }
  }

  lemma ClassifiedIsSound(x: Library, p: YamlParser.Parser, raws: seq<RawMessage>)
    requires YamlParser.Ready(p)
    ensures SoundBatch(p.rowFilter, Classified(x, p, raws))
  {
    forall i | 0 <= i < |raws| && raws[i].data.Some?
      ensures Sound(p.rowFilter, Classify(x, p, raws[i]).parsed.value.tables)
    {
      ParsedTablesAreSound(x, p, raws[i].data.value, raws[i].now);
    }
  }

  /** The rows that a message stands for: those of the table its bytes describe that pass the filter. */
  ghost function RowsOfMessage(x: Library, p: YamlParser.Parser, raw: RawMessage): multiset<Table>
    requires YamlParser.Ready(p)
  {
    if raw.data.None? then multiset{}
    else
      ParsedTablesAreSound(x, p, raw.data.value, raw.now);
      FilteredRows(p.rowFilter, YamlParser.Parsed(x, p, raw.data.value, raw.now).tables)
  }

  /** A message that did not fail to parse has all its rows among the batch's. */
  lemma AcceptedRowsAreInBatch(x: Library, p: YamlParser.Parser, action: ParseErrorAction, raws: seq<RawMessage>, t: nat)
    requires YamlParser.Ready(p) && t < |raws| && !ParseFailed(action, Classified(x, p, raws)[t])
    ensures SoundBatch(p.rowFilter, Classified(x, p, raws))
    ensures RowsOfMessage(x, p, raws[t]) <= BatchRows(action, p.rowFilter, Classified(x, p, raws))
  {
    var batch := Classified(x, p, raws);
    ClassifiedIsSound(x, p, raws);
    MessageSurvivesInBatch(action, p.rowFilter, batch, t);
    assert batch[t] == Classify(x, p, raws[t]);
    YamlParser.ParsedIsShaped(x, p, raws[t].data.value, raws[t].now);
  }

  lemma {:induction false} RowCountIsSize(tables: seq<Table>)
    requires AllShaped(tables)
    ensures |AllRows(tables)| == RowCount(tables)
  {
    if tables != [] {
      RowCountIsSize(tables[..|tables| - 1]);
    }
  }

  lemma SplitRowCount(tables: seq<Table>)
    requires AllShaped(tables)
    ensures RowCount(tables) == |RowsOf(tables)|
  {
    RowCountIsSize(tables);
  }

  /** qdb.MergeWriterTables: it fails, or returns well-shaped tables with the same rows under
      the same names. Both are treated as given. */
  ghost predicate MergePreserves(merge: seq<Table> -> Option<seq<Table>>) {
    forall ts {:trigger merge(ts)} :: AllShaped(ts) && merge(ts).Some? ==>
      && AllShaped(merge(ts).value) && RowsOf(merge(ts).value) == RowsOf(ts)
      && (merge(ts).value == [] <==> ts == [])
  }

  // --------------------------------------------------------- the worker

  /** What the surroundings do while one batch is processed. */
  datatype World = World(
    merge: seq<Table> -> Option<seq<Table>>,
    admittedAt: int, admissionDraw: int, recordedAt: int, recordDraw: int,
    script: Script, callbacks: Callbacks)

  class Worker {
    const x: Library
    const p: YamlParser.Parser
    const action: ParseErrorAction
    const sink: Sink
    const breaker: CircuitBreaker
    var closing: bool
    var messagesProcessed: nat
    var parseFailures: nat
    var writeFailures: nat
    var messagesDropped: nat
    var parsesZeroRows: nat
    var rowsWritten: nat
    var acks: nat
    var nacks: nat

    constructor (x: Library, p: YamlParser.Parser, action: ParseErrorAction, sink: Sink, breaker: CircuitBreaker)
      ensures this.x == x && this.p == p && this.action == action && this.sink == sink && this.breaker == breaker
      ensures !closing && messagesProcessed == parseFailures == writeFailures == messagesDropped == 0
      ensures parsesZeroRows == rowsWritten == acks == nacks == 0
    {
      this.x, this.p, this.action, this.sink, this.breaker, closing := x, p, action, sink, breaker, false;
      messagesProcessed, parseFailures, writeFailures, messagesDropped := 0, 0, 0, 0;
      parsesZeroRows, rowsWritten, acks, nacks := 0, 0, 0, 0;
    }

    /** Parses every message and applies the parse-error action to its classification. */
    method ParseMessages(raws: seq<RawMessage>) returns (tables: seq<Table>, failed: seq<nat>)
      requires YamlParser.Consistent(p)
      modifies this`parseFailures, this`messagesDropped, this`parsesZeroRows
      ensures var batch := Classified(x, p, raws);
              && tables == AllTables(action, batch) && failed == FailedSequences(action, batch)
              && parseFailures == old(parseFailures) + |failed|
              && messagesDropped == old(messagesDropped) + DroppedIn(action, batch)
              && parsesZeroRows == old(parsesZeroRows) + RowlessIn(action, batch)
    {
      ghost var batch := Classified(x, p, raws);
      tables, failed := [], [];
      for k := 0 to |raws|
        invariant tables == AllTables(action, batch[..k]) && failed == FailedSequences(action, batch[..k])
        invariant parseFailures == old(parseFailures) + |failed|
        invariant messagesDropped == old(messagesDropped) + DroppedIn(action, batch[..k])
        invariant parsesZeroRows == old(parsesZeroRows) + RowlessIn(action, batch[..k])
      {
        NextParsed(action, batch, k);
        var parsed := YamlParser.Parse(x, p, raws[k].data, raws[k].now);
        assert batch[k] == Message(raws[k].sequence, parsed);
        if parsed.Err? || (action == Fail && parsed.value.outcome != YamlParser.OutcomeOK) {
          failed := failed + [raws[k].sequence];
          parseFailures := parseFailures + 1;
        } else if parsed.value.outcome == YamlParser.OutcomeUnusable {
          messagesDropped := messagesDropped + 1;
        } else {
          if |parsed.value.tables| == 0 {
            parsesZeroRows := parsesZeroRows + 1;
          }
          tables := tables + parsed.value.tables;
        }
      }
      assert batch[..|raws|] == batch;
    }

    method SelectValid(raws: seq<RawMessage>, failed: seq<nat>) returns (valid: seq<nat>)
      requires YamlParser.Consistent(p)
      ensures valid == Without(Classified(x, p, raws), failed)
    {
      ghost var batch := Classified(x, p, raws);
      valid := [];
      for k := 0 to |raws|
        invariant valid == Without(batch[..k], failed)
      {
        assert batch[..k + 1][..k] == batch[..k];
        assert batch[k].sequence == raws[k].sequence;
        if raws[k].sequence !in failed {
          valid := valid + [raws[k].sequence];
        }
      }
      assert batch[..|raws|] == batch;
    }

    /** Execute: admission, the write, and the recorded result. */
    method WriteThroughBreaker(tables: seq<Table>, w: World) returns (err: Option<Error>)
      requires AllShaped(tables)
      requires breaker.config.DrawOk(w.admissionDraw) && breaker.config.DrawOk(w.recordDraw)
      modifies breaker, sink`stored
      ensures var (begun, admitted) := old(breaker.View()).Begin(breaker.config, w.admittedAt, w.admissionDraw);
              if !admitted then err == Some(BreakerOpen) && breaker.View() == begun
              else && err == WriteOutcome(sink.closed, sink.attempts, w.script, tables).err
                   && breaker.View() == begun.Finish(breaker.config, err.Some? && err.value.IsClusterUnavailable(), w.recordedAt, w.recordDraw)
      ensures err != Some(MergeFailed)
      ensures sink.stored == old(sink.stored) + if err.None? && sink.attempts > 0 then RowsOf(tables) else multiset{}
    {
      var admitted := breaker.CanProceed(w.admittedAt, w.admissionDraw);
      if !admitted {
        return Some(BreakerOpen);
      }
      var trace;
      err, trace := sink.Write(w.script, tables);
      breaker.RecordResult(err.Some? && err.value.IsClusterUnavailable(), w.recordedAt, w.recordDraw);
    }

    /** Negatively acknowledges the sequences and counts them if every callback succeeded. */
    method Nack(d: Delivery, sequences: seq<nat>, w: World)
      modifies this`nacks, d`nacked
      ensures d.nacked == old(d.nacked) + SettledBy(d.infos, sequences, w.callbacks.nackFails)
      ensures nacks == old(nacks) + if AllSucceed(d.infos, sequences, w.callbacks.nackFails) then |sequences| else 0
    {
      var ok := d.NackMessages(sequences, w.callbacks.nackFails);
      if ok {
        nacks := nacks + |sequences|;
      }
    }

    method HandleWriteFailure(d: Delivery, valid: seq<nat>, w: World)
      modifies this`writeFailures, this`nacks, d`nacked
      ensures writeFailures == old(writeFailures) + 1
      ensures d.nacked == old(d.nacked) + SettledBy(d.infos, valid, w.callbacks.nackFails)
      ensures nacks == old(nacks) + if AllSucceed(d.infos, valid, w.callbacks.nackFails) then |valid| else 0
    {
      writeFailures := writeFailures + 1;
      Nack(d, valid, w);
    }

    method AcknowledgeValid(d: Delivery, valid: seq<nat>, w: World)
      modifies this`acks, d`acked
      ensures d.acked == old(d.acked) + SettledBy(d.infos, valid, w.callbacks.ackFails)
      ensures acks == old(acks) + if AllSucceed(d.infos, valid, w.callbacks.ackFails) then |valid| else 0
    {
      if |valid| == 0 {
        return;
      }
      var ok := d.AckMessages(valid, w.callbacks.ackFails);
      if ok {
        acks := acks + |valid|;
      }
    }

    /** Merges the surviving tables; None when the merge fails. */
    method Merge(tables: seq<Table>, w: World) returns (merged: Option<seq<Table>>)
      requires AllShaped(tables) && MergePreserves(w.merge)
      ensures merged.Some? ==> AllShaped(merged.value) && RowsOf(merged.value) == RowsOf(tables)
      ensures merged.None? <==> tables != [] && w.merge(tables).None?
    {
      merged := if |tables| > 0 then w.merge(tables) else Some(tables);
    }

    /** Writes the merged tables, unless nothing is left to write. */
    method WriteSurvivors(tables: seq<Table>, w: World) returns (err: Option<Error>)
      requires AllShaped(tables)
      requires breaker.config.DrawOk(w.admissionDraw) && breaker.config.DrawOk(w.recordDraw)
      modifies this`rowsWritten, breaker, sink`stored
      ensures err != Some(MergeFailed)
      ensures sink.stored == old(sink.stored) + if err.None? && sink.attempts > 0 then RowsOf(tables) else multiset{}
      ensures rowsWritten == old(rowsWritten) + if err.None? then |RowsOf(tables)| else 0
    {
      err := None;
      if |tables| > 0 {
        err := WriteThroughBreaker(tables, w);
        if err.None? {
          SplitRowCount(tables);
          rowsWritten := rowsWritten + RowCount(tables);
        }
      }
    }

    /** Once the tables are merged: what is stored, and the positions that are settled. */
    method WriteAndSettle(tables: seq<Table>, failed: seq<nat>, valid: seq<nat>, d: Delivery, w: World)
      returns (err: Option<Error>)
      requires AllShaped(tables)
      requires d.acked == [] && d.nacked == []
      requires breaker.config.DrawOk(w.admissionDraw) && breaker.config.DrawOk(w.recordDraw)
      modifies this`messagesProcessed, this`writeFailures, this`rowsWritten, this`acks, this`nacks
      modifies breaker, sink`stored, d
      ensures err != Some(MergeFailed)
      ensures SettlesAs(d.infos, failed, valid, w.callbacks, d.acked, d.nacked, err)
      ensures sink.stored == old(sink.stored) + if err.None? && sink.attempts > 0 then RowsOf(tables) else multiset{}
      ensures rowsWritten == old(rowsWritten) + if err.None? then |RowsOf(tables)| else 0
      ensures messagesProcessed == old(messagesProcessed) + |valid|
      ensures writeFailures == old(writeFailures) + if err.None? then 0 else 1
      ensures w.callbacks.NeverFail() ==>
                && acks == old(acks) + (if err.None? then |valid| else 0)
                && nacks == old(nacks) + |failed| + if err.None? then 0 else |valid|
    {
      if |failed| > 0 {
        Nack(d, failed, w);
      }
      messagesProcessed := messagesProcessed + |valid|;
      err := WriteSurvivors(tables, w);
      assert d.nacked == SettledBy(d.infos, failed, w.callbacks.nackFails);
      if err.Some? {
        HandleWriteFailure(d, valid, w);
      } else {
        AcknowledgeValid(d, valid, w);
      }
    }

    /** The batch as parsed, and its rows that pass the filter. */
    ghost function Batch(raws: seq<RawMessage>): seq<Message>
      requires YamlParser.Consistent(p)
    {
      Classified(x, p, raws)
    }

    ghost function RowsOfBatch(raws: seq<RawMessage>): multiset<Table>
      requires YamlParser.Ready(p)
    {
      ClassifiedIsSound(x, p, raws);
      BatchRows(action, p.rowFilter, Classified(x, p, raws))
    }

    /** The messages at these positions have all their filtered rows stored. */
    ghost predicate RowsStored(raws: seq<RawMessage>, ts: seq<nat>, stored: multiset<Table>)
      requires YamlParser.Ready(p)
    {
      forall t :: t in ts ==> t < |raws| && RowsOfMessage(x, p, raws[t]) <= stored
    }

    lemma AcceptedRowsAreStored(raws: seq<RawMessage>, ts: seq<nat>, before: multiset<Table>)
      requires YamlParser.Ready(p)
      requires forall t :: t in ts ==> t < |raws| && !ParseFailed(action, Batch(raws)[t])
      ensures RowsStored(raws, ts, before + RowsOfBatch(raws))
    {
      forall t | t in ts
        ensures RowsOfMessage(x, p, raws[t]) <= RowsOfBatch(raws)
      {
        AcceptedRowsAreInBatch(x, p, action, raws, t);
      }
    }

    /** Steps 2 and 2.1: parses the batch and filters its tables by their first rows. */
    method ParseAndFilter(raws: seq<RawMessage>) returns (kept: seq<Table>, failed: seq<nat>)
      requires YamlParser.Ready(p)
      modifies this`parseFailures, this`messagesDropped, this`parsesZeroRows
      ensures AllShaped(kept) && RowsOf(kept) == RowsOfBatch(raws)
      ensures failed == FailedSequences(action, Batch(raws)) && parseFailures == old(parseFailures) + |failed|
    {
      var tables;
      tables, failed := ParseMessages(raws);
      kept := RowFilter.Apply(p.rowFilter, tables);
      ClassifiedIsSound(x, p, raws);
      SurvivorsAreKept(action, p.rowFilter, Classified(x, p, raws));
      FilterThenSplit(p.rowFilter, tables);
    }

    /** Steps 2.5 to 6: merges the kept tables, then writes them and settles the messages. */
    method MergeAndSettle(raws: seq<RawMessage>, kept: seq<Table>, failed: seq<nat>, d: Delivery, w: World) returns (err: Option<Error>)
      requires YamlParser.Consistent(p) && AllShaped(kept) && MergePreserves(w.merge)
      requires d.acked == [] && d.nacked == []
      requires breaker.config.DrawOk(w.admissionDraw) && breaker.config.DrawOk(w.recordDraw)
      modifies this`messagesProcessed, this`writeFailures, this`rowsWritten, this`acks, this`nacks
      modifies breaker, sink`stored, d
      ensures var valid := Without(Batch(raws), failed);
              if err == Some(MergeFailed) then d.acked == [] && d.nacked == [] && messagesProcessed == old(messagesProcessed)
              else && SettlesAs(d.infos, failed, valid, w.callbacks, d.acked, d.nacked, err)
                   && messagesProcessed == old(messagesProcessed) + |valid|
                   && (w.callbacks.NeverFail() ==> acks + nacks == old(acks) + old(nacks) + |failed| + |valid|)
      ensures sink.stored == old(sink.stored) + if err.None? && sink.attempts > 0 then RowsOf(kept) else multiset{}
      ensures rowsWritten == old(rowsWritten) + if err.None? then |RowsOf(kept)| else 0
    {
      var merged := Merge(kept, w);
      if merged.None? {
        return Some(MergeFailed);
      }
      var valid := SelectValid(raws, failed);
      err := WriteAndSettle(merged.value, failed, valid, d, w);
    }

    /** Steps 2 to 6 for a batch that has messages. */
    method ProcessMessages(raws: seq<RawMessage>, d: Delivery, w: World) returns (err: Option<Error>)
      requires YamlParser.Ready(p) && MergePreserves(w.merge)
      requires d.infos == Sequences(Batch(raws)) && d.acked == [] && d.nacked == []
      requires breaker.config.DrawOk(w.admissionDraw) && breaker.config.DrawOk(w.recordDraw)
      modifies this, breaker, sink`stored, d
      ensures closing == old(closing)
      ensures var batch := Batch(raws);
              var failed, valid := FailedSequences(action, batch), ValidSequences(action, batch);
              && parseFailures == old(parseFailures) + |failed|
              && if err == Some(MergeFailed) then d.acked == [] && d.nacked == [] && messagesProcessed == old(messagesProcessed)
                 else && Settles(action, batch, w.callbacks, d.acked, d.nacked, err)
                      && messagesProcessed == old(messagesProcessed) + |valid|
                      && (w.callbacks.NeverFail() ==> acks + nacks == old(acks) + old(nacks) + |failed| + |valid|)
      ensures sink.stored == old(sink.stored) + if err.None? && sink.attempts > 0 then RowsOfBatch(raws) else multiset{}
      ensures rowsWritten == old(rowsWritten) + if err.None? then |RowsOfBatch(raws)| else 0
    {
      var kept, failed := ParseAndFilter(raws);
      err := MergeAndSettle(raws, kept, failed, d, w);
    }

    /** One batch under the breaker, the retry ladder and the source's callbacks. */
    method ProcessBatch(raws: seq<RawMessage>, d: Delivery, w: World) returns (err: Option<Error>)
      requires YamlParser.Ready(p) && MergePreserves(w.merge)
      requires d.infos == Sequences(Batch(raws)) && d.acked == [] && d.nacked == []
      requires breaker.config.DrawOk(w.admissionDraw) && breaker.config.DrawOk(w.recordDraw)
      modifies this, breaker, sink`stored, d
      // Nothing is settled by a closing worker, for an empty batch, or when the merge fails.
      ensures old(closing) || raws == [] || err == Some(MergeFailed) ==>
                d.acked == [] && d.nacked == [] && sink.stored == old(sink.stored)
      // The batch's filtered rows are stored exactly by a write without error.
      ensures !old(closing) ==>
                sink.stored == old(sink.stored)
                  + if err.None? && sink.attempts > 0 then RowsOfBatch(raws) else multiset{}
      ensures rowsWritten == old(rowsWritten) + if !old(closing) && err.None? then |RowsOfBatch(raws)| else 0
      // Nothing is settled twice, and an acknowledged message parsed: if the sink makes an
      // attempt at all, the filtered rows of its table are stored.
      ensures SettledOnce(action, Batch(raws), d.acked, d.nacked, err)
      ensures sink.attempts > 0 ==> RowsStored(raws, d.acked, sink.stored)
      // Past the merge, callbacks without errors settle the whole batch and count every message once.
      ensures !old(closing) && err != Some(MergeFailed) && Distinct(d.infos) && w.callbacks.NeverFail() ==>
                && AllSettled(action, Batch(raws), d.acked, d.nacked, err)
                && acks + nacks == old(acks) + old(nacks) + |raws|
                && messagesProcessed + parseFailures == old(messagesProcessed) + old(parseFailures) + |raws|
    {
      err := None;
      if closing || |raws| == 0 {
        return;
      }
      err := ProcessMessages(raws, d, w);
      ghost var batch := Batch(raws);
      if err != Some(MergeFailed) {
        NeverSettledTwice(action, batch, w.callbacks, d.acked, d.nacked, err);
        if err.None? && sink.attempts > 0 {
          AcceptedRowsAreStored(raws, d.acked, old(sink.stored));
        }
        if Distinct(d.infos) {
          BatchIsPartitioned(action, batch);
          if w.callbacks.NeverFail() {
            WholeBatchSettled(action, batch, w.callbacks, d.acked, d.nacked, err);
          }
        }
      }
    }
  }
}
