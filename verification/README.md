# Verification of the NATS to QuasarDB connector and its tools

A Dafny model of the parts of the repository whose correctness is not visible in one
function: state machines under a lock, acknowledgement across components, a configuration
compiler and the tables it promises, index arithmetic, and pipelines of goroutines.
`dafny verify dfyconfig.toml` checks everything.

| file | models |
|---|---|
| `common.dfy` | optional values, results, int64 wrap-around, multiplicities |
| `circuit_breaker.dfy`, `breaker_protocol.dfy` | the circuit breaker as a class under its mutex, and as a protocol over every interleaving of requests |
| `source.dfy`, `sink.dfy`, `settlement.dfy`, `worker.dfy` | acknowledgement by sequence, the retry ladder, who is settled how, and one batch from its bytes to stored rows and acknowledgements |
| `liveness.dfy`, `fetching.dfy` | probes and health conditions, the fetch loop, its re-bind ladder and the error channel |
| `tables.dfy`, `explode.dfy`, `row_filter.dfy`, `yaml_parser.dfy`, `unpack.dfy` | writer tables, the configuration compiler, the table builders, the row filter, packed arrays |
| `window.dfy`, `lag.dfy` | the ring of per-minute counters against the log it summarises, quantiles from histogram differences |
| `pattern_iterator.dfy`, `generating.dfy`, `rate_limiter.dfy` | the mixed-radix iterator, serial and parallel record generation, the token bucket |
| `batching.dfy`, `publishing.dfy` | the loader's batchers and its pool of publishing workers as one protocol |

Code that changes fields or arrays step by step is a class or a method with loops, proved
against a value-level function (`View`, `Step`, `Handle`, `Serial`, ...) about which the
lemmas speak. Goroutines are modelled as systems whose steps are the sections they run
atomically; a run is any sequence of steps. What a component meets (a push outcome, a clock
reading, a cancellation, a callback error) is a parameter, so every behaviour is covered.

Assumptions, all visible as preconditions or as functions passed in:

* Configurations are those `connector/options.go` accepts. The breaker timeout is below 146
  years and retry delays below 2^62 ns, so that adding jitter or doubling stays in int64.
* `qdb.MergeWriterTables` keeps the rows (as one-row tables, with name, index and values), and a
  push takes all rows or returns an error.
* A batch carries distinct sequences where complete settlement is claimed; the fallback to
  the message index (`internal/source/source.go:435-436`) can collide, and
  `Settlement.SettledExactly` says exactly what that costs.
* Pipeline steps, `time.ParseDuration`, `strconv.Atoi`, field paths and float64 products are
  opaque; durations are int64 and products are float64 values.
* Instants and durations are integer nanoseconds, rates and quantiles are reals, counters that
  the program keeps in uint64 do not overflow.
* The window's clock does not run backwards and is not before 1970.

Findings, where the code and its own comments or expectations differ (the code is modelled):

* A zero number of attempts makes the sink return nil without pushing anything
  (`internal/sink/sink.go:165-204`); `Sink.NilMeansPushed` gives the exact condition.
* Entering half-open keeps the failure count, so a second request before the first result
  reopens the breaker (`BreakerProtocol.SecondProbeReopens`), and probes of earlier epochs may
  pile up (`BreakerProtocol.ProbesPileUp`). The comment at
  `connector/resilience/circuit_breaker.go:332-337` reads as a global limit; it is one per epoch.
  The configured success threshold is never read.
* With jitter and a timeout below 10 ns the random draw panics (`Resilience.DrawExists`).
* The filter accepts exactly the string predicates on symbol columns although
  `internal/filter/filter.go:154-158` calls them unsupported
  (`YamlParser.SymbolColumnsAreFilterable`; `YamlParser.FiltersLoadExactly` for every block).
* An explode step without a `config` block is dropped without an error and the parser loads as
  a scalar one (`internal/parser/explode.go:103`, `453-455`; `YamlParser.ExplodesExactly`).
* The float guard of a sourced interval relies on float64 spacing (`Explode.RealGuardIsNotEnough`).
* `CartesianProduct` of no sizes is 0 while the iterator yields one empty combination, an
  overflowing product cuts the iteration short (`PatternIterator.VisitsEverything`), and two
  reversed ranges, whose sizes are negative, are visited although they are empty
  (`PatternIterator.ReversedRangesAreVisited`; `PatternIterator.VisitsOnlyCombinations` gives
  the exact condition).
* An adaptive batch size of one never grows (`Batching.GrowsUnlessOne`).
* The rate limiter's sleep is truncated to nanoseconds and may leave a negative balance
  (`RateLimiter.TruncationGoesNegative`); that no sleep can do so is known before the call by
  the exact condition of `RateLimiter.NeverNegativeExactly`. Over-sleeping may leave more than
  the capacity until the next call clamps it (`RateLimiter.OversleepExceedsCapacity`); that no
  sleep can do so has the exact condition of `RateLimiter.NeverAboveCapacityExactly`.
* A lag histogram without finite buckets panics as soon as it grew; `Lag.LagInterval` covers
  every other pair of snapshots.

## Model

| member | source | states |
|---|---|---|
| Resilience.CircuitBreaker.CanProceed | connector/resilience/circuit_breaker.go:288-319 | under the lock the state is updated, then admission is refused in open, granted in closed, and granted in half-open exactly when a slot is free; the whole new state is given |
| Resilience.CircuitBreaker.CanProceedHalfOpenLocked | connector/resilience/circuit_breaker.go:324-351 | a slot is claimed exactly when the active count is below the allowed count; a limit of zero admits without claiming |
| Resilience.CircuitBreaker.RecordResult | connector/resilience/circuit_breaker.go:359-386 | a result finishing in half-open gives a slot back whoever claimed it; a failure is counted and dated, every other outcome clears the failures; then the state is updated |
| Resilience.CircuitBreaker.UpdateStateLocked | connector/resilience/circuit_breaker.go:403-426 | closed opens at the failure threshold, open goes to half-open once the jittered timeout has passed since the last failure |
| Resilience.CircuitBreaker.UpdateHalfOpenStateLocked | connector/resilience/circuit_breaker.go:431-454 | any counted failure reopens, a zero level closes, enough successes climb a level |
| Resilience.CircuitBreaker.ProgressToNextLevelLocked | connector/resilience/circuit_breaker.go:600-639 | the level doubles, or the ladder ends: closed with a ceiling, the zero level without one |
| Resilience.CircuitBreaker.Reset | connector/resilience/circuit_breaker.go:215-220 | closed, no failures counted, the half-open counters back at the base; the last failure time forgotten |
| Resilience.WrapTestIsExact | connector/resilience/circuit_breaker.go:600-613 | the overflow test on the wrapped int64 product is exact for every positive level: the ladder stops precisely when twice the level leaves the configured or the int64 range |
| Resilience.EffectiveTimeoutBounds | connector/resilience/circuit_breaker.go:262-285 | jitter moves the recovery timeout by at most a twentieth of it, in either direction |
| Resilience.DrawExists | connector/resilience/circuit_breaker.go:262-285 | a jitter value can be drawn (the program does not panic on an empty range) if and only if jitter is off or the timeout is at least 10 ns |
| BreakerProtocol.StepsAreOperations | connector/resilience/circuit_breaker.go:174-194 | the atomic steps of the protocol are the breaker's operations: same successor, same admission |
| BreakerProtocol.RunKeeps | connector/resilience/circuit_breaker.go:288-520 | the protocol invariant (failure counter, slot counter, rung and results of the half-open ladder) holds after every interleaving of any number of requests |
| BreakerProtocol.SlotAccounting | connector/resilience/circuit_breaker.go:324-386 | in half-open the active counter is the current epoch's requests in flight minus the results of requests admitted earlier, so the epoch's requests in flight exceed the limit by at most those stragglers, and not at all when there are none |
| BreakerProtocol.RecoveryLength | connector/resilience/circuit_breaker.go:431-454 | an epoch that closes other than by Reset recorded exactly base*(2^(k+1)-1) results, none a failure, where base*2^k is the last level within the ceiling; without a ceiling the closing step itself may record one more |
| BreakerProtocol.RecoveryHappens | connector/resilience/circuit_breaker.go:431-454 | for every accepted configuration with a possible draw some run closes an epoch at the end of its ladder, whatever the number of rungs |
| BreakerProtocol.OpeningHistory | connector/resilience/circuit_breaker.go:508-520 | the failure counter is the trailing run of failures since the last Reset; closed stays below the threshold and opens exactly at the result completing such a run; open closes only by Reset |
| BreakerProtocol.SecondProbeReopens | connector/resilience/circuit_breaker.go:431-436 | failures are not cleared on entering half-open, so a Begin in half-open reopens the breaker if and only if such failures are still counted, and then exactly one probe is in flight and nothing was recorded |
| BreakerProtocol.AdmissionIsAlwaysLimited | connector/resilience/circuit_breaker.go:324-331 | the unlimited admission branch is never taken: after the update a half-open breaker has a positive limit |
| BreakerProtocol.ProbesPileUp | connector/resilience/circuit_breaker.go:332-351 | no bound on the half-open requests of all epochs together holds: for every n some run leaves n probes in flight |
| Worker.Worker.ProcessBatch | connector/worker.go:204-387 | a closing worker, an empty batch and a failed merge settle and store nothing; otherwise the filtered rows of the batch are stored exactly when the write returned no error after an attempt; nothing is settled twice, and for every acknowledged message the rows of the table its bytes parse to, filtered row by row, are stored; past the merge, callbacks without errors settle every message exactly once and the counters grow by the batch length |
| Worker.Worker.ParseMessages | connector/worker.go:397-439 | tables and failed sequences in message order by what the parser returns and the parse-error action; failures, dropped messages and messages without a table are each counted exactly |
| Worker.Worker.HandleWriteFailure | connector/worker.go:515-562 | one write failure is counted; the valid sequences are negatively acknowledged up to the first callback error, and counted if there was none |
| Worker.Worker.WriteThroughBreaker | connector/worker.go:313-329 | a write that the breaker does not admit is rejected and only the admission changes the breaker; an admitted one returns what the sink returns, and the breaker records exactly whether it said that the cluster is unavailable; rows are stored exactly by a nil result after an attempt |
| Settlement.SettledExactly | connector/worker.go:268-291 | the failed and the valid sequences never reach one message twice, and they reach every message of the batch if and only if no two messages share a sequence |
| Settlement.NeverSettledTwice | connector/worker.go:268-386 | whichever callbacks fail, with distinct sequences no message is acknowledged or negatively acknowledged more than once; an acknowledged message parsed and is not negatively acknowledged, with any sequences |
| Settlement.BatchIsPartitioned | connector/worker.go:278-291 | with distinct sequences every message counts once, as failed or as valid |
| Settlement.WholeBatchSettled | connector/worker.go:268-386 | with distinct sequences and callbacks without errors every message is settled exactly once: acknowledged exactly if it parsed and the write returned no error, negatively acknowledged otherwise |
| Worker.SurvivorsAreKept | connector/worker.go:246-251 | splitting the tables of a batch into rows and filtering those leaves the rows that doing so message by message leaves |
| Worker.FilterThenSplit | connector/worker.go:246-251 | the rows of the tables that pass by their first rows are the rows that pass one by one |
| Worker.MessageSurvivesInBatch | connector/worker.go:246-266 | the surviving rows of each message are among those of its batch |
| Worker.AcceptedRowsAreInBatch | connector/worker.go:246-266 | every message that did not fail to parse has the filtered rows of its parsed table among the rows the batch writes |
| Source.Delivery.AckMessages | internal/source/source.go:475-495 | exactly the messages that the sequences reach before the first callback error are acknowledged, in order; nil exactly if there is no such error; unknown sequences are skipped |
| Source.Delivery.NackMessages | internal/source/source.go:501-521 | the same for negative acknowledgements |
| Source.TargetsReach | internal/source/source.go:475-495 | a sequence reaches a message exactly if it is the last one of the batch carrying that sequence |
| Source.TargetsAreDistinct | internal/source/source.go:475-495 | distinct sequences reach distinct messages |
| Sink.Sink.RetryWithBackoff | internal/sink/sink.go:157-205 | the loop's result and every observable effect, in order, are those of the ladder below; rows are stored exactly when it returns nil after at least one attempt |
| Sink.Sink.Write | internal/sink/sink.go:101-130 | refused when closed or given no tables, else the ladder with the fixed bounds; rows are stored exactly on success after an attempt |
| Sink.LadderResult | internal/sink/sink.go:157-205 | at most one push for each attempt, the result is that of the last push, and the k-th delay is the base doubled k times, capped after the first |
| Sink.NilMeansPushed | internal/sink/sink.go:165-204 | nil implies an accepted push if and only if at least one attempt is configured; an accepted push implies nil |
| Sink.RetryIsTouchSeparated | internal/sink/sink.go:147-205 | progress is reported between any two waits or pushes |
| Sink.RetryingIsNotStuck | internal/sink/sink.go:147-205 | however many attempts a write makes, no health evaluation during the batch finds the worker stuck, if every wait, and every push with the untouched work around it, lasts at most the threshold |
| Liveness.Probe.Touch | connector/liveness.go:55-64 | refreshes an active probe and leaves an idle one idle |
| Liveness.Probe.Sample | connector/liveness.go:70-79 | stage and age while active, nothing otherwise |
| Liveness.HealthState.Set | connector/health.go:107-119 | raising an active condition changes nothing; a new one gets the current instant |
| Liveness.HealthState.Clear | connector/health.go:125-137 | exactly that condition disappears |
| Liveness.HealthMonitor.Evaluate | connector/health.go:234-258 | afterwards a stage condition is active exactly for the stuck probes, a fetch stall exactly when the last success is too old and no re-bind is under way, and what stays active keeps its instant |
| Explode.CompileExplodeSound | internal/parser/explode.go:452-493 | an accepted explode block names an existing target of type double or int64 and, if any, another int64 column as ordinal, positive intervals, and excludes the extract_index step |
| Explode.SourcedProductIsExact | internal/parser/explode.go:597-633 | the int64 product never wraps, and exactly the positive counts whose duration fits in int64 are accepted |
| Explode.RoundedProductFits | internal/parser/explode.go:597-633 | every float64 product below 2^63 rounds to an int64 |
| Explode.RealGuardIsNotEnough | internal/parser/explode.go:597-633 | over the reals the same guard would admit a product that rounds to 2^63 |
| Explode.ResolvedIntervalPositive | internal/parser/explode.go:638-656 | every interval resolved from an accepted configuration is a positive int64 |
| Explode.BuildExplodedIndex | internal/parser/explode.go:693-700 | entry i is start plus the int64 product i*interval |
| Explode.AxisIsExact | internal/parser/explode.go:693-700 | while the last offset fits, the axis starts at start and equals the exact iterated sum |
| Explode.AxisIncreasesExactly | internal/parser/explode.go:693-700 | the axis is strictly increasing if and only if the last offset (n-1)*interval fits in int64 |
| YamlParser.ValidateSchema | internal/parser/yaml.go:883-908 | accepted exactly the non-empty schemas with known types and distinct non-empty names |
| YamlParser.ValidateColumnSynchronization | internal/parser/yaml.go:959-1006 | accepted exactly when the writer columns and types are those of the configuration |
| YamlParser.NewYAMLParserFromConfig | internal/parser/yaml.go:251-317 | loads exactly the configurations that pass every check, and builds the parser those checks describe |
| YamlParser.ParseState.RunPipeline | internal/parser/yaml.go:383-397 | steps in order, errors counted, stopped by the first failing structural step |
| YamlParser.ParseState.CreateWriterTable | internal/parser/yaml.go:451-699 | one row with a value or the type's null sentinel in every column; the buffer-overflow and type-mismatch reports cannot happen |
| YamlParser.ParseState.CreateExplodedWriterTable | internal/parser/explode.go:878-894 | the samples in the target, positions in the ordinal, copies elsewhere; the length and type reports cannot happen |
| YamlParser.ParseState.SetExplodedColumn | internal/parser/explode.go:854-872 | each column gets the data of its role, of its declared type |
| YamlParser.ParseState.SetBroadcastColumn | internal/parser/explode.go:820-850 | every row of a broadcast column holds the scalar field, or the null sentinel of the column's type when the field is missing or mistyped |
| YamlParser.Parse | internal/parser/yaml.go:325-375 | a nil message is an error; every other message is classified and yields the table that the pipeline's fields describe |
| YamlParser.EmittedTablesAreShaped | internal/parser/yaml.go:325-375 | for every accepted configuration and message at most one table is emitted, none for an unusable message; it has n > 0 index entries and exactly n values of the declared type in every column, n being one or the array length |
| YamlParser.EmittedAxisIsSound | internal/parser/explode.go:661-700 | every exploded table's axis is anchored at its start and strictly increasing by its positive interval exactly while the last offset fits in int64 |
| YamlParser.LoadedFilterAvoidsSamples | internal/filter/filter.go:86-98 | no accepted filter predicate looks at the target or the ordinal column |
| YamlParser.RowZeroFilteringIsExact | internal/filter/filter.go:197-253 | for every accepted configuration and emitted tables, filtering by first rows keeps the rows, in order, that splitting into one-row tables and filtering each keeps |
| YamlParser.SymbolColumnsAreFilterable | internal/filter/filter.go:132-164 | a predicate on a symbol column is accepted if and only if its value is a string, because symbols are declared to the client as strings |
| YamlParser.FiltersLoadExactly | internal/filter/filter.go:64-101 | for a valid schema a filter block loads if and only if it is empty, or has a known mode and at least one predicate, each naming a column that is not exploded and is int64 with an integer, or string or symbol with a string |
| YamlParser.ExplodesExactly | internal/parser/explode.go:452-455 | a loaded parser explodes if and only if the last step is an explode step with a configuration block; without the block the step is dropped silently |
| YamlParser.LoadedIsReady | internal/parser/yaml.go:251-317 | what processing a batch asks of the parser holds of every configuration that loads |
| RowFilter.RowZeroIsExact | internal/filter/filter.go:197-253 | row-0 filtering equals per-row filtering for any tables whose filtered columns are constant |
| RowFilter.Apply | internal/filter/filter.go:197-212 | the tables whose match agrees with the mode, in order |
| RowFilter.NewFilter | internal/filter/filter.go:64-101 | the loops over columns and predicates compute the filter that `New` describes, and fail exactly where it does |
| RowFilter.NewAcceptsExactly | internal/filter/filter.go:64-101 | a specification is accepted if and only if it is empty, or has a known mode and at least one predicate, each on a known column that is not exploded and has a value of the column's int64 or string type |
| RowFilter.ResolveMatches | internal/filter/filter.go:86-98 | every accepted predicate names a column that is not exploded and resolves to its position |
| Tables.TrimInvertsTerminate | internal/parser/yaml.go:932-948 | trimming undoes the terminator that column and table names carry |
| Window.TableWindow.Add | internal/telemetry/window.go:64-82 | the ring keeps refining the log: each used slot holds the tally of the latest minute that fell into it |
| Window.TableWindow.Report | internal/telemetry/window.go:105-148 | the total is the rows of every addition of the last five minutes; unless a bucket overflowed, the distinct count, the per-table counts and the ranking are exactly those of the log; Top is the ranked maximum prefix in any case |
| Window.RowsAreConserved | internal/telemetry/window.go:72-81 | overflow moves rows to another key and loses none |
| Window.BucketIsBounded | internal/telemetry/window.go:72-75 | a bucket holds at most the cap plus one keys, and the extra one is the overflow key |
| Window.OwnKeysAreExact | internal/telemetry/window.go:72-81 | a table with a key of its own is counted exactly, overflow or not |
| Window.MergedTotal | internal/telemetry/window.go:105-123 | merging the live slots sums every addition since the oldest minute that falls into them |
| Window.UncappedReportIsExact | internal/telemetry/window.go:105-148 | without overflow the report can be told from the log alone |
| Window.ReportIsLowerBound | internal/telemetry/window.go:95-103 | whatever overflowed, the distinct count is a lower bound and no table but the overflow entry is overcounted |
| Window.SortIsSorted | internal/telemetry/window.go:136-142 | ranking by rows, then by name, is a permutation in strict order |
| Window.TopOfPrefix | internal/telemetry/window.go:136-145 | the first topN of the ranked entries: nothing left out ranks before any of them |
| Lag.BucketDeltas | internal/telemetry/lag.go:33-61 | accepted exactly the comparable snapshots; the running sums of the counts are the growths of the cumulative counts |
| Lag.GrowingIsComparable | internal/telemetry/lag.go:33-61 | snapshots of a histogram that only grew are always accepted |
| Lag.DeltasAreNewSamples | internal/telemetry/lag.go:33-61 | the deltas are exactly the bucket counts of the samples that came in between, and sum to their number |
| Lag.BucketQuantile | internal/telemetry/lag.go:71-104 | the interpolated point of the first bucket whose running count reaches the target; the last finite bound for the tail; zero without samples |
| Lag.QuantileIsBracketed | internal/telemetry/lag.go:71-104 | some new sample has the rank of the quantile, and the estimate lies in that sample's finite bucket, or is the last finite bound when the sample lies beyond it |
| Lag.QuantileMonotone | internal/telemetry/lag.go:71-104 | a larger quantile never has a smaller estimate |
| Lag.QuantileBelowMax | internal/telemetry/lag.go:112-125 | no estimate exceeds the bound of the highest non-empty bucket |
| Lag.LagInterval | internal/telemetry/lag.go:133-155 | a summary exactly for comparable snapshots with new samples; P50 <= P99 <= MaxLE; the only inputs left out are the ones that panic, a histogram without finite buckets that grew |
| PatternIterator.IndexToIndices | tools/generator/internal/generator/generators/pattern_iterator.go:241-250 | the remainders of repeated truncated division by the sizes, last component fastest, for any index and any sizes that are not zero |
| PatternIterator.IndicesAreDigits | tools/generator/internal/generator/generators/pattern_iterator.go:241-250 | for positive sizes these are the mixed-radix digits, negated for a negative index |
| PatternIterator.TruncationDivides | tools/generator/internal/generator/generators/pattern_iterator.go:245-248 | quotient and remainder give the dividend back, except for the one int64 quotient that overflows |
| PatternIterator.IndicesToIndex | tools/generator/internal/generator/generators/pattern_iterator.go:256-270 | -1 for different lengths, else the flat index in int64 arithmetic |
| PatternIterator.IndexRoundTrip | tools/generator/internal/generator/generators/pattern_iterator.go:241-270 | below the product, digits lie in the box and convert back to the index |
| PatternIterator.IndicesRoundTrip | tools/generator/internal/generator/generators/pattern_iterator.go:241-270 | a combination in the box has an index below the product whose digits are the combination |
| PatternIterator.ConversionsAreExact | tools/generator/internal/generator/generators/pattern_iterator.go:256-270 | the int64 conversions lose nothing while the product fits |
| PatternIterator.DigitsArePeriodic | tools/generator/internal/generator/generators/pattern_iterator.go:241-250 | an index past the product counts again from the start |
| PatternIterator.Iterator.Next | tools/generator/internal/generator/generators/pattern_iterator.go:55-70 | false exactly from the total on, changing nothing; otherwise no division by zero, the indices of the position, which moves on by one |
| PatternIterator.Iterator.VisitAll | tools/generator/internal/generator/generators/pattern_iterator.go:52-70 | the documented loop visits the indices of 0, 1, 2, ... below the wrapped total and then ends, for components of any size |
| PatternIterator.VisitsInOrder | tools/generator/internal/generator/generators/pattern_iterator.go:52-70 | the combinations are visited in strict lexicographic order, hence at most once |
| PatternIterator.VisitsOnlyCombinations | tools/generator/internal/generator/generators/pattern_iterator.go:34-70 | nothing but combinations is visited if and only if all sizes are positive or the wrapped product is not |
| PatternIterator.VisitsEverything | tools/generator/internal/generator/generators/pattern_iterator.go:34-50 | every combination is visited if and only if there is none, some component being empty or reversed, or their number fits in int64 |
| PatternIterator.CartesianProduct | tools/generator/internal/generator/generators/pattern_iterator.go:224-235 | the wrapped product, and zero for no components, where the iterator itself has one (empty) combination |
| Batching.Batcher.Handle | tools/loader/internal/batch/batcher.go:68-121 | the new state of one turn of the loop, for every event the select may pick |
| Batching.Batcher.Run | tools/loader/internal/batch/batcher.go:65-122 | emitted batches and buffer concatenate to the consumed data; no data batch is empty or larger than the size; at most one tombstone, last; a running timer exactly while data is buffered; nothing is left behind at the end |
| Batching.HandleKeeps | tools/loader/internal/batch/batcher.go:68-121 | every turn keeps that invariant, whatever size up to the bound is wanted at the time |
| Batching.AdaptiveBatcher.AdjustBatchSize | tools/loader/internal/batch/adaptive.go:232-287 | half as much again or a quarter less, clamped to the range and at most once a window; the current size never leaves its range |
| Batching.AdaptiveBatcher.Run | tools/loader/internal/batch/adaptive.go:93-164 | with both loops interleaved in any way the conservation holds with the largest size as bound |
| Batching.GrowsUnlessOne | tools/loader/internal/batch/adaptive.go:247-250 | a throughput that stays too low drives the size to its maximum if and only if the size is at least two or the maximum is one |
| Publishing.StepKeeps | tools/loader/internal/publisher/publisher.go:57-93 | every step of the batcher or of any worker keeps account of each consumed message: published, lost, in a worker's hands, queued or buffered, with its multiplicity |
| Publishing.RunKeeps | tools/loader/internal/publisher/publisher.go:57-93 | the same over every interleaving |
| Publishing.PublishedAtMostOnce | tools/loader/internal/publisher/publisher.go:117-155 | no message is published more often than it was consumed |
| Publishing.CompletionMeansPublished | tools/loader/internal/publisher/publisher.go:85-90 | when all workers stopped without cancellation and without publish error, the batcher is through and every consumed message was published exactly once |
| Publishing.WorkersNeverBlock | tools/loader/internal/publisher/worker.go:22-54 | once the channel is closed a worker that has not stopped can always take a step without error |
| Publishing.WorkersFinish | tools/loader/internal/publisher/worker.go:22-54 | the workers' steps after the last turn of the batcher are bounded by the work that remains, so completion is reached under every schedule |
| Publishing.Publisher.PublishBatch | tools/loader/internal/publisher/publisher.go:117-155 | a prefix of the batch is published and counted, all of it on success; an error is counted exactly when the connection refused |
| Publishing.PublishBatchIsARun | tools/loader/internal/publisher/publisher.go:117-155 | a call of publishBatch is a run of the protocol's steps with the same effect |
| Publishing.Worker.Run | tools/loader/internal/publisher/worker.go:22-54 | handles inputs up to the first that stops it, reports completion once, and counts the messages of the completely published batches |
| Fetching.Connector.FetchLoop | connector/connector.go:294-326 | non-empty batches enter the work channel once and in order, all but the last at most, and that only on cancellation; the channel is closed once; at most one fatal error, exactly when the budget is exhausted; no re-bind is pending when a round begins |
| Fetching.Connector.FetchOnce | connector/connector.go:355-361 | is only called while the rebinding condition is inactive and no stage is probed; the probe shows the fetch from its beginning for as long as it blocks, and is cleared afterwards |
| Fetching.Connector.Dispatch | connector/connector.go:371-391 | a non-empty batch is sent unless the cancellation wins, under the probe's dispatch stage, which is cleared afterwards; an empty one is neither sent nor probed |
| Fetching.Connector.FetchRound | connector/connector.go:297-325 | one round delivers, probes, fails and re-binds as its events say: the probe covers the fetch and the send and nothing else, so no sleep of the re-bind ladder is probed |
| Fetching.Connector.RebindSubscription | connector/connector.go:413-440 | success restores the conditions and refreshes the fetch liveness; the fatal error is sent exactly when every attempt failed; sleeps follow the doubling schedule |
| Fetching.Connector.RecoverFetch | connector/connector.go:334-349 | a dead subscription is re-bound, anything else backs off, a cancellation stops |
| Fetching.ExhaustedByFailures | connector/connector.go:417-437 | the budget is exhausted if and only if that many attempts failed in a row without cancellation |
| Fetching.Backoff.Next | connector/resilience/backoff.go:35-43 | the k-th delay since the last reset is base*2^k capped at the maximum |
| Fetching.SendsNeverBlock | connector/connector.go:203-223 | with room for every worker and the fetch loop, a send on the error channel finds room in every interleaving, received or not |
| Generating.Engine.GenerateRawRecord | tools/generator/internal/generator/engine.go:239-269 | fields in template order from the generators' states, the table tag added, internal fields removed |
| Generating.Engine.GenerateRecords | tools/generator/internal/generator/engine.go:71-98 | the serial records, or failure at the first error |
| Generating.Engine.GenerateRecordsParallel | tools/generator/internal/generator/engine.go:119-223 | under every schedule that lets the workers finish, the written records are a permutation of the serial ones |
| Generating.InterleavingDoesNotMatter | tools/generator/internal/generator/engine.go:119-223 | if the serial generation succeeds, every schedule does, produces each serial record as often, and leaves the generators in the same states |
| Generating.SharesSum | tools/generator/internal/generator/engine.go:120-143 | the workers' shares sum to the count |
| Generating.TurnsShrink | tools/generator/internal/generator/engine.go:145-174 | every turn of an unfinished worker brings the run nearer to its end |
| Unpack.UnpackInts | internal/parser/unpack.go:290-297 | the elements in order, every read within the bytes |
| Unpack.UnpackInvertsEncoding | internal/parser/unpack.go:37-76 | unpacking the fixed-width encoding of any array gives the array back, for every integer type and byte order; uint64 values wrap into int64 |
| Unpack.EncodingInvertsUnpack | internal/parser/unpack.go:53-76 | the values determine the bytes they were read from |
| Unpack.UnpackIsInjective | internal/parser/unpack.go:290-297 | byte strings of whole elements that unpack alike are the same |
| Unpack.ReadsFit | internal/parser/unpack.go:53-76 | every value read fits in int64 |
| Unpack.TypeTraceIsExact | internal/parser/explode.go:369-405 | for an accepted unpack step, what it writes passes the per-message type check of the exploded column if and only if the load-time comparison accepts |
| Unpack.UnpackStep.Run | internal/parser/unpack.go:354-391 | succeeds exactly when the source is a byte string of whole elements and the scale can be used; then the target holds one number for every element, else the fields are untouched |
| RateLimiter.Limiter.Wait | tools/generator/internal/generator/continuous/ratelimit.go:42-70 | refill up to the capacity, sleep and refill again below one token, take one |
| RateLimiter.NeverNegativeExactly | tools/generator/internal/generator/continuous/ratelimit.go:42-69 | whatever the sleep, tokens stay non-negative after a Wait if and only if the refilled bucket holds a whole token or its deficit is a whole number of nanoseconds, both known before the call |
| RateLimiter.NeverAboveCapacityExactly | tools/generator/internal/generator/continuous/ratelimit.go:42-69 | whatever the sleep, tokens stay within the capacity after a Wait if and only if the refilled bucket holds a whole token, so that the call does not sleep |
| RateLimiter.OversleepExceedsCapacity | tools/generator/internal/generator/continuous/ratelimit.go:56-69 | a concrete over-long sleep leaves more tokens than the capacity |
| RateLimiter.BarelyNegative | tools/generator/internal/generator/continuous/ratelimit.go:57-66 | with the sleep cut to whole nanoseconds tokens stay above minus the inflow of one nanosecond |
| RateLimiter.TruncationGoesNegative | tools/generator/internal/generator/continuous/ratelimit.go:57-69 | a sleep of exactly the requested nanoseconds can leave less than zero tokens |
| RateLimiter.ReturnsAreLimited | tools/generator/internal/generator/continuous/ratelimit.go:42-70 | of the calls that read the clock at or after an instant, at most capacity + rate*T get through within the time T after it when sleeps cover the deficit, and fewer than one nanosecond's inflow more otherwise |

## Left out

- NATS, QuasarDB handles, sockets, HTTP probes, systemd, Prometheus, logging, hooks, statistics output and option loading: only their success or failure results appear.
- Decoding steps (JSON, gzip, protobuf, YAML, hashes, field extraction and computation): opaque steps that write fields or fail.
- Memory pinning and the foreign-call rules behind the terminating NUL of names.
- Random and floating-point generators, `pattern_composite.go`, calendar parsing and formatting: library-defined or only trivial bounds.
- `Manager`, registries, format detectors and the metrics collector: lookups and wrappers.
- The five-second panics on blocked batch channels: a send is taken to succeed eventually; the capacity of ten is not modelled.
- A panic inside the function a breaker executes, which would leave its slot claimed.
- Draws from an empty jitter range, where the program panics: the breaker's methods ask for a possible draw.
- Generators that fail or a cancelled context during parallel generation, beyond the fact that the call then fails: which error is returned is not modelled.
- The explode step's compilation is a function on values although the original fills the fields of a spec one by one; a map's iteration order is a parameter where it shows.
- Source.Delivery.AckMessages: the lookup map of sequences is the function `LastIndex`, the position the map would hold.
- Worker.Worker.ProcessBatch: hooks, timing and the per-table statistics events are left out; the merge of tables is a function that is given.
- Worker.Worker.WriteThroughBreaker: a push is atomic; partial pushes inside the client are not modelled.
- PatternIterator.IndexToIndices: sizes of zero, for which the division panics, are excluded; the index is not limited to int64, which changes nothing for one that is.
- PatternIterator.Iterator.VisitAll: the component values behind the indices are left out; only positions are enumerated.
- Window.TableWindow.Report: `sort.Slice` is modelled by an insertion sort under the same order, and a negative topN, which panics, is excluded by its type.
- Lag.LagInterval: the pairs of snapshots for which the maximum panics are excluded.
- Lag.BucketQuantile: bounds and estimates are reals, so rounding in the last digit is not modelled.
- Batching.AdaptiveBatcher.AdjustBatchSize: sizes are bounded so that the float64 products are exact; the throughput is a parameter.
- Publishing.Publisher.PublishBatch: the semaphore has a slot for every worker and each worker publishes one batch at a time, so it is modelled only as the point where a cancellation may win.
- Generating.Engine.GenerateRawRecord: storing under a dotted path is an opaque function.
- Unpack.UnpackStep.Run: float decoding, widening and multiplication are opaque.
- RateLimiter.Limiter.Wait: arithmetic is over the reals; a changed rate during a run is left out of `ReturnsAreLimited`.
