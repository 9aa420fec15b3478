# RunAnalysis in Dafny

A model of the core of RunAnalysis, a console tool that re-runs one AF analysis over a time range outside the Analysis service. The tool:

- validates the analysis;
- picks an event provider from the analysis' time-rule plug-in;
- evaluates the analysis rule at every event until a fatal error;
- buffers the mapped time-series outputs;
- publishes the buffer in one bulk write in Replace mode.

The model has one module per source file:

- `Types` (types.dfy): the shared value types. These are the analysis, its configuration, references, diagnostics, recorded and output values, and the time rule.
- `PeriodicEvents` (periodic_event_provider.dfy): the periodic provider.
  - The constructor guard is a function returning a `Result`.
  - `GetEvents` is the stepping `while` loop. It is proved against `IsPeriodicSchedule`, which says that the i-th event is the step function applied i+1 times to one tick before the start.
- `NaturalEvents` (natural_event_provider.dfy): the natural provider.
  - `GetEvents` uses nested loops to collect the recorded timestamps into a set.
  - `SortedElements` sorts that set, then a filtering loop keeps the events in range.
  - It is proved against `IsSchedule`: strictly increasing, and exactly the recorded instants of the inputs inside [start, end].
- `Output` (output_handler.dfy): the class `OutputHandler`.
  - It holds the `values` buffer and the untouched `eventFrames` list, plus a ghost log of the bulk writes issued.
  - `ProcessOutputs` is specified by `Publishable`.
  - `Flush` is specified by `FlushReportFor`.
- `Executor` (analysis_executor.dfy): the class `AnalysisExecutor`.
  - `TryValidate` is proved equivalent to `Runnable`.
  - `GetEventProvider` is the dispatch on the plug-in name.
  - `Run` is the event loop. Its contract ties the events to `ProvidesEvents`, the evaluated events to `EvaluatedPrefix`, and the sole bulk write to `Forwarded`.

The AF SDK is reached only through parameters:

- `recorded` stands for `RecordedValues`.
- `evaluate` stands for the rule's evaluation at an instant: what `Reset`, `SetExecutionTimeAndPopulateInputs` and `AnalysisRule.Run` leave in the state.
- `write` stands for `UpdateValues`.
- The time rule's `GetNextEvent(..).EndTime` is the step function stored in `TimeRule`.
- `GetConfiguration` is the fixed `configuration` of the analysis.

Timestamps are integer ticks.

Two behaviours of the source are worth stating plainly:

- The periodic loop yields the instant it stepped to before testing it against the end of the range, so its last event is at or after `end` and may lie beyond it (RunAnalysis/RunAnalysis/PeriodicEventProvider.cs:26-29, `HourlyScheduleOvershoots`).
- `GetEventProvider` dereferences a missing time-rule plug-in, throws `InvalidOperationException` for an unknown plug-in name, and the periodic provider's constructor throws `ArgumentException` for an unusable time rule (RunAnalysis/RunAnalysis/AnalysisExecutor.cs:127-132, RunAnalysis/RunAnalysis/PeriodicEventProvider.cs:17-18). `Run` catches none of these, so the run ends before any event is evaluated and before any write. The model returns `TimeRuleRejected` with `MissingTimeRulePlugIn`, `UnsupportedTimeRule` or `InvalidTimeRule`.

## Model

| member | source | states |
|---|---|---|
| PeriodicEvents.NewPeriodicEventProvider | RunAnalysis/RunAnalysis/PeriodicEventProvider.cs:15-21 | the rule is refused exactly when it is missing, has no plug-in, or its plug-in is not named Periodic; an accepted provider keeps the given rule |
| PeriodicEvents.GetEvents | RunAnalysis/RunAnalysis/PeriodicEventProvider.cs:23-31 | the loop emits the periodic schedule of the range (event i is the step function applied i+1 times to start minus one tick, guard held before each step and failed after the last) and the events strictly increase |
| PeriodicEvents.PeriodicScheduleShape | RunAnalysis/RunAnalysis/PeriodicEventProvider.cs:25-29 | every event but the last is before end, the last is at or after end, events are emitted iff start <= end, none is before start, and they strictly increase |
| PeriodicEvents.PeriodicScheduleUnique | RunAnalysis/RunAnalysis/PeriodicEventProvider.cs:25-30 | the step function and the range determine the emitted sequence |
| PeriodicEvents.FirstStepFromTickBeforeStart | RunAnalysis/RunAnalysis/PeriodicEventProvider.cs:25-28 | the first event is the step function applied to one tick before start |
| PeriodicEvents.HourlyScheduleOvershoots | RunAnalysis/RunAnalysis/PeriodicEventProvider.cs:26-29 | an hourly rule over 09:00-11:30 yields 10:00, 11:00 and 12:00, the last event lying after the end of the range |
| NaturalEvents.SortedElements | RunAnalysis/RunAnalysis/NaturalEventProvider.cs:37-38 | the list of the set's elements is strictly increasing and holds exactly the set's elements |
| NaturalEvents.TriggerTimesSnoc | RunAnalysis/RunAnalysis/NaturalEventProvider.cs:24-35 | visiting one more input adds exactly the timestamps recorded for it |
| NaturalEvents.GetEvents | RunAnalysis/RunAnalysis/NaturalEventProvider.cs:20-45 | the events strictly increase (so hold no duplicate) and are exactly the timestamps recorded for any input that lie in [start, end] |
| NaturalEvents.IncreasingUnique | RunAnalysis/RunAnalysis/NaturalEventProvider.cs:37-44 | two strictly increasing sequences with the same elements are equal, so the emitted sequence is determined by its set of events |
| NaturalEvents.InputOrderIrrelevant | RunAnalysis/RunAnalysis/NaturalEventProvider.cs:24-35 | the collected timestamps do not depend on the order of the inputs or on repeated inputs |
| NaturalEvents.PayloadIrrelevant | RunAnalysis/RunAnalysis/NaturalEventProvider.cs:32-34 | the collected timestamps depend only on the timestamps recorded for each input, not on the payloads or the order of the values |
| NaturalEvents.EventsDependOnlyOnTimestamps | RunAnalysis/RunAnalysis/NaturalEventProvider.cs:24-44 | reordering the inputs or changing the recorded payloads yields the same events |
| NaturalEvents.NoRecordedValuesNoEvents | RunAnalysis/RunAnalysis/NaturalEventProvider.cs:24-44 | with no inputs, or no values recorded for any of them, nothing is emitted |
| Output.FlushReportFor | RunAnalysis/RunAnalysis/OutputHandler.cs:55-96 | a flush reports failure exactly when the bulk write throws; otherwise the published count is the submitted count minus the item-level errors, and the item, system-level and server-level error counts reported are the write's own (all zero, with the whole buffer counted, when the write returns no error report) |
| Output.SystemAndServerErrorsKeepCount | RunAnalysis/RunAnalysis/OutputHandler.cs:73-93 | errors raised by AF servers and data archives do not change the published count; with no item errors the whole buffer counts as published |
| Output.IsMapped | RunAnalysis/RunAnalysis/OutputHandler.cs:34-37 | an output slot is published iff it holds a time-series value and its resolved output is bound to an attribute |
| Output.MappedIndices | RunAnalysis/RunAnalysis/OutputHandler.cs:30-43 | the published slots are listed in increasing order, and a slot is listed iff it holds a time-series value and its resolved output is bound to an attribute |
| Output.PublishableFollowsMappedIndices | RunAnalysis/RunAnalysis/OutputHandler.cs:30-43 | the appended values are, in slot order, the time-series values of exactly the mapped slots, each bound to its resolved output's attribute and otherwise unchanged |
| Output.PublishableValuesAreBound | RunAnalysis/RunAnalysis/OutputHandler.cs:37-41 | every appended value is bound to an attribute |
| Output.UnmappedOutputsContributeNothing | RunAnalysis/RunAnalysis/OutputHandler.cs:34-47 | event-frame, other and unmapped slots append nothing |
| Output.OutputHandler.constructor | RunAnalysis/RunAnalysis/OutputHandler.cs:21-26 | a new handler keeps the configuration and starts with an empty buffer, no event frames and no writes |
| Output.OutputHandler.ProcessOutputs | RunAnalysis/RunAnalysis/OutputHandler.cs:28-49 | the buffer is extended, never rewritten, by the publishable values of the evaluation; event frames and writes are unchanged |
| Output.OutputHandler.Flush | RunAnalysis/RunAnalysis/OutputHandler.cs:51-97 | exactly one bulk write is issued, in Replace mode with the whole buffer; the buffer is empty afterwards in every outcome; the report is the one for the buffer's size and the write's outcome |
| Executor.CountOfSeverity | RunAnalysis/RunAnalysis/AnalysisExecutor.cs:90-98 | the count of diagnostics of a severity is positive iff some diagnostic has that severity |
| Executor.WarningsNeverBlock | RunAnalysis/RunAnalysis/AnalysisExecutor.cs:88-108 | when every diagnostic is a warning, the analysis is runnable iff it is enabled and no output is an input |
| Executor.AnyInputWithId | RunAnalysis/RunAnalysis/AnalysisExecutor.cs:115 | the search succeeds iff some input has the identifier |
| Executor.AttributeInputs | RunAnalysis/RunAnalysis/AnalysisExecutor.cs:130 | the natural provider's inputs are exactly the identifiers of the configured inputs that are attributes |
| Executor.GetEventProvider | RunAnalysis/RunAnalysis/AnalysisExecutor.cs:125-133 | Periodic selects the periodic provider over the analysis' time rule, or is refused when its guard refuses; Natural selects the natural provider over the attribute inputs; a missing plug-in and any other name are refused |
| Executor.ProviderGetEvents | RunAnalysis/RunAnalysis/AnalysisExecutor.cs:42 | the events are those of whichever provider was chosen |
| Executor.ProvidedEventsAreOrdered | RunAnalysis/RunAnalysis/AnalysisExecutor.cs:42 | the run visits events in strictly increasing order, none before start, all but the last at most end (all of them for the natural provider) |
| Executor.IsFatal | RunAnalysis/RunAnalysis/AnalysisExecutor.cs:53 | an evaluation error is fatal iff it is not an analysis exception or its severity is Error |
| Executor.FatalUnlessWarning | RunAnalysis/RunAnalysis/AnalysisExecutor.cs:49-63 | an evaluation error lets the run go on iff it is an analysis exception of severity Warning |
| Executor.EvaluatedPrefix | RunAnalysis/RunAnalysis/AnalysisExecutor.cs:42-58 | the evaluated events are a prefix of the provider's events, none but the last is fatal, and a shorter prefix ends with a fatal one |
| Executor.ForwardedAppend | RunAnalysis/RunAnalysis/AnalysisExecutor.cs:42-72 | the values forwarded for consecutive runs of events are concatenated in event order |
| Executor.ForwardedValuesAreBound | RunAnalysis/RunAnalysis/AnalysisExecutor.cs:65-67 | every value the run hands to the output handler is bound to an attribute |
| Executor.FatalStopsRun | RunAnalysis/RunAnalysis/AnalysisExecutor.cs:49-58 | a first fatal error at event k means events 0..k are evaluated and no later one, and only the evaluations before k contribute values |
| Executor.NoFatalEvaluatesAll | RunAnalysis/RunAnalysis/AnalysisExecutor.cs:42-73 | with no fatal error every event is evaluated |
| Executor.AnalysisExecutor.constructor | RunAnalysis/RunAnalysis/AnalysisExecutor.cs:25-28 | the executor keeps the analysis and has read no configuration yet |
| Executor.AnalysisExecutor.TryValidate | RunAnalysis/RunAnalysis/AnalysisExecutor.cs:79-123 | validation succeeds iff the analysis is enabled, no diagnostic is an error and no output identifier is an input identifier; the configuration is read only when the analysis is enabled |
| Executor.AnalysisExecutor.Run | RunAnalysis/RunAnalysis/AnalysisExecutor.cs:30-76 | the configuration is read exactly when the analysis is enabled; a rejected configuration or time rule means no evaluation and no write; otherwise the events are the chosen provider's, the evaluated events are those up to the first fatal one, exactly one Replace write carries the forwarded values of the successful evaluations in event order, the run is reported aborted iff its last evaluated event was fatal, and the report is the flush's |

## Left out

- Program.cs is not part of this model. It holds the argument parsing, the object lookup, the time parsing and the debugger pause.
- Console output, the `Stopwatch` timing and the printing of each evaluation's outputs are I/O only. They are not modelled.
- Lazy `yield` iteration: each provider returns its whole event list before the loop starts. Because the step function and the recorded values are pure functions here, the events the loop sees are the same.
- The AF SDK calls are parameters, and their own behaviour is not modelled: the `Inside` boundary semantics of `RecordedValues`, `UpdateValues`, `GetNextEvent`, `AnalysisRule.Run`, `Reset` and `SetExecutionTimeAndPopulateInputs`.
- Evaluation depends only on the event's instant, not on earlier evaluations. The state is reset before each evaluation.
- Setting the attribute on an output value mutates the rule state's own object. The model builds a new value instead, so that aliasing is not captured.
- Event-frame outputs are a no-op, as in the source.
- `WriteErrors.HasErrors` is modelled as "some error count is positive". The error messages and their keys are dropped, and only the counts are kept.
- `AFTime` range limits and the 32-bit `int` of the published count are not modelled: instants and counts are unbounded integers.
- PeriodicEvents.GetEvents: requires that the step function advances every instant before the end of the range. A step function that does not advance makes the source loop forever, and that case is not modelled.
- Executor.AnalysisExecutor.Run: requires the same progress of the step function, but only for a runnable analysis whose time-rule plug-in is Periodic and which has a time rule, the one case where the periodic loop runs; every other path is covered for any step function. It also requires every successful evaluation to have an output slot for each resolved output, which the rule state, built from the configuration, provides.
- Output.OutputHandler.ProcessOutputs: requires as many output slots as resolved outputs. With fewer slots the source would throw an index error; that exception is not modelled.
- Executor.AnalysisExecutor.Run: the three exceptions of provider construction become the result `TimeRuleRejected`, not an exception that escapes the run.
