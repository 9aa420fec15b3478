/** The analysis executor: it validates the analysis, chooses the event
    provider from the time-rule plug-in, evaluates the rule at every event
    until a fatal error, and flushes the output handler once. */
module Executor {
  import opened Types
  import opened PeriodicEvents
  import opened NaturalEvents
  import opened Output

  const NaturalPlugInName: string := "Natural"

  /** The two implementations of the event-provider interface. */
  datatype EventProvider =
    | Periodic(periodic: PeriodicEventProvider)
    | Natural(natural: NaturalEventProvider)

  /** What one evaluation of the rule leaves in the evaluation state: the
      output values, an analysis exception with its severity, or any other
      exception. */
  datatype Evaluation =
    | Evaluated(outputs: seq<OutputValue>)
    | DomainError(severity: Severity, message: string)
    | OtherError(message: string)

  /** How a run ended, as far as its caller can observe. */
  datatype RunOutcome =
    | ConfigurationRejected
    | TimeRuleRejected(error: ProviderError)
    | Finished(aborted: bool, report: FlushReport)

  // ---------------------------------------------------------------------
  // Validation

  /** The number of diagnostics of the given severity. */
  function CountOfSeverity(diagnostics: seq<ConfigurationException>, severity: Severity): (r: nat)
    ensures r <= |diagnostics|
    ensures r > 0 <==> exists i :: 0 <= i < |diagnostics| && diagnostics[i].severity == severity
  {
    if diagnostics == [] then 0
    else
      var rest := CountOfSeverity(diagnostics[1..], severity);
      assert forall i :: 0 <= i < |diagnostics| - 1 ==> diagnostics[1..][i] == diagnostics[i + 1];
      if diagnostics[0].severity == severity then 1 + rest else rest
  }

  /** Some diagnostic of the configuration is an error. */
  predicate HasBlockingDiagnostic(c: Configuration) {
    exists i :: 0 <= i < |c.exceptions| && c.exceptions[i].severity == Error
  }

  /** No output refers to the same object as an input. */
  predicate InputsOutputsDisjoint(c: Configuration) {
    forall j, i :: 0 <= j < |c.outputs| && 0 <= i < |c.inputs| ==> c.outputs[j].id != c.inputs[i].id
  }

  /** The analysis may be evaluated by this executor. */
  predicate Runnable(a: Analysis) {
    && a.status == Enabled
    && !HasBlockingDiagnostic(a.configuration)
    && InputsOutputsDisjoint(a.configuration)
  }

  /** Diagnostics that are only warnings never block a run. */
  lemma WarningsNeverBlock(a: Analysis)
    requires forall i :: 0 <= i < |a.configuration.exceptions| ==> a.configuration.exceptions[i].severity == Warning
    ensures Runnable(a) <==> a.status == Enabled && InputsOutputsDisjoint(a.configuration)
  {
  }

  /** Whether some input has the given identifier. */
  method AnyInputWithId(inputs: seq<Reference>, id: Id) returns (found: bool)
    ensures found <==> exists i :: 0 <= i < |inputs| && inputs[i].id == id
  {
    for i := 0 to |inputs|
      invariant forall k :: 0 <= k < i ==> inputs[k].id != id
    {
      if inputs[i].id == id {
        return true;
      }
    }
    return false;
  }

  // ---------------------------------------------------------------------
  // Choice of the event provider

  /** The identifiers of the inputs that are attributes, in order. */
  function AttributeInputs(inputs: seq<Reference>): (r: seq<Id>)
    ensures |r| <= |inputs|
    ensures forall id :: id in r <==> exists k :: 0 <= k < |inputs| && inputs[k].isAttribute && inputs[k].id == id
  {
    if inputs == [] then []
    else
      var rest := AttributeInputs(inputs[1..]);
      assert forall k :: 0 <= k < |inputs| - 1 ==> inputs[1..][k] == inputs[k + 1];
      if inputs[0].isAttribute then [inputs[0].id] + rest else rest
  }

  /** The provider named by the analysis' time-rule plug-in. */
  function GetEventProvider(analysis: Analysis, configuration: Configuration): (r: Result<EventProvider, ProviderError>)
    ensures analysis.timeRulePlugIn.None? ==> r == Err(MissingTimeRulePlugIn)
    ensures analysis.timeRulePlugIn == Some(PlugIn(PeriodicPlugInName)) ==>
              && (r.Ok? <==> analysis.timeRule.Some? && analysis.timeRule.value.plugIn == Some(PlugIn(PeriodicPlugInName)))
              && (r.Ok? ==> r.value == Periodic(PeriodicEventProvider(analysis.timeRule.value)))
              && (r.Err? ==> r.error == InvalidTimeRule)
    ensures analysis.timeRulePlugIn == Some(PlugIn(NaturalPlugInName)) ==>
              r == Ok(Natural(NaturalEventProvider(AttributeInputs(configuration.inputs))))
    ensures (analysis.timeRulePlugIn.Some? && analysis.timeRulePlugIn.value.name != PeriodicPlugInName
              && analysis.timeRulePlugIn.value.name != NaturalPlugInName) ==> r == Err(UnsupportedTimeRule)
  {
    match analysis.timeRulePlugIn
    case None => Err(MissingTimeRulePlugIn)
    case Some(plugIn) =>
      if plugIn.name == PeriodicPlugInName then
        match NewPeriodicEventProvider(analysis.timeRule)
        case Ok(p) => Ok(Periodic(p))
        case Err(e) => Err(e)
      else if plugIn.name == NaturalPlugInName then
        Ok(Natural(NaturalEventProvider(AttributeInputs(configuration.inputs))))
      else
        Err(UnsupportedTimeRule)
  }

  /** `events` is what provider `p` emits over [start, end]. */
  ghost predicate ProvidesEvents(p: EventProvider, events: seq<int>, start: int, end: int, recorded: Id -> seq<RecordedValue>) {
    match p
    case Periodic(pp) => IsPeriodicSchedule(events, pp.timeRule.nextEventEnd, start, end)
    case Natural(np) => IsSchedule(events, TriggerTimes(np.inputs, recorded), start, end)
  }

  ghost predicate ProviderTerminates(p: EventProvider, end: int) {
    p.Periodic? ==> Progresses(p.periodic.timeRule.nextEventEnd, end)
  }

  /** The events of whichever provider `p` is. */
  method ProviderGetEvents(p: EventProvider, start: int, end: int, recorded: Id -> seq<RecordedValue>) returns (events: seq<int>)
    requires ProviderTerminates(p, end)
    ensures ProvidesEvents(p, events, start, end, recorded)
  {
    match p
    case Periodic(pp) =>
      events := PeriodicEvents.GetEvents(pp, start, end);
    case Natural(np) =>
      events := NaturalEvents.GetEvents(np, start, end, recorded);
  }

  /** Both providers emit strictly increasing events, none before `start`;
      the natural provider emits none after `end`, the periodic one at most
      its last. */
  lemma ProvidedEventsAreOrdered(p: EventProvider, events: seq<int>, start: int, end: int, recorded: Id -> seq<RecordedValue>)
    requires ProviderTerminates(p, end)
    requires ProvidesEvents(p, events, start, end, recorded)
    ensures StrictlyIncreasing(events)
    ensures forall i :: 0 <= i < |events| ==> start <= events[i]
    ensures forall i :: 0 <= i < |events| - 1 ==> events[i] <= end
    ensures p.Natural? ==> forall i :: 0 <= i < |events| ==> events[i] <= end
  {
    match p
    case Periodic(pp) =>
      PeriodicScheduleShape(events, pp.timeRule.nextEventEnd, start, end);
    case Natural(np) =>
      forall i | 0 <= i < |events| ensures start <= events[i] <= end {
        var t := events[i];
        assert t in events;
      }
  }

  // ---------------------------------------------------------------------
  // Evaluation

  /** The evaluation error stops the run: it is not an analysis exception, or
      its severity is Error. */
  predicate IsFatal(e: Evaluation) {
    e.OtherError? || (e.DomainError? && e.severity == Error)
  }

  /** Only analysis exceptions of severity Warning let the run go on. */
  lemma FatalUnlessWarning(e: Evaluation)
    requires !e.Evaluated?
    ensures !IsFatal(e) <==> e.DomainError? && e.severity == Warning
  {
  }

  /** The events that are evaluated: those up to and including the first
      fatal one, or all of them. */
  function EvaluatedPrefix(events: seq<int>, evaluate: int -> Evaluation): (r: seq<int>)
    ensures |r| <= |events| && r == events[..|r|]
    ensures forall i :: 0 <= i < |r| - 1 ==> !IsFatal(evaluate(r[i]))
    ensures |r| < |events| ==> r != [] && IsFatal(evaluate(r[|r| - 1]))
  {
    if events == [] then []
    else if IsFatal(evaluate(events[0])) then [events[0]]
    else
      var rest := EvaluatedPrefix(events[1..], evaluate);
      assert forall i :: 0 <= i < |rest| ==> rest[i] == events[i + 1];
      [events[0]] + rest
  }

  /** Every evaluation state has an output slot for each resolved output. */
  ghost predicate OutputsFit(evaluate: int -> Evaluation, resolved: seq<ResolvedOutput>) {
    forall t :: FitsResolved(evaluate(t), resolved)
  }

  predicate FitsResolved(e: Evaluation, resolved: seq<ResolvedOutput>) {
    e.Evaluated? ==> |resolved| <= |e.outputs|
  }

  lemma OutputsFitAt(evaluate: int -> Evaluation, resolved: seq<ResolvedOutput>, t: int)
    requires OutputsFit(evaluate, resolved)
    ensures evaluate(t).Evaluated? ==> |resolved| <= |evaluate(t).outputs|
  {
    assert FitsResolved(evaluate(t), resolved);
  }

  /** The values handed to the output handler by the evaluations of `ts`:
      those of the successful evaluations, in event order. */
  ghost function Forwarded(ts: seq<int>, evaluate: int -> Evaluation, resolved: seq<ResolvedOutput>): seq<AFValue>
    requires OutputsFit(evaluate, resolved)
  {
    if ts == [] then []
    else
      var previous := Forwarded(ts[..|ts| - 1], evaluate, resolved);
      var evaluation := evaluate(ts[|ts| - 1]);
      match evaluation
      case Evaluated(outputs) =>
        OutputsFitAt(evaluate, resolved, ts[|ts| - 1]);
        previous + Publishable(resolved, outputs, |resolved|)
      case _ => previous
  }

  /** Forwarding distributes over the concatenation of event lists. */
  lemma {:induction false} ForwardedAppend(a: seq<int>, b: seq<int>, evaluate: int -> Evaluation, resolved: seq<ResolvedOutput>)
    requires OutputsFit(evaluate, resolved)
    ensures Forwarded(a + b, evaluate, resolved) == Forwarded(a, evaluate, resolved) + Forwarded(b, evaluate, resolved)
  {
    if b == [] {
      assert a + b == a;
    } else {
      var init := b[..|b| - 1];
      ForwardedAppend(a, init, evaluate, resolved);
      assert (a + b)[..|a + b| - 1] == a + init;
    }
  }

  /** Every value handed to the output handler, hence every value written, is
      bound to an attribute. */
  lemma {:induction false} ForwardedValuesAreBound(ts: seq<int>, evaluate: int -> Evaluation, resolved: seq<ResolvedOutput>)
    requires OutputsFit(evaluate, resolved)
    ensures forall k :: 0 <= k < |Forwarded(ts, evaluate, resolved)| ==> Forwarded(ts, evaluate, resolved)[k].attribute.Some?
  {
    if ts != [] {
      var init := ts[..|ts| - 1];
      var t := ts[|ts| - 1];
      ForwardedValuesAreBound(init, evaluate, resolved);
      OutputsFitAt(evaluate, resolved, t);
      if evaluate(t).Evaluated? {
        PublishableValuesAreBound(resolved, evaluate(t).outputs, |resolved|);
      }
    }
  }

  /** A fatal error at event k stops the run there: events 0..k are
      evaluated, later ones are not, and the values of the successful
      evaluations before k are still forwarded. */
  lemma {:induction false} FatalStopsRun(events: seq<int>, evaluate: int -> Evaluation, resolved: seq<ResolvedOutput>, k: nat)
    requires OutputsFit(evaluate, resolved)
    requires k < |events| && IsFatal(evaluate(events[k]))
    requires forall i :: 0 <= i < k ==> !IsFatal(evaluate(events[i]))
    ensures EvaluatedPrefix(events, evaluate) == events[..k + 1]
    ensures Forwarded(EvaluatedPrefix(events, evaluate), evaluate, resolved) == Forwarded(events[..k], evaluate, resolved)
  {
    if k > 0 {
      var tail := events[1..];
      assert !IsFatal(evaluate(events[0]));
      assert forall i :: 0 <= i < k - 1 ==> tail[i] == events[i + 1];
      FatalStopsRun(tail, evaluate, resolved, k - 1);
      assert events[..k + 1] == [events[0]] + tail[..k];
    }
    assert events[..k + 1][..k] == events[..k];
  }

  /** Without a fatal error every event is evaluated. */
  lemma {:induction false} NoFatalEvaluatesAll(events: seq<int>, evaluate: int -> Evaluation)
    requires forall i :: 0 <= i < |events| ==> !IsFatal(evaluate(events[i]))
    ensures EvaluatedPrefix(events, evaluate) == events
  {
    if events != [] {
      var tail := events[1..];
      assert forall i :: 0 <= i < |tail| ==> tail[i] == events[i + 1];
      NoFatalEvaluatesAll(tail, evaluate);
      assert events == [events[0]] + tail;
    }
  }

  class AnalysisExecutor {
    const analysis: Analysis
    /** The configuration read by the last validation. */
    var configuration: Option<Configuration>

    constructor (analysis: Analysis)
      ensures this.analysis == analysis && configuration == None
    {
      this.analysis := analysis;
      configuration := None;
    }

    /** Checks that the analysis can be evaluated; the configuration is read
        only when the analysis is enabled. */
    method TryValidate() returns (ok: bool)
      modifies this
      ensures ok == Runnable(analysis)
      ensures analysis.status != Enabled ==> configuration == old(configuration)
      ensures analysis.status == Enabled ==> configuration == Some(analysis.configuration)
    {
      if analysis.status != Enabled {
        return false;
      }
      configuration := Some(analysis.configuration);
      var config := analysis.configuration;
      if |config.exceptions| > 0 {
        var errorCount := CountOfSeverity(config.exceptions, Error);
        if errorCount > 0 {
          return false;
        }
      }
      var inputs, outputs := config.inputs, config.outputs;
      for k := 0 to |outputs|
        invariant configuration == Some(analysis.configuration)
        invariant forall j, i :: 0 <= j < k && 0 <= i < |inputs| ==> outputs[j].id != inputs[i].id
      {
        var shared := AnyInputWithId(inputs, outputs[k].id);
        if shared {
          var i :| 0 <= i < |inputs| && inputs[i].id == outputs[k].id;
          assert config.outputs[k].id == config.inputs[i].id;
          assert !InputsOutputsDisjoint(config);
          return false;
        }
      }
      return true;
    }

    /** Re-runs the analysis over [start, end]. `recorded` answers the
        recorded-values queries of the natural provider, `evaluate` is the
        rule's evaluation at an event, `write` the bulk write. The ghost
        results are the events the provider emits, the events evaluated, and
        the bulk writes issued. */
    method Run(start: int, end: int, recorded: Id -> seq<RecordedValue>, evaluate: int -> Evaluation,
               write: WriteRequest -> WriteOutcome)
      returns (outcome: RunOutcome, ghost events: seq<int>, ghost evaluated: seq<int>, ghost writes: seq<WriteRequest>)
      requires Runnable(analysis) && analysis.timeRulePlugIn == Some(PlugIn(PeriodicPlugInName)) && analysis.timeRule.Some? ==>
                 Progresses(analysis.timeRule.value.nextEventEnd, end)
      requires OutputsFit(evaluate, analysis.configuration.resolvedOutputs)
      modifies this
      ensures analysis.status != Enabled ==> configuration == old(configuration)
      ensures analysis.status == Enabled ==> configuration == Some(analysis.configuration)
      ensures !Runnable(analysis) ==> outcome == ConfigurationRejected && evaluated == [] && writes == []
      ensures Runnable(analysis) && GetEventProvider(analysis, analysis.configuration).Err? ==>
                outcome == TimeRuleRejected(GetEventProvider(analysis, analysis.configuration).error)
                && evaluated == [] && writes == []
      ensures Runnable(analysis) && GetEventProvider(analysis, analysis.configuration).Ok? ==>
                var resolved := analysis.configuration.resolvedOutputs;
                var request := WriteRequest(Forwarded(evaluated, evaluate, resolved), Replace);
                && ProvidesEvents(GetEventProvider(analysis, analysis.configuration).value, events, start, end, recorded)
                && evaluated == EvaluatedPrefix(events, evaluate)
                && writes == [request]
                && outcome.Finished?
                && (outcome.aborted <==> evaluated != [] && IsFatal(evaluate(evaluated[|evaluated| - 1])))
                && outcome.report == FlushReportFor(|request.values|, write(request))
    {
      events, evaluated, writes := [], [], [];
      var valid := TryValidate();
      if !valid {
        return ConfigurationRejected, events, evaluated, writes;
      }
      var config := configuration.value;
      var provider := GetEventProvider(analysis, config);
      if provider.Err? {
        return TimeRuleRejected(provider.error), events, evaluated, writes;
      }
      var eventList := ProviderGetEvents(provider.value, start, end, recorded);
      events := eventList;
      var resolved := config.resolvedOutputs;
      var outputHandler := new OutputHandler(config);
      var aborted := false;
      var i := 0;
      while i < |eventList|
        invariant 0 <= i <= |eventList|
        invariant evaluated == events[..i]
        invariant forall j :: 0 <= j < i ==> !IsFatal(evaluate(events[j]))
        invariant outputHandler.configuration == config
        invariant outputHandler.values == Forwarded(evaluated, evaluate, resolved)
        invariant outputHandler.writeLog == []
        invariant configuration == Some(analysis.configuration)
      {
        var time := eventList[i];
        assert events[..i + 1] == evaluated + [time];
        evaluated := evaluated + [time];
        var evaluation := evaluate(time);
        match evaluation {
          case Evaluated(outputs) =>
            OutputsFitAt(evaluate, resolved, time);
            outputHandler.ProcessOutputs(outputs);
          case DomainError(severity, _) =>
            if severity == Error {
              aborted := true;
              FatalStopsRun(events, evaluate, resolved, i);
              break;
            }
          case OtherError(_) =>
            aborted := true;
            FatalStopsRun(events, evaluate, resolved, i);
            break;
        }
        i := i + 1;
      }
      if !aborted {
        assert eventList[..|eventList|] == eventList;
        NoFatalEvaluatesAll(events, evaluate);
      }
      var report := outputHandler.Flush(write);
      writes := outputHandler.writeLog;
      outcome := Finished(aborted, report);
    }
  }
}
