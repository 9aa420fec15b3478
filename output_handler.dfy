/** The output handler: it buffers the mapped time-series outputs of every
    successful evaluation and publishes the buffer in one bulk write. */
module Output {
  import opened Types

  /** Update modes of the bulk write. */
  datatype UpdateOption = Replace | Insert | NoReplace | ReplaceOnly | InsertNoCompression | Remove

  /** One bulk write request: the values and the update mode. */
  datatype WriteRequest = WriteRequest(values: seq<AFValue>, option: UpdateOption)

  /** The error report of a bulk write: the number of values that failed
      individually, and the number of errors raised by AF servers and by data
      archives. */
  datatype WriteErrors = WriteErrors(itemErrors: nat, systemErrors: nat, serverErrors: nat) {
    predicate HasErrors() {
      itemErrors > 0 || systemErrors > 0 || serverErrors > 0
    }
  }

  /** What the bulk write does: it throws, or returns an error report (or
      none). */
  datatype WriteOutcome = Throws(message: string) | Returned(errors: Option<WriteErrors>)

  /** What a flush reports: the write call failed outright, or `count` values
      were published, with the error counts of each kind. */
  datatype FlushReport =
    | PublishFailed(message: string)
    | Published(count: int, systemErrors: nat, serverErrors: nat, itemErrors: nat)

  /** The number of values the bulk write reports as failed individually. */
  function ItemErrorCount(outcome: WriteOutcome): nat {
    if outcome.Returned? && outcome.errors.Some? then outcome.errors.value.itemErrors else 0
  }

  /** The report of a flush of `submitted` values whose bulk write ended with
      `outcome`. */
  function FlushReportFor(submitted: nat, outcome: WriteOutcome): (r: FlushReport)
    ensures r.PublishFailed? <==> outcome.Throws?
    ensures r.Published? ==> r.count == submitted - ItemErrorCount(outcome)
    ensures r.Published? ==> r.itemErrors == ItemErrorCount(outcome)
    ensures outcome.Returned? && outcome.errors.Some? ==>
              r.systemErrors == outcome.errors.value.systemErrors && r.serverErrors == outcome.errors.value.serverErrors
    ensures outcome == Returned(None) ==> r == Published(submitted, 0, 0, 0)
  {
    match outcome
    case Throws(message) => PublishFailed(message)
    case Returned(None) => Published(submitted, 0, 0, 0)
    case Returned(Some(errors)) =>
      var written := if errors.HasErrors() && errors.itemErrors > 0 then submitted - errors.itemErrors else submitted;
      Published(written, errors.systemErrors, errors.serverErrors, errors.itemErrors)
  }

  /** Errors raised by AF servers or data archives are reported but do not
      lower the published count; only item-level errors do. */
  lemma SystemAndServerErrorsKeepCount(submitted: nat, items: nat, system1: nat, server1: nat, system2: nat, server2: nat)
    ensures FlushReportFor(submitted, Returned(Some(WriteErrors(items, system1, server1)))).count
         == FlushReportFor(submitted, Returned(Some(WriteErrors(items, system2, server2)))).count
    ensures FlushReportFor(submitted, Returned(Some(WriteErrors(0, system1, server1)))).count == submitted
  {
  }

  /** Output slot `i` is published: it holds a time-series value and is
      mapped to an attribute. */
  predicate IsMapped(resolved: ResolvedOutput, output: OutputValue) {
    output.TimeSeriesValue? && resolved.attribute.Some?
  }

  /** The values the handler appends for the first `n` output slots of one
      evaluation. */
  function Publishable(resolved: seq<ResolvedOutput>, outputs: seq<OutputValue>, n: nat): seq<AFValue>
    requires n <= |resolved| && n <= |outputs|
  {
    if n == 0 then []
    else
      var previous := Publishable(resolved, outputs, n - 1);
      if IsMapped(resolved[n - 1], outputs[n - 1])
      then previous + [outputs[n - 1].value.(attribute := resolved[n - 1].attribute)]
      else previous
  }

  /** The indices, below `n`, of the mapped output slots. */
  function MappedIndices(resolved: seq<ResolvedOutput>, outputs: seq<OutputValue>, n: nat): (r: seq<nat>)
    requires n <= |resolved| && n <= |outputs|
    ensures StrictlyIncreasing(r)
    ensures forall k :: 0 <= k < |r| ==> r[k] < n
    ensures forall i :: 0 <= i < n ==> (i in r <==> IsMapped(resolved[i], outputs[i]))
  {
    if n == 0 then []
    else
      var previous := MappedIndices(resolved, outputs, n - 1);
      if IsMapped(resolved[n - 1], outputs[n - 1]) then previous + [n - 1] else previous
  }

  /** The handler publishes exactly the mapped time-series outputs, in slot
      order, each bound to the attribute of its resolved output and otherwise
      unchanged. */
  lemma {:induction false} PublishableFollowsMappedIndices(resolved: seq<ResolvedOutput>, outputs: seq<OutputValue>, n: nat)
    requires n <= |resolved| && n <= |outputs|
    ensures |Publishable(resolved, outputs, n)| == |MappedIndices(resolved, outputs, n)|
    ensures forall k :: 0 <= k < |MappedIndices(resolved, outputs, n)| ==>
              var i := MappedIndices(resolved, outputs, n)[k];
              outputs[i].TimeSeriesValue? &&
              Publishable(resolved, outputs, n)[k] == outputs[i].value.(attribute := resolved[i].attribute)
  {
    if n > 0 {
      PublishableFollowsMappedIndices(resolved, outputs, n - 1);
    }
  }

  /** Every value the handler appends is bound to an attribute. */
  lemma {:induction false} PublishableValuesAreBound(resolved: seq<ResolvedOutput>, outputs: seq<OutputValue>, n: nat)
    requires n <= |resolved| && n <= |outputs|
    ensures forall k :: 0 <= k < |Publishable(resolved, outputs, n)| ==> Publishable(resolved, outputs, n)[k].attribute.Some?
  {
    if n > 0 {
      PublishableValuesAreBound(resolved, outputs, n - 1);
    }
  }

  /** Slots that hold event frames or other values, or that are not mapped,
      contribute nothing. */
  lemma {:induction false} UnmappedOutputsContributeNothing(resolved: seq<ResolvedOutput>, outputs: seq<OutputValue>, n: nat)
    requires n <= |resolved| && n <= |outputs|
    requires forall i :: 0 <= i < n ==> !IsMapped(resolved[i], outputs[i])
    ensures Publishable(resolved, outputs, n) == []
  {
    if n > 0 {
      UnmappedOutputsContributeNothing(resolved, outputs, n - 1);
    }
  }

  class OutputHandler {
    const configuration: Configuration
    /** The buffer of values awaiting the next flush. */
    var values: seq<AFValue>
    /** Event frames are not handled yet; this list is never changed. */
    var eventFrames: seq<string>
    /** Every bulk write request issued so far. */
    ghost var writeLog: seq<WriteRequest>

    constructor (configuration: Configuration)
      ensures this.configuration == configuration
      ensures values == [] && eventFrames == [] && writeLog == []
    {
      this.configuration := configuration;
      values := [];
      eventFrames := [];
      writeLog := [];
    }

    /** Appends the mapped time-series outputs of one evaluation state. */
    method ProcessOutputs(outputs: seq<OutputValue>)
      requires |configuration.resolvedOutputs| <= |outputs|
      modifies this
      ensures values == old(values) + Publishable(configuration.resolvedOutputs, outputs, |configuration.resolvedOutputs|)
      ensures eventFrames == old(eventFrames) && writeLog == old(writeLog)
    {
      var resolved := configuration.resolvedOutputs;
      for i := 0 to |resolved|
        invariant values == old(values) + Publishable(resolved, outputs, i)
        invariant eventFrames == old(eventFrames) && writeLog == old(writeLog)
      {
        var resolvedOutput := resolved[i];
        var value := outputs[i];
        if value.TimeSeriesValue? {
          if resolvedOutput.attribute.Some? {
            values := values + [value.value.(attribute := resolvedOutput.attribute)];
          }
        } else if value.EventFrameValue? {
          // event frames are not handled
        }
      }
    }

    /** Publishes the whole buffer in one bulk write in Replace mode, then
        empties the buffer whatever the outcome. */
    method Flush(write: WriteRequest -> WriteOutcome) returns (report: FlushReport)
      modifies this
      ensures values == []
      ensures writeLog == old(writeLog) + [WriteRequest(old(values), Replace)]
      ensures report == FlushReportFor(|old(values)|, write(WriteRequest(old(values), Replace)))
      ensures eventFrames == old(eventFrames)
    {
      var numValuesWritten: int := 0;
      var request := WriteRequest(values, Replace);
      writeLog := writeLog + [request];
      var outcome := write(request);
      if outcome.Throws? {
        values := [];
        report := PublishFailed(outcome.message);
        return;
      }
      numValuesWritten := numValuesWritten + |values|;
      values := [];
      var errors := outcome.errors;
      var systemErrors, serverErrors, itemErrors := 0, 0, 0;
      if errors.Some? && errors.value.HasErrors() {
        systemErrors := errors.value.systemErrors;
        serverErrors := errors.value.serverErrors;
        itemErrors := errors.value.itemErrors;
        if errors.value.itemErrors > 0 {
          numValuesWritten := numValuesWritten - errors.value.itemErrors;
        }
      }
      report := Published(numValuesWritten, systemErrors, serverErrors, itemErrors);
    }
  }
}
