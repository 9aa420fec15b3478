/** Value types shared by the event providers, the output handler and the
    analysis executor. Timestamps are integer ticks; identifiers of AF objects
    (attribute GUIDs) are integers. */
module Types {

  /** An AF object identifier (a GUID in the platform). */
  type Id = int

  datatype Option<+T> = None | Some(value: T)

  datatype Result<+T, +E> = Ok(value: T) | Err(error: E)

  /** Severity of a configuration diagnostic or of an analysis exception. */
  datatype Severity = Warning | Error

  /** Operational status of an analysis; only an enabled one may be run. */
  datatype Status = Enabled | Disabled

  /** One recorded value of an input attribute; only the timestamp is used to
      discover events, the payload is carried along and ignored. */
  datatype RecordedValue = RecordedValue(timestamp: int, payload: int)

  /** A time-series value produced by the rule; `attribute` is the attribute
      it will be written to, `None` while it is unbound. */
  datatype AFValue = AFValue(timestamp: int, payload: int, attribute: Option<Id>)

  /** What the rule leaves in one output slot of its evaluation state:
      a time-series value, an event frame, or anything else (e.g. null). */
  datatype OutputValue =
    | TimeSeriesValue(value: AFValue)
    | EventFrameValue(frameName: string)
    | OtherValue

  /** A resolved output slot: `attribute` is `Some` only when the slot is
      mapped to a concrete attribute. */
  datatype ResolvedOutput = ResolvedOutput(displayName: string, attribute: Option<Id>)

  /** An input or output reference of a configuration; `isAttribute` tells
      whether the referenced object is an attribute. */
  datatype Reference = Reference(id: Id, name: string, isAttribute: bool)

  /** A configuration diagnostic. */
  datatype ConfigurationException = ConfigurationException(severity: Severity, message: string)

  /** The resolved configuration of an analysis rule. `resolvedOutputs` is
      parallel to the output slots of every evaluation state. */
  datatype Configuration = Configuration(
    inputs: seq<Reference>,
    outputs: seq<Reference>,
    resolvedOutputs: seq<ResolvedOutput>,
    exceptions: seq<ConfigurationException>)

  datatype PlugIn = PlugIn(name: string)

  /** A time rule: its plug-in (possibly missing) and its step function,
      which maps an instant to the end time of the next event after it. */
  datatype TimeRule = TimeRule(plugIn: Option<PlugIn>, nextEventEnd: int -> int)

  /** The analysis definition as the executor sees it. `configuration` is
      what the rule's configuration query returns. */
  datatype Analysis = Analysis(
    path: string,
    status: Status,
    timeRule: Option<TimeRule>,
    timeRulePlugIn: Option<PlugIn>,
    configuration: Configuration)

  predicate StrictlyIncreasing(s: seq<int>) {
    forall i, j :: 0 <= i < j < |s| ==> s[i] < s[j]
  }

  /** Why no event provider could be built for an analysis. */
  datatype ProviderError =
    | InvalidTimeRule          // the periodic provider refused the time rule
    | UnsupportedTimeRule      // the time-rule plug-in is neither Periodic nor Natural
    | MissingTimeRulePlugIn    // the analysis has no time-rule plug-in to inspect

  /** Comparing each element with its successor is enough for a sequence to be
      strictly increasing. */
  lemma {:induction false} AdjacentIncreasing(s: seq<int>)
    requires forall i :: 0 <= i < |s| - 1 ==> s[i] < s[i + 1]
    ensures StrictlyIncreasing(s)
  {
    if |s| > 1 {
      var rest := s[1..];
      assert forall i :: 0 <= i < |rest| - 1 ==> rest[i] < rest[i + 1] by {
        forall i | 0 <= i < |rest| - 1 ensures rest[i] < rest[i + 1] {
          assert rest[i] == s[i + 1] && rest[i + 1] == s[i + 2];
        }
      }
      AdjacentIncreasing(rest);
      forall i, j | 0 <= i < j < |s| ensures s[i] < s[j] {
        if i == 0 {
          if j > 1 {
            assert rest[0] < rest[j - 1];
          }
        } else {
          assert rest[i - 1] < rest[j - 1];
        }
      }
    }
  }

  /** The first element of a non-empty sequence is one of its elements. */
  lemma HeadMember<T>(s: seq<T>)
    requires s != []
    ensures s[0] in s
  {
  }
}
