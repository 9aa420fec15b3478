/** The periodic event provider: it steps the time rule's "next event"
    function from one tick before the start of the range until the last
    event reached or passed the end of the range. */
module PeriodicEvents {
  import opened Types

  const PeriodicPlugInName: string := "Periodic"

  datatype PeriodicEventProvider = PeriodicEventProvider(timeRule: TimeRule)

  /** The constructor guard: a missing time rule, a time rule without a
      plug-in, or a plug-in of another name is refused. */
  function NewPeriodicEventProvider(timeRule: Option<TimeRule>): (r: Result<PeriodicEventProvider, ProviderError>)
    ensures timeRule.None? ==> r == Err(InvalidTimeRule)
    ensures timeRule.Some? && timeRule.value.plugIn.None? ==> r == Err(InvalidTimeRule)
    ensures timeRule.Some? && timeRule.value.plugIn.Some? ==>
              (r.Ok? <==> timeRule.value.plugIn.value.name == PeriodicPlugInName)
    ensures r.Err? ==> r.error == InvalidTimeRule
    ensures r.Ok? ==> timeRule.Some? && r.value.timeRule == timeRule.value
  {
    if timeRule.None? || timeRule.value.plugIn.None? || timeRule.value.plugIn.value.name != PeriodicPlugInName then
      Err(InvalidTimeRule)
    else
      Ok(PeriodicEventProvider(timeRule.value))
  }

  /** The instant reached after `n` steps of `next` from one tick before
      `start`. */
  function NthStep(next: int -> int, start: int, n: nat): int {
    if n == 0 then start - 1 else next(NthStep(next, start, n - 1))
  }

  /** The step function advances every instant before `end`; without this the
      stepping loop need not terminate. */
  ghost predicate Progresses(next: int -> int, end: int) {
    forall t :: t < end ==> next(t) > t
  }

  /** `events` is what the stepping loop emits: the loop guard held before
      each of the |events| steps and failed after the last, and the i-th
      event is the instant reached after i+1 steps. */
  ghost predicate IsPeriodicSchedule(events: seq<int>, next: int -> int, start: int, end: int) {
    && (forall i :: 0 <= i < |events| ==> NthStep(next, start, i) < end)
    && (forall i :: 0 <= i < |events| ==> events[i] == NthStep(next, start, i + 1))
    && NthStep(next, start, |events|) >= end
  }

  method GetEvents(p: PeriodicEventProvider, start: int, end: int) returns (events: seq<int>)
    requires Progresses(p.timeRule.nextEventEnd, end)
    ensures IsPeriodicSchedule(events, p.timeRule.nextEventEnd, start, end)
    ensures StrictlyIncreasing(events)
  {
    var next := p.timeRule.nextEventEnd;
    var lastTime := start - 1;
    events := [];
    while lastTime < end
      invariant lastTime == NthStep(next, start, |events|)
      invariant forall i :: 0 <= i < |events| ==> NthStep(next, start, i) < end
      invariant forall i :: 0 <= i < |events| ==> events[i] == NthStep(next, start, i + 1)
      invariant forall i :: 0 <= i < |events| ==> events[i] <= lastTime
      invariant StrictlyIncreasing(events)
      decreases end - lastTime
    {
      lastTime := next(lastTime);
      events := events + [lastTime];
    }
  }

  /** What a periodic schedule looks like: every event but the last is before
      `end`, the last is at or after `end` (it may lie beyond it), events are
      emitted exactly when the range is not empty, every event is at or after
      `start`, and the events strictly increase. */
  lemma {:induction false} PeriodicScheduleShape(events: seq<int>, next: int -> int, start: int, end: int)
    requires Progresses(next, end)
    requires IsPeriodicSchedule(events, next, start, end)
    ensures forall i :: 0 <= i < |events| - 1 ==> events[i] < end
    ensures |events| > 0 ==> events[|events| - 1] >= end
    ensures |events| > 0 <==> start <= end
    ensures forall i :: 0 <= i < |events| ==> start <= events[i]
    ensures StrictlyIncreasing(events)
  {
    forall i | 0 <= i < |events| - 1
      ensures events[i] < end && events[i] < events[i + 1]
    {
      assert NthStep(next, start, i + 1) < end;
      assert events[i + 1] == next(events[i]);
    }
    if |events| > 0 {
      assert events[|events| - 1] == NthStep(next, start, |events|);
      assert NthStep(next, start, 0) < end;
    } else {
      assert NthStep(next, start, 0) >= end;
    }
    AdjacentIncreasing(events);
    if |events| > 0 {
      assert start <= events[0] by {
        assert NthStep(next, start, 0) == start - 1 < end;
      }
      forall i | 0 <= i < |events|
        ensures start <= events[i]
      {
        assert events[0] <= events[i];
      }
    }
  }

  /** The schedule is determined by the step function and the range: the
      loop emits one sequence and no other. */
  lemma {:induction false} PeriodicScheduleUnique(a: seq<int>, b: seq<int>, next: int -> int, start: int, end: int)
    requires IsPeriodicSchedule(a, next, start, end)
    requires IsPeriodicSchedule(b, next, start, end)
    ensures a == b
  {
    if |a| < |b| {
      assert false;
    } else if |b| < |a| {
      assert false;
    }
    assert |a| == |b|;
    forall i | 0 <= i < |a| ensures a[i] == b[i] {
    }
  }

  /** The first step is taken from one tick before `start`. */
  lemma FirstStepFromTickBeforeStart(events: seq<int>, next: int -> int, start: int, end: int)
    requires IsPeriodicSchedule(events, next, start, end)
    requires |events| > 0
    ensures events[0] == next(start - 1)
  {
    assert NthStep(next, start, 0) == start - 1;
  }

  /** An hourly time rule over minute ticks: the end of the hour-long event
      that starts at or after `t`. */
  function HourlyEventEnd(t: int): int {
    ((t + 59) / 60) * 60 + 60
  }

  /** Over 09:00-11:30 (minutes 540 to 690) the hourly rule yields 10:00,
      11:00 and 12:00: the last event lies half an hour past the end of the
      range. */
  lemma HourlyScheduleOvershoots(events: seq<int>)
    requires IsPeriodicSchedule(events, HourlyEventEnd, 540, 690)
    ensures events == [600, 660, 720]
    ensures events[|events| - 1] > 690
  {
    var expected := [600, 660, 720];
    assert NthStep(HourlyEventEnd, 540, 0) == 539;
    assert NthStep(HourlyEventEnd, 540, 1) == 600;
    assert NthStep(HourlyEventEnd, 540, 2) == 660;
    assert NthStep(HourlyEventEnd, 540, 3) == 720;
    assert IsPeriodicSchedule(expected, HourlyEventEnd, 540, 690);
    PeriodicScheduleUnique(events, expected, HourlyEventEnd, 540, 690);
  }
}
