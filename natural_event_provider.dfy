/** The natural event provider: the events are the timestamps of the values
    recorded for the input attributes, deduplicated, sorted and kept only
    when they fall inside the range. */
module NaturalEvents {
  import opened Types

  datatype NaturalEventProvider = NaturalEventProvider(inputs: seq<Id>)

  /** The timestamps of a list of recorded values. */
  function Stamps(values: seq<RecordedValue>): set<int> {
    set v | v in values :: v.timestamp
  }

  /** Every timestamp recorded for any of the inputs. `recorded(a)` is what
      the data store returns for attribute `a` over the queried range. */
  function TriggerTimes(inputs: seq<Id>, recorded: Id -> seq<RecordedValue>): set<int> {
    set a, v | a in inputs && v in recorded(a) :: v.timestamp
  }

  /** `events` lists, in strictly increasing order, exactly the instants of
      `times` that lie in the closed range [start, end]. */
  ghost predicate IsSchedule(events: seq<int>, times: set<int>, start: int, end: int) {
    && StrictlyIncreasing(events)
    && forall t :: t in events <==> t in times && start <= t <= end
  }

  /** Every non-empty finite set of instants has a least element. */
  lemma {:induction false} HasMinimum(s: set<int>)
    requires s != {}
    ensures exists m :: m in s && forall x :: x in s ==> m <= x
  {
    if forall y :: y !in s {
      assert false;
    }
    var y :| y in s;
    var rest := s - {y};
    if rest == {} {
      forall x | x in s ensures y <= x {
        assert x !in rest;
      }
    } else {
      HasMinimum(rest);
      var m :| m in rest && forall x :: x in rest ==> m <= x;
      var least := if y < m then y else m;
      forall x | x in s ensures least <= x {
        if x != y {
          assert x in rest;
        }
      }
      assert least in s;
    }
  }

  /** The list of a set's elements in ascending order (the set is turned into
      a list and sorted). */
  method SortedElements(s: set<int>) returns (r: seq<int>)
    ensures StrictlyIncreasing(r)
    ensures forall t :: t in r <==> t in s
  {
    var rest := s;
    r := [];
    while rest != {}
      invariant forall t :: t in s <==> t in r || t in rest
      invariant StrictlyIncreasing(r)
      invariant forall i, y :: 0 <= i < |r| && y in rest ==> r[i] < y
      decreases |rest|
    {
      HasMinimum(rest);
      var m :| m in rest && forall x :: x in rest ==> m <= x;
      ghost var before := r;
      r := r + [m];
      rest := rest - {m};
      assert forall i :: 0 <= i < |before| ==> r[i] == before[i];
    }
  }

  /** Adding one more input adds its timestamps. */
  lemma TriggerTimesSnoc(inputs: seq<Id>, i: nat, recorded: Id -> seq<RecordedValue>)
    requires i < |inputs|
    ensures TriggerTimes(inputs[..i + 1], recorded) == TriggerTimes(inputs[..i], recorded) + Stamps(recorded(inputs[i]))
  {
    var before, after := inputs[..i], inputs[..i + 1];
    var last := inputs[i];
    assert after == before + [last];
    forall t | t in TriggerTimes(after, recorded)
      ensures t in TriggerTimes(before, recorded) + Stamps(recorded(last))
    {
      var a, v :| a in after && v in recorded(a) && v.timestamp == t;
      if a == last {
        assert t in Stamps(recorded(last));
      } else {
        assert a in before;
      }
    }
    forall t | t in TriggerTimes(before, recorded) + Stamps(recorded(last))
      ensures t in TriggerTimes(after, recorded)
    {
      if t in Stamps(recorded(last)) {
        var v :| v in recorded(last) && v.timestamp == t;
        assert last in after;
      } else {
        var a, v :| a in before && v in recorded(a) && v.timestamp == t;
        assert a in after;
      }
    }
  }

  method GetEvents(p: NaturalEventProvider, start: int, end: int, recorded: Id -> seq<RecordedValue>)
    returns (events: seq<int>)
    ensures IsSchedule(events, TriggerTimes(p.inputs, recorded), start, end)
  {
    var found: set<int> := {};
    for i := 0 to |p.inputs|
      invariant found == TriggerTimes(p.inputs[..i], recorded)
    {
      var values := recorded(p.inputs[i]);
      for j := 0 to |values|
        invariant found == TriggerTimes(p.inputs[..i], recorded) + Stamps(values[..j])
      {
        assert values[..j + 1] == values[..j] + [values[j]];
        found := found + {values[j].timestamp};
      }
      assert values[..|values|] == values;
      TriggerTimesSnoc(p.inputs, i, recorded);
    }
    assert p.inputs[..|p.inputs|] == p.inputs;
    var uniqueEvents := SortedElements(found);
    events := [];
    for k := 0 to |uniqueEvents|
      invariant StrictlyIncreasing(events)
      invariant forall t :: t in events <==> t in uniqueEvents[..k] && start <= t <= end
      invariant k < |uniqueEvents| ==> forall i :: 0 <= i < |events| ==> events[i] < uniqueEvents[k]
    {
      var ev := uniqueEvents[k];
      assert uniqueEvents[..k + 1] == uniqueEvents[..k] + [ev];
      ghost var before := events;
      if start <= ev && ev <= end {
        events := events + [ev];
        assert forall i :: 0 <= i < |before| ==> events[i] == before[i];
      }
      if k + 1 < |uniqueEvents| {
        assert ev < uniqueEvents[k + 1];
      }
    }
    assert uniqueEvents[..|uniqueEvents|] == uniqueEvents;
  }

  /** The tail of a strictly increasing sequence holds its elements other
      than the first. */
  lemma TailMembers(s: seq<int>, t: int)
    requires StrictlyIncreasing(s) && s != []
    ensures t in s[1..] <==> t in s && t != s[0]
  {
    if t in s[1..] {
      var i :| 0 <= i < |s[1..]| && s[1..][i] == t;
      assert s[i + 1] == t;
    }
    if t in s && t != s[0] {
      var j :| 0 <= j < |s| && s[j] == t;
      assert s[1..][j - 1] == t;
    }
  }

  /** Two strictly increasing sequences with the same elements are equal. */
  lemma {:induction false} IncreasingUnique(a: seq<int>, b: seq<int>)
    requires StrictlyIncreasing(a) && StrictlyIncreasing(b)
    requires forall t :: t in a <==> t in b
    ensures a == b
  {
    if a != [] && b != [] {
      var x, y := a[0], b[0];
      assert x in a && y in b;
      var j :| 0 <= j < |b| && b[j] == x;
      var i :| 0 <= i < |a| && a[i] == y;
      assert y <= x && x <= y;
      forall t ensures t in a[1..] <==> t in b[1..] {
        TailMembers(a, t);
        TailMembers(b, t);
      }
      IncreasingUnique(a[1..], b[1..]);
      assert a == [x] + a[1..] && b == [y] + b[1..];
    } else if a != [] {
      HeadMember(a);
      assert false;
    } else if b != [] {
      HeadMember(b);
      assert false;
    }
  }

  /** The set of trigger times does not depend on the order of the inputs nor
      on an input being listed twice. */
  lemma InputOrderIrrelevant(inputs1: seq<Id>, inputs2: seq<Id>, recorded: Id -> seq<RecordedValue>)
    requires forall a :: a in inputs1 <==> a in inputs2
    ensures TriggerTimes(inputs1, recorded) == TriggerTimes(inputs2, recorded)
  {
  }

  /** The set of trigger times depends only on the timestamps recorded for
      each input, not on the payloads nor on the order of the values. */
  lemma PayloadIrrelevant(inputs: seq<Id>, recorded1: Id -> seq<RecordedValue>, recorded2: Id -> seq<RecordedValue>)
    requires forall a :: a in inputs ==> Stamps(recorded1(a)) == Stamps(recorded2(a))
    ensures TriggerTimes(inputs, recorded1) == TriggerTimes(inputs, recorded2)
  {
    forall t | t in TriggerTimes(inputs, recorded1) ensures t in TriggerTimes(inputs, recorded2) {
      var a, v :| a in inputs && v in recorded1(a) && v.timestamp == t;
      assert t in Stamps(recorded1(a));
      var w :| w in recorded2(a) && w.timestamp == t;
    }
    forall t | t in TriggerTimes(inputs, recorded2) ensures t in TriggerTimes(inputs, recorded1) {
      var a, v :| a in inputs && v in recorded2(a) && v.timestamp == t;
      assert t in Stamps(recorded2(a));
      var w :| w in recorded1(a) && w.timestamp == t;
    }
  }

  /** The emitted events are determined by the set of inputs and the
      timestamps recorded for them: reordering the inputs, or changing the
      payloads of the recorded values, yields the same events. */
  lemma EventsDependOnlyOnTimestamps(
    events1: seq<int>, inputs1: seq<Id>, recorded1: Id -> seq<RecordedValue>,
    events2: seq<int>, inputs2: seq<Id>, recorded2: Id -> seq<RecordedValue>,
    start: int, end: int)
    requires forall a :: a in inputs1 <==> a in inputs2
    requires forall a :: a in inputs1 ==> Stamps(recorded1(a)) == Stamps(recorded2(a))
    requires IsSchedule(events1, TriggerTimes(inputs1, recorded1), start, end)
    requires IsSchedule(events2, TriggerTimes(inputs2, recorded2), start, end)
    ensures events1 == events2
  {
    PayloadIrrelevant(inputs1, recorded1, recorded2);
    InputOrderIrrelevant(inputs1, inputs2, recorded2);
    IncreasingUnique(events1, events2);
  }

  /** With no inputs, or no values recorded for any of them, nothing is
      emitted. */
  lemma NoRecordedValuesNoEvents(events: seq<int>, inputs: seq<Id>, recorded: Id -> seq<RecordedValue>, start: int, end: int)
    requires forall a :: a in inputs ==> recorded(a) == []
    requires IsSchedule(events, TriggerTimes(inputs, recorded), start, end)
    ensures events == []
  {
    if events != [] {
      HeadMember(events);
      assert false;
    }
  }
}
