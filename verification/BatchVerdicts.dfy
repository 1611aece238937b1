/** What the verdict on a batch says of its events, in plain comparisons. */
module BatchVerdicts {
  import opened Wrappers
  import opened Events
  import opened Filters
  import opened Rules

  // ---- The parts of the verdict ----

  predicate AllJudgable(rule: Rule, events: seq<Event>) {
    forall i | 0 <= i < |events| :: Judge(events[i], rule.filter).Some?
  }

  predicate SomePasses(rule: Rule, events: seq<Event>) {
    exists i | 0 <= i < |events| :: Judge(events[i], rule.filter) == Some(true)
  }

  /** The first event holds no list and no object at a group_by field. */
  predicate GroupsComparable(rule: Rule, events: seq<Event>)
    requires events != []
  {
    forall k | 0 <= k < |rule.groupBy| ::
      !GetField(events[0], rule.groupBy[k]).Arr? && !GetField(events[0], rule.groupBy[k]).Obj?
  }

  /** All events hold the same at each group_by field. */
  predicate GroupsAgree(rule: Rule, events: seq<Event>) {
    forall i, j, k | 0 <= i < |events| && 0 <= j < |events| && 0 <= k < |rule.groupBy| ::
      GetField(events[i], rule.groupBy[k]) == GetField(events[j], rule.groupBy[k])
  }

  /** The values are those that the events hold at the field, nil excepted. */
  predicate AreHeld(events: seq<Event>, field: string, values: set<Value>) {
    && (forall v | v in values :: v != Nil && exists i | 0 <= i < |events| :: GetField(events[i], field) == v)
    && (forall i | 0 <= i < |events| :: GetField(events[i], field) == Nil || GetField(events[i], field) in values)
  }

  lemma {:induction false} GroupVerdictExactly(rule: Rule, events: seq<Event>)
    requires events != []
    ensures GroupVerdict(events, rule.groupBy).None? <==> !GroupsComparable(rule, events)
    ensures GroupVerdict(events, rule.groupBy) == Some(true) <==>
            GroupsComparable(rule, events) && GroupsAgree(rule, events)
  {
    if GroupsComparable(rule, events) {
      if Consistent(events, rule.groupBy) {
        forall i, j, k | 0 <= i < |events| && 0 <= j < |events| && 0 <= k < |rule.groupBy|
          ensures GetField(events[i], rule.groupBy[k]) == GetField(events[j], rule.groupBy[k])
        {
          HoldsFirst(rule, events, i, k);
          HoldsFirst(rule, events, j, k);
        }
      }
    }
  }

  lemma {:induction false} HoldsFirst(rule: Rule, events: seq<Event>, i: nat, k: nat)
    requires events != [] && GroupsComparable(rule, events) && Consistent(events, rule.groupBy)
    requires i < |events| && k < |rule.groupBy|
    ensures GetField(events[i], rule.groupBy[k]) == GetField(events[0], rule.groupBy[k])
  {
    assert !Differ(GetField(events[i], rule.groupBy[k]), GetField(events[0], rule.groupBy[k]));
  }

  // ---- event_count ----

  /** The number of events stands to the threshold as the operator says; other operators ask for nothing. */
  predicate EventsEnough(rule: Rule, events: seq<Event>) {
    var n := |events| as real;
    && (rule.op == Gt ==> n > rule.threshold)
    && (rule.op == Gte ==> n >= rule.threshold)
    && (rule.op == Eq ==> n == rule.threshold)
    && (rule.op == Lt ==> n < rule.threshold)
    && (rule.op == Lte ==> n <= rule.threshold)
  }

  /** The verdict on the batch of an event_count rule, each answer exactly. */
  lemma {:induction false} EventCountVerdict(rule: Rule, events: seq<Event>)
    requires rule.kind.EventCountRule?
    ensures Validate(rule, events) == Some(NoEvents) <==> events == []
    ensures Validate(rule, events) == Some(NoneMatches) <==>
            events != [] && AllJudgable(rule, events) && !SomePasses(rule, events)
    ensures Validate(rule, events) == Some(WrongCount) <==>
            AllJudgable(rule, events) && SomePasses(rule, events) && !EventsEnough(rule, events)
    ensures Validate(rule, events) == Some(Accepted) <==>
            && events != [] && AllJudgable(rule, events) && SomePasses(rule, events) && EventsEnough(rule, events)
            && GroupsComparable(rule, events) && GroupsAgree(rule, events)
  {
    if events != [] { GroupVerdictExactly(rule, events); }
  }

  // ---- value_count ----

  /** The same for a number of values; lt and lte are not checked. */
  predicate ValuesEnough(rule: Rule, n: nat) {
    && (rule.op == Gt ==> n as real > rule.threshold)
    && (rule.op == Gte ==> n as real >= rule.threshold)
    && (rule.op == Eq ==> n as real == rule.threshold)
  }

  predicate NoListsNorObjects(values: set<Value>) {
    forall v | v in values :: !v.Arr? && !v.Obj?
  }

  /** The verdict on the batch of a value_count rule, of the set of values its events hold at the count field. */
  lemma {:induction false} ValueCountVerdict(rule: Rule, events: seq<Event>, values: set<Value>)
    requires rule.kind.ValueCountRule? && AreHeld(events, rule.kind.countField, values)
    ensures Validate(rule, events) == Some(NoEvents) <==> events == []
    ensures Validate(rule, events) == Some(NoneMatches) <==>
            events != [] && AllJudgable(rule, events) && !SomePasses(rule, events)
    ensures Validate(rule, events) == Some(WrongCount) <==>
            && AllJudgable(rule, events) && SomePasses(rule, events)
            && NoListsNorObjects(values) && !ValuesEnough(rule, |values|)
    ensures Validate(rule, events) == Some(Accepted) <==>
            && events != [] && AllJudgable(rule, events) && SomePasses(rule, events)
            && NoListsNorObjects(values) && ValuesEnough(rule, |values|)
            && GroupsComparable(rule, events) && GroupsAgree(rule, events)
  {
    if events != [] { GroupVerdictExactly(rule, events); }
    HeldAreDistinct(events, rule.kind.countField, values);
  }

  lemma {:induction false} HeldAreDistinct(events: seq<Event>, field: string, values: set<Value>)
    requires AreHeld(events, field, values)
    ensures DistinctValues(events, field) == values
  {
    forall v | v in values ensures v in DistinctValues(events, field) {
      var i :| 0 <= i < |events| && GetField(events[i], field) == v;
      assert Has(events[i], field);
    }
  }

  /** There is always such a set. */
  lemma {:induction false} SomeAreHeld(events: seq<Event>, field: string)
    ensures AreHeld(events, field, set i | 0 <= i < |events| && Has(events[i], field) :: GetField(events[i], field))
  {}

  /** A batch with too few events is refused. */
  lemma {:induction false} TooFewEventsAreRefused(rule: Rule, events: seq<Event>)
    requires rule.kind.EventCountRule? && rule.op == Gte && |events| as real < rule.threshold
    ensures Validate(rule, events) != Some(Accepted)
  {
    EventCountVerdict(rule, events);
  }
}
