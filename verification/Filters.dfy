/** Rule filters and the checker that decides whether an event matches one. */
module Filters {
  import opened Wrappers
  import opened GoStrings
  import opened Events

  /** The `type` of a filter: absent for a simple condition, otherwise one of the known words or another one. */
  datatype Kind = Simple | And | Or | Not | OtherKind(name: string)

  datatype Op = Eq | Ne | Gt | Gte | Lt | Lte | In | Contains | Regex | OtherOp(op: string)

  datatype Filter = Filter(kind: Kind, field: string, op: Op, value: Value, conditions: seq<Filter>)

  function Condition(field: string, op: Op, value: Value): Filter {
    Filter(Simple, field, op, value, [])
  }

  function Compound(kind: Kind, conditions: seq<Filter>): Filter {
    Filter(kind, "", OtherOp(""), Nil, conditions)
  }

  // ---- compareValues, compareNumeric ----

  /** The numbers the checker understands: float64 and int, but no other integer width. */
  function Numeric(v: Value): Option<real> {
    match v
    case Float(r) => Some(r)
    case Int(n) => Some(n as real)
    case _ => None
  }

  predicate CompareNumeric(a: Value, b: Value, accept: (real, real) -> bool) {
    Numeric(a).Some? && Numeric(b).Some? && accept(Numeric(a).value, Numeric(b).value)
  }

  predicate ListHolds(items: seq<Value>, v: Value) {
    exists i | 0 <= i < |items| :: Equal(v, items[i])
  }

  predicate Compare(v: Value, op: Op, w: Value) {
    match op
    case Eq => Equal(v, w)
    case Ne => Differ(v, w)
    case Gt => CompareNumeric(v, w, (a, b) => a > b)
    case Gte => CompareNumeric(v, w, (a, b) => a >= b)
    case Lt => CompareNumeric(v, w, (a, b) => a < b)
    case Lte => CompareNumeric(v, w, (a, b) => a <= b)
    case In => w.Arr? && ListHolds(w.items, v)
    case Contains => v.Str? && w.Str? && GoStrings.Contains(v.text, w.text)
    case _ => false
  }

  /**
   * The comparison panics. In a list, a value that clashes with one item equals none of the others, so the
   * search always gets there.
   */
  predicate Clashes(v: Value, op: Op, w: Value) {
    match op
    case Eq | Ne => Clash(v, w)
    case In => w.Arr? && exists i | 0 <= i < |w.items| :: Clash(v, w.items[i])
    case _ => false
  }

  // ---- MatchesFilter ----

  function Negate(b: Option<bool>): Option<bool> {
    match b
    case None => None
    case Some(b) => Some(!b)
  }

  /** The verdict of the evaluation, condition by condition until it is settled; None is a panic. */
  function Judge(e: Event, f: Filter): Option<bool>
    decreases f, |f.conditions| + 1
  {
    match f.kind
    case Simple =>
      if !Has(e, f.field) then Some(false)
      else if Clashes(GetField(e, f.field), f.op, f.value) then None
      else Some(Compare(GetField(e, f.field), f.op, f.value))
    case And => Negate(Search(e, f, 0, false))
    case Or => Search(e, f, 0, true)
    case Not => Negate(Search(e, f, 0, true))
    case OtherKind(_) => Some(false)
  }

  /** Whether some condition from the i-th on has the wanted verdict, judging no further than that. */
  function Search(e: Event, f: Filter, i: nat, wanted: bool): Option<bool>
    requires i <= |f.conditions|
    decreases f, |f.conditions| - i
  {
    if i == |f.conditions| then Some(false)
    else match Judge(e, f.conditions[i])
      case None => None
      case Some(b) => if b == wanted then Some(true) else Search(e, f, i + 1, wanted)
  }

  /** The event is judged, without a panic, to match. */
  predicate Passes(e: Event, f: Filter) {
    Judge(e, f) == Some(true)
  }

  /** What a verdict means, whatever the order of the conditions. */
  predicate Matches(e: Event, f: Filter)
    decreases f
  {
    match f.kind
    case Simple => Has(e, f.field) && Compare(GetField(e, f.field), f.op, f.value)
    case And => forall i | 0 <= i < |f.conditions| :: Matches(e, f.conditions[i])
    case Or => exists i | 0 <= i < |f.conditions| :: Matches(e, f.conditions[i])
    case Not => forall i | 0 <= i < |f.conditions| :: !Matches(e, f.conditions[i])
    case OtherKind(_) => false
  }

  /** The field names occurring in the simple conditions of a filter. */
  function FieldsOf(f: Filter): set<string>
    decreases f
  {
    if f.kind.Simple? then {f.field}
    else set i, g | 0 <= i < |f.conditions| && g in FieldsOf(f.conditions[i]) :: g
  }

  lemma {:induction false} SubFields(f: Filter, i: nat)
    requires !f.kind.Simple? && i < |f.conditions|
    ensures FieldsOf(f.conditions[i]) <= FieldsOf(f)
  {}

  lemma {:induction false} VerdictsAreMatches(e: Event, f: Filter)
    ensures Judge(e, f).Some? ==> Judge(e, f) == Some(Matches(e, f))
    decreases f, |f.conditions| + 1
  {
    match f.kind
    case And => SearchIsExistence(e, f, 0, false);
    case Or => SearchIsExistence(e, f, 0, true);
    case Not => SearchIsExistence(e, f, 0, true);
    case _ =>
  }

  lemma {:induction false} SearchIsExistence(e: Event, f: Filter, i: nat, wanted: bool)
    requires i <= |f.conditions|
    ensures Search(e, f, i, wanted).Some? ==>
            (Search(e, f, i, wanted).value <==>
             exists j | i <= j < |f.conditions| :: Matches(e, f.conditions[j]) == wanted)
    decreases f, |f.conditions| - i
  {
    if i < |f.conditions| {
      VerdictsAreMatches(e, f.conditions[i]);
      SearchIsExistence(e, f, i + 1, wanted);
    }
  }

  // ---- Evaluation without panics ----

  /** No condition of the filter clashes with what the event holds. */
  ghost predicate Calm(e: Event, f: Filter)
    decreases f
  {
    if f.kind.Simple? then !Clashes(GetField(e, f.field), f.op, f.value)
    else forall i | 0 <= i < |f.conditions| :: Calm(e, f.conditions[i])
  }

  lemma {:induction false} CalmIsJudged(e: Event, f: Filter)
    requires Calm(e, f)
    ensures Judge(e, f) == Some(Matches(e, f))
    decreases f, |f.conditions| + 1
  {
    if !f.kind.Simple? {
      SearchIsCalm(e, f, 0, false);
      SearchIsCalm(e, f, 0, true);
    }
    VerdictsAreMatches(e, f);
  }

  lemma {:induction false} SearchIsCalm(e: Event, f: Filter, i: nat, wanted: bool)
    requires i <= |f.conditions| && forall j | i <= j < |f.conditions| :: Calm(e, f.conditions[j])
    ensures Search(e, f, i, wanted).Some?
    decreases f, |f.conditions| - i
  {
    if i < |f.conditions| {
      CalmIsJudged(e, f.conditions[i]);
      SearchIsCalm(e, f, i + 1, wanted);
    }
  }

  /** Values that can be compared never clash. */
  lemma {:induction false} ComparableIsCalm(e: Event, f: Filter)
    requires forall g | g in FieldsOf(f) :: GetField(e, g).Comparable()
    ensures Calm(e, f)
    decreases f
  {
    if !f.kind.Simple? {
      forall i | 0 <= i < |f.conditions| ensures Calm(e, f.conditions[i]) {
        SubFields(f, i);
        ComparableIsCalm(e, f.conditions[i]);
      }
    }
  }

  /** A value that no event value clashes with. */
  predicate NeverClashes(op: Op, w: Value) {
    match op
    case Eq | Ne => w.Comparable()
    case In => w.Arr? ==> forall i | 0 <= i < |w.items| :: w.items[i].Comparable()
    case _ => true
  }

  /** No list or object is compared with anywhere in the filter. */
  ghost predicate Quiet(f: Filter)
    decreases f
  {
    if f.kind.Simple? then NeverClashes(f.op, f.value)
    else forall i | 0 <= i < |f.conditions| :: Quiet(f.conditions[i])
  }

  /** Every condition can never clash, or does not with a value the event holds: adding fields cannot change that. */
  ghost predicate Firm(e: Event, f: Filter)
    decreases f
  {
    if f.kind.Simple? then
      NeverClashes(f.op, f.value) || (Has(e, f.field) && !Clashes(GetField(e, f.field), f.op, f.value))
    else forall i | 0 <= i < |f.conditions| :: Firm(e, f.conditions[i])
  }

  lemma {:induction false} QuietIsFirm(e: Event, f: Filter)
    requires Quiet(f)
    ensures Firm(e, f)
    decreases f
  {
    if !f.kind.Simple? {
      forall i | 0 <= i < |f.conditions| ensures Firm(e, f.conditions[i]) {
        QuietIsFirm(e, f.conditions[i]);
      }
    }
  }

  lemma {:induction false} FirmIsCalm(e: Event, f: Filter)
    requires Firm(e, f)
    ensures Calm(e, f)
    decreases f
  {
    if !f.kind.Simple? {
      forall i | 0 <= i < |f.conditions| ensures Calm(e, f.conditions[i]) {
        FirmIsCalm(e, f.conditions[i]);
      }
    }
  }

  // ---- Decided verdicts ----

  /**
   * The filter is met for a reason that lies in values the event holds: unlike `Matches`, a
   * condition inside a `not` may not fail merely because its field is missing.
   */
  ghost predicate Met(e: Event, f: Filter)
    decreases f
  {
    match f.kind
    case Simple => Has(e, f.field) && Compare(GetField(e, f.field), f.op, f.value)
    case And => forall i | 0 <= i < |f.conditions| :: Met(e, f.conditions[i])
    case Or => exists i | 0 <= i < |f.conditions| :: Met(e, f.conditions[i])
    case Not => forall i | 0 <= i < |f.conditions| :: Refused(e, f.conditions[i])
    case OtherKind(_) => false
  }

  /** The filter fails for a reason that lies in values the event holds. */
  ghost predicate Refused(e: Event, f: Filter)
    decreases f
  {
    match f.kind
    case Simple => Has(e, f.field) && !Compare(GetField(e, f.field), f.op, f.value)
    case And => exists i | 0 <= i < |f.conditions| :: Refused(e, f.conditions[i])
    case Or => forall i | 0 <= i < |f.conditions| :: Refused(e, f.conditions[i])
    case Not => exists i | 0 <= i < |f.conditions| :: Met(e, f.conditions[i])
    case OtherKind(_) => true
  }

  /** Decided verdicts are the checker's verdicts. */
  lemma {:induction false} DecidedVerdicts(e: Event, f: Filter)
    ensures Met(e, f) ==> Matches(e, f)
    ensures Refused(e, f) ==> !Matches(e, f)
    decreases f
  {
    if !f.kind.Simple? {
      forall i | 0 <= i < |f.conditions|
        ensures Met(e, f.conditions[i]) ==> Matches(e, f.conditions[i])
        ensures Refused(e, f.conditions[i]) ==> !Matches(e, f.conditions[i])
      {
        DecidedVerdicts(e, f.conditions[i]);
      }
    }
  }

  /** Without a clash they are the evaluation's verdicts. */
  lemma {:induction false} DecidedAndCalm(e: Event, f: Filter)
    requires Calm(e, f)
    ensures Met(e, f) ==> Passes(e, f)
    ensures Refused(e, f) ==> Judge(e, f) == Some(false)
  {
    DecidedVerdicts(e, f);
    CalmIsJudged(e, f);
  }

  /** `e'` still holds every value `e` holds at the given fields. */
  ghost predicate Keeps(e: Event, e': Event, fields: set<string>) {
    forall g | g in fields && Has(e, g) :: GetField(e', g) == GetField(e, g)
  }

  /** Adding fields to an event cannot overturn a decided verdict. */
  lemma {:induction false} DecidedIsMonotone(e: Event, e': Event, f: Filter)
    requires Keeps(e, e', FieldsOf(f))
    ensures Met(e, f) ==> Met(e', f)
    ensures Refused(e, f) ==> Refused(e', f)
    decreases f
  {
    if !f.kind.Simple? {
      forall i | 0 <= i < |f.conditions|
        ensures Met(e, f.conditions[i]) ==> Met(e', f.conditions[i])
        ensures Refused(e, f.conditions[i]) ==> Refused(e', f.conditions[i])
      {
        SubFields(f, i);
        DecidedIsMonotone(e, e', f.conditions[i]);
      }
    }
  }

  lemma {:induction false} FirmIsMonotone(e: Event, e': Event, f: Filter)
    requires Keeps(e, e', FieldsOf(f)) && Firm(e, f)
    ensures Firm(e', f)
    decreases f
  {
    if !f.kind.Simple? {
      forall i | 0 <= i < |f.conditions| ensures Firm(e', f.conditions[i]) {
        SubFields(f, i);
        FirmIsMonotone(e, e', f.conditions[i]);
      }
    }
  }

  /**
   * Under an `or` only one branch is served, so a branch that is not may still clash with fields added later;
   * a settled filter has no list or object there.
   */
  ghost predicate Settled(f: Filter)
    decreases f
  {
    match f.kind
    case And => forall i | 0 <= i < |f.conditions| :: Settled(f.conditions[i])
    case Or => forall i | 0 <= i < |f.conditions| :: Quiet(f.conditions[i])
    case _ => true
  }

  /** The event meets the filter and, when the filter is settled, does so firmly. */
  ghost predicate Holds(e: Event, f: Filter) {
    Met(e, f) && (Settled(f) ==> Firm(e, f))
  }

  ghost predicate Fails(e: Event, f: Filter) {
    Refused(e, f) && Firm(e, f)
  }

  lemma {:induction false} HoldsIsMonotone(e: Event, e': Event, f: Filter)
    requires Keeps(e, e', FieldsOf(f))
    ensures Holds(e, f) ==> Holds(e', f)
    ensures Fails(e, f) ==> Fails(e', f)
  {
    DecidedIsMonotone(e, e', f);
    if Firm(e, f) { FirmIsMonotone(e, e', f); }
  }

  /** A settled filter that holds is judged to match. */
  lemma {:induction false} HoldsPasses(e: Event, f: Filter)
    requires Holds(e, f) && Settled(f)
    ensures Passes(e, f)
  {
    FirmIsCalm(e, f);
    DecidedAndCalm(e, f);
  }

  ghost predicate NotFree(f: Filter)
    decreases f
  {
    !f.kind.Not? && (f.kind.Simple? || forall i | 0 <= i < |f.conditions| :: NotFree(f.conditions[i]))
  }

  /** Without `not`, a match is decided, so it survives the addition of fields. */
  lemma {:induction false} NotFreeMatchIsDecided(e: Event, f: Filter)
    requires NotFree(f)
    ensures Matches(e, f) <==> Met(e, f)
    decreases f
  {
    if !f.kind.Simple? {
      forall i | 0 <= i < |f.conditions| ensures Matches(e, f.conditions[i]) <==> Met(e, f.conditions[i]) {
        NotFreeMatchIsDecided(e, f.conditions[i]);
      }
    }
  }

  /**
   * A matching event with fields added still matches a filter without `not`: it cannot be judged otherwise, and
   * it is judged unless the evaluation comes upon a list or object to compare with.
   */
  lemma {:induction false} NotFreeMatchIsMonotone(e: Event, e': Event, f: Filter)
    requires NotFree(f) && Keeps(e, e', FieldsOf(f)) && Matches(e, f)
    ensures Matches(e', f)
    ensures Judge(e', f) != Some(false)
    ensures Quiet(f) ==> Passes(e', f)
  {
    NotFreeMatchIsDecided(e, f);
    NotFreeMatchIsDecided(e', f);
    DecidedIsMonotone(e, e', f);
    VerdictsAreMatches(e', f);
    if Quiet(f) {
      QuietIsFirm(e', f);
      FirmIsCalm(e', f);
      CalmIsJudged(e', f);
    }
  }
}
