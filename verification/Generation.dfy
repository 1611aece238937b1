/** What one pass of the event generator over a filter does to an event, draw by draw. */
module Generation {
  import opened Wrappers
  import opened Events
  import opened Filters
  import opened ValueGen

  // ---- applyFilterToEvent ----

  /** None is a panic. */
  ghost function Apply(e: Event, f: Filter, at: Address, c: Choices): Option<Event>
    decreases f, |f.conditions| + 1
  {
    match f.kind
    case Simple => SetField(e, f.field, SimpleValue(f, at, c))
    case Or =>
      if f.conditions == [] then Some(e)
      else
        var i := c.pick(at, "", 0) % |f.conditions|;
        Apply(e, f.conditions[i], at + [i], c)
    case Not => ApplyNot(e, f, at, c)
    case _ => ApplyAll(e, f, |f.conditions|, at, c)
  }

  /** The first `n` conditions applied one after the other. */
  ghost function ApplyAll(e: Event, f: Filter, n: nat, at: Address, c: Choices): Option<Event>
    requires n <= |f.conditions|
    decreases f, n
  {
    if n == 0 then Some(e)
    else match ApplyAll(e, f, n - 1, at, c)
      case None => None
      case Some(e') => Apply(e', f.conditions[n - 1], at + [n - 1], c)
  }

  // ---- applyNonMatchingFilter, applyNonMatchingConditions ----

  /** The generated text is written, unless generating it panicked. */
  ghost function SetText(e: Event, field: string, text: Option<string>): Option<Event> {
    match text
    case None => None
    case Some(s) => SetField(e, field, Str(s))
  }

  ghost function Deny(e: Event, f: Filter, at: Address, c: Choices): Option<Event>
    decreases f, |f.conditions| + 2
  {
    match f.kind
    case Simple => SetText(e, f.field, FailingSimpleText(f, at, c))
    case And | Or => DenyAll(e, f, |f.conditions|, at, c)
    case _ => ApplyNot(e, f, at, c)
  }

  ghost function DenyAll(e: Event, f: Filter, n: nat, at: Address, c: Choices): Option<Event>
    requires n <= |f.conditions|
    decreases f, n
  {
    if n == 0 then Some(e)
    else match DenyAll(e, f, n - 1, at, c)
      case None => None
      case Some(e') => Deny(e', f.conditions[n - 1], at + [n - 1], c)
  }

  /** The conditions of a `not` that are grouped by field. */
  function NotFields(f: Filter): set<string> {
    set i | 0 <= i < |f.conditions| && f.conditions[i].field != "" :: f.conditions[i].field
  }

  function WithField(conds: seq<Filter>, field: string): (r: seq<Filter>)
    ensures forall i | 0 <= i < |conds| && conds[i].field == field :: conds[i] in r
  {
    if conds == [] then []
    else (if conds[0].field == field then [conds[0]] else []) + WithField(conds[1..], field)
  }

  function Members(order: seq<string>): set<string> {
    set g | g in order
  }

  predicate IsOrderOf(order: seq<string>, fields: set<string>) {
    && (forall i, j | 0 <= i < j < |order| :: order[i] != order[j])
    && Members(order) == fields
  }

  function FirstOccurrences(conds: seq<Filter>): seq<string> {
    if conds == [] then []
    else
      var before, g := FirstOccurrences(conds[..|conds| - 1]), conds[|conds| - 1].field;
      if g != "" && g !in before then before + [g] else before
  }

  lemma {:induction false} FirstOccurrencesIsOrder(conds: seq<Filter>)
    ensures IsOrderOf(FirstOccurrences(conds),
                      set i | 0 <= i < |conds| && conds[i].field != "" :: conds[i].field)
  {
    if conds != [] {
      var init, last := conds[..|conds| - 1], conds[|conds| - 1];
      FirstOccurrencesIsOrder(init);
      var earlier := set i | 0 <= i < |init| && init[i].field != "" :: init[i].field;
      var all := set i | 0 <= i < |conds| && conds[i].field != "" :: conds[i].field;
      assert all == earlier + if last.field == "" then {} else {last.field};
    }
  }

  /** The iteration order over the grouped fields: any order at all. */
  function FieldOrder(f: Filter, at: Address, c: Choices): (order: seq<string>)
    ensures IsOrderOf(order, NotFields(f))
  {
    FirstOccurrencesIsOrder(f.conditions);
    if IsOrderOf(c.order(at), NotFields(f)) then c.order(at) else FirstOccurrences(f.conditions)
  }

  ghost function ApplyNot(e: Event, f: Filter, at: Address, c: Choices): Option<Event>
    decreases f, |f.conditions| + 1
  {
    match DenyNested(e, f, |f.conditions|, at, c)
    case None => None
    case Some(e') => DenyFields(e', f, FieldOrder(f, at, c), at, c)
  }

  /** Compound conditions among the first `n` of a `not`. */
  ghost function DenyNested(e: Event, f: Filter, n: nat, at: Address, c: Choices): Option<Event>
    requires n <= |f.conditions|
    decreases f, n
  {
    if n == 0 then Some(e)
    else match DenyNested(e, f, n - 1, at, c)
      case None => None
      case Some(e') =>
        var cond := f.conditions[n - 1];
        if cond.field == "" && !cond.kind.Simple? then Deny(e', cond, at + [n - 1], c) else Some(e')
  }

  /** One text per grouped field. */
  ghost function DenyFields(e: Event, f: Filter, fields: seq<string>, at: Address, c: Choices): Option<Event>
    decreases f, 0, |fields|
  {
    if fields == [] then Some(e)
    else match DenyFields(e, f, fields[..|fields| - 1], at, c)
      case None => None
      case Some(e') =>
        var g := fields[|fields| - 1];
        SetText(e', g, FailingText(g, WithField(f.conditions, g), at, c))
  }

  // ---- The filters the generator can serve ----

  /** Sibling conditions touch different fields. */
  ghost predicate Disjoint(f: Filter) {
    forall i, j | 0 <= i < j < |f.conditions| :: FieldsOf(f.conditions[i]) !! FieldsOf(f.conditions[j])
  }

  ghost predicate Supported(f: Filter)
    decreases f
  {
    match f.kind
    case Simple => LeafOk(f)
    case And => Disjoint(f) && forall i | 0 <= i < |f.conditions| :: Supported(f.conditions[i])
    case Or => |f.conditions| > 0 && forall i | 0 <= i < |f.conditions| :: Supported(f.conditions[i])
    case Not => NotSupported(f)
    case OtherKind(_) => false
  }

  /** What may stand directly inside a `not`: simple conditions, and `and`/`or` over other fields. */
  ghost predicate NotSupported(f: Filter)
    decreases f, 0
  {
    && (forall i | 0 <= i < |f.conditions| ::
          || f.conditions[i].kind.Simple?
          || ((f.conditions[i].kind.And? || f.conditions[i].kind.Or?)
              && f.conditions[i].field == "" && Deniable(f.conditions[i])))
    && (forall i, j | 0 <= i < |f.conditions| && 0 <= j < |f.conditions| && i != j && !f.conditions[i].kind.Simple? ::
          FieldsOf(f.conditions[i]) !! FieldsOf(f.conditions[j]))
    && (forall g | g in NotFields(f) :: GroupOk(g, WithField(f.conditions, g)))
  }

  ghost predicate Deniable(f: Filter)
    decreases f
  {
    match f.kind
    case Simple => NegLeafOk(f)
    case And => |f.conditions| > 0 && Disjoint(f) && forall i | 0 <= i < |f.conditions| :: Deniable(f.conditions[i])
    case Or => Disjoint(f) && forall i | 0 <= i < |f.conditions| :: Deniable(f.conditions[i])
    case _ => false
  }

  // ---- Soundness ----

  /** A field is left as it was, or one of the touched ones now holds a value that can be compared. */
  ghost predicate Tidy(e: Event, e': Event, touched: set<string>, g: string) {
    GetField(e', g) == GetField(e, g) || (g in touched && GetField(e', g).Comparable())
  }

  /** The step does not panic, stays within the schema and changes no field outside `touched`. */
  ghost predicate Careful(e: Event, r: Option<Event>, fields: set<string>, touched: set<string>) {
    r.Some? && Conforms(r.value, fields) &&
    forall g {:trigger Tidy(e, r.value, touched, g)} | g in fields :: Tidy(e, r.value, touched, g)
  }

  /** After a careful run over the first `n` conditions, each is met and no other field was touched. */
  ghost predicate Served(e: Event, r: Option<Event>, f: Filter, n: nat, fields: set<string>)
    requires n <= |f.conditions|
  {
    Careful(e, r, fields, FieldsOf(f)) && forall i | 0 <= i < n :: Holds(r.value, f.conditions[i])
  }

  /** The same for refusing conditions; simple conditions may be left for later. */
  ghost predicate Denied(e: Event, r: Option<Event>, f: Filter, n: nat, fields: set<string>, onlyNested: bool)
    requires n <= |f.conditions|
  {
    && Careful(e, r, fields, FieldsOf(f))
    && forall i | 0 <= i < n && !(onlyNested && f.conditions[i].kind.Simple?) :: Fails(r.value, f.conditions[i])
  }

  lemma {:induction false} NothingYet(e: Event, f: Filter, fields: set<string>, onlyNested: bool)
    requires Conforms(e, fields)
    ensures Served(e, Some(e), f, 0, fields) && Denied(e, Some(e), f, 0, fields, onlyNested)
  {}

  /** Serving a condition leaves the verdict on a condition over other fields as it was. */
  lemma {:induction false} VerdictStands(e: Event, e': Event, f: Filter, i: nat, fields: set<string>,
                                         touched: set<string>)
    requires !f.kind.Simple? && i < |f.conditions| && FieldsOf(f) <= fields
    requires Careful(e, Some(e'), fields, touched) && FieldsOf(f.conditions[i]) !! touched
    ensures Holds(e, f.conditions[i]) ==> Holds(e', f.conditions[i])
    ensures Fails(e, f.conditions[i]) ==> Fails(e', f.conditions[i])
  {
    SubFields(f, i);
    assert Keeps(e, e', FieldsOf(f.conditions[i])) by {
      assert forall g | g in FieldsOf(f.conditions[i]) :: Tidy(e, e', touched, g);
    }
    HoldsIsMonotone(e, e', f.conditions[i]);
  }

  /** Condition `n` touches none of the fields of the conditions before it. */
  ghost predicate ApartBefore(f: Filter, n: nat, onlyNested: bool)
    requires n < |f.conditions|
  {
    forall i | 0 <= i < n && !(onlyNested && f.conditions[i].kind.Simple?) ::
      FieldsOf(f.conditions[i]) !! FieldsOf(f.conditions[n])
  }

  lemma {:induction false} DisjointIsApart(f: Filter, n: nat)
    requires n < |f.conditions| && Disjoint(f)
    ensures ApartBefore(f, n, false)
  {}

  lemma {:induction false} NotSupportedIsApart(f: Filter, n: nat)
    requires n < |f.conditions| && NotSupported(f)
    ensures ApartBefore(f, n, true)
  {}

  lemma {:induction false} CarefulThenCareful(e: Event, e': Event, r: Option<Event>, f: Filter, n: nat,
                                              fields: set<string>)
    requires !f.kind.Simple? && n < |f.conditions|
    requires Careful(e, Some(e'), fields, FieldsOf(f)) && Careful(e', r, fields, FieldsOf(f.conditions[n]))
    ensures Careful(e, r, fields, FieldsOf(f))
  {
    SubFields(f, n);
    forall g | g in fields ensures Tidy(e, r.value, FieldsOf(f), g) {
      assert Tidy(e, e', FieldsOf(f), g) && Tidy(e', r.value, FieldsOf(f.conditions[n]), g);
    }
  }

  lemma {:induction false} ServedNext(e: Event, e': Event, r: Option<Event>, f: Filter, n: nat, fields: set<string>)
    requires !f.kind.Simple? && n < |f.conditions| && FieldsOf(f) <= fields && ApartBefore(f, n, false)
    requires Served(e, Some(e'), f, n, fields)
    requires Careful(e', r, fields, FieldsOf(f.conditions[n])) && Holds(r.value, f.conditions[n])
    ensures Served(e, r, f, n + 1, fields)
  {
    CarefulThenCareful(e, e', r, f, n, fields);
    forall i | 0 <= i < n ensures Holds(r.value, f.conditions[i]) {
      VerdictStands(e', r.value, f, i, fields, FieldsOf(f.conditions[n]));
    }
  }

  lemma {:induction false} DeniedNext(e: Event, e': Event, r: Option<Event>, f: Filter, n: nat, fields: set<string>,
                                      onlyNested: bool)
    requires !f.kind.Simple? && n < |f.conditions| && FieldsOf(f) <= fields
    requires Denied(e, Some(e'), f, n, fields, onlyNested) && ApartBefore(f, n, onlyNested)
    requires Careful(e', r, fields, FieldsOf(f.conditions[n])) && Fails(r.value, f.conditions[n])
    ensures Denied(e, r, f, n + 1, fields, onlyNested)
  {
    CarefulThenCareful(e, e', r, f, n, fields);
    forall i | 0 <= i < n && !(onlyNested && f.conditions[i].kind.Simple?) ensures Fails(r.value, f.conditions[i]) {
      VerdictStands(e', r.value, f, i, fields, FieldsOf(f.conditions[n]));
    }
  }

  /** Every event the generator builds for a supported filter meets the filter, whatever the draws. */
  lemma {:induction false} ApplySound(e: Event, f: Filter, at: Address, c: Choices, fields: set<string>)
    requires Schema(fields) && Conforms(e, fields) && FieldsOf(f) <= fields && Supported(f)
    ensures Careful(e, Apply(e, f, at, c), fields, FieldsOf(f))
    ensures Holds(Apply(e, f, at, c).value, f)
    decreases f, |f.conditions| + 1
  {
    match f.kind
    case Simple =>
      LeafOkIsMet(f, at, c);
      SetConforms(e, fields, f.field, SimpleValue(f, at, c));
    case And => ApplyAllSound(e, f, |f.conditions|, at, c, fields);
    case Or =>
      var i := c.pick(at, "", 0) % |f.conditions|;
      SubFields(f, i);
      ApplySound(e, f.conditions[i], at + [i], c, fields);
      ServedBranch(e, Apply(e, f, at, c), f, i, fields);
    case Not => NotSound(e, f, at, c, fields);
  }

  /** Serving one branch of an `or` serves it, firmly when the others cannot clash. */
  lemma {:induction false} ServedBranch(e: Event, r: Option<Event>, f: Filter, i: nat, fields: set<string>)
    requires f.kind.Or? && i < |f.conditions|
    requires Careful(e, r, fields, FieldsOf(f.conditions[i])) && Holds(r.value, f.conditions[i])
    ensures Careful(e, r, fields, FieldsOf(f)) && Holds(r.value, f)
  {
    SubFields(f, i);
    assert forall g | g in fields :: Tidy(e, r.value, FieldsOf(f.conditions[i]), g);
    if Settled(f) {
      forall j | 0 <= j < |f.conditions| ensures Firm(r.value, f.conditions[j]) {
        QuietIsFirm(r.value, f.conditions[j]);
      }
    }
  }

  ghost predicate AllSupported(f: Filter) {
    forall i | 0 <= i < |f.conditions| :: Supported(f.conditions[i])
  }

  lemma {:induction false} ApplyAllSound(e: Event, f: Filter, n: nat, at: Address, c: Choices, fields: set<string>)
    requires Schema(fields) && Conforms(e, fields) && FieldsOf(f) <= fields && Disjoint(f)
    requires AllSupported(f) && !f.kind.Simple? && n <= |f.conditions|
    ensures Served(e, ApplyAll(e, f, n, at, c), f, n, fields)
    decreases f, n
  {
    if n == 0 {
      NothingYet(e, f, fields, false);
    } else {
      ApplyAllSound(e, f, n - 1, at, c, fields);
      ApplyNextSound(e, ApplyAll(e, f, n - 1, at, c).value, f, n - 1, at, c, fields);
    }
  }

  lemma {:induction false} ApplyNextSound(e: Event, e': Event, f: Filter, n: nat, at: Address, c: Choices,
                                          fields: set<string>)
    requires Schema(fields) && FieldsOf(f) <= fields && !f.kind.Simple? && n < |f.conditions|
    requires Disjoint(f) && AllSupported(f) && Served(e, Some(e'), f, n, fields)
    ensures Served(e, Apply(e', f.conditions[n], at + [n], c), f, n + 1, fields)
    decreases f, 0
  {
    SubFields(f, n);
    ApplySound(e', f.conditions[n], at + [n], c, fields);
    DisjointIsApart(f, n);
    ServedNext(e, e', Apply(e', f.conditions[n], at + [n], c), f, n, fields);
  }

  lemma {:induction false} DenySound(e: Event, f: Filter, at: Address, c: Choices, fields: set<string>)
    requires Schema(fields) && Conforms(e, fields) && FieldsOf(f) <= fields && Deniable(f)
    ensures Careful(e, Deny(e, f, at, c), fields, FieldsOf(f))
    ensures Fails(Deny(e, f, at, c).value, f)
    decreases f, |f.conditions| + 1
  {
    match f.kind
    case Simple =>
      FailingSimpleTextFails(f, at, c);
      SetConforms(e, fields, f.field, Str(FailingSimpleText(f, at, c).value));
    case And =>
      DenyAllSound(e, f, |f.conditions|, at, c, fields);
      assert Fails(Deny(e, f, at, c).value, f.conditions[0]);
    case Or => DenyAllSound(e, f, |f.conditions|, at, c, fields);
  }

  lemma {:induction false} DenyAllSound(e: Event, f: Filter, n: nat, at: Address, c: Choices, fields: set<string>)
    requires Schema(fields) && Conforms(e, fields) && FieldsOf(f) <= fields && Disjoint(f)
    requires forall i | 0 <= i < |f.conditions| :: Deniable(f.conditions[i])
    requires !f.kind.Simple? && n <= |f.conditions|
    ensures Denied(e, DenyAll(e, f, n, at, c), f, n, fields, false)
    decreases f, n
  {
    if n == 0 {
      NothingYet(e, f, fields, false);
    } else {
      DenyAllSound(e, f, n - 1, at, c, fields);
      DisjointIsApart(f, n - 1);
      DenyNextSound(e, DenyAll(e, f, n - 1, at, c).value, f, n - 1, at, c, fields, false);
    }
  }

  lemma {:induction false} DenyNextSound(e: Event, e': Event, f: Filter, n: nat, at: Address, c: Choices,
                                         fields: set<string>, onlyNested: bool)
    requires Schema(fields) && FieldsOf(f) <= fields && !f.kind.Simple? && n < |f.conditions|
    requires ApartBefore(f, n, onlyNested) && Deniable(f.conditions[n])
    requires Denied(e, Some(e'), f, n, fields, onlyNested)
    ensures Denied(e, Deny(e', f.conditions[n], at + [n], c), f, n + 1, fields, onlyNested)
    decreases f, 0
  {
    SubFields(f, n);
    DenySound(e', f.conditions[n], at + [n], c, fields);
    DeniedNext(e, e', Deny(e', f.conditions[n], at + [n], c), f, n, fields, onlyNested);
  }

  /** After a `not` has been served, none of its conditions matches, in any field order. */
  lemma {:induction false} NotSound(e: Event, f: Filter, at: Address, c: Choices, fields: set<string>)
    requires Schema(fields) && Conforms(e, fields) && FieldsOf(f) <= fields
    requires f.kind.Not? && NotSupported(f)
    ensures Careful(e, ApplyNot(e, f, at, c), fields, FieldsOf(f))
    ensures Holds(ApplyNot(e, f, at, c).value, f)
    decreases f, |f.conditions| + 1
  {
    DenyNestedSound(e, f, |f.conditions|, at, c, fields);
    var e' := DenyNested(e, f, |f.conditions|, at, c).value;
    var order := FieldOrder(f, at, c);
    NotFieldsAreFields(f, fields);
    forall g | g in order ensures g in NotFields(f) && FailingText(g, WithField(f.conditions, g), at, c).Some? {
      assert g in Members(order);
      FailingTextFails(g, WithField(f.conditions, g), at, c);
    }
    DenyFieldsSound(e', f, order, at, c, fields);
    var e'' := ApplyNot(e, f, at, c).value;
    forall g | g in fields ensures Tidy(e, e'', FieldsOf(f), g) {
      assert Tidy(e, e', FieldsOf(f), g) && Tidy(e', e'', Members(order), g);
    }
    forall i | 0 <= i < |f.conditions| ensures Fails(e'', f.conditions[i]) {
      DeniedCondition(e', e'', f, i, order, at, c, fields);
    }
  }

  /** Each condition of a served `not` fails: a simple one by its field's text, a compound one as it did before. */
  lemma {:induction false} DeniedCondition(e: Event, e': Event, f: Filter, i: nat, order: seq<string>, at: Address,
                                           c: Choices, fields: set<string>)
    requires FieldsOf(f) <= fields && f.kind.Not? && NotSupported(f) && i < |f.conditions|
    requires Schema(fields) && Members(order) == NotFields(f)
    requires f.conditions[i].kind.Simple? || Fails(e, f.conditions[i])
    requires forall g | g in fields :: Tidy(e, e', Members(order), g)
    requires forall g | g in order ::
               var text := FailingText(g, WithField(f.conditions, g), at, c);
               text.Some? && GetField(e', g) == Str(text.value)
    ensures Fails(e', f.conditions[i])
  {
    var cond := f.conditions[i];
    SubFields(f, i);
    if cond.kind.Simple? {
      var g := cond.field;
      NotFieldsAreFields(f, fields);
      assert g in Members(order);
      FailingTextFails(g, WithField(f.conditions, g), at, c);
      TextsNeverClash(FailingText(g, WithField(f.conditions, g), at, c).value, cond.op, cond.value);
    } else {
      NestedApart(f, i);
      assert forall g | g in FieldsOf(cond) :: Tidy(e, e', Members(order), g);
      HoldsIsMonotone(e, e', cond);
    }
  }

  lemma {:induction false} NestedIsDeniable(f: Filter, i: nat)
    requires NotSupported(f) && i < |f.conditions|
    ensures f.conditions[i].kind.Simple? || (f.conditions[i].field == "" && Deniable(f.conditions[i]))
  {}

  /** The fields of a compound condition inside a `not` are none of the grouped ones. */
  lemma {:induction false} NestedApart(f: Filter, i: nat)
    requires NotSupported(f) && i < |f.conditions| && !f.conditions[i].kind.Simple?
    ensures NotFields(f) !! FieldsOf(f.conditions[i])
  {
    forall g | g in NotFields(f) ensures g !in FieldsOf(f.conditions[i]) {
      var j :| 0 <= j < |f.conditions| && f.conditions[j].field == g && g != "";
      assert g in FieldsOf(f.conditions[j]);
    }
  }

  lemma {:induction false} NotFieldsAreFields(f: Filter, fields: set<string>)
    requires Schema(fields) && FieldsOf(f) <= fields && f.kind.Not? && NotSupported(f)
    ensures NotFields(f) <= FieldsOf(f)
    ensures forall i | 0 <= i < |f.conditions| && f.conditions[i].kind.Simple? :: f.conditions[i].field in NotFields(f)
  {
    forall i | 0 <= i < |f.conditions| && f.conditions[i].kind.Simple? ensures f.conditions[i].field in NotFields(f) {
      SubFields(f, i);
      assert f.conditions[i].field in FieldsOf(f.conditions[i]);
      assert PlainField(f.conditions[i].field);
    }
    forall g | g in NotFields(f) ensures g in FieldsOf(f) {
      var i :| 0 <= i < |f.conditions| && f.conditions[i].field == g && g != "";
      SubFields(f, i);
      assert g in FieldsOf(f.conditions[i]);
    }
  }

  lemma {:induction false} DenyNestedSound(e: Event, f: Filter, n: nat, at: Address, c: Choices, fields: set<string>)
    requires Schema(fields) && Conforms(e, fields) && FieldsOf(f) <= fields
    requires f.kind.Not? && NotSupported(f) && n <= |f.conditions|
    ensures Denied(e, DenyNested(e, f, n, at, c), f, n, fields, true)
    decreases f, n
  {
    if n == 0 {
      NothingYet(e, f, fields, true);
    } else {
      DenyNestedSound(e, f, n - 1, at, c, fields);
      var e', cond := DenyNested(e, f, n - 1, at, c).value, f.conditions[n - 1];
      NestedIsDeniable(f, n - 1);
      if cond.kind.Simple? {
        assert DenyNested(e, f, n, at, c) == Some(e');
      } else {
        NotSupportedIsApart(f, n - 1);
        DenyNextSound(e, e', f, n - 1, at, c, fields, true);
      }
    }
  }

  /** Writing one more field with a value that can be compared is careful. */
  lemma {:induction false} OneMoreWrite(e: Event, e': Event, fields: set<string>, touched: set<string>,
                                      g: string, v: Value)
    requires Schema(fields) && Careful(e, Some(e'), fields, touched) && g in fields && v.Comparable()
    ensures var r := SetField(e', g, v);
            && Careful(e, r, fields, touched + {g}) && GetField(r.value, g) == v
            && forall h | h in fields && h != g :: GetField(r.value, h) == GetField(e', h)
  {
    SetConforms(e', fields, g, v);
    var r := SetField(e', g, v).value;
    forall h | h in fields ensures Tidy(e, r, touched + {g}, h) {
      assert Tidy(e, e', touched, h);
    }
  }

  lemma {:induction false} DenyFieldsSound(e: Event, f: Filter, order: seq<string>, at: Address, c: Choices,
                                           fields: set<string>)
    requires Schema(fields) && Conforms(e, fields)
    requires forall g | g in order :: g in fields
    requires forall i, j | 0 <= i < j < |order| :: order[i] != order[j]
    requires forall g | g in order :: FailingText(g, WithField(f.conditions, g), at, c).Some?
    ensures Careful(e, DenyFields(e, f, order, at, c), fields, Members(order))
    ensures forall g | g in order ::
      GetField(DenyFields(e, f, order, at, c).value, g) == Str(FailingText(g, WithField(f.conditions, g), at, c).value)
    decreases |order|
  {
    if order != [] {
      var init, last := order[..|order| - 1], order[|order| - 1];
      assert order == init + [last] && last !in init;
      DenyFieldsSound(e, f, init, at, c, fields);
      var e' := DenyFields(e, f, init, at, c).value;
      var v := Str(FailingText(last, WithField(f.conditions, last), at, c).value);
      OneMoreWrite(e, e', fields, Members(init), last, v);
      assert Members(order) == Members(init) + {last};
    }
  }

  /** createEventMatchingFilter */
  ghost function CreateEvent(f: Filter, c: Choices): Option<Event> {
    Apply(EMPTY, f, [], c)
  }

  /** Main result: created events are judged to match, for every supported filter and every draw. */
  lemma {:induction false} CreatedEventsMatch(f: Filter, c: Choices)
    requires Schema(FieldsOf(f)) && Supported(f)
    ensures CreateEvent(f, c).Some? && Passes(CreateEvent(f, c).value, f)
  {
    ApplySound(EMPTY, f, [], c, FieldsOf(f));
    var e := CreateEvent(f, c).value;
    assert forall g | g in FieldsOf(f) :: Tidy(EMPTY, e, FieldsOf(f), g);
    ComparableIsCalm(e, f);
    DecidedAndCalm(e, f);
  }
}
