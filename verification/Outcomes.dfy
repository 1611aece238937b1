/** What serving a filter leaves at one field, and when that is the same for all draws. */
module Outcomes {
  import opened Wrappers
  import opened Events
  import opened Filters
  import opened ValueGen
  import opened Generation

  // ---- The value written last ----

  function TextValue(text: Option<string>): Option<Value> {
    match text
    case None => None
    case Some(s) => Some(Str(s))
  }

  /** The value that serving the filter leaves at the field; None when it does not write there. */
  ghost function Outcome(f: Filter, g: string, at: Address, c: Choices): Option<Value>
    decreases f, |f.conditions| + 1
  {
    match f.kind
    case Simple => if f.field == g then Some(SimpleValue(f, at, c)) else None
    case Or =>
      if f.conditions == [] then None
      else
        var i := c.pick(at, "", 0) % |f.conditions|;
        Outcome(f.conditions[i], g, at + [i], c)
    case Not => NotOutcome(f, g, at, c)
    case _ => OutcomeAmong(f, g, |f.conditions|, at, c)
  }

  ghost function OutcomeAmong(f: Filter, g: string, n: nat, at: Address, c: Choices): Option<Value>
    requires n <= |f.conditions|
    decreases f, n
  {
    if n == 0 then None
    else
      var last := Outcome(f.conditions[n - 1], g, at + [n - 1], c);
      if last.Some? then last else OutcomeAmong(f, g, n - 1, at, c)
  }

  /** The same for serving the negation of a filter. */
  ghost function Denial(f: Filter, g: string, at: Address, c: Choices): Option<Value>
    decreases f, |f.conditions| + 2
  {
    match f.kind
    case Simple => if f.field == g then TextValue(FailingSimpleText(f, at, c)) else None
    case And | Or => DenialAmong(f, g, |f.conditions|, at, c)
    case _ => NotOutcome(f, g, at, c)
  }

  ghost function DenialAmong(f: Filter, g: string, n: nat, at: Address, c: Choices): Option<Value>
    requires n <= |f.conditions|
    decreases f, n
  {
    if n == 0 then None
    else
      var last := Denial(f.conditions[n - 1], g, at + [n - 1], c);
      if last.Some? then last else DenialAmong(f, g, n - 1, at, c)
  }

  /** The grouped fields of a `not` are written after its compound conditions. */
  ghost function NotOutcome(f: Filter, g: string, at: Address, c: Choices): Option<Value>
    decreases f, |f.conditions| + 1
  {
    if g in NotFields(f) then TextValue(FailingText(g, WithField(f.conditions, g), at, c))
    else NestedOutcome(f, g, |f.conditions|, at, c)
  }

  ghost function NestedOutcome(f: Filter, g: string, n: nat, at: Address, c: Choices): Option<Value>
    requires n <= |f.conditions|
    decreases f, n
  {
    if n == 0 then None
    else
      var last := if f.conditions[n - 1].kind.Simple? then None else Denial(f.conditions[n - 1], g, at + [n - 1], c);
      if last.Some? then last else NestedOutcome(f, g, n - 1, at, c)
  }

  /** The step leaves the given value at the field, or none and then what was there. */
  ghost predicate Leaves(e: Event, r: Option<Event>, g: string, v: Option<Value>) {
    r.Some? && GetField(r.value, g) == if v.Some? then v.value else GetField(e, g)
  }

  lemma {:induction false} LeavesNext(e: Event, e': Event, r: Option<Event>, g: string, v: Option<Value>,
                                      last: Option<Value>)
    requires Leaves(e, Some(e'), g, v) && Leaves(e', r, g, last)
    ensures Leaves(e, r, g, if last.Some? then last else v)
  {}

  lemma {:induction false} ApplyLeaves(e: Event, f: Filter, at: Address, c: Choices, fields: set<string>, g: string)
    requires Schema(fields) && Conforms(e, fields) && FieldsOf(f) <= fields && g in fields && Supported(f)
    ensures Leaves(e, Apply(e, f, at, c), g, Outcome(f, g, at, c))
    decreases f, |f.conditions| + 1
  {
    match f.kind
    case Simple => SetConforms(e, fields, f.field, SimpleValue(f, at, c));
    case And => ApplyAllLeaves(e, f, |f.conditions|, at, c, fields, g);
    case Or =>
      var i := c.pick(at, "", 0) % |f.conditions|;
      SubFields(f, i);
      ApplyLeaves(e, f.conditions[i], at + [i], c, fields, g);
    case Not => NotLeaves(e, f, at, c, fields, g);
  }

  lemma {:induction false} ApplyAllLeaves(e: Event, f: Filter, n: nat, at: Address, c: Choices, fields: set<string>,
                                          g: string)
    requires Schema(fields) && Conforms(e, fields) && FieldsOf(f) <= fields && g in fields
    requires Disjoint(f) && AllSupported(f) && !f.kind.Simple? && n <= |f.conditions|
    ensures Leaves(e, ApplyAll(e, f, n, at, c), g, OutcomeAmong(f, g, n, at, c))
    decreases f, n
  {
    if n > 0 {
      ApplyAllLeaves(e, f, n - 1, at, c, fields, g);
      ApplyAllSound(e, f, n - 1, at, c, fields);
      var e' := ApplyAll(e, f, n - 1, at, c).value;
      SubFields(f, n - 1);
      ApplyLeaves(e', f.conditions[n - 1], at + [n - 1], c, fields, g);
      LeavesNext(e, e', ApplyAll(e, f, n, at, c), g, OutcomeAmong(f, g, n - 1, at, c),
                 Outcome(f.conditions[n - 1], g, at + [n - 1], c));
    }
  }

  lemma {:induction false} DenyLeaves(e: Event, f: Filter, at: Address, c: Choices, fields: set<string>, g: string)
    requires Schema(fields) && Conforms(e, fields) && FieldsOf(f) <= fields && g in fields && Deniable(f)
    ensures Leaves(e, Deny(e, f, at, c), g, Denial(f, g, at, c))
    decreases f, |f.conditions| + 1
  {
    match f.kind
    case Simple =>
      FailingSimpleTextFails(f, at, c);
      SetConforms(e, fields, f.field, Str(FailingSimpleText(f, at, c).value));
    case And | Or => DenyAllLeaves(e, f, |f.conditions|, at, c, fields, g);
  }

  lemma {:induction false} DenyAllLeaves(e: Event, f: Filter, n: nat, at: Address, c: Choices, fields: set<string>,
                                         g: string)
    requires Schema(fields) && Conforms(e, fields) && FieldsOf(f) <= fields && g in fields
    requires Disjoint(f) && !f.kind.Simple? && n <= |f.conditions|
    requires forall i | 0 <= i < |f.conditions| :: Deniable(f.conditions[i])
    ensures Leaves(e, DenyAll(e, f, n, at, c), g, DenialAmong(f, g, n, at, c))
    decreases f, n
  {
    if n > 0 {
      DenyAllLeaves(e, f, n - 1, at, c, fields, g);
      DenyAllSound(e, f, n - 1, at, c, fields);
      var e' := DenyAll(e, f, n - 1, at, c).value;
      SubFields(f, n - 1);
      DenyLeaves(e', f.conditions[n - 1], at + [n - 1], c, fields, g);
      LeavesNext(e, e', DenyAll(e, f, n, at, c), g, DenialAmong(f, g, n - 1, at, c),
                 Denial(f.conditions[n - 1], g, at + [n - 1], c));
    }
  }

  lemma {:induction false} NestedLeaves(e: Event, f: Filter, n: nat, at: Address, c: Choices, fields: set<string>,
                                        g: string)
    requires Schema(fields) && Conforms(e, fields) && FieldsOf(f) <= fields && g in fields
    requires f.kind.Not? && NotSupported(f) && n <= |f.conditions|
    ensures Leaves(e, DenyNested(e, f, n, at, c), g, NestedOutcome(f, g, n, at, c))
    decreases f, n
  {
    if n > 0 {
      NestedLeaves(e, f, n - 1, at, c, fields, g);
      NestedIsDeniable(f, n - 1);
      if !f.conditions[n - 1].kind.Simple? {
        DenyNestedSound(e, f, n - 1, at, c, fields);
        var e' := DenyNested(e, f, n - 1, at, c).value;
        SubFields(f, n - 1);
        DenyLeaves(e', f.conditions[n - 1], at + [n - 1], c, fields, g);
        LeavesNext(e, e', DenyNested(e, f, n, at, c), g, NestedOutcome(f, g, n - 1, at, c),
                   Denial(f.conditions[n - 1], g, at + [n - 1], c));
      }
    }
  }

  lemma {:induction false} NotLeaves(e: Event, f: Filter, at: Address, c: Choices, fields: set<string>, g: string)
    requires Schema(fields) && Conforms(e, fields) && FieldsOf(f) <= fields && g in fields
    requires f.kind.Not? && NotSupported(f)
    ensures Leaves(e, ApplyNot(e, f, at, c), g, NotOutcome(f, g, at, c))
    decreases f, |f.conditions|
  {
    NestedLeaves(e, f, |f.conditions|, at, c, fields, g);
    DenyNestedSound(e, f, |f.conditions|, at, c, fields);
    var e', order := DenyNested(e, f, |f.conditions|, at, c).value, FieldOrder(f, at, c);
    NotFieldsAreFields(f, fields);
    forall h | h in order ensures h in NotFields(f) && FailingText(h, WithField(f.conditions, h), at, c).Some? {
      assert h in Members(order);
      FailingTextFails(h, WithField(f.conditions, h), at, c);
    }
    DenyFieldsSound(e', f, order, at, c, fields);
    assert g in NotFields(f) <==> g in Members(order);
    assert Tidy(e', ApplyNot(e, f, at, c).value, Members(order), g);
  }

  // ---- Where a filter writes ----

  lemma {:induction false} NotFieldsInside(f: Filter)
    requires f.kind.Not? && NotSupported(f)
    ensures NotFields(f) <= FieldsOf(f)
  {
    forall g | g in NotFields(f) ensures g in FieldsOf(f) {
      var i :| 0 <= i < |f.conditions| && f.conditions[i].field == g && g != "";
      assert g in FieldsOf(f.conditions[i]);
    }
  }

  lemma {:induction false} OutsideOutcome(f: Filter, g: string, at: Address, c: Choices)
    requires Supported(f) && g !in FieldsOf(f)
    ensures Outcome(f, g, at, c) == None
    decreases f, |f.conditions| + 1
  {
    match f.kind
    case Simple =>
    case And => OutsideAmong(f, g, |f.conditions|, at, c);
    case Or => OutsideOutcome(f.conditions[c.pick(at, "", 0) % |f.conditions|], g,
                              at + [c.pick(at, "", 0) % |f.conditions|], c);
    case Not =>
      NotFieldsInside(f);
      OutsideNested(f, g, |f.conditions|, at, c);
  }

  lemma {:induction false} OutsideAmong(f: Filter, g: string, n: nat, at: Address, c: Choices)
    requires AllSupported(f) && !f.kind.Simple? && g !in FieldsOf(f) && n <= |f.conditions|
    ensures OutcomeAmong(f, g, n, at, c) == None
    decreases f, n
  {
    if n > 0 {
      SubFields(f, n - 1);
      OutsideOutcome(f.conditions[n - 1], g, at + [n - 1], c);
      OutsideAmong(f, g, n - 1, at, c);
    }
  }

  lemma {:induction false} OutsideDenial(f: Filter, g: string, at: Address, c: Choices)
    requires Deniable(f) && g !in FieldsOf(f)
    ensures Denial(f, g, at, c) == None
    decreases f, |f.conditions| + 1
  {
    if !f.kind.Simple? {
      OutsideDenialAmong(f, g, |f.conditions|, at, c);
    }
  }

  lemma {:induction false} OutsideDenialAmong(f: Filter, g: string, n: nat, at: Address, c: Choices)
    requires !f.kind.Simple? && g !in FieldsOf(f) && n <= |f.conditions|
    requires forall i | 0 <= i < |f.conditions| :: Deniable(f.conditions[i])
    ensures DenialAmong(f, g, n, at, c) == None
    decreases f, n
  {
    if n > 0 {
      SubFields(f, n - 1);
      OutsideDenial(f.conditions[n - 1], g, at + [n - 1], c);
      OutsideDenialAmong(f, g, n - 1, at, c);
    }
  }

  lemma {:induction false} OutsideNested(f: Filter, g: string, n: nat, at: Address, c: Choices)
    requires f.kind.Not? && NotSupported(f) && n <= |f.conditions|
    requires forall j | 0 <= j < n && !f.conditions[j].kind.Simple? :: g !in FieldsOf(f.conditions[j])
    ensures NestedOutcome(f, g, n, at, c) == None
    decreases f, n
  {
    if n > 0 {
      NestedIsDeniable(f, n - 1);
      if !f.conditions[n - 1].kind.Simple? { OutsideDenial(f.conditions[n - 1], g, at + [n - 1], c); }
      OutsideNested(f, g, n - 1, at, c);
    }
  }

  /** Of conditions on different fields the one with the field decides. */
  lemma {:induction false} OwnOutcome(f: Filter, g: string, i: nat, n: nat, at: Address, c: Choices)
    requires AllSupported(f) && Disjoint(f) && !f.kind.Simple? && i < n <= |f.conditions|
             && g in FieldsOf(f.conditions[i])
    ensures OutcomeAmong(f, g, n, at, c) == Outcome(f.conditions[i], g, at + [i], c)
    decreases n
  {
    if i < n - 1 {
      OutsideOutcome(f.conditions[n - 1], g, at + [n - 1], c);
      OwnOutcome(f, g, i, n - 1, at, c);
    } else {
      OthersOutside(f, g, i, i, at, c);
    }
  }

  lemma {:induction false} OthersOutside(f: Filter, g: string, i: nat, n: nat, at: Address, c: Choices)
    requires AllSupported(f) && Disjoint(f) && !f.kind.Simple? && n <= i < |f.conditions|
             && g in FieldsOf(f.conditions[i])
    ensures OutcomeAmong(f, g, n, at, c) == None
    decreases n
  {
    if n > 0 {
      OutsideOutcome(f.conditions[n - 1], g, at + [n - 1], c);
      OthersOutside(f, g, i, n - 1, at, c);
    }
  }

  lemma {:induction false} OwnDenial(f: Filter, g: string, i: nat, n: nat, at: Address, c: Choices)
    requires Disjoint(f) && !f.kind.Simple? && i < |f.conditions| && n <= |f.conditions|
             && g in FieldsOf(f.conditions[i])
    requires forall j | 0 <= j < |f.conditions| :: Deniable(f.conditions[j])
    ensures DenialAmong(f, g, n, at, c) == if i < n then Denial(f.conditions[i], g, at + [i], c) else None
    decreases n
  {
    if n > 0 {
      OwnDenial(f, g, i, n - 1, at, c);
      if n - 1 != i { OutsideDenial(f.conditions[n - 1], g, at + [n - 1], c); }
    }
  }

  lemma {:induction false} OwnNested(f: Filter, g: string, i: nat, n: nat, at: Address, c: Choices)
    requires f.kind.Not? && NotSupported(f) && i < |f.conditions| && n <= |f.conditions|
    requires !f.conditions[i].kind.Simple? && g in FieldsOf(f.conditions[i])
    ensures NestedOutcome(f, g, n, at, c) == if i < n then Denial(f.conditions[i], g, at + [i], c) else None
    decreases n
  {
    if n > 0 {
      OwnNested(f, g, i, n - 1, at, c);
      NestedIsDeniable(f, n - 1);
      if n - 1 != i && !f.conditions[n - 1].kind.Simple? { OutsideDenial(f.conditions[n - 1], g, at + [n - 1], c); }
    }
  }

  /** Refusing a filter writes a text at each of its fields. */
  lemma {:induction false} DenialIsText(f: Filter, g: string, at: Address, c: Choices)
    requires Deniable(f) && g in FieldsOf(f)
    ensures Denial(f, g, at, c).Some? && Denial(f, g, at, c).value.Str?
    decreases f
  {
    if f.kind.Simple? {
      FailingSimpleTextFails(f, at, c);
    } else {
      var i :| 0 <= i < |f.conditions| && g in FieldsOf(f.conditions[i]);
      DenialIsText(f.conditions[i], g, at + [i], c);
      OwnDenial(f, g, i, |f.conditions|, at, c);
    }
  }

  lemma {:induction false} NotIsText(f: Filter, g: string, at: Address, c: Choices)
    requires f.kind.Not? && NotSupported(f) && g in FieldsOf(f) && g != ""
    ensures NotOutcome(f, g, at, c).Some? && NotOutcome(f, g, at, c).value.Str?
  {
    if g in NotFields(f) {
      FailingTextFails(g, WithField(f.conditions, g), at, c);
    } else {
      var i :| 0 <= i < |f.conditions| && g in FieldsOf(f.conditions[i]);
      NestedIsDeniable(f, i);
      assert !f.conditions[i].kind.Simple?;
      DenialIsText(f.conditions[i], g, at + [i], c);
      OwnNested(f, g, i, |f.conditions|, at, c);
    }
  }

  /** Without `or`, serving a filter writes at each of its fields. */
  lemma {:induction false} InsideOutcome(f: Filter, g: string, at: Address, c: Choices)
    requires Supported(f) && OrFree(f) && g in FieldsOf(f) && g != ""
    ensures Outcome(f, g, at, c).Some?
    decreases f
  {
    match f.kind
    case Simple =>
    case And =>
      var i :| 0 <= i < |f.conditions| && g in FieldsOf(f.conditions[i]);
      OwnOutcome(f, g, i, |f.conditions|, at, c);
      InsideOutcome(f.conditions[i], g, at + [i], c);
    case Not => NotIsText(f, g, at, c);
  }

  /** What is written can be compared and is not nil. */
  lemma {:induction false} OutcomeIsScalar(f: Filter, g: string, at: Address, c: Choices)
    requires Supported(f) && g != "" && Outcome(f, g, at, c).Some?
    ensures Outcome(f, g, at, c).value.Scalar()
    decreases f
  {
    if g !in FieldsOf(f) { OutsideOutcome(f, g, at, c); }
    match f.kind
    case Simple => if f.op.In? { assert f.value.items[c.pick(at, g, 0) % |f.value.items|].Scalar(); }
    case And =>
      var i :| 0 <= i < |f.conditions| && g in FieldsOf(f.conditions[i]);
      OwnOutcome(f, g, i, |f.conditions|, at, c);
      OutcomeIsScalar(f.conditions[i], g, at + [i], c);
    case Or =>
      var i := c.pick(at, "", 0) % |f.conditions|;
      OutcomeIsScalar(f.conditions[i], g, at + [i], c);
    case Not => NotIsText(f, g, at, c);
  }

  // ---- Fields at which all draws write the same ----

  /** All draws write the same to refuse the filter. */
  ghost predicate SteadyDenial(f: Filter, g: string)
    decreases f
  {
    if f.kind.Simple? then f.field == g ==> OnlyDenial(f).Some?
    else forall i | 0 <= i < |f.conditions| :: SteadyDenial(f.conditions[i], g)
  }

  /** All draws of a `not` write the same at the field. */
  ghost predicate SteadyNot(f: Filter, g: string) {
    && (g in NotFields(f) ==> OnlyText(g, WithField(f.conditions, g)).Some?)
    && forall i | 0 <= i < |f.conditions| && !f.conditions[i].kind.Simple? :: SteadyDenial(f.conditions[i], g)
  }

  /** Whatever a `not` outside any `or` writes at the field is the same for all draws. */
  ghost predicate Steady(f: Filter, g: string)
    decreases f
  {
    match f.kind
    case And => forall i | 0 <= i < |f.conditions| :: Steady(f.conditions[i], g)
    case Not => SteadyNot(f, g)
    case _ => true
  }

  /** The field is not drawn from a list of different values, does not depend on a branch, and is steady. */
  ghost predicate Pinned(f: Filter, g: string)
    decreases f
  {
    match f.kind
    case Simple => f.field == g && f.op.In? && f.value.Arr? ==>
      forall i, j | 0 <= i < |f.value.items| && 0 <= j < |f.value.items| :: f.value.items[i] == f.value.items[j]
    case And => forall i | 0 <= i < |f.conditions| :: Pinned(f.conditions[i], g)
    case Or => g !in FieldsOf(f)
    case Not => SteadyNot(f, g)
    case OtherKind(_) => true
  }

  ghost predicate OrFree(f: Filter)
    decreases f
  {
    match f.kind
    case And => forall i | 0 <= i < |f.conditions| :: OrFree(f.conditions[i])
    case Or => false
    case _ => true
  }

  lemma {:induction false} SteadyDenialIsFixed(f: Filter, g: string, at: Address, c: Choices, bt: Address, d: Choices)
    requires Deniable(f) && SteadyDenial(f, g)
    ensures Denial(f, g, at, c) == Denial(f, g, bt, d)
    decreases f
  {
    if g !in FieldsOf(f) {
      OutsideDenial(f, g, at, c);
      OutsideDenial(f, g, bt, d);
    } else if f.kind.Simple? {
      OnlyDenialIsWritten(f, at, c);
      OnlyDenialIsWritten(f, bt, d);
    } else {
      var i :| 0 <= i < |f.conditions| && g in FieldsOf(f.conditions[i]);
      OwnDenial(f, g, i, |f.conditions|, at, c);
      OwnDenial(f, g, i, |f.conditions|, bt, d);
      SteadyDenialIsFixed(f.conditions[i], g, at + [i], c, bt + [i], d);
    }
  }

  lemma {:induction false} GroupHashes(f: Filter, g: string)
    requires f.kind.Not? && NotSupported(f) && g in NotFields(f)
    ensures Hashes(WithField(f.conditions, g))
  {
    assert GroupOk(g, WithField(f.conditions, g));
  }

  lemma {:induction false} SteadyNotIsFixed(f: Filter, g: string, at: Address, c: Choices, bt: Address, d: Choices)
    requires f.kind.Not? && NotSupported(f) && SteadyNot(f, g)
    ensures NotOutcome(f, g, at, c) == NotOutcome(f, g, bt, d)
  {
    if g in NotFields(f) {
      GroupHashes(f, g);
      OnlyTextIsWritten(g, WithField(f.conditions, g), at, c);
      OnlyTextIsWritten(g, WithField(f.conditions, g), bt, d);
    } else if i :| 0 <= i < |f.conditions| && !f.conditions[i].kind.Simple? && g in FieldsOf(f.conditions[i]) {
      OwnNested(f, g, i, |f.conditions|, at, c);
      OwnNested(f, g, i, |f.conditions|, bt, d);
      NestedIsDeniable(f, i);
      SteadyDenialIsFixed(f.conditions[i], g, at + [i], c, bt + [i], d);
    } else {
      OutsideNested(f, g, |f.conditions|, at, c);
      OutsideNested(f, g, |f.conditions|, bt, d);
    }
  }

  lemma {:induction false} PinnedIsFixed(f: Filter, g: string, at: Address, c: Choices, bt: Address, d: Choices)
    requires Supported(f) && Pinned(f, g)
    ensures Outcome(f, g, at, c) == Outcome(f, g, bt, d)
    decreases f
  {
    if g !in FieldsOf(f) {
      OutsideOutcome(f, g, at, c);
      OutsideOutcome(f, g, bt, d);
    } else if f.kind.And? {
      var i :| 0 <= i < |f.conditions| && g in FieldsOf(f.conditions[i]);
      OwnOutcome(f, g, i, |f.conditions|, at, c);
      OwnOutcome(f, g, i, |f.conditions|, bt, d);
      PinnedIsFixed(f.conditions[i], g, at + [i], c, bt + [i], d);
    } else if f.kind.Not? {
      SteadyNotIsFixed(f, g, at, c, bt, d);
    }
  }

  // ---- And fields at which they do not ----

  lemma {:induction false} UnsteadyIsInside(f: Filter, g: string)
    requires !SteadyDenial(f, g)
    ensures g in FieldsOf(f)
    decreases f
  {
    if !f.kind.Simple? {
      var i :| 0 <= i < |f.conditions| && !SteadyDenial(f.conditions[i], g);
      UnsteadyIsInside(f.conditions[i], g);
    }
  }

  lemma {:induction false} UnpinnedIsInside(f: Filter, g: string)
    requires Supported(f) && !Pinned(f, g)
    ensures g in FieldsOf(f)
    decreases f
  {
    match f.kind
    case And =>
      var i :| 0 <= i < |f.conditions| && !Pinned(f.conditions[i], g);
      UnpinnedIsInside(f.conditions[i], g);
    case Not =>
      NotFieldsInside(f);
      if g !in NotFields(f) {
        var i :| 0 <= i < |f.conditions| && !SteadyDenial(f.conditions[i], g);
        UnsteadyIsInside(f.conditions[i], g);
      }
    case _ =>
  }

  lemma {:induction false} DenialVaries(f: Filter, g: string, at: Address) returns (c: Choices, d: Choices)
    requires Deniable(f) && !SteadyDenial(f, g)
    ensures Denial(f, g, at, c) != Denial(f, g, at, d)
    decreases f
  {
    if f.kind.Simple? {
      c, d := DenialsVary(f, at);
    } else {
      var i :| 0 <= i < |f.conditions| && !SteadyDenial(f.conditions[i], g);
      UnsteadyIsInside(f.conditions[i], g);
      c, d := DenialVaries(f.conditions[i], g, at + [i]);
      OwnDenial(f, g, i, |f.conditions|, at, c);
      OwnDenial(f, g, i, |f.conditions|, at, d);
    }
  }

  lemma {:induction false} NotVaries(f: Filter, g: string, at: Address) returns (c: Choices, d: Choices)
    requires f.kind.Not? && NotSupported(f) && !SteadyNot(f, g)
    ensures NotOutcome(f, g, at, c) != NotOutcome(f, g, at, d)
  {
    if g in NotFields(f) && OnlyText(g, WithField(f.conditions, g)).None? {
      GroupHashes(f, g);
      c, d := TextsVary(g, WithField(f.conditions, g), at);
    } else {
      var i :| 0 <= i < |f.conditions| && !f.conditions[i].kind.Simple? && !SteadyDenial(f.conditions[i], g);
      UnsteadyIsInside(f.conditions[i], g);
      NestedApart(f, i);
      NestedIsDeniable(f, i);
      c, d := DenialVaries(f.conditions[i], g, at + [i]);
      OwnNested(f, g, i, |f.conditions|, at, c);
      OwnNested(f, g, i, |f.conditions|, at, d);
    }
  }

  lemma {:induction false} ListVaries(f: Filter, g: string, at: Address) returns (c: Choices, d: Choices)
    requires f.kind.Simple? && !Pinned(f, g)
    ensures Outcome(f, g, at, c) != Outcome(f, g, at, d)
  {
    var items := f.value.items;
    var i: nat, j: nat :| i < |items| && j < |items| && items[i] != items[j];
    c, d := Constant(i, ""), Constant(j, "");
    ItemIsDrawn(f, at, i);
    ItemIsDrawn(f, at, j);
  }

  lemma {:induction false} ItemIsDrawn(f: Filter, at: Address, n: nat)
    requires f.op.In? && f.value.Arr? && n < |f.value.items|
    ensures SimpleValue(f, at, Constant(n, "")) == f.value.items[n]
  {
    assert n % |f.value.items| == n;
  }

  /** Without `or`, at every other field some draws differ. */
  lemma {:induction false} OutcomeVaries(f: Filter, g: string, at: Address) returns (c: Choices, d: Choices)
    requires Supported(f) && OrFree(f) && !Pinned(f, g)
    ensures Outcome(f, g, at, c) != Outcome(f, g, at, d)
    decreases f
  {
    match f.kind
    case Simple => c, d := ListVaries(f, g, at);
    case And =>
      var i :| 0 <= i < |f.conditions| && !Pinned(f.conditions[i], g);
      UnpinnedIsInside(f.conditions[i], g);
      c, d := OutcomeVaries(f.conditions[i], g, at + [i]);
      OwnOutcome(f, g, i, |f.conditions|, at, c);
      OwnOutcome(f, g, i, |f.conditions|, at, d);
    case Not => c, d := NotVaries(f, g, at);
  }

  /** Without `or`, all draws leave the same at a field exactly when it is pinned. */
  lemma {:induction false} PinnedExactly(f: Filter, g: string, at: Address)
    requires Supported(f) && OrFree(f)
    ensures (forall c, d :: Outcome(f, g, at, c) == Outcome(f, g, at, d)) <==> Pinned(f, g)
  {
    if Pinned(f, g) {
      forall c, d ensures Outcome(f, g, at, c) == Outcome(f, g, at, d) {
        PinnedIsFixed(f, g, at, c, at, d);
      }
    } else {
      var c, d := OutcomeVaries(f, g, at);
    }
  }

  /** What an unsteady `not` varies is not pinned. */
  lemma {:induction false} PinnedIsSteady(f: Filter, g: string)
    requires Pinned(f, g)
    ensures Steady(f, g)
    decreases f
  {
    if f.kind.And? {
      forall i | 0 <= i < |f.conditions| ensures Steady(f.conditions[i], g) { PinnedIsSteady(f.conditions[i], g); }
    }
  }
}
