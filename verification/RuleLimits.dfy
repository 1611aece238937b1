/** Where the conditions on served rules come from: what becomes of rules that do not meet them. */
module RuleLimits {
  import opened Wrappers
  import opened GoStrings
  import opened Events
  import opened Filters
  import opened ValueGen
  import opened Generation
  import opened Outcomes
  import opened Seeding
  import opened Enrichment
  import opened Rules
  import opened SeedsKept

  // ---- Unsteady and unpinned group_by fields ----

  /** A batch with two events that differ at a group_by field is not accepted. */
  lemma {:induction false} DifferingIsRejected(rule: Rule, events: seq<Event>, g: string, a: Event, b: Event)
    requires a in events && b in events && g in rule.groupBy
    requires GetField(a, g).Comparable() && GetField(b, g).Comparable() && GetField(a, g) != GetField(b, g)
    ensures Validate(rule, events) != Some(Accepted)
  {
    var i: nat, j: nat, k: nat :| i < |events| && events[i] == a && j < |events| && events[j] == b
                                  && k < |rule.groupBy| && rule.groupBy[k] == g;
    if Consistent(events, rule.groupBy) {
      ConsistentAgrees(events, rule.groupBy, i, k);
      ConsistentAgrees(events, rule.groupBy, j, k);
    }
  }

  lemma {:induction false} ConsistentAgrees(events: seq<Event>, groupBy: seq<string>, i: nat, k: nat)
    requires Consistent(events, groupBy) && i < |events| && k < |groupBy|
             && GetField(events[i], groupBy[k]).Comparable()
    ensures GetField(events[i], groupBy[k]) == GetField(events[0], groupBy[k])
  {}

  lemma {:induction false} SeededAtUnsteady(f: Filter, seeds: Seeds, g: string, order: seq<string>, c: Choices,
                                            fields: set<string>)
    requires Schema(fields) && FieldsOf(f) + seeds.Keys <= fields && Supported(f) && OrFree(f)
    requires IsOrderOf(order, seeds.Keys) && g in fields && !Steady(f, g) && CreateSeeded(f, seeds, order, c).Some?
    ensures var e := CreateSeeded(f, seeds, order, c).value;
            && Conforms(e, fields) && Outcome(f, g, [], c) == Some(GetField(e, g)) && GetField(e, g).Scalar()
  {
    forall h | h in order ensures h in seeds { assert h in Members(order); }
    WriteSeedsHolds(EMPTY, seeds, order, fields);
    var e := WriteSeeds(EMPTY, seeds, order).value;
    UnsteadyOverwrites(e, f, seeds, [], c, fields, g);
    NoEmptyName(fields);
    OutcomeIsScalar(f, g, [], c);
    SeededIsFramed(e, f, seeds, [], c, fields);
  }

  /** An event of an event_count rule holds what the `not` wrote at an unsteady field. */
  lemma {:induction false} CountEventAtUnsteady(rule: Rule, multiplier: real, generated: Seeds, g: string, seeds: Seeds,
                                                order: seq<string>, c: Choices, env: Env)
    requires Servable(rule, multiplier, generated, FieldsOf(rule.filter) + generated.Keys) && OrFree(rule.filter)
    requires seeds.Keys == generated.Keys && IsOrderOf(order, seeds.Keys) && g in generated && !Steady(rule.filter, g)
    requires CountEvent(rule.filter, seeds, order, c, env).Some?
    ensures Outcome(rule.filter, g, [], c) == Some(GetField(CountEvent(rule.filter, seeds, order, c, env).value, g))
    ensures Outcome(rule.filter, g, [], c).value.Scalar()
  {
    var f, fields := rule.filter, FieldsOf(rule.filter) + generated.Keys;
    forall h | h in order ensures h in seeds { assert h in Members(order); }
    SeededAtUnsteady(f, seeds, g, order, c, fields);
    FilledAndEnriched(CreateSeeded(f, seeds, order, c).value, seeds, order, env, fields, g);
  }

  /** What an event holds at a field is neither filled in nor enriched away. */
  lemma {:induction false} FilledAndEnriched(e: Event, seeds: Seeds, order: seq<string>, env: Env, fields: set<string>,
                                             g: string)
    requires Schema(fields) && Conforms(e, fields) && seeds.Keys <= fields && (forall h | h in order :: h in seeds)
    requires Unstamped(fields) && g in fields && Has(e, g)
    ensures FillGroupBy(e, seeds, order).Some?
    ensures GetField(Enriched(FillGroupBy(e, seeds, order).value, env), g) == GetField(e, g)
  {
    FillHolds(e, seeds, order, fields);
    EnrichmentKeeps(FillGroupBy(e, seeds, order).value, seeds, 0, env, fields);
  }

  /** The draws make this event of an event_count rule from some group_by values. */
  ghost predicate CanMake(f: Filter, keys: set<string>, c: Choices, e: Event) {
    exists seeds: Seeds, order, env: Env ::
      seeds.Keys == keys && IsOrderOf(order, seeds.Keys) && CountEvent(f, seeds, order, c, env) == Some(e)
  }

  lemma {:induction false} MadeAtUnsteady(rule: Rule, multiplier: real, generated: Seeds, g: string, c: Choices,
                                          e: Event)
    requires Servable(rule, multiplier, generated, FieldsOf(rule.filter) + generated.Keys) && OrFree(rule.filter)
    requires g in generated && !Steady(rule.filter, g) && CanMake(rule.filter, generated.Keys, c, e)
    ensures Outcome(rule.filter, g, [], c) == Some(GetField(e, g)) && GetField(e, g).Scalar()
  {
    var seeds: Seeds, order, env: Env :| seeds.Keys == generated.Keys && IsOrderOf(order, seeds.Keys)
                                         && CountEvent(rule.filter, seeds, order, c, env) == Some(e);
    CountEventAtUnsteady(rule, multiplier, generated, g, seeds, order, c, env);
  }

  /** With an unsteady group_by field some draws make two events that no accepted batch can share. */
  lemma {:induction false} UnsteadyRuleIsRejected(rule: Rule, multiplier: real, generated: Seeds, g: string)
    returns (c: Choices, d: Choices)
    requires Servable(rule, multiplier, generated, FieldsOf(rule.filter) + generated.Keys) && OrFree(rule.filter)
    requires g in generated && !Steady(rule.filter, g)
    ensures forall a, b, events | CanMake(rule.filter, generated.Keys, c, a)
                                  && CanMake(rule.filter, generated.Keys, d, b)
                                  && a in events && b in events :: Validate(rule, events) != Some(Accepted)
  {
    UnsteadyIsUnpinned(rule.filter, g);
    c, d := OutcomeVaries(rule.filter, g, []);
    assert g in Members(rule.groupBy);
    forall a, b, events | CanMake(rule.filter, generated.Keys, c, a) && CanMake(rule.filter, generated.Keys, d, b)
                          && a in events && b in events ensures Validate(rule, events) != Some(Accepted)
    {
      MadeAtUnsteady(rule, multiplier, generated, g, c, a);
      MadeAtUnsteady(rule, multiplier, generated, g, d, b);
      DifferingIsRejected(rule, events, g, a, b);
    }
  }

  /** Group by a field what is not a certain text there. */
  function GroupedByUnlike(field: string, s: string): Rule {
    Rule(EventCountRule, Compound(Not, [Condition(field, Eq, Str(s))]), Gte, 2.0, [field])
  }

  /** Such a rule: all of it can be served but for the `not` on the group_by field. */
  lemma {:induction false} UnsteadyRule(v: Value)
    requires v.Scalar()
    ensures var rule := GroupedByUnlike(".a", "x");
            && Servable(rule, 1.0, map[".a" := v], FieldsOf(rule.filter) + {".a"})
            && OrFree(rule.filter) && !Steady(rule.filter, ".a")
  {
    ShortField();
    UnlikeIsServable(".a", "x", v);
  }

  lemma {:induction false} UnlikeIsServable(field: string, s: string, v: Value)
    requires PossibleTexts(field).None? && PlainField(field) && GetParts(field)[0] !in Stamped()
    requires s != FallbackValue() && v.Scalar()
    ensures var rule := GroupedByUnlike(field, s);
            && Servable(rule, 1.0, map[field := v], FieldsOf(rule.filter) + {field})
            && OrFree(rule.filter) && !Steady(rule.filter, field)
  {
    UnlikeIsUnsteady(field, s);
    OneFieldSchema(field);
    assert Members([field]) == {field} && FieldsOf(GroupedByUnlike(field, s).filter) + {field} == {field};
  }

  lemma {:induction false} OneFieldSchema(field: string)
    requires PlainField(field) && GetParts(field)[0] !in Stamped()
    ensures Schema({field}) && Unstamped({field})
  {}

  lemma {:induction false} UnlikeIsUnsteady(field: string, s: string)
    requires PossibleTexts(field).None? && field != ""
    ensures var f := GroupedByUnlike(field, s).filter;
            && FieldsOf(f) == {field} && (NotSupported(f) <==> s != FallbackValue()) && !SteadyNot(f, field)
  {
    var f, cond := GroupedByUnlike(field, s).filter, Condition(field, Eq, Str(s));
    assert f.conditions[0] == cond && f.conditions[1..] == [];
    OneConditionFields(f);
    assert WithField(f.conditions[1..], field) == [];
    assert WithField(f.conditions, field) == [cond];
    UnlikeGroup(field, s);
  }

  lemma {:induction false} UnlikeGroup(field: string, s: string)
    requires PossibleTexts(field).None?
    ensures var conds := [Condition(field, Eq, Str(s))];
            (GroupOk(field, conds) <==> s != FallbackValue()) && OnlyText(field, conds).None?
  {
    var conds := [Condition(field, Eq, Str(s))];
    assert conds[0].op == Eq;
    assert AvoidedValues(conds) == {Str(s)} && AvoidedSubs(conds) == {};
  }

  lemma {:induction false} OneConditionFields(f: Filter)
    requires f.kind.Not? && |f.conditions| == 1 && f.conditions[0].kind.Simple? && f.conditions[0].field != ""
    ensures FieldsOf(f) == {f.conditions[0].field} && NotFields(f) == {f.conditions[0].field}
  {
    assert f.conditions[0].field in FieldsOf(f.conditions[0]);
  }

  lemma {:induction false} ShortField()
    ensures PossibleTexts(".a") == None
    ensures GetParts(".a")[0] !in Stamped() && PlainField(".a") && "x" != FallbackValue()
  {
    assert FallbackValue()[0] == 'u';
    assert "a"[1..] == "" && Split("", '.') == [""];
    assert ['a'] + "" == "a" && [""][1..] == [];
    assert Split("a", '.') == ["a"];
  }

  // ---- Seeds in the branches of an `or` ----

  function Either(a: Filter, b: Filter): Filter {
    Compound(Or, [a, b])
  }

  /** When the first branch takes the seeds for compatible, every seeded pass serves that branch. */
  lemma {:induction false} FirstBranchIsServed(a: Filter, b: Filter, seeds: Seeds, order: seq<string>, c: Choices)
    requires IsOrderOf(order, seeds.Keys) && Fit(a, seeds) == Some(true)
    requires forall g | g in order :: g in seeds
    ensures CreateSeeded(Either(a, b), seeds, order, c) ==
            match WriteSeeds(EMPTY, seeds, order)
            case None => None
            case Some(e) => ApplySeeded(e, a, seeds, [0], c)
  {
    var f := Either(a, b);
    assert f.conditions[0] == a && [] + [0] == [0];
    assert FindBranch(f, 0, seeds) == Some(0);
  }

  /** The draws that serve the second branch make an event that holds what its condition on the field asks for. */
  lemma {:induction false} SecondBranchTemplate(a: Filter, b: Filter)
    ensures CreateEvent(Either(a, b), Constant(1, "")) == Apply(EMPTY, b, [1], Constant(1, ""))
  {
    var f := Either(a, b);
    assert f.conditions[1] == b && [] + [1] == [1] && 1 % |f.conditions| == 1;
  }

  lemma {:induction false} OneSeedWritten(field: string, v: Value)
    requires Schema({field})
    ensures var seeds := map[field := v];
            && IsOrderOf([field], seeds.Keys)
            && WriteSeeds(EMPTY, seeds, [field]) == SetField(EMPTY, field, v)
            && SetField(EMPTY, field, v).Some? && Conforms(SetField(EMPTY, field, v).value, {field})
            && GetField(SetField(EMPTY, field, v).value, field) == v
  {
    var seeds: Seeds := map[field := v];
    assert [field][..0] == [];
    assert WriteSeeds(EMPTY, seeds, []) == Some(EMPTY);
    SetConforms(EMPTY, {field}, field, v);
  }

  /**
   * A comparison takes every seed for compatible: of a filter like "a above t, or a = v and b = w" the seed v below t
   * is kept with the first branch, which then refuses it, and the second is never served.
   */
  lemma {:induction false} ComparisonInOrIsRefused(field: string, t: real, v: real, rest: Filter, c: Choices)
    requires Schema({field}) && v <= t
    requires forall e: Event | Conforms(e, {field}) :: Judge(e, rest) == Some(false)
    ensures var f, seeds := Either(Condition(field, Gt, Float(t)), rest), map[field := Float(v)];
            && IsOrderOf([field], seeds.Keys)
            && var r := CreateSeeded(f, seeds, [field], c);
               r.Some? && Judge(r.value, f) == Some(false)
  {
    var cond, seeds: Seeds := Condition(field, Gt, Float(t)), map[field := Float(v)];
    OneSeedWritten(field, Float(v));
    FirstBranchIsServed(cond, rest, seeds, [field], c);
    var e := SetField(EMPTY, field, Float(v)).value;
    SetConforms(e, {field}, field, Float(v));
    var r := SetField(e, field, Float(v)).value;
    var f := Either(cond, rest);
    assert f.conditions[0] == cond && f.conditions[1] == rest;
    assert Judge(r, cond) == Some(false) && Search(r, f, 2, true) == Some(false);
    assert Search(r, f, 1, true) == Some(false);
  }

  function BothEqual(field: string, v: real, other: string, w: Value): Filter {
    Compound(And, [Condition(field, Eq, Float(v)), Condition(other, Eq, w)])
  }

  /** Such a second branch, and a template that took it. */
  lemma {:induction false} ComparedRule(field: string, other: string, t: real, v: real, w: Value)
    requires Schema({field, other}) && field != other && w.Scalar()
    ensures var rest := BothEqual(field, v, other, w);
            var f := Either(Condition(field, Gt, Float(t)), rest);
            && Supported(f) && Settled(f)
            && (forall e: Event | Conforms(e, {field}) :: Judge(e, rest) == Some(false))
            && var template := CreateEvent(f, Constant(1, ""));
               template.Some? && Passes(template.value, f) && FromTemplate(map[field := Float(v)], template.value)
  {
    var cond, rest := Condition(field, Gt, Float(t)), BothEqual(field, v, other, w);
    var f := Either(cond, rest);
    BothEqualIsSupported(field, v, other, w);
    EitherIsSupported(cond, rest);
    TwoConditionFields(Or, cond, rest);
    forall e: Event | Conforms(e, {field}) ensures Judge(e, rest) == Some(false) {
      BothEqualIsRefused(e, field, v, other, w);
    }
    SubSchema({field, other}, FieldsOf(f));
    CreatedEventsMatch(f, Constant(1, ""));
    SecondBranchTemplate(cond, rest);
    BothEqualHolds(field, v, other, w, Constant(1, ""));
  }

  lemma {:induction false} EitherIsSupported(a: Filter, b: Filter)
    requires Supported(a) && Supported(b) && Quiet(a) && Quiet(b)
    ensures Supported(Either(a, b)) && Settled(Either(a, b))
  {}

  lemma {:induction false} BothEqualIsSupported(field: string, v: real, other: string, w: Value)
    requires field != other && w.Scalar()
    ensures var f := BothEqual(field, v, other, w); Supported(f) && Quiet(f) && FieldsOf(f) == {field, other}
  {
    TwoConditionFields(And, Condition(field, Eq, Float(v)), Condition(other, Eq, w));
  }

  lemma {:induction false} BothEqualIsRefused(e: Event, field: string, v: real, other: string, w: Value)
    requires Schema({field, other}) && field != other && w.Scalar() && Conforms(e, {field})
    ensures Judge(e, BothEqual(field, v, other, w)) == Some(false)
  {
    var f := BothEqual(field, v, other, w);
    BothEqualIsSupported(field, v, other, w);
    OtherIsMissing(e, field, other);
    QuietIsFirm(e, f);
    FirmIsCalm(e, f);
    CalmIsJudged(e, f);
    assert f.conditions[1] == Condition(other, Eq, w);
  }

  lemma {:induction false} BothEqualHolds(field: string, v: real, other: string, w: Value, c: Choices)
    requires Schema({field, other}) && field != other && w.Scalar()
    ensures var r := Apply(EMPTY, BothEqual(field, v, other, w), [1], c);
            r.Some? && GetField(r.value, field) == Float(v)
  {
    var f := BothEqual(field, v, other, w);
    BothEqualIsSupported(field, v, other, w);
    ApplySound(EMPTY, f, [1], c, {field, other});
    assert Met(Apply(EMPTY, f, [1], c).value, f.conditions[0]);
  }

  lemma {:induction false} TwoConditionFields(kind: Kind, a: Filter, b: Filter)
    requires !kind.Simple?
    ensures FieldsOf(Compound(kind, [a, b])) == FieldsOf(a) + FieldsOf(b)
  {
    var f := Compound(kind, [a, b]);
    assert f.conditions[0] == a && f.conditions[1] == b;
    SubFields(f, 0);
    SubFields(f, 1);
  }

  lemma {:induction false} OtherIsMissing(e: Event, field: string, other: string)
    requires Schema({field, other}) && field != other && Conforms(e, {field})
    ensures !Has(e, other)
  {
    var p := GetParts(other);
    assert p in e ==> Allotted(e, {field}, p);
    assert !ReachesInto(other, field) && !ReachesInto(field, other);
  }

  /** A `not` in a branch takes over too, and different draws write different texts over the seed. */
  lemma {:induction false} NotInOrOverwrites(field: string, s: string, v: Value) returns (c: Choices, d: Choices)
    requires Schema({field}) && PossibleTexts(field).None? && s != FallbackValue() && v.Scalar() && v != Str(s)
    ensures var f := Either(Compound(Not, [Condition(field, Eq, Str(s))]), Condition(field, Eq, v));
            var seeds := map[field := v];
            && Supported(f) && Settled(f) && IsOrderOf([field], seeds.Keys)
            && CreateEvent(f, Constant(1, "")).Some? && FromTemplate(seeds, CreateEvent(f, Constant(1, "")).value)
            && var x, y := CreateSeeded(f, seeds, [field], c), CreateSeeded(f, seeds, [field], d);
               x.Some? && y.Some? && GetField(x.value, field) != GetField(y.value, field)
  {
    var not, cond := GroupedByUnlike(field, s).filter, Condition(field, Eq, v);
    assert PlainField(field);
    UnlikeIsUnsteady(field, s);
    NotInOrIsSupported(field, s, v);
    c, d := NotVaries(not, field, [0]);
    OneSeedWritten(field, v);
    NotInOrWrites(field, s, v, c);
    NotInOrWrites(field, s, v, d);
    SecondBranchTemplate(not, cond);
    SetConforms(EMPTY, {field}, field, v);
  }

  lemma {:induction false} NotInOrWrites(field: string, s: string, v: Value, c: Choices)
    requires Schema({field}) && PossibleTexts(field).None? && s != FallbackValue() && v.Scalar() && v != Str(s)
    ensures var not := GroupedByUnlike(field, s).filter;
            var seeds: Seeds := map[field := v];
            && IsOrderOf([field], seeds.Keys)
            && var r := CreateSeeded(Either(not, Condition(field, Eq, v)), seeds, [field], c);
               r.Some? && NotOutcome(not, field, [0], c) == Some(GetField(r.value, field))
  {
    var not, cond := GroupedByUnlike(field, s).filter, Condition(field, Eq, v);
    var seeds: Seeds := map[field := v];
    assert PlainField(field);
    UnlikeIsUnsteady(field, s);
    OneSeedWritten(field, v);
    assert not.conditions[0] == Condition(field, Eq, Str(s)) && not.conditions[1..] == [];
    assert Unfit(not.conditions[1..], seeds) == Some(true);
    FirstBranchIsServed(not, cond, seeds, [field], c);
    NotLeaves(SetField(EMPTY, field, v).value, not, [0], c, {field}, field);
    NotIsText(not, field, [0], c);
  }

  lemma {:induction false} NotInOrIsSupported(field: string, s: string, v: Value)
    requires NotSupported(Compound(Not, [Condition(field, Eq, Str(s))])) && v.Scalar()
    ensures var f := Either(Compound(Not, [Condition(field, Eq, Str(s))]), Condition(field, Eq, v));
            Supported(f) && Settled(f)
  {
    var not := Compound(Not, [Condition(field, Eq, Str(s))]);
    assert not.conditions[0] == Condition(field, Eq, Str(s)) && Quiet(not.conditions[0]) && Quiet(not);
  }

  // ---- Stamped fields ----

  /** With a known class the verdict on a stamped field is the verdict on the stamp. */
  lemma {:induction false} StampedFieldIsJudgedByStamp(e: Event, env: Env, uid: int, i: nat, f: Filter)
    requires ClassUid(Get(e, ["class_uid"])) == Some(uid) && i < |Stamps(uid)|
    requires f.kind.Simple? && GetParts(f.field) == [Stamps(uid)[i].0]
    ensures Judge(Enriched(e, env), f) == Some(Compare(Stamps(uid)[i].1, f.op, f.value))
  {
    StampsWin(e, env, uid, i);
    StampsNeverClash(uid, i, f.op, f.value);
  }

  lemma {:induction false} StampsNeverClash(uid: int, i: nat, op: Op, w: Value)
    requires i < |Stamps(uid)|
    ensures Stamps(uid)[i].1.Scalar() && !Clashes(Stamps(uid)[i].1, op, w)
    ensures Stamps(uid)[i].0 == "category_uid" ==> Stamps(uid)[i].1.Int?
  {}

  /** A condition that a category is a number of a decoded filter never passes: the stamp is of another number type. */
  lemma {:induction false} CategoryNumberIsRefused(e: Event, env: Env, f: Filter)
    requires ClassUid(Get(e, ["class_uid"])).Some?
    requires f.kind.Simple? && GetParts(f.field) == ["category_uid"] && f.op.Eq? && f.value.Float?
    ensures Judge(Enriched(e, env), f) == Some(false)
  {
    var uid := ClassUid(Get(e, ["class_uid"])).value;
    StampsNeverClash(uid, 0, f.op, f.value);
    StampedFieldIsJudgedByStamp(e, env, uid, 0, f);
  }

  // ---- value_count ----

  /** The draws make this event of a value_count rule from some group_by values. */
  ghost predicate CanMakeValue(rule: Rule, generated: Seeds, c: Choices, e: Event)
    requires rule.kind.ValueCountRule?
  {
    exists seeds: Seeds, order, index: nat, env: Env ::
      && IsOrderOf(order, seeds.Keys) && SeedsOf(seeds, generated)
      && ValueEvent(rule.filter, seeds, order, rule.kind.countField, index, c, env).Some?
      && ValueEvent(rule.filter, seeds, order, rule.kind.countField, index, c, env).value.0 == e
  }

  /** A value event holds what its filter left at a field other than the count field. */
  lemma {:induction false} ValueEventAt(rule: Rule, generated: Seeds, g: string, seeds: Seeds, order: seq<string>,
                                        index: nat, c: Choices, env: Env)
    requires rule.kind.ValueCountRule? && Supported(rule.filter) && Schema(ValueFields(rule, generated))
    requires Unstamped(ValueFields(rule, generated)) && SeedsOf(seeds, generated) && IsOrderOf(order, seeds.Keys)
    requires g in ValueFields(rule, generated) && g != rule.kind.countField && Outcome(rule.filter, g, [], c).Some?
    ensures var r := ValueEvent(rule.filter, seeds, order, rule.kind.countField, index, c, env);
            r.Some? && Outcome(rule.filter, g, [], c) == Some(GetField(r.value.0, g)) && GetField(r.value.0, g).Scalar()
  {
    var f, field, fields := rule.filter, rule.kind.countField, ValueFields(rule, generated);
    FilledAt(f, g, seeds, order, c, fields);
    var e := FilledEvent(f, seeds, order, c).value;
    SetConforms(e, fields, field, UniqueValue(field, index));
    EnrichmentKeeps(SetField(e, field, UniqueValue(field, index)).value, seeds, index, env, fields);
  }

  lemma {:induction false} FilledAt(f: Filter, g: string, seeds: Seeds, order: seq<string>, c: Choices,
                                    fields: set<string>)
    requires Schema(fields) && FieldsOf(f) + seeds.Keys <= fields && g in fields && Supported(f)
    requires IsOrderOf(order, seeds.Keys) && Outcome(f, g, [], c).Some?
    ensures var r := FilledEvent(f, seeds, order, c);
            && r.Some? && Conforms(r.value, fields)
            && Outcome(f, g, [], c) == Some(GetField(r.value, g)) && GetField(r.value, g).Scalar()
  {
    forall h | h in order ensures h in seeds { assert h in Members(order); }
    NoEmptyName(fields);
    OutcomeIsScalar(f, g, [], c);
    ApplySound(EMPTY, f, [], c, fields);
    ApplyLeaves(EMPTY, f, [], c, fields, g);
    FillHolds(CreateEvent(f, c).value, seeds, order, fields);
  }

  /** Without `or`, a group_by field that the filter writes but that is not pinned is drawn differently some time. */
  lemma {:induction false} UnpinnedRuleIsRejected(rule: Rule, multiplier: real, generated: Seeds, g: string)
    returns (c: Choices, d: Choices)
    requires rule.kind.ValueCountRule? && Servable(rule, multiplier, generated, ValueFields(rule, generated))
    requires OrFree(rule.filter) && g in generated && g != rule.kind.countField && !Pinned(rule.filter, g)
    ensures forall a, b, events | CanMakeValue(rule, generated, c, a) && CanMakeValue(rule, generated, d, b)
                                  && a in events && b in events :: Validate(rule, events) != Some(Accepted)
  {
    UnpinnedIsInside(rule.filter, g);
    NoEmptyName(ValueFields(rule, generated));
    c, d := OutcomeVaries(rule.filter, g, []);
    assert g in Members(rule.groupBy);
    forall a, b, events | CanMakeValue(rule, generated, c, a) && CanMakeValue(rule, generated, d, b)
                          && a in events && b in events ensures Validate(rule, events) != Some(Accepted)
    {
      ValueMadeAt(rule, multiplier, generated, g, c, a);
      ValueMadeAt(rule, multiplier, generated, g, d, b);
      DifferingIsRejected(rule, events, g, a, b);
    }
  }

  lemma {:induction false} ValueMadeAt(rule: Rule, multiplier: real, generated: Seeds, g: string, c: Choices, e: Event)
    requires rule.kind.ValueCountRule? && Servable(rule, multiplier, generated, ValueFields(rule, generated))
    requires OrFree(rule.filter) && g in generated && g != rule.kind.countField && g in FieldsOf(rule.filter)
    requires CanMakeValue(rule, generated, c, e)
    ensures Outcome(rule.filter, g, [], c) == Some(GetField(e, g)) && GetField(e, g).Scalar()
  {
    var seeds: Seeds, order, index: nat, env: Env :|
      && IsOrderOf(order, seeds.Keys) && SeedsOf(seeds, generated)
      && ValueEvent(rule.filter, seeds, order, rule.kind.countField, index, c, env).Some?
      && ValueEvent(rule.filter, seeds, order, rule.kind.countField, index, c, env).value.0 == e;
    NoEmptyName(ValueFields(rule, generated));
    InsideOutcome(rule.filter, g, [], c);
    ValueEventAt(rule, generated, g, seeds, order, index, c, env);
  }

  /** The count field ends with the event's own value, so a condition on it is judged by that value. */
  lemma {:induction false} CountFieldIsOverwritten(f: Filter, seeds: Seeds, order: seq<string>, field: string,
                                                   index: nat,
                                                   c: Choices, cond: Filter)
    requires PlainField(field) && IsOrderOf(order, seeds.Keys) && cond.kind.Simple? && cond.field == field
    requires PlainValueEvent(f, seeds, order, field, index, c).Some?
    ensures var e := PlainValueEvent(f, seeds, order, field, index, c).value;
            && GetField(e, field) == UniqueValue(field, index)
            && Judge(e, cond) == Some(Compare(UniqueValue(field, index), cond.op, cond.value))
  {
    var before := FilledEvent(f, seeds, order, c).value;
    SetThenGet(before, field, UniqueValue(field, index), PlainValueEvent(f, seeds, order, field, index, c).value);
  }
}
