/** Serving a rule: how many events, which ones, and the verdict of the rule validator on them. */
module Rules {
  import opened Wrappers
  import opened GoStrings
  import opened Events
  import opened Filters
  import opened ValueGen
  import opened Generation
  import opened Outcomes
  import opened Seeding
  import opened Enrichment

  datatype RuleKind = EventCountRule | ValueCountRule(countField: string)

  datatype Rule = Rule(kind: RuleKind, filter: Filter, op: Op, threshold: real, groupBy: seq<string>)

  // ---- calculateEventCount ----

  function Ceil(r: real): int {
    if r.Floor as real == r then r.Floor else r.Floor + 1
  }

  function Scaled(a: real, multiplier: real): int {
    Ceil(a * multiplier)
  }

  function EventCount(threshold: real, op: Op, multiplier: real): int {
    match op
    case Gt => Scaled(threshold + 1.0, multiplier)
    case Eq => Ceil(threshold)
    case _ => Scaled(threshold, multiplier)
  }

  /** The validators' comparison of a count with the threshold; other operators are not checked. */
  predicate CountMeets(n: int, op: Op, threshold: real) {
    match op
    case Gt => n as real > threshold
    case Gte => n as real >= threshold
    case Eq => n as real == threshold
    case _ => true
  }

  /** validateEventCount also checks the two operators the generator does not aim at. */
  predicate EventCountMeets(n: int, op: Op, threshold: real) {
    match op
    case Lt => (n as real) < threshold
    case Lte => n as real <= threshold
    case _ => CountMeets(n, op, threshold)
  }

  lemma {:induction false} CeilExact(x: real, t: real)
    ensures Ceil(x) as real > t <==> x > t.Floor as real
    ensures Ceil(x) as real >= t <==> x > Ceil(t) as real - 1.0
    ensures Ceil(t) as real == t <==> t.Floor as real == t
  {
    if Ceil(x) as real > t { assert Ceil(x) >= t.Floor + 1; }
    if Ceil(x) as real >= t { assert Ceil(x) >= Ceil(t); }
  }

  lemma {:induction false} GrowsByFactor(a: real, m: real)
    requires a >= 0.0 && m >= 1.0
    ensures a * m >= a
  {
    assert a * (m - 1.0) >= 0.0;
  }

  /** The computed number of events meets the threshold exactly under a condition on the multiplier. */
  lemma {:induction false} CountExact(threshold: real, op: Op, multiplier: real)
    requires op.Gt? || op.Gte? || op.Eq?
    ensures CountMeets(EventCount(threshold, op, multiplier), op, threshold) <==>
            match op
            case Gt => (threshold + 1.0) * multiplier > threshold.Floor as real
            case Gte => threshold * multiplier > Ceil(threshold) as real - 1.0
            case _ => threshold.Floor as real == threshold
  {
    var x := match op case Gt => (threshold + 1.0) * multiplier case _ => threshold * multiplier;
    CeilExact(x, threshold);
  }

  /** With a multiplier of at least one, enough events are generated, and at least one. */
  lemma {:induction false} CountSuffices(threshold: real, op: Op, multiplier: real)
    requires (op.Gt? || op.Gte? || op.Eq?) && threshold >= 1.0 && multiplier >= 1.0
    requires op.Eq? ==> threshold.Floor as real == threshold
    ensures EventCount(threshold, op, multiplier) >= 1
    ensures CountMeets(EventCount(threshold, op, multiplier), op, threshold)
  {
    match op
    case Gt => GrownCeilMeets(threshold + 1.0, multiplier, op, threshold);
    case Gte => GrownCeilMeets(threshold, multiplier, op, threshold);
    case Eq => CeilMeets(threshold, op, threshold);
  }

  /** For the other two operators: the events are few enough exactly under these conditions. */
  lemma {:induction false} CountExactBelow(threshold: real, multiplier: real)
    ensures EventCountMeets(EventCount(threshold, Lt, multiplier), Lt, threshold) <==>
            threshold * multiplier <= Ceil(threshold) as real - 1.0
    ensures EventCountMeets(EventCount(threshold, Lte, multiplier), Lte, threshold) <==>
            threshold * multiplier <= threshold.Floor as real
  {
    CeilExact(threshold * multiplier, threshold);
  }

  lemma {:induction false} GrownCeilMeets(a: real, multiplier: real, op: Op, threshold: real)
    requires threshold >= 1.0 && multiplier >= 1.0 && a >= threshold && (op.Gt? ==> a > threshold) && !op.Eq?
    ensures Scaled(a, multiplier) >= 1 && CountMeets(Scaled(a, multiplier), op, threshold)
  {
    var x := a * multiplier;
    assert x >= a by { GrowsByFactor(a, multiplier); }
    CeilMeets(x, op, threshold);
  }

  lemma {:induction false} CeilMeets(x: real, op: Op, threshold: real)
    requires threshold >= 1.0 && x >= threshold
    requires op.Gt? ==> x > threshold
    requires op.Eq? ==> x == threshold && threshold.Floor as real == threshold
    ensures Ceil(x) >= 1 && CountMeets(Ceil(x), op, threshold)
  {
    assert Ceil(x) as real >= x;
  }

  // ---- generateUniqueValueForField ----

  function UniqueValue(field: string, index: nat): (v: Value)
    ensures v.Scalar()
  {
    if ContainsIgnoreCase(field, "port") then Int(1024 + index)
    else if ContainsIgnoreCase(field, "ip") || ContainsIgnoreCase(field, "addr") then
      Str("10.0." + (Itoa(index / 256) + ['.'] + Itoa(index % 256)))
    else if ContainsIgnoreCase(field, "user.name") || ContainsIgnoreCase(field, "username") then
      Str("user" + Itoa(index))
    else if ContainsIgnoreCase(field, "hostname") || ContainsIgnoreCase(field, "host") then
      Str("host-" + Itoa(index) + ".example.com")
    else Str("value-" + Itoa(index))
  }

  lemma {:induction false} WrapInjective(before: string, s: string, t: string, after: string)
    requires before + s + after == before + t + after
    ensures s == t
  {
    assert (before + s + after)[|before|..|before| + |s|] == s;
    assert (before + t + after)[|before|..|before| + |t|] == t;
  }

  /** Different events get different values. */
  lemma {:induction false} UniqueValueInjective(field: string, i: nat, j: nat)
    requires UniqueValue(field, i) == UniqueValue(field, j)
    ensures i == j
  {
    if ContainsIgnoreCase(field, "port") {
    } else if ContainsIgnoreCase(field, "ip") || ContainsIgnoreCase(field, "addr") {
      var (a, b) := (Itoa(i / 256) + ['.'] + Itoa(i % 256), Itoa(j / 256) + ['.'] + Itoa(j % 256));
      assert "10.0." + a + "" == "10.0." + a && "10.0." + b + "" == "10.0." + b;
      WrapInjective("10.0.", a, b, "");
      CutUndoesJoin(Itoa(i / 256), Itoa(i % 256), '.');
      CutUndoesJoin(Itoa(j / 256), Itoa(j % 256), '.');
      ItoaInjective(i / 256, j / 256);
      ItoaInjective(i % 256, j % 256);
    } else if ContainsIgnoreCase(field, "user.name") || ContainsIgnoreCase(field, "username") {
      assert "user" + Itoa(i) + "" == "user" + Itoa(i) && "user" + Itoa(j) + "" == "user" + Itoa(j);
      WrapInjective("user", Itoa(i), Itoa(j), "");
      ItoaInjective(i, j);
    } else if ContainsIgnoreCase(field, "hostname") || ContainsIgnoreCase(field, "host") {
      WrapInjective("host-", Itoa(i), Itoa(j), ".example.com");
      ItoaInjective(i, j);
    } else {
      assert "value-" + Itoa(i) + "" == "value-" + Itoa(i) && "value-" + Itoa(j) + "" == "value-" + Itoa(j);
      WrapInjective("value-", Itoa(i), Itoa(j), "");
      ItoaInjective(i, j);
    }
  }

  // ---- ValidateEventsMatchRule ----

  datatype Verdict = Accepted | NoEvents | NoneMatches | WrongCount | Inconsistent

  predicate Consistent(events: seq<Event>, groupBy: seq<string>) {
    forall i, k | 0 <= i < |events| && 0 <= k < |groupBy| ::
      !Differ(GetField(events[i], groupBy[k]), GetField(events[0], groupBy[k]))
  }

  function DistinctValues(events: seq<Event>, field: string): set<Value> {
    set i | 0 <= i < |events| && Has(events[i], field) :: GetField(events[i], field)
  }

  /** validateGroupByConsistency; a list or an object in the first event clashes with itself, which panics (None). */
  function GroupVerdict(events: seq<Event>, groupBy: seq<string>): Option<bool>
    requires events != []
  {
    if exists k | 0 <= k < |groupBy| :: !GetField(events[0], groupBy[k]).Comparable() then None
    else Some(Consistent(events, groupBy))
  }

  /** The number of distinct values; a list or an object cannot be the key of a map, which panics. */
  function CountVerdict(events: seq<Event>, field: string): Option<nat> {
    if Hashable(DistinctValues(events, field)) then Some(|DistinctValues(events, field)|) else None
  }

  /** ValidateEventsMatchRule; None is a panic. */
  function Validate(rule: Rule, events: seq<Event>): Option<Verdict> {
    if events == [] then Some(NoEvents)
    else if exists i | 0 <= i < |events| :: Judge(events[i], rule.filter).None? then None
    else if forall i | 0 <= i < |events| :: !Passes(events[i], rule.filter) then Some(NoneMatches)
    else
      match EnoughVerdict(rule, events)
      case None => None
      case Some(enough) =>
        if !enough then Some(WrongCount)
        else match GroupVerdict(events, rule.groupBy)
          case None => None
          case Some(consistent) => Some(if consistent then Accepted else Inconsistent)
  }

  function EnoughVerdict(rule: Rule, events: seq<Event>): Option<bool> {
    match rule.kind
    case EventCountRule => Some(EventCountMeets(|events|, rule.op, rule.threshold))
    case ValueCountRule(field) =>
      match CountVerdict(events, field)
      case None => None
      case Some(n) => Some(CountMeets(n, rule.op, rule.threshold))
  }

  // ---- Events of an event_count rule ----

  /** Group_by values are generated (or overridden) first; what the template holds takes over. */
  function SeedsFrom(generated: Seeds, template: Event): Seeds {
    map g | g in generated :: if Has(template, g) then GetField(template, g) else generated[g]
  }

  /** An event before its enrichment; None is a panic. */
  ghost function PlainCountEvent(f: Filter, seeds: Seeds, order: seq<string>, c: Choices): Option<Event>
    requires IsOrderOf(order, seeds.Keys)
  {
    assert forall g | g in order :: g in Members(order);
    match CreateSeeded(f, seeds, order, c)
    case None => None
    case Some(e) => FillGroupBy(e, seeds, order)
  }

  ghost function CountEvent(f: Filter, seeds: Seeds, order: seq<string>, c: Choices, env: Env): Option<Event>
    requires IsOrderOf(order, seeds.Keys)
  {
    match PlainCountEvent(f, seeds, order, c)
    case None => None
    case Some(e) => Some(Enriched(e, env))
  }

  /** The hypotheses under which rules are served: see README. */
  ghost predicate Servable(rule: Rule, multiplier: real, generated: Seeds, fields: set<string>) {
    && (rule.op.Gt? || rule.op.Gte? || rule.op.Eq?) && rule.threshold >= 1.0 && multiplier >= 1.0
    && (rule.op.Eq? ==> rule.threshold.Floor as real == rule.threshold)
    && Supported(rule.filter) && Settled(rule.filter)
    && Schema(fields) && FieldsOf(rule.filter) + generated.Keys <= fields
    && generated.Keys == Members(rule.groupBy)
    && (forall g | g in generated :: generated[g].Scalar())
    && Unstamped(fields)
  }

  ghost predicate OfRule(rule: Rule, seeds: Seeds, e: Event) {
    Holds(e, rule.filter) && HoldsSeeds(e, seeds)
  }

  lemma {:induction false} TemplateMeets(f: Filter, generated: Seeds, tc: Choices)
    requires Supported(f) && Schema(FieldsOf(f) + generated.Keys) && forall g | g in generated :: generated[g].Scalar()
    ensures var t := CreateEvent(f, tc);
            && t.Some? && Met(t.value, f) && Molded(t.value, f, generated.Keys)
            && SeedsFrom(generated, t.value).Keys == generated.Keys
            && FromTemplate(SeedsFrom(generated, t.value), t.value)
            && forall g | g in generated :: SeedsFrom(generated, t.value)[g].Scalar()
  {
    var fields := FieldsOf(f) + generated.Keys;
    ApplySound(EMPTY, f, [], tc, fields);
    var t := CreateEvent(f, tc).value;
    forall g | g in generated ensures GetField(t, g).Comparable() {
      assert Tidy(EMPTY, t, FieldsOf(f), g);
    }
    SeedsFromFit(generated, t);
    NoEmptyName(fields);
    SubSchema(fields, FieldsOf(f));
    CreatedIsMolded(f, tc, generated.Keys);
  }

  lemma {:induction false} NoEmptyName(fields: set<string>)
    requires Schema(fields)
    ensures "" !in fields
  {
    assert !PlainField("");
  }

  lemma {:induction false} SubSchema(fields: set<string>, some: set<string>)
    requires Schema(fields) && some <= fields
    ensures Schema(some)
  {}

  lemma {:induction false} SeedsFromFit(generated: Seeds, t: Event)
    requires forall g | g in generated :: generated[g].Scalar() && GetField(t, g).Comparable()
    ensures var seeds := SeedsFrom(generated, t);
            && seeds.Keys == generated.Keys && FromTemplate(seeds, t)
            && forall g | g in generated :: seeds[g].Scalar()
  {}

  lemma {:induction false} FilledSeededEvent(f: Filter, template: Event, seeds: Seeds, order: seq<string>, c: Choices)
    requires Schema(FieldsOf(f) + seeds.Keys) && Supported(f) && SeedsDecide(f, seeds.Keys)
    requires Met(template, f) && Molded(template, f, seeds.Keys) && FromTemplate(seeds, template)
    requires IsOrderOf(order, seeds.Keys) && forall g | g in seeds :: seeds[g] != Nil
    ensures var r := PlainCountEvent(f, seeds, order, c);
            && r.Some? && Conforms(r.value, FieldsOf(f) + seeds.Keys)
            && Holds(r.value, f) && HoldsSeeds(r.value, seeds)
  {
    SeededEventsMatch(f, template, seeds, order, c);
    assert forall g | g in order :: g in Members(order);
    FillKeepsSeeded(CreateSeeded(f, seeds, order, c).value, seeds, order);
  }

  /** Every event of an event_count rule meets its filter and carries the shared group_by values. */
  lemma {:induction false} CountEventIsOfRule(rule: Rule, multiplier: real, generated: Seeds, tc: Choices,
                                              order: seq<string>, c: Choices, env: Env)
    requires Servable(rule, multiplier, generated, FieldsOf(rule.filter) + generated.Keys)
    requires SeedsDecide(rule.filter, generated.Keys)
    requires IsOrderOf(order, generated.Keys)
    ensures CreateEvent(rule.filter, tc).Some?
    ensures var seeds := SeedsFrom(generated, CreateEvent(rule.filter, tc).value);
            && seeds.Keys == generated.Keys && (forall g | g in seeds :: seeds[g].Scalar())
            && var r := CountEvent(rule.filter, seeds, order, c, env);
               r.Some? && OfRule(rule, seeds, r.value)
  {
    var f := rule.filter;
    TemplateMeets(f, generated, tc);
    var template := CreateEvent(f, tc).value;
    var seeds := SeedsFrom(generated, template);
    FilledSeededEvent(f, template, seeds, order, c);
    EnrichmentKeepsRule(rule, seeds, PlainCountEvent(f, seeds, order, c).value, env, FieldsOf(f) + seeds.Keys);
  }

  /** A group_by field that the filter leaves alone holds the override or generated value in every event. */
  lemma {:induction false} OverrideIsKept(rule: Rule, generated: Seeds, tc: Choices, e: Event, g: string)
    requires Supported(rule.filter) && Schema(FieldsOf(rule.filter) + generated.Keys)
    requires CreateEvent(rule.filter, tc).Some?
    requires HoldsSeeds(e, SeedsFrom(generated, CreateEvent(rule.filter, tc).value))
    requires g in generated && g !in FieldsOf(rule.filter)
    ensures GetField(e, g) == generated[g]
  {
    var fields := FieldsOf(rule.filter) + generated.Keys;
    ApplySound(EMPTY, rule.filter, [], tc, fields);
    assert Tidy(EMPTY, CreateEvent(rule.filter, tc).value, FieldsOf(rule.filter), g);
    assert SeedsFrom(generated, CreateEvent(rule.filter, tc).value)[g] == generated[g];
  }

  lemma {:induction false} EnrichmentKeepsRule(rule: Rule, seeds: Seeds, e: Event, env: Env, fields: set<string>)
    requires OfRule(rule, seeds, e) && Conforms(e, fields) && Unstamped(fields)
             && FieldsOf(rule.filter) + seeds.Keys <= fields
    requires forall g | g in seeds :: seeds[g] != Nil
    ensures OfRule(rule, seeds, Enriched(e, env))
  {
    EnrichmentKeeps(e, seeds, 0, env, fields);
    KeepingKeepsRule(rule, seeds, e, Enriched(e, env), fields);
  }

  /** Keeping the values of an event keeps what made it an event of the rule. */
  lemma {:induction false} KeepingKeepsRule(rule: Rule, seeds: Seeds, e: Event, e': Event, fields: set<string>)
    requires OfRule(rule, seeds, e) && Keeps(e, e', fields) && FieldsOf(rule.filter) + seeds.Keys <= fields
    requires forall g | g in seeds :: seeds[g] != Nil
    ensures OfRule(rule, seeds, e')
  {
    assert Keeps(e, e', FieldsOf(rule.filter));
    HoldsIsMonotone(e, e', rule.filter);
  }

  lemma {:induction false} AllOfRuleAreConsistent(rule: Rule, seeds: Seeds, events: seq<Event>)
    requires events != [] && Members(rule.groupBy) <= seeds.Keys && Settled(rule.filter)
    requires forall g | g in seeds :: seeds[g].Scalar()
    requires forall i | 0 <= i < |events| :: OfRule(rule, seeds, events[i])
    ensures forall i | 0 <= i < |events| :: Passes(events[i], rule.filter)
    ensures GroupVerdict(events, rule.groupBy) == Some(true)
  {
    forall i | 0 <= i < |events| ensures Passes(events[i], rule.filter) {
      HoldsPasses(events[i], rule.filter);
    }
    assert forall k | 0 <= k < |rule.groupBy| :: rule.groupBy[k] in Members(rule.groupBy);
  }

  /** End to end: the events generated for an event_count rule pass the rule validator. */
  lemma {:induction false} EventCountRuleIsAccepted(rule: Rule, multiplier: real, generated: Seeds, seeds: Seeds,
                                                    events: seq<Event>)
    requires rule.kind.EventCountRule? && seeds.Keys == generated.Keys && forall g | g in seeds :: seeds[g].Scalar()
    requires Servable(rule, multiplier, generated, FieldsOf(rule.filter) + generated.Keys)
    requires |events| == EventCount(rule.threshold, rule.op, multiplier)
    requires forall i | 0 <= i < |events| :: OfRule(rule, seeds, events[i])
    ensures Validate(rule, events) == Some(Accepted)
    ensures forall i | 0 <= i < |events| :: Passes(events[i], rule.filter)
  {
    CountSuffices(rule.threshold, rule.op, multiplier);
    AllOfRuleAreConsistent(rule, seeds, events);
    GoodBatchIsAccepted(rule, events);
  }

  lemma {:induction false} GoodBatchIsAccepted(rule: Rule, events: seq<Event>)
    requires events != [] && forall i | 0 <= i < |events| :: Passes(events[i], rule.filter)
    requires EnoughVerdict(rule, events) == Some(true) && GroupVerdict(events, rule.groupBy) == Some(true)
    ensures Validate(rule, events) == Some(Accepted)
  {
    assert Passes(events[0], rule.filter);
  }

  // ---- Events of a value_count rule ----

  ghost function FilledEvent(f: Filter, seeds: Seeds, order: seq<string>, c: Choices): Option<Event>
    requires IsOrderOf(order, seeds.Keys)
  {
    assert forall g | g in order :: g in Members(order);
    match CreateEvent(f, c)
    case None => None
    case Some(e) => FillGroupBy(e, seeds, order)
  }

  /** An event before its enrichment; None is a panic. */
  ghost function PlainValueEvent(f: Filter, seeds: Seeds, order: seq<string>, field: string, index: nat, c: Choices)
    : Option<Event>
    requires IsOrderOf(order, seeds.Keys)
  {
    match FilledEvent(f, seeds, order, c)
    case None => None
    case Some(e) => SetField(e, field, UniqueValue(field, index))
  }

  ghost function FullyEnriched(e: Event, seeds: Seeds, index: nat, env: Env): (Event, Seeds) {
    var (e', seeds') := NetworkEnriched(e, seeds, index, env);
    (Enriched(e', env), seeds')
  }

  /** One event and the group_by values as they are handed to the next one. */
  ghost function ValueEvent(f: Filter, seeds: Seeds, order: seq<string>, field: string, index: nat, c: Choices,
                            env: Env)
    : Option<(Event, Seeds)>
    requires IsOrderOf(order, seeds.Keys)
  {
    match PlainValueEvent(f, seeds, order, field, index, c)
    case None => None
    case Some(e) => Some(FullyEnriched(e, seeds, index, env))
  }

  function EndpointIps(): set<string> { {EndpointIp(Endpoints()[0]), EndpointIp(Endpoints()[1])} }

  /** The group_by values of the rule, and perhaps an endpoint address the first event added. */
  ghost predicate SeedsOf(seeds: Seeds, generated: Seeds) {
    && generated.Keys <= seeds.Keys <= generated.Keys + EndpointIps()
    && forall g | g in generated :: seeds[g] == generated[g]
  }

  /** The count field is used by nothing else, and where the filter writes a group_by field it is pinned. */
  ghost predicate Separate(rule: Rule, generated: Seeds) {
    && rule.kind.ValueCountRule?
    && rule.kind.countField !in FieldsOf(rule.filter) + generated.Keys
    && forall g | g in generated :: Pinned(rule.filter, g)
  }

  /** What all events hold at the group_by fields: what the filter leaves there, or the generated value. */
  ghost function Shared(f: Filter, generated: Seeds): Seeds {
    map g | g in generated :: SharedValue(f, g, generated[g])
  }

  ghost function SharedValue(f: Filter, g: string, v: Value): Value {
    var left := Outcome(f, g, [], Constant(0, ""));
    if left.Some? then left.value else v
  }

  lemma {:induction false} SharedIsScalar(f: Filter, generated: Seeds)
    requires Supported(f) && "" !in generated && forall g | g in generated :: generated[g].Scalar()
    ensures Shared(f, generated).Keys == generated.Keys
    ensures forall g | g in generated :: Shared(f, generated)[g].Scalar()
  {
    forall g | g in generated ensures SharedValue(f, g, generated[g]).Scalar() {
      if Outcome(f, g, [], Constant(0, "")).Some? { OutcomeIsScalar(f, g, [], Constant(0, "")); }
    }
  }

  ghost function ValueFields(rule: Rule, generated: Seeds): set<string>
    requires rule.kind.ValueCountRule?
  {
    FieldsOf(rule.filter) + generated.Keys + {rule.kind.countField} + EndpointIps()
  }

  ghost predicate OfRuleWith(rule: Rule, shared: Seeds, v: Value, e: Event)
    requires rule.kind.ValueCountRule?
  {
    OfRule(rule, shared, e) && GetField(e, rule.kind.countField) == v
  }

  ghost predicate OfValueRule(rule: Rule, generated: Seeds, index: nat, e: Event)
    requires rule.kind.ValueCountRule?
  {
    OfRuleWith(rule, Shared(rule.filter, generated), UniqueValue(rule.kind.countField, index), e)
  }

  lemma {:induction false} EndpointIpParts(endpoint: string)
    requires '.' !in endpoint
    ensures GetParts(EndpointIp(endpoint)) == [endpoint, "ip"]
  {
    var parts := [endpoint, "ip"];
    assert TrimDot(EndpointIp(endpoint)) == endpoint + ['.'] + "ip";
    assert parts[1..] == ["ip"] && Join(["ip"], '.') == "ip";
    assert Join(parts, '.') == endpoint + ['.'] + "ip";
    SplitJoin(parts, '.');
  }

  lemma {:induction false} SeedsAfterStay(e: Event, seeds: Seeds, generated: Seeds, endpoint: string, index: nat,
                                          env: Env)
    requires SeedsOf(seeds, generated) && '.' !in endpoint && EndpointIp(endpoint) in EndpointIps()
    requires EndpointIp(endpoint) in generated ==> Has(e, EndpointIp(endpoint))
    ensures SeedsOf(SeedsAfter(e, seeds, endpoint, index, env), generated)
  {
    EndpointIpParts(endpoint);
  }

  /** The first event never replaces a group_by value, since it holds that value already. */
  lemma {:induction false} NetworkSeedsStay(e: Event, seeds: Seeds, generated: Seeds, index: nat, env: Env)
    requires SeedsOf(seeds, generated) && forall g | g in generated :: Has(e, g)
    ensures SeedsOf(NetworkEnriched(e, seeds, index, env).1, generated)
  {
    var seeds1 := SeedsAfter(e, seeds, Endpoints()[0], index, env);
    var e1 := WithEndpoint(e, seeds1, Endpoints()[0], env);
    SeedsAfterStay(e, seeds, generated, Endpoints()[0], index, env);
    EndpointGrows(e, seeds1, Endpoints()[0], env);
    GrownKeeps(e, e1, {}, generated.Keys);
    SeedsAfterStay(e1, seeds1, generated, Endpoints()[1], index, env);
  }

  lemma {:induction false} FilledValueEvent(rule: Rule, generated: Seeds, seeds: Seeds, order: seq<string>, c: Choices)
    requires Separate(rule, generated) && Supported(rule.filter) && Schema(ValueFields(rule, generated))
    requires SeedsOf(seeds, generated) && IsOrderOf(order, seeds.Keys)
    ensures var filled := FilledEvent(rule.filter, seeds, order, c);
            && filled.Some? && Conforms(filled.value, ValueFields(rule, generated))
            && OfRule(rule, Shared(rule.filter, generated), filled.value)
  {
    forall g | g in order ensures g in seeds { assert g in Members(order); }
    var f, fields := rule.filter, ValueFields(rule, generated);
    ApplySound(EMPTY, f, [], c, fields);
    var e1 := CreateEvent(f, c).value;
    FillHolds(e1, seeds, order, fields);
    var e2 := FillGroupBy(e1, seeds, order).value;
    assert Keeps(e1, e2, FieldsOf(f));
    HoldsIsMonotone(e1, e2, f);
    FilledShares(f, generated, seeds, order, c, fields);
  }

  lemma {:induction false} FilledShares(f: Filter, generated: Seeds, seeds: Seeds, order: seq<string>, c: Choices,
                                        fields: set<string>)
    requires Schema(fields) && FieldsOf(f) + seeds.Keys <= fields && Supported(f)
    requires SeedsOf(seeds, generated) && IsOrderOf(order, seeds.Keys)
    requires forall g | g in generated :: Pinned(f, g)
    ensures var filled := FilledEvent(f, seeds, order, c);
            filled.Some? ==> HoldsSeeds(filled.value, Shared(f, generated))
  {
    forall g | g in order ensures g in seeds { assert g in Members(order); }
    ApplySound(EMPTY, f, [], c, fields);
    FillHolds(CreateEvent(f, c).value, seeds, order, fields);
    NoEmptyName(fields);
    forall g | g in generated ensures g in order && SharedValue(f, g, generated[g]) ==
      GetField(FilledEvent(f, seeds, order, c).value, g)
    {
      assert g in Members(order);
      CreatedSharedValue(f, g, c, fields);
    }
  }

  /** A created event holds the shared value at a pinned field, or nothing where the filter does not write. */
  lemma {:induction false} CreatedSharedValue(f: Filter, g: string, c: Choices, fields: set<string>)
    requires Schema(fields) && FieldsOf(f) <= fields && g in fields && Supported(f) && Pinned(f, g) && g != ""
    ensures CreateEvent(f, c).Some?
    ensures var e := CreateEvent(f, c).value;
            forall v :: SharedValue(f, g, v) == if Has(e, g) then GetField(e, g) else v
  {
    ApplyLeaves(EMPTY, f, [], c, fields, g);
    PinnedIsFixed(f, g, [], c, [], Constant(0, ""));
    if Outcome(f, g, [], c).Some? { OutcomeIsScalar(f, g, [], c); }
  }

  lemma {:induction false} ValueEventBeforeEnrichment(rule: Rule, generated: Seeds, seeds: Seeds, order: seq<string>,
                                                      index: nat, c: Choices)
    requires Separate(rule, generated) && Supported(rule.filter) && Schema(ValueFields(rule, generated))
    requires SeedsOf(seeds, generated) && IsOrderOf(order, seeds.Keys)
    ensures var e := PlainValueEvent(rule.filter, seeds, order, rule.kind.countField, index, c);
            e.Some? && Conforms(e.value, ValueFields(rule, generated)) && OfValueRule(rule, generated, index, e.value)
  {
    FilledValueEvent(rule, generated, seeds, order, c);
    var e := FilledEvent(rule.filter, seeds, order, c).value;
    CountValueIsWritten(rule, Shared(rule.filter, generated), e, UniqueValue(rule.kind.countField, index),
                        ValueFields(rule, generated));
  }

  lemma {:induction false} CountValueIsWritten(rule: Rule, shared: Seeds, e: Event, v: Value, fields: set<string>)
    requires rule.kind.ValueCountRule? && rule.kind.countField !in FieldsOf(rule.filter) + shared.Keys
    requires Schema(fields) && Conforms(e, fields) && OfRule(rule, shared, e)
    requires FieldsOf(rule.filter) + shared.Keys + {rule.kind.countField} <= fields
    ensures var r := SetField(e, rule.kind.countField, v);
            r.Some? && Conforms(r.value, fields) && OfRuleWith(rule, shared, v, r.value)
  {
    SetConforms(e, fields, rule.kind.countField, v);
    HoldsIsMonotone(e, SetField(e, rule.kind.countField, v).value, rule.filter);
  }

  /** Every event of a value_count rule meets its filter, shares the group_by values and has its own count value. */
  lemma {:induction false} ValueEventIsOfRule(rule: Rule, multiplier: real, generated: Seeds, seeds: Seeds,
                                              order: seq<string>,
                                              index: nat, c: Choices, env: Env)
    requires Separate(rule, generated) && Servable(rule, multiplier, generated, ValueFields(rule, generated))
    requires SeedsOf(seeds, generated) && IsOrderOf(order, seeds.Keys)
    ensures var r := ValueEvent(rule.filter, seeds, order, rule.kind.countField, index, c, env);
            && r.Some? && OfValueRule(rule, generated, index, r.value.0) && SeedsOf(r.value.1, generated)
  {
    ValueEventBeforeEnrichment(rule, generated, seeds, order, index, c);
    var e := PlainValueEvent(rule.filter, seeds, order, rule.kind.countField, index, c).value;
    NoEmptyName(ValueFields(rule, generated));
    SharedIsScalar(rule.filter, generated);
    EnrichedValueEvent(rule, generated, Shared(rule.filter, generated), seeds, index,
                       UniqueValue(rule.kind.countField, index), e, env);
  }

  lemma {:induction false} EnrichedValueEvent(rule: Rule, generated: Seeds, shared: Seeds, seeds: Seeds, index: nat,
                                              v: Value, e: Event, env: Env)
    requires rule.kind.ValueCountRule? && OfRuleWith(rule, shared, v, e) && v != Nil && SeedsOf(seeds, generated)
    requires shared.Keys == generated.Keys && forall g | g in shared :: shared[g] != Nil
    requires Conforms(e, ValueFields(rule, shared)) && Unstamped(ValueFields(rule, shared))
    ensures var r := FullyEnriched(e, seeds, index, env);
            OfRuleWith(rule, shared, v, r.0) && SeedsOf(r.1, generated)
  {
    var fields, e' := ValueFields(rule, shared), FullyEnriched(e, seeds, index, env).0;
    NetworkSeedsStay(e, seeds, generated, index, env);
    EnrichmentKeeps(e, seeds, index, env, fields);
    KeepingKeepsRule(rule, shared, e, e', fields);
    assert rule.kind.countField in fields;
  }

  ghost predicate HoldsOwnValue(events: seq<Event>, field: string, i: nat)
    requires i < |events|
  {
    Has(events[i], field) && forall j | 0 <= j < i :: GetField(events[j], field) != GetField(events[i], field)
  }

  lemma {:induction false} InitHoldsOwn(events: seq<Event>, init: seq<Event>, field: string)
    requires init <= events && forall i | 0 <= i < |events| :: HoldsOwnValue(events, field, i)
    ensures forall i | 0 <= i < |init| :: HoldsOwnValue(init, field, i)
  {
    forall i | 0 <= i < |init| ensures HoldsOwnValue(init, field, i) {
      assert HoldsOwnValue(events, field, i);
    }
  }

  /** Events that all hold the field, no two with the same value, have as many distinct values as there are events. */
  lemma {:induction false} AllDistinct(events: seq<Event>, field: string)
    requires forall i | 0 <= i < |events| :: HoldsOwnValue(events, field, i)
    ensures |DistinctValues(events, field)| == |events|
  {
    if events != [] {
      var init, last := events[..|events| - 1], events[|events| - 1];
      InitHoldsOwn(events, init, field);
      AllDistinct(init, field);
      assert init + [last] == events && HoldsOwnValue(events, field, |init|);
      OneMoreDistinct(init, last, field);
    }
  }

  lemma {:induction false} OneMoreDistinct(events: seq<Event>, e: Event, field: string)
    requires HoldsOwnValue(events + [e], field, |events|)
    ensures DistinctValues(events + [e], field) == DistinctValues(events, field) + {GetField(e, field)}
    ensures GetField(e, field) !in DistinctValues(events, field)
  {
    var all := events + [e];
    assert all[|events|] == e && forall j | 0 <= j < |events| :: all[j] == events[j];
    forall v | v in DistinctValues(events, field) ensures v in DistinctValues(all, field) {
      var i :| 0 <= i < |events| && Has(events[i], field) && GetField(events[i], field) == v;
      assert all[i] == events[i];
    }
  }

  lemma {:induction false} ValueEventsAreDistinct(rule: Rule, generated: Seeds, events: seq<Event>)
    requires rule.kind.ValueCountRule?
    requires forall i | 0 <= i < |events| :: OfValueRule(rule, generated, i, events[i])
    ensures CountVerdict(events, rule.kind.countField) == Some(|events|)
  {
    var field := rule.kind.countField;
    forall i, j | 0 <= i < j < |events| ensures GetField(events[i], field) != GetField(events[j], field) {
      assert OfValueRule(rule, generated, i, events[i]) && OfValueRule(rule, generated, j, events[j]);
      if UniqueValue(field, i) == UniqueValue(field, j) { UniqueValueInjective(field, i, j); }
    }
    assert forall i | 0 <= i < |events| ::
      OfValueRule(rule, generated, i, events[i]) && HoldsOwnValue(events, field, i);
    AllDistinct(events, field);
  }

  /** End to end: the events generated for a value_count rule pass the rule validator. */
  lemma {:induction false} ValueCountRuleIsAccepted(rule: Rule, multiplier: real, generated: Seeds, events: seq<Event>)
    requires Separate(rule, generated) && Servable(rule, multiplier, generated, ValueFields(rule, generated))
    requires |events| == EventCount(rule.threshold, rule.op, multiplier)
    requires forall i | 0 <= i < |events| :: OfValueRule(rule, generated, i, events[i])
    ensures Validate(rule, events) == Some(Accepted)
    ensures forall i | 0 <= i < |events| :: Passes(events[i], rule.filter)
    ensures CountVerdict(events, rule.kind.countField) == Some(|events|)
  {
    CountSuffices(rule.threshold, rule.op, multiplier);
    NoEmptyName(ValueFields(rule, generated));
    SharedIsScalar(rule.filter, generated);
    AllOfRuleAreConsistent(rule, Shared(rule.filter, generated), events);
    ValueEventsAreDistinct(rule, generated, events);
    GoodBatchIsAccepted(rule, events);
  }
}
