/** The rule generator and the rule validator as they run, event by event. */
module RuleGenerator {
  import opened Wrappers
  import opened Events
  import opened EventMaps
  import opened Filters
  import opened ValueGen
  import opened Generation
  import opened Outcomes
  import opened Seeding
  import opened Synthesizer
  import opened Enrichment
  import opened Enricher
  import opened OcsfFields
  import opened Rules

  /** Some order in which `range` visits the keys of a map. */
  method IterationOrder(keys: set<string>) returns (order: seq<string>)
    ensures IsOrderOf(order, keys)
  {
    order := [];
    var rest := keys;
    while rest != {}
      invariant IsOrderOf(order, keys - rest) && rest <= keys
      decreases rest
    {
      var g :| g in rest;
      assert g !in Members(order);
      forall i | 0 <= i < |order| ensures order[i] != g { assert order[i] in Members(order); }
      assert Members(order + [g]) == Members(order) + {g};
      order, rest := order + [g], rest - {g};
    }
  }

  /** generateGroupByValues: an override by name without the dot, or a generated value; an empty name panics. */
  method GenerateGroupByValues(fields: seq<string>, params: map<string, Value>, gen: string -> Value)
    returns (ok: bool, values: Seeds)
    ensures ok <==> "" !in fields
    ensures ok ==> values.Keys == Members(fields)
    ensures ok ==> forall g | g in values :: g != "" && values[g] == if g[1..] in params then params[g[1..]] else gen(g)
  {
    values := map[];
    for i := 0 to |fields|
      invariant "" !in fields[..i] && values.Keys == Members(fields[..i])
      invariant forall g | g in values :: g != "" && values[g] == if g[1..] in params then params[g[1..]] else gen(g)
    {
      var field := fields[i];
      assert fields[..i + 1] == fields[..i] + [field];
      if field == "" {
        return false, map[];
      }
      values := values[field := if field[1..] in params then params[field[1..]] else gen(field)];
    }
    assert fields[..|fields|] == fields;
    ok := true;
  }

  /** The group_by values once the first `n` fields have been looked up in the template. */
  ghost function TakenUpTo(generated: Seeds, template: Event, fields: seq<string>, n: nat): Seeds
    requires n <= |fields| && Members(fields) <= generated.Keys
  {
    if n == 0 then generated
    else
      var before := TakenUpTo(generated, template, fields, n - 1);
      if Has(template, fields[n - 1]) then before[fields[n - 1] := GetField(template, fields[n - 1])] else before
  }

  lemma {:induction false} TakenUpToHolds(generated: Seeds, template: Event, fields: seq<string>, n: nat)
    requires n <= |fields| && Members(fields) <= generated.Keys
    ensures var seeds := TakenUpTo(generated, template, fields, n);
            && seeds.Keys == generated.Keys
            && forall g | g in generated ::
                 seeds[g] == if g in fields[..n] && Has(template, g) then GetField(template, g) else generated[g]
  {
    if n > 0 {
      TakenUpToHolds(generated, template, fields, n - 1);
      assert fields[..n] == fields[..n - 1] + [fields[n - 1]];
      assert fields[n - 1] in Members(fields);
    }
  }

  lemma {:induction false} TakenIsSeedsFrom(generated: Seeds, template: Event, fields: seq<string>)
    requires Members(fields) == generated.Keys
    ensures TakenUpTo(generated, template, fields, |fields|) == SeedsFrom(generated, template)
  {
    TakenUpToHolds(generated, template, fields, |fields|);
    assert fields[..|fields|] == fields;
    forall g | g in generated ensures g in fields { assert g in Members(fields); }
  }

  /** The values of the template event take over the generated ones. */
  method TakeFromTemplate(generated: Seeds, template: EventMap, fields: seq<string>) returns (seeds: Seeds)
    requires template.Valid() && generated.Keys == Members(fields)
    ensures seeds == SeedsFrom(generated, template.cells)
  {
    seeds := generated;
    for i := 0 to |fields|
      invariant seeds == TakenUpTo(generated, template.cells, fields, i)
    {
      var v := template.GetFieldValue(fields[i]);
      if v != Nil {
        seeds := seeds[fields[i] := v];
      }
    }
    TakenIsSeedsFrom(generated, template.cells, fields);
  }

  /** `views[i]` is what the maps of `events[i]` spell out. */
  ghost predicate Shows(events: seq<EventMap>, views: seq<Event>)
    reads set i | 0 <= i < |events| :: events[i]
    reads set i, n | 0 <= i < |events| && n in events[i].nodes.Values :: n
  {
    |events| == |views| && forall i | 0 <= i < |events| :: events[i].Valid() && events[i].cells == views[i]
  }

  lemma {:induction false} ShowsMore(events: seq<EventMap>, views: seq<Event>, ev: EventMap)
    requires Shows(events, views) && ev.Valid()
    ensures Shows(events + [ev], views + [ev.cells])
  {}

  // ---- event_count ----

  method MakePlainCountEvent(f: Filter, seeds: Seeds, c: Choices)
    returns (ok: bool, ev: EventMap, ghost order: seq<string>)
    ensures fresh(ev) && (ok ==> fresh(ev.nodes.Values)) && IsOrderOf(order, seeds.Keys)
    ensures Yields(ok, ev, PlainCountEvent(f, seeds, order, c))
  {
    var visit := IterationOrder(seeds.Keys);
    order := visit;
    assert forall g | g in order :: g in Members(order);
    ok, ev := CreateEventMatchingFilterWithSeed(f, seeds, visit, c);
    if ok {
      ok := ApplyGroupByValues(ev, seeds, visit);
    }
  }

  /** One event of an event_count rule. */
  method MakeCountEvent(f: Filter, seeds: Seeds, c: Choices, env: Env) returns (ok: bool, ev: EventMap)
    ensures fresh(ev) && (ok ==> fresh(ev.nodes.Values) && ev.Valid())
    ensures Makes(f, seeds, c, env, if ok then Some(ev.cells) else None)
  {
    ghost var order;
    ok, ev, order := MakePlainCountEvent(f, seeds, c);
    if ok {
      EnrichEvent(ev, env);
    }
    assert CountEvent(f, seeds, order, c, env) == if ok then Some(ev.cells) else None;
  }

  /** `r` is what the draws make of the rule's filter for some iteration order over the group_by values. */
  ghost predicate Makes(f: Filter, seeds: Seeds, c: Choices, env: Env, r: Option<Event>) {
    exists order :: IsOrderOf(order, seeds.Keys) && CountEvent(f, seeds, order, c, env) == r
  }

  /** The loop of generateForEventCount. */
  method MakeCountEvents(f: Filter, seeds: Seeds, n: nat, draws: nat -> Choices, envs: nat -> Env)
    returns (ok: bool, events: seq<EventMap>, ghost views: seq<Event>)
    ensures ok ==> |events| == n && Shows(events, views)
    ensures ok ==> forall i | 0 <= i < n :: Makes(f, seeds, draws(i), envs(i), Some(views[i]))
    ensures !ok ==> exists i: nat :: Makes(f, seeds, draws(i), envs(i), None)
  {
    events, views := [], [];
    for i := 0 to n
      invariant |events| == i && Shows(events, views)
      invariant forall j | 0 <= j < i :: Makes(f, seeds, draws(j), envs(j), Some(views[j]))
    {
      var made, ev := MakeCountEvent(f, seeds, draws(i), envs(i));
      if !made {
        return false, [], [];
      }
      ShowsMore(events, views, ev);
      events, views := events + [ev], views + [ev.cells];
    }
    ok := true;
  }

  ghost predicate EventCountServable(rule: Rule, multiplier: real, generated: Seeds) {
    && rule.kind.EventCountRule?
    && Servable(rule, multiplier, generated, FieldsOf(rule.filter) + generated.Keys)
    && SeedsDecide(rule.filter, generated.Keys)
  }

  lemma {:induction false} MadeIsOfRule(rule: Rule, multiplier: real, generated: Seeds, tc: Choices, c: Choices,
                                        env: Env, r: Option<Event>)
    requires EventCountServable(rule, multiplier, generated) && CreateEvent(rule.filter, tc).Some?
    requires Makes(rule.filter, SeedsFrom(generated, CreateEvent(rule.filter, tc).value), c, env, r)
    ensures r.Some? && OfRule(rule, SeedsFrom(generated, CreateEvent(rule.filter, tc).value), r.value)
  {
    var seeds := SeedsFrom(generated, CreateEvent(rule.filter, tc).value);
    assert seeds.Keys == generated.Keys;
    var order :| IsOrderOf(order, seeds.Keys) && CountEvent(rule.filter, seeds, order, c, env) == r;
    CountEventIsOfRule(rule, multiplier, generated, tc, order, c, env);
  }

  lemma {:induction false} MadeIsComplete(f: Filter, seeds: Seeds, c: Choices, env: Env, e: Event)
    requires Makes(f, seeds, c, env, Some(e))
    ensures Complete(e)
  {
    var order :| IsOrderOf(order, seeds.Keys) && CountEvent(f, seeds, order, c, env) == Some(e);
    EnrichedIsComplete(PlainCountEvent(f, seeds, order, c).value, env);
  }

  /** generateForEventCount, from the point where the rule's parameters are at hand. */
  method GenerateForEventCount(rule: Rule, multiplier: real, generated: Seeds, tc: Choices,
                               draws: nat -> Choices, envs: nat -> Env)
    returns (ok: bool, events: seq<EventMap>, ghost views: seq<Event>)
    requires generated.Keys == Members(rule.groupBy)
    ensures ok ==> Shows(events, views) && |events| == EventCount(rule.threshold, rule.op, multiplier)
    ensures ok ==> CreateEvent(rule.filter, tc).Some?
    ensures ok ==> forall i | 0 <= i < |views| ::
      Makes(rule.filter, SeedsFrom(generated, CreateEvent(rule.filter, tc).value), draws(i), envs(i), Some(views[i]))
    ensures ok ==> forall i | 0 <= i < |views| :: Complete(views[i])
    ensures EventCountServable(rule, multiplier, generated) ==> ok && forall i, g |
              0 <= i < |views| && g in generated && g !in FieldsOf(rule.filter) :: GetField(views[i], g) == generated[g]
  {
    events, views := [], [];
    var eventCount := EventCount(rule.threshold, rule.op, multiplier);
    if EventCountServable(rule, multiplier, generated) {
      CountSuffices(rule.threshold, rule.op, multiplier);
      TemplateMeets(rule.filter, generated, tc);
    }
    if eventCount < 0 {
      return false, [], [];
    }
    var template;
    ok, template := CreateEventMatchingFilter(rule.filter, tc);
    if !ok {
      return;
    }
    var seeds := TakeFromTemplate(generated, template, rule.groupBy);
    ok, events, views := MakeCountEvents(rule.filter, seeds, eventCount, draws, envs);
    if ok {
      forall i | 0 <= i < |views| ensures Complete(views[i]) {
        MadeIsComplete(rule.filter, seeds, draws(i), envs(i), views[i]);
      }
    }
    if !ok && EventCountServable(rule, multiplier, generated) {
      var i: nat :| Makes(rule.filter, seeds, draws(i), envs(i), None);
      MadeIsOfRule(rule, multiplier, generated, tc, draws(i), envs(i), None);
      assert false;
    }
    if EventCountServable(rule, multiplier, generated) {
      MadeKeepOverrides(rule, multiplier, generated, tc, views, draws, envs);
    }
  }

  /** Where the filter does not write, every event holds the override or generated value of the group_by field. */
  lemma {:induction false} MadeKeepOverrides(rule: Rule, multiplier: real, generated: Seeds, tc: Choices,
                                             views: seq<Event>, draws: nat -> Choices, envs: nat -> Env)
    requires EventCountServable(rule, multiplier, generated) && CreateEvent(rule.filter, tc).Some?
    requires forall i | 0 <= i < |views| ::
      Makes(rule.filter, SeedsFrom(generated, CreateEvent(rule.filter, tc).value), draws(i), envs(i), Some(views[i]))
    ensures forall i, g | 0 <= i < |views| && g in generated && g !in FieldsOf(rule.filter) ::
              GetField(views[i], g) == generated[g]
  {
    forall i, g | 0 <= i < |views| && g in generated && g !in FieldsOf(rule.filter)
      ensures GetField(views[i], g) == generated[g]
    {
      MadeIsOfRule(rule, multiplier, generated, tc, draws(i), envs(i), Some(views[i]));
      OverrideIsKept(rule, generated, tc, views[i], g);
    }
  }

  // ---- value_count ----

  /** One event of a value_count rule; `seeds'` is what enrichNetworkEvent makes of the group_by values. */
  method MakeValueEvent(f: Filter, seeds: Seeds, field: string, index: nat, c: Choices, env: Env)
    returns (ok: bool, ev: EventMap, seeds': Seeds)
    ensures fresh(ev) && (ok ==> fresh(ev.nodes.Values) && ev.Valid())
    ensures MakesValue(f, seeds, field, index, c, env, if ok then Some((ev.cells, seeds')) else None)
  {
    seeds' := seeds;
    ghost var order;
    ok, ev, order := MakePlainValueEvent(f, seeds, field, index, c);
    if ok {
      seeds' := EnrichNetworkEvent(ev, seeds, index, env);
      EnrichEvent(ev, env);
    }
    assert ValueEvent(f, seeds, order, field, index, c, env) == if ok then Some((ev.cells, seeds')) else None;
  }

  method MakePlainValueEvent(f: Filter, seeds: Seeds, field: string, index: nat, c: Choices)
    returns (ok: bool, ev: EventMap, ghost order: seq<string>)
    ensures fresh(ev) && (ok ==> fresh(ev.nodes.Values)) && IsOrderOf(order, seeds.Keys)
    ensures Yields(ok, ev, PlainValueEvent(f, seeds, order, field, index, c))
  {
    ok, ev, order := MakeFilledEvent(f, seeds, c);
    if ok {
      ok := ev.SetFieldValue(field, UniqueValue(field, index));
    }
  }

  method MakeFilledEvent(f: Filter, seeds: Seeds, c: Choices) returns (ok: bool, ev: EventMap, ghost order: seq<string>)
    ensures fresh(ev) && (ok ==> fresh(ev.nodes.Values)) && IsOrderOf(order, seeds.Keys)
    ensures Yields(ok, ev, FilledEvent(f, seeds, order, c))
  {
    var visit := IterationOrder(seeds.Keys);
    order := visit;
    assert forall g | g in order :: g in Members(order);
    ok, ev := CreateEventMatchingFilter(f, c);
    if ok {
      ok := ApplyGroupByValues(ev, seeds, visit);
    }
  }

  ghost predicate MakesValue(f: Filter, seeds: Seeds, field: string, index: nat, c: Choices, env: Env,
                              r: Option<(Event, Seeds)>) {
    exists order :: IsOrderOf(order, seeds.Keys) && ValueEvent(f, seeds, order, field, index, c, env) == r
  }

  /** `chain[i]` are the group_by values event `i` was made with. */
  ghost predicate SeedChain(f: Filter, field: string, generated: Seeds, chain: seq<Seeds>, views: seq<Event>,
                            draws: nat -> Choices, envs: nat -> Env) {
    && |chain| == |views| + 1 && chain[0] == generated
    && forall i | 0 <= i < |views| :: Link(f, field, chain[i], i, views[i], chain[i + 1], draws, envs)
  }

  ghost predicate Link(f: Filter, field: string, seeds: Seeds, i: nat, e: Event, seeds': Seeds,
                       draws: nat -> Choices, envs: nat -> Env) {
    MakesValue(f, seeds, field, i, draws(i), envs(i), Some((e, seeds')))
  }

  lemma {:induction false} LongerChain(f: Filter, field: string, generated: Seeds, chain: seq<Seeds>, views: seq<Event>,
                                       draws: nat -> Choices, envs: nat -> Env, e: Event, seeds: Seeds)
    requires SeedChain(f, field, generated, chain, views, draws, envs)
    requires Link(f, field, chain[|views|], |views|, e, seeds, draws, envs)
    ensures SeedChain(f, field, generated, chain + [seeds], views + [e], draws, envs)
  {
    MoreLinks((s, i, e, s') => Link(f, field, s, i, e, s', draws, envs), chain, views, seeds, e);
  }

  lemma {:induction false} MoreLinks<S, E>(link: (S, nat, E, S) -> bool, chain: seq<S>, views: seq<E>, s: S, e: E)
    requires |chain| == |views| + 1 && link(chain[|views|], |views|, e, s)
    requires forall i | 0 <= i < |views| :: link(chain[i], i, views[i], chain[i + 1])
    ensures forall i | 0 <= i <= |views| :: link((chain + [s])[i], i, (views + [e])[i], (chain + [s])[i + 1])
  {
    forall i | 0 <= i <= |views| ensures link((chain + [s])[i], i, (views + [e])[i], (chain + [s])[i + 1]) {
      if i < |views| {
        assert link(chain[i], i, views[i], chain[i + 1]);
      }
    }
  }

  /** The loop of generateForValueCount. */
  method MakeValueEvents(f: Filter, generated: Seeds, field: string, n: nat, draws: nat -> Choices, envs: nat -> Env)
    returns (ok: bool, events: seq<EventMap>, ghost views: seq<Event>, ghost chain: seq<Seeds>)
    ensures SeedChain(f, field, generated, chain, views, draws, envs)
    ensures ok ==> |events| == n && Shows(events, views)
    ensures !ok ==> MakesValue(f, chain[|views|], field, |views|, draws(|views|), envs(|views|), None)
  {
    var seeds := generated;
    events, views, chain := [], [], [generated];
    for i := 0 to n
      invariant |events| == i && Shows(events, views)
      invariant SeedChain(f, field, generated, chain, views, draws, envs) && seeds == chain[i]
    {
      var made, ev, seeds' := MakeValueEvent(f, seeds, field, i, draws(i), envs(i));
      if !made {
        return false, [], views, chain;
      }
      assert Link(f, field, seeds, i, ev.cells, seeds', draws, envs);
      LongerChain(f, field, generated, chain, views, draws, envs, ev.cells, seeds');
      ShowsMore(events, views, ev);
      events, views, chain, seeds := events + [ev], views + [ev.cells], chain + [seeds'], seeds';
    }
    ok := true;
  }

  ghost predicate ValueCountServable(rule: Rule, multiplier: real, generated: Seeds) {
    Separate(rule, generated) && Servable(rule, multiplier, generated, ValueFields(rule, generated))
  }

  lemma {:induction false} MadeValueIsOfRule(rule: Rule, multiplier: real, generated: Seeds, seeds: Seeds, index: nat,
                                             c: Choices, env: Env,
                                             r: Option<(Event, Seeds)>)
    requires ValueCountServable(rule, multiplier, generated) && SeedsOf(seeds, generated)
    requires MakesValue(rule.filter, seeds, rule.kind.countField, index, c, env, r)
    ensures r.Some? && OfValueRule(rule, generated, index, r.value.0) && SeedsOf(r.value.1, generated)
  {
    var order :| IsOrderOf(order, seeds.Keys)
                 && ValueEvent(rule.filter, seeds, order, rule.kind.countField, index, c, env) == r;
    ValueEventIsOfRule(rule, multiplier, generated, seeds, order, index, c, env);
  }

  lemma {:induction false} ChainStep(rule: Rule, multiplier: real, generated: Seeds, chain: seq<Seeds>,
                                     views: seq<Event>,
                                     draws: nat -> Choices, envs: nat -> Env, i: nat)
    requires ValueCountServable(rule, multiplier, generated)
    requires SeedChain(rule.filter, rule.kind.countField, generated, chain, views, draws, envs) && i < |views|
    requires SeedsOf(chain[i], generated)
    ensures OfValueRule(rule, generated, i, views[i]) && SeedsOf(chain[i + 1], generated)
  {
    assert Link(rule.filter, rule.kind.countField, chain[i], i, views[i], chain[i + 1], draws, envs);
    MadeValueIsOfRule(rule, multiplier, generated, chain[i], i, draws(i), envs(i), Some((views[i], chain[i + 1])));
  }

  lemma {:induction false} AlongChain<S>(chain: seq<S>, inv: S -> bool, n: nat)
    requires n < |chain| && inv(chain[0])
    requires forall i | 0 <= i < |chain| - 1 :: inv(chain[i]) ==> inv(chain[i + 1])
    ensures inv(chain[n])
  {
    if n > 0 { AlongChain(chain, inv, n - 1); }
  }

  lemma {:induction false} ChainIsOfRule(rule: Rule, multiplier: real, generated: Seeds, chain: seq<Seeds>,
                                         views: seq<Event>, draws: nat -> Choices, envs: nat -> Env, n: nat)
    requires ValueCountServable(rule, multiplier, generated)
    requires SeedChain(rule.filter, rule.kind.countField, generated, chain, views, draws, envs) && n <= |views|
    ensures SeedsOf(chain[n], generated) && forall i | 0 <= i < n :: OfValueRule(rule, generated, i, views[i])
  {
    forall i | 0 <= i < |views| && SeedsOf(chain[i], generated)
      ensures OfValueRule(rule, generated, i, views[i]) && SeedsOf(chain[i + 1], generated)
    {
      ChainStep(rule, multiplier, generated, chain, views, draws, envs, i);
    }
    forall i | 0 <= i <= n ensures SeedsOf(chain[i], generated) {
      AlongChain(chain, s => SeedsOf(s, generated), i);
    }
  }

  lemma {:induction false} LinkIsComplete(f: Filter, field: string, seeds: Seeds, i: nat, e: Event, seeds': Seeds,
                                          draws: nat -> Choices, envs: nat -> Env)
    requires Link(f, field, seeds, i, e, seeds', draws, envs)
    ensures Complete(e) && (IsNetwork(e) ==> EndpointsComplete(e))
  {
    var order :| IsOrderOf(order, seeds.Keys)
                 && ValueEvent(f, seeds, order, field, i, draws(i), envs(i)) == Some((e, seeds'));
    BothEnrichersComplete(PlainValueEvent(f, seeds, order, field, i, draws(i)).value, seeds, i, envs(i));
  }

  /** generateForValueCount, from the point where the rule's parameters are at hand. */
  method GenerateForValueCount(rule: Rule, multiplier: real, generated: Seeds, draws: nat -> Choices, envs: nat -> Env)
    returns (ok: bool, events: seq<EventMap>, ghost views: seq<Event>, ghost chain: seq<Seeds>)
    requires rule.kind.ValueCountRule? && generated.Keys == Members(rule.groupBy)
    ensures ok ==> Shows(events, views) && |events| == EventCount(rule.threshold, rule.op, multiplier)
    ensures SeedChain(rule.filter, rule.kind.countField, generated, chain, views, draws, envs)
    ensures ok ==> forall i | 0 <= i < |views| ::
      Complete(views[i]) && (IsNetwork(views[i]) ==> EndpointsComplete(views[i]))
    ensures ValueCountServable(rule, multiplier, generated) ==> ok
    ensures ValueCountServable(rule, multiplier, generated) ==> forall i, g |
              0 <= i < |views| && g in generated && g !in FieldsOf(rule.filter) :: GetField(views[i], g) == generated[g]
  {
    events, views, chain := [], [], [generated];
    var count := EventCount(rule.threshold, rule.op, multiplier);
    if ValueCountServable(rule, multiplier, generated) {
      CountSuffices(rule.threshold, rule.op, multiplier);
    }
    if count < 0 {
      return false, events, views, chain;
    }
    ok, events, views, chain := MakeValueEvents(rule.filter, generated, rule.kind.countField, count, draws, envs);
    forall i | 0 <= i < |views|
      ensures Complete(views[i]) && (IsNetwork(views[i]) ==> EndpointsComplete(views[i]))
    {
      LinkIsComplete(rule.filter, rule.kind.countField, chain[i], i, views[i], chain[i + 1], draws, envs);
    }
    if !ok && ValueCountServable(rule, multiplier, generated) {
      ChainIsOfRule(rule, multiplier, generated, chain, views, draws, envs, |views|);
      MadeValueIsOfRule(rule, multiplier, generated, chain[|views|], |views|, draws(|views|), envs(|views|), None);
      assert false;
    }
    if ValueCountServable(rule, multiplier, generated) {
      ChainKeepsOverrides(rule, multiplier, generated, chain, views, draws, envs);
    }
  }

  lemma {:induction false} ChainKeepsOverrides(rule: Rule, multiplier: real, generated: Seeds, chain: seq<Seeds>,
                                               views: seq<Event>, draws: nat -> Choices, envs: nat -> Env)
    requires ValueCountServable(rule, multiplier, generated)
    requires SeedChain(rule.filter, rule.kind.countField, generated, chain, views, draws, envs)
    ensures forall i, g | 0 <= i < |views| && g in generated && g !in FieldsOf(rule.filter) ::
              GetField(views[i], g) == generated[g]
  {
    ChainIsOfRule(rule, multiplier, generated, chain, views, draws, envs, |views|);
    forall i, g | 0 <= i < |views| && g in generated && g !in FieldsOf(rule.filter)
      ensures GetField(views[i], g) == generated[g]
    {
      assert OfValueRule(rule, generated, i, views[i]);
      OutsideOutcome(rule.filter, g, [], Constant(0, ""));
      assert Shared(rule.filter, generated)[g] == generated[g];
    }
  }

  // ---- The rule validator ----

  lemma {:induction false} ClashIsWithItself(events: seq<Event>, groupBy: seq<string>, k: nat)
    requires events != [] && k < |groupBy| && !GetField(events[0], groupBy[k]).Comparable()
    ensures GroupVerdict(events, groupBy) == None
  {}

  /** validateGroupByConsistency; None is a panic. */
  method ValidateGroupByConsistency(events: seq<EventMap>, ghost views: seq<Event>,
                                    groupBy: seq<string>) returns (ok: Option<bool>)
    requires Shows(events, views) && |events| > 0
    ensures ok == GroupVerdict(views, groupBy)
  {
    var expected: map<string, Value> := map[];
    for k := 0 to |groupBy|
      invariant forall j | 0 <= j < k ::
        groupBy[j] in expected && expected[groupBy[j]] == GetField(views[0], groupBy[j])
    {
      var v := events[0].GetFieldValue(groupBy[k]);
      expected := expected[groupBy[k] := v];
    }
    for i := 0 to |events|
      invariant i > 0 ==> forall k | 0 <= k < |groupBy| :: GetField(views[0], groupBy[k]).Comparable()
      invariant forall j, k | 0 <= j < i && 0 <= k < |groupBy| ::
        !Differ(GetField(views[j], groupBy[k]), GetField(views[0], groupBy[k]))
    {
      ok := CompareWithExpected(events[i], views[i], views[0], expected, groupBy);
      if ok.None? {
        ghost var k :| 0 <= k < |groupBy| && Clash(GetField(views[i], groupBy[k]), GetField(views[0], groupBy[k]));
        ClashIsWithItself(views, groupBy, k);
        return;
      }
      if !ok.value {
        return;
      }
    }
    ok := Some(true);
  }

  /** One event against the values of the first: its fields in order, up to one that differs. */
  method CompareWithExpected(ev: EventMap, ghost e: Event, ghost first: Event, expected: map<string, Value>,
                             groupBy: seq<string>) returns (same: Option<bool>)
    requires ev.Valid() && ev.cells == e
    requires forall k | 0 <= k < |groupBy| ::
      groupBy[k] in expected && expected[groupBy[k]] == GetField(first, groupBy[k])
    ensures same.None? ==> exists k | 0 <= k < |groupBy| :: Clash(GetField(e, groupBy[k]), GetField(first, groupBy[k]))
    ensures same == Some(false) ==>
      exists k | 0 <= k < |groupBy| :: Differ(GetField(e, groupBy[k]), GetField(first, groupBy[k]))
    ensures same == Some(true) ==> forall k | 0 <= k < |groupBy| ::
      && !Clash(GetField(e, groupBy[k]), GetField(first, groupBy[k]))
      && !Differ(GetField(e, groupBy[k]), GetField(first, groupBy[k]))
  {
    for k := 0 to |groupBy|
      invariant forall j | 0 <= j < k ::
        && !Clash(GetField(e, groupBy[j]), GetField(first, groupBy[j]))
        && !Differ(GetField(e, groupBy[j]), GetField(first, groupBy[j]))
    {
      var actual := ev.GetFieldValue(groupBy[k]);
      if Clash(actual, expected[groupBy[k]]) {
        return None;
      }
      if Differ(actual, expected[groupBy[k]]) {
        return Some(false);
      }
    }
    same := Some(true);
  }

  /** The distinct values of the field; a list or an object among them panics (None). */
  method CountDistinct(events: seq<EventMap>, ghost views: seq<Event>, field: string) returns (n: Option<nat>)
    requires Shows(events, views)
    ensures n == CountVerdict(views, field)
  {
    var uniqueValues: set<Value> := {};
    for i := 0 to |events|
      invariant uniqueValues == set j | 0 <= j < i && Has(views[j], field) :: GetField(views[j], field)
      invariant Hashable(uniqueValues)
    {
      var v := events[i].GetFieldValue(field);
      if v != Nil {
        if !v.Comparable() {
          assert v in DistinctValues(views, field);
          return None;
        }
        uniqueValues := uniqueValues + {v};
      }
    }
    n := Some(|uniqueValues|);
  }

  /** The number of events that match, none only if none does; None is a panic. */
  method CountMatching(events: seq<EventMap>, ghost views: seq<Event>, f: Filter) returns (matching: Option<nat>)
    requires Shows(events, views)
    ensures matching.None? <==> exists i | 0 <= i < |views| :: Judge(views[i], f).None?
    ensures matching.Some? ==> (matching.value == 0 <==> forall i | 0 <= i < |views| :: !Passes(views[i], f))
  {
    var matchCount := 0;
    for i := 0 to |events|
      invariant matchCount >= 0
      invariant forall j | 0 <= j < i :: Judge(views[j], f).Some?
      invariant matchCount == 0 <==> forall j | 0 <= j < i :: !Passes(views[j], f)
    {
      var m := MatchesFilter(events[i], f);
      if m.None? {
        return None;
      }
      if m.value {
        matchCount := matchCount + 1;
      }
    }
    matching := Some(matchCount);
  }

  /** ValidateEventsMatchRule; None is a panic. */
  method ValidateEventsMatchRule(rule: Rule, events: seq<EventMap>, ghost views: seq<Event>)
    returns (verdict: Option<Verdict>)
    requires Shows(events, views)
    ensures verdict == Validate(rule, views)
  {
    if |events| == 0 {
      return Some(NoEvents);
    }
    var matching := CountMatching(events, views, rule.filter);
    if matching.None? {
      return None;
    }
    if matching.value == 0 {
      return Some(NoneMatches);
    }
    var enough := Some(EventCountMeets(|events|, rule.op, rule.threshold));
    if rule.kind.ValueCountRule? {
      var n := CountDistinct(events, views, rule.kind.countField);
      enough := if n.None? then None else Some(CountMeets(n.value, rule.op, rule.threshold));
    }
    if enough.None? {
      return None;
    }
    if !enough.value {
      return Some(WrongCount);
    }
    var consistent := ValidateGroupByConsistency(events, views, rule.groupBy);
    verdict := if consistent.None? then None else Some(if consistent.value then Accepted else Inconsistent);
  }

  // ---- End to end ----

  /** Generating events for an event_count rule and validating them: accepted for every draw. */
  method ServeEventCountRule(rule: Rule, multiplier: real, generated: Seeds, tc: Choices, draws: nat -> Choices,
                             envs: nat -> Env)
    returns (ok: bool, verdict: Option<Verdict>)
    requires generated.Keys == Members(rule.groupBy)
    ensures EventCountServable(rule, multiplier, generated) ==> ok && verdict == Some(Accepted)
  {
    verdict := None;
    var events;
    ghost var views;
    ok, events, views := GenerateForEventCount(rule, multiplier, generated, tc, draws, envs);
    if ok {
      verdict := ValidateEventsMatchRule(rule, events, views);
      if EventCountServable(rule, multiplier, generated) {
        MadeEventsAreAccepted(rule, multiplier, generated, tc, views, draws, envs);
      }
    }
  }

  lemma {:induction false} MadeEventsAreAccepted(rule: Rule, multiplier: real, generated: Seeds, tc: Choices,
                                                 views: seq<Event>, draws: nat -> Choices, envs: nat -> Env)
    requires EventCountServable(rule, multiplier, generated) && CreateEvent(rule.filter, tc).Some?
    requires |views| == EventCount(rule.threshold, rule.op, multiplier)
    requires forall i | 0 <= i < |views| ::
      Makes(rule.filter, SeedsFrom(generated, CreateEvent(rule.filter, tc).value), draws(i), envs(i), Some(views[i]))
    ensures Validate(rule, views) == Some(Accepted)
  {
    TemplateMeets(rule.filter, generated, tc);
    var seeds := SeedsFrom(generated, CreateEvent(rule.filter, tc).value);
    forall i | 0 <= i < |views| ensures OfRule(rule, seeds, views[i]) {
      MadeIsOfRule(rule, multiplier, generated, tc, draws(i), envs(i), Some(views[i]));
    }
    EventCountRuleIsAccepted(rule, multiplier, generated, seeds, views);
  }

  /** The same for a value_count rule. */
  method ServeValueCountRule(rule: Rule, multiplier: real, generated: Seeds, draws: nat -> Choices, envs: nat -> Env)
    returns (ok: bool, verdict: Option<Verdict>)
    requires rule.kind.ValueCountRule? && generated.Keys == Members(rule.groupBy)
    ensures ValueCountServable(rule, multiplier, generated) ==> ok && verdict == Some(Accepted)
  {
    verdict := None;
    var events;
    ghost var views, chain;
    ok, events, views, chain := GenerateForValueCount(rule, multiplier, generated, draws, envs);
    if ok {
      verdict := ValidateEventsMatchRule(rule, events, views);
      if ValueCountServable(rule, multiplier, generated) {
        ChainIsOfRule(rule, multiplier, generated, chain, views, draws, envs, |views|);
        ValueCountRuleIsAccepted(rule, multiplier, generated, views);
      }
    }
  }
}
