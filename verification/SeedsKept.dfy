/** Exactly when the events of a filter without `or` keep the seeds of their template. */
module SeedsKept {
  import opened Wrappers
  import opened GoStrings
  import opened Events
  import opened Filters
  import opened ValueGen
  import opened Generation
  import opened Outcomes
  import opened Seeding
  import opened Enrichment
  import opened Rules

  // ---- Exactly when a filter without `or` keeps its seeds ----

  /** A seeded pass writes at the fields of the filter only. */
  ghost predicate Framed(e: Event, r: Option<Event>, fields: set<string>, touched: set<string>) {
    r.Some? ==>
      && Conforms(r.value, fields)
      && forall g {:trigger Unmoved(e, r.value, g)} | g in fields && g !in touched :: Unmoved(e, r.value, g)
  }

  ghost predicate Unmoved(e: Event, e': Event, g: string) {
    GetField(e', g) == GetField(e, g)
  }

  lemma {:induction false} FramedNext(e: Event, e': Event, r: Option<Event>, fields: set<string>, touched: set<string>,
                                      some: set<string>)
    requires Framed(e, Some(e'), fields, touched) && Framed(e', r, fields, some) && some <= touched
    ensures Framed(e, r, fields, touched)
  {
    if r.Some? {
      forall g | g in fields && g !in touched ensures Unmoved(e, r.value, g) {
        assert Unmoved(e, e', g) && Unmoved(e', r.value, g);
      }
    }
  }

  lemma {:induction false} SeededIsFramed(e: Event, f: Filter, seeds: Seeds, at: Address, c: Choices,
                                          fields: set<string>)
    requires Schema(fields) && Conforms(e, fields) && FieldsOf(f) <= fields && Supported(f)
    ensures Framed(e, ApplySeeded(e, f, seeds, at, c), fields, FieldsOf(f))
    decreases f, |f.conditions| + 1
  {
    match f.kind
    case Simple =>
      SetConforms(e, fields, f.field, SimpleValue(f, at, c));
      if f.field in seeds { SetConforms(e, fields, f.field, seeds[f.field]); }
    case And => SeededAllIsFramed(e, f, |f.conditions|, seeds, at, c, fields);
    case Or =>
      if BranchFor(f, seeds, at, c).Some? {
        var i := BranchFor(f, seeds, at, c).value;
        SubFields(f, i);
        SeededIsFramed(e, f.conditions[i], seeds, at + [i], c, fields);
        FramedNext(e, e, ApplySeeded(e, f, seeds, at, c), fields, FieldsOf(f), FieldsOf(f.conditions[i]));
      }
    case Not =>
      NotSound(e, f, at, c, fields);
      forall g | g in fields && g !in FieldsOf(f) ensures Unmoved(e, ApplyNot(e, f, at, c).value, g) {
        assert Tidy(e, ApplyNot(e, f, at, c).value, FieldsOf(f), g);
      }
  }

  lemma {:induction false} SeededAllIsFramed(e: Event, f: Filter, n: nat, seeds: Seeds, at: Address, c: Choices,
                                             fields: set<string>)
    requires Schema(fields) && Conforms(e, fields) && FieldsOf(f) <= fields && AllSupported(f)
    requires !f.kind.Simple? && n <= |f.conditions|
    ensures Framed(e, ApplySeededAll(e, f, n, seeds, at, c), fields, FieldsOf(f))
    decreases f, n
  {
    if n > 0 {
      SeededAllIsFramed(e, f, n - 1, seeds, at, c, fields);
      if ApplySeededAll(e, f, n - 1, seeds, at, c).Some? {
        SeededNextIsFramed(e, ApplySeededAll(e, f, n - 1, seeds, at, c).value, f, n - 1, seeds, at, c, fields);
      }
    }
  }

  lemma {:induction false} SeededNextIsFramed(e: Event, e': Event, f: Filter, n: nat, seeds: Seeds, at: Address,
                                              c: Choices, fields: set<string>)
    requires Schema(fields) && FieldsOf(f) <= fields && !f.kind.Simple? && n < |f.conditions|
    requires Framed(e, Some(e'), fields, FieldsOf(f)) && Supported(f.conditions[n])
    ensures Framed(e, ApplySeeded(e', f.conditions[n], seeds, at + [n], c), fields, FieldsOf(f))
    decreases f, 0
  {
    SubFields(f, n);
    SeededIsFramed(e', f.conditions[n], seeds, at + [n], c, fields);
    FramedNext(e, e', ApplySeeded(e', f.conditions[n], seeds, at + [n], c), fields, FieldsOf(f),
               FieldsOf(f.conditions[n]));
  }

  lemma {:induction false} UnsteadyIsUnpinned(f: Filter, g: string)
    requires Supported(f) && !Steady(f, g)
    ensures !Pinned(f, g) && g in FieldsOf(f)
  {
    if Pinned(f, g) { PinnedIsSteady(f, g); }
    UnpinnedIsInside(f, g);
  }

  /** At an unsteady field a seeded pass leaves the text of the `not`, whatever the seed. */
  lemma {:induction false} UnsteadyOverwrites(e: Event, f: Filter, seeds: Seeds, at: Address, c: Choices,
                                              fields: set<string>, g: string)
    requires Schema(fields) && Conforms(e, fields) && FieldsOf(f) <= fields && Supported(f) && OrFree(f)
    requires !Steady(f, g) && g in fields && ApplySeeded(e, f, seeds, at, c).Some?
    ensures Outcome(f, g, at, c) == Some(GetField(ApplySeeded(e, f, seeds, at, c).value, g))
    decreases f, 2
  {
    UnsteadyIsUnpinned(f, g);
    if f.kind.Not? {
      NoEmptyName(fields);
      NotLeaves(e, f, at, c, fields, g);
      NotIsText(f, g, at, c);
    } else {
      var i := UnsteadyCondition(f, g);
      OwnOutcome(f, g, i, |f.conditions|, at, c);
      UnsteadyAmong(e, f, i, seeds, at, c, fields, g);
    }
  }

  lemma {:induction false} UnsteadyAmong(e: Event, f: Filter, i: nat, seeds: Seeds, at: Address, c: Choices,
                                         fields: set<string>, g: string)
    requires Schema(fields) && Conforms(e, fields) && FieldsOf(f) <= fields && g in fields && AllSupported(f)
    requires !f.kind.Simple? && i < |f.conditions| && OrFree(f.conditions[i]) && !Steady(f.conditions[i], g)
    requires Disjoint(f) && g in FieldsOf(f.conditions[i])
    requires ApplySeededAll(e, f, |f.conditions|, seeds, at, c).Some?
    ensures Outcome(f.conditions[i], g, at + [i], c) ==
            Some(GetField(ApplySeededAll(e, f, |f.conditions|, seeds, at, c).value, g))
    decreases f, 1
  {
    OthersWithout(f, i, g);
    RestUntouched(e, f, i + 1, |f.conditions|, seeds, at, c, fields, g);
    UnsteadyNext(e, f, i, seeds, at, c, fields, g);
  }

  lemma {:induction false} UnsteadyNext(e: Event, f: Filter, i: nat, seeds: Seeds, at: Address, c: Choices,
                                        fields: set<string>, g: string)
    requires Schema(fields) && Conforms(e, fields) && FieldsOf(f) <= fields && g in fields && AllSupported(f)
    requires !f.kind.Simple? && i < |f.conditions| && OrFree(f.conditions[i]) && !Steady(f.conditions[i], g)
    requires ApplySeededAll(e, f, i + 1, seeds, at, c).Some?
    ensures Outcome(f.conditions[i], g, at + [i], c) ==
            Some(GetField(ApplySeededAll(e, f, i + 1, seeds, at, c).value, g))
    decreases f, 0
  {
    OneMoreSeeded(e, f, i, seeds, at, c);
    SeededAllIsFramed(e, f, i, seeds, at, c, fields);
    SubFields(f, i);
    UnsteadyOverwrites(ApplySeededAll(e, f, i, seeds, at, c).value, f.conditions[i], seeds, at + [i], c, fields, g);
  }

  lemma {:induction false} UnsteadyCondition(f: Filter, g: string) returns (i: nat)
    requires f.kind.And? && Supported(f) && OrFree(f) && !Steady(f, g)
    ensures i < |f.conditions| && Supported(f.conditions[i]) && OrFree(f.conditions[i])
    ensures !Steady(f.conditions[i], g) && g in FieldsOf(f.conditions[i])
  {
    i :| 0 <= i < |f.conditions| && !Steady(f.conditions[i], g);
    UnsteadyIsUnpinned(f.conditions[i], g);
  }

  lemma {:induction false} OneMoreSeeded(e: Event, f: Filter, i: nat, seeds: Seeds, at: Address, c: Choices)
    requires i < |f.conditions| && ApplySeededAll(e, f, i + 1, seeds, at, c).Some?
    ensures ApplySeededAll(e, f, i, seeds, at, c).Some?
    ensures ApplySeededAll(e, f, i + 1, seeds, at, c) ==
            ApplySeeded(ApplySeededAll(e, f, i, seeds, at, c).value, f.conditions[i], seeds, at + [i], c)
  {}

  lemma {:induction false} OthersWithout(f: Filter, i: nat, g: string)
    requires Disjoint(f) && i < |f.conditions| && g in FieldsOf(f.conditions[i])
    ensures Without(f, i + 1, |f.conditions|, g)
  {}

  /** The conditions from the i-th up to the n-th are on other fields. */
  ghost predicate Without(f: Filter, i: nat, n: nat, g: string)
    requires n <= |f.conditions|
  {
    forall j | i <= j < n :: g !in FieldsOf(f.conditions[j])
  }

  /** Conditions on other fields leave the field alone. */
  lemma {:induction false} RestUntouched(e: Event, f: Filter, i: nat, n: nat, seeds: Seeds, at: Address, c: Choices,
                                         fields: set<string>, g: string)
    requires Schema(fields) && Conforms(e, fields) && FieldsOf(f) <= fields && g in fields
    requires !f.kind.Simple? && AllSupported(f) && i <= n <= |f.conditions|
    requires Without(f, i, n, g)
    requires ApplySeededAll(e, f, n, seeds, at, c).Some?
    ensures ApplySeededAll(e, f, i, seeds, at, c).Some?
    ensures Unmoved(ApplySeededAll(e, f, i, seeds, at, c).value, ApplySeededAll(e, f, n, seeds, at, c).value, g)
    decreases n
  {
    if i < n {
      NextUntouched(e, f, n - 1, seeds, at, c, fields, g);
      RestUntouched(e, f, i, n - 1, seeds, at, c, fields, g);
    }
  }

  lemma {:induction false} NextUntouched(e: Event, f: Filter, n: nat, seeds: Seeds, at: Address, c: Choices,
                                         fields: set<string>, g: string)
    requires Schema(fields) && Conforms(e, fields) && FieldsOf(f) <= fields && g in fields
    requires !f.kind.Simple? && AllSupported(f) && n < |f.conditions| && g !in FieldsOf(f.conditions[n])
    requires ApplySeededAll(e, f, n + 1, seeds, at, c).Some?
    ensures ApplySeededAll(e, f, n, seeds, at, c).Some?
    ensures Unmoved(ApplySeededAll(e, f, n, seeds, at, c).value, ApplySeededAll(e, f, n + 1, seeds, at, c).value, g)
  {
    var e' := ApplySeededAll(e, f, n, seeds, at, c).value;
    SeededAllIsFramed(e, f, n, seeds, at, c, fields);
    SubFields(f, n);
    SeededIsFramed(e', f.conditions[n], seeds, at + [n], c, fields);
  }

  /** The seeded event of one choice of draws passes the filter and holds the seeds its template gave. */
  ghost predicate KeepsSeeds(f: Filter, generated: Seeds, tc: Choices, order: seq<string>, c: Choices)
    requires IsOrderOf(order, generated.Keys)
  {
    var t := CreateEvent(f, tc);
    && t.Some?
    && var seeds := SeedsFrom(generated, t.value);
       && seeds.Keys == generated.Keys
       && var r := CreateSeeded(f, seeds, order, c);
          r.Some? && Passes(r.value, f) && HoldsSeeds(r.value, seeds)
  }

  lemma {:induction false} SteadyDecides(f: Filter, keys: set<string>)
    requires OrFree(f) && forall g | g in keys :: Steady(f, g)
    ensures SeedsDecide(f, keys)
    decreases f
  {
    if f.kind.And? {
      forall i | 0 <= i < |f.conditions| ensures SeedsDecide(f.conditions[i], keys) {
        SteadyDecides(f.conditions[i], keys);
      }
    }
  }

  lemma {:induction false} SomeOrder(keys: set<string>) returns (order: seq<string>)
    ensures IsOrderOf(order, keys)
    decreases |keys|
  {
    order := [];
    if keys != {} {
      var g :| g in keys;
      var rest := SomeOrder(keys - {g});
      forall i | 0 <= i < |rest| ensures rest[i] != g { assert rest[i] in Members(rest); }
      order := rest + [g];
      assert Members(order) == Members(rest) + {g};
    }
  }

  lemma {:induction false} SteadySeedsAreKept(f: Filter, generated: Seeds, tc: Choices, order: seq<string>, c: Choices)
    requires Supported(f) && OrFree(f) && Schema(FieldsOf(f) + generated.Keys) && IsOrderOf(order, generated.Keys)
    requires forall g | g in generated :: generated[g].Scalar() && Steady(f, g)
    ensures KeepsSeeds(f, generated, tc, order, c)
  {
    TemplateMeets(f, generated, tc);
    SteadyDecides(f, generated.Keys);
    var t := CreateEvent(f, tc).value;
    SeededEventsMatch(f, t, SeedsFrom(generated, t), order, c);
  }

  /** Some draws give another text at an unsteady field than the template had there. */
  lemma {:induction false} UnsteadySeedIsLost(f: Filter, generated: Seeds, g: string, order: seq<string>)
    returns (tc: Choices, c: Choices)
    requires Supported(f) && OrFree(f) && Schema(FieldsOf(f) + generated.Keys) && IsOrderOf(order, generated.Keys)
    requires forall h | h in generated :: generated[h].Scalar()
    requires g in generated && !Steady(f, g)
    ensures !KeepsSeeds(f, generated, tc, order, c)
  {
    var fields := FieldsOf(f) + generated.Keys;
    UnsteadyIsUnpinned(f, g);
    tc, c := OutcomeVaries(f, g, []);
    if KeepsSeeds(f, generated, tc, order, c) {
      var t := CreateEvent(f, tc).value;
      var seeds := SeedsFrom(generated, t);
      TemplateMeets(f, generated, tc);
      NoEmptyName(fields);
      ApplyLeaves(EMPTY, f, [], tc, fields, g);
      forall h | h in order ensures h in seeds { assert h in Members(order); }
      WriteSeedsHolds(EMPTY, seeds, order, fields);
      UnsteadyOverwrites(WriteSeeds(EMPTY, seeds, order).value, f, seeds, [], c, fields, g);
      UnsteadyTemplate(f, tc, g, fields);
      assert false;
    }
  }

  lemma {:induction false} UnsteadyTemplate(f: Filter, tc: Choices, g: string, fields: set<string>)
    requires Supported(f) && OrFree(f) && Schema(fields) && FieldsOf(f) <= fields && g in fields && !Steady(f, g)
    ensures CreateEvent(f, tc).Some? && Has(CreateEvent(f, tc).value, g)
    ensures Outcome(f, g, [], tc) == Some(GetField(CreateEvent(f, tc).value, g))
  {
    UnsteadyIsUnpinned(f, g);
    NoEmptyName(fields);
    InsideOutcome(f, g, [], tc);
    OutcomeIsScalar(f, g, [], tc);
    ApplyLeaves(EMPTY, f, [], tc, fields, g);
  }

  /**
   * Without `or`, the seeds of every template are kept by every seeded event, which passes, exactly when what each
   * `not` writes at the seeded fields does not depend on the draws.
   */
  lemma {:induction false} SeedsKeptExactly(f: Filter, generated: Seeds)
    requires Supported(f) && OrFree(f) && Schema(FieldsOf(f) + generated.Keys)
    requires forall g | g in generated :: generated[g].Scalar()
    ensures (forall tc, order, c | IsOrderOf(order, generated.Keys) :: KeepsSeeds(f, generated, tc, order, c)) <==>
            (forall g | g in generated :: Steady(f, g))
  {
    if forall g | g in generated :: Steady(f, g) {
      forall tc, order, c | IsOrderOf(order, generated.Keys) ensures KeepsSeeds(f, generated, tc, order, c) {
        SteadySeedsAreKept(f, generated, tc, order, c);
      }
    } else {
      var g :| g in generated && !Steady(f, g);
      var order := SomeOrder(generated.Keys);
      var tc, c := UnsteadySeedIsLost(f, generated, g, order);
    }
  }
}
