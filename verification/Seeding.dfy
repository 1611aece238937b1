/** The two-pass scheme: a template event fixes seeds, and seeded events keep to them. */
module Seeding {
  import opened Wrappers
  import opened GoStrings
  import opened Events
  import opened Filters
  import opened ValueGen
  import opened Generation
  import opened Outcomes

  /** The group_by values a rule's events share. */
  type Seeds = map<string, Value>

  // ---- valueSatisfiesFilter, branchCompatibleWithSeed, findCompatibleORBranch ----

  predicate Satisfies(v: Value, f: Filter) {
    match f.op
    case Eq => Equal(v, f.value)
    case In => f.value.Arr? && ListHolds(f.value.items, v)
    case Contains => v.Str? && f.value.Str? && GoStrings.Contains(v.text, f.value.text)
    case _ => true
  }

  predicate Compatible(f: Filter, seeds: Seeds)
    decreases f
  {
    match f.kind
    case And => forall i | 0 <= i < |f.conditions| :: Compatible(f.conditions[i], seeds)
    case Or => exists i | 0 <= i < |f.conditions| :: Compatible(f.conditions[i], seeds)
    case Not =>
      forall i | 0 <= i < |f.conditions| && f.conditions[i].field in seeds ::
        !Satisfies(seeds[f.conditions[i].field], f.conditions[i])
    case _ => f.field in seeds ==> Satisfies(seeds[f.field], f)
  }

  /** valueSatisfiesFilter; None is a panic. Operators other than `eq` and `in` compare nothing. */
  function Satisfied(v: Value, f: Filter): Option<bool> {
    if !f.op.Ne? && Clashes(v, f.op, f.value) then None else Some(Satisfies(v, f))
  }

  /** branchCompatibleWithSeed, condition by condition until it is settled. */
  function Fit(f: Filter, seeds: Seeds): Option<bool>
    decreases f, |f.conditions| + 1
  {
    match f.kind
    case And => Negate(FitSearch(f, 0, seeds, false))
    case Or => FitSearch(f, 0, seeds, true)
    case Not => Unfit(f.conditions, seeds)
    case _ => if f.field in seeds then Satisfied(seeds[f.field], f) else Some(true)
  }

  /** Whether some condition from the i-th on is (or is not) compatible. */
  function FitSearch(f: Filter, i: nat, seeds: Seeds, wanted: bool): Option<bool>
    requires i <= |f.conditions|
    decreases f, |f.conditions| - i
  {
    if i == |f.conditions| then Some(false)
    else match Fit(f.conditions[i], seeds)
      case None => None
      case Some(b) => if b == wanted then Some(true) else FitSearch(f, i + 1, seeds, wanted)
  }

  /** No condition directly inside a `not` is satisfied by the seed of its field. */
  function Unfit(conds: seq<Filter>, seeds: Seeds): Option<bool> {
    if conds == [] then Some(true)
    else if conds[0].field !in seeds then Unfit(conds[1..], seeds)
    else match Satisfied(seeds[conds[0].field], conds[0])
      case None => None
      case Some(b) => if b then Some(false) else Unfit(conds[1..], seeds)
  }

  /** What compatibility means, whatever the order of the conditions. */
  lemma {:induction false} FitIsCompatible(f: Filter, seeds: Seeds)
    ensures Fit(f, seeds).Some? ==> Fit(f, seeds) == Some(Compatible(f, seeds))
    decreases f, |f.conditions| + 1
  {
    match f.kind
    case And => FitSearchIsExistence(f, 0, seeds, false);
    case Or => FitSearchIsExistence(f, 0, seeds, true);
    case Not => UnfitIsNone(f.conditions, seeds);
    case _ =>
  }

  lemma {:induction false} FitSearchIsExistence(f: Filter, i: nat, seeds: Seeds, wanted: bool)
    requires i <= |f.conditions|
    ensures FitSearch(f, i, seeds, wanted).Some? ==>
            (FitSearch(f, i, seeds, wanted).value <==>
             exists j | i <= j < |f.conditions| :: Compatible(f.conditions[j], seeds) == wanted)
    decreases f, |f.conditions| - i
  {
    if i < |f.conditions| {
      FitIsCompatible(f.conditions[i], seeds);
      FitSearchIsExistence(f, i + 1, seeds, wanted);
    }
  }

  lemma {:induction false} UnfitIsNone(conds: seq<Filter>, seeds: Seeds)
    ensures Unfit(conds, seeds).Some? ==>
            (Unfit(conds, seeds).value <==>
             forall i | 0 <= i < |conds| && conds[i].field in seeds :: !Satisfies(seeds[conds[i].field], conds[i]))
  {
    if conds != [] {
      UnfitIsNone(conds[1..], seeds);
      assert forall i | 1 <= i < |conds| :: conds[i] == conds[1..][i - 1];
    }
  }

  /** findCompatibleORBranch: the first compatible branch from the i-th on, the length standing for -1; None panics. */
  function FindBranch(f: Filter, i: nat, seeds: Seeds): (k: Option<nat>)
    requires i <= |f.conditions|
    ensures k.Some? ==> i <= k.value <= |f.conditions|
    decreases |f.conditions| - i
  {
    if i == |f.conditions| then Some(i)
    else match Fit(f.conditions[i], seeds)
      case None => None
      case Some(b) => if b then Some(i) else FindBranch(f, i + 1, seeds)
  }

  lemma {:induction false} FindBranchIsFirst(f: Filter, i: nat, seeds: Seeds)
    requires i <= |f.conditions|
    ensures match FindBranch(f, i, seeds)
            case None => exists j | i <= j < |f.conditions| :: Fit(f.conditions[j], seeds).None?
            case Some(k) =>
              && (k < |f.conditions| ==> Compatible(f.conditions[k], seeds))
              && forall j | i <= j < k :: !Compatible(f.conditions[j], seeds)
    decreases |f.conditions| - i
  {
    if i < |f.conditions| {
      FitIsCompatible(f.conditions[i], seeds);
      if Fit(f.conditions[i], seeds) == Some(false) {
        FindBranchIsFirst(f, i + 1, seeds);
      }
    }
  }

  // ---- applyFilterToEventWithSeed ----

  ghost function ApplySeeded(e: Event, f: Filter, seeds: Seeds, at: Address, c: Choices): Option<Event>
    decreases f, |f.conditions| + 1
  {
    match f.kind
    case Simple =>
      (match SeedFor(f, seeds)
       case None => None
       case Some(useSeed) =>
         SetField(e, f.field, if useSeed && f.field in seeds then seeds[f.field] else SimpleValue(f, at, c)))
    case Or =>
      if f.conditions == [] then Some(e)
      else
        (match BranchFor(f, seeds, at, c)
         case None => None
         case Some(i) => ApplySeeded(e, f.conditions[i], seeds, at + [i], c))
    case Not => ApplyNot(e, f, at, c)
    case _ => ApplySeededAll(e, f, |f.conditions|, seeds, at, c)
  }

  /** Whether a simple condition takes its field's seed. */
  function SeedFor(f: Filter, seeds: Seeds): Option<bool> {
    if f.field in seeds then Satisfied(seeds[f.field], f) else Some(false)
  }

  function BranchFor(f: Filter, seeds: Seeds, at: Address, c: Choices): (i: Option<nat>)
    requires f.conditions != []
    ensures i.Some? ==> i.value < |f.conditions|
  {
    match FindBranch(f, 0, seeds)
    case None => None
    case Some(i) => if i < |f.conditions| then Some(i) else Some(c.pick(at, "", 0) % |f.conditions|)
  }

  ghost function ApplySeededAll(e: Event, f: Filter, n: nat, seeds: Seeds, at: Address, c: Choices): Option<Event>
    requires n <= |f.conditions|
    decreases f, n
  {
    if n == 0 then Some(e)
    else match ApplySeededAll(e, f, n - 1, seeds, at, c)
      case None => None
      case Some(e') => ApplySeeded(e', f.conditions[n - 1], seeds, at + [n - 1], c)
  }

  /** The seeds written one field after the other. */
  ghost function WriteSeeds(e: Event, seeds: Seeds, order: seq<string>): Option<Event>
    requires forall g | g in order :: g in seeds
  {
    if order == [] then Some(e)
    else
      var init, last := order[..|order| - 1], order[|order| - 1];
      assert forall g | g in init :: g in order;
      match WriteSeeds(e, seeds, init)
      case None => None
      case Some(e') => SetField(e', last, seeds[last])
  }

  /** createEventMatchingFilterWithSeed; `order` is the iteration order over the seeds. */
  ghost function CreateSeeded(f: Filter, seeds: Seeds, order: seq<string>, c: Choices): Option<Event>
    requires IsOrderOf(order, seeds.Keys)
  {
    assert forall g | g in order :: g in Members(order);
    match WriteSeeds(EMPTY, seeds, order)
    case None => None
    case Some(e) => ApplySeeded(e, f, seeds, [], c)
  }

  /** applyGroupByValues: fields that already hold something keep it. */
  ghost function FillGroupBy(e: Event, seeds: Seeds, order: seq<string>): Option<Event>
    requires forall g | g in order :: g in seeds
  {
    if order == [] then Some(e)
    else
      var init, last := order[..|order| - 1], order[|order| - 1];
      assert forall g | g in init :: g in order;
      match FillGroupBy(e, seeds, init)
      case None => None
      case Some(e') => if Has(e', last) then Some(e') else SetField(e', last, seeds[last])
  }

  // ---- Seeds taken from a template ----

  ghost predicate HoldsSeeds(e: Event, seeds: Seeds) {
    forall g | g in seeds :: GetField(e, g) == seeds[g]
  }

  /** The operators `Satisfies` decides; it answers yes for all others. */
  predicate Decided(op: Op) {
    op.Eq? || op.In? || op.Contains?
  }

  /** In a branch of an `or`: on seeded fields only decided operators, and no `not` reaches a seeded field. */
  ghost predicate BranchDecides(f: Filter, keys: set<string>)
    decreases f
  {
    match f.kind
    case Simple => f.field in keys ==> Decided(f.op)
    case Not => FieldsOf(f) !! keys
    case _ => forall i | 0 <= i < |f.conditions| :: BranchDecides(f.conditions[i], keys)
  }

  /** The branches of every `or` decide, and a `not` outside writes the same for all draws at a seeded field. */
  ghost predicate SeedsDecide(f: Filter, keys: set<string>)
    decreases f
  {
    match f.kind
    case And => forall i | 0 <= i < |f.conditions| :: SeedsDecide(f.conditions[i], keys)
    case Or => forall i | 0 <= i < |f.conditions| :: BranchDecides(f.conditions[i], keys)
    case Not => forall g | g in keys :: SteadyNot(f, g)
    case _ => true
  }

  /** Every simple condition inside a `not` that looks at a seeded field has a decided operator. */
  ghost predicate NotsDecide(f: Filter, keys: set<string>)
    decreases f
  {
    match f.kind
    case Simple => true
    case Not => forall i | 0 <= i < |f.conditions| && f.conditions[i].field in keys :: Decided(f.conditions[i].op)
    case _ => forall i | 0 <= i < |f.conditions| :: NotsDecide(f.conditions[i], keys)
  }

  /** Wherever the template holds a value for a seeded field, that value is the seed. */
  ghost predicate FromTemplate(seeds: Seeds, template: Event) {
    forall g | g in seeds && Has(template, g) :: seeds[g] == GetField(template, g)
  }

  /**
   * The seeds of a template that meets the filter never shut out every branch of it, unless a `not` asks for an
   * undecided operator on a seeded field; without `or` they are then shut out for certain.
   */
  lemma {:induction false} TemplateSeedsAreCompatible(f: Filter, template: Event, seeds: Seeds)
    requires Supported(f) && Met(template, f)
    requires FromTemplate(seeds, template) && "" !in seeds
    ensures NotsDecide(f, seeds.Keys) ==> Compatible(f, seeds)
    ensures OrFree(f) ==> (Compatible(f, seeds) <==> NotsDecide(f, seeds.Keys))
    decreases f
  {
    match f.kind
    case Simple =>
    case And =>
      forall i | 0 <= i < |f.conditions|
        ensures NotsDecide(f.conditions[i], seeds.Keys) ==> Compatible(f.conditions[i], seeds)
        ensures OrFree(f.conditions[i]) ==>
                (Compatible(f.conditions[i], seeds) <==> NotsDecide(f.conditions[i], seeds.Keys))
      {
        TemplateSeedsAreCompatible(f.conditions[i], template, seeds);
      }
    case Or =>
      var i :| 0 <= i < |f.conditions| && Met(template, f.conditions[i]);
      TemplateSeedsAreCompatible(f.conditions[i], template, seeds);
    case Not => NotFitsTemplate(f, template, seeds);
  }

  /** A `not` the template meets refuses each seed with a decided operator and takes every other one for satisfied. */
  lemma {:induction false} NotFitsTemplate(f: Filter, template: Event, seeds: Seeds)
    requires f.kind.Not? && NotSupported(f) && Met(template, f) && FromTemplate(seeds, template) && "" !in seeds
    ensures forall i | 0 <= i < |f.conditions| && f.conditions[i].field in seeds ::
              Satisfies(seeds[f.conditions[i].field], f.conditions[i]) <==> !Decided(f.conditions[i].op)
  {
    forall i | 0 <= i < |f.conditions| && f.conditions[i].field in seeds
      ensures Satisfies(seeds[f.conditions[i].field], f.conditions[i]) <==> !Decided(f.conditions[i].op)
    {
      assert f.conditions[i].kind.Simple?;
      assert Refused(template, f.conditions[i]);
    }
  }

  lemma {:induction false} BranchDecidesNots(f: Filter, keys: set<string>)
    requires Supported(f) && BranchDecides(f, keys) && "" !in keys
    ensures NotsDecide(f, keys)
    decreases f
  {
    match f.kind
    case Not =>
      forall i | 0 <= i < |f.conditions| ensures f.conditions[i].field !in keys {
        if f.conditions[i].kind.Simple? { assert f.conditions[i].field in FieldsOf(f.conditions[i]); }
      }
    case And | Or =>
      forall i | 0 <= i < |f.conditions| ensures NotsDecide(f.conditions[i], keys) {
        BranchDecidesNots(f.conditions[i], keys);
      }
    case _ =>
  }

  lemma {:induction false} NotIsUnseeded(f: Filter, seeds: Seeds)
    requires f.kind.Not? && NotSupported(f) && FieldsOf(f) !! seeds.Keys && "" !in seeds
    ensures forall i | 0 <= i < |f.conditions| :: f.conditions[i].field !in seeds
  {
    forall i | 0 <= i < |f.conditions| ensures f.conditions[i].field !in seeds {
      SubFields(f, i);
      if f.conditions[i].kind.Simple? {
        assert f.conditions[i].field in FieldsOf(f.conditions[i]);
      }
    }
  }

  /** On a supported filter the seeds are compared with scalars only, so finding a branch never panics. */
  lemma {:induction false} FitDoesNotPanic(f: Filter, seeds: Seeds)
    requires Supported(f) && BranchDecides(f, seeds.Keys) && "" !in seeds
    ensures Fit(f, seeds) == Some(Compatible(f, seeds))
    decreases f, |f.conditions| + 1
  {
    FitIsCompatible(f, seeds);
    match f.kind
    case And => FitSearchDoesNotPanic(f, 0, seeds, false);
    case Or => FitSearchDoesNotPanic(f, 0, seeds, true);
    case Not =>
      NotIsUnseeded(f, seeds);
      UnseededIsFit(f.conditions, seeds);
    case _ =>
  }

  lemma {:induction false} FitSearchDoesNotPanic(f: Filter, i: nat, seeds: Seeds, wanted: bool)
    requires i <= |f.conditions| && "" !in seeds
    requires forall j | 0 <= j < |f.conditions| ::
      Supported(f.conditions[j]) && BranchDecides(f.conditions[j], seeds.Keys)
    ensures FitSearch(f, i, seeds, wanted).Some?
    decreases f, |f.conditions| - i
  {
    if i < |f.conditions| {
      FitDoesNotPanic(f.conditions[i], seeds);
      FitSearchDoesNotPanic(f, i + 1, seeds, wanted);
    }
  }

  lemma {:induction false} UnseededIsFit(conds: seq<Filter>, seeds: Seeds)
    requires forall i | 0 <= i < |conds| :: conds[i].field !in seeds
    ensures Unfit(conds, seeds) == Some(true)
  {
    if conds != [] {
      UnseededIsFit(conds[1..], seeds);
    }
  }

  /** Some branch of a compatible `or` is found, and it is a compatible one. */
  lemma {:induction false} BranchIsCompatible(f: Filter, seeds: Seeds, at: Address, c: Choices)
    requires f.kind.Or? && Supported(f) && BranchDecides(f, seeds.Keys) && "" !in seeds && Compatible(f, seeds)
    ensures BranchFor(f, seeds, at, c).Some? && Compatible(f.conditions[BranchFor(f, seeds, at, c).value], seeds)
  {
    forall j | 0 <= j < |f.conditions| ensures Fit(f.conditions[j], seeds).Some? {
      FitDoesNotPanic(f.conditions[j], seeds);
    }
    FindBranchIsFirst(f, 0, seeds);
  }

  // ---- Seeds that suit a filter ----

  /**
   * Outside any `or` the conditions accept the seeds and a `not` writes them again; an `or` finds a compatible branch
   * and its branches decide.
   */
  ghost predicate Suits(f: Filter, seeds: Seeds)
    decreases f
  {
    match f.kind
    case Simple => f.field in seeds ==> Accepts(f, seeds[f.field])
    case And => forall i | 0 <= i < |f.conditions| :: Suits(f.conditions[i], seeds)
    case Or => Compatible(f, seeds) && BranchDecides(f, seeds.Keys)
    case Not => forall g | g in seeds && g in FieldsOf(f) :: WritesAgain(f, seeds, g)
    case OtherKind(_) => true
  }

  ghost predicate WritesAgain(f: Filter, seeds: Seeds, g: string)
    requires g in seeds
  {
    forall at: Address, c: Choices :: NotOutcome(f, g, at, c) == Some(seeds[g])
  }

  lemma {:induction false} CompatibleSeedsSuit(f: Filter, seeds: Seeds)
    requires Supported(f) && BranchDecides(f, seeds.Keys) && Compatible(f, seeds)
             && forall g | g in seeds :: seeds[g] != Nil
    ensures Suits(f, seeds)
    decreases f
  {
    if f.kind.And? {
      forall i | 0 <= i < |f.conditions| ensures Suits(f.conditions[i], seeds) {
        CompatibleSeedsSuit(f.conditions[i], seeds);
      }
    }
  }

  /** The template holds what each `not` outside any `or` writes at the seeded fields. */
  ghost predicate Molded(template: Event, f: Filter, keys: set<string>)
    decreases f
  {
    match f.kind
    case And => forall i | 0 <= i < |f.conditions| :: Molded(template, f.conditions[i], keys)
    case Not => forall g | g in keys && g in FieldsOf(f) :: MayHaveWritten(template, f, g)
    case _ => true
  }

  ghost predicate MayHaveWritten(template: Event, f: Filter, g: string) {
    exists at: Address, c: Choices :: NotOutcome(f, g, at, c) == Some(GetField(template, g))
  }

  ghost predicate ShowsOutcomes(e: Event, f: Filter, at: Address, c: Choices) {
    forall g | g in FieldsOf(f) :: Outcome(f, g, at, c).Some? ==> GetField(e, g) == Outcome(f, g, at, c).value
  }

  lemma {:induction false} ShownIsMolded(e: Event, f: Filter, at: Address, c: Choices, keys: set<string>)
    requires Supported(f) && ShowsOutcomes(e, f, at, c) && "" !in keys
    ensures Molded(e, f, keys)
    decreases f
  {
    match f.kind
    case And =>
      forall i | 0 <= i < |f.conditions| ensures Molded(e, f.conditions[i], keys) {
        forall g | g in FieldsOf(f.conditions[i]) ensures g in FieldsOf(f)
          && Outcome(f, g, at, c) == Outcome(f.conditions[i], g, at + [i], c)
        {
          SubFields(f, i);
          OwnOutcome(f, g, i, |f.conditions|, at, c);
        }
        ShownIsMolded(e, f.conditions[i], at + [i], c, keys);
      }
    case Not =>
      forall g | g in keys && g in FieldsOf(f) ensures MayHaveWritten(e, f, g) {
        NotIsText(f, g, at, c);
        assert NotOutcome(f, g, at, c) == Some(GetField(e, g));
      }
    case _ =>
  }

  /** A created event is molded. */
  lemma {:induction false} CreatedIsMolded(f: Filter, c: Choices, keys: set<string>)
    requires Supported(f) && Schema(FieldsOf(f)) && "" !in keys
    ensures CreateEvent(f, c).Some? && Molded(CreateEvent(f, c).value, f, keys)
  {
    ApplySound(EMPTY, f, [], c, FieldsOf(f));
    forall g | g in FieldsOf(f)
      ensures Outcome(f, g, [], c).Some? ==> GetField(CreateEvent(f, c).value, g) == Outcome(f, g, [], c).value
    {
      ApplyLeaves(EMPTY, f, [], c, FieldsOf(f), g);
    }
    ShownIsMolded(CreateEvent(f, c).value, f, [], c, keys);
  }

  /** The seeds of a molded template suit the filter. */
  lemma {:induction false} TemplateSeedsSuit(f: Filter, template: Event, seeds: Seeds)
    requires Supported(f) && SeedsDecide(f, seeds.Keys) && Met(template, f) && Molded(template, f, seeds.Keys)
    requires FromTemplate(seeds, template) && "" !in seeds
    ensures Suits(f, seeds)
    decreases f
  {
    match f.kind
    case Simple =>
    case And =>
      forall i | 0 <= i < |f.conditions| ensures Suits(f.conditions[i], seeds) {
        TemplateSeedsSuit(f.conditions[i], template, seeds);
      }
    case Or =>
      BranchDecidesNots(f, seeds.Keys);
      TemplateSeedsAreCompatible(f, template, seeds);
    case Not =>
      forall g | g in seeds && g in FieldsOf(f) ensures WritesAgain(f, seeds, g) {
        SteadySeedIsWritten(f, template, seeds, g);
      }
  }

  lemma {:induction false} SteadySeedIsWritten(f: Filter, template: Event, seeds: Seeds, g: string)
    requires f.kind.Not? && NotSupported(f) && SteadyNot(f, g) && MayHaveWritten(template, f, g)
    requires FromTemplate(seeds, template) && g in seeds && g in FieldsOf(f) && g != ""
    ensures WritesAgain(f, seeds, g)
  {
    var bt: Address, d: Choices :| NotOutcome(f, g, bt, d) == Some(GetField(template, g));
    NotIsText(f, g, bt, d);
    forall at: Address, c: Choices ensures NotOutcome(f, g, at, c) == Some(seeds[g]) {
      SteadyNotIsFixed(f, g, at, c, bt, d);
    }
  }

  // ---- Seeded events ----

  /** A filter that the seeds suit is met whatever branch and draws come up, and every seed stays in place. */
  lemma {:induction false} SeededSound(e: Event, f: Filter, seeds: Seeds, at: Address, c: Choices, fields: set<string>)
    requires Schema(fields) && Conforms(e, fields) && FieldsOf(f) <= fields && seeds.Keys <= fields
    requires Supported(f) && Suits(f, seeds)
    requires HoldsSeeds(e, seeds) && forall g | g in seeds :: seeds[g] != Nil
    ensures Careful(e, ApplySeeded(e, f, seeds, at, c), fields, FieldsOf(f))
    ensures Holds(ApplySeeded(e, f, seeds, at, c).value, f)
    ensures HoldsSeeds(ApplySeeded(e, f, seeds, at, c).value, seeds)
    decreases f, |f.conditions| + 1
  {
    match f.kind
    case Simple =>
      SeededLeafSound(e, f, seeds, at, c, fields);
    case And => SeededAllSound(e, f, |f.conditions|, seeds, at, c, fields);
    case Or => SeededBranchSound(e, f, seeds, at, c, fields);
    case Not =>
      NotSound(e, f, at, c, fields);
      NotKeepsSeeds(e, f, seeds, at, c, fields);
  }

  /** A `not` leaves seeds at other fields alone and writes those at its own again. */
  lemma {:induction false} NotKeepsSeeds(e: Event, f: Filter, seeds: Seeds, at: Address, c: Choices,
                                         fields: set<string>)
    requires Schema(fields) && Conforms(e, fields) && FieldsOf(f) <= fields && seeds.Keys <= fields
    requires f.kind.Not? && Supported(f) && Suits(f, seeds) && HoldsSeeds(e, seeds)
    requires Careful(e, ApplyNot(e, f, at, c), fields, FieldsOf(f))
    ensures HoldsSeeds(ApplyNot(e, f, at, c).value, seeds)
  {
    var r := ApplyNot(e, f, at, c).value;
    forall g | g in seeds ensures GetField(r, g) == seeds[g] {
      if g in FieldsOf(f) {
        assert WritesAgain(f, seeds, g);
        NotLeaves(e, f, at, c, fields, g);
      } else {
        assert Tidy(e, r, FieldsOf(f), g);
      }
    }
  }

  lemma {:induction false} SeededBranchSound(e: Event, f: Filter, seeds: Seeds, at: Address, c: Choices,
                                             fields: set<string>)
    requires Schema(fields) && Conforms(e, fields) && FieldsOf(f) <= fields && seeds.Keys <= fields
    requires f.kind.Or? && Supported(f) && Suits(f, seeds)
    requires HoldsSeeds(e, seeds) && forall g | g in seeds :: seeds[g] != Nil
    ensures Careful(e, ApplySeeded(e, f, seeds, at, c), fields, FieldsOf(f))
    ensures Holds(ApplySeeded(e, f, seeds, at, c).value, f)
    ensures HoldsSeeds(ApplySeeded(e, f, seeds, at, c).value, seeds)
    decreases f, 0
  {
    EmptyNameIsOutside(seeds, fields);
    BranchIsCompatible(f, seeds, at, c);
    var i := BranchFor(f, seeds, at, c).value;
    SubFields(f, i);
    CompatibleSeedsSuit(f.conditions[i], seeds);
    SeededSound(e, f.conditions[i], seeds, at + [i], c, fields);
    ServedBranch(e, ApplySeeded(e, f.conditions[i], seeds, at + [i], c), f, i, fields);
  }

  lemma {:induction false} EmptyNameIsOutside(seeds: Seeds, fields: set<string>)
    requires Schema(fields) && seeds.Keys <= fields
    ensures "" !in seeds
  {
    assert !PlainField("");
  }

  /** A simple condition keeps a compatible seed, or writes a value of its own. */
  lemma {:induction false} SeededLeafSound(e: Event, f: Filter, seeds: Seeds, at: Address, c: Choices,
                                           fields: set<string>)
    requires Schema(fields) && Conforms(e, fields) && f.kind.Simple? && f.field in fields && seeds.Keys <= fields
    requires LeafOk(f) && Suits(f, seeds)
    requires HoldsSeeds(e, seeds) && forall g | g in seeds :: seeds[g] != Nil
    ensures Careful(e, ApplySeeded(e, f, seeds, at, c), fields, FieldsOf(f))
    ensures Holds(ApplySeeded(e, f, seeds, at, c).value, f)
    ensures HoldsSeeds(ApplySeeded(e, f, seeds, at, c).value, seeds)
  {
    LeafOkIsMet(f, at, c);
    var v := if f.field in seeds then seeds[f.field] else SimpleValue(f, at, c);
    assert ApplySeeded(e, f, seeds, at, c) == SetField(e, f.field, v);
    LeafOkIsComparable(f, at, c);
    SeededWrite(e, f, seeds, v, fields);
  }

  lemma {:induction false} LeafOkIsComparable(f: Filter, at: Address, c: Choices)
    requires LeafOk(f)
    ensures SimpleValue(f, at, c).Comparable() && NeverClashes(f.op, f.value)
  {
    if f.op.In? {
      assert f.value.items[c.pick(at, f.field, 0) % |f.value.items|].Scalar();
    }
  }

  lemma {:induction false} SeededWrite(e: Event, f: Filter, seeds: Seeds, v: Value, fields: set<string>)
    requires Schema(fields) && Conforms(e, fields) && f.kind.Simple? && f.field in fields && seeds.Keys <= fields
    requires HoldsSeeds(e, seeds) && NeverClashes(f.op, f.value) && Accepts(f, v)
    requires if f.field in seeds then v == seeds[f.field] else v.Comparable()
    ensures Careful(e, SetField(e, f.field, v), fields, FieldsOf(f))
    ensures Holds(SetField(e, f.field, v).value, f) && HoldsSeeds(SetField(e, f.field, v).value, seeds)
  {
    SetConforms(e, fields, f.field, v);
  }

  ghost predicate AllServable(f: Filter, seeds: Seeds) {
    forall i | 0 <= i < |f.conditions| ::
      Supported(f.conditions[i]) && Suits(f.conditions[i], seeds)
  }

  lemma {:induction false} SeededAllSound(e: Event, f: Filter, n: nat, seeds: Seeds, at: Address, c: Choices,
                                          fields: set<string>)
    requires Schema(fields) && Conforms(e, fields) && FieldsOf(f) <= fields && seeds.Keys <= fields
    requires Disjoint(f) && AllServable(f, seeds)
    requires HoldsSeeds(e, seeds) && forall g | g in seeds :: seeds[g] != Nil
    requires !f.kind.Simple? && n <= |f.conditions|
    ensures Served(e, ApplySeededAll(e, f, n, seeds, at, c), f, n, fields)
    ensures HoldsSeeds(ApplySeededAll(e, f, n, seeds, at, c).value, seeds)
    decreases f, n
  {
    if n == 0 {
      NothingYet(e, f, fields, false);
    } else {
      SeededAllSound(e, f, n - 1, seeds, at, c, fields);
      SeededNextSound(e, ApplySeededAll(e, f, n - 1, seeds, at, c).value, f, n - 1, seeds, at, c, fields);
    }
  }

  lemma {:induction false} SeededNextSound(e: Event, e': Event, f: Filter, n: nat, seeds: Seeds, at: Address,
                                           c: Choices, fields: set<string>)
    requires Schema(fields) && FieldsOf(f) <= fields && seeds.Keys <= fields && !f.kind.Simple? && n < |f.conditions|
    requires Disjoint(f) && AllServable(f, seeds)
    requires Served(e, Some(e'), f, n, fields) && HoldsSeeds(e', seeds) && forall g | g in seeds :: seeds[g] != Nil
    ensures var r := ApplySeeded(e', f.conditions[n], seeds, at + [n], c);
            Served(e, r, f, n + 1, fields) && HoldsSeeds(r.value, seeds)
    decreases f, 0
  {
    SubFields(f, n);
    SeededSound(e', f.conditions[n], seeds, at + [n], c, fields);
    DisjointIsApart(f, n);
    ServedNext(e, e', ApplySeeded(e', f.conditions[n], seeds, at + [n], c), f, n, fields);
  }

  lemma {:induction false} WriteSeedsHolds(e: Event, seeds: Seeds, order: seq<string>, fields: set<string>)
    requires Schema(fields) && Conforms(e, fields) && seeds.Keys <= fields
    requires forall g | g in order :: g in seeds
    ensures var r := WriteSeeds(e, seeds, order);
            && r.Some? && Conforms(r.value, fields)
            && (forall g | g in fields && g !in order :: GetField(r.value, g) == GetField(e, g))
            && forall g | g in order :: GetField(r.value, g) == seeds[g]
    decreases |order|
  {
    if order != [] {
      var init, last := order[..|order| - 1], order[|order| - 1];
      assert order == init + [last];
      forall g | g in init ensures g in order {}
      WriteSeedsHolds(e, seeds, init, fields);
      SetConforms(WriteSeeds(e, seeds, init).value, fields, last, seeds[last]);
    }
  }

  /** Values of the seeds may be lists or objects, but then only conditions that never clash look at them. */
  lemma {:induction false} SeededIsCalm(e: Event, f: Filter, seeds: Seeds)
    requires Supported(f) && Suits(f, seeds) && HoldsSeeds(e, seeds) && "" !in seeds
    requires forall g | g in FieldsOf(f) && g !in seeds :: GetField(e, g).Comparable()
    ensures Calm(e, f)
    decreases f
  {
    match f.kind
    case Simple =>
    case Not =>
      forall g | g in FieldsOf(f) ensures GetField(e, g).Comparable() {
        if g in seeds {
          assert WritesAgain(f, seeds, g);
          NotIsText(f, g, [], Constant(0, ""));
        }
      }
      ComparableIsCalm(e, f);
    case And =>
      forall i | 0 <= i < |f.conditions| ensures Calm(e, f.conditions[i]) {
        SubFields(f, i);
        SeededIsCalm(e, f.conditions[i], seeds);
      }
    case Or => BranchIsCalm(e, f, seeds.Keys);
  }

  lemma {:induction false} BranchIsCalm(e: Event, f: Filter, keys: set<string>)
    requires Supported(f) && BranchDecides(f, keys)
    requires forall g | g in FieldsOf(f) && g !in keys :: GetField(e, g).Comparable()
    ensures Calm(e, f)
    decreases f
  {
    match f.kind
    case Simple =>
    case Not => ComparableIsCalm(e, f);
    case And | Or =>
      forall i | 0 <= i < |f.conditions| ensures Calm(e, f.conditions[i]) {
        SubFields(f, i);
        BranchIsCalm(e, f.conditions[i], keys);
      }
  }

  /** Main result of the scheme: every seeded event is judged to match the filter and carries every seed. */
  lemma {:induction false} SeededEventsMatch(f: Filter, template: Event, seeds: Seeds, order: seq<string>, c: Choices)
    requires Schema(FieldsOf(f) + seeds.Keys) && Supported(f) && SeedsDecide(f, seeds.Keys)
    requires Met(template, f) && Molded(template, f, seeds.Keys) && FromTemplate(seeds, template)
    requires IsOrderOf(order, seeds.Keys) && forall g | g in seeds :: seeds[g] != Nil
    ensures var r := CreateSeeded(f, seeds, order, c);
            && r.Some? && Conforms(r.value, FieldsOf(f) + seeds.Keys)
            && Passes(r.value, f) && Holds(r.value, f) && HoldsSeeds(r.value, seeds)
  {
    var fields := FieldsOf(f) + seeds.Keys;
    EmptyNameIsOutside(seeds, fields);
    TemplateSeedsSuit(f, template, seeds);
    forall g | g in order ensures g in seeds { assert g in Members(order); }
    WriteSeedsHolds(EMPTY, seeds, order, fields);
    var e := WriteSeeds(EMPTY, seeds, order).value;
    forall g | g in seeds ensures GetField(e, g) == seeds[g] { assert g in Members(order); }
    SeededSound(e, f, seeds, [], c, fields);
    var r := CreateSeeded(f, seeds, order, c).value;
    forall g | g in FieldsOf(f) && g !in seeds ensures GetField(r, g).Comparable() {
      assert Tidy(e, r, FieldsOf(f), g);
      assert g !in Members(order);
    }
    SeededIsCalm(r, f, seeds);
    DecidedAndCalm(r, f);
  }

  /** Nothing is left for applyGroupByValues to fill in. */
  lemma {:induction false} FillKeepsSeeded(e: Event, seeds: Seeds, order: seq<string>)
    requires HoldsSeeds(e, seeds) && (forall g | g in seeds :: seeds[g] != Nil)
    requires forall g | g in order :: g in seeds
    ensures FillGroupBy(e, seeds, order) == Some(e)
  {
    if order != [] {
      var init := order[..|order| - 1];
      assert forall g | g in init :: g in order;
      FillKeepsSeeded(e, seeds, init);
    }
  }

  /** Filling in keeps every field that holds something and sets the missing ones to their seed. */
  lemma {:induction false} FillHolds(e: Event, seeds: Seeds, order: seq<string>, fields: set<string>)
    requires Schema(fields) && Conforms(e, fields) && seeds.Keys <= fields
    requires forall g | g in order :: g in seeds
    ensures var r := FillGroupBy(e, seeds, order);
            && r.Some? && Conforms(r.value, fields)
            && (forall g | g in fields && (Has(e, g) || g !in order) :: GetField(r.value, g) == GetField(e, g))
            && (forall g | g in order && !Has(e, g) :: GetField(r.value, g) == seeds[g])
    decreases |order|
  {
    if order != [] {
      var init, last := order[..|order| - 1], order[|order| - 1];
      assert order == init + [last];
      forall g | g in init ensures g in order {}
      FillHolds(e, seeds, init, fields);
      var e' := FillGroupBy(e, seeds, init).value;
      assert last in order && last in fields;
      if !Has(e', last) {
        SetConforms(e', fields, last, seeds[last]);
      }
    }
  }
}
