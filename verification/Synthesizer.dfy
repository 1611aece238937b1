/** The event generator itself: recursion and loops that write an event's maps in place. */
module Synthesizer {
  import opened Wrappers
  import opened Events
  import opened EventMaps
  import opened Filters
  import opened ValueGen
  import opened Generation
  import opened Seeding

  /** The event is what the specification says; `ok` is false where the program panics. */
  ghost predicate Yields(ok: bool, ev: EventMap, r: Option<Event>)
    reads ev, ev.nodes.Values
  {
    && (ok <==> r.Some?)
    && (ok ==> ev.Valid() && ev.cells == r.value)
  }

  // ---- A panic ends a pass ----

  lemma {:induction false} ApplyAllStuck(e: Event, f: Filter, i: nat, n: nat, at: Address, c: Choices)
    requires i <= n <= |f.conditions| && ApplyAll(e, f, i, at, c) == None
    ensures ApplyAll(e, f, n, at, c) == None
    decreases n
  {
    if i < n { ApplyAllStuck(e, f, i, n - 1, at, c); }
  }

  lemma {:induction false} DenyAllStuck(e: Event, f: Filter, i: nat, n: nat, at: Address, c: Choices)
    requires i <= n <= |f.conditions| && DenyAll(e, f, i, at, c) == None
    ensures DenyAll(e, f, n, at, c) == None
    decreases n
  {
    if i < n { DenyAllStuck(e, f, i, n - 1, at, c); }
  }

  lemma {:induction false} DenyNestedStuck(e: Event, f: Filter, i: nat, n: nat, at: Address, c: Choices)
    requires i <= n <= |f.conditions| && DenyNested(e, f, i, at, c) == None
    ensures DenyNested(e, f, n, at, c) == None
    decreases n
  {
    if i < n { DenyNestedStuck(e, f, i, n - 1, at, c); }
  }

  lemma {:induction false} DenyFieldsStuck(e: Event, f: Filter, order: seq<string>, i: nat, at: Address, c: Choices)
    requires i <= |order| && DenyFields(e, f, order[..i], at, c) == None
    ensures DenyFields(e, f, order, at, c) == None
    decreases |order|
  {
    if i < |order| {
      assert order[..|order| - 1][..i] == order[..i];
      DenyFieldsStuck(e, f, order[..|order| - 1], i, at, c);
    } else {
      assert order[..i] == order;
    }
  }

  lemma {:induction false} ApplySeededAllStuck(e: Event, f: Filter, i: nat, n: nat, seeds: Seeds, at: Address,
                                               c: Choices)
    requires i <= n <= |f.conditions| && ApplySeededAll(e, f, i, seeds, at, c) == None
    ensures ApplySeededAll(e, f, n, seeds, at, c) == None
    decreases n
  {
    if i < n { ApplySeededAllStuck(e, f, i, n - 1, seeds, at, c); }
  }

  // ---- Methods ----

  /** applyFilterToEvent */
  method ApplyFilter(ev: EventMap, f: Filter, at: Address, c: Choices) returns (ok: bool)
    requires ev.Valid()
    modifies ev, ev.nodes.Values
    ensures Yields(ok, ev, Apply(old(ev.cells), f, at, c))
    ensures ok ==> fresh(ev.nodes.Values - old(ev.nodes.Values))
    decreases f, 2
  {
    match f.kind
    case Simple => ok := ev.SetFieldValue(f.field, SimpleValue(f, at, c));
    case Or =>
      ok := true;
      if |f.conditions| > 0 {
        var selected := c.pick(at, "", 0) % |f.conditions|;
        ok := ApplyFilter(ev, f.conditions[selected], at + [selected], c);
      }
    case Not => ok := ApplyNonMatchingConditions(ev, f, at, c);
    case _ => ok := ApplyEach(ev, f, at, c);
  }

  /** Its loop over the conditions of an `and`. */
  method ApplyEach(ev: EventMap, f: Filter, at: Address, c: Choices) returns (ok: bool)
    requires ev.Valid()
    modifies ev, ev.nodes.Values
    ensures Yields(ok, ev, ApplyAll(old(ev.cells), f, |f.conditions|, at, c))
    ensures ok ==> fresh(ev.nodes.Values - old(ev.nodes.Values))
    decreases f, 0
  {
    ghost var e := ev.cells;
    for i := 0 to |f.conditions|
      invariant ev.Valid() && ApplyAll(e, f, i, at, c) == Some(ev.cells)
      invariant fresh(ev.nodes.Values - old(ev.nodes.Values))
    {
      ok := ApplyFilter(ev, f.conditions[i], at + [i], c);
      if !ok {
        ApplyAllStuck(e, f, i + 1, |f.conditions|, at, c);
        return;
      }
    }
    ok := true;
  }

  /** The generated text is written, unless generating it panicked. */
  method WriteText(ev: EventMap, field: string, text: Option<string>) returns (ok: bool)
    requires ev.Valid()
    modifies ev, ev.nodes.Values
    ensures Yields(ok, ev, SetText(old(ev.cells), field, text))
    ensures ok ==> fresh(ev.nodes.Values - old(ev.nodes.Values))
  {
    match text
    case None => ok := false;
    case Some(s) => ok := ev.SetFieldValue(field, Str(s));
  }

  /** applyNonMatchingFilter */
  method ApplyNonMatchingFilter(ev: EventMap, f: Filter, at: Address, c: Choices) returns (ok: bool)
    requires ev.Valid()
    modifies ev, ev.nodes.Values
    ensures Yields(ok, ev, Deny(old(ev.cells), f, at, c))
    ensures ok ==> fresh(ev.nodes.Values - old(ev.nodes.Values))
    decreases f, 1
  {
    match f.kind
    case Simple => ok := WriteText(ev, f.field, FailingSimpleText(f, at, c));
    case And | Or => ok := DenyEach(ev, f, at, c);
    case _ => ok := ApplyNonMatchingConditions(ev, f, at, c);
  }

  /** Its loop over the conditions of an `and` or `or`. */
  method DenyEach(ev: EventMap, f: Filter, at: Address, c: Choices) returns (ok: bool)
    requires ev.Valid()
    modifies ev, ev.nodes.Values
    ensures Yields(ok, ev, DenyAll(old(ev.cells), f, |f.conditions|, at, c))
    ensures ok ==> fresh(ev.nodes.Values - old(ev.nodes.Values))
    decreases f, 0
  {
    ghost var e := ev.cells;
    for i := 0 to |f.conditions|
      invariant ev.Valid() && DenyAll(e, f, i, at, c) == Some(ev.cells)
      invariant fresh(ev.nodes.Values - old(ev.nodes.Values))
    {
      ok := ApplyNonMatchingFilter(ev, f.conditions[i], at + [i], c);
      if !ok {
        DenyAllStuck(e, f, i + 1, |f.conditions|, at, c);
        return;
      }
    }
    ok := true;
  }

  /** applyNonMatchingConditions: compound conditions at once, then one value per grouped field. */
  method ApplyNonMatchingConditions(ev: EventMap, f: Filter, at: Address, c: Choices) returns (ok: bool)
    requires ev.Valid()
    modifies ev, ev.nodes.Values
    ensures Yields(ok, ev, ApplyNot(old(ev.cells), f, at, c))
    ensures ok ==> fresh(ev.nodes.Values - old(ev.nodes.Values))
    decreases f, 0
  {
    ghost var e := ev.cells;
    for i := 0 to |f.conditions|
      invariant ev.Valid() && DenyNested(e, f, i, at, c) == Some(ev.cells)
      invariant fresh(ev.nodes.Values - old(ev.nodes.Values))
    {
      if f.conditions[i].field == "" && !f.conditions[i].kind.Simple? {
        ok := ApplyNonMatchingFilter(ev, f.conditions[i], at + [i], c);
        if !ok {
          DenyNestedStuck(e, f, i + 1, |f.conditions|, at, c);
          return;
        }
      }
    }
    ok := ApplyFailingTexts(ev, f, FieldOrder(f, at, c), at, c);
  }

  /** One value per grouped field that fails all its conditions. */
  method ApplyFailingTexts(ev: EventMap, f: Filter, order: seq<string>, at: Address, c: Choices) returns (ok: bool)
    requires ev.Valid()
    modifies ev, ev.nodes.Values
    ensures Yields(ok, ev, DenyFields(old(ev.cells), f, order, at, c))
    ensures ok ==> fresh(ev.nodes.Values - old(ev.nodes.Values))
  {
    ghost var e := ev.cells;
    for i := 0 to |order|
      invariant ev.Valid() && DenyFields(e, f, order[..i], at, c) == Some(ev.cells)
      invariant fresh(ev.nodes.Values - old(ev.nodes.Values))
    {
      var g := order[i];
      assert order[..i + 1][..i] == order[..i];
      ok := WriteText(ev, g, FailingText(g, WithField(f.conditions, g), at, c));
      if !ok {
        DenyFieldsStuck(e, f, order, i + 1, at, c);
        return;
      }
    }
    assert order[..|order|] == order;
    ok := true;
  }

  /** applyFilterToEventWithSeed */
  method ApplyFilterWithSeed(ev: EventMap, f: Filter, seeds: Seeds, at: Address, c: Choices) returns (ok: bool)
    requires ev.Valid()
    modifies ev, ev.nodes.Values
    ensures Yields(ok, ev, ApplySeeded(old(ev.cells), f, seeds, at, c))
    ensures ok ==> fresh(ev.nodes.Values - old(ev.nodes.Values))
    decreases f, 1
  {
    match f.kind
    case Simple =>
      var useSeed := SeedFor(f, seeds);
      if useSeed.None? {
        ok := false;
      } else if useSeed.value && f.field in seeds {
        ok := ev.SetFieldValue(f.field, seeds[f.field]);
      } else {
        ok := ev.SetFieldValue(f.field, SimpleValue(f, at, c));
      }
    case Or =>
      ok := true;
      if |f.conditions| > 0 {
        var selected := BranchFor(f, seeds, at, c);
        if selected.None? {
          ok := false;
        } else {
          ok := ApplyFilterWithSeed(ev, f.conditions[selected.value], seeds, at + [selected.value], c);
        }
      }
    case Not => ok := ApplyNonMatchingConditions(ev, f, at, c);
    case _ => ok := ApplyEachWithSeed(ev, f, seeds, at, c);
  }

  /** Its loop over the conditions of an `and`. */
  method ApplyEachWithSeed(ev: EventMap, f: Filter, seeds: Seeds, at: Address, c: Choices) returns (ok: bool)
    requires ev.Valid()
    modifies ev, ev.nodes.Values
    ensures Yields(ok, ev, ApplySeededAll(old(ev.cells), f, |f.conditions|, seeds, at, c))
    ensures ok ==> fresh(ev.nodes.Values - old(ev.nodes.Values))
    decreases f, 0
  {
    ghost var e := ev.cells;
    for i := 0 to |f.conditions|
      invariant ev.Valid() && ApplySeededAll(e, f, i, seeds, at, c) == Some(ev.cells)
      invariant fresh(ev.nodes.Values - old(ev.nodes.Values))
    {
      ok := ApplyFilterWithSeed(ev, f.conditions[i], seeds, at + [i], c);
      if !ok {
        ApplySeededAllStuck(e, f, i + 1, |f.conditions|, seeds, at, c);
        return;
      }
    }
    ok := true;
  }

  /** createEventMatchingFilter */
  method CreateEventMatchingFilter(f: Filter, c: Choices) returns (ok: bool, ev: EventMap)
    ensures fresh(ev) && (ok ==> fresh(ev.nodes.Values))
    ensures Yields(ok, ev, CreateEvent(f, c))
  {
    ev := new EventMap();
    ok := ApplyFilter(ev, f, [], c);
  }

  /** The seeds written one after the other. */
  method PopulateSeeds(ev: EventMap, seeds: Seeds, order: seq<string>) returns (ok: bool)
    requires ev.Valid() && forall g | g in order :: g in seeds
    modifies ev, ev.nodes.Values
    ensures Yields(ok, ev, WriteSeeds(old(ev.cells), seeds, order))
    ensures ok ==> fresh(ev.nodes.Values - old(ev.nodes.Values))
  {
    ghost var e := ev.cells;
    for i := 0 to |order|
      invariant ev.Valid() && WriteSeeds(e, seeds, order[..i]) == Some(ev.cells)
      invariant fresh(ev.nodes.Values - old(ev.nodes.Values))
    {
      assert order[..i + 1][..i] == order[..i];
      ok := ev.SetFieldValue(order[i], seeds[order[i]]);
      if !ok {
        WriteSeedsStuck(e, seeds, order, i + 1);
        return;
      }
    }
    assert order[..|order|] == order;
    ok := true;
  }

  lemma {:induction false} WriteSeedsStuck(e: Event, seeds: Seeds, order: seq<string>, i: nat)
    requires i <= |order| && forall g | g in order :: g in seeds
    requires WriteSeeds(e, seeds, order[..i]) == None
    ensures WriteSeeds(e, seeds, order) == None
    decreases |order|
  {
    if i < |order| {
      assert order[..|order| - 1][..i] == order[..i];
      WriteSeedsStuck(e, seeds, order[..|order| - 1], i);
    } else {
      assert order[..i] == order;
    }
  }

  /** createEventMatchingFilterWithSeed */
  method CreateEventMatchingFilterWithSeed(f: Filter, seeds: Seeds, order: seq<string>, c: Choices)
    returns (ok: bool, ev: EventMap)
    requires IsOrderOf(order, seeds.Keys)
    ensures fresh(ev) && (ok ==> fresh(ev.nodes.Values))
    ensures Yields(ok, ev, CreateSeeded(f, seeds, order, c))
  {
    ev := new EventMap();
    assert forall g | g in order :: g in Members(order);
    ok := PopulateSeeds(ev, seeds, order);
    if ok {
      ok := ApplyFilterWithSeed(ev, f, seeds, [], c);
    }
  }

  /** applyGroupByValues */
  method ApplyGroupByValues(ev: EventMap, seeds: Seeds, order: seq<string>) returns (ok: bool)
    requires ev.Valid() && forall g | g in order :: g in seeds
    modifies ev, ev.nodes.Values
    ensures Yields(ok, ev, FillGroupBy(old(ev.cells), seeds, order))
    ensures ok ==> fresh(ev.nodes.Values - old(ev.nodes.Values))
  {
    ghost var e := ev.cells;
    for i := 0 to |order|
      invariant ev.Valid() && FillGroupBy(e, seeds, order[..i]) == Some(ev.cells)
      invariant fresh(ev.nodes.Values - old(ev.nodes.Values))
    {
      assert order[..i + 1][..i] == order[..i];
      var existing := ev.GetFieldValue(order[i]);
      if existing == Nil {
        ok := ev.SetFieldValue(order[i], seeds[order[i]]);
        if !ok {
          FillGroupByStuck(e, seeds, order, i + 1);
          return;
        }
      }
    }
    assert order[..|order|] == order;
    ok := true;
  }

  lemma {:induction false} FillGroupByStuck(e: Event, seeds: Seeds, order: seq<string>, i: nat)
    requires i <= |order| && forall g | g in order :: g in seeds
    requires FillGroupBy(e, seeds, order[..i]) == None
    ensures FillGroupBy(e, seeds, order) == None
    decreases |order|
  {
    if i < |order| {
      assert order[..|order| - 1][..i] == order[..i];
      FillGroupByStuck(e, seeds, order[..|order| - 1], i);
    } else {
      assert order[..i] == order;
    }
  }

  /** MatchesFilter; None is a panic. */
  method MatchesFilter(ev: EventMap, f: Filter) returns (matches: Option<bool>)
    requires ev.Valid()
    ensures matches == Judge(ev.cells, f)
    decreases f, 1
  {
    match f.kind
    case Simple =>
      var v := ev.GetFieldValue(f.field);
      matches :=
        if v == Nil then Some(false)
        else if Clashes(v, f.op, f.value) then None
        else Some(Compare(v, f.op, f.value));
    case And =>
      var found := FindCondition(ev, f, false);
      matches := Negate(found);
    case Or => matches := FindCondition(ev, f, true);
    case Not =>
      var found := FindCondition(ev, f, true);
      matches := Negate(found);
    case OtherKind(_) => matches := Some(false);
  }

  /** Its loops over the conditions, which return at the first one with the wanted verdict. */
  method FindCondition(ev: EventMap, f: Filter, wanted: bool) returns (found: Option<bool>)
    requires ev.Valid()
    ensures found == Search(ev.cells, f, 0, wanted)
    decreases f, 0
  {
    for i := 0 to |f.conditions|
      invariant Search(ev.cells, f, 0, wanted) == Search(ev.cells, f, i, wanted)
    {
      var m := MatchesFilter(ev, f.conditions[i]);
      if m.None? {
        return None;
      }
      if m.value == wanted {
        return Some(true);
      }
    }
    found := Some(false);
  }
}
