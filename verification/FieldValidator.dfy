/** Validation and extraction as the source does them: recursion over the rule that fills one shared collection. */
module FieldValidator {
  import opened Events
  import opened FieldRules
  import opened Filters
  import opened Wrappers

  lemma {:induction false} Regroup<T>(s: seq<T>, a: seq<T>, b: seq<T>)
    ensures (s + a) + b == s + (a + b)
  {}

  class ValidationError {
    var invalidFields: seq<InvalidField>

    constructor ()
      ensures invalidFields == []
    {
      invalidFields := [];
    }

    method CheckField(t: Table, path: string, location: string)
      modifies this
      ensures invalidFields == old(invalidFields) + Check(t, path, location)
    {
      if !IsValidField(t, path) {
        invalidFields := invalidFields + [InvalidField(path, location)];
      }
    }

    method CheckOwn(t: Table, j: Json, key: string, location: string)
      modifies this
      ensures invalidFields == old(invalidFields) + Own(t, j, key, location)
    {
      var field := TextAt(j, key);
      if field.Some? {
        CheckField(t, field.value, location);
      }
    }

    method ValidateFilter(t: Table, filter: Json, location: string)
      modifies this
      ensures invalidFields == old(invalidFields) + InvalidIn(t, filter, location)
      decreases filter
    {
      CheckOwn(t, filter, "field", location);
      var conditions := ListAt(filter, "conditions");
      ghost var before := invalidFields;
      for i := 0 to |conditions|
        invariant invalidFields == before + InvalidAmong(t, filter, conditions[..i], location)
      {
        ghost var found := InvalidAmong(t, filter, conditions[..i], location);
        if conditions[i].Object? {
          ValidateFilter(t, conditions[i], At(location, "conditions", i));
          Regroup(before, found, InvalidIn(t, conditions[i], At(location, "conditions", i)));
        }
        assert conditions[..i + 1][..i] == conditions[..i];
        assert InvalidAmong(t, filter, conditions[..i + 1], location) ==
               found + if conditions[i].Object? then InvalidIn(t, conditions[i], At(location, "conditions", i)) else [];
        Regroup(before, found, []);
      }
      assert conditions[..|conditions|] == conditions;
      Regroup(old(invalidFields), Own(t, filter, "field", location), InvalidAmong(t, filter, conditions, location));
    }

    method ValidateModel(t: Table, model: Json)
      modifies this
      ensures invalidFields == old(invalidFields) + InvalidInModel(t, model)
    {
      var params := ObjectAt(model, "parameters");
      ghost var start := invalidFields;
      ValidateGroupBy(t, ListAt(params, "group_by"));
      ghost var a := InvalidTexts(t, ListAt(params, "group_by"), "model.parameters.group_by");
      CheckOwn(t, params, "field", "model.parameters.field");
      ghost var b := Own(t, params, "field", "model.parameters.field");
      ValidateFilter(t, FilterOf(params), "model.parameters.query.filter");
      ghost var c := InvalidIn(t, FilterOf(params), "model.parameters.query.filter");
      ValidateSequence(t, ListAt(params, "sequence"));
      ghost var d := InvalidInSteps(t, ListAt(params, "sequence"));
      Regroup(start, a, b);
      Regroup(start, a + b, c);
      Regroup(start, a + b + c, d);
    }

    method ValidateGroupBy(t: Table, groupBy: seq<Json>)
      modifies this
      ensures invalidFields == old(invalidFields) + InvalidTexts(t, groupBy, "model.parameters.group_by")
    {
      for i := 0 to |groupBy|
        invariant invalidFields == old(invalidFields) + InvalidTexts(t, groupBy[..i], "model.parameters.group_by")
      {
        if groupBy[i].Text? {
          CheckField(t, groupBy[i].text, "model.parameters.group_by");
        }
        assert groupBy[..i + 1][..i] == groupBy[..i];
      }
      assert groupBy[..|groupBy|] == groupBy;
    }

    method ValidateSequence(t: Table, steps: seq<Json>)
      modifies this
      ensures invalidFields == old(invalidFields) + InvalidInSteps(t, steps)
    {
      for i := 0 to |steps|
        invariant invalidFields == old(invalidFields) + InvalidInSteps(t, steps[..i])
      {
        ValidateFilter(t, FilterOf(steps[i]), StepLocation(i));
        assert steps[..i + 1][..i] == steps[..i];
      }
      assert steps[..|steps|] == steps;
    }

    method ValidateView(t: Table, view: Json)
      modifies this
      ensures invalidFields == old(invalidFields) + InvalidOrdered(t, Ordered(ListAt(view, "fields_order")))
    {
      var items := ListAt(view, "fields_order");
      for i := 0 to |items|
        invariant invalidFields == old(invalidFields) + InvalidOrdered(t, Ordered(items[..i]))
      {
        assert items[..i + 1][..i] == items[..i];
        if items[i].Text? && items[i].text !in AGGREGATIONS {
          var field := items[i].text;
          ghost var found := InvalidOrdered(t, Ordered(items[..i]));
          OneMoreOrdered(t, Ordered(items[..i]), field);
          assert Ordered(items[..i + 1]) == Ordered(items[..i]) + [field];
          Regroup(old(invalidFields), found, [InvalidField(field, "view.fields_order")]);
          if !IsValidField(t, "." + field) {
            invalidFields := invalidFields + [InvalidField(field, "view.fields_order")];
          }
        } else {
          assert Ordered(items[..i + 1]) == Ordered(items[..i]);
        }
      }
      assert items[..|items|] == items;
    }
  }

  lemma {:induction false} OneMoreOrdered(t: Table, entries: seq<string>, entry: string)
    ensures InvalidOrdered(t, entries + [entry]) ==
            InvalidOrdered(t, entries) +
            if IsValidField(t, "." + entry) then [] else [InvalidField(entry, "view.fields_order")]
  {
    assert (entries + [entry])[..|entries|] == entries;
  }

  /** None is the nil error of an accepted rule. */
  method ValidateRule(t: Table, model: Json, view: Json) returns (error: Option<ValidationError>)
    ensures error.None? <==> InvalidInRule(t, model, view) == []
    ensures error.Some? ==> error.value.invalidFields == InvalidInRule(t, model, view)
  {
    var ve := new ValidationError();
    ve.ValidateModel(t, model);
    assert [] + InvalidInModel(t, model) == InvalidInModel(t, model);
    ve.ValidateView(t, view);
    assert ve.invalidFields == InvalidInRule(t, model, view);
    error := if ve.invalidFields != [] then Some(ve) else None;
  }

  /** The shared map of ExtractFields. */
  class FieldSet {
    var fields: set<string>

    constructor ()
      ensures fields == {}
    {
      fields := {};
    }

    method ExtractOwn(j: Json, key: string)
      modifies this
      ensures fields == old(fields) + OwnField(j, key)
    {
      var field := TextAt(j, key);
      if field.Some? {
        fields := fields + {field.value};
      }
    }

    method ExtractFromFilter(filter: Json)
      modifies this
      ensures fields == old(fields) + FieldsIn(filter)
      decreases filter, 1
    {
      ExtractOwn(filter, "field");
      ExtractFromConditions(filter, ListAt(filter, "conditions"));
      assert FieldsIn(filter) == OwnField(filter, "field") + FieldsAmong(ListAt(filter, "conditions"));
    }

    method ExtractFromConditions(ghost filter: Json, conditions: seq<Json>)
      requires forall k | 0 <= k < |conditions| :: conditions[k] < filter
      modifies this
      ensures fields == old(fields) + FieldsAmong(conditions)
      decreases filter, 0
    {
      for i := 0 to |conditions|
        invariant fields == old(fields) + FieldsAmong(conditions[..i])
      {
        if conditions[i].Object? {
          ExtractFromFilter(conditions[i]);
        }
        OneMoreCondition(conditions[..i], conditions[i]);
        assert conditions[..i + 1] == conditions[..i] + [conditions[i]];
      }
      assert conditions[..|conditions|] == conditions;
    }

    method ExtractFromModel(model: Json)
      modifies this
      ensures fields == old(fields) + FieldsInModel(model)
    {
      var params := ObjectAt(model, "parameters");
      ExtractTexts(ListAt(params, "group_by"));
      ExtractOwn(params, "field");
      ExtractFromFilter(FilterOf(params));
      ExtractFromSteps(ListAt(params, "sequence"));
    }

    method ExtractTexts(groupBy: seq<Json>)
      modifies this
      ensures fields == old(fields) + TextsIn(groupBy)
    {
      for i := 0 to |groupBy|
        invariant fields == old(fields) + TextsIn(groupBy[..i])
      {
        if groupBy[i].Text? {
          fields := fields + {groupBy[i].text};
        }
        OneMoreText(groupBy[..i], groupBy[i]);
        assert groupBy[..i + 1] == groupBy[..i] + [groupBy[i]];
      }
      assert groupBy[..|groupBy|] == groupBy;
    }

    method ExtractFromSteps(steps: seq<Json>)
      modifies this
      ensures fields == old(fields) + FieldsInSteps(steps)
    {
      for i := 0 to |steps|
        invariant fields == old(fields) + FieldsInSteps(steps[..i])
      {
        ExtractFromFilter(FilterOf(steps[i]));
        OneMoreStep(steps[..i], steps[i]);
        assert steps[..i + 1] == steps[..i] + [steps[i]];
      }
      assert steps[..|steps|] == steps;
    }

    method ExtractFromView(view: Json)
      modifies this
      ensures fields == old(fields) + FieldsInView(view)
    {
      var items := ListAt(view, "fields_order");
      for i := 0 to |items|
        invariant fields == old(fields) + AllDotted(Ordered(items[..i]))
      {
        assert items[..i + 1][..i] == items[..i];
        if items[i].Text? && items[i].text !in AGGREGATIONS {
          OneMoreDotted(Ordered(items[..i]), items[i].text);
          fields := fields + {Dotted(items[i].text)};
        } else {
          assert Ordered(items[..i + 1]) == Ordered(items[..i]);
        }
      }
      assert items[..|items|] == items;
    }
  }

  method ExtractFields(model: Json, view: Json) returns (fields: set<string>)
    ensures fields == FieldsInRule(model, view)
  {
    var found := new FieldSet();
    found.ExtractFromModel(model);
    found.ExtractFromView(view);
    fields := found.fields;
  }

  lemma {:induction false} OneMoreDotted(entries: seq<string>, entry: string)
    ensures AllDotted(entries + [entry]) == AllDotted(entries) + {Dotted(entry)}
  {
    assert forall f :: f in entries + [entry] <==> f in entries || f == entry;
    assert entry in entries + [entry];
  }

  /** parseQueryFilter */
  method ParseQueryFilter(j: Json) returns (r: Result<Filter, string>)
    ensures r == ParseFilter(j)
    decreases j
  {
    var name := TextAt(j, "type");
    if name.Some? {
      var conditions := ListAt(j, "conditions");
      var parsed := [];
      for i := 0 to |conditions|
        invariant ParseAmong(j, conditions[..i]) == Success(parsed)
      {
        assert conditions[..i + 1][..i] == conditions[..i];
        if !conditions[i].Object? {
          FailureStays(j, conditions, i + 1);
          return Failure("condition is not a map");
        }
        var sub := ParseQueryFilter(conditions[i]);
        match sub
        case Failure(e) =>
          FailureStays(j, conditions, i + 1);
          return Failure(e);
        case Success(f) => parsed := parsed + [f];
      }
      assert conditions[..|conditions|] == conditions;
      return Success(Compound(KindNamed(name.value), parsed));
    }
    if TextAt(j, "field").None? {
      return Failure("field not found in filter");
    }
    if TextAt(j, "operator").None? {
      return Failure("operator not found in filter");
    }
    var value := if "value" in j.members then ValueOf(j.members["value"]) else Nil;
    r := Success(Condition(TextAt(j, "field").value, OpNamed(TextAt(j, "operator").value), value));
  }

  /** The first failure is the answer for the whole list. */
  lemma {:induction false} FailureStays(filter: Json, conditions: seq<Json>, k: nat)
    requires k <= |conditions| && forall i | 0 <= i < |conditions| :: conditions[i] < filter
    requires ParseAmong(filter, conditions[..k]).Failure?
    ensures ParseAmong(filter, conditions) == ParseAmong(filter, conditions[..k])
    decreases |conditions| - k
  {
    if k < |conditions| {
      assert conditions[..k + 1][..k] == conditions[..k];
      FailureStays(filter, conditions, k + 1);
    } else {
      assert conditions[..k] == conditions;
    }
  }
}
