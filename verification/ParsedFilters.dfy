/** What a parsed filter asks for, said of the names and values in its source. */
module ParsedFilters {
  import opened Wrappers
  import opened Events
  import opened Filters
  import opened FieldRules
  import opened GoStrings
  import opened Verdicts

  // ---- Compound filters ----

  /** The conditions of a parsed filter are its source's conditions, parsed one by one in order. */
  ghost predicate ParsedInOrder(conditions: seq<Json>, parsed: seq<Filter>) {
    && |parsed| == |conditions|
    && forall i | 0 <= i < |parsed| :: conditions[i].Object? && ParseFilter(conditions[i]) == Success(parsed[i])
  }

  lemma {:induction false} AmongInOrder(filter: Json, conditions: seq<Json>)
    requires forall k | 0 <= k < |conditions| :: conditions[k] < filter
    ensures ParseAmong(filter, conditions).Success? ==> ParsedInOrder(conditions, ParseAmong(filter, conditions).value)
    decreases |conditions|
  {
    if conditions != [] {
      AmongInOrder(filter, conditions[..|conditions| - 1]);
    }
  }

  /** Which verdict each name of a compound filter asks of its conditions; an unknown name matches nothing. */
  lemma {:induction false} CompoundAsNamed(j: Json, e: Event, name: string)
    requires TextAt(j, "type") == Some(name) && name != "" && ParseFilter(j).Success?
    ensures var f := ParseFilter(j).value;
            && ParsedInOrder(ListAt(j, "conditions"), f.conditions)
            && (name == "and" ==> (Judge(e, f) == Some(true) <==> AllJudged(e, f, |f.conditions|, true)))
            && (name == "or" ==> (Judge(e, f) == Some(false) <==> AllJudged(e, f, |f.conditions|, false)))
            && (name == "not" ==> (Judge(e, f) == Some(true) <==> AllJudged(e, f, |f.conditions|, false)))
            && (name !in {"and", "or", "not"} ==> Judge(e, f) == Some(false))
  {
    var f := ParseFilter(j).value;
    AmongInOrder(j, ListAt(j, "conditions"));
    if name == "and" { AndVerdict(e, f); }
    if name == "or" { OrVerdict(e, f); }
    if name == "not" { NotVerdict(e, f); }
  }

  // ---- Simple conditions ----

  /** The source is a simple condition on the field with this operator and value. */
  predicate IsCondition(j: Json, field: string, operator: string, value: Json) {
    && j.Object? && TextAt(j, "type") == None && TextAt(j, "field") == Some(field)
    && TextAt(j, "operator") == Some(operator) && "value" in j.members && j.members["value"] == value
  }

  /** The named comparisons compare numbers as their names say. */
  lemma {:induction false} ComparedAsNamed(j: Json, e: Event, field: string, operator: string, x: real, y: real)
    requires IsCondition(j, field, operator, Number(y)) && IsNumber(GetField(e, field), x)
    ensures ParseFilter(j).Success?
    ensures var f := ParseFilter(j).value;
            && (operator == "gt" ==> Judge(e, f) == Some(x > y))
            && (operator == "gte" ==> Judge(e, f) == Some(x >= y))
            && (operator == "lt" ==> Judge(e, f) == Some(x < y))
            && (operator == "lte" ==> Judge(e, f) == Some(x <= y))
  {
    NumbersAreCompared(e, field, Float(y), x, y);
  }

  /** `eq`, `ne` and `contains` on texts, and `in` for a list of texts, are what their names say. */
  lemma {:induction false} TextsAsNamed(j: Json, e: Event, field: string, operator: string, s: string, t: string)
    requires IsCondition(j, field, operator, Json.Text(t)) && GetField(e, field) == Str(s)
    ensures ParseFilter(j).Success?
    ensures var f := ParseFilter(j).value;
            && (operator == "eq" ==> Judge(e, f) == Some(s == t))
            && (operator == "ne" ==> Judge(e, f) == Some(s != t))
            && (operator == "contains" ==> Judge(e, f) == Some(exists before, after :: s == before + t + after))
  {
    EqualityIsIdentity(e, field, Str(t));
    ContainsIsOfTexts(e, field, Str(t));
  }

  lemma {:induction false} ListedAsNamed(j: Json, e: Event, field: string, s: string, texts: seq<string>)
    requires IsCondition(j, field, "in", List(seq(|texts|, i requires 0 <= i < |texts| => Json.Text(texts[i]))))
    requires GetField(e, field) == Str(s)
    ensures ParseFilter(j).Success? && Judge(e, ParseFilter(j).value) == Some(s in texts)
  {
    var source := List(seq(|texts|, i requires 0 <= i < |texts| => Json.Text(texts[i])));
    var items := ValueOf(source).items;
    assert |items| == |texts|;
    forall i | 0 <= i < |texts| ensures items[i] == Str(texts[i]) {
      assert source.items[i] == Json.Text(texts[i]) && items[i] == ValueOf(source.items[i]);
    }
    InIsMembership(e, field, items);
    if s in texts {
      var i :| 0 <= i < |texts| && texts[i] == s;
      assert items[i] == Str(s);
    }
  }

  /** Decoded scalars keep their type and value; a number is a float. */
  lemma {:induction false} ScalarsAreDecoded(b: bool, r: real, s: string)
    ensures ValueOf(Truth(b)) == Bool(b) && ValueOf(Number(r)) == Float(r) && ValueOf(Json.Text(s)) == Str(s)
    ensures ValueOf(Null) == Nil
  {}

  /** Regular expressions and unknown operators are parsed and then match nothing. */
  lemma {:induction false} UnknownIsRefused(j: Json, e: Event, field: string, operator: string, value: Json)
    requires IsCondition(j, field, operator, value)
    requires operator !in {"eq", "ne", "gt", "gte", "lt", "lte", "in", "contains"}
    ensures ParseFilter(j).Success? && Judge(e, ParseFilter(j).value) == Some(false)
  {
    OtherwiseRefused(e, field, OpNamed(operator), ValueOf(value));
  }

  /** What is refused: a condition without a field or an operator, and a compound filter with a bad condition. */
  lemma {:induction false} RefusedExactly(j: Json)
    ensures ParseFilter(j).Failure? <==>
            if TextAt(j, "type").Some? then
              exists i | 0 <= i < |ListAt(j, "conditions")| ::
                !ListAt(j, "conditions")[i].Object? || ParseFilter(ListAt(j, "conditions")[i]).Failure?
            else TextAt(j, "field").None? || TextAt(j, "operator").None?
  {
    AmongFails(j, ListAt(j, "conditions"));
  }

  lemma {:induction false} AmongFails(filter: Json, conditions: seq<Json>)
    requires forall k | 0 <= k < |conditions| :: conditions[k] < filter
    ensures ParseAmong(filter, conditions).Failure? <==>
            exists i | 0 <= i < |conditions| :: !conditions[i].Object? || ParseFilter(conditions[i]).Failure?
    decreases |conditions|
  {
    if conditions != [] {
      AmongFails(filter, conditions[..|conditions| - 1]);
    }
  }

  // ---- The fields of a rule, in a rule that has them everywhere ----

  /** A rule with one field in each place a field can stand in. */
  function RuleWith(group: string, count: string, top: string, nested: string, step: string): Json {
    Object(map["parameters" := ParametersWith(group, count, FilterWith(top, nested), FilterWith(step, step))])
  }

  function ParametersWith(group: string, count: string, filter: Json, step: Json): Json {
    Object(map["group_by" := List([Json.Text(group)]), "field" := Json.Text(count),
               "query" := Object(map["filter" := filter]), "sequence" := List([StepWith(step)])])
  }

  lemma {:induction false} ParametersAreRead(group: string, count: string, filter: Json, step: Json)
    requires filter.Object?
    ensures var params := ParametersWith(group, count, filter, step);
            && ListAt(params, "group_by") == [Json.Text(group)] && OwnField(params, "field") == {count}
            && FilterOf(params) == filter && ListAt(params, "sequence") == [StepWith(step)]
  {}

  function FilterWith(field: string, nested: string): Json {
    Object(map["field" := Json.Text(field), "conditions" := List([Object(map["field" := Json.Text(nested)])])])
  }

  lemma {:induction false} FieldsOfFilterWith(field: string, nested: string)
    ensures FieldsIn(FilterWith(field, nested)) == {field, nested}
  {
    var inner := Object(map["field" := Json.Text(nested)]);
    var f := FilterWith(field, nested);
    assert ListAt(f, "conditions") == [inner] && ListAt(inner, "conditions") == [];
    assert FieldsIn(inner) == {nested};
    assert ListAt(f, "conditions")[0] == inner;
  }

  /** Extraction finds them all, in the model and in the view, and nothing else. */
  lemma {:induction false} FieldsAreFound(group: string, count: string, top: string, nested: string, step: string,
                                          shown: string)
    requires shown !in AGGREGATIONS && !("." <= shown)
    ensures FieldsInRule(RuleWith(group, count, top, nested, step), OrderingBy(shown)) ==
            {group, count, top, nested, step, "." + shown}
  {
    ModelFieldsAreFound(group, count, top, nested, step);
    ViewFieldIsFound(shown);
  }

  lemma {:induction false} ModelFieldsAreFound(group: string, count: string, top: string, nested: string, step: string)
    ensures FieldsInModel(RuleWith(group, count, top, nested, step)) == {group, count, top, nested, step}
  {
    FieldsOfParameters(group, count, FilterWith(top, nested), FilterWith(step, step));
    FieldsOfFilterWith(top, nested);
    FieldsOfFilterWith(step, step);
  }

  lemma {:induction false} FieldsOfParameters(group: string, count: string, filter: Json, step: Json)
    requires filter.Object? && step.Object?
    ensures FieldsInModel(Object(map["parameters" := ParametersWith(group, count, filter, step)])) ==
            {group, count} + FieldsIn(filter) + FieldsIn(step)
  {
    ParametersAreRead(group, count, filter, step);
    OneText(group);
    OneStep(step);
  }

  lemma {:induction false} ViewFieldIsFound(shown: string)
    requires shown !in AGGREGATIONS && !("." <= shown)
    ensures FieldsInView(OrderingBy(shown)) == {"." + shown}
  {
    OrderedBy(shown);
    DottedOne(shown);
  }

  lemma {:induction false} OneText(s: string)
    ensures TextsIn([Json.Text(s)]) == {s}
  {
    assert [Json.Text(s)][0].text == s;
  }

  function StepWith(filter: Json): Json {
    Object(map["query" := Object(map["filter" := filter])])
  }

  lemma {:induction false} OneStep(filter: Json)
    requires filter.Object?
    ensures FieldsInSteps([StepWith(filter)]) == FieldsIn(filter)
  {
    assert FilterOf(StepWith(filter)) == filter;
    assert [StepWith(filter)][0] == StepWith(filter);
  }

  /** A path is valid exactly if, with its dot, it is in the table or begins with one of the prefixes. */
  lemma {:induction false} ValidPathsExactly(t: Table, path: string)
    requires path != "" && path[0] == '.'
    ensures IsValidField(t, path) <==>
            path in t.fields || exists prefix, rest :: prefix in t.prefixes && path == prefix + rest
    ensures |path| == 1 || path[1] != '.' ==> (IsValidField(t, path[1..]) <==> IsValidField(t, path))
  {
    assert path == "." + path[1..];
    if prefix :| prefix in t.prefixes && prefix <= path {
      assert path == prefix + path[|prefix|..];
    }
  }

  /** The names of aggregations are no event fields: a view that orders by one is accepted, and nothing is extracted. */
  lemma {:induction false} AggregationIsNoField(t: Table, shown: string)
    requires shown in {"event_count", "distinct_count", "count", "sum", "avg", "min", "max"}
    ensures FieldsInRule(Null, OrderingBy(shown)) == {} && InvalidInRule(t, Null, OrderingBy(shown)) == []
  {
    var items := [Json.Text(shown)];
    assert ListAt(OrderingBy(shown), "fields_order") == items && items[..0] == [];
    assert AllDotted([]) == {};
    NoModelNoFields();
    assert InvalidInModel(t, Null) == [];
  }

  /** Where the reports say that invalid fields were found, in the order of validation. */
  lemma {:induction false} PlacesAreReported(t: Table, group: string, count: string, top: string, nested: string,
                                             step: string, shown: string)
    requires !IsValidField(t, group) && !IsValidField(t, count) && !IsValidField(t, top) && !IsValidField(t, nested)
    requires !IsValidField(t, step) && !IsValidField(t, "." + shown) && shown !in AGGREGATIONS
    ensures InvalidInRule(t, RuleWith(group, count, top, nested, step), OrderingBy(shown)) ==
            PlacesOf(group, count, top, nested, step) + [InvalidField(shown, "view.fields_order")]
  {
    PlacesInFilter(t, top, nested, "model.parameters.query.filter");
    PlacesInFilter(t, step, step, "model.parameters.sequence[0].query.filter");
    PlacesInModel(t, group, count, FilterWith(top, nested), FilterWith(step, step));
    PlaceInView(t, shown);
  }

  function PlacesOf(group: string, count: string, top: string, nested: string, step: string): seq<InvalidField> {
    [InvalidField(group, "model.parameters.group_by"), InvalidField(count, "model.parameters.field")] +
    [InvalidField(top, "model.parameters.query.filter"),
     InvalidField(nested, "model.parameters.query.filter" + ".conditions[0]")] +
    [InvalidField(step, "model.parameters.sequence[0].query.filter"),
     InvalidField(step, "model.parameters.sequence[0].query.filter" + ".conditions[0]")]
  }

  lemma {:induction false} PlaceInView(t: Table, shown: string)
    requires !IsValidField(t, "." + shown) && shown !in AGGREGATIONS
    ensures InvalidOrdered(t, Ordered(ListAt(OrderingBy(shown), "fields_order"))) ==
            [InvalidField(shown, "view.fields_order")]
  {
    OrderedBy(shown);
    assert [shown][..0] == [];
  }

  lemma {:induction false} PlacesInModel(t: Table, group: string, count: string, filter: Json, step: Json)
    requires !IsValidField(t, group) && !IsValidField(t, count) && filter.Object? && step.Object?
    ensures InvalidInModel(t, Object(map["parameters" := ParametersWith(group, count, filter, step)])) ==
            [InvalidField(group, "model.parameters.group_by"), InvalidField(count, "model.parameters.field")] +
            InvalidIn(t, filter, "model.parameters.query.filter") +
            InvalidIn(t, step, "model.parameters.sequence[0].query.filter")
  {
    ParametersAreRead(group, count, filter, step);
    PlaceOfText(t, group, "model.parameters.group_by");
    PlaceOfStep(t, step);
  }

  lemma {:induction false} PlaceOfText(t: Table, path: string, location: string)
    requires !IsValidField(t, path)
    ensures InvalidTexts(t, [Json.Text(path)], location) == [InvalidField(path, location)]
  {
    assert [Json.Text(path)][..0] == [];
  }

  lemma {:induction false} PlaceOfStep(t: Table, filter: Json)
    requires filter.Object?
    ensures InvalidInSteps(t, [StepWith(filter)]) == InvalidIn(t, filter, "model.parameters.sequence[0].query.filter")
  {
    var steps := [StepWith(filter)];
    assert FilterOf(steps[0]) == filter && steps[..0] == [];
    FirstStep();
  }

  lemma {:induction false} FirstStep()
    ensures StepLocation(0) == "model.parameters.sequence[0].query.filter"
  {
    FirstPlaceOf("model", "parameters.sequence");
    assert "model" + "." == "model.";
    assert "model." + "parameters.sequence" == "model.parameters.sequence";
    assert "model.parameters.sequence" + "[0]" == "model.parameters.sequence[0]";
  }

  lemma {:induction false} PlacesInFilter(t: Table, top: string, nested: string, location: string)
    requires !IsValidField(t, top) && !IsValidField(t, nested)
    ensures InvalidIn(t, FilterWith(top, nested), location) ==
            [InvalidField(top, location), InvalidField(nested, location + ".conditions[0]")]
  {
    var f, inner := FilterWith(top, nested), Object(map["field" := Json.Text(nested)]);
    var conditions, place := ListAt(f, "conditions"), At(location, "conditions", 0);
    assert conditions == [inner] && ListAt(inner, "conditions") == [];
    FirstPlace(location);
    assert InvalidIn(t, inner, place) == [InvalidField(nested, place)];
    assert InvalidAmong(t, f, conditions[..0], location) == [];
    assert InvalidAmong(t, f, conditions, location) == InvalidIn(t, inner, place);
  }

  lemma {:induction false} FirstPlaceOf(location: string, list: string)
    ensures At(location, list, 0) == location + "." + list + "[0]"
  {
    assert Itoa(0) == "0";
  }

  lemma {:induction false} FirstPlace(location: string)
    ensures At(location, "conditions", 0) == location + ".conditions[0]"
  {
    FirstPlaceOf(location, "conditions");
    assert ".conditions[0]" == "." + "conditions" + "[0]";
  }
}
