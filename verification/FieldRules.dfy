/** The fields a detection rule refers to: how they are validated and extracted, and what a filter can read. */
module FieldRules {
  import opened Events
  import opened Filters
  import opened GoStrings
  import opened Wrappers

  datatype Json =
    | Null
    | Truth(truth: bool)
    | Number(number: real)
    | Text(text: string)
    | List(items: seq<Json>)
    | Object(members: map<string, Json>)

  function TextAt(j: Json, key: string): Option<string> {
    if j.Object? && key in j.members && j.members[key].Text? then Some(j.members[key].text) else None
  }

  function ListAt(j: Json, key: string): (r: seq<Json>)
    ensures forall k | 0 <= k < |r| :: r[k] < j
  {
    if j.Object? && key in j.members && j.members[key].List? then j.members[key].items else []
  }

  /** The object under a key; anything else reads as null. */
  function ObjectAt(j: Json, key: string): Json {
    if j.Object? && key in j.members && j.members[key].Object? then j.members[key] else Null
  }

  /** The table of known field paths and of prefixes under which every path is known. */
  datatype Table = Table(fields: set<string>, prefixes: seq<string>)

  predicate IsValidField(t: Table, path: string) {
    var p := if HasPrefix(path, ".") then path else "." + path;
    p in t.fields || exists prefix | prefix in t.prefixes :: HasPrefix(p, prefix)
  }

  datatype InvalidField = InvalidField(path: string, location: string)

  function Check(t: Table, path: string, location: string): seq<InvalidField> {
    if IsValidField(t, path) then [] else [InvalidField(path, location)]
  }

  function Own(t: Table, j: Json, key: string, location: string): seq<InvalidField> {
    match TextAt(j, key)
    case Some(path) => Check(t, path, location)
    case None => []
  }

  function OwnField(j: Json, key: string): set<string> {
    match TextAt(j, key)
    case Some(path) => {path}
    case None => {}
  }

  // ---- Filters ---------------------------------------------------------------------------------

  /** validateFilter: the invalid fields of a filter and of the conditions below it, in order. */
  function InvalidIn(t: Table, filter: Json, location: string): seq<InvalidField>
    decreases filter, 1, 0
  {
    Own(t, filter, "field", location) + InvalidAmong(t, filter, ListAt(filter, "conditions"), location)
  }

  function InvalidAmong(t: Table, ghost filter: Json, conditions: seq<Json>, location: string): seq<InvalidField>
    requires forall k | 0 <= k < |conditions| :: conditions[k] < filter
    decreases filter, 0, |conditions|
  {
    if conditions == [] then []
    else
      var i := |conditions| - 1;
      InvalidAmong(t, filter, conditions[..i], location) +
      if conditions[i].Object? then InvalidIn(t, conditions[i], At(location, "conditions", i)) else []
  }

  function At(location: string, list: string, i: nat): string {
    location + "." + list + "[" + Itoa(i) + "]"
  }

  /** extractFieldsFromFilter */
  function FieldsIn(filter: Json): set<string>
    decreases filter
  {
    OwnField(filter, "field") +
    set i, f | 0 <= i < |ListAt(filter, "conditions")| && ListAt(filter, "conditions")[i].Object?
               && f in FieldsIn(ListAt(filter, "conditions")[i]) :: f
  }

  ghost predicate AllValid(t: Table, fields: set<string>) {
    forall f | f in fields :: IsValidField(t, f)
  }

  /** A report is complete for some fields when it lists the invalid ones among them and nothing else. */
  ghost predicate Reports(t: Table, report: seq<InvalidField>, fields: set<string>) {
    && (forall x | x in report :: x.path in fields && !IsValidField(t, x.path))
    && (forall f | f in fields && !IsValidField(t, f) :: exists x | x in report :: x.path == f)
  }

  lemma {:induction false} ReportsTogether(t: Table, a: seq<InvalidField>, b: seq<InvalidField>, fs: set<string>,
                                           gs: set<string>)
    requires Reports(t, a, fs) && Reports(t, b, gs)
    ensures Reports(t, a + b, fs + gs)
  {
    forall f | f in fs + gs && !IsValidField(t, f) ensures exists x | x in a + b :: x.path == f {
      if f in fs {
        var x :| x in a && x.path == f;
        assert x in a + b;
      } else {
        var x :| x in b && x.path == f;
        assert x in a + b;
      }
    }
  }

  /** The fields of the first conditions of a list. */
  ghost function FieldsAmong(conditions: seq<Json>): set<string> {
    set i, f | 0 <= i < |conditions| && conditions[i].Object? && f in FieldsIn(conditions[i]) :: f
  }

  lemma {:induction false} OneMoreCondition(conditions: seq<Json>, c: Json)
    ensures FieldsAmong(conditions + [c]) == FieldsAmong(conditions) + if c.Object? then FieldsIn(c) else {}
  {
    var all := conditions + [c];
    forall f | f in FieldsAmong(conditions) ensures f in FieldsAmong(all) {
      var i :| 0 <= i < |conditions| && conditions[i].Object? && f in FieldsIn(conditions[i]);
      assert all[i] == conditions[i];
    }
    assert all[|conditions|] == c;
  }

  lemma {:induction false} FilterReportIsComplete(t: Table, filter: Json, location: string)
    ensures Reports(t, InvalidIn(t, filter, location), FieldsIn(filter))
    decreases filter, 1, 0
  {
    var conditions := ListAt(filter, "conditions");
    AmongReportIsComplete(t, filter, conditions, location);
    assert FieldsIn(filter) == OwnField(filter, "field") + FieldsAmong(conditions);
    var own := Own(t, filter, "field", location);
    OwnReportIsComplete(t, filter, "field", location);
    ReportsTogether(t, own, InvalidAmong(t, filter, conditions, location),
                    OwnField(filter, "field"), FieldsAmong(conditions));
  }

  lemma {:induction false} OwnReportIsComplete(t: Table, j: Json, key: string, location: string)
    ensures Reports(t, Own(t, j, key, location), OwnField(j, key))
  {
    if TextAt(j, key).Some? {
      CheckReportIsComplete(t, TextAt(j, key).value, location);
    }
  }

  lemma {:induction false} CheckReportIsComplete(t: Table, path: string, location: string)
    ensures Reports(t, Check(t, path, location), {path})
  {
    if !IsValidField(t, path) {
      assert InvalidField(path, location) in Check(t, path, location);
    }
  }

  lemma {:induction false} AmongReportIsComplete(t: Table, filter: Json, conditions: seq<Json>, location: string)
    requires forall k | 0 <= k < |conditions| :: conditions[k] < filter
    ensures Reports(t, InvalidAmong(t, filter, conditions, location), FieldsAmong(conditions))
    decreases filter, 0, |conditions|
  {
    if conditions != [] {
      var i := |conditions| - 1;
      var init, last := conditions[..i], conditions[i];
      AmongReportIsComplete(t, filter, init, location);
      if last.Object? {
        FilterReportIsComplete(t, last, At(location, "conditions", i));
        ReportsTogether(t, InvalidAmong(t, filter, init, location), InvalidIn(t, last, At(location, "conditions", i)),
                        FieldsAmong(init), FieldsIn(last));
      }
      OneMoreCondition(init, last);
      assert init + [last] == conditions;
    }
  }

  // ---- Models and views ---------------------------------------------------------------------------

  const AGGREGATIONS := {"event_count", "distinct_count", "count", "sum", "avg", "min", "max"}

  function FilterOf(j: Json): Json {
    ObjectAt(ObjectAt(j, "query"), "filter")
  }

  function InvalidTexts(t: Table, items: seq<Json>, location: string): seq<InvalidField> {
    if items == [] then []
    else
      var last := items[|items| - 1];
      InvalidTexts(t, items[..|items| - 1], location) + if last.Text? then Check(t, last.text, location) else []
  }

  function InvalidInSteps(t: Table, steps: seq<Json>): seq<InvalidField> {
    if steps == [] then []
    else
      var i := |steps| - 1;
      InvalidInSteps(t, steps[..i]) + InvalidIn(t, FilterOf(steps[i]), StepLocation(i))
  }

  function InvalidInModel(t: Table, model: Json): seq<InvalidField> {
    var params := ObjectAt(model, "parameters");
    InvalidTexts(t, ListAt(params, "group_by"), "model.parameters.group_by") +
    Own(t, params, "field", "model.parameters.field") +
    InvalidIn(t, FilterOf(params), "model.parameters.query.filter") +
    InvalidInSteps(t, ListAt(params, "sequence"))
  }

  /** The entries of fields_order that name event fields. */
  function Ordered(items: seq<Json>): seq<string> {
    if items == [] then []
    else
      var last := items[|items| - 1];
      Ordered(items[..|items| - 1]) + if last.Text? && last.text !in AGGREGATIONS then [last.text] else []
  }

  /** Each entry is checked with a dot put before it, and reported without. */
  function InvalidOrdered(t: Table, entries: seq<string>): seq<InvalidField> {
    if entries == [] then []
    else
      var last := entries[|entries| - 1];
      InvalidOrdered(t, entries[..|entries| - 1]) +
      if IsValidField(t, "." + last) then [] else [InvalidField(last, "view.fields_order")]
  }

  function InvalidInRule(t: Table, model: Json, view: Json): seq<InvalidField> {
    InvalidInModel(t, model) + InvalidOrdered(t, Ordered(ListAt(view, "fields_order")))
  }

  function TextsIn(items: seq<Json>): set<string> {
    set i | 0 <= i < |items| && items[i].Text? :: items[i].text
  }

  function FieldsInSteps(steps: seq<Json>): set<string> {
    set i, f | 0 <= i < |steps| && f in FieldsIn(FilterOf(steps[i])) :: f
  }

  function FieldsInModel(model: Json): set<string> {
    var params := ObjectAt(model, "parameters");
    TextsIn(ListAt(params, "group_by")) + OwnField(params, "field") + FieldsIn(FilterOf(params)) +
    FieldsInSteps(ListAt(params, "sequence"))
  }

  function Dotted(field: string): string {
    if HasPrefix(field, ".") then field else "." + field
  }

  function AllDotted(entries: seq<string>): set<string> {
    set f | f in entries :: Dotted(f)
  }

  function FieldsInView(view: Json): set<string> {
    AllDotted(Ordered(ListAt(view, "fields_order")))
  }

  /** ExtractFields */
  function FieldsInRule(model: Json, view: Json): set<string> {
    FieldsInModel(model) + FieldsInView(view)
  }

  lemma {:induction false} OneMoreText(items: seq<Json>, item: Json)
    ensures TextsIn(items + [item]) == TextsIn(items) + if item.Text? then {item.text} else {}
  {
    var all := items + [item];
    forall f | f in TextsIn(items) ensures f in TextsIn(all) {
      var i :| 0 <= i < |items| && items[i].Text? && items[i].text == f;
      assert all[i] == items[i];
    }
    assert all[|items|] == item;
  }

  lemma {:induction false} TextsReportIsComplete(t: Table, items: seq<Json>, location: string)
    ensures Reports(t, InvalidTexts(t, items, location), TextsIn(items))
  {
    if items != [] {
      var init, last := items[..|items| - 1], items[|items| - 1];
      TextsReportIsComplete(t, init, location);
      OneMoreText(init, last);
      assert init + [last] == items;
      if last.Text? {
        CheckReportIsComplete(t, last.text, location);
        ReportsTogether(t, InvalidTexts(t, init, location), Check(t, last.text, location), TextsIn(init), {last.text});
      }
    }
  }

  lemma {:induction false} OneMoreStep(steps: seq<Json>, step: Json)
    ensures FieldsInSteps(steps + [step]) == FieldsInSteps(steps) + FieldsIn(FilterOf(step))
  {
    var all := steps + [step];
    forall f | f in FieldsInSteps(steps) ensures f in FieldsInSteps(all) {
      var i :| 0 <= i < |steps| && f in FieldsIn(FilterOf(steps[i]));
      assert all[i] == steps[i];
    }
    assert all[|steps|] == step;
  }

  function StepLocation(i: nat): string {
    At("model", "parameters.sequence", i) + ".query.filter"
  }

  lemma {:induction false} OneMoreStepReport(t: Table, steps: seq<Json>, step: Json, report: seq<InvalidField>)
    requires Reports(t, report, FieldsInSteps(steps))
    ensures Reports(t, report + InvalidIn(t, FilterOf(step), StepLocation(|steps|)), FieldsInSteps(steps + [step]))
  {
    FilterReportIsComplete(t, FilterOf(step), StepLocation(|steps|));
    OneMoreStep(steps, step);
    ReportsTogether(t, report, InvalidIn(t, FilterOf(step), StepLocation(|steps|)), FieldsInSteps(steps),
                    FieldsIn(FilterOf(step)));
  }

  lemma {:induction false} StepsReportIsComplete(t: Table, steps: seq<Json>)
    ensures Reports(t, InvalidInSteps(t, steps), FieldsInSteps(steps))
  {
    if steps != [] {
      var init, last := steps[..|steps| - 1], steps[|steps| - 1];
      StepsReportIsComplete(t, init);
      OneMoreStepReport(t, init, last, InvalidInSteps(t, init));
      assert init + [last] == steps;
    }
  }

  /** The model part of a validation lists exactly the invalid fields that extraction finds in the model. */
  lemma {:induction false} ModelReportIsComplete(t: Table, model: Json)
    ensures Reports(t, InvalidInModel(t, model), FieldsInModel(model))
  {
    var params := ObjectAt(model, "parameters");
    var groupBy, steps := ListAt(params, "group_by"), ListAt(params, "sequence");
    var a := InvalidTexts(t, groupBy, "model.parameters.group_by");
    var b := Own(t, params, "field", "model.parameters.field");
    var c := InvalidIn(t, FilterOf(params), "model.parameters.query.filter");
    TextsReportIsComplete(t, groupBy, "model.parameters.group_by");
    OwnReportIsComplete(t, params, "field", "model.parameters.field");
    FilterReportIsComplete(t, FilterOf(params), "model.parameters.query.filter");
    StepsReportIsComplete(t, steps);
    ReportsTogether(t, a, b, TextsIn(groupBy), OwnField(params, "field"));
    ReportsTogether(t, a + b, c, TextsIn(groupBy) + OwnField(params, "field"), FieldsIn(FilterOf(params)));
    ReportsTogether(t, a + b + c, InvalidInSteps(t, steps),
                    TextsIn(groupBy) + OwnField(params, "field") + FieldsIn(FilterOf(params)), FieldsInSteps(steps));
  }

  lemma {:induction false} OrderedReport(t: Table, entries: seq<string>)
    ensures InvalidOrdered(t, entries) == [] <==> forall f | f in entries :: IsValidField(t, "." + f)
  {
    if entries != [] {
      var init, last := entries[..|entries| - 1], entries[|entries| - 1];
      OrderedReport(t, init);
      assert entries == init + [last];
    }
  }

  predicate NoDotLed(view: Json) {
    forall f | f in Ordered(ListAt(view, "fields_order")) :: !HasPrefix(f, ".")
  }

  /** No entry of the table begins with two dots. */
  predicate SingleDotted(t: Table) {
    && (forall f | f in t.fields :: !HasPrefix(f, ".."))
    && (forall p | p in t.prefixes :: |p| >= 2 && p[..2] != "..")
  }

  /** When no entry of fields_order begins with a dot, acceptance is exactly that all extracted fields are valid. */
  lemma {:induction false} ValidationAgreesWithExtraction(t: Table, model: Json, view: Json)
    requires NoDotLed(view)
    ensures InvalidInRule(t, model, view) == [] <==> AllValid(t, FieldsInRule(model, view))
  {
    ModelReportIsComplete(t, model);
    var report, entries := InvalidInModel(t, model), Ordered(ListAt(view, "fields_order"));
    OrderedReport(t, entries);
    EmptyReport(t, report, FieldsInModel(model));
    forall f | f in entries ensures Dotted(f) in FieldsInView(view) && Dotted(f) == "." + f {}
  }

  lemma {:induction false} EmptyReport(t: Table, report: seq<InvalidField>, fields: set<string>)
    requires Reports(t, report, fields)
    ensures report == [] <==> AllValid(t, fields)
  {
    if report != [] {
      assert report[0] in report;
    }
  }

  /** For a table like the shipped one, acceptance is: all extracted fields are valid and no entry begins with a dot. */
  lemma {:induction false} ValidationExactly(t: Table, model: Json, view: Json)
    requires SingleDotted(t)
    ensures InvalidInRule(t, model, view) == [] <==> AllValid(t, FieldsInRule(model, view)) && NoDotLed(view)
  {
    if NoDotLed(view) {
      ValidationAgreesWithExtraction(t, model, view);
    } else {
      DotLedIsReported(t, Ordered(ListAt(view, "fields_order")));
      ReportLength(t, model, view);
    }
  }

  lemma {:induction false} ReportLength(t: Table, model: Json, view: Json)
    ensures |InvalidInRule(t, model, view)| ==
            |InvalidInModel(t, model)| + |InvalidOrdered(t, Ordered(ListAt(view, "fields_order")))|
  {}

  lemma {:induction false} DotLedIsReported(t: Table, entries: seq<string>)
    requires SingleDotted(t) && exists f | f in entries :: HasPrefix(f, ".")
    ensures |InvalidOrdered(t, entries)| > 0
  {
    var f :| f in entries && HasPrefix(f, ".");
    TwoDotsAreInvalid(t, f);
    OrderedReport(t, entries);
  }

  lemma {:induction false} TwoDotsAreInvalid(t: Table, f: string)
    requires SingleDotted(t) && HasPrefix(f, ".")
    ensures !IsValidField(t, "." + f)
  {
    var p := "." + f;
    assert p[..2] == "..";
    forall prefix | prefix in t.prefixes ensures !HasPrefix(p, prefix) {
      assert prefix[..2] != p[..2];
    }
  }

  lemma {:induction false} DottedOne(field: string)
    ensures AllDotted([field]) == {Dotted(field)}
  {
    var one := [field];
    assert field in one;
    assert forall f :: f in one ==> f == field;
  }

  function OrderingBy(field: string): Json {
    Object(map["fields_order" := List([Text(field)])])
  }

  lemma {:induction false} OrderedBy(field: string)
    requires field !in AGGREGATIONS
    ensures Ordered(ListAt(OrderingBy(field), "fields_order")) == [field]
  {
    var items := [Text(field)];
    assert ListAt(OrderingBy(field), "fields_order") == items && items[..0] == [];
  }

  lemma {:induction false} NoModelNoFields()
    ensures FieldsInModel(Null) == {}
  {
    var params := ObjectAt(Null, "parameters");
    assert ListAt(params, "group_by") == [] && ListAt(params, "sequence") == [];
  }

  /** So a view that orders by a valid field written with its dot is rejected, though extraction finds nothing wrong. */
  lemma {:induction false} DotLedEntryIsRejected(t: Table, view: Json, field: string)
    requires SingleDotted(t) && HasPrefix(field, ".") && IsValidField(t, field)
    requires Ordered(ListAt(view, "fields_order")) == [field]
    ensures InvalidInRule(t, Null, view) != [] && AllValid(t, FieldsInRule(Null, view))
  {
    DottedIsValid(t, view, field);
    DotLedIsReported(t, [field]);
    ReportLength(t, Null, view);
  }

  /** One such view for every such field. */
  lemma {:induction false} DotLedOrderingIsRejected(t: Table, field: string)
    requires SingleDotted(t) && HasPrefix(field, ".") && IsValidField(t, field)
    ensures InvalidInRule(t, Null, OrderingBy(field)) != [] && AllValid(t, FieldsInRule(Null, OrderingBy(field)))
  {
    assert forall name | name in AGGREGATIONS :: name[0] in {'e', 'd', 'c', 's', 'a', 'm'};
    assert field[0] == '.';
    OrderedBy(field);
    DotLedEntryIsRejected(t, OrderingBy(field), field);
  }

  lemma {:induction false} DottedIsValid(t: Table, view: Json, field: string)
    requires HasPrefix(field, ".") && IsValidField(t, field) && Ordered(ListAt(view, "fields_order")) == [field]
    ensures AllValid(t, FieldsInRule(Null, view))
  {
    DottedOne(field);
    NoModelNoFields();
  }

  // ---- Parsing -----------------------------------------------------------------------------------

  /** An empty `type` is taken for none, so what was parsed as compound counts as a condition on the field "". */
  function KindNamed(name: string): Kind {
    match name
    case "" => Simple
    case "and" => And
    case "or" => Or
    case "not" => Not
    case _ => OtherKind(name)
  }

  function OpNamed(name: string): Op {
    match name
    case "eq" => Eq
    case "ne" => Ne
    case "gt" => Gt
    case "gte" => Gte
    case "lt" => Lt
    case "lte" => Lte
    case "in" => In
    case "contains" => Op.Contains
    case "regex" | "matches" => Regex
    case _ => OtherOp(name)
  }

  /** A decoded JSON value as the checker sees it; objects stay opaque. */
  function ValueOf(j: Json): Value {
    match j
    case Null => Nil
    case Truth(b) => Bool(b)
    case Number(r) => Float(r)
    case Text(s) => Str(s)
    case List(items) => Arr(seq(|items|, i requires 0 <= i < |items| => ValueOf(items[i])))
    case Object(_) => Obj
  }

  /** parseQueryFilter */
  function ParseFilter(j: Json): Result<Filter, string>
    decreases j, 1, 0
  {
    match TextAt(j, "type")
    case Some(name) =>
      (match ParseAmong(j, ListAt(j, "conditions"))
       case Success(conditions) => Success(Compound(KindNamed(name), conditions))
       case Failure(e) => Failure(e))
    case None =>
      if TextAt(j, "field").None? then Failure("field not found in filter")
      else if TextAt(j, "operator").None? then Failure("operator not found in filter")
      else
        var value := if "value" in j.members then ValueOf(j.members["value"]) else Nil;
        Success(Condition(TextAt(j, "field").value, OpNamed(TextAt(j, "operator").value), value))
  }

  function ParseAmong(ghost filter: Json, conditions: seq<Json>): Result<seq<Filter>, string>
    requires forall k | 0 <= k < |conditions| :: conditions[k] < filter
    decreases filter, 0, |conditions|
  {
    if conditions == [] then Success([])
    else
      var i := |conditions| - 1;
      match ParseAmong(filter, conditions[..i])
      case Failure(e) => Failure(e)
      case Success(before) =>
        if !conditions[i].Object? then Failure("condition is not a map")
        else match ParseFilter(conditions[i])
          case Failure(e) => Failure(e)
          case Success(f) => Success(before + [f])
  }

  /** The fields whose values decide a verdict: no condition with an unknown operator looks at its field. */
  function ReadBy(f: Filter): set<string>
    decreases f
  {
    if f.kind.Simple? then (if f.op.OtherOp? then {} else {f.field})
    else set i, g | 0 <= i < |f.conditions| && g in ReadBy(f.conditions[i]) :: g
  }

  /**
   * Every field that a parsed filter reads is among those extracted from its source; the only other one it can
   * name is "", where the source has an empty `type`.
   */
  lemma {:induction false} ParsedFieldsAreExtracted(j: Json)
    ensures ParseFilter(j).Success? ==>
            && ReadBy(ParseFilter(j).value) <= FieldsIn(j)
            && FieldsOf(ParseFilter(j).value) <= FieldsIn(j) + {""}
    decreases j, 1, 0
  {
    if TextAt(j, "type").Some? && ParseFilter(j).Success? {
      var conditions := ListAt(j, "conditions");
      ParsedAmongAreExtracted(j, conditions);
      assert FieldsAmong(conditions) <= FieldsIn(j);
    }
  }

  /** A filter whose `type` is the empty text matches no event, whatever conditions it has. */
  lemma {:induction false} EmptyTypeNeverMatches(j: Json, e: Event)
    requires TextAt(j, "type") == Some("") && ParseFilter(j).Success?
    ensures Judge(e, ParseFilter(j).value) == Some(false)
  {
    assert ParseFilter(j).value.op == OtherOp("");
  }

  lemma {:induction false} ParsedAmongAreExtracted(filter: Json, conditions: seq<Json>)
    requires forall k | 0 <= k < |conditions| :: conditions[k] < filter
    ensures ParseAmong(filter, conditions).Success? ==>
            forall i | 0 <= i < |ParseAmong(filter, conditions).value| ::
              && ReadBy(ParseAmong(filter, conditions).value[i]) <= FieldsAmong(conditions)
              && FieldsOf(ParseAmong(filter, conditions).value[i]) <= FieldsAmong(conditions) + {""}
    decreases filter, 0, |conditions|
  {
    if conditions != [] {
      var k := |conditions| - 1;
      ParsedAmongAreExtracted(filter, conditions[..k]);
      ParsedFieldsAreExtracted(conditions[k]);
      assert FieldsAmong(conditions[..k]) <= FieldsAmong(conditions);
      assert conditions[k].Object? ==> FieldsIn(conditions[k]) <= FieldsAmong(conditions);
    }
  }

  /** The verdict, panics included, depends only on the fields read. */
  lemma {:induction false} VerdictReadsOnlyItsFields(e: Event, other: Event, f: Filter)
    requires forall field | field in ReadBy(f) :: GetField(e, field) == GetField(other, field)
    ensures Judge(e, f) == Judge(other, f)
    decreases f, |f.conditions| + 1
  {
    if !f.kind.Simple? {
      SearchReadsOnlyItsFields(e, other, f, 0, true);
      SearchReadsOnlyItsFields(e, other, f, 0, false);
    }
  }

  lemma {:induction false} SearchReadsOnlyItsFields(e: Event, other: Event, f: Filter, i: nat, wanted: bool)
    requires !f.kind.Simple? && i <= |f.conditions|
    requires forall field | field in ReadBy(f) :: GetField(e, field) == GetField(other, field)
    ensures Search(e, f, i, wanted) == Search(other, f, i, wanted)
    decreases f, |f.conditions| - i
  {
    if i < |f.conditions| {
      assert ReadBy(f.conditions[i]) <= ReadBy(f);
      VerdictReadsOnlyItsFields(e, other, f.conditions[i]);
      SearchReadsOnlyItsFields(e, other, f, i + 1, wanted);
    }
  }

  /** The verdict of an accepted rule's filter depends on valid fields alone. */
  lemma {:induction false} AcceptedRulesReadValidFields(t: Table, model: Json, view: Json, e: Event, other: Event)
    requires InvalidInRule(t, model, view) == []
    requires forall field: string | IsValidField(t, field) :: GetField(e, field) == GetField(other, field)
    ensures
      var parsed := ParseFilter(FilterOf(ObjectAt(model, "parameters")));
      parsed.Success? ==> Judge(e, parsed.value) == Judge(other, parsed.value)
  {
    var filter := FilterOf(ObjectAt(model, "parameters"));
    ModelReportIsComplete(t, model);
    EmptyReport(t, InvalidInModel(t, model), FieldsInModel(model));
    ParsedFieldsAreExtracted(filter);
    if ParseFilter(filter).Success? {
      VerdictReadsOnlyItsFields(e, other, ParseFilter(filter).value);
    }
  }
}
