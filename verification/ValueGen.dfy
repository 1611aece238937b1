/** The values the generator writes for one condition, and when the checker accepts them. */
module ValueGen {
  import opened Wrappers
  import opened GoStrings
  import opened Events
  import opened Filters

  type Address = seq<nat>

  /**
   * Every random draw of one pass over a filter, keyed by the filter node that makes it (the
   * child indices from the root), the field it is for and the number of the attempt; `order` is
   * the iteration order over the fields of a `not`. `render` and `regexText` stand for the texts
   * Go's %v formatting and the regular-expression heuristic produce.
   */
  datatype Choices = Choices(
    pick: (Address, string, nat) -> nat,
    word: (Address, string, nat) -> string,
    order: Address -> seq<string>,
    render: Value -> string,
    regexText: Value -> string)

  const TRIES: nat := 100

  // ---- Positive conditions ----

  /** What a command line has before and after a wanted text. */
  function CmdLineAround(sub: string): (string, string) {
    var lower := ToLower(sub);
    if || HasPrefix(lower, "invoke-") || HasPrefix(lower, "get-") || HasPrefix(lower, "set-")
       || HasPrefix(lower, "new-") || HasPrefix(lower, "remove-") || HasPrefix(lower, "clear-")
       || HasPrefix(lower, "register-") || HasPrefix(lower, "compress-")
    then ("powershell.exe -ExecutionPolicy Bypass -Command \"", "\"")
    else if || GoStrings.Contains(lower, "wevtutil") || GoStrings.Contains(lower, "schtasks")
            || GoStrings.Contains(lower, "auditpol")
    then ("", " /q")
    else if HasPrefix(sub, "/") || HasPrefix(sub, "C:\\")
    then ("cat ", "")
    else if || GoStrings.Contains(lower, "alloc") || GoStrings.Contains(lower, "memory")
            || GoStrings.Contains(lower, "thread") || GoStrings.Contains(lower, "inject")
    then ("powershell.exe -Command \"[Reflection.Assembly]::LoadWithPartialName('Microsoft.CSharp'); ", "\"")
    else if HasPrefix(sub, "-") || HasPrefix(sub, "/")
    then ("tool.exe ", " argument")
    else ("cmd.exe /c ", "")
  }

  function CmdLineWith(sub: string): (r: string)
    ensures GoStrings.Contains(r, sub)
  {
    var (before, after) := CmdLineAround(sub);
    WrapContains(before, sub, after);
    before + sub + after
  }

  function PathWith(sub: string): (r: string)
    ensures GoStrings.Contains(r, sub)
  {
    var before :=
      if HasPrefix(sub, "/") || HasPrefix(sub, "C:\\") then ""
      else if HasPrefix(sub, ".") then "C:\\Users\\admin\\Documents\\file"
      else "/var/tmp/";
    WrapContains(before, sub, "");
    before + sub + ""
  }

  /** The text built around a wanted substring contains it, whatever the field is called. */
  function ContainingString(field: string, value: Value, c: Choices): (r: string)
    ensures value.Str? ==> GoStrings.Contains(r, value.text)
  {
    if !value.Str? then c.render(value)
    else
      var sub, lower := value.text, ToLower(field);
      if GoStrings.Contains(lower, "cmd_line") || GoStrings.Contains(lower, "cmdline") then CmdLineWith(sub)
      else if GoStrings.Contains(lower, "path") then PathWith(sub)
      else if GoStrings.Contains(lower, "process.name") then
        WrapContains("", sub, "");
        "" + sub + ""
      else
        WrapContains("prefix_", sub, "_suffix");
        "prefix_" + sub + "_suffix"
  }

  /** toFloat64 also knows int64, which the checker's comparison does not. */
  function ToFloat(v: Value): Option<real> {
    if v.Int64? then Some(v.int64_ as real) else Numeric(v)
  }

  /** The value `applySimpleFilter` writes. */
  function SimpleValue(f: Filter, at: Address, c: Choices): Value {
    match f.op
    case In =>
      if f.value.Arr? && |f.value.items| > 0
      then f.value.items[c.pick(at, f.field, 0) % |f.value.items|]
      else f.value
    case Contains => Str(ContainingString(f.field, f.value, c))
    case Regex => Str(c.regexText(f.value))
    case Gt | Gte => if ToFloat(f.value).Some? then Float(ToFloat(f.value).value + 1.0) else f.value
    case Lt | Lte =>
      if ToFloat(f.value).Some? then
        if ToFloat(f.value).value > 1.0 then Float(ToFloat(f.value).value - 1.0) else Int(0)
      else f.value
    case _ => f.value
  }

  /** The conditions the generator can meet. */
  predicate LeafOk(f: Filter) {
    match f.op
    case Eq => f.value.Scalar()
    case In => f.value.Arr? && |f.value.items| > 0 && forall i | 0 <= i < |f.value.items| :: f.value.items[i].Scalar()
    case Contains => f.value.Str?
    case Gt | Gte => Numeric(f.value).Some?
    case Lt => Numeric(f.value).Some? && Numeric(f.value).value > 0.0
    case Lte => Numeric(f.value).Some? && Numeric(f.value).value >= 0.0
    case _ => false
  }

  ghost predicate Accepts(f: Filter, v: Value) {
    v != Nil && Compare(v, f.op, f.value)
  }

  lemma {:induction false} LeafOkIsMet(f: Filter, at: Address, c: Choices)
    requires LeafOk(f)
    ensures Accepts(f, SimpleValue(f, at, c))
  {
    if f.op.In? {
      var i := c.pick(at, f.field, 0) % |f.value.items|;
      assert Equal(f.value.items[i], f.value.items[i]);
    }
  }

  /** The checker accepts every value the generator may draw exactly for the supported conditions. */
  lemma {:induction false} LeafExact(f: Filter)
    ensures (forall at: Address, c: Choices :: Accepts(f, SimpleValue(f, at, c))) <==> LeafOk(f)
  {
    if LeafOk(f) {
      forall at: Address, c: Choices ensures Accepts(f, SimpleValue(f, at, c)) {
        LeafOkIsMet(f, at, c);
      }
    } else {
      var bad := 0;
      if f.op.In? && f.value.Arr? && |f.value.items| > 0 {
        bad :| 0 <= bad < |f.value.items| && !f.value.items[bad].Scalar();
        assert bad % |f.value.items| == bad;
      }
      var c := Constant(bad, "");
      assert !Accepts(f, SimpleValue(f, [], c));
    }
  }

  /** The draws that always answer alike. */
  function Constant(n: nat, w: string): Choices {
    Choices((_, _, _) => n, (_, _, _) => w, _ => [], _ => w, _ => w)
  }

  // ---- Values that must fail ----

  predicate AvoidsAll(s: string, subs: set<string>) {
    forall sub | sub in subs :: !GoStrings.Contains(s, sub)
  }

  /** The first text free of the substrings, as the search loops find it. */
  function FirstAvoiding(texts: seq<string>, subs: set<string>): Option<string> {
    if texts == [] then None
    else if AvoidsAll(texts[0], subs) then Some(texts[0])
    else FirstAvoiding(texts[1..], subs)
  }

  lemma {:induction false} FirstAvoidingIsFirst(texts: seq<string>, subs: set<string>)
    ensures match FirstAvoiding(texts, subs)
            case None => forall t | t in texts :: !AvoidsAll(t, subs)
            case Some(t) => t in texts && AvoidsAll(t, subs)
  {
    if texts != [] {
      FirstAvoidingIsFirst(texts[1..], subs);
    }
  }

  function SafeTexts(field: string): seq<string> {
    var lower := ToLower(field);
    if GoStrings.Contains(lower, "path") then
      ["C:\\Users\\Public\\safe_file.txt", "C:\\Temp\\legitimate.exe", "/home/user/document.txt",
       "/tmp/safe_script.sh", "D:\\Data\\report.pdf"]
    else if GoStrings.Contains(lower, "cmd_line") then
      ["notepad.exe readme.txt", "/usr/bin/ls -la", "python3 script.py", "cat /etc/hosts"]
    else
      ["safe_value_1", "legitimate_data", "normal_content", "standard_entry"]
  }

  function FallbackText(): string { "safe_fallback_value" }
  function FallbackValue(): string { "unique_safe_value" }
  function FallbackListed(): string { "not_in_list_value" }
  function FallbackPart(): string { "safe_value" }

  function Words(field: string, at: Address, c: Choices): seq<string> {
    seq(TRIES, i requires 0 <= i < TRIES => c.word(at, field, i))
  }

  function StringAvoidingAll(field: string, subs: set<string>, at: Address, c: Choices): string {
    match FirstAvoiding(SafeTexts(field), subs)
    case Some(s) => s
    case None =>
      match FirstAvoiding(Words(field, at, c), subs)
      case Some(s) => s
      case None => FallbackText()
  }

  function SafePaths(): seq<string> { ["C:\\Program Files\\legitimate.exe", "/usr/local/bin/safe_program",
                       "C:\\Windows\\System32\\notepad.exe", "/opt/app/service"] }

  /** `generateDifferentValue`, which never looks at the value it is meant to differ from. */
  function DifferentText(field: string, at: Address, try: nat, c: Choices): string {
    var lower := ToLower(field);
    if GoStrings.Contains(lower, "path") then SafePaths()[c.pick(at, field, try) % |SafePaths()|]
    else if GoStrings.Contains(lower, "process.name") then "legitimate_process.exe"
    else c.word(at, field, try)
  }

  /** The first of the tries from `try` on whose text is not to be avoided. */
  function FirstUnlisted(field: string, avoid: set<Value>, try: nat, at: Address, c: Choices): Option<string>
    requires try <= TRIES
    decreases TRIES - try
  {
    if try == TRIES then None
    else
      var candidate := DifferentText(field, at, try, c);
      if Str(candidate) !in avoid then Some(candidate) else FirstUnlisted(field, avoid, try + 1, at, c)
  }

  lemma {:induction false} FirstUnlistedIsUnlisted(field: string, avoid: set<Value>, try: nat, at: Address, c: Choices)
    requires try <= TRIES
    ensures match FirstUnlisted(field, avoid, try, at, c)
            case None => forall t | try <= t < TRIES :: Str(DifferentText(field, at, t, c)) in avoid
            case Some(s) => Str(s) !in avoid && exists t | try <= t < TRIES :: s == DifferentText(field, at, t, c)
    decreases TRIES - try
  {
    if try < TRIES {
      FirstUnlistedIsUnlisted(field, avoid, try + 1, at, c);
    }
  }

  /** The first of 100 draws that is not to be avoided, or the fallback. */
  function Unlisted(field: string, avoid: set<Value>, fallback: string, at: Address, c: Choices): string {
    match FirstUnlisted(field, avoid, 0, at, c)
    case Some(s) => s
    case None => fallback
  }

  function ValueAvoidingAll(field: string, avoid: set<Value>, at: Address, c: Choices): string {
    Unlisted(field, avoid, FallbackValue(), at, c)
  }

  function AvoidedSubs(conds: seq<Filter>): set<string> {
    set i | 0 <= i < |conds| && conds[i].op.Contains? && conds[i].value.Str? :: conds[i].value.text
  }

  function AvoidedValues(conds: seq<Filter>): set<Value> {
    (set i | 0 <= i < |conds| && conds[i].op.Eq? :: conds[i].value) +
    (set i, v | 0 <= i < |conds| && conds[i].op.In? && conds[i].value.Arr? && v in conds[i].value.items :: v)
  }

  /** Values that can be keys of a Go map; hashing a slice or a map panics. */
  predicate Hashable(values: set<Value>) {
    forall v | v in values :: v.Comparable()
  }

  /**
   * `generateValueFailingAllConditions` for the conditions of a `not` on one field. Without substrings to avoid, the
   * values to avoid become keys of a map, which panics (None) when one of them is a list or an object.
   */
  function FailingText(field: string, conds: seq<Filter>, at: Address, c: Choices): Option<string> {
    var subs := AvoidedSubs(conds);
    if subs != {} then Some(StringAvoidingAll(field, subs, at, c))
    else if exists i | 0 <= i < |conds| :: conds[i].op.Eq? || (conds[i].op.In? && conds[i].value.Arr?) then
      if Hashable(AvoidedValues(conds)) then Some(ValueAvoidingAll(field, AvoidedValues(conds), at, c)) else None
    else Some(DifferentText(field, at, 0, c))
  }

  /** The texts `DifferentText` can draw for a field; None when any word can come up. */
  function PossibleTexts(field: string): Option<set<string>> {
    var lower := ToLower(field);
    if GoStrings.Contains(lower, "path") then Some(set s | s in SafePaths())
    else if GoStrings.Contains(lower, "process.name") then Some({"legitimate_process.exe"})
    else None
  }

  /** No text of the avoided ones can come up at all, or the fixed fallback is not one of them. */
  predicate Escapes(field: string, avoid: set<Value>, fallback: string) {
    || Str(fallback) !in avoid
    || (PossibleTexts(field).Some? && forall s | s in PossibleTexts(field).value :: Str(s) !in avoid)
  }

  /** The text that all draws come to when the avoided ones are redrawn up to the fallback; None when draws differ. */
  function OnlyUnlisted(field: string, avoid: set<Value>, fallback: string): Option<string> {
    var lower := ToLower(field);
    if GoStrings.Contains(lower, "path") then
      if forall s | s in SafePaths() :: Str(s) in avoid then Some(fallback) else None
    else if GoStrings.Contains(lower, "process.name") then
      Some(if Str("legitimate_process.exe") in avoid then fallback else "legitimate_process.exe")
    else None
  }

  /** The text that all draws write for a group; None when draws differ. */
  function OnlyText(field: string, conds: seq<Filter>): Option<string> {
    var subs := AvoidedSubs(conds);
    if subs == {} then OnlyUnlisted(field, AvoidedValues(conds), FallbackValue())
    else
      match FirstAvoiding(SafeTexts(field), subs)
      case Some(s) => Some(s)
      case None => if "" in subs then Some(FallbackText()) else None
  }

  /** Values of `ne` conditions: the text has to be that very value. */
  predicate NeMet(field: string, conds: seq<Filter>) {
    forall i | 0 <= i < |conds| && conds[i].op.Ne? ::
      OnlyText(field, conds).Some? && conds[i].value == Str(OnlyText(field, conds).value)
  }

  /**
   * When substrings are avoided, the search ends in a fixed text that is not itself excluded by value, or only
   * words come up and none of those is excluded; otherwise the excluded values are hashable and none of them is
   * drawn.
   */
  predicate ExcludedAvoided(field: string, conds: seq<Filter>) {
    var subs, avoid := AvoidedSubs(conds), AvoidedValues(conds);
    if subs != {} then
      match FirstAvoiding(SafeTexts(field), subs)
      case Some(t) => Str(t) !in avoid
      case None =>
        && AvoidsAll(FallbackText(), subs)
        && forall v | v in avoid && v.Str? :: !AvoidsAll(v.text, subs)
    else Hashable(avoid) && Escapes(field, avoid, FallbackValue())
  }

  /** A group of conditions on one field that a single text can always be made to fail. */
  predicate GroupOk(field: string, conds: seq<Filter>) {
    ExcludedAvoided(field, conds) && NeMet(field, conds)
  }

  /** Generating the text of a group does not panic. */
  predicate Hashes(conds: seq<Filter>) {
    AvoidedSubs(conds) == {} ==> Hashable(AvoidedValues(conds))
  }

  lemma {:induction false} EmptyContainsOnlyEmpty(sub: string)
    ensures GoStrings.Contains("", sub) <==> sub == ""
    ensures sub == "" ==> forall s :: GoStrings.Contains(s, sub)
  {
    if sub == "" {
      forall s ensures GoStrings.Contains(s, sub) { WrapContains("", "", s); assert "" + "" + s == s; }
    }
  }

  lemma {:induction false} OnlyUnlistedIsDrawn(field: string, avoid: set<Value>, fallback: string,
                                               at: Address, c: Choices)
    requires OnlyUnlisted(field, avoid, fallback).Some?
    ensures Unlisted(field, avoid, fallback, at, c) == OnlyUnlisted(field, avoid, fallback).value
    ensures avoid == {} ==> DifferentText(field, at, 0, c) == OnlyUnlisted(field, avoid, fallback).value
  {
    FirstUnlistedIsUnlisted(field, avoid, 0, at, c);
    PossibleTextIsDrawn(field, at, 0, c);
  }

  /** Every draw writes the only text of a group that has one. */
  lemma {:induction false} OnlyTextIsWritten(field: string, conds: seq<Filter>, at: Address, c: Choices)
    requires OnlyText(field, conds).Some? && Hashes(conds)
    ensures FailingText(field, conds, at, c) == OnlyText(field, conds)
  {
    var subs := AvoidedSubs(conds);
    if subs == {} {
      OnlyUnlistedIsDrawn(field, AvoidedValues(conds), FallbackValue(), at, c);
      NothingAvoided(conds);
    } else if FirstAvoiding(SafeTexts(field), subs).None? {
      FirstAvoidingIsFirst(Words(field, at, c), subs);
      EmptyContainsOnlyEmpty("");
    }
  }

  lemma {:induction false} NothingAvoided(conds: seq<Filter>)
    ensures !(exists i | 0 <= i < |conds| :: conds[i].op.Eq? || (conds[i].op.In? && conds[i].value.Arr?)) ==>
            AvoidedValues(conds) == {}
  {}

  /** A length that no avoided text has. */
  lemma {:induction false} BeyondAll(avoid: set<Value>) returns (n: nat)
    ensures forall v | v in avoid && v.Str? :: |v.text| < n
    decreases |avoid|
  {
    n := 0;
    if avoid != {} {
      var v :| v in avoid;
      n := BeyondAll(avoid - {v});
      if v.Str? && n <= |v.text| { n := |v.text| + 1; }
      assert forall w | w in avoid :: w == v || w in avoid - {v};
    }
  }

  lemma {:induction false} OneTextDrawn(field: string, avoid: set<Value>, fallback: string, at: Address, c: Choices,
                                        text: string)
    requires forall try :: DifferentText(field, at, try, c) == text
    ensures Unlisted(field, avoid, fallback, at, c) == if Str(text) in avoid then fallback else text
  {
    FirstUnlistedIsUnlisted(field, avoid, 0, at, c);
    assert Str(DifferentText(field, at, 0, c)) == Str(text);
  }

  /** Two draws that come to different texts. */
  lemma {:induction false} UnlistedVary(field: string, avoid: set<Value>, fallback: string, at: Address)
    returns (c: Choices, d: Choices)
    requires OnlyUnlisted(field, avoid, fallback).None? && forall s | s in SafePaths() :: s != fallback
    ensures Unlisted(field, avoid, fallback, at, c) != Unlisted(field, avoid, fallback, at, d)
    ensures avoid == {} ==> DifferentText(field, at, 0, c) != DifferentText(field, at, 0, d)
  {
    if GoStrings.Contains(ToLower(field), "path") {
      var n: nat :| n < |SafePaths()| && Str(SafePaths()[n]) !in avoid;
      c, d := Constant(n, ""), Constant((n + 1) % |SafePaths()|, "");
      PathsVary(field, avoid, fallback, at, n);
    } else {
      var n := BeyondAll(avoid + {Str(fallback)});
      c, d := Constant(0, seq(n, _ => 'x')), Constant(0, fallback);
      WordsVary(field, avoid, fallback, at, n);
    }
  }

  lemma {:induction false} PathsVary(field: string, avoid: set<Value>, fallback: string, at: Address, n: nat)
    requires GoStrings.Contains(ToLower(field), "path") && forall s | s in SafePaths() :: s != fallback
    requires n < |SafePaths()| && Str(SafePaths()[n]) !in avoid
    ensures var c, d := Constant(n, ""), Constant((n + 1) % |SafePaths()|, "");
            && Unlisted(field, avoid, fallback, at, c) != Unlisted(field, avoid, fallback, at, d)
            && DifferentText(field, at, 0, c) != DifferentText(field, at, 0, d)
  {
    var c, d := Constant(n, ""), Constant((n + 1) % |SafePaths()|, "");
    PathsDiffer(n);
    PathIsDrawn(field, at, n);
    PathIsDrawn(field, at, (n + 1) % |SafePaths()|);
    OneTextDrawn(field, avoid, fallback, at, c, SafePaths()[n]);
    OneTextDrawn(field, avoid, fallback, at, d, SafePaths()[(n + 1) % |SafePaths()|]);
    assert SafePaths()[n] in SafePaths();
  }

  lemma {:induction false} PathIsDrawn(field: string, at: Address, n: nat)
    requires GoStrings.Contains(ToLower(field), "path") && n < |SafePaths()|
    ensures forall try :: DifferentText(field, at, try, Constant(n, "")) == SafePaths()[n]
  {
    assert n % |SafePaths()| == n;
  }

  lemma {:induction false} WordsVary(field: string, avoid: set<Value>, fallback: string, at: Address, n: nat)
    requires PossibleTexts(field).None? && forall v | v in avoid + {Str(fallback)} && v.Str? :: |v.text| < n
    ensures var c, d := Constant(0, seq(n, _ => 'x')), Constant(0, fallback);
            && Unlisted(field, avoid, fallback, at, c) != Unlisted(field, avoid, fallback, at, d)
            && DifferentText(field, at, 0, c) != DifferentText(field, at, 0, d)
  {
    var text := seq(n, _ => 'x');
    assert Str(fallback) in avoid + {Str(fallback)};
    assert |text| > |fallback| && Str(text) !in avoid;
    OneTextDrawn(field, avoid, fallback, at, Constant(0, text), text);
    OneTextDrawn(field, avoid, fallback, at, Constant(0, fallback), fallback);
  }

  lemma {:induction false} PathsDiffer(n: nat)
    requires n < |SafePaths()|
    ensures SafePaths()[n] != SafePaths()[(n + 1) % |SafePaths()|]
  {
    var paths := SafePaths();
    assert paths[0][0] == 'C' && paths[1][1] == 'u' && paths[2][3] == 'W' && paths[3][1] == 'o' && paths[0][3] == 'P';
  }

  lemma {:induction false} FallbacksAreNoPaths()
    ensures forall s | s in SafePaths() :: s != FallbackValue() && s != FallbackListed() && s != ""
  {
    assert forall s | s in SafePaths() :: s[0] == 'C' || s[0] == '/';
  }

  /** For a group without one text there are draws that write different texts. */
  lemma {:induction false} TextsVary(field: string, conds: seq<Filter>, at: Address) returns (c: Choices, d: Choices)
    requires OnlyText(field, conds).None? && Hashes(conds)
    ensures FailingText(field, conds, at, c).Some? && FailingText(field, conds, at, d).Some?
    ensures FailingText(field, conds, at, c) != FailingText(field, conds, at, d)
  {
    var subs := AvoidedSubs(conds);
    if subs == {} {
      FallbacksAreNoPaths();
      NothingAvoided(conds);
      c, d := UnlistedVary(field, AvoidedValues(conds), FallbackValue(), at);
    } else {
      c, d := Constant(0, ""), Constant(0, FallbackText());
      forall sub | sub in subs ensures !GoStrings.Contains("", sub) { EmptyContainsOnlyEmpty(sub); }
      ConstantText(field, subs, "", at);
      ConstantText(field, subs, FallbackText(), at);
    }
  }

  /** All draws write one text for a group exactly when `OnlyText` names it, or when all panic. */
  lemma {:induction false} OnlyTextExactly(field: string, conds: seq<Filter>, at: Address)
    ensures (forall c, d :: FailingText(field, conds, at, c) == FailingText(field, conds, at, d)) <==>
            Hashes(conds) ==> OnlyText(field, conds).Some?
  {
    if !Hashes(conds) {
      NothingAvoided(conds);
    } else if OnlyText(field, conds).Some? {
      forall c ensures FailingText(field, conds, at, c) == OnlyText(field, conds) {
        OnlyTextIsWritten(field, conds, at, c);
      }
    } else {
      var c, d := TextsVary(field, conds, at);
    }
  }

  lemma {:induction false} PossibleTextIsDrawn(field: string, at: Address, try: nat, c: Choices)
    ensures PossibleTexts(field).Some? ==> DifferentText(field, at, try, c) in PossibleTexts(field).value
  {}

  lemma {:induction false} UnlistedEscapes(field: string, avoid: set<Value>, at: Address, c: Choices)
    requires Escapes(field, avoid, FallbackValue())
    ensures Str(ValueAvoidingAll(field, avoid, at, c)) !in avoid
  {
    FirstUnlistedIsUnlisted(field, avoid, 0, at, c);
    PossibleTextIsDrawn(field, at, 0, c);
  }

  lemma {:induction false} AvoidingEscapes(field: string, conds: seq<Filter>, at: Address, c: Choices)
    requires ExcludedAvoided(field, conds) && AvoidedSubs(conds) != {}
    ensures var s := StringAvoidingAll(field, AvoidedSubs(conds), at, c);
            AvoidsAll(s, AvoidedSubs(conds)) && Str(s) !in AvoidedValues(conds)
  {
    FirstAvoidingIsFirst(SafeTexts(field), AvoidedSubs(conds));
    FirstAvoidingIsFirst(Words(field, at, c), AvoidedSubs(conds));
  }

  /** A text is written, and it fails the condition without clashing with it. */
  predicate Rejected(text: Option<string>, cond: Filter) {
    text.Some? && !Compare(Str(text.value), cond.op, cond.value)
  }

  lemma {:induction false} TextsNeverClash(s: string, op: Op, w: Value)
    ensures !Clashes(Str(s), op, w)
  {}

  /** The one text written for a field of a `not` fails every condition on that field. */
  lemma {:induction false} FailingTextFails(field: string, conds: seq<Filter>, at: Address, c: Choices)
    requires GroupOk(field, conds)
    ensures FailingText(field, conds, at, c).Some?
    ensures forall i | 0 <= i < |conds| :: Rejected(FailingText(field, conds, at, c), conds[i])
  {
    var s, subs, avoid := FailingText(field, conds, at, c).value, AvoidedSubs(conds), AvoidedValues(conds);
    if subs != {} {
      AvoidingEscapes(field, conds, at, c);
    } else {
      UnlistedEscapes(field, avoid, at, c);
    }
    forall i | 0 <= i < |conds| ensures !Compare(Str(s), conds[i].op, conds[i].value) {
      match conds[i].op
      case Contains => if conds[i].value.Str? { assert conds[i].value.text in subs; }
      case Eq => assert conds[i].value in avoid;
      case In => if conds[i].value.Arr? { NotListed(s, conds, i); }
      case Ne => OnlyTextIsWritten(field, conds, at, c);
      case _ =>
    }
  }

  ghost predicate AlwaysFails(field: string, conds: seq<Filter>) {
    forall at: Address, c: Choices ::
      FailingText(field, conds, at, c).Some? &&
      forall i | 0 <= i < |conds| :: Rejected(FailingText(field, conds, at, c), conds[i])
  }

  /** A text is always written and fails its group exactly for the groups `GroupOk` describes. */
  lemma {:induction false} GroupExact(field: string, conds: seq<Filter>)
    ensures AlwaysFails(field, conds) <==> GroupOk(field, conds)
  {
    if GroupOk(field, conds) {
      forall at: Address, c: Choices
        ensures FailingText(field, conds, at, c).Some?
        ensures forall i | 0 <= i < |conds| :: Rejected(FailingText(field, conds, at, c), conds[i])
      {
        FailingTextFails(field, conds, at, c);
      }
    } else {
      var c := GroupWitness(field, conds);
      assert FailingText(field, conds, [], c).Some? ==>
        exists i | 0 <= i < |conds| :: !Rejected(FailingText(field, conds, [], c), conds[i]);
    }
  }

  lemma {:induction false} NotListed(s: string, conds: seq<Filter>, i: nat)
    requires i < |conds| && conds[i].op.In? && conds[i].value.Arr? && Str(s) !in AvoidedValues(conds)
    ensures !ListHolds(conds[i].value.items, Str(s))
  {
    var items := conds[i].value.items;
    forall k | 0 <= k < |items| ensures Str(s) != items[k] {
      assert items[k] in items;
    }
  }

  /** A text excluded by value is accepted by the condition that excludes it. */
  lemma {:induction false} ExcludedIsAccepted(conds: seq<Filter>, s: string) returns (i: nat)
    requires Str(s) in AvoidedValues(conds)
    ensures i < |conds| && (conds[i].op.Eq? || (conds[i].op.In? && conds[i].value.Arr?))
    ensures Compare(Str(s), conds[i].op, conds[i].value)
  {
    if k :| 0 <= k < |conds| && conds[k].op.Eq? && conds[k].value == Str(s) {
      i := k;
    } else {
      i :| 0 <= i < |conds| && conds[i].op.In? && conds[i].value.Arr? && Str(s) in conds[i].value.items;
      var k :| 0 <= k < |conds[i].value.items| && conds[i].value.items[k] == Str(s);
      assert Equal(Str(s), conds[i].value.items[k]);
    }
  }

  /** Some draws panic or leave a condition of the group holding. */
  lemma {:induction false} GroupWitness(field: string, conds: seq<Filter>) returns (c: Choices)
    requires !GroupOk(field, conds)
    ensures FailingText(field, conds, [], c).None? ||
            exists i | 0 <= i < |conds| :: !Rejected(FailingText(field, conds, [], c), conds[i])
  {
    if ExcludedAvoided(field, conds) {
      c := NeWitness(field, conds);
    } else if AvoidedSubs(conds) == {} {
      c := UnlistedWitness(field, conds);
    } else {
      c := AvoidingWitness(field, conds);
    }
  }

  /** Some draws write another text than an `ne` condition asks for. */
  lemma {:induction false} NeWitness(field: string, conds: seq<Filter>) returns (c: Choices)
    requires Hashes(conds) && !NeMet(field, conds)
    ensures exists i | 0 <= i < |conds| :: !Rejected(FailingText(field, conds, [], c), conds[i])
  {
    var i: nat :| i < |conds| && conds[i].op.Ne?
                  && !(OnlyText(field, conds).Some? && conds[i].value == Str(OnlyText(field, conds).value));
    if OnlyText(field, conds).Some? {
      c := Constant(0, "");
      OnlyTextIsWritten(field, conds, [], c);
    } else {
      var d;
      c, d := TextsVary(field, conds, []);
      if conds[i].value == Str(FailingText(field, conds, [], c).value) { c := d; }
    }
    assert !Rejected(FailingText(field, conds, [], c), conds[i]);
  }

  lemma {:induction false} UnlistedWitness(field: string, conds: seq<Filter>) returns (c: Choices)
    requires AvoidedSubs(conds) == {}
    requires !(Hashable(AvoidedValues(conds)) && Escapes(field, AvoidedValues(conds), FallbackValue()))
    ensures FailingText(field, conds, [], c).None? ||
            exists i | 0 <= i < |conds| :: !Rejected(FailingText(field, conds, [], c), conds[i])
  {
    var avoid, possible := AvoidedValues(conds), PossibleTexts(field);
    if !Hashable(avoid) {
      c := Constant(0, "");
    } else {
      var text := FallbackValue();
      if possible.Some? {
        text :| text in possible.value && Str(text) in avoid;
      }
      c := DrawsOf(field, text);
      var i := ExcludedIsAccepted(conds, FallbackValue());
      FirstUnlistedIsUnlisted(field, avoid, 0, [], c);
      assert FailingText(field, conds, [], c) == Some(FallbackValue());
      assert !Rejected(FailingText(field, conds, [], c), conds[i]);
    }
  }

  lemma {:induction false} AvoidingWitness(field: string, conds: seq<Filter>) returns (c: Choices)
    requires !ExcludedAvoided(field, conds) && AvoidedSubs(conds) != {}
    ensures exists i | 0 <= i < |conds| :: !Rejected(FailingText(field, conds, [], c), conds[i])
  {
    var subs, avoid := AvoidedSubs(conds), AvoidedValues(conds);
    var i;
    if FirstAvoiding(SafeTexts(field), subs).Some? {
      c := Constant(0, "");
      i := ExcludedIsAccepted(conds, FirstAvoiding(SafeTexts(field), subs).value);
    } else if AvoidsAll(FallbackText(), subs) {
      var v :| v in avoid && v.Str? && AvoidsAll(v.text, subs);
      c := Constant(0, v.text);
      ConstantText(field, subs, v.text, []);
      i := ExcludedIsAccepted(conds, v.text);
    } else {
      c := Constant(0, FallbackText());
      ConstantText(field, subs, FallbackText(), []);
      i :| 0 <= i < |conds| && conds[i].op.Contains? && conds[i].value.Str?
           && GoStrings.Contains(FallbackText(), conds[i].value.text);
    }
    assert !Rejected(FailingText(field, conds, [], c), conds[i]);
  }

  /** When no safe text avoids the substrings and only one word comes up, it is that word or the fallback. */
  lemma {:induction false} ConstantText(field: string, subs: set<string>, word: string, at: Address)
    requires FirstAvoiding(SafeTexts(field), subs).None?
    ensures StringAvoidingAll(field, subs, at, Constant(0, word)) ==
            if AvoidsAll(word, subs) then word else FallbackText()
  {
    var words := Words(field, at, Constant(0, word));
    FirstAvoidingIsFirst(words, subs);
    assert words[0] in words;
  }

  // ---- A single negated condition, reached through an `and` or `or` inside a `not` ----

  function Listed(items: seq<Value>): set<Value> {
    set v | v in items
  }

  /** `applyNonMatchingSimpleFilter`; the items of a list become keys of a map, which panics on a list or an object. */
  function FailingSimpleText(f: Filter, at: Address, c: Choices): Option<string> {
    match f.op
    case In =>
      if !f.value.Arr? then Some(DifferentText(f.field, at, 0, c))
      else if !Hashable(Listed(f.value.items)) then None
      else Some(Unlisted(f.field, Listed(f.value.items), FallbackListed(), at, c))
    case Contains => Some(NonContaining(f.field, f.value, at, c))
    case _ => Some(DifferentText(f.field, at, 0, c))
  }

  function SafePath(): string { "C:\\SafePath\\legitimate_file.txt" }
  function SafeCmd(): string { "notepad.exe document.txt" }

  function NonContaining(field: string, value: Value, at: Address, c: Choices): string {
    if !value.Str? then c.word(at, field, 0)
    else
      var sub, lower := value.text, ToLower(field);
      if GoStrings.Contains(lower, "path") && !GoStrings.Contains(SafePath(), sub) then SafePath()
      else if GoStrings.Contains(lower, "cmd_line") && !GoStrings.Contains(SafeCmd(), sub) then SafeCmd()
      else match FirstAvoiding(Words(field, at, c), {sub})
        case Some(s) => s
        case None => FallbackPart()
  }

  /** `eq` is drawn without looking at the excluded value, so only values that cannot be drawn are safe. */
  predicate NegLeafOk(f: Filter) {
    match f.op
    case Eq =>
      || !f.value.Str?
      || (PossibleTexts(f.field).Some? && f.value.text !in PossibleTexts(f.field).value)
    case In => f.value.Arr? ==>
      Hashable(Listed(f.value.items)) && Escapes(f.field, Listed(f.value.items), FallbackListed())
    case Contains =>
      f.value.Str? ==>
        || !GoStrings.Contains(FallbackPart(), f.value.text)
        || (GoStrings.Contains(ToLower(f.field), "path") && !GoStrings.Contains(SafePath(), f.value.text))
        || (GoStrings.Contains(ToLower(f.field), "cmd_line") && !GoStrings.Contains(SafeCmd(), f.value.text))
    case Ne =>
      PossibleTexts(f.field).Some? && forall s | s in PossibleTexts(f.field).value :: f.value == Str(s)
    case _ => true
  }

  lemma {:induction false} FailingSimpleTextFails(f: Filter, at: Address, c: Choices)
    requires NegLeafOk(f)
    ensures Rejected(FailingSimpleText(f, at, c), f)
  {
    match f.op
    case Eq | Ne => PossibleTextIsDrawn(f.field, at, 0, c);
    case In =>
      if f.value.Arr? {
        FirstUnlistedIsUnlisted(f.field, Listed(f.value.items), 0, at, c);
        PossibleTextIsDrawn(f.field, at, 0, c);
      }
    case Contains =>
      if f.value.Str? {
        FirstAvoidingIsFirst(Words(f.field, at, c), {f.value.text});
      }
    case _ =>
  }

  /** Some draws come out as the given text every time. */
  lemma {:induction false} DrawsOf(field: string, text: string) returns (c: Choices)
    requires PossibleTexts(field).None? || text in PossibleTexts(field).value
    ensures forall at: Address, try :: DifferentText(field, at, try, c) == text && c.word(at, field, try) == text
  {
    var n := 0;
    if GoStrings.Contains(ToLower(field), "path") {
      n :| 0 <= n < |SafePaths()| && SafePaths()[n] == text;
    }
    c := Constant(n, text);
  }

  /** Every draw writes a text that fails the condition exactly for the conditions `NegLeafOk` describes. */
  lemma {:induction false} NegLeafExact(f: Filter)
    ensures (forall at: Address, c: Choices :: Rejected(FailingSimpleText(f, at, c), f)) <==> NegLeafOk(f)
  {
    if NegLeafOk(f) {
      forall at: Address, c: Choices ensures Rejected(FailingSimpleText(f, at, c), f) {
        FailingSimpleTextFails(f, at, c);
      }
    } else {
      var c := NegLeafWitness(f);
      assert !Rejected(FailingSimpleText(f, [], c), f);
    }
  }

  /** For every other condition some draws panic or satisfy it. */
  lemma {:induction false} NegLeafWitness(f: Filter) returns (c: Choices)
    requires !NegLeafOk(f)
    ensures !Rejected(FailingSimpleText(f, [], c), f)
  {
    var possible := PossibleTexts(f.field);
    match f.op
    case Eq => c := DrawsOf(f.field, f.value.text);
    case Ne =>
      if possible.Some? {
        var s :| s in possible.value && f.value != Str(s);
        c := DrawsOf(f.field, s);
      } else {
        c := DrawsOf(f.field, if f.value == Str("") then "x" else "");
      }
    case In => c := ListWitness(f);
    case Contains =>
      c := Constant(0, FallbackPart());
      FirstAvoidingIsFirst(Words(f.field, [], c), {f.value.text});
  }

  lemma {:induction false} ListWitness(f: Filter) returns (c: Choices)
    requires f.op.In? && !NegLeafOk(f)
    ensures !Rejected(FailingSimpleText(f, [], c), f)
  {
    var possible, avoid := PossibleTexts(f.field), Listed(f.value.items);
    if !Hashable(avoid) {
      c := Constant(0, "");
    } else {
      var text := FallbackListed();
      if possible.Some? {
        text :| text in possible.value && Str(text) in avoid;
      }
      c := DrawsOf(f.field, text);
      FirstUnlistedIsUnlisted(f.field, avoid, 0, [], c);
      assert FailingSimpleText(f, [], c) == Some(FallbackListed());
      var k :| 0 <= k < |f.value.items| && f.value.items[k] == Str(FallbackListed());
      assert Equal(Str(FallbackListed()), f.value.items[k]);
    }
  }

  /** The text that all draws write to fail a single condition; None when draws differ. */
  function OnlyDenial(f: Filter): Option<string> {
    match f.op
    case In =>
      if f.value.Arr? then OnlyUnlisted(f.field, Listed(f.value.items), FallbackListed())
      else OnlyUnlisted(f.field, {}, "")
    case Contains =>
      if !f.value.Str? then None
      else if GoStrings.Contains(ToLower(f.field), "path") && !GoStrings.Contains(SafePath(), f.value.text) then
        Some(SafePath())
      else if GoStrings.Contains(ToLower(f.field), "cmd_line") && !GoStrings.Contains(SafeCmd(), f.value.text) then
        Some(SafeCmd())
      else if f.value.text == "" then Some(FallbackPart())
      else None
    case _ => OnlyUnlisted(f.field, {}, "")
  }

  predicate HashesItems(f: Filter) {
    f.op.In? && f.value.Arr? ==> Hashable(Listed(f.value.items))
  }

  lemma {:induction false} OnlyDenialIsWritten(f: Filter, at: Address, c: Choices)
    requires OnlyDenial(f).Some? && HashesItems(f)
    ensures FailingSimpleText(f, at, c) == OnlyDenial(f)
  {
    match f.op
    case In =>
      OnlyUnlistedIsDrawn(f.field, if f.value.Arr? then Listed(f.value.items) else {},
                          if f.value.Arr? then FallbackListed() else "", at, c);
    case Contains =>
      FirstAvoidingIsFirst(Words(f.field, at, c), {f.value.text});
      EmptyContainsOnlyEmpty("");
    case _ => OnlyUnlistedIsDrawn(f.field, {}, "", at, c);
  }

  lemma {:induction false} DenialsVary(f: Filter, at: Address) returns (c: Choices, d: Choices)
    requires OnlyDenial(f).None? && HashesItems(f)
    ensures FailingSimpleText(f, at, c).Some? && FailingSimpleText(f, at, d).Some?
    ensures FailingSimpleText(f, at, c) != FailingSimpleText(f, at, d)
  {
    FallbacksAreNoPaths();
    match f.op
    case In =>
      c, d := UnlistedVary(f.field, if f.value.Arr? then Listed(f.value.items) else {},
                           if f.value.Arr? then FallbackListed() else "", at);
    case Contains =>
      c, d := Constant(0, ""), Constant(0, FallbackPart());
      if f.value.Str? {
        EmptyContainsOnlyEmpty(f.value.text);
        ConstantWord(f.field, f.value.text, "", at);
        ConstantWord(f.field, f.value.text, FallbackPart(), at);
      }
    case _ => c, d := UnlistedVary(f.field, {}, "", at);
  }

  lemma {:induction false} ConstantWord(field: string, sub: string, word: string, at: Address)
    ensures FirstAvoiding(Words(field, at, Constant(0, word)), {sub}) ==
            if AvoidsAll(word, {sub}) then Some(word) else None
  {
    var words := Words(field, at, Constant(0, word));
    FirstAvoidingIsFirst(words, {sub});
    assert words[0] in words;
  }
}
