/** What the checker's verdicts say of the values an event holds, in plain comparisons. */
module Verdicts {
  import opened Wrappers
  import opened GoStrings
  import opened Events
  import opened Filters

  // ---- Simple conditions ----

  /** The value is this number; other integer widths are no numbers to the checker. */
  predicate IsNumber(v: Value, x: real) {
    v == Float(x) || (v.Int? && v.int_ as real == x)
  }

  /** Numbers are compared as numbers, an int and a float of the same number alike. */
  lemma {:induction false} NumbersAreCompared(e: Event, field: string, w: Value, x: real, y: real)
    requires IsNumber(GetField(e, field), x) && IsNumber(w, y)
    ensures Judge(e, Condition(field, Gt, w)) == Some(x > y)
    ensures Judge(e, Condition(field, Gte, w)) == Some(x >= y)
    ensures Judge(e, Condition(field, Lt, w)) == Some(x < y)
    ensures Judge(e, Condition(field, Lte, w)) == Some(x <= y)
  {}

  /** The laws that follow: `gte` denies `lt`, `gt` denies `lte`, equal numbers are both, and sides can be swapped. */
  lemma {:induction false} NumberLaws(e: Event, other: Event, field: string, v: Value, w: Value, x: real, y: real)
    requires GetField(e, field) == v && GetField(other, field) == w && IsNumber(v, x) && IsNumber(w, y)
    ensures Passes(e, Condition(field, Gte, w)) <==> !Passes(e, Condition(field, Lt, w))
    ensures Passes(e, Condition(field, Gt, w)) <==> !Passes(e, Condition(field, Lte, w))
    ensures x == y ==> Passes(e, Condition(field, Gte, w)) && Passes(e, Condition(field, Lte, w))
    ensures Passes(e, Condition(field, Gt, w)) <==> Passes(other, Condition(field, Lt, v))
    ensures Passes(e, Condition(field, Gte, w)) <==> Passes(other, Condition(field, Lte, v))
  {
    NumbersAreCompared(e, field, w, x, y);
    NumbersAreCompared(other, field, v, y, x);
  }

  /** Nothing else is compared: a side that is no number is judged not to match. */
  lemma {:induction false} OnlyNumbersAreCompared(e: Event, field: string, op: Op, w: Value)
    requires op.Gt? || op.Gte? || op.Lt? || op.Lte?
    requires (forall x :: !IsNumber(GetField(e, field), x)) || forall y :: !IsNumber(w, y)
    ensures Judge(e, Condition(field, op, w)) == Some(false)
  {
    var v := GetField(e, field);
    assert v.Float? ==> IsNumber(v, v.float_);
    assert v.Int? ==> IsNumber(v, v.int_ as real);
    assert w.Float? ==> IsNumber(w, w.float_);
    assert w.Int? ==> IsNumber(w, w.int_ as real);
  }

  predicate BothLists(v: Value, w: Value) { v.Arr? && w.Arr? }

  predicate BothObjects(v: Value, w: Value) { v.Obj? && w.Obj? }

  /** `eq` is identity of value and type, `ne` its opposite; two lists or two objects cannot be asked. */
  lemma {:induction false} EqualityIsIdentity(e: Event, field: string, w: Value)
    requires GetField(e, field) != Nil
    ensures var v := GetField(e, field);
            var asked := !BothLists(v, w) && !BothObjects(v, w);
            && Judge(e, Condition(field, Eq, w)) == (if asked then Some(v == w) else None)
            && Judge(e, Condition(field, Ne, w)) == (if asked then Some(v != w) else None)
  {}

  /** `in` is membership in a list; a list or an object among the items can be asked of neither. */
  lemma {:induction false} InIsMembership(e: Event, field: string, items: seq<Value>)
    requires GetField(e, field) != Nil
    ensures var v := GetField(e, field);
            Judge(e, Condition(field, In, Arr(items))) ==
            if exists w | w in items :: BothLists(v, w) || BothObjects(v, w) then None else Some(v in items)
  {
    var v := GetField(e, field);
    if w :| w in items && (BothLists(v, w) || BothObjects(v, w)) {
      var i :| 0 <= i < |items| && items[i] == w;
      assert Clash(v, items[i]) && Clashes(v, In, Arr(items));
    } else {
      forall i | 0 <= i < |items| ensures !Clash(v, items[i]) && (Equal(v, items[i]) <==> items[i] == v) {
        assert items[i] in items;
      }
      assert ListHolds(items, v) <==> v in items;
    }
  }

  lemma {:induction false} ContainsIsOccurrence(s: string, sub: string)
    ensures GoStrings.Contains(s, sub) <==> exists before, after :: s == before + sub + after
  {
    if i: nat :| i <= |s| && OccursAt(s, sub, i) {
      assert s == s[..i] + sub + s[i + |sub|..];
    }
    if before, after :| s == before + sub + after { WrapContains(before, sub, after); }
  }

  /** `contains` says that one text occurs in the other; between anything but texts it does not match. */
  lemma {:induction false} ContainsIsOfTexts(e: Event, field: string, w: Value)
    ensures var v := GetField(e, field);
            Judge(e, Condition(field, Contains, w)) ==
            Some(v.Str? && w.Str? && exists before, after :: v.text == before + w.text + after)
  {
    var v := GetField(e, field);
    if v.Str? && w.Str? { ContainsIsOccurrence(v.text, w.text); }
  }

  /** A missing field matches nothing, nor do regular expressions, unknown operators and `in` without a list. */
  lemma {:induction false} OtherwiseRefused(e: Event, field: string, op: Op, w: Value)
    requires GetField(e, field) == Nil || op.Regex? || op.OtherOp? || (op.In? && !w.Arr?)
    ensures Judge(e, Condition(field, op, w)) == Some(false)
  {}

  // ---- Compound filters ----

  /** The first conditions, up to the n-th, all have the verdict. */
  predicate AllJudged(e: Event, f: Filter, n: nat, verdict: bool)
    requires n <= |f.conditions|
  {
    forall j | 0 <= j < n :: Judge(e, f.conditions[j]) == Some(verdict)
  }

  lemma {:induction false} SearchFindsFirst(e: Event, f: Filter, i: nat, wanted: bool)
    requires i <= |f.conditions|
    ensures Search(e, f, i, wanted) == Some(false) <==>
            forall j | i <= j < |f.conditions| :: Judge(e, f.conditions[j]) == Some(!wanted)
    ensures Search(e, f, i, wanted) == Some(true) <==>
            exists k | i <= k < |f.conditions| :: FirstJudged(e, f, i, k, wanted)
    decreases |f.conditions| - i
  {
    if i < |f.conditions| {
      var next := i + 1;
      SearchFindsFirst(e, f, next, wanted);
      if Judge(e, f.conditions[i]) == Some(wanted) {
        assert FirstJudged(e, f, i, i, wanted);
      }
      if k: nat :| i <= k < |f.conditions| && FirstJudged(e, f, i, k, wanted) {
        assert k > i ==> FirstJudged(e, f, next, k, wanted);
      }
      if k: nat :| next <= k < |f.conditions| && FirstJudged(e, f, next, k, wanted)
                   && Judge(e, f.conditions[i]) == Some(!wanted) {
        assert FirstJudged(e, f, i, k, wanted);
      }
    }
  }

  /** From the i-th condition on, the k-th is the first that does not have the opposite verdict, and has the verdict. */
  predicate FirstJudged(e: Event, f: Filter, i: nat, k: nat, verdict: bool)
    requires i <= k < |f.conditions|
  {
    Judge(e, f.conditions[k]) == Some(verdict) && forall j | i <= j < k :: Judge(e, f.conditions[j]) == Some(!verdict)
  }

  /** An `and` matches if every condition does; it fails at the first that does not, if those before it match. */
  lemma {:induction false} AndVerdict(e: Event, f: Filter)
    requires f.kind.And?
    ensures Judge(e, f) == Some(true) <==> AllJudged(e, f, |f.conditions|, true)
    ensures Judge(e, f) == Some(false) <==>
            exists k | 0 <= k < |f.conditions| :: Judge(e, f.conditions[k]) == Some(false) && AllJudged(e, f, k, true)
  {
    SearchFindsFirst(e, f, 0, false);
    forall k: nat | k < |f.conditions|
      ensures FirstJudged(e, f, 0, k, false) <==> Judge(e, f.conditions[k]) == Some(false) && AllJudged(e, f, k, true)
    {}
  }

  /** An `or` matches at the first condition that does, if those before it fail; it fails if every one does. */
  lemma {:induction false} OrVerdict(e: Event, f: Filter)
    requires f.kind.Or?
    ensures Judge(e, f) == Some(true) <==>
            exists k | 0 <= k < |f.conditions| :: Judge(e, f.conditions[k]) == Some(true) && AllJudged(e, f, k, false)
    ensures Judge(e, f) == Some(false) <==> AllJudged(e, f, |f.conditions|, false)
  {
    SearchFindsFirst(e, f, 0, true);
    forall k: nat | k < |f.conditions|
      ensures FirstJudged(e, f, 0, k, true) <==> Judge(e, f.conditions[k]) == Some(true) && AllJudged(e, f, k, false)
    {}
  }

  /** A `not` matches if every condition fails, and fails at the first that matches. */
  lemma {:induction false} NotVerdict(e: Event, f: Filter)
    requires f.kind.Not?
    ensures Judge(e, f) == Some(true) <==> AllJudged(e, f, |f.conditions|, false)
    ensures Judge(e, f) == Some(false) <==>
            exists k | 0 <= k < |f.conditions| :: Judge(e, f.conditions[k]) == Some(true) && AllJudged(e, f, k, false)
  {
    SearchFindsFirst(e, f, 0, true);
    forall k: nat | k < |f.conditions|
      ensures FirstJudged(e, f, 0, k, true) <==> Judge(e, f.conditions[k]) == Some(true) && AllJudged(e, f, k, false)
    {}
  }

  lemma {:induction false} UnknownKindIsRefused(e: Event, f: Filter)
    requires f.kind.OtherKind?
    ensures Judge(e, f) == Some(false)
  {}
}
