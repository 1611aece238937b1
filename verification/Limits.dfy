/** Where the hypotheses of the generator's main result come from: what happens without them. */
module Limits {
  import opened Wrappers
  import opened Events
  import opened Filters
  import opened ValueGen
  import opened Generation
  import opened Outcomes
  import opened Seeding
  import opened Rules

  /** The values a supported condition can write. */
  function Writable(f: Filter): set<Value>
    requires LeafOk(f)
  {
    if f.op.In? then Listed(f.value.items) else {SimpleValue(f, [], Constant(0, ""))}
  }

  lemma {:induction false} WritableIsDrawn(f: Filter, v: Value) returns (n: nat)
    requires LeafOk(f) && v in Writable(f)
    ensures forall at: Address :: SimpleValue(f, at, Constant(n, "")) == v
  {
    n := 0;
    if f.op.In? {
      n :| 0 <= n < |f.value.items| && f.value.items[n] == v;
      assert n % |f.value.items| == n;
    }
  }

  lemma {:induction false} DrawnIsWritable(f: Filter, at: Address, c: Choices)
    requires LeafOk(f)
    ensures SimpleValue(f, at, c) in Writable(f)
  {
    if f.op.In? {
      var i := c.pick(at, f.field, 0) % |f.value.items|;
      assert f.value.items[i] in f.value.items;
    }
  }

  // ---- Everything a draw may choose ----

  /** Every branch of an `or` is served by some draws. */
  lemma {:induction false} EveryBranchIsServed(f: Filter, i: nat) returns (c: Choices)
    requires f.kind.Or? && i < |f.conditions|
    ensures CreateEvent(f, c) == Apply(EMPTY, f.conditions[i], [i], c)
  {
    c := Constant(i, "");
    assert i % |f.conditions| == i && [] + [i] == [i];
  }

  /** Every order over the grouped fields of a `not` comes up. */
  lemma {:induction false} EveryOrderComesUp(f: Filter, at: Address, order: seq<string>) returns (c: Choices)
    requires f.kind.Not? && IsOrderOf(order, NotFields(f))
    ensures FieldOrder(f, at, c) == order
  {
    c := Choices((_, _, _) => 0, (_, _, _) => "", _ => order, _ => "", _ => "");
  }

  /** When no branch of an `or` fits the seeds, every branch is served by some draws. */
  lemma {:induction false} AnyBranchWhenNoneFits(e: Event, f: Filter, seeds: Seeds, at: Address, i: nat)
    returns (c: Choices)
    requires f.kind.Or? && i < |f.conditions|
    requires forall k | 0 <= k < |f.conditions| :: Fit(f.conditions[k], seeds) == Some(false)
    ensures ApplySeeded(e, f, seeds, at, c) == ApplySeeded(e, f.conditions[i], seeds, at + [i], c)
  {
    c := Constant(i, "");
    ThatBranch(f, seeds, at, i);
  }

  lemma {:induction false} ThatBranch(f: Filter, seeds: Seeds, at: Address, i: nat)
    requires i < |f.conditions|
    requires forall k | 0 <= k < |f.conditions| :: Fit(f.conditions[k], seeds) == Some(false)
    ensures BranchFor(f, seeds, at, Constant(i, "")) == Some(i)
  {
    NoBranchFits(f, 0, seeds);
    assert i % |f.conditions| == i;
  }

  lemma {:induction false} NoBranchFits(f: Filter, i: nat, seeds: Seeds)
    requires i <= |f.conditions|
    requires forall k | i <= k < |f.conditions| :: Fit(f.conditions[k], seeds) == Some(false)
    ensures FindBranch(f, i, seeds) == Some(|f.conditions|)
    decreases |f.conditions| - i
  {
    if i < |f.conditions| { NoBranchFits(f, i + 1, seeds); }
  }

  /** Seeds of other fields make no difference outside an `or`. */
  lemma {:induction false} OtherSeedsAreIgnored(e: Event, f: Filter, seeds: Seeds, at: Address, c: Choices)
    requires Supported(f) && OrFree(f) && FieldsOf(f) !! seeds.Keys
    ensures ApplySeeded(e, f, seeds, at, c) == Apply(e, f, at, c)
    decreases f, |f.conditions| + 1
  {
    if f.kind.And? { OtherSeedsAreIgnoredByAll(e, f, |f.conditions|, seeds, at, c); }
  }

  lemma {:induction false} OtherSeedsAreIgnoredByAll(e: Event, f: Filter, n: nat, seeds: Seeds, at: Address, c: Choices)
    requires f.kind.And? && Supported(f) && OrFree(f) && FieldsOf(f) !! seeds.Keys && n <= |f.conditions|
    ensures ApplySeededAll(e, f, n, seeds, at, c) == ApplyAll(e, f, n, at, c)
    decreases f, n
  {
    if n > 0 {
      OtherSeedsAreIgnoredByAll(e, f, n - 1, seeds, at, c);
      SubFields(f, n - 1);
      if ApplyAll(e, f, n - 1, at, c).Some? {
        OtherSeedsAreIgnored(ApplyAll(e, f, n - 1, at, c).value, f.conditions[n - 1], seeds, at + [n - 1], c);
      }
    }
  }

  function Both(a: Filter, b: Filter): Filter {
    Compound(And, [a, b])
  }

  lemma {:induction false} CreateBoth(a: Filter, b: Filter, c: Choices)
    requires a.kind.Simple? && b.kind.Simple?
    ensures CreateEvent(Both(a, b), c) ==
            match SetField(EMPTY, a.field, SimpleValue(a, [0], c))
            case None => None
            case Some(e) => SetField(e, b.field, SimpleValue(b, [1], c))
  {
    var f := Both(a, b);
    assert ApplyAll(EMPTY, f, 0, [], c) == Some(EMPTY);
    assert [] + [0] == [0] && [] + [1] == [1];
    assert ApplyAll(EMPTY, f, 1, [], c) == Apply(EMPTY, a, [0], c);
    assert ApplyAll(EMPTY, f, 2, [], c) ==
           match ApplyAll(EMPTY, f, 1, [], c) case None => None case Some(e) => Apply(e, b, [1], c);
  }

  /**
   * Two conditions of an `and` on one field: the second write wins, so the event always passes
   * exactly when the first condition accepts every value the second can write.
   */
  lemma {:induction false} SharedFieldLastWriteWins(a: Filter, b: Filter)
    requires a.kind.Simple? && b.kind.Simple? && a.field == b.field && PlainField(a.field)
    requires LeafOk(a) && LeafOk(b)
    ensures (forall c: Choices ::
               CreateEvent(Both(a, b), c).Some? && Passes(CreateEvent(Both(a, b), c).value, Both(a, b)))
            <==> (forall v | v in Writable(b) :: Compare(v, a.op, a.value))
  {
    forall c: Choices
      ensures CreateEvent(Both(a, b), c).Some?
      ensures Passes(CreateEvent(Both(a, b), c).value, Both(a, b)) <==>
              Compare(SimpleValue(b, [1], c), a.op, a.value)
    {
      SharedFieldEvent(a, b, c);
    }
    if forall v | v in Writable(b) :: Compare(v, a.op, a.value) {
      forall c: Choices ensures Passes(CreateEvent(Both(a, b), c).value, Both(a, b)) {
        DrawnIsWritable(b, [1], c);
      }
    } else {
      var v :| v in Writable(b) && !Compare(v, a.op, a.value);
      var n := WritableIsDrawn(b, v);
      assert SimpleValue(b, [1], Constant(n, "")) == v;
    }
  }

  lemma {:induction false} SharedFieldEvent(a: Filter, b: Filter, c: Choices)
    requires a.kind.Simple? && b.kind.Simple? && a.field == b.field && PlainField(a.field)
    requires LeafOk(a) && LeafOk(b)
    ensures CreateEvent(Both(a, b), c).Some?
    ensures Passes(CreateEvent(Both(a, b), c).value, Both(a, b)) <==>
            Compare(SimpleValue(b, [1], c), a.op, a.value)
  {
    CreateBoth(a, b, c);
    var v, w := SimpleValue(a, [0], c), SimpleValue(b, [1], c);
    LeafOkIsMet(b, [1], c);
    SetConforms(EMPTY, {a.field}, a.field, v);
    var e := SetField(EMPTY, a.field, v).value;
    SetConforms(e, {a.field}, a.field, w);
    var e' := SetField(e, a.field, w).value;
    PassesBoth(e', a, b);
  }

  lemma {:induction false} PassesBoth(e: Event, a: Filter, b: Filter)
    requires a.kind.Simple? && b.kind.Simple? && LeafOk(a) && LeafOk(b)
    ensures Passes(e, Both(a, b)) <==> Matches(e, a) && Matches(e, b)
  {
    assert Both(a, b).conditions[0] == a && Both(a, b).conditions[1] == b;
    LeafOkIsComparable(a, [], Constant(0, ""));
    LeafOkIsComparable(b, [], Constant(0, ""));
    assert Quiet(Both(a, b));
    QuietIsFirm(e, Both(a, b));
    FirmIsCalm(e, Both(a, b));
    CalmIsJudged(e, Both(a, b));
  }

  /** A condition whose field is then reached into by another one makes the generator panic. */
  lemma {:induction false} ReachingIntoAFieldPanics(a: Filter, b: Filter, c: Choices)
    requires a.kind.Simple? && b.kind.Simple? && PlainField(a.field) && PlainField(b.field)
    requires GetParts(a.field) < GetParts(b.field) && !SimpleValue(a, [0], c).Obj?
    ensures CreateEvent(Both(a, b), c) == None
  {
    CreateBoth(a, b, c);
    WriterAgreesWithReader(a.field);
    WriterAgreesWithReader(b.field);
    var p, q := GetParts(a.field), GetParts(b.field);
    SetConforms(EMPTY, {a.field}, a.field, SimpleValue(a, [0], c));
    var e := SetField(EMPTY, a.field, SimpleValue(a, [0], c)).value;
    assert p == p[..|p|] && p in Prefixes(p);
    assert q[..|p|] == p && e[p].Leaf?;
    assert Blocked(e, q);
  }

  /** In the other order nothing panics, but the second write takes the place of the first one's map. */
  lemma {:induction false} ReachedFieldIsLost(a: Filter, b: Filter, c: Choices)
    requires a.kind.Simple? && b.kind.Simple? && PlainField(a.field) && PlainField(b.field)
    requires GetParts(a.field) < GetParts(b.field) && !SimpleValue(a, [1], c).Obj?
    ensures var f := Both(b, a);
            CreateEvent(f, c).Some? && Judge(CreateEvent(f, c).value, f) == Some(false)
  {
    var f := Both(b, a);
    CreateBoth(b, a, c);
    WriterAgreesWithReader(a.field);
    WriterAgreesWithReader(b.field);
    var p, q := GetParts(a.field), GetParts(b.field);
    SetConforms(EMPTY, {b.field}, b.field, SimpleValue(b, [0], c));
    var e := SetField(EMPTY, b.field, SimpleValue(b, [0], c)).value;
    forall i | 1 <= i < |p| ensures !(p[..i] in e && e[p[..i]].Leaf?) {
      assert p[..i] == q[..i] && q[..i] < q;
    }
    var e' := CreateEvent(f, c).value;
    assert !Has(e', b.field);
    assert f.conditions[0] == b;
    assert Search(e', f, 0, false) == Some(true);
  }

  lemma {:induction false} EmptyOrMember(order: seq<string>)
    ensures order == [] || Members(order) != {}
  {
    if order != [] {
      assert order[0] in Members(order);
    }
  }

  lemma {:induction false} NoGroupedFields(f: Filter, at: Address, c: Choices)
    requires NotFields(f) == {}
    ensures FieldOrder(f, at, c) == []
  {
    EmptyOrMember(FieldOrder(f, at, c));
  }

  lemma {:induction false} NestedNotIsInner(inner: Filter, c: Choices)
    requires inner.kind.Not? && inner.field == ""
    ensures CreateEvent(Compound(Not, [inner]), c) == ApplyNot(EMPTY, inner, [0], c)
  {
    var f := Compound(Not, [inner]);
    assert f.conditions[0] == inner && [] + [0] == [0];
    assert DenyNested(EMPTY, f, 0, [], c) == Some(EMPTY);
    assert DenyNested(EMPTY, f, 1, [], c) == Deny(EMPTY, inner, [0], c);
    NoGroupedFields(f, [], c);
  }

  /** A `not` directly inside a `not` is served as if it were the inner one, so the outer one fails. */
  lemma {:induction false} NestedNotNeverMatches(inner: Filter, c: Choices)
    requires inner.kind.Not? && inner.field == "" && NotSupported(inner) && Schema(FieldsOf(inner))
    ensures var f := Compound(Not, [inner]);
            CreateEvent(f, c).Some? && Judge(CreateEvent(f, c).value, f) == Some(false)
  {
    NestedNotIsInner(inner, c);
    NotSound(EMPTY, inner, [0], c, FieldsOf(inner));
    var e := ApplyNot(EMPTY, inner, [0], c).value;
    HoldsPasses(e, inner);
    assert Compound(Not, [inner]).conditions[0] == inner;
  }

  /** A comparison that succeeds has not clashed. */
  lemma {:induction false} AcceptedDoesNotClash(v: Value, op: Op, w: Value)
    requires Compare(v, op, w)
    ensures !Clashes(v, op, w)
  {}

  /** Adding a field can break a match that rests on the field being missing. */
  lemma {:induction false} UndecidedNotIsFragile(a: Filter, e: Event, e': Event)
    requires a.kind.Simple? && !Has(e, a.field) && Has(e', a.field) && Compare(GetField(e', a.field), a.op, a.value)
    ensures var f := Compound(Not, [a]);
            Keeps(e, e', FieldsOf(f)) && Passes(e, f) && Judge(e', f) == Some(false)
  {
    var f := Compound(Not, [a]);
    assert f.conditions[0] == a;
    assert forall g | g in FieldsOf(f) :: g == a.field;
    assert Search(e, f, 1, true) == Some(false);
    assert Search(e, f, 0, true) == Some(false);
    AcceptedDoesNotClash(GetField(e', a.field), a.op, a.value);
    assert Judge(e', a) == Some(true);
    assert Search(e', f, 0, true) == Some(true);
  }

  // ---- Lists and objects as filter values and seeds ----

  /** A `not` over `eq` with a list or an object panics in every run. */
  lemma {:induction false} ExcludedListPanics(field: string, v: Value, c: Choices)
    requires field != "" && !v.Comparable()
    ensures CreateEvent(Compound(Not, [Condition(field, Eq, v)]), c) == None
  {
    var cond := Condition(field, Eq, v);
    var f := Compound(Not, [cond]);
    assert f.conditions[0] == cond;
    assert DenyNested(EMPTY, f, 0, [], c) == Some(EMPTY);
    assert DenyNested(EMPTY, f, 1, [], c) == Some(EMPTY);
    var order := FieldOrder(f, [], c);
    assert NotFields(f) == {field};
    OneMember(order, field);
    var conds := WithField(f.conditions, field);
    assert f.conditions[1..] == [];
    assert WithField(f.conditions[1..], field) == [];
    assert conds == [cond];
    assert conds[0].op == Eq && v in AvoidedValues(conds);
    assert FailingText(field, conds, [], c) == None;
    assert order[..0] == [];
    assert DenyFields(EMPTY, f, order, [], c) == None;
  }

  lemma {:induction false} MemberAt(order: seq<string>, i: nat)
    requires i < |order|
    ensures order[i] in Members(order)
  {}

  lemma {:induction false} OneMember(order: seq<string>, g: string)
    requires IsOrderOf(order, {g})
    ensures order == [g]
  {
    assert g in Members(order);
    MemberAt(order, 0);
    if |order| > 1 {
      MemberAt(order, 1);
      assert false;
    }
  }

  /** Events that share a list or an object in a group_by field are never accepted, however consistent they are. */
  lemma {:induction false} ListSeedIsNeverAccepted(rule: Rule, seeds: Seeds, events: seq<Event>, k: nat)
    requires k < |rule.groupBy| && rule.groupBy[k] in seeds && !seeds[rule.groupBy[k]].Comparable()
    requires forall i | 0 <= i < |events| :: HoldsSeeds(events[i], seeds)
    ensures Validate(rule, events) != Some(Accepted)
  {
    if events != [] {
      assert !GetField(events[0], rule.groupBy[k]).Comparable();
    }
  }

  /** The `or` of a condition and a `not` that compares with a list or an object. */
  function Unsettled(field: string, sub: string, v: Value, a: Filter): Filter {
    Compound(Or, [Compound(Not, [Condition(field, Contains, Str(sub)), Condition(field, Eq, v)]), a])
  }

  /** Such a filter may be supported, and yet an event that passes it panics once the field is added. */
  lemma {:induction false} UnsettledOrIsFragile(field: string, sub: string, v: Value, a: Filter, e: Event, e': Event)
    requires Supported(Unsettled(field, sub, v, a)) && !Has(e, field) && Clash(GetField(e', field), v)
    ensures !Settled(Unsettled(field, sub, v, a))
    ensures Passes(e, Unsettled(field, sub, v, a)) && Judge(e', Unsettled(field, sub, v, a)) == None
  {
    var f := Unsettled(field, sub, v, a);
    var branch := f.conditions[0];
    assert branch.conditions[0] == Condition(field, Contains, Str(sub));
    assert branch.conditions[1] == Condition(field, Eq, v);
    assert !Quiet(branch);
    assert |branch.conditions| == 2 && branch.kind == Not;
    assert Search(e, branch, 2, true) == Some(false);
    assert Search(e, branch, 1, true) == Some(false);
    assert Search(e, branch, 0, true) == Some(false);
    assert Judge(e, branch) == Some(true);
    assert Search(e', branch, 1, true) == None;
    assert Search(e', branch, 0, true) == None;
    assert Judge(e', branch) == None;
  }
}
