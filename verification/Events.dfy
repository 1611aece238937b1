/** Values, and events seen as finite trees: every map key reached from the root is a cell. */
module Events {
  import opened Wrappers
  import opened GoStrings

  /**
   * A Go interface value. The number kinds stay apart because interface equality compares the
   * dynamic type first. `Obj` stands for any nested map.
   */
  datatype Value =
    | Nil
    | Str(text: string)
    | Int(int_: int)
    | Int64(int64_: int)
    | Float(float_: real)
    | Bool(bool_: bool)
    | Arr(items: seq<Value>)
    | Obj
  {
    /** Slices and maps cannot be compared with == or used as map keys. */
    predicate Comparable() {
      !Arr? && !Obj?
    }

    predicate Scalar() {
      Comparable() && !Nil?
    }
  }

  /** Go's == and != on interface values panic on two slices and on two maps. */
  predicate Clash(a: Value, b: Value) {
    (a.Arr? && b.Arr?) || (a.Obj? && b.Obj?)
  }

  /** Go's == on interface values that do not clash; clashing ones are not called equal. */
  predicate Equal(a: Value, b: Value) {
    a == b && a.Comparable()
  }

  /** Go's != on values that do not clash. */
  predicate Differ(a: Value, b: Value) {
    a != b && !Clash(a, b)
  }

  type Path = seq<string>

  datatype Cell = Leaf(value: Value) | Inner

  /** An event: the cell held at each path that exists in its tree of maps. */
  type Event = map<Path, Cell>

  const EMPTY: Event := map[]

  // ---- Reading and writing by path ----

  function Get(e: Event, p: Path): Value {
    if p !in e then Nil else match e[p] case Leaf(v) => v case Inner => Obj
  }

  /** Some proper prefix of the path holds a value that is not a map, so the walk down panics. */
  ghost predicate Blocked(e: Event, p: Path) {
    exists i | 1 <= i < |p| :: p[..i] in e && e[p[..i]].Leaf?
  }

  function Prefixes(p: Path): set<Path> {
    set i | 1 <= i <= |p| :: p[..i]
  }

  /** The missing maps on the way are created and the value replaces whatever the path held. */
  ghost function Write(e: Event, p: Path, v: Value): Event {
    map q | q in e.Keys + Prefixes(p) && !(p < q) ::
      if q == p then Leaf(v) else if q < p then Inner else e[q]
  }

  ghost function SetPath(e: Event, p: Path, v: Value): Option<Event> {
    if Blocked(e, p) then None else Some(Write(e, p, v))
  }

  // ---- Field names ----

  function TrimDot(s: string): string {
    if HasPrefix(s, ".") then s[1..] else s
  }

  /** The parts `getFieldValue` walks: one leading dot is dropped when there is one. */
  function GetParts(field: string): (parts: Path)
    ensures |parts| > 0
  {
    Split(TrimDot(field), '.')
  }

  /**
   * The parts `setFieldValue` walks: the first character is dropped whatever it is (slicing an
   * empty name panics), then one more leading dot when there is one.
   */
  function SetParts(field: string): (parts: Option<Path>)
    ensures parts.Some? ==> |parts.value| > 0
  {
    if field == "" then None else Some(Split(TrimDot(field[1..]), '.'))
  }

  function GetField(e: Event, field: string): Value {
    Get(e, GetParts(field))
  }

  /** None is a panic. */
  ghost function SetField(e: Event, field: string, v: Value): Option<Event> {
    match SetParts(field)
    case None => None
    case Some(parts) => SetPath(e, parts, v)
  }

  /** A name with exactly one leading dot. */
  predicate PlainField(field: string) {
    |field| > 0 && field[0] == '.' && (|field| > 1 ==> field[1] != '.')
  }

  /** Writer and reader of a field name agree on the path exactly for names led by one dot. */
  lemma {:induction false} WriterAgreesWithReader(field: string)
    ensures SetParts(field) == Some(GetParts(field)) <==> PlainField(field)
  {
    if field != "" && Split(TrimDot(field[1..]), '.') == GetParts(field) {
      SplitInjective(TrimDot(field[1..]), TrimDot(field), '.');
    }
  }

  lemma {:induction false} PartsInjective(f: string, g: string)
    requires PlainField(f) && PlainField(g) && GetParts(f) == GetParts(g)
    ensures f == g
  {
    SplitInjective(TrimDot(f), TrimDot(g), '.');
    assert f == "." + TrimDot(f) && g == "." + TrimDot(g);
  }

  // ---- Lens laws ----

  predicate Incomparable(p: Path, q: Path) {
    !(p <= q) && !(q <= p)
  }

  /** What was written is read back; a write at an incomparable path is not noticed. */
  lemma {:induction false} SetThenGet(e: Event, f: string, v: Value, e': Event)
    requires PlainField(f) && SetField(e, f, v) == Some(e')
    ensures GetField(e', f) == v
    ensures forall g: string | Incomparable(GetParts(f), GetParts(g)) :: GetField(e', g) == GetField(e, g)
  {
    WriterAgreesWithReader(f);
    var p := GetParts(f);
    assert p == p[..|p|] && p in Prefixes(p);
    forall g: string | Incomparable(p, GetParts(g)) ensures GetField(e', g) == GetField(e, g) {
      NotAPrefix(p, GetParts(g));
    }
  }

  lemma {:induction false} NotAPrefix(p: Path, q: Path)
    requires !(q <= p)
    ensures q !in Prefixes(p)
  {}

  lemma {:induction false} PrefixesBelow(p: Path, q: Path)
    ensures q in Prefixes(p) <==> q != [] && q <= p
  {
    if q != [] && q <= p {
      assert q == p[..|q|];
    }
  }

  /** Writing twice at one path is writing the second value. */
  lemma {:induction false} SetTwice(e: Event, f: string, v: Value, w: Value, e': Event)
    requires SetField(e, f, v) == Some(e')
    ensures SetField(e', f, w) == SetField(e, f, w)
  {
    var p := SetParts(f).value;
    forall i | 1 <= i < |p| ensures p[..i] < p {}
    WriteTwice(e, p, v, w);
  }

  lemma {:induction false} WriteTwice(e: Event, p: Path, v: Value, w: Value)
    ensures Write(Write(e, p, v), p, w) == Write(e, p, w)
  {
    var once, twice := Write(e, p, w), Write(Write(e, p, v), p, w);
    forall x ensures x in once <==> x in twice {}
    forall x | x in once ensures once[x] == twice[x] { PrefixesBelow(p, x); }
  }

  /** Writes at incomparable paths commute, panics included. */
  lemma {:induction false} SetCommutes(e: Event, p: Path, v: Value, q: Path, w: Value)
    requires Incomparable(p, q)
    ensures (match SetPath(e, p, v) case None => None case Some(e') => SetPath(e', q, w))
         == (match SetPath(e, q, w) case None => None case Some(e') => SetPath(e', p, v))
  {
    if !Blocked(e, p) { BlockedAfter(e, p, v, q); }
    if !Blocked(e, q) { BlockedAfter(e, q, w, p); }
    if !Blocked(e, p) && !Blocked(e, q) {
      WritesCommute(e, p, v, q, w);
    }
  }

  lemma {:induction false} WritesCommute(e: Event, p: Path, v: Value, q: Path, w: Value)
    requires Incomparable(p, q)
    requires !Blocked(e, p) && !Blocked(e, q)
    ensures Write(Write(e, p, v), q, w) == Write(Write(e, q, w), p, v)
  {
    var l, r := Write(Write(e, p, v), q, w), Write(Write(e, q, w), p, v);
    forall x ensures x in l <==> x in r { PrefixesBelow(p, x); PrefixesBelow(q, x); }
    forall x | x in l ensures l[x] == r[x] {
      PrefixesBelow(p, x);
      PrefixesBelow(q, x);
    }
  }

  /** A successful write neither unblocks nor blocks an incomparable path. */
  lemma {:induction false} BlockedAfter(e: Event, p: Path, v: Value, q: Path)
    requires Incomparable(p, q) && !Blocked(e, p)
    ensures Blocked(Write(e, p, v), q) <==> Blocked(e, q)
  {
    var e' := Write(e, p, v);
    forall i | 1 <= i < |q|
      ensures (q[..i] in e' && e'[q[..i]].Leaf?) <==> (q[..i] in e && e[q[..i]].Leaf?)
    {
      PrefixesBelow(p, q[..i]);
      assert q[..i] <= q;
      assert p <= q[..i] ==> p <= q;
      if q[..i] <= p {
        assert q[..i] == p[..i] && i < |p|;
      }
    }
  }

  // ---- Events over a fixed set of fields ----

  /** Field names led by one dot, none of which reaches into another. */
  ghost predicate Schema(fields: set<string>) {
    && (forall f {:trigger PlainField(f)} | f in fields :: PlainField(f))
    && (forall f, g {:trigger ReachesInto(f, g)} | f in fields && g in fields && f != g :: !ReachesInto(f, g))
  }

  predicate ReachesInto(f: string, g: string) {
    GetParts(f) <= GetParts(g)
  }

  /** Every value sits at one of the fields and every map on the way to one. */
  ghost predicate Conforms(e: Event, fields: set<string>) {
    forall q {:trigger Allotted(e, fields, q)} | q in e :: Allotted(e, fields, q)
  }

  ghost predicate Allotted(e: Event, fields: set<string>, q: Path)
    requires q in e
  {
    if e[q].Leaf? then exists f | f in fields :: q == GetParts(f)
    else exists f | f in fields :: q < GetParts(f)
  }

  /** Within a schema a write never panics and changes exactly the field it names. */
  lemma {:induction false} SetConforms(e: Event, fields: set<string>, f: string, v: Value)
    requires Schema(fields) && Conforms(e, fields) && f in fields
    ensures var r := SetField(e, f, v);
            && r.Some? && Conforms(r.value, fields)
            && GetField(r.value, f) == v
            && forall g | g in fields && g != f :: GetField(r.value, g) == GetField(e, g)
  {
    assert PlainField(f);
    WriterAgreesWithReader(f);
    var p := GetParts(f);
    forall i | 1 <= i < |p| ensures !(p[..i] in e && e[p[..i]].Leaf?) {
      assert p[..i] in e ==> Allotted(e, fields, p[..i]);
      assert forall g | g in fields && g != f :: !ReachesInto(g, f);
    }
    var e' := Write(e, p, v);
    assert SetField(e, f, v) == Some(e');
    SetThenGet(e, f, v, e');
    forall g | g in fields && g != f ensures GetField(e', g) == GetField(e, g) {
      assert !ReachesInto(f, g) && !ReachesInto(g, f);
    }
    forall q | q in e' ensures Allotted(e', fields, q) {
      PrefixesBelow(p, q);
      assert q in e ==> Allotted(e, fields, q);
    }
  }

  /** Some field of the event holds a value other than nil. */
  predicate Has(e: Event, field: string) {
    GetField(e, field) != Nil
  }
}
