/** Events as the program holds them: maps in the heap that refer to further maps. */
module EventMaps {
  import opened Wrappers
  import opened GoStrings
  import opened Events

  ghost function Front(q: Path): Path
    requires q != []
  {
    q[..|q| - 1]
  }

  ghost function Last(q: Path): string
    requires q != []
  {
    q[|q| - 1]
  }

  ghost function Child(p: Path, k: string): (q: Path)
    ensures q != [] && Front(q) == p && Last(q) == k
  {
    p + [k]
  }

  lemma {:induction false} Rejoin(q: Path)
    requires q != []
    ensures q == Child(Front(q), Last(q))
  {}

  /** Below a child means below its parent, or the child itself. */
  lemma {:induction false} BelowChild(p0: Path, p: Path, k: string)
    ensures p0 <= Child(p, k) <==> p0 == Child(p, k) || p0 <= p
  {
    if p0 <= Child(p, k) && p0 != Child(p, k) {
      assert p0 == Child(p, k)[..|p0|] == p[..|p0|];
    }
  }

  datatype Entry = Plain(value: Value) | Nested(node: MapNode)

  /** One map of an event; `home` is the path at which it was created and stays. */
  class MapNode {
    var entries: map<string, Entry>
    ghost const home: Path

    constructor (ghost home: Path)
      ensures entries == map[] && this.home == home
    {
      this.home := home;
      entries := map[];
    }
  }

  /**
   * An event: the root map and everything below it. `nodes` knows every map by its path from the
   * root and `cells` is the tree the maps spell out.
   */
  class EventMap {
    const root: MapNode
    ghost var nodes: map<Path, MapNode>
    ghost var cells: Event

    ghost predicate Valid()
      reads this, nodes.Values
    {
      && [] in nodes && nodes[[]] == root
      && (forall p {:trigger IsHome(p)} | p in nodes :: IsHome(p))
      && (forall p, k {:trigger Spelled(p, k)} | p in nodes && k in nodes[p].entries :: Spelled(p, k))
      && (forall q {:trigger Anchored(q)} | q in cells :: Anchored(q))
    }

    /** The map known by path `p` is one of the event's inner cells. */
    ghost predicate IsHome(p: Path)
      requires p in nodes
      reads this, nodes.Values
    {
      nodes[p].home == p && (p != [] ==> p in cells && cells[p] == Inner)
    }

    /** The entry under key `k` of the map at `p` is the cell at the child path. */
    ghost predicate Spelled(p: Path, k: string)
      requires p in nodes && k in nodes[p].entries
      reads this, nodes.Values
    {
      var q := Child(p, k);
      && q in cells
      && match nodes[p].entries[k]
         case Plain(v) => cells[q] == Leaf(v)
         case Nested(n) => cells[q] == Inner && q in nodes && nodes[q] == n
    }

    /** The cell is an entry of the map above it. */
    ghost predicate Anchored(q: Path)
      reads this, nodes.Values
    {
      q != [] && Front(q) in nodes && Last(q) in nodes[Front(q)].entries
    }

    constructor ()
      ensures Valid() && cells == EMPTY
      ensures fresh(nodes.Values)
    {
      root := new MapNode([]);
      cells := EMPTY;
      new;
      nodes := map[[] := root];
    }

    /** Adds an empty map under a key the map at `at` does not have yet. */
    method AddNested(node: MapNode, ghost at: Path, k: string) returns (n: MapNode)
      requires Valid() && at in nodes && nodes[at] == node && k !in node.entries
      modifies this`nodes, this`cells, node
      ensures Valid() && fresh(n) && n.entries == map[]
      ensures Child(at, k) !in old(nodes) && Child(at, k) !in old(cells)
      ensures nodes == old(nodes)[Child(at, k) := n] && cells == old(cells)[Child(at, k) := Inner]
      ensures node.entries == old(node.entries)[k := Nested(n)]
    {
      ghost var p0 := Child(at, k);
      assert IsHome(at);
      assert p0 in cells ==> Anchored(p0);
      assert p0 in nodes ==> IsHome(p0);
      n := new MapNode(p0);
      node.entries := node.entries[k := Nested(n)];
      nodes := nodes[p0 := n];
      cells := cells[p0 := Inner];
      forall p | p in nodes ensures IsHome(p) {
        assert p == p0 || old(IsHome(p));
      }
      forall q | q in cells ensures Anchored(q) {
        assert q == p0 || old(Anchored(q));
      }
      forall p, j | p in nodes && j in nodes[p].entries ensures Spelled(p, j) {
        assert p == p0 || old(IsHome(p));
        assert (p == at && j == k) || old(Spelled(p, j));
      }
    }

    /** Puts a value under a key of the map at `at`; a map that was there goes with all below it. */
    method PutValue(node: MapNode, ghost at: Path, k: string, v: Value)
      requires Valid() && at in nodes && nodes[at] == node
      modifies this`nodes, this`cells, node
      ensures Valid()
      ensures nodes == map p | p in old(nodes) && !(Child(at, k) <= p) :: old(nodes[p])
      ensures cells == Put(old(cells), Child(at, k), v)
      ensures node.entries == old(node.entries)[k := Plain(v)]
    {
      ghost var p0 := Child(at, k);
      assert IsHome(at);
      node.entries := node.entries[k := Plain(v)];
      nodes := map p | p in nodes && !(p0 <= p) :: nodes[p];
      cells := Put(cells, p0, v);
      assert !(p0 <= at);
      assert !(p0 <= []);
      forall p | p in nodes ensures IsHome(p) {
        assert old(IsHome(p));
      }
      forall q | q in cells ensures Anchored(q) {
        if q != p0 {
          assert old(Anchored(q));
          Rejoin(q);
          BelowChild(p0, Front(q), Last(q));
        }
      }
      forall p, j | p in nodes && j in nodes[p].entries ensures Spelled(p, j) {
        assert old(IsHome(p));
        if p != at || j != k {
          assert old(Spelled(p, j));
          BelowChild(p0, p, j);
        }
      }
    }

    /** Puts a value under a key the map at `at` does not have yet. */
    method AddPlain(node: MapNode, ghost at: Path, k: string, v: Value)
      requires Valid() && at in nodes && nodes[at] == node && k !in node.entries
      modifies this`nodes, this`cells, node
      ensures Valid() && nodes == old(nodes) && Child(at, k) !in old(cells)
      ensures cells == old(cells)[Child(at, k) := Leaf(v)]
      ensures node.entries == old(node.entries)[k := Plain(v)]
    {
      ghost var p0 := Child(at, k);
      StepDown(at, k);
      forall q | q in cells ensures !(p0 <= q) {
        PrefixesAreInner(q);
        assert p0 <= q && |p0| == |q| ==> p0 == q;
      }
      forall p | p in nodes ensures !(p0 <= p) {
        assert IsHome(p);
      }
      PutValue(node, at, k, v);
    }

    /** Above every cell there are only maps. */
    lemma {:induction false} PrefixesAreInner(q: Path)
      requires Valid() && q in cells
      ensures forall j | 1 <= j < |q| :: q[..j] in cells && cells[q[..j]] == Inner
      ensures forall p {:trigger p in cells} | p != [] && p < q :: p in cells
    {
      forall p | p != [] && p < q ensures p == q[..|p|] {}
      assert Anchored(q);
      var p := Front(q);
      assert IsHome(p);
      if p != [] {
        PrefixesAreInner(p);
        forall j | 1 <= j < |q| ensures q[..j] in cells && cells[q[..j]] == Inner {
          assert q[..j] == if j == |p| then p else p[..j];
        }
      }
    }

    /** What a step of the walk finds under a key. */
    lemma {:induction false} StepDown(p: Path, k: string)
      requires Valid() && p in nodes
      ensures k in nodes[p].entries <==> Child(p, k) in cells
      ensures k in nodes[p].entries ==> Spelled(p, k)
    {
      assert k in nodes[p].entries ==> Spelled(p, k);
      assert Child(p, k) in cells ==> Anchored(Child(p, k));
    }

    /** One step of the walk: makes sure there is a map under the key and goes there, unless a value bars the way. */
    method Descend(node: MapNode, ghost at: Path, k: string) returns (next: Option<MapNode>)
      requires Valid() && at in nodes && nodes[at] == node
      modifies this`nodes, this`cells, node
      ensures next.None? <==> Child(at, k) in old(cells) && old(cells[Child(at, k)]).Leaf?
      ensures next.Some? ==>
        && Valid() && Child(at, k) in nodes && nodes[Child(at, k)] == next.value
        && cells == (if Child(at, k) in old(cells) then old(cells) else old(cells)[Child(at, k) := Inner])
        && fresh(nodes.Values - old(nodes.Values))
    {
      StepDown(at, k);
      if k !in node.entries {
        var n := AddNested(node, at, k);
        StepDown(at, k);
      }
      match node.entries[k]
      case Plain(_) => next := None;
      case Nested(n) => next := Some(n);
    }

    /** setFieldValue; `ok` is false where the program panics. */
    method SetFieldValue(field: string, v: Value) returns (ok: bool)
      requires Valid()
      modifies this, nodes.Values
      ensures ok <==> SetField(old(cells), field, v).Some?
      ensures ok ==> Valid() && cells == SetField(old(cells), field, v).value
      ensures ok ==> fresh(nodes.Values - old(nodes.Values))
    {
      if field == "" {
        return false;
      }
      var parts := Split(TrimDot(field[1..]), '.');
      assert [] in cells ==> Anchored([]);
      var last := OpenMaps(parts);
      if last.None? {
        return false;
      }
      assert Child(parts[..|parts| - 1], parts[|parts| - 1]) == parts;
      OpenedThenPut(old(cells), parts, v);
      PutValue(last.value, parts[..|parts| - 1], parts[|parts| - 1], v);
      ok := true;
    }

    /** The walk to the map that is to hold the value, creating what is missing; None is a panic. */
    method OpenMaps(parts: Path) returns (last: Option<MapNode>)
      requires Valid() && parts != []
      modifies this, nodes.Values
      ensures last.None? <==> Blocked(old(cells), parts)
      ensures last.Some? ==>
        && Valid() && cells == Opened(old(cells), parts, |parts| - 1)
        && parts[..|parts| - 1] in nodes && nodes[parts[..|parts| - 1]] == last.value
      ensures last.Some? ==> fresh(nodes.Values - old(nodes.Values))
    {
      var current := root;
      ghost var e := cells;
      var i := 0;
      while i < |parts| - 1
        invariant 0 <= i <= |parts| - 1
        invariant Valid() && parts[..i] in nodes && nodes[parts[..i]] == current
        invariant cells == Opened(e, parts, i)
        invariant forall j | 1 <= j <= i :: !(parts[..j] in e && e[parts[..j]].Leaf?)
        invariant fresh(nodes.Values - old(nodes.Values))
      {
        assert Child(parts[..i], parts[i]) == parts[..i + 1];
        OpenedNext(e, parts, i);
        var next := Descend(current, parts[..i], parts[i]);
        if next.None? {
          assert Blocked(e, parts);
          return None;
        }
        current := next.value;
        i := i + 1;
      }
      last := Some(current);
    }

    /** Where the walk along `q` finds nothing, or a value before its end, nothing is read. */
    lemma {:induction false} NothingThere(q: Path, i: nat)
      requires Valid() && 1 <= i <= |q|
      requires q[..i] in cells ==> cells[q[..i]] == Leaf(Nil) || (i < |q| && cells[q[..i]].Leaf?)
      ensures Get(cells, q) == Nil
    {
      assert q[..|q|] == q;
      if q in cells {
        PrefixesAreInner(q);
      }
    }

    /** getFieldValue */
    method GetFieldValue(field: string) returns (v: Value)
      requires Valid()
      ensures v == GetField(cells, field)
    {
      var parts := Split(TrimDot(field), '.');
      var current := Nested(root);
      for i := 0 to |parts|
        invariant current.Nested? ==> parts[..i] in nodes && nodes[parts[..i]] == current.node
        invariant current.Plain? ==> i > 0 && parts[..i] in cells && cells[parts[..i]] == Leaf(current.value)
      {
        if current.Plain? {
          NothingThere(parts, i);
          return Nil;
        }
        EntryOnTheWay(parts, i);
        if parts[i] !in current.node.entries {
          return Nil;
        }
        current := current.node.entries[parts[i]];
        if current == Plain(Nil) {
          return Nil;
        }
      }
      assert parts[..|parts|] == parts;
      assert current.Nested? ==> IsHome(parts);
      v := match current case Plain(w) => w case Nested(_) => Obj;
    }

    /** What the walk along `q` finds in the map at its first `i` parts. */
    lemma {:induction false} EntryOnTheWay(q: Path, i: nat)
      requires Valid() && i < |q| && q[..i] in nodes
      ensures q[i] in nodes[q[..i]].entries ==> q[..i + 1] in cells && match nodes[q[..i]].entries[q[i]]
                case Plain(v) => cells[q[..i + 1]] == Leaf(v)
                case Nested(n) => q[..i + 1] in nodes && nodes[q[..i + 1]] == n
      ensures q[i] !in nodes[q[..i]].entries || nodes[q[..i]].entries[q[i]] == Plain(Nil) ==> Get(cells, q) == Nil
    {
      assert Child(q[..i], q[i]) == q[..i + 1];
      StepDown(q[..i], q[i]);
      if q[i] !in nodes[q[..i]].entries || nodes[q[..i]].entries[q[i]] == Plain(Nil) {
        NothingThere(q, i + 1);
      }
    }
  }

  /** The cell replaced by a value, with everything below it gone. */
  ghost function Put(e: Event, p: Path, v: Value): Event {
    var keys := e.Keys + {p};
    map q | q in keys && !(p < q) :: if q == p then Leaf(v) else e[q]
  }

  /** The event after the walk has opened the first `i` maps on the way along `p`. */
  ghost function Opened(e: Event, p: Path, i: nat): Event
    requires i <= |p|
  {
    map q | q in e.Keys + Prefixes(p[..i]) :: if q in e then e[q] else Inner
  }

  lemma {:induction false} OpenedNext(e: Event, p: Path, i: nat)
    requires i < |p|
    ensures p[..i + 1] in Opened(e, p, i) <==> p[..i + 1] in e
    ensures p[..i + 1] in e ==> Opened(e, p, i + 1) == Opened(e, p, i)
    ensures p[..i + 1] !in e ==> Opened(e, p, i + 1) == Opened(e, p, i)[p[..i + 1] := Inner]
  {
    assert Prefixes(p[..i + 1]) == Prefixes(p[..i]) + {p[..i + 1]} by {
      forall j | 1 <= j <= i ensures p[..i][..j] == p[..i + 1][..j] {}
      assert p[..i + 1][..i + 1] == p[..i + 1];
      forall q | q in Prefixes(p[..i + 1]) ensures q in Prefixes(p[..i]) || q == p[..i + 1] {
        var j :| 1 <= j <= i + 1 && q == p[..i + 1][..j];
        if j <= i { assert q == p[..i][..j]; }
      }
      forall q | q in Prefixes(p[..i]) ensures q in Prefixes(p[..i + 1]) {
        var j :| 1 <= j <= i && q == p[..i][..j];
        assert q == p[..i + 1][..j];
      }
    }
    assert p[..i + 1] !in Prefixes(p[..i]) by {
      forall q | q in Prefixes(p[..i]) ensures |q| <= i {}
    }
  }

  lemma {:induction false} OpenedThenPut(e: Event, p: Path, v: Value)
    requires p != [] && !Blocked(e, p) && [] !in e
    ensures Put(Opened(e, p, |p| - 1), p, v) == Write(e, p, v)
  {
    var o, w := Opened(e, p, |p| - 1), Write(e, p, v);
    forall q ensures q in o.Keys + {p} <==> q in e.Keys + Prefixes(p) {
      PrefixesBelow(p, q);
      PrefixesBelow(p[..|p| - 1], q);
      BelowFront(p, q);
    }
    forall q | q in w && q != p ensures w[q] == o[q] {
      PrefixesBelow(p, q);
      if q < p && q in e {
        assert q == p[..|q|];
      }
    }
  }

  lemma {:induction false} BelowFront(p: Path, q: Path)
    requires p != []
    ensures q <= p[..|p| - 1] <==> q <= p && q != p
  {
    if q <= p && q != p {
      assert q == p[..|p| - 1][..|q|];
    }
  }
}
