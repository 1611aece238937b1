/** The enrichers as the program runs them on the maps of an event. */
module Enricher {
  import opened Wrappers
  import opened Events
  import opened EventMaps
  import opened Enrichment
  import opened GoNumbers
  import opened OcsfFields

  /** The maps of before are still there. */
  ghost predicate Extends(before: map<Path, MapNode>, after: map<Path, MapNode>) {
    forall p | p in before :: p in after && after[p] == before[p]
  }

  lemma {:induction false} ExtendsOnward(a: map<Path, MapNode>, b: map<Path, MapNode>, c: map<Path, MapNode>)
    requires Extends(a, b) && Extends(b, c)
    ensures Extends(a, c)
  {}

  /** Puts a literal under a key the map at `at` does not have yet. */
  method AddTree(ev: EventMap, node: MapNode, ghost at: Path, k: string, t: Tree)
    requires ev.Valid() && at in ev.nodes && ev.nodes[at] == node && k !in node.entries && DistinctKeys(t)
    modifies ev`nodes, ev`cells, node
    ensures ev.Valid() && ev.cells == CellsOf(Child(at, k), t) + old(ev.cells)
    ensures node.entries.Keys == old(node.entries.Keys) + {k}
    ensures Extends(old(ev.nodes), ev.nodes)
    ensures fresh(ev.nodes.Values - old(ev.nodes.Values))
    decreases t, 1
  {
    match t
    case Scalar(v) => ev.AddPlain(node, at, k, v);
    case Branch(_) =>
      var n := ev.AddNested(node, at, k);
      AllEntries(Child(at, k), t, old(ev.cells));
      AddEntries(ev, n, Child(at, k), t);
  }

  /** Fills the fresh map of a literal. */
  method AddEntries(ev: EventMap, n: MapNode, ghost p0: Path, t: Tree)
    requires ev.Valid() && p0 in ev.nodes && ev.nodes[p0] == n && n.entries == map[]
    requires t.Branch? && DistinctKeys(t) && p0 in ev.cells && ev.cells[p0] == Inner
    modifies ev`nodes, ev`cells, n
    ensures ev.Valid() && ev.cells == EntryCells(p0, t, |t.entries|) + old(ev.cells)
    ensures Extends(old(ev.nodes), ev.nodes)
    ensures fresh(ev.nodes.Values - old(ev.nodes.Values))
    decreases t, 0
  {
    ghost var before := ev.cells;
    for i := 0 to |t.entries|
      invariant ev.Valid() && ev.cells == EntryCells(p0, t, i) + before
      invariant forall j | i <= j < |t.entries| :: t.entries[j].0 !in n.entries
      invariant Extends(old(ev.nodes), ev.nodes)
      invariant fresh(ev.nodes.Values - old(ev.nodes.Values))
    {
      ghost var nodes := ev.nodes;
      OneMoreEntry(p0, t, i, before);
      AddTree(ev, n, p0, t.entries[i].0, t.entries[i].1);
      ExtendsOnward(old(ev.nodes), nodes, ev.nodes);
    }
  }

  /** `if _, exists := event[k]; !exists { event[k] = literal }` */
  method SetDefault(ev: EventMap, k: string, t: Tree)
    requires ev.Valid() && DistinctKeys(t)
    modifies ev, ev.nodes.Values
    ensures ev.Valid() && ev.cells == WithDefault(old(ev.cells), k, t)
    ensures fresh(ev.nodes.Values - old(ev.nodes.Values))
  {
    assert Child([], k) == [k];
    ev.StepDown([], k);
    if k !in ev.root.entries {
      AddTree(ev, ev.root, [], k, t);
    }
  }

  predicate AllDistinct(defaults: seq<(string, Tree)>) {
    forall i | 0 <= i < |defaults| :: DistinctKeys(defaults[i].1)
  }

  method SetDefaults(ev: EventMap, defaults: seq<(string, Tree)>)
    requires ev.Valid() && AllDistinct(defaults)
    modifies ev, ev.nodes.Values
    ensures ev.Valid() && ev.cells == WithDefaults(old(ev.cells), defaults)
    ensures fresh(ev.nodes.Values - old(ev.nodes.Values))
  {
    for i := 0 to |defaults|
      invariant ev.Valid() && ev.cells == WithDefaults(old(ev.cells), defaults[..i])
      invariant fresh(ev.nodes.Values - old(ev.nodes.Values))
    {
      assert defaults[..i + 1][..i] == defaults[..i];
      SetDefault(ev, defaults[i].0, defaults[i].1);
    }
    assert defaults[..|defaults|] == defaults;
  }

  method PutTop(ev: EventMap, k: string, v: Value)
    requires ev.Valid()
    modifies ev, ev.nodes.Values
    ensures ev.Valid() && ev.cells == Put(old(ev.cells), [k], v)
    ensures ev.nodes.Values <= old(ev.nodes.Values)
  {
    assert Child([], k) == [k];
    ev.PutValue(ev.root, [], k, v);
  }

  method Stamp(ev: EventMap, stamps: seq<(string, Value)>)
    requires ev.Valid()
    modifies ev, ev.nodes.Values
    ensures ev.Valid() && ev.cells == WithStamps(old(ev.cells), stamps)
    ensures ev.nodes.Values <= old(ev.nodes.Values)
  {
    for i := 0 to |stamps|
      invariant ev.Valid() && ev.cells == WithStamps(old(ev.cells), stamps[..i])
      invariant ev.nodes.Values <= old(ev.nodes.Values)
    {
      assert stamps[..i + 1][..i] == stamps[..i];
      PutTop(ev, stamps[i].0, stamps[i].1);
    }
    assert stamps[..|stamps|] == stamps;
  }

  /** What the root map holds under a key. */
  method TopValue(ev: EventMap, k: string) returns (v: Value)
    requires ev.Valid()
    ensures v == Get(ev.cells, [k])
  {
    assert Child([], k) == [k];
    ev.StepDown([], k);
    v := if k !in ev.root.entries then Nil else match ev.root.entries[k] case Plain(w) => w case Nested(_) => Obj;
  }

  lemma {:induction false} DeviceIsDistinct(env: Env)
    ensures DistinctKeys(Device(env))
  {
    assert DistinctKeys(Device(env).entries[4].1);
  }

  lemma {:induction false} MetadataIsDistinct(env: Env)
    ensures AllDistinct(LastDefaults(env))
  {
    assert DistinctKeys(Metadata().entries[0].1);
    assert DistinctKeys(Metadata());
  }

  lemma {:induction false} ActorIsDistinct(env: Env)
    ensures DistinctKeys(Actor(env)) && DistinctKeys(Session(env))
  {
    assert DistinctKeys(Actor(env).entries[0].1);
  }

  lemma {:induction false} ProcessIsDistinct(statusId: Value, env: Env)
    ensures AllDistinct(ClassDefaults(1007, statusId, env))
  {
    ActorIsDistinct(env);
    var process := ClassDefaults(1007, statusId, env)[3].1;
    assert DistinctKeys(process.entries[3].1);
    assert DistinctKeys(process);
  }

  lemma {:induction false} HttpIsDistinct(statusId: Value, env: Env)
    ensures AllDistinct(ClassDefaults(4002, statusId, env))
  {
    var request := ClassDefaults(4002, statusId, env)[3].1;
    assert DistinctKeys(request.entries[1].1);
    assert DistinctKeys(request);
  }

  lemma {:induction false} NetworkTablesAreDistinct(uid: int, statusId: Value, env: Env)
    requires uid in {4001, 4003}
    ensures AllDistinct(ClassDefaults(uid, statusId, env))
  {
    assert DistinctKeys(ClassDefaults(uid, statusId, env)[3].1);
  }

  lemma {:induction false} ActorTablesAreDistinct(uid: int, statusId: Value, env: Env)
    requires uid in {3001, 4006}
    ensures AllDistinct(ClassDefaults(uid, statusId, env))
  {
    ActorIsDistinct(env);
    assert DistinctKeys(ClassDefaults(uid, statusId, env)[3].1);
  }

  lemma {:induction false} FlatTablesAreDistinct(uid: int, statusId: Value, env: Env)
    requires uid !in {1007, 3001, 4001, 4002, 4003, 4006}
    ensures AllDistinct(ClassDefaults(uid, statusId, env))
  {}

  lemma {:induction false} DefaultsAreDistinct(uid: int, statusId: Value, env: Env)
    ensures AllDistinct(ClassDefaults(uid, statusId, env))
  {
    match uid
    case 1007 => ProcessIsDistinct(statusId, env);
    case 4002 => HttpIsDistinct(statusId, env);
    case 4001 | 4003 => NetworkTablesAreDistinct(uid, statusId, env);
    case 3001 | 4006 => ActorTablesAreDistinct(uid, statusId, env);
    case _ => FlatTablesAreDistinct(uid, statusId, env);
  }

  /** The session is added to an actor that has none. */
  method SetSession(ev: EventMap, uid: int, env: Env)
    requires ev.Valid()
    modifies ev, ev.nodes.Values
    ensures ev.Valid() && ev.cells == WithSession(old(ev.cells), uid, env)
    ensures fresh(ev.nodes.Values - old(ev.nodes.Values))
  {
    assert Child([], "actor") == ["actor"] && Child(["actor"], "session") == ["actor", "session"];
    ev.StepDown([], "actor");
    if uid == 3002 && "actor" in ev.root.entries && ev.root.entries["actor"].Nested? {
      var actor := ev.root.entries["actor"].node;
      ev.StepDown(["actor"], "session");
      if "session" !in actor.entries {
        ActorIsDistinct(env);
        AddTree(ev, actor, ["actor"], "session", Session(env));
      }
    }
  }

  /** The writes of addRequiredOCSFFields in their order. */
  method AddLiterals(ev: EventMap, uid: int, device: Tree, stamps: seq<(string, Value)>,
                     defaults: seq<(string, Tree)>, last: seq<(string, Tree)>, env: Env)
    requires ev.Valid() && DistinctKeys(device) && AllDistinct(defaults) && AllDistinct(last)
    modifies ev, ev.nodes.Values
    ensures ev.Valid()
    ensures ev.cells == WithDefaults(WithSession(WithDefaults(WithStamps(
      WithDefault(old(ev.cells), "device", device), stamps), defaults), uid, env), last)
    ensures fresh(ev.nodes.Values - old(ev.nodes.Values))
  {
    AddDeviceAndStamps(ev, device, stamps);
    SetDefaults(ev, defaults);
    SetSession(ev, uid, env);
    SetDefaults(ev, last);
  }

  method AddDeviceAndStamps(ev: EventMap, device: Tree, stamps: seq<(string, Value)>)
    requires ev.Valid() && DistinctKeys(device)
    modifies ev, ev.nodes.Values
    ensures ev.Valid() && ev.cells == WithStamps(WithDefault(old(ev.cells), "device", device), stamps)
    ensures fresh(ev.nodes.Values - old(ev.nodes.Values))
  {
    SetDefault(ev, "device", device);
    Stamp(ev, stamps);
  }

  /** addRequiredOCSFFields for an event of a known class. */
  method AddRequiredFields(ev: EventMap, uid: int, statusId: Value, env: Env)
    requires ev.Valid()
    modifies ev, ev.nodes.Values
    ensures ev.Valid() && ev.cells == EnrichedAs(old(ev.cells), uid, statusId, env)
    ensures fresh(ev.nodes.Values - old(ev.nodes.Values))
  {
    DeviceIsDistinct(env);
    DefaultsAreDistinct(uid, statusId, env);
    MetadataIsDistinct(env);
    AddLiterals(ev, uid, Device(env), Stamps(uid), ClassDefaults(uid, statusId, env), LastDefaults(env), env);
  }

  /** enrichEvent */
  method EnrichEvent(ev: EventMap, env: Env)
    requires ev.Valid()
    modifies ev, ev.nodes.Values
    ensures ev.Valid() && ev.cells == Enriched(old(ev.cells), env) && Complete(ev.cells)
    ensures fresh(ev.nodes.Values - old(ev.nodes.Values))
  {
    var classUid := TopValue(ev, "class_uid");
    var statusId := TopValue(ev, "status_id");
    if ClassUid(classUid).Some? {
      AddRequiredFields(ev, ClassUid(classUid).value, statusId, env);
    }
    EnrichedIsComplete(old(ev.cells), env);
  }

  method SetEntry(ev: EventMap, node: MapNode, endpoint: string, k: string, v: Value)
    requires ev.Valid() && [endpoint] in ev.nodes && ev.nodes[[endpoint]] == node
    modifies ev, ev.nodes.Values
    ensures ev.Valid() && ev.cells == WithEntry(old(ev.cells), endpoint, k, v) && ev.nodes == old(ev.nodes)
  {
    assert Child([endpoint], k) == [endpoint, k];
    ev.StepDown([endpoint], k);
    if k !in node.entries {
      ev.AddPlain(node, [endpoint], k, v);
    }
  }

  /** One endpoint of enrichNetworkEvent. */
  method CompleteEndpoint(ev: EventMap, seeds: map<string, Value>, endpoint: string, index: nat, env: Env)
    returns (seeds': map<string, Value>)
    requires ev.Valid()
    modifies ev, ev.nodes.Values
    ensures seeds' == SeedsAfter(old(ev.cells), seeds, endpoint, index, env)
    ensures ev.Valid() && ev.cells == WithEndpoint(old(ev.cells), seeds', endpoint, env)
    ensures ev.nodes == old(ev.nodes)
  {
    assert Child([], endpoint) == [endpoint] && Child([endpoint], "ip") == [endpoint, "ip"];
    seeds' := seeds;
    ev.StepDown([], endpoint);
    if endpoint in ev.root.entries && ev.root.entries[endpoint].Nested? {
      var node := ev.root.entries[endpoint].node;
      ev.StepDown([endpoint], "ip");
      if "ip" !in node.entries && index == 0 {
        seeds' := seeds'[EndpointIp(endpoint) := env.gen(EndpointIp(endpoint))];
      }
      SetEntry(ev, node, endpoint, "ip", if EndpointIp(endpoint) in seeds' then seeds'[EndpointIp(endpoint)] else Nil);
      SetEntry(ev, node, endpoint, "port", env.gen("." + endpoint + ".port"));
      SetEntry(ev, node, endpoint, "name", Str(""));
      SetEntry(ev, node, endpoint, "uid", Str(""));
    }
  }

  /** enrichNetworkEvent */
  method EnrichNetworkEvent(ev: EventMap, seeds: map<string, Value>, index: nat, env: Env)
    returns (seeds': map<string, Value>)
    requires ev.Valid()
    modifies ev, ev.nodes.Values
    ensures ev.Valid() && (ev.cells, seeds') == NetworkEnriched(old(ev.cells), seeds, index, env)
    ensures ev.nodes == old(ev.nodes)
  {
    seeds' := seeds;
    var classUid := TopValue(ev, "class_uid");
    if classUid.Float? && Truncate(classUid.float_) == 4001 {
      seeds' := CompleteEndpoint(ev, seeds', Endpoints()[0], index, env);
      seeds' := CompleteEndpoint(ev, seeds', Endpoints()[1], index, env);
    }
  }
}
