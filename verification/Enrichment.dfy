/** The OCSF enrichers: what they add to an event, and that they leave the rest of it alone. */
module Enrichment {
  import opened Wrappers
  import opened Events
  import opened EventMaps
  import opened Filters
  import opened GoNumbers

  /** A literal the enrichers insert: a value, or a map with its entries in order. */
  datatype Tree = Scalar(value: Value) | Branch(entries: seq<(string, Tree)>)

  /** Outside inputs of one enrichment: generated field values, the clock, the drawn session start. */
  datatype Env = Env(gen: string -> Value, now: int, sessionStart: int)

  // ---- Inserting literals ----

  ghost function Size(t: Tree): nat {
    if t.Branch? then |t.entries| + 1 else 0
  }

  ghost function CellsOf(p: Path, t: Tree): Event
    decreases t, Size(t)
  {
    match t
    case Scalar(v) => map[p := Leaf(v)]
    case Branch(entries) => EntryCells(p, t, |entries|)[p := Inner]
  }

  ghost function EntryCells(p: Path, t: Tree, n: nat): Event
    requires t.Branch? && n <= |t.entries|
    decreases t, n
  {
    if n == 0 then map[]
    else CellsOf(Child(p, t.entries[n - 1].0), t.entries[n - 1].1) + EntryCells(p, t, n - 1)
  }

  /** The keys of every map of the literal are distinct. */
  predicate DistinctKeys(t: Tree)
    decreases t
  {
    match t
    case Scalar(_) => true
    case Branch(entries) =>
      && (forall i, j | 0 <= i < j < |entries| :: entries[i].0 != entries[j].0)
      && (forall i | 0 <= i < |entries| :: DistinctKeys(entries[i].1))
  }

  lemma {:induction false} CellsLieBelow(p: Path, t: Tree)
    ensures p in CellsOf(p, t) && forall q | q in CellsOf(p, t) :: p <= q
    decreases t, Size(t)
  {
    if t.Branch? {
      EntryCellsLieBelow(p, t, |t.entries|);
    }
  }

  lemma {:induction false} EntryCellsLieBelow(p: Path, t: Tree, n: nat)
    requires t.Branch? && n <= |t.entries|
    ensures forall q | q in EntryCells(p, t, n) :: p < q
    decreases t, n
  {
    if n > 0 {
      EntryCellsLieBelow(p, t, n - 1);
      var (k, sub) := t.entries[n - 1];
      CellsLieBelow(Child(p, k), sub);
      assert p < Child(p, k);
    }
  }

  lemma {:induction false} OneMoreEntry(p: Path, t: Tree, n: nat, e: Event)
    requires t.Branch? && n < |t.entries|
    ensures CellsOf(Child(p, t.entries[n].0), t.entries[n].1) + (EntryCells(p, t, n) + e) == EntryCells(p, t, n + 1) + e
  {}

  lemma {:induction false} AllEntries(p: Path, t: Tree, e: Event)
    requires t.Branch? && p !in e
    ensures EntryCells(p, t, |t.entries|) + e[p := Inner] == CellsOf(p, t) + e
  {}

  /** `event[k] = literal` when the key is missing. */
  ghost function WithDefault(e: Event, k: string, t: Tree): Event {
    if [k] in e then e else CellsOf([k], t) + e
  }

  ghost function WithDefaults(e: Event, defaults: seq<(string, Tree)>): Event {
    if defaults == [] then e
    else
      var (k, t) := defaults[|defaults| - 1];
      WithDefault(WithDefaults(e, defaults[..|defaults| - 1]), k, t)
  }

  // ---- addRequiredOCSFFields ----

  function ClassUid(v: Value): Option<int> {
    match v
    case Int(n) => Some(n)
    case Float(r) => Some(Truncate(r))
    case _ => None
  }

  function Text(s: string): Tree { Scalar(Str(s)) }

  function Number(n: int): Tree { Scalar(Int(n)) }

  function Generated(env: Env, field: string): Tree { Scalar(env.gen(field)) }

  function Device(env: Env): Tree {
    Branch([("hostname", Generated(env, "device.hostname")), ("ip", Generated(env, "device.ip")),
            ("type", Text("Server")), ("type_id", Number(1)),
            ("os", Branch([("name", Text("Linux")), ("type", Text("Linux")), ("type_id", Number(200))]))])
  }

  function Actor(env: Env): Tree {
    Branch([("user", Branch([("name", Generated(env, "actor.user.name")), ("uid", Generated(env, "actor.user.uid"))]))])
  }

  function Metadata(): Tree {
    Branch([("product", Branch([("vendor_name", Text("TelHawk")), ("name", Text("Event Seeder")),
                                ("version", Text("2.0.0-rule-based"))])),
            ("version", Text("1.1.0"))])
  }

  function Session(env: Env): Tree {
    Branch([("uid", Generated(env, "actor.session.uid")), ("issuer", Text("TelHawk Auth")),
            ("created_at", Scalar(Int64(env.sessionStart)))])
  }

  /** The keys written whether or not they are there. */
  function Stamps(uid: int): seq<(string, Value)> {
    match uid
    case 3002 => Stamp3(3, "Identity & Access Management", "Authentication")
    case 4001 => Stamp3(4, "Network Activity", "Network Activity")
    case 1007 => Stamp3(1, "System Activity", "Process Activity")
    case 3001 => Stamp3(3, "Identity & Access Management", "Account Change")
    case 4003 => Stamp3(4, "Network Activity", "DNS Activity")
    case 4002 => Stamp3(4, "Network Activity", "HTTP Activity")
    case 4006 => Stamp3(4, "Network Activity", "File Activity")
    case _ => [("category_uid", Int(0)), ("category_name", Str("Unknown"))]
  }

  function Stamp3(uid: int, category: string, class_: string): seq<(string, Value)> {
    [("category_uid", Int(uid)), ("category_name", Str(category)), ("class_name", Str(class_))]
  }

  function Stamped(): set<string> { {"category_uid", "category_name", "class_name"} }

  function Activity(id: int, name: string, severity: int): seq<(string, Tree)> {
    [("activity_id", Number(id)), ("activity_name", Text(name)), ("severity_id", Number(severity))]
  }

  /** The class-specific keys written only when missing; a failed logon is told by an int status_id of 2. */
  function ClassDefaults(uid: int, statusId: Value, env: Env): seq<(string, Tree)> {
    match uid
    case 3002 =>
      var failed := statusId == Int(2);
      Activity(1, "Logon", if failed then 3 else 1) + [("status", Text(if failed then "Failure" else "Success"))]
    case 4001 =>
      Activity(5, "Traffic", 1) +
      [("connection_info", Branch([("protocol_name", Text("TCP")), ("direction", Text("outbound")),
                                   ("direction_id", Number(2))]))]
    case 1007 =>
      Activity(1, "Launch", 1) +
      [("process", Branch([("name", Generated(env, "process.name")), ("pid", Generated(env, "process.pid")),
                           ("cmd_line", Generated(env, "process.cmd_line")),
                           ("file", Branch([("path", Generated(env, "file.path")),
                                            ("name", Generated(env, "file.name"))]))])),
       ("actor", Actor(env))]
    case 3001 =>
      Activity(1, "Create", 2) +
      [("user", Branch([("name", Generated(env, "user.name")), ("uid", Generated(env, "user.uid"))])),
       ("actor", Actor(env))]
    case 4003 =>
      Activity(1, "Query", 1) +
      [("query", Branch([("hostname", Generated(env, "query.hostname")), ("type", Text("A")), ("class", Text("IN"))]))]
    case 4002 =>
      Activity(1, "HTTP Request", 1) +
      [("http_request", Branch([("method", Text("GET")),
                                ("url", Branch([("path", Generated(env, "http_request.url.path")),
                                                ("scheme", Text("https")),
                                                ("hostname", Generated(env, "http_request.url.hostname"))])),
                                ("user_agent", Generated(env, "http_request.user_agent"))]))]
    case 4006 =>
      Activity(1, "Create", 1) +
      [("file", Branch([("path", Generated(env, "file.path")), ("name", Generated(env, "file.name")),
                        ("size", Generated(env, "file.size"))])),
       ("actor", Actor(env))]
    case _ => [("severity_id", Number(1))]
  }

  ghost function WithStamps(e: Event, stamps: seq<(string, Value)>): Event {
    if stamps == [] then e
    else
      var (k, v) := stamps[|stamps| - 1];
      Put(WithStamps(e, stamps[..|stamps| - 1]), [k], v)
  }

  ghost function WithSession(e: Event, uid: int, env: Env): Event {
    if uid == 3002 && ["actor"] in e && e[["actor"]].Inner? && ["actor", "session"] !in e
    then CellsOf(["actor", "session"], Session(env)) + e
    else e
  }

  function LastDefaults(env: Env): seq<(string, Tree)> {
    [("metadata", Metadata()), ("time", Scalar(Int64(env.now)))]
  }

  /** What an event of a class gets. */
  ghost function EnrichedAs(e: Event, uid: int, statusId: Value, env: Env): Event {
    var stamped := WithStamps(WithDefault(e, "device", Device(env)), Stamps(uid));
    var filled := WithDefaults(stamped, ClassDefaults(uid, statusId, env));
    WithDefaults(WithSession(filled, uid, env), LastDefaults(env))
  }

  /** enrichEvent */
  ghost function Enriched(e: Event, env: Env): Event {
    match ClassUid(Get(e, ["class_uid"]))
    case None => e
    case Some(uid) => EnrichedAs(e, uid, Get(e, ["status_id"]), env)
  }

  // ---- enrichNetworkEvent ----

  function Endpoints(): seq<string> { ["src_endpoint", "dst_endpoint"] }

  function EndpointIp(endpoint: string): string {
    "." + endpoint + ".ip"
  }

  /** The group_by values after an endpoint was seen: the first event's address is kept for the later ones. */
  ghost function SeedsAfter(e: Event, seeds: map<string, Value>, endpoint: string, index: nat, env: Env)
    : map<string, Value>
  {
    if index == 0 && [endpoint] in e && e[[endpoint]].Inner? && [endpoint, "ip"] !in e
    then seeds[EndpointIp(endpoint) := env.gen(EndpointIp(endpoint))]
    else seeds
  }

  ghost function WithEntry(e: Event, endpoint: string, k: string, v: Value): Event {
    if [endpoint, k] in e then e else e[[endpoint, k] := Leaf(v)]
  }

  ghost function WithEndpoint(e: Event, seeds: map<string, Value>, endpoint: string, env: Env): Event {
    if [endpoint] in e && e[[endpoint]].Inner? then
      var ip := if EndpointIp(endpoint) in seeds then seeds[EndpointIp(endpoint)] else Nil;
      var e1 := WithEntry(e, endpoint, "ip", ip);
      var e2 := WithEntry(e1, endpoint, "port", env.gen("." + endpoint + ".port"));
      WithEntry(WithEntry(e2, endpoint, "name", Str("")), endpoint, "uid", Str(""))
    else e
  }

  /** The event and the group_by values after enrichNetworkEvent. */
  ghost function NetworkEnriched(e: Event, seeds: map<string, Value>, index: nat, env: Env)
    : (Event, map<string, Value>)
  {
    if !Get(e, ["class_uid"]).Float? || Truncate(Get(e, ["class_uid"]).float_) != 4001 then (e, seeds)
    else
      var seeds1 := SeedsAfter(e, seeds, Endpoints()[0], index, env);
      var e1 := WithEndpoint(e, seeds1, Endpoints()[0], env);
      var seeds2 := SeedsAfter(e1, seeds1, Endpoints()[1], index, env);
      (WithEndpoint(e1, seeds2, Endpoints()[1], env), seeds2)
  }

  // ---- Nothing that was there is changed ----

  /** Every cell survives as it is, except those at or below the given top-level keys. */
  ghost predicate Grown(e: Event, e': Event, except: set<string>) {
    forall q | q in e && q != [] && q[0] !in except :: q in e' && e'[q] == e[q]
  }

  lemma {:induction false} DefaultsGrow(e: Event, defaults: seq<(string, Tree)>)
    ensures Grown(e, WithDefaults(e, defaults), {})
  {
    if defaults != [] {
      DefaultsGrow(e, defaults[..|defaults| - 1]);
    }
  }

  lemma {:induction false} StampsGrow(e: Event, stamps: seq<(string, Value)>)
    requires forall i | 0 <= i < |stamps| :: stamps[i].0 in Stamped()
    ensures Grown(e, WithStamps(e, stamps), Stamped())
    ensures forall i | 0 <= i < |stamps| :: [stamps[i].0] in WithStamps(e, stamps)
  {
    if stamps != [] {
      StampsGrow(e, stamps[..|stamps| - 1]);
    }
  }

  lemma {:induction false} GrownTrans(e: Event, e': Event, e'': Event, except: set<string>)
    requires Grown(e, e', except) && Grown(e', e'', except)
    ensures Grown(e, e'', except)
  {}

  lemma {:induction false} StampKeys(uid: int)
    ensures forall i | 0 <= i < |Stamps(uid)| :: Stamps(uid)[i].0 in Stamped()
  {}

  /** enrichEvent changes nothing but the three stamped keys. */
  lemma {:induction false} EnrichedGrows(e: Event, env: Env)
    ensures Grown(e, Enriched(e, env), Stamped())
  {
    match ClassUid(Get(e, ["class_uid"]))
    case None =>
    case Some(uid) =>
      var e1 := WithDefault(e, "device", Device(env));
      var e2 := WithStamps(e1, Stamps(uid));
      var e3 := WithDefaults(e2, ClassDefaults(uid, Get(e, ["status_id"]), env));
      var e4 := WithSession(e3, uid, env);
      var last := LastDefaults(env);
      StampKeys(uid);
      StampsGrow(e1, Stamps(uid));
      DefaultsGrow(e2, ClassDefaults(uid, Get(e, ["status_id"]), env));
      DefaultsGrow(e4, last);
      GrownTrans(e, e1, e2, Stamped());
      GrownTrans(e, e2, e3, Stamped());
      GrownTrans(e, e3, e4, Stamped());
      GrownTrans(e, e4, WithDefaults(e4, last), Stamped());
  }

  lemma {:induction false} EndpointGrows(e: Event, seeds: map<string, Value>, endpoint: string, env: Env)
    ensures Grown(e, WithEndpoint(e, seeds, endpoint, env), {})
  {}

  /** enrichNetworkEvent changes nothing at all that is there. */
  lemma {:induction false} NetworkEnrichedGrows(e: Event, seeds: map<string, Value>, index: nat, env: Env)
    ensures Grown(e, NetworkEnriched(e, seeds, index, env).0, {})
  {
    var seeds1 := SeedsAfter(e, seeds, Endpoints()[0], index, env);
    var e1 := WithEndpoint(e, seeds1, Endpoints()[0], env);
    EndpointGrows(e, seeds1, Endpoints()[0], env);
    EndpointGrows(e1, SeedsAfter(e1, seeds1, Endpoints()[1], index, env), Endpoints()[1], env);
  }

  /** A field whose first part is not a stamped key keeps its value. */
  lemma {:induction false} GrownKeeps(e: Event, e': Event, except: set<string>, fields: set<string>)
    requires Grown(e, e', except) && forall g | g in fields :: GetParts(g)[0] !in except
    ensures Keeps(e, e', fields)
  {}

  /** No field under a stamped key, or none under the class, without which neither enricher does anything. */
  predicate Unstamped(fields: set<string>) {
    || (forall g | g in fields :: GetParts(g)[0] !in Stamped())
    || (forall g | g in fields :: GetParts(g)[0] != "class_uid")
  }

  lemma {:induction false} UnclassedIsUnchanged(e: Event, fields: set<string>, seeds: map<string, Value>, index: nat,
                                                env: Env)
    requires Conforms(e, fields) && forall g | g in fields :: GetParts(g)[0] != "class_uid"
    ensures Enriched(e, env) == e && NetworkEnriched(e, seeds, index, env) == (e, seeds)
  {
    forall g | g in fields ensures !(["class_uid"] <= GetParts(g)) {}
    assert ["class_uid"] in e ==> Allotted(e, fields, ["class_uid"]);
  }

  /** So neither enricher changes a value at such fields. */
  lemma {:induction false} EnrichmentKeeps(e: Event, seeds: map<string, Value>, index: nat, env: Env,
                                          fields: set<string>)
    requires Conforms(e, fields) && Unstamped(fields)
    ensures Keeps(e, Enriched(e, env), fields)
    ensures Keeps(e, Enriched(NetworkEnriched(e, seeds, index, env).0, env), fields)
  {
    if forall g | g in fields :: GetParts(g)[0] !in Stamped() {
      var e' := NetworkEnriched(e, seeds, index, env).0;
      NetworkEnrichedGrows(e, seeds, index, env);
      EnrichedGrows(e, env);
      EnrichedGrows(e', env);
      GrownKeeps(e, Enriched(e, env), Stamped(), fields);
      GrownKeeps(e, e', {}, fields);
      GrownKeeps(e', Enriched(e', env), Stamped(), fields);
    } else {
      UnclassedIsUnchanged(e, fields, seeds, index, env);
    }
  }

  /**
   * A match that involves no `not` survives both enrichers: the grown event is never judged not to match, and it
   * is judged to match unless the evaluation comes upon a list or object to compare with. For enrichEvent the
   * filter must not look at the three keys it stamps.
   */
  lemma {:induction false} EnrichedStillMatches(e: Event, f: Filter, seeds: map<string, Value>, index: nat, env: Env)
    requires NotFree(f) && Passes(e, f)
    ensures StillMatches(NetworkEnriched(e, seeds, index, env).0, f)
    ensures (forall g | g in FieldsOf(f) :: GetParts(g)[0] !in Stamped()) ==> StillMatches(Enriched(e, env), f)
  {
    NetworkEnrichedGrows(e, seeds, index, env);
    GrownStillMatches(e, NetworkEnriched(e, seeds, index, env).0, f, {});
    if forall g | g in FieldsOf(f) :: GetParts(g)[0] !in Stamped() {
      EnrichedGrows(e, env);
      GrownStillMatches(e, Enriched(e, env), f, Stamped());
    }
  }

  ghost predicate StillMatches(e: Event, f: Filter) {
    Judge(e, f) != Some(false) && (Quiet(f) ==> Passes(e, f))
  }

  lemma {:induction false} GrownStillMatches(e: Event, e': Event, f: Filter, except: set<string>)
    requires NotFree(f) && Passes(e, f) && Grown(e, e', except)
    requires forall g | g in FieldsOf(f) :: GetParts(g)[0] !in except
    ensures StillMatches(e', f)
  {
    VerdictsAreMatches(e, f);
    GrownKeeps(e, e', except, FieldsOf(f));
    NotFreeMatchIsMonotone(e, e', f);
  }

  lemma {:induction false} StampsDiffer(uid: int)
    ensures forall i, j | 0 <= i < j < |Stamps(uid)| :: Stamps(uid)[i].0 != Stamps(uid)[j].0
  {}

  lemma {:induction false} StampHolds(e: Event, stamps: seq<(string, Value)>, i: nat)
    requires i < |stamps| && forall i, j | 0 <= i < j < |stamps| :: stamps[i].0 != stamps[j].0
    ensures Get(WithStamps(e, stamps), [stamps[i].0]) == stamps[i].1
  {
    if i < |stamps| - 1 {
      StampHolds(e, stamps[..|stamps| - 1], i);
    }
  }

  /** On the stamped keys the class decides: whatever the event held there, it holds the class's value afterwards. */
  lemma {:induction false} StampsWin(e: Event, env: Env, uid: int, i: nat)
    requires ClassUid(Get(e, ["class_uid"])) == Some(uid) && i < |Stamps(uid)|
    ensures Get(Enriched(e, env), [Stamps(uid)[i].0]) == Stamps(uid)[i].1
  {
    var (k, v) := Stamps(uid)[i];
    var e1 := WithStamps(WithDefault(e, "device", Device(env)), Stamps(uid));
    var defaults, last := ClassDefaults(uid, Get(e, ["status_id"]), env), LastDefaults(env);
    var e2 := WithDefaults(e1, defaults);
    var e3 := WithSession(e2, uid, env);
    StampsDiffer(uid);
    StampKeys(uid);
    StampsGrow(WithDefault(e, "device", Device(env)), Stamps(uid));
    StampHolds(WithDefault(e, "device", Device(env)), Stamps(uid), i);
    DefaultsGrow(e1, defaults);
    DefaultsGrow(e3, last);
    assert [k] in e1 && e1[[k]] == e2[[k]] == e3[[k]] == WithDefaults(e3, last)[[k]];
  }
}
