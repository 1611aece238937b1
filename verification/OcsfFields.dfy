/** What an enriched event holds, said of the event: the fields that every event of a class must have. */
module OcsfFields {
  import opened Wrappers
  import opened Events
  import opened EventMaps
  import opened Enrichment
  import opened GoNumbers

  /** The number without its fraction. */
  predicate IsWholePart(n: int, r: real) {
    if r >= 0.0 then n as real <= r < n as real + 1.0 else n as real - 1.0 < r <= n as real
  }

  /** The class that an event's class_uid names: an int, or a float without its fraction. */
  predicate IsClass(v: Value, uid: int) {
    v == Int(uid) || (v.Float? && IsWholePart(uid, v.float_))
  }

  /** The classes the enricher knows. */
  const KNOWN: set<int> := {3002, 4001, 1007, 3001, 4003, 4002, 4006}

  /** An event with a class has the fields that its class asks for. */
  ghost predicate Complete(e: Event) {
    forall uid | IsClass(Get(e, ["class_uid"]), uid) :: CompleteFor(e, uid)
  }

  ghost predicate CompleteFor(e: Event, uid: int) {
    && ["device"] in e && ["severity_id"] in e && ["metadata"] in e && ["time"] in e
    && ["category_uid"] in e && ["category_name"] in e
    && (uid in KNOWN ==>
          && Get(e, ["category_uid"]) == Int(uid / 1000)
          && ["class_name"] in e && ["activity_id"] in e && ["activity_name"] in e
          && forall k | k in OwnFields(uid) :: [k] in e)
    && (uid !in KNOWN ==> Get(e, ["category_uid"]) == Int(0))
  }

  /** The fields of a known class. */
  function OwnFields(uid: int): seq<string> {
    if uid == 3002 then ["status"]
    else if uid == 4001 then ["connection_info"]
    else if uid == 1007 then ["process", "actor"]
    else if uid == 3001 then ["user", "actor"]
    else if uid == 4003 then ["query"]
    else if uid == 4002 then ["http_request"]
    else if uid == 4006 then ["file", "actor"]
    else []
  }

  lemma {:induction false} ClassIsRead(v: Value, uid: int)
    ensures ClassUid(v) == Some(uid) <==> IsClass(v, uid)
  {
    if v.Float? {
      TruncateIsClose(v.float_);
      if IsWholePart(uid, v.float_) { OneWholePart(uid, Truncate(v.float_), v.float_); }
    }
  }

  lemma {:induction false} OneWholePart(m: int, n: int, r: real)
    requires IsWholePart(m, r) && IsWholePart(n, r)
    ensures m == n
  {}

  // ---- Defaults ----

  lemma {:induction false} DefaultsAreThere(e: Event, defaults: seq<(string, Tree)>)
    ensures forall i | 0 <= i < |defaults| :: [defaults[i].0] in WithDefaults(e, defaults)
  {
    if defaults != [] {
      var init, last := defaults[..|defaults| - 1], defaults[|defaults| - 1];
      DefaultsAreThere(e, init);
      CellsLieBelow([last.0], last.1);
      assert forall i | 0 <= i < |init| :: defaults[i] == init[i];
    }
  }

  /** The keys that an event of a class is given where they are missing. */
  function DefaultNames(uid: int): seq<string> {
    if uid in KNOWN then ["activity_id", "activity_name", "severity_id"] + OwnFields(uid) else ["severity_id"]
  }

  ghost predicate AreNamed(defaults: seq<(string, Tree)>, names: seq<string>) {
    |defaults| == |names| && forall i | 0 <= i < |names| :: defaults[i].0 == names[i]
  }

  lemma {:induction false} NamesOfDefaults(uid: int, statusId: Value, env: Env)
    ensures AreNamed(ClassDefaults(uid, statusId, env), DefaultNames(uid))
  {
    if uid in {3002, 4001, 1007} {
      NamesOfHostDefaults(uid, statusId, env);
    } else {
      NamesOfOtherDefaults(uid, statusId, env);
    }
  }

  lemma {:induction false} NamesOfHostDefaults(uid: int, statusId: Value, env: Env)
    requires uid in {3002, 4001, 1007}
    ensures AreNamed(ClassDefaults(uid, statusId, env), DefaultNames(uid))
  {}

  lemma {:induction false} NamesOfOtherDefaults(uid: int, statusId: Value, env: Env)
    requires uid !in {3002, 4001, 1007}
    ensures AreNamed(ClassDefaults(uid, statusId, env), DefaultNames(uid))
  {}

  lemma {:induction false} StampsOfClass(uid: int)
    ensures |Stamps(uid)| >= 2 && Stamps(uid)[0].0 == "category_uid" && Stamps(uid)[1].0 == "category_name"
    ensures uid in KNOWN ==> |Stamps(uid)| == 3 && Stamps(uid)[2].0 == "class_name"
    ensures Stamps(uid)[0].1 == if uid in KNOWN then Int(uid / 1000) else Int(0)
  {}

  lemma {:induction false} DefaultIsUnstamped(uid: int, i: nat)
    requires i < |DefaultNames(uid)|
    ensures DefaultNames(uid)[i] !in Stamped()
  {
    var k := DefaultNames(uid)[i];
    assert forall l | l in Stamped() :: l[0] == 'c' && l[1] != 'o';
    assert k[0] != 'c' || k[1] == 'o';
  }

  /** What the steps of the enrichment put at the top of an event with a class. */
  lemma {:induction false} EnrichedAsIsComplete(e: Event, uid: int, statusId: Value, env: Env)
    ensures var r := EnrichedAs(e, uid, statusId, env);
            && ["device"] in r && ["metadata"] in r && ["time"] in r
            && forall i | 0 <= i < |DefaultNames(uid)| :: [DefaultNames(uid)[i]] in r
  {
    var e0 := WithDefault(e, "device", Device(env));
    var e1 := WithStamps(e0, Stamps(uid));
    var defaults, last := ClassDefaults(uid, statusId, env), LastDefaults(env);
    var e2 := WithDefaults(e1, defaults);
    var e3 := WithSession(e2, uid, env);
    CellsLieBelow(["device"], Device(env));
    StampKeys(uid);
    StampsGrow(e0, Stamps(uid));
    DefaultsGrow(e1, defaults);
    DefaultsAreThere(e1, defaults);
    NamesOfDefaults(uid, statusId, env);
    DefaultsGrow(e3, last);
    DefaultsAreThere(e3, last);
    assert last[0].0 == "metadata" && last[1].0 == "time";
    assert ["device"] in e0 && ["device"] in e1 && ["device"] in e2 && ["device"] in e3;
    forall i | 0 <= i < |DefaultNames(uid)| ensures [DefaultNames(uid)[i]] in e3 && DefaultNames(uid)[i] !in Stamped() {
      assert [defaults[i].0] in e2;
      DefaultIsUnstamped(uid, i);
    }
  }

  lemma {:induction false} NamedIsThere(e: Event, uid: int)
    requires forall i | 0 <= i < |DefaultNames(uid)| :: [DefaultNames(uid)[i]] in e
    ensures ["severity_id"] in e
    ensures uid in KNOWN ==>
              ["activity_id"] in e && ["activity_name"] in e && forall k | k in OwnFields(uid) :: [k] in e
  {
    var names := DefaultNames(uid);
    if uid in KNOWN {
      assert names[0] == "activity_id" && names[1] == "activity_name" && names[2] == "severity_id";
      forall k | k in OwnFields(uid) ensures [k] in e {
        var i :| 0 <= i < |OwnFields(uid)| && OwnFields(uid)[i] == k;
        assert names[3 + i] == k;
      }
    } else {
      assert names[0] == "severity_id";
    }
  }

  /** An enriched event is complete, whatever it held before. */
  lemma {:induction false} EnrichedIsComplete(e: Event, env: Env)
    ensures Complete(Enriched(e, env))
  {
    var r := Enriched(e, env);
    forall uid | IsClass(Get(r, ["class_uid"]), uid) ensures CompleteFor(r, uid) {
      ClassStays(e, env, uid);
      EnrichedAsIsComplete(e, uid, Get(e, ["status_id"]), env);
      NamedIsThere(r, uid);
      StampsOfClass(uid);
      StampsWin(e, env, uid, 0);
      StampsWin(e, env, uid, 1);
      StampsNotNil(uid);
      if uid in KNOWN { StampsWin(e, env, uid, 2); }
    }
  }

  lemma {:induction false} StampsNotNil(uid: int)
    ensures forall i | 0 <= i < |Stamps(uid)| :: Stamps(uid)[i].1 != Nil
  {}

  lemma {:induction false} ClassStays(e: Event, env: Env, uid: int)
    requires IsClass(Get(Enriched(e, env), ["class_uid"]), uid)
    ensures ClassUid(Get(e, ["class_uid"])) == Some(uid)
  {
    EnrichedGrows(e, env);
    ClassIsRead(Get(Enriched(e, env), ["class_uid"]), uid);
  }

  // ---- The names of the classes ----

  function CategoryName(category: int): string {
    if category == 1 then "System Activity"
    else if category == 3 then "Identity & Access Management"
    else if category == 4 then "Network Activity"
    else "Unknown"
  }

  /** The name of a known class. */
  function ClassName(uid: int): string {
    if uid == 1007 then "Process Activity" else if uid == 3001 then "Account Change"
    else if uid == 3002 then "Authentication" else if uid == 4001 then "Network Activity"
    else if uid == 4002 then "HTTP Activity" else if uid == 4003 then "DNS Activity" else "File Activity"
  }

  /** An enriched event names its category, by the thousands of the class, and its class. */
  lemma {:induction false} ClassIsNamed(e: Event, env: Env, uid: int)
    requires IsClass(Get(e, ["class_uid"]), uid)
    ensures var r := Enriched(e, env);
            && Get(r, ["category_name"]) == Str(CategoryName(if uid in KNOWN then uid / 1000 else 0))
            && (uid in KNOWN ==> Get(r, ["class_name"]) == Str(ClassName(uid)))
  {
    ClassIsRead(Get(e, ["class_uid"]), uid);
    StampedNames(uid);
    StampsWin(e, env, uid, 1);
    if uid in KNOWN { StampsWin(e, env, uid, 2); }
  }

  lemma {:induction false} StampedNames(uid: int)
    ensures |Stamps(uid)| >= 2
    ensures Stamps(uid)[1] == ("category_name", Str(CategoryName(if uid in KNOWN then uid / 1000 else 0)))
    ensures uid in KNOWN ==> |Stamps(uid)| == 3 && Stamps(uid)[2] == ("class_name", Str(ClassName(uid)))
  {}

  // ---- The endpoints of a network event ----

  /** The endpoints that are maps have an address, a port, a name and an identifier. */
  ghost predicate EndpointsComplete(e: Event) {
    forall endpoint | endpoint in {"src_endpoint", "dst_endpoint"} && [endpoint] in e && e[[endpoint]].Inner? ::
      [endpoint, "ip"] in e && [endpoint, "port"] in e && [endpoint, "name"] in e && [endpoint, "uid"] in e
  }

  lemma {:induction false} NetworkEnrichedHasEndpoints(e: Event, seeds: map<string, Value>, index: nat, env: Env)
    requires IsNetworkClass(Get(e, ["class_uid"]))
    ensures EndpointsComplete(NetworkEnriched(e, seeds, index, env).0)
  {
    TruncateIsClose(Get(e, ["class_uid"]).float_);
    var seeds1 := SeedsAfter(e, seeds, "src_endpoint", index, env);
    var e1 := WithEndpoint(e, seeds1, "src_endpoint", env);
    var seeds2 := SeedsAfter(e1, seeds1, "dst_endpoint", index, env);
    EndpointGrows(e1, seeds2, "dst_endpoint", env);
    assert Endpoints()[0] == "src_endpoint" && Endpoints()[1] == "dst_endpoint";
  }

  /** An endpoint without an address gets the one that the batch shares, which the first event settles. */
  lemma {:induction false} EndpointAddressIsShared(e: Event, seeds: map<string, Value>, index: nat, env: Env, k: string)
    requires IsNetworkClass(Get(e, ["class_uid"])) && k in {"src_endpoint", "dst_endpoint"}
    requires [k] in e && e[[k]].Inner? && [k, "ip"] !in e
    ensures var (r, shared) := NetworkEnriched(e, seeds, index, env);
            && (index == 0 ==> "." + k + ".ip" in shared && shared["." + k + ".ip"] == env.gen("." + k + ".ip"))
            && (index > 0 ==> shared == seeds)
            && Get(r, [k, "ip"]) == if "." + k + ".ip" in shared then shared["." + k + ".ip"] else Nil
  {
    TruncateIsClose(Get(e, ["class_uid"]).float_);
    var (s, d) := ("src_endpoint", "dst_endpoint");
    var seeds1 := SeedsAfter(e, seeds, s, index, env);
    var e1 := WithEndpoint(e, seeds1, s, env);
    assert Endpoints()[0] == s && Endpoints()[1] == d;
    assert s[0] == 's' && d[0] == 'd';
    if k == s {
      AddressIsTaken(e, seeds, s, index, env);
      OtherEndpointKeeps(e1, seeds1, d, s, index, env);
    } else {
      OtherEndpointKeeps(e, seeds, s, d, index, env);
      AddressIsTaken(e1, seeds1, d, index, env);
    }
  }

  lemma {:induction false} AddressIsTaken(e: Event, seeds: map<string, Value>, k: string, index: nat, env: Env)
    requires [k] in e && e[[k]].Inner? && [k, "ip"] !in e
    ensures var shared := SeedsAfter(e, seeds, k, index, env);
            && (index == 0 ==> EndpointIp(k) in shared && shared[EndpointIp(k)] == env.gen(EndpointIp(k)))
            && (index > 0 ==> shared == seeds)
            && Get(WithEndpoint(e, shared, k, env), [k, "ip"]) ==
               if EndpointIp(k) in shared then shared[EndpointIp(k)] else Nil
  {
    assert [k, "ip"][1] == "ip" && [k, "port"][1] == "port" && [k, "name"][1] == "name" && [k, "uid"][1] == "uid";
  }

  lemma {:induction false} OtherEndpointKeeps(e: Event, seeds: map<string, Value>, k: string, l: string, index: nat,
                                              env: Env)
    requires k != l && '.' !in k && '.' !in l
    ensures var shared := SeedsAfter(e, seeds, k, index, env);
            && (EndpointIp(l) in shared <==> EndpointIp(l) in seeds)
            && (EndpointIp(l) in seeds ==> shared[EndpointIp(l)] == seeds[EndpointIp(l)])
            && (index > 0 ==> shared == seeds)
            && var r := WithEndpoint(e, shared, k, env);
               && ([l] in r <==> [l] in e) && ([l] in e ==> r[[l]] == e[[l]])
               && ([l, "ip"] in r <==> [l, "ip"] in e) && ([l, "ip"] in e ==> r[[l, "ip"]] == e[[l, "ip"]])
  {
    EndpointsApart(k, l);
    AddressNamesApart(k, l);
  }

  lemma {:induction false} AddressNamesApart(k: string, l: string)
    requires k != l
    ensures EndpointIp(k) != EndpointIp(l)
  {
    assert EndpointIp(k)[1..|k| + 1] == k && EndpointIp(l)[1..|l| + 1] == l;
  }

  lemma {:induction false} EndpointsApart(k: string, l: string)
    requires k != l
    ensures forall x, y :: [k, x] != [l, y] && [k, x] != [l] && [k] != [l, y]
  {
    forall x, y ensures [k, x] != [l, y] { assert [k, x][0] == k && [l, y][0] == l; }
    forall x ensures [k, x] != [l] { assert |[k, x]| == 2; }
  }

  /** The class is network activity, as a float. */
  predicate IsNetworkClass(v: Value) {
    v.Float? && IsWholePart(4001, v.float_)
  }

  // ---- Defaults written where nothing was ----

  /** No two entries of a list of defaults have one key. */
  ghost predicate DistinctNames(defaults: seq<(string, Tree)>) {
    forall i, j | 0 <= i < j < |defaults| :: defaults[i].0 != defaults[j].0
  }

  /** A missing default is written as it is. */
  lemma {:induction false} MissingIsWritten(e: Event, defaults: seq<(string, Tree)>, i: nat, v: Value)
    requires DistinctNames(defaults) && i < |defaults| && [defaults[i].0] !in e && defaults[i].1 == Scalar(v)
    ensures Get(WithDefaults(e, defaults), [defaults[i].0]) == v
  {
    var n := |defaults| - 1;
    var init, last := defaults[..n], defaults[n];
    if i == n {
      StillMissing(e, init, last.0);
    } else {
      MissingIsWritten(e, init, i, v);
      DefaultsAreThere(e, init);
      assert init[i] == defaults[i];
      OtherKeyOutside(last.0, last.1, defaults[i].0);
    }
  }

  lemma {:induction false} OtherKeyOutside(l: string, t: Tree, k: string)
    requires k != l
    ensures [k] !in CellsOf([l], t)
  {
    CellsLieBelow([l], t);
    assert [k][0] == k && [l][0] == l;
  }

  lemma {:induction false} StillMissing(e: Event, defaults: seq<(string, Tree)>, k: string)
    requires [k] !in e && forall i | 0 <= i < |defaults| :: defaults[i].0 != k
    ensures [k] !in WithDefaults(e, defaults)
  {
    if defaults != [] {
      var last := defaults[|defaults| - 1];
      StillMissing(e, defaults[..|defaults| - 1], k);
      OtherKeyOutside(last.0, last.1, k);
    }
  }

  lemma {:induction false} StampsAddNothingElse(e: Event, stamps: seq<(string, Value)>, k: string)
    requires [k] !in e && forall i | 0 <= i < |stamps| :: stamps[i].0 != k
    ensures [k] !in WithStamps(e, stamps)
  {
    if stamps != [] {
      StampsAddNothingElse(e, stamps[..|stamps| - 1], k);
    }
  }

  /** What an event that lacks the key gets as a plain default of its class. */
  lemma {:induction false} DefaultIsWritten(e: Event, env: Env, uid: int, i: nat, k: string, v: Value)
    requires IsClass(Get(e, ["class_uid"]), uid) && [k] !in e && k != "device" && k !in Stamped()
    requires var defaults := ClassDefaults(uid, Get(e, ["status_id"]), env);
             i < |defaults| && DistinctNames(defaults) && defaults[i] == (k, Scalar(v))
    ensures Get(Enriched(e, env), [k]) == v
  {
    ClassIsRead(Get(e, ["class_uid"]), uid);
    var defaults, last := ClassDefaults(uid, Get(e, ["status_id"]), env), LastDefaults(env);
    var e0 := WithDefault(e, "device", Device(env));
    var e1 := WithStamps(e0, Stamps(uid));
    var e2 := WithDefaults(e1, defaults);
    var e3 := WithSession(e2, uid, env);
    CellsLieBelow(["device"], Device(env));
    StampKeys(uid);
    StampsAddNothingElse(e0, Stamps(uid), k);
    MissingIsWritten(e1, defaults, i, v);
    DefaultsAreThere(e1, defaults);
    DefaultsGrow(e3, last);
    assert [k] in e2 && e2[[k]] == e3[[k]] == WithDefaults(e3, last)[[k]];
  }

  /** The activity of a class and its name. */
  function ActivityId(uid: int): int {
    if uid == 4001 then 5 else 1
  }

  function ActivityName(uid: int): string {
    if uid == 3002 then "Logon" else if uid == 4001 then "Traffic" else if uid == 1007 then "Launch"
    else if uid == 4003 then "Query" else if uid == 4002 then "HTTP Request" else "Create"
  }

  lemma {:induction false} ActivityDefaults(uid: int, statusId: Value, env: Env)
    requires uid in KNOWN
    ensures var defaults := ClassDefaults(uid, statusId, env);
            && DistinctNames(defaults) && |defaults| >= 3
            && defaults[0] == ("activity_id", Scalar(Int(ActivityId(uid))))
            && defaults[1] == ("activity_name", Scalar(Str(ActivityName(uid))))
            && defaults[2] == ("severity_id", Scalar(Int(if uid == 3001 then 2
                                                         else if uid == 3002 && statusId == Int(2) then 3 else 1)))
  {}

  /** The activity, its name and a severity are filled in where they are missing; a failed logon is more severe. */
  lemma {:induction false} ActivityIsFilled(e: Event, env: Env, uid: int)
    requires uid in KNOWN && IsClass(Get(e, ["class_uid"]), uid)
    ensures var r := Enriched(e, env);
            && (["activity_id"] !in e ==> Get(r, ["activity_id"]) == Int(ActivityId(uid)))
            && (["activity_name"] !in e ==> Get(r, ["activity_name"]) == Str(ActivityName(uid)))
            && (["severity_id"] !in e ==>
                  Get(r, ["severity_id"]) == Int(if uid == 3001 then 2
                                                 else if uid == 3002 && Get(e, ["status_id"]) == Int(2) then 3 else 1))
  {
    var statusId := Get(e, ["status_id"]);
    ActivityDefaults(uid, statusId, env);
    var defaults := ClassDefaults(uid, statusId, env);
    if ["activity_id"] !in e { DefaultIsWritten(e, env, uid, 0, "activity_id", Int(ActivityId(uid))); }
    if ["activity_name"] !in e { DefaultIsWritten(e, env, uid, 1, "activity_name", Str(ActivityName(uid))); }
    if ["severity_id"] !in e { DefaultIsWritten(e, env, uid, 2, "severity_id", defaults[2].1.value); }
  }

  /** A logon without a status gets one: a failure if its status_id is the int 2, a success otherwise. */
  lemma {:induction false} LogonStatusIsFilled(e: Event, env: Env)
    requires IsClass(Get(e, ["class_uid"]), 3002) && ["status"] !in e
    ensures Get(Enriched(e, env), ["status"]) == Str(if Get(e, ["status_id"]) == Int(2) then "Failure" else "Success")
  {
    var statusId := Get(e, ["status_id"]);
    ActivityDefaults(3002, statusId, env);
    var status := Str(if statusId == Int(2) then "Failure" else "Success");
    assert ClassDefaults(3002, statusId, env)[3] == ("status", Scalar(status));
    DefaultIsWritten(e, env, 3002, 3, "status", status);
  }

  /** A logon by an actor that is a map has a session. */
  lemma {:induction false} LogonHasSession(e: Event, env: Env)
    requires IsClass(Get(e, ["class_uid"]), 3002) && ["actor"] in e && e[["actor"]].Inner?
    ensures ["actor", "session"] in Enriched(e, env)
  {
    ClassIsRead(Get(e, ["class_uid"]), 3002);
    var defaults, last := ClassDefaults(3002, Get(e, ["status_id"]), env), LastDefaults(env);
    var e0 := WithDefault(e, "device", Device(env));
    var e1 := WithStamps(e0, Stamps(3002));
    var e2 := WithDefaults(e1, defaults);
    StampKeys(3002);
    StampsGrow(e0, Stamps(3002));
    DefaultsGrow(e1, defaults);
    assert ["actor"][0] == "actor" && ["actor", "session"][0] == "actor";
    assert e2[["actor"]] == Inner;
    CellsLieBelow(["actor", "session"], Session(env));
    DefaultsGrow(WithSession(e2, 3002, env), last);
  }

  /** An event without a time gets the current one. */
  lemma {:induction false} TimeIsFilled(e: Event, env: Env, uid: int)
    requires IsClass(Get(e, ["class_uid"]), uid) && ["time"] !in e
    ensures Get(Enriched(e, env), ["time"]) == Int64(env.now)
  {
    ClassIsRead(Get(e, ["class_uid"]), uid);
    var defaults, last := ClassDefaults(uid, Get(e, ["status_id"]), env), LastDefaults(env);
    var e0 := WithDefault(e, "device", Device(env));
    OtherKeyOutside("device", Device(env), "time");
    StampKeys(uid);
    StampsAddNothingElse(e0, Stamps(uid), "time");
    var e1 := WithStamps(e0, Stamps(uid));
    TimeIsNoDefault(uid, Get(e, ["status_id"]), env);
    StillMissing(e1, defaults, "time");
    var e3 := WithSession(WithDefaults(e1, defaults), uid, env);
    CellsLieBelow(["actor", "session"], Session(env));
    assert ["time"] !in e3;
    MissingIsWritten(e3, last, 1, Int64(env.now));
  }

  lemma {:induction false} TimeIsNoDefault(uid: int, statusId: Value, env: Env)
    ensures forall i | 0 <= i < |ClassDefaults(uid, statusId, env)| :: ClassDefaults(uid, statusId, env)[i].0 != "time"
    ensures "time" !in Stamped()
  {
    NamesOfDefaults(uid, statusId, env);
    assert forall i | 0 <= i < |DefaultNames(uid)| :: |DefaultNames(uid)[i]| != 4 || DefaultNames(uid)[i][0] != 't';
  }

  // ---- Both enrichers, one after the other ----

  /** The class is network activity, as a float, which is how a decoded filter writes it. */
  predicate IsNetwork(e: Event) {
    IsNetworkClass(Get(e, ["class_uid"]))
  }

  lemma {:induction false} EndpointIsNoDefault(uid: int, statusId: Value, env: Env, k: string)
    requires k in {"src_endpoint", "dst_endpoint"}
    ensures forall i | 0 <= i < |ClassDefaults(uid, statusId, env)| :: ClassDefaults(uid, statusId, env)[i].0 != k
    ensures forall i | 0 <= i < |LastDefaults(env)| :: LastDefaults(env)[i].0 != k
    ensures k !in Stamped() && k != "device"
  {
    NamesOfDefaults(uid, statusId, env);
    assert |k| == 12 && k[0] in {'s', 'd'};
    assert forall i | 0 <= i < |DefaultNames(uid)| :: |DefaultNames(uid)[i]| != 12 || DefaultNames(uid)[i][0] == 'h';
    assert forall i | 0 <= i < |LastDefaults(env)| :: |LastDefaults(env)[i].0| < 12;
    assert forall l | l in Stamped() :: l[0] == 'c';
  }

  /** enrichEvent adds no endpoint. */
  lemma {:induction false} EndpointNotAdded(e: Event, env: Env, k: string)
    requires k in {"src_endpoint", "dst_endpoint"} && [k] !in e
    ensures [k] !in Enriched(e, env)
  {
    if ClassUid(Get(e, ["class_uid"])).Some? {
      var uid, statusId := ClassUid(Get(e, ["class_uid"])).value, Get(e, ["status_id"]);
      EndpointIsNoDefault(uid, statusId, env, k);
      OtherKeyOutside("device", Device(env), k);
      var e0 := WithDefault(e, "device", Device(env));
      StampKeys(uid);
      StampsAddNothingElse(e0, Stamps(uid), k);
      var e1 := WithStamps(e0, Stamps(uid));
      StillMissing(e1, ClassDefaults(uid, statusId, env), k);
      var e3 := WithSession(WithDefaults(e1, ClassDefaults(uid, statusId, env)), uid, env);
      CellsLieBelow(["actor", "session"], Session(env));
      assert [k] !in e3;
      StillMissing(e3, LastDefaults(env), k);
    }
  }

  lemma {:induction false} EndpointsStayComplete(e: Event, env: Env)
    requires EndpointsComplete(e)
    ensures EndpointsComplete(Enriched(e, env))
  {
    EnrichedGrows(e, env);
    var r := Enriched(e, env);
    forall k | k in {"src_endpoint", "dst_endpoint"} && [k] in r && r[[k]].Inner?
      ensures [k, "ip"] in r && [k, "port"] in r && [k, "name"] in r && [k, "uid"] in r
    {
      if [k] !in e { EndpointNotAdded(e, env, k); }
      EndpointIsNoDefault(0, Nil, env, k);
      assert [k][0] == k && [k, "ip"][0] == k && [k, "port"][0] == k && [k, "name"][0] == k && [k, "uid"][0] == k;
      assert r[[k]] == e[[k]];
    }
  }

  /** An event that went through both is complete, its endpoints included when it is network activity. */
  lemma {:induction false} BothEnrichersComplete(e: Event, seeds: map<string, Value>, index: nat, env: Env)
    ensures var r := Enriched(NetworkEnriched(e, seeds, index, env).0, env);
            Complete(r) && (IsNetwork(r) ==> EndpointsComplete(r))
  {
    var n := NetworkEnriched(e, seeds, index, env).0;
    EnrichedIsComplete(n, env);
    EnrichedGrows(n, env);
    NetworkEnrichedGrows(e, seeds, index, env);
    if IsNetwork(Enriched(n, env)) {
      ClassStays(n, env, 4001);
      NetworkClassStays(e, seeds, index, env);
      assert Get(n, ["class_uid"]) == Get(Enriched(n, env), ["class_uid"]);
      NetworkEnrichedHasEndpoints(e, seeds, index, env);
      EndpointsStayComplete(n, env);
    }
  }

  lemma {:induction false} NetworkClassStays(e: Event, seeds: map<string, Value>, index: nat, env: Env)
    ensures Get(NetworkEnriched(e, seeds, index, env).0, ["class_uid"]) == Get(e, ["class_uid"])
  {
    NetworkEnrichedGrows(e, seeds, index, env);
    assert ["class_uid"][0] == "class_uid";
  }
}
