/** Updating the configuration from the cloud, behind its version gate. */
module RemoteConfig {
  import opened Types
  import opened Config

  /** A scan of the configuration table: which attribute has to have which value. */
  datatype Query = ByMacAddress(mac: string) | ByLink(device: string)

  /**
   What becomes of a request: it cannot be built or sent, or its answer does not look like one; what follows the first
   brace of the answer is no object; or it is this object.
   */
  datatype Reply = Failed | Unreadable | Answered(fields: Fields)

  /**
   Everything the cloud may do, by the number of the request in its process. Nothing says that an answer belongs to its
   request: the program may as well read what an earlier one has left in the buffer. `atof` reads a decimal number.
   */
  datatype Cloud = Cloud(answer: (nat, Query) -> Reply, atof: string -> real)

  const COUNT: string := "Count"
  const ITEMS: string := "Items"

  /** The text of an attribute, which DynamoDB wraps in an object naming its type. */
  function Attribute(item: Json, name: string, kind: string): Option<string> {
    match Get(item, name)
    case None => None
    case Some(wrapped) =>
      match Get(wrapped, kind) case None => None case Some(v) => Some(TextOf(v))
  }

  function AttributeOr(item: Json, name: string, before: string): string {
    match Attribute(item, name, "S") case None => before case Some(t) => t
  }

  /** A number with its fraction cut off. */
  function IntOf(j: Json): int {
    var x := NumberOf(j);
    if x >= 0.0 then x.Floor else -(-x).Floor
  }

  /** The items of an answer, from the k-th key on, unless a count that is not accepted comes first. */
  function Items(fields: seq<(string, Json)>, k: nat, accept: int -> bool): Option<seq<Json>>
    requires k <= |fields|
    decreases |fields| - k
  {
    if k == |fields| then None
    else if fields[k].0 == COUNT && !accept(IntOf(fields[k].1)) then None
    else if fields[k].0 == ITEMS then Some(ItemsOf(fields[k].1))
    else Items(fields, k + 1, accept)
  }

  /** The items an answer lists; a count of zero lists none. */
  function Listed(fields: Fields): seq<Json> {
    match Items(fields, 0, NotZero) case None => [] case Some(items) => items
  }

  const NotZero: int -> bool := (n: int) => n != 0
  const JustOne: int -> bool := (n: int) => n == 1

  function SensorAddresses(items: seq<Json>): (s: seq<string>)
    ensures |s| == |items|
  {
    seq(|items|, i requires 0 <= i < |items| => AttributeOr(items[i], DEVICE_ID, ""))
  }

  /** The sensors linked to a module; a failed request counts as none. */
  function FetchedSensors(cloud: Cloud, n: nat, device: string): seq<string> {
    match cloud.answer(n, ByLink(device))
    case Failed => []
    case Unreadable => []
    case Answered(fields) =>
      match Items(fields, 0, NotZero) case None => [] case Some(items) => SensorAddresses(items)
  }

  /** A module as its item and, when it has an identifier, the n-th request describe it. */
  function FetchedModule(cloud: Cloud, n: nat, item: Json): (m: Module)
    ensures m.Valid()
  {
    var bleAddr := AttributeOr(item, BLUETOOTH_ADDRESS, "");
    var protocol := AttributeOr(item, PROTOCOL, "");
    match Attribute(item, DEVICE_ID, "S")
    case None => Module("", bleAddr, protocol, [], 0)
    case Some(device) =>
      var sensors := FetchedSensors(cloud, n, device);
      Module(device, bleAddr, protocol, sensors, |sensors|)
  }

  /** How many of the first k items make a request. */
  function Requests(items: seq<Json>, k: nat): nat
    requires k <= |items|
  {
    if k == 0 then 0
    else Requests(items, k - 1) + if Attribute(items[k - 1], DEVICE_ID, "S").Some? then 1 else 0
  }

  /** The module of the i-th item, when the requests for sensors start with the n-th. */
  function ModuleAt(cloud: Cloud, n: nat, items: seq<Json>, i: nat): (m: Module)
    requires i < |items|
    ensures m.Valid()
  {
    FetchedModule(cloud, n + Requests(items, i), items[i])
  }

  function FetchedModules(cloud: Cloud, n: nat, items: seq<Json>): (cm: seq<Module>)
    ensures |cm| == |items|
    ensures forall i :: 0 <= i < |cm| ==> cm[i] == ModuleAt(cloud, n, items, i)
  {
    seq(|items|, i requires 0 <= i < |items| => ModuleAt(cloud, n, items, i))
  }

  /** The n-th request, if this item makes it, is not answered by an unreadable text. */
  predicate Readable(cloud: Cloud, n: nat, item: Json) {
    match Attribute(item, DEVICE_ID, "S")
    case None => true
    case Some(device) => !cloud.answer(n, ByLink(device)).Unreadable?
  }

  predicate ReadableAt(cloud: Cloud, n: nat, items: seq<Json>, i: nat)
    requires i < |items|
  {
    Readable(cloud, n + Requests(items, i), items[i])
  }

  /** None of the requests for sensors is, when they start with the n-th. */
  predicate SensorsReadable(cloud: Cloud, n: nat, items: seq<Json>) {
    forall i :: 0 <= i < |items| ==> ReadableAt(cloud, n, items, i)
  }

  /** The settings and the file after an update, and its result; a process that was killed has no settings. */
  datatype Update = Update(b: Settings, file: File, rc: int)

  /** The modules linked to the gateway replace those in memory, and then the file; `writing` tells how that goes. */
  function ModulesUpdated(cloud: Cloud, gateway: string, b: Settings, file: File, writing: Writing): Update {
    match cloud.answer(1, ByLink(gateway))
    case Failed => Update(b.(cm := [], sizeCm := 0), file, -1)
    case Unreadable => Update(b, file, KILLED)
    case Answered(fields) =>
      var items := Listed(fields);
      if !SensorsReadable(cloud, 2, items) then Update(b, file, KILLED)
      else
        var b' := b.(cm := FetchedModules(cloud, 2, items), sizeCm := |items|);
        Update(b', Rewritten(file, Saved(b'), writing), 0)
  }

  /** The item describing the gateway itself, if the cloud answers with exactly one. */
  function GatewayItem(cloud: Cloud, mac: string): Option<Json> {
    match cloud.answer(0, ByMacAddress(mac))
    case Failed => None
    case Unreadable => None
    case Answered(fields) =>
      match Items(fields, 0, JustOne)
      case None => None
      case Some(items) => Some(if items == [] then JObject([]) else items[0])
  }

  function VersionOf(cloud: Cloud, item: Json): Option<real> {
    match Attribute(item, CONFIG_VERSION, "N") case None => None case Some(v) => Some(cloud.atof(v))
  }

  function RemoteUpdated(cloud: Cloud, mac: string, b: Settings, file: File, writing: Writing): Update {
    match GatewayItem(cloud, mac)
    case None =>
      var reply := cloud.answer(0, ByMacAddress(mac));
      Update(b, file, if reply.Failed? then -1 else if reply.Unreadable? then KILLED else 0)
    case Some(item) =>
      var version := VersionOf(cloud, item);
      if version.Some? && version.value <= b.version then Update(b, file, 0)
      else
        var b1 := if version.Some? then b.(version := version.value) else b;
        match Attribute(item, DEVICE_ID, "S")
        case None => Update(b1, file, 0)
        case Some(gateway) =>
          var u := ModulesUpdated(cloud, gateway, b1.(addr := gateway), file, writing);
          if u.rc == KILLED then u else u.(rc := 0)
  }

  // ---------- The program ----------

  /** The requests of one process. */
  class Connection {
    const cloud: Cloud
    var asked: nat

    constructor (cloud: Cloud)
      ensures this.cloud == cloud && asked == 0
    {
      this.cloud := cloud;
      asked := 0;
    }

    method Request(query: Query) returns (answer: Reply)
      modifies this
      ensures answer == cloud.answer(old(asked), query) && asked == old(asked) + 1
    {
      answer := cloud.answer(asked, query);
      asked := asked + 1;
    }
  }

  /** Walks over the keys of an answer; what it stops at is what Items says. */
  method FindItems(fields: Fields, accept: int -> bool) returns (items: Option<seq<Json>>)
    ensures items == Items(fields, 0, accept)
  {
    var k := 0;
    items := None;
    while k < |fields|
      invariant k <= |fields|
      invariant items == None ==> Items(fields, 0, accept) == Items(fields, k, accept)
      invariant items.Some? ==> items == Items(fields, 0, accept)
      invariant items.Some? ==> exists j :: 0 <= j < k && fields[j].0 == ITEMS
    {
      if fields[k].0 == COUNT {
        if !accept(IntOf(fields[k].1)) {
          return;
        }
      } else if fields[k].0 == ITEMS {
        items := Some(ItemsOf(fields[k].1));
      }
      k := k + 1;
    }
  }

  /** Asks for the sensors of the module at `index`; a failed request or a count of zero leaves it as it is. */
  method UpdateSensors(index: nat, bridge: Bridge, conn: Connection) returns (rc: int)
    requires index < |bridge.cm| && bridge.cm[index].sensors == [] && bridge.cm[index].sizeSen == 0
    modifies bridge`cm, conn
    ensures conn.asked == old(conn.asked) + 1
    ensures var reply := conn.cloud.answer(old(conn.asked), ByLink(old(bridge.cm[index].addr)));
      rc == if reply.Failed? then -1 else if reply.Unreadable? then KILLED else 0
    ensures var m := old(bridge.cm[index]);
      var sensors := FetchedSensors(conn.cloud, old(conn.asked), m.addr);
      bridge.cm == old(bridge.cm)[index := m.(sensors := sensors, sizeSen := |sensors|)]
  {
    var answer := conn.Request(ByLink(bridge.cm[index].addr));
    if answer.Failed? {
      return -1;
    }
    if answer.Unreadable? {
      return KILLED;
    }
    var items := FindItems(answer.fields, NotZero);
    if items.Some? {
      var m := bridge.cm[index].(sensors := seq(|items.value|, _ => ""), sizeSen := |items.value|);
      var i := 0;
      while i < |items.value|
        invariant i <= |items.value| == |m.sensors|
        invariant m == old(bridge.cm[index]).(sensors := m.sensors, sizeSen := |items.value|)
        invariant forall k :: 0 <= k < i ==> m.sensors[k] == SensorAddresses(items.value)[k]
        invariant forall k :: i <= k < |items.value| ==> m.sensors[k] == ""
      {
        m := m.(sensors := m.sensors[i := AttributeOr(items.value[i], DEVICE_ID, m.sensors[i])]);
        i := i + 1;
      }
      assert m.sensors == SensorAddresses(items.value);
      bridge.cm := bridge.cm[index := m];
    }
    rc := 0;
  }

  /** Fills in the module at `index`, which is all zero before. */
  method UpdateModule(index: nat, item: Json, bridge: Bridge, conn: Connection) returns (rc: int)
    requires index < |bridge.cm| && bridge.cm[index] == NoModule
    modifies bridge`cm, conn
    ensures rc == if Readable(conn.cloud, old(conn.asked), item) then 0 else KILLED
    ensures rc == 0 ==> bridge.cm == old(bridge.cm)[index := FetchedModule(conn.cloud, old(conn.asked), item)]
    ensures |bridge.cm| == |old(bridge.cm)|
    ensures conn.asked == old(conn.asked) + if Attribute(item, DEVICE_ID, "S").Some? then 1 else 0
  {
    bridge.cm := bridge.cm[index := NoModule.(bleAddr := AttributeOr(item, BLUETOOTH_ADDRESS, ""))];
    var device := Attribute(item, DEVICE_ID, "S");
    if device.Some? {
      bridge.cm := bridge.cm[index := bridge.cm[index].(addr := device.value)];
      var updated := UpdateSensors(index, bridge, conn);
      if updated == KILLED {
        return KILLED;
      }
    }
    rc := 0;
    bridge.cm := bridge.cm[index := bridge.cm[index].(protocol := AttributeOr(item, PROTOCOL, ""))];
  }

  /** Makes room for as many modules as there are items and fills them in. */
  method UpdateModules(items: seq<Json>, bridge: Bridge, conn: Connection) returns (rc: int)
    modifies bridge`cm, bridge`sizeCm, conn
    ensures rc == if SensorsReadable(conn.cloud, old(conn.asked), items) then 0 else KILLED
    ensures rc == 0 ==>
      bridge.cm == FetchedModules(conn.cloud, old(conn.asked), items) && bridge.sizeCm == |items|
  {
    hide FetchedModule;
    hide Readable;
    bridge.cm, bridge.sizeCm := seq(|items|, _ => NoModule), |items|;
    ghost var n := conn.asked;
    var i := 0;
    while i < |items|
      invariant i <= |items| == |bridge.cm| == bridge.sizeCm && conn.asked == n + Requests(items, i)
      invariant forall k :: 0 <= k < |items| ==>
        bridge.cm[k] == if k < i then ModuleAt(conn.cloud, n, items, k) else NoModule
      invariant forall k :: 0 <= k < i ==> ReadableAt(conn.cloud, n, items, k)
    {
      rc := UpdateModule(i, items[i], bridge, conn);
      assert rc == 0 <==> ReadableAt(conn.cloud, n, items, i);
      if rc == KILLED {
        return;
      }
      i := i + 1;
    }
    assert bridge.cm == FetchedModules(conn.cloud, n, items);
    rc := 0;
  }

  /** The modules in memory are dropped first, whatever the answer to the request will be. */
  method UpdateCoreModule(gateway: string, bridge: Bridge, disk: Disk, conn: Connection, writing: Writing)
    returns (rc: int)
    requires bridge.Data().Valid() && !disk.file.Absent? && conn.asked == 1
    modifies bridge`cm, bridge`sizeCm, disk, conn
    ensures var u := ModulesUpdated(conn.cloud, gateway, old(bridge.Data()), old(disk.file), writing);
      rc == u.rc && disk.file == u.file && (rc != KILLED ==> bridge.Data() == u.b)
  {
    bridge.sizeCm, bridge.cm := 0, [];
    var answer := conn.Request(ByLink(gateway));
    if answer.Failed? {
      return -1;
    }
    if answer.Unreadable? {
      return KILLED;
    }
    var items := FindItems(answer.fields, NotZero);
    if items.Some? {
      rc := UpdateModules(items.value, bridge, conn);
      if rc == KILLED {
        return;
      }
    }
    bridge.UpdateConfigFile(disk, writing);
    rc := 0;
  }

  method LoadRemoteConfig(mac: string, bridge: Bridge, disk: Disk, conn: Connection, writing: Writing) returns (rc: int)
    requires bridge.Data().Valid() && !disk.file.Absent? && conn.asked == 0
    modifies bridge, disk, conn
    ensures var u := RemoteUpdated(conn.cloud, mac, old(bridge.Data()), old(disk.file), writing);
      rc == u.rc && disk.file == u.file && (rc != KILLED ==> bridge.Data() == u.b)
  {
    var answer := conn.Request(ByMacAddress(mac));
    if answer.Failed? {
      return -1;
    }
    if answer.Unreadable? {
      return KILLED;
    }
    rc := 0;
    var items := FindItems(answer.fields, JustOne);
    if items.Some? {
      var item := if items.value == [] then JObject([]) else items.value[0];
      var version := Attribute(item, CONFIG_VERSION, "N");
      if version.Some? {
        var ver := conn.cloud.atof(version.value);
        if ver <= bridge.configVersion {
          return;
        }
        bridge.configVersion := ver;
      }
      var gateway := Attribute(item, DEVICE_ID, "S");
      if gateway.Some? {
        bridge.addr := gateway.value;
        var updated := UpdateCoreModule(gateway.value, bridge, disk, conn, writing);
        if updated == KILLED {
          return KILLED;
        }
      }
    }
  }

  /** What one start of the process meets. */
  datatype Start = Start(online: bool, cloud: Cloud, mac: string, writing: Writing)

  /** The result of a start, the settings it runs with, if it does, and the file it leaves. */
  datatype Booted = Booted(rc: int, b: Settings, file: File)

  function Boot(start: Start, file: File): Booted {
    if !file.Holds? then Booted(if file.Broken? then KILLED else 1, ZeroSettings, file)
    else
      var b := Loaded(ZeroSettings, file.fields);
      if !start.online then Booted(0, b, file)
      else
        var u := RemoteUpdated(start.cloud, start.mac, b, file, start.writing);
        if u.rc == KILLED then Booted(KILLED, ZeroSettings, u.file) else Booted(0, u.b, u.file)
  }

  method InitData(start: Start, bridge: Bridge, disk: Disk, conn: Connection) returns (rc: int)
    requires bridge.Data() == ZeroSettings && conn.asked == 0 && conn.cloud == start.cloud
    modifies bridge, disk, conn
    ensures var r := Boot(start, old(disk.file));
      rc == r.rc && disk.file == r.file && (rc != KILLED ==> bridge.Data() == r.b)
  {
    if disk.file.Absent? {
      return 1;
    }
    rc := bridge.LoadLocalConfig(disk);
    if rc == KILLED {
      return;
    }
    if rc != 0 {
      return 1;
    }
    if start.online {
      LoadedIsValid(ZeroSettings, disk.file.fields);
      var loaded := LoadRemoteConfig(start.mac, bridge, disk, conn, start.writing);
      if loaded == KILLED {
        return KILLED;
      }
    }
  }
}
