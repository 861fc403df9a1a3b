/** The configuration as the cloud publishes it and the file keeps it, by the JSON itself. */
module Published {
  import opened Types
  import opened Config
  import opened RemoteConfig
  import opened ConfigTheorems

  // ---------- What the JSON says ----------

  /** Under `key` there is an object that has this text under `kind`, as in {"DeviceID": {"S": "01"}}. */
  ghost predicate Says(item: Json, key: string, kind: string, text: string) {
    && item.JObject? && DistinctKeys(item.fields)
    && exists w: Json :: (key, w) in item.fields && Wraps(w, kind, text)
  }

  predicate Wraps(w: Json, kind: string, text: string) {
    w.JObject? && DistinctKeys(w.fields) && (kind, JString(text)) in w.fields
  }

  /** The answer has these items and their number, in either order and among any other keys. */
  predicate Lists(fields: Fields, items: seq<Json>) {
    ("Count", JNumber(|items| as real)) in fields && ("Items", JArray(items)) in fields
  }

  /** The n-th request, if it is this one, is answered by these items. */
  predicate Answers(cloud: Cloud, n: nat, query: Query, items: seq<Json>) {
    cloud.answer(n, query).Answered? && Lists(cloud.answer(n, query).fields, items)
  }

  lemma SaysAttribute(item: Json, key: string, kind: string, text: string)
    requires Says(item, key, kind, text)
    ensures Attribute(item, key, kind) == Some(text)
  {
    var w :| (key, w) in item.fields && Wraps(w, kind, text);
    FindIsMembership(item.fields, key, w);
    FindIsMembership(w.fields, kind, JString(text));
  }

  lemma UniqueKey(fields: Fields, key: string, val: Json, i: nat)
    requires (key, val) in fields && i < |fields| && fields[i].0 == key
    ensures fields[i].1 == val
  {
    var j :| 0 <= j < |fields| && fields[j] == (key, val);
    assert i == j;
  }

  lemma WholeCount(n: nat)
    ensures IntOf(JNumber(n as real)) == n
  {
  }

  lemma {:induction false} ItemsFound(fields: Fields, items: seq<Json>, accept: int -> bool, k: nat, at: nat)
    requires Lists(fields, items) && accept(|items|) && k <= at < |fields| && fields[at].0 == "Items"
    ensures Items(fields, k, accept) == Some(items)
    decreases at - k
  {
    WholeCount(|items|);
    if fields[k].0 == "Count" {
      UniqueKey(fields, "Count", JNumber(|items| as real), k);
    }
    if fields[k].0 == "Items" {
      UniqueKey(fields, "Items", JArray(items), k);
    } else {
      ItemsFound(fields, items, accept, k + 1, at);
    }
  }

  lemma {:induction false} EmptyItems(fields: Fields, k: nat, accept: int -> bool)
    requires Lists(fields, []) && k <= |fields|
    ensures Items(fields, k, accept) in {None, Some([])}
    decreases |fields| - k
  {
    if k < |fields| {
      EmptyItems(fields, k + 1, accept);
      if fields[k].0 == "Items" {
        UniqueKey(fields, "Items", JArray([]), k);
      }
    }
  }

  lemma ItemsListed(fields: Fields, items: seq<Json>)
    requires Lists(fields, items)
    ensures Listed(fields) == items
  {
    if items == [] {
      EmptyItems(fields, 0, NotZero);
    } else {
      var at :| 0 <= at < |fields| && fields[at] == ("Items", JArray(items));
      ItemsFound(fields, items, NotZero, 0, at);
    }
  }

  // ---------- The gateway's own item ----------

  /** An answer with a count of 1 and one item makes this the item of the gateway. */
  lemma OneItemIsTaken(cloud: Cloud, mac: string, item: Json)
    requires Answers(cloud, 0, ByMacAddress(mac), [item])
    ensures GatewayItem(cloud, mac) == Some(item)
  {
    var fields := cloud.answer(0, ByMacAddress(mac)).fields;
    var at :| 0 <= at < |fields| && fields[at] == ("Items", JArray([item]));
    ItemsFound(fields, [item], JustOne, 0, at);
  }

  lemma {:induction false} CountStops(fields: Fields, n: nat, accept: int -> bool, k: nat, at: nat)
    requires k <= at < |fields| && fields[at] == ("Count", JNumber(n as real)) && !accept(n)
    requires forall j :: 0 <= j < at ==> fields[j].0 != "Items"
    ensures Items(fields, k, accept) == None
    decreases at - k
  {
    WholeCount(n);
    if k < at {
      CountStops(fields, n, accept, k + 1, at);
    }
  }

  /** A count of 0 or of 2 and more that comes before the items: neither memory nor file changes. */
  lemma OtherCountsChangeNothing(
      cloud: Cloud, mac: string, b: Settings, file: File, writing: Writing, fields: Fields, at: nat, n: nat)
    requires cloud.answer(0, ByMacAddress(mac)) == Answered(fields)
    requires at < |fields| && fields[at] == ("Count", JNumber(n as real)) && (n == 0 || n >= 2)
    requires forall j :: 0 <= j < at ==> fields[j].0 != "Items"
    ensures RemoteUpdated(cloud, mac, b, file, writing) == Update(b, file, 0)
  {
    CountStops(fields, n, JustOne, 0, at);
  }

  /** An item whose version is not newer changes nothing either. */
  lemma OlderChangesNothing(
      cloud: Cloud, mac: string, b: Settings, file: File, writing: Writing, item: Json, version: string)
    requires Answers(cloud, 0, ByMacAddress(mac), [item]) && Says(item, "ConfigVersion", "N", version)
    requires cloud.atof(version) <= b.version
    ensures RemoteUpdated(cloud, mac, b, file, writing) == Update(b, file, 0)
  {
    OneItemIsTaken(cloud, mac, item);
    SaysAttribute(item, "ConfigVersion", "N", version);
    hide GatewayItem;
    hide Attribute;
  }

  // ---------- The file ----------

  /** The object a module is kept as. */
  predicate KeepsModule(j: Json, m: Module) {
    && j.JObject? && DistinctKeys(j.fields)
    && ("DeviceID", JString(m.addr)) in j.fields && ("Bluetooth_Address", JString(m.bleAddr)) in j.fields
    && ("Protocol", JString(m.protocol)) in j.fields
    && ("Sensors", JArray(seq(|m.sensors|, i requires 0 <= i < |m.sensors| => JString(m.sensors[i])))) in j.fields
  }

  /** The object in the file has these settings under its five keys, in any order. */
  ghost predicate Keeps(fields: Fields, b: Settings) {
    && ("AWS_ACCESS_KEY", JString(b.accessKey)) in fields && ("AWS_SECRET_ACCESS_KEY", JString(b.secretKey)) in fields
    && ("DeviceID", JString(b.addr)) in fields && ("ConfigVersion", JNumber(b.version)) in fields
    && exists cm: seq<Json> :: ("CoreModules", JArray(cm)) in fields && KeepsModules(cm, b.cm)
  }

  predicate KeepsModules(js: seq<Json>, cm: seq<Module>) {
    |js| == |cm| && forall i :: 0 <= i < |cm| ==> KeepsModule(js[i], cm[i])
  }

  lemma KeptModuleLoads(j: Json, m: Module)
    requires KeepsModule(j, m) && m.Valid()
    ensures LoadedModule(j) == m
  {
    var texts := seq(|m.sensors|, i requires 0 <= i < |m.sensors| => JString(m.sensors[i]));
    FindIsMembership(j.fields, "DeviceID", JString(m.addr));
    FindIsMembership(j.fields, "Bluetooth_Address", JString(m.bleAddr));
    FindIsMembership(j.fields, "Protocol", JString(m.protocol));
    FindIsMembership(j.fields, "Sensors", JArray(texts));
    hide Find;
    assert LoadedSensors(texts) == m.sensors;
  }

  /** A file that keeps settings loads as these settings, whatever was in memory. */
  lemma KeptIsLoaded(before: Settings, fields: Fields, b: Settings)
    requires Keeps(fields, b) && b.Valid()
    ensures Loaded(before, fields) == b
  {
    var js: seq<Json> :| ("CoreModules", JArray(js)) in fields && KeepsModules(js, b.cm);
    FindIsMembership(fields, "AWS_ACCESS_KEY", JString(b.accessKey));
    FindIsMembership(fields, "AWS_SECRET_ACCESS_KEY", JString(b.secretKey));
    FindIsMembership(fields, "DeviceID", JString(b.addr));
    FindIsMembership(fields, "ConfigVersion", JNumber(b.version));
    FindIsMembership(fields, "CoreModules", JArray(js));
    hide Find;
    forall i | 0 <= i < |b.cm| ensures LoadedModule(js[i]) == b.cm[i] {
      KeptModuleLoads(js[i], b.cm[i]);
    }
    assert LoadedModules(js) == b.cm;
  }

  lemma SavedModuleKeeps(m: Module)
    ensures KeepsModule(SavedModule(m), m)
  {
    KeysDiffer();
    var fields := SavedModule(m).fields;
    assert fields[0].0 == "DeviceID" && fields[1].0 == "Bluetooth_Address";
    assert fields[2].0 == "Protocol" && fields[3].0 == "Sensors";
    assert SavedSensors(m.sensors) == seq(|m.sensors|, i requires 0 <= i < |m.sensors| => JString(m.sensors[i]));
    assert fields[0] in fields && fields[1] in fields && fields[2] in fields && fields[3] in fields;
  }

  /** What is written keeps the settings. */
  lemma SavedKeeps(b: Settings)
    ensures Keeps(Saved(b), b)
  {
    var js := SavedModules(b.cm);
    forall i | 0 <= i < |b.cm| ensures KeepsModule(js[i], b.cm[i]) {
      SavedModuleKeeps(b.cm[i]);
    }
    var fields := Saved(b);
    hide KeepsModule;
    assert fields[0] in fields && fields[1] in fields && fields[2] in fields && fields[4] in fields;
    assert fields[3] == ("CoreModules", JArray(js));
  }

  // ---------- From the cloud to memory and file ----------

  /** The item describes the module, and the n-th request brings its sensors. */
  ghost predicate Presents(cloud: Cloud, n: nat, item: Json, m: Module, sensors: seq<Json>) {
    && Says(item, "DeviceID", "S", m.addr) && Says(item, "Bluetooth_Address", "S", m.bleAddr)
    && Says(item, "Protocol", "S", m.protocol)
    && Answers(cloud, n, ByLink(m.addr), sensors) && |sensors| == |m.sensors|
    && forall j :: 0 <= j < |sensors| ==> Says(sensors[j], "DeviceID", "S", m.sensors[j])
  }

  lemma DescribedIsListed(cloud: Cloud, n: nat, item: Json, m: Module, sensors: seq<Json>)
    requires Presents(cloud, n, item, m, sensors)
    ensures ConfigTheorems.Describes(item, m) && ListsSensors(cloud, n, m)
  {
    SaysAttribute(item, "DeviceID", "S", m.addr);
    SaysAttribute(item, "Bluetooth_Address", "S", m.bleAddr);
    SaysAttribute(item, "Protocol", "S", m.protocol);
    ItemsListed(cloud.answer(n, ByLink(m.addr)).fields, sensors);
    forall j | 0 <= j < |sensors| ensures Attribute(sensors[j], "DeviceID", "S") == Some(m.sensors[j]) {
      SaysAttribute(sensors[j], "DeviceID", "S", m.sensors[j]);
    }
    hide Attribute;
    hide Listed;
  }

  /** The first answer is one item with a version and the gateway's name, the second one item for each module. */
  ghost predicate PublishesAs(
      cloud: Cloud, mac: string, b: Settings, item: Json, version: string, items: seq<Json>, sensors: seq<seq<Json>>)
  {
    && Answers(cloud, 0, ByMacAddress(mac), [item])
    && Says(item, "ConfigVersion", "N", version) && cloud.atof(version) == b.version
    && Says(item, "DeviceID", "S", b.addr)
    && Answers(cloud, 1, ByLink(b.addr), items)
    && |items| == |sensors| == |b.cm|
    && forall i :: 0 <= i < |b.cm| ==> Presents(cloud, 2 + i, items[i], b.cm[i], sensors[i])
  }

  lemma PublishedIsPublished(
      cloud: Cloud, mac: string, b: Settings, item: Json, version: string, items: seq<Json>, sensors: seq<seq<Json>>)
    requires PublishesAs(cloud, mac, b, item, version, items, sensors)
    ensures ConfigTheorems.Publishes(cloud, mac, b)
  {
    OneItemIsTaken(cloud, mac, item);
    SaysAttribute(item, "ConfigVersion", "N", version);
    SaysAttribute(item, "DeviceID", "S", b.addr);
    ItemsListed(cloud.answer(1, ByLink(b.addr)).fields, items);
    forall i | 0 <= i < |b.cm|
      ensures ConfigTheorems.Describes(items[i], b.cm[i]) && ListsSensors(cloud, 2 + i, b.cm[i])
    {
      DescribedIsListed(cloud, 2 + i, items[i], b.cm[i], sensors[i]);
    }
    hide GatewayItem;
    hide Attribute;
    hide Listed;
    hide Says;
  }

  /**
   Settings published as JSON under a newer version than the file keeps are what the next online start runs with, and
   what the file keeps afterwards; only the two access keys are the file's own.
   */
  lemma ArrivesAsPublished(
      start: Start, file: File, local: Settings, b: Settings,
      item: Json, version: string, items: seq<Json>, sensors: seq<seq<Json>>)
    requires start.online && start.writing.Whole? && b.Valid() && local.Valid()
    requires file.Holds? && Keeps(file.fields, local) && local.version < b.version
    requires b.accessKey == local.accessKey && b.secretKey == local.secretKey
    requires PublishesAs(start.cloud, start.mac, b, item, version, items, sensors)
    ensures var r := Boot(start, file);
      r.rc == 0 && r.b == b && r.file.Holds? && Keeps(r.file.fields, b)
  {
    hide *;
    KeptIsLoaded(ZeroSettings, file.fields, local);
    PublishedIsPublished(start.cloud, start.mac, b, item, version, items, sensors);
    ConfigTheorems.PublishedArrives(start, file, b);
    SavedKeeps(b);
  }
}
