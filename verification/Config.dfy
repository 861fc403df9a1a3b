/** The configuration of the gateway, as it is kept in memory and in its JSON file. */
module Config {
  import opened Types

  datatype Json =
    | JString(text: string)
    | JNumber(number: real)
    | JArray(items: seq<Json>)
    | JObject(fields: seq<(string, Json)>)

  const ACCESS_KEY: string := "AWS_ACCESS_KEY"
  const SECRET_KEY: string := "AWS_SECRET_ACCESS_KEY"
  const DEVICE_ID: string := "DeviceID"
  const CORE_MODULES: string := "CoreModules"
  const CONFIG_VERSION: string := "ConfigVersion"
  const BLUETOOTH_ADDRESS: string := "Bluetooth_Address"
  const PROTOCOL: string := "Protocol"
  const SENSORS: string := "Sensors"

  lemma KeysDiffer()
    ensures DEVICE_ID != PROTOCOL
  {
    assert DEVICE_ID[0] != PROTOCOL[0];
  }

  // ---------- Objects ----------

  predicate DistinctKeys(fields: seq<(string, Json)>) {
    forall i, j :: 0 <= i < j < |fields| ==> fields[i].0 != fields[j].0
  }

  /** The fields of a parsed object: a repeated key replaces its predecessor, so none is left. */
  type Fields = fs: seq<(string, Json)> | DistinctKeys(fs) witness []

  function Find(fields: seq<(string, Json)>, key: string): Option<Json> {
    if fields == [] then None
    else
      var last := fields[|fields| - 1];
      if last.0 == key then Some(last.1) else Find(fields[..|fields| - 1], key)
  }

  /** A new key goes to the end; a key that is there keeps its place. */
  function Add(fields: seq<(string, Json)>, key: string, val: Json): (r: seq<(string, Json)>)
    ensures (forall i :: 0 <= i < |fields| ==> fields[i].0 != key) ==> r == fields + [(key, val)]
  {
    if fields == [] then [(key, val)]
    else if fields[0].0 == key then [(key, val)] + fields[1..]
    else [fields[0]] + Add(fields[1..], key, val)
  }

  /** What an object has under `key`; nothing else has fields. */
  function Get(j: Json, key: string): Option<Json> {
    if j.JObject? then Find(j.fields, key) else None
  }

  function TextOf(j: Json): string { if j.JString? then j.text else "" }

  function ItemsOf(j: Json): seq<Json> { if j.JArray? then j.items else [] }

  function NumberOf(j: Json): real { if j.JNumber? then j.number else 0.0 }

  /** With distinct keys an object is a map: a key has the value it is paired with, wherever that pair stands. */
  lemma {:induction false} FindIsMembership(fields: seq<(string, Json)>, key: string, val: Json)
    requires DistinctKeys(fields)
    ensures Find(fields, key) == Some(val) <==> (key, val) in fields
    decreases |fields|
  {
    if fields != [] {
      var n := |fields| - 1;
      FindIsMembership(fields[..n], key, val);
      assert fields == fields[..n] + [fields[n]];
    }
  }

  lemma FindSnoc(done: seq<(string, Json)>, key: string, val: Json)
    ensures forall k: string :: Find(done + [(key, val)], k) == if k == key then Some(val) else Find(done, k)
  {
    assert (done + [(key, val)])[..|done|] == done;
  }

  // ---------- The configuration in memory ----------

  /** A core module: `sizeSen` is kept beside the array it counts. */
  datatype Module = Module(addr: string, bleAddr: string, protocol: string, sensors: seq<string>, sizeSen: nat) {
    predicate Valid() { sizeSen == |sensors| }
  }

  const NoModule := Module("", "", "", [], 0)

  datatype Settings = Settings(
    addr: string, accessKey: string, secretKey: string, version: real, cm: seq<Module>, sizeCm: nat)
  {
    predicate Valid() {
      sizeCm == |cm| && forall i :: 0 <= i < |cm| ==> cm[i].Valid()
    }
  }

  const ZeroSettings := Settings("", "", "", 0.0, [], 0)

  // ---------- Saving and loading, told by key ----------

  function SavedSensors(sensors: seq<string>): (s: seq<Json>)
    ensures |s| == |sensors|
  {
    seq(|sensors|, i requires 0 <= i < |sensors| => JString(sensors[i]))
  }

  function SavedModule(m: Module): Json {
    JObject([(DEVICE_ID, JString(m.addr)), (BLUETOOTH_ADDRESS, JString(m.bleAddr)), (PROTOCOL, JString(m.protocol)),
             (SENSORS, JArray(SavedSensors(m.sensors)))])
  }

  function SavedModules(cm: seq<Module>): (s: seq<Json>)
    ensures |s| == |cm|
  {
    seq(|cm|, i requires 0 <= i < |cm| => SavedModule(cm[i]))
  }

  lemma SavedModulesSnoc(cm: seq<Module>, i: nat)
    requires i < |cm|
    ensures SavedModules(cm[..i + 1]) == SavedModules(cm[..i]) + [SavedModule(cm[i])]
  {
  }

  function Saved(b: Settings): (fields: Fields) {
    [(ACCESS_KEY, JString(b.accessKey)), (SECRET_KEY, JString(b.secretKey)), (DEVICE_ID, JString(b.addr)),
     (CORE_MODULES, JArray(SavedModules(b.cm))), (CONFIG_VERSION, JNumber(b.version))]
  }

  function LoadedSensors(items: seq<Json>): (s: seq<string>)
    ensures |s| == |items|
  {
    seq(|items|, i requires 0 <= i < |items| => TextOf(items[i]))
  }

  /** A freshly cleared module, with what the file has for it. */
  function LoadedModule(item: Json): (m: Module)
    ensures m.Valid()
  {
    var sensors := match Get(item, SENSORS) { case None => [] case Some(s) => LoadedSensors(ItemsOf(s)) };
    Module(Text(item, DEVICE_ID, ""), Text(item, BLUETOOTH_ADDRESS, ""), Text(item, PROTOCOL, ""), sensors, |sensors|)
  }

  function LoadedModules(items: seq<Json>): (cm: seq<Module>)
    ensures |cm| == |items|
    ensures forall i :: 0 <= i < |cm| ==> cm[i] == LoadedModule(items[i])
  {
    seq(|items|, i requires 0 <= i < |items| => LoadedModule(items[i]))
  }

  /** The text under `key`, or what was there before. */
  function Text(j: Json, key: string, before: string): string {
    match Get(j, key) case None => before case Some(v) => TextOf(v)
  }

  /** What loading makes of the settings: each part has the value of its own key, or stays when the key is missing. */
  function Loaded(b: Settings, fields: seq<(string, Json)>): Settings {
    var root := JObject(fields);
    var cm := match Get(root, CORE_MODULES) { case None => b.cm case Some(v) => LoadedModules(ItemsOf(v)) };
    Settings(
      Text(root, DEVICE_ID, b.addr), Text(root, ACCESS_KEY, b.accessKey), Text(root, SECRET_KEY, b.secretKey),
      match Get(root, CONFIG_VERSION) { case None => b.version case Some(v) => NumberOf(v) },
      cm, if Get(root, CORE_MODULES).None? then b.sizeCm else |cm|)
  }

  // ---------- What saving and loading promise ----------

  lemma LoadedIsValid(before: Settings, fields: seq<(string, Json)>)
    requires before.Valid()
    ensures Loaded(before, fields).Valid()
  {
  }

  lemma SensorsLoad(sensors: seq<string>)
    ensures LoadedSensors(SavedSensors(sensors)) == sensors
  {
  }

  /** In the saved form each key is found where it was put. */
  lemma FindAt(fields: Fields, i: nat)
    requires i < |fields|
    ensures Find(fields, fields[i].0) == Some(fields[i].1)
  {
    assert fields[i] == (fields[i].0, fields[i].1);
    FindIsMembership(fields, fields[i].0, fields[i].1);
  }

  lemma ModuleLoads(m: Module)
    requires m.Valid()
    ensures LoadedModule(SavedModule(m)) == m
  {
    hide Find;
    KeysDiffer();
    var fields := SavedModule(m).fields;
    FindAt(fields, 0);
    FindAt(fields, 1);
    FindAt(fields, 2);
    FindAt(fields, 3);
    SensorsLoad(m.sensors);
  }

  lemma ModulesLoad(cm: seq<Module>)
    requires forall i :: 0 <= i < |cm| ==> cm[i].Valid()
    ensures LoadedModules(SavedModules(cm)) == cm
  {
    forall i | 0 <= i < |cm| ensures LoadedModules(SavedModules(cm))[i] == cm[i] {
      ModuleLoads(cm[i]);
    }
  }

  lemma SavedFields(b: Settings)
    ensures var fs := Saved(b);
      && Find(fs, ACCESS_KEY) == Some(JString(b.accessKey)) && Find(fs, SECRET_KEY) == Some(JString(b.secretKey))
      && Find(fs, DEVICE_ID) == Some(JString(b.addr)) && Find(fs, CONFIG_VERSION) == Some(JNumber(b.version))
      && Find(fs, CORE_MODULES) == Some(JArray(SavedModules(b.cm)))
  {
    hide Find;
    FindAt(Saved(b), 0);
    FindAt(Saved(b), 1);
    FindAt(Saved(b), 2);
    FindAt(Saved(b), 3);
    FindAt(Saved(b), 4);
  }

  /** Loading what was saved restores every setting, whatever the settings loaded into were. */
  lemma LoadingRestores(before: Settings, b: Settings)
    requires b.Valid()
    ensures Loaded(before, Saved(b)) == b
  {
    hide Saved;
    hide Find;
    SavedFields(b);
    ModulesLoad(b.cm);
  }

  /** The order of the keys does not matter. */
  lemma KeyOrderIsIrrelevant(b: Settings, fs: Fields, gs: Fields)
    requires multiset(fs) == multiset(gs)
    ensures Loaded(b, fs) == Loaded(b, gs)
  {
    hide Find;
    forall key: string ensures Find(fs, key) == Find(gs, key) {
      SameFind(fs, gs, key);
    }
  }

  lemma SameFind(fs: Fields, gs: Fields, key: string)
    requires multiset(fs) == multiset(gs)
    ensures Find(fs, key) == Find(gs, key)
  {
    forall val ensures Find(fs, key) == Some(val) <==> Find(gs, key) == Some(val) {
      FindIsMembership(fs, key, val);
      FindIsMembership(gs, key, val);
      assert (key, val) in multiset(fs) <==> (key, val) in multiset(gs);
    }
    if Find(fs, key).Some? {
      assert Find(gs, key) == Some(Find(fs, key).value);
    }
  }

  lemma AddsSave(b: Settings)
    ensures var keys := Add(Add([], ACCESS_KEY, JString(b.accessKey)), SECRET_KEY, JString(b.secretKey));
      var whole := Add(Add(keys, DEVICE_ID, JString(b.addr)), CORE_MODULES, JArray(SavedModules(b.cm)));
      Add(whole, CONFIG_VERSION, JNumber(b.version)) == Saved(b)
  {
    hide Add;
    hide SavedModules;
  }

  // ---------- The program ----------

  /** The configuration file; how its text is printed and parsed is not part of the model. */
  datatype File = Absent | Empty | Broken | Holds(fields: Fields)

  /**
   How rewriting the file goes. The whole text reads as the new object even over a longer old text, which the parser
   does not look at. If the file could be cut to nothing, part of the text is no object. If it could not, nothing
   written keeps the old text, and part of the new text mixed with the rest of the old one reads as whatever is found.
   */
  datatype Writing = Whole | Partial | Nothing | Kept | Mixed(found: File)

  function Rewritten(before: File, fields: Fields, writing: Writing): File {
    match writing
    case Whole => Holds(fields)
    case Partial => Broken
    case Nothing => Empty
    case Kept => before
    case Mixed(found) => found
  }

  /** The end of a process that loops over the keys of a text that is no object. */
  const KILLED: int := -11

  class Disk {
    var file: File

    constructor (file: File)
      ensures this.file == file
    {
      this.file := file;
    }
  }

  method BuildModule(m: Module) returns (jcm: Json)
    requires m.Valid()
    ensures jcm == SavedModule(m)
  {
    KeysDiffer();
    var fields := Add([], DEVICE_ID, JString(m.addr));
    fields := Add(fields, BLUETOOTH_ADDRESS, JString(m.bleAddr));
    fields := Add(fields, PROTOCOL, JString(m.protocol));
    var sensors: seq<Json>, j := [], 0;
    while j < m.sizeSen
      invariant j <= m.sizeSen && sensors == SavedSensors(m.sensors[..j])
    {
      sensors := sensors + [JString(m.sensors[j])];
      j := j + 1;
    }
    assert m.sensors[..m.sizeSen] == m.sensors;
    fields := Add(fields, SENSORS, JArray(sensors));
    jcm := JObject(fields);
  }

  method LoadModule(item: Json) returns (m: Module)
    ensures m == LoadedModule(item)
  {
    m := NoModule;
    m := m.(bleAddr := Text(item, BLUETOOTH_ADDRESS, m.bleAddr));
    m := m.(addr := Text(item, DEVICE_ID, m.addr));
    m := m.(protocol := Text(item, PROTOCOL, m.protocol));
    var jsensors := Get(item, SENSORS);
    if jsensors.Some? {
      var items := ItemsOf(jsensors.value);
      m := m.(sizeSen := |items|, sensors := seq(|items|, _ => ""));
      var j := 0;
      while j < m.sizeSen
        invariant j <= m.sizeSen == |items| == |m.sensors|
        invariant m == LoadedModule(item).(sensors := m.sensors)
        invariant forall k :: 0 <= k < j ==> m.sensors[k] == TextOf(items[k])
      {
        m := m.(sensors := m.sensors[j := TextOf(items[j])]);
        j := j + 1;
      }
    }
  }

  class Bridge {
    var addr: string
    var accessKey: string
    var secretKey: string
    var configVersion: real
    var cm: seq<Module>
    var sizeCm: nat

    constructor ()
      ensures Data() == ZeroSettings
    {
      addr, accessKey, secretKey, configVersion, cm, sizeCm := "", "", "", 0.0, [], 0;
    }

    ghost function Data(): Settings
      reads this
    {
      Settings(addr, accessKey, secretKey, configVersion, cm, sizeCm)
    }

    /** Puts the settings together as one JSON object. */
    method BuildConfig() returns (root: Fields)
      requires Data().Valid()
      ensures root == Saved(Data())
    {
      hide Add;
      hide SavedModules;
      var fields := Add([], ACCESS_KEY, JString(accessKey));
      fields := Add(fields, SECRET_KEY, JString(secretKey));
      fields := Add(fields, DEVICE_ID, JString(addr));
      var modules: seq<Json>, i := [], 0;
      while i < sizeCm
        invariant i <= sizeCm && modules == SavedModules(cm[..i])
      {
        var jcm := BuildModule(cm[i]);
        SavedModulesSnoc(cm, i);
        modules := modules + [jcm];
        i := i + 1;
      }
      assert cm[..sizeCm] == cm;
      fields := Add(fields, CORE_MODULES, JArray(modules));
      fields := Add(fields, CONFIG_VERSION, JNumber(configVersion));
      AddsSave(Data());
      root := fields;
    }

    /** The file is cut to nothing and then written; either may fail, which is only reported. */
    method UpdateConfigFile(disk: Disk, writing: Writing)
      requires Data().Valid() && !disk.file.Absent?
      modifies disk
      ensures disk.file == Rewritten(old(disk.file), Saved(Data()), writing)
    {
      var root := BuildConfig();
      if !writing.Kept? && !writing.Mixed? {
        disk.file := Empty;
      }
      match writing {
        case Whole => disk.file := Holds(root);
        case Partial => disk.file := Broken;
        case Nothing =>
        case Kept =>
        case Mixed(found) => disk.file := found;
      }
    }

    method LoadModules(items: seq<Json>)
      modifies `cm, `sizeCm
      ensures cm == LoadedModules(items) && sizeCm == |items|
    {
      sizeCm := |items|;
      cm := seq(|items|, _ => NoModule);
      var i := 0;
      while i < sizeCm
        invariant i <= sizeCm == |cm| == |items|
        invariant forall k :: 0 <= k < i ==> cm[k] == LoadedModule(items[k])
      {
        var m := LoadModule(items[i]);
        cm := cm[i := m];
        i := i + 1;
      }
    }

    /** One pass over the keys of the file; what is left alone keeps its value. */
    method LoadLocalConfig(disk: Disk) returns (rc: int)
      modifies this
      ensures rc == if disk.file.Holds? then 0 else if disk.file.Broken? then KILLED else 1
      ensures Data() == if disk.file.Holds? then Loaded(old(Data()), disk.file.fields) else old(Data())
    {
      if disk.file.Absent? || disk.file.Empty? {
        return 1;
      }
      if disk.file.Broken? {
        return KILLED;
      }
      var fields, k := disk.file.fields, 0;
      while k < |fields|
        invariant k <= |fields| && fields == disk.file.fields
        invariant Data() == Loaded(old(Data()), fields[..k])
      {
        LoadField(fields[k].0, fields[k].1, old(Data()), fields[..k]);
        assert fields[..k + 1] == fields[..k] + [(fields[k].0, fields[k].1)];
        k := k + 1;
      }
      assert fields[..k] == fields;
      rc := 0;
    }

    method LoadField(key: string, val: Json, ghost before: Settings, ghost done: seq<(string, Json)>)
      requires Data() == Loaded(before, done)
      modifies this
      ensures Data() == Loaded(before, done + [(key, val)])
    {
      if key == DEVICE_ID {
        addr := TextOf(val);
      } else if key == CORE_MODULES {
        LoadModules(ItemsOf(val));
      } else if key == ACCESS_KEY {
        accessKey := TextOf(val);
      } else if key == SECRET_KEY {
        secretKey := TextOf(val);
      } else if key == CONFIG_VERSION {
        configVersion := NumberOf(val);
      }
      FindSnoc(done, key, val);
    }
  }
}
