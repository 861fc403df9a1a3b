/** What the version gate and the file guarantee over starts of the process. */
module ConfigTheorems {
  import opened Types
  import opened Config
  import opened RemoteConfig

  /** The version the cloud offers, if it offers one. */
  function Offered(cloud: Cloud, mac: string): Option<real> {
    match GatewayItem(cloud, mac) case None => None case Some(item) => VersionOf(cloud, item)
  }

  /** The update gets past the gate: there is an item, and the version on it, if any, is newer than `version`. */
  predicate PassesGate(cloud: Cloud, mac: string, version: real) {
    GatewayItem(cloud, mac).Some? && (Offered(cloud, mac).Some? ==> Offered(cloud, mac).value > version)
  }

  /** The item names the gateway, the request for its modules is answered, and no answer about sensors is unreadable. */
  predicate ModulesAnswered(cloud: Cloud, mac: string) {
    match GatewayItem(cloud, mac)
    case None => false
    case Some(item) =>
      match Attribute(item, DEVICE_ID, "S")
      case None => false
      case Some(gateway) => ReadablyAnswered(cloud, gateway)
  }

  predicate ReadablyAnswered(cloud: Cloud, gateway: string) {
    match cloud.answer(1, ByLink(gateway))
    case Failed => false
    case Unreadable => false
    case Answered(fields) => SensorsReadable(cloud, 2, Listed(fields))
  }

  /**
   The version in memory never falls. Nothing at all changes unless the update passes the gate, and with a version
   offered it then becomes exactly that version.
   */
  lemma GateDecides(cloud: Cloud, mac: string, b: Settings, file: File, writing: Writing)
    ensures var u := RemoteUpdated(cloud, mac, b, file, writing);
      && u.b.version >= b.version
      && (!PassesGate(cloud, mac, b.version) ==> u.b == b && u.file == file)
      && (PassesGate(cloud, mac, b.version) && Offered(cloud, mac).Some? ==>
            u.b.version == Offered(cloud, mac).value > b.version)
  {
  }

  /** A start without network would come up with exactly these settings. */
  predicate InSync(b: Settings, file: File) {
    file.Holds? && Loaded(ZeroSettings, file.fields) == b
  }

  /**
   An item that offers no version and is of no use: it names no gateway, or the one that these settings have already,
   without any modules.
   */
  predicate NothingToLose(cloud: Cloud, mac: string, b: Settings) {
    && GatewayItem(cloud, mac).Some? && Offered(cloud, mac).None?
    && match Attribute(GatewayItem(cloud, mac).value, DEVICE_ID, "S")
       case None => true
       case Some(gateway) => b.addr == gateway && b.cm == [] && b.sizeCm == 0
  }

  /** Rewriting has left the file with what memory has: the whole text, or an old or mixed one that happens to agree. */
  predicate Took(writing: Writing, before: Settings, after: Settings) {
    match writing
    case Whole => true
    case Partial => false
    case Nothing => false
    case Kept => after == before
    case Mixed(found) => InSync(after, found)
  }

  /**
   After any start from a file that is not killed, memory and file agree exactly when nothing passed the gate, or the
   modules were answered and the file took what was written, or the update failed where there was nothing to lose. The
   sensors need not have been answered. A start that is killed leaves the file as it is.
   */
  lemma FileFollowsMemory(start: Start, file: File)
    requires file.Holds?
    ensures var b, r := Loaded(ZeroSettings, file.fields), Boot(start, file);
      var answered := ModulesAnswered(start.cloud, start.mac);
      if r.rc == KILLED then r.file == file
      else
        r.rc == 0 &&
        (InSync(r.b, r.file) <==>
          || !start.online || !PassesGate(start.cloud, start.mac, b.version)
          || (answered && Took(start.writing, b, r.b))
          || (!answered && NothingToLose(start.cloud, start.mac, b)))
  {
    var b, r := Loaded(ZeroSettings, file.fields), Boot(start, file);
    LoadedIsValid(ZeroSettings, file.fields);
    GateDecides(start.cloud, start.mac, b, file, start.writing);
    BootIsValid(start, file);
    LoadingRestores(ZeroSettings, r.b);
    hide Loaded;
    hide Saved;
    hide Attribute;
    hide Items;
    hide SensorsReadable;
  }

  lemma ModulesAreValid(cloud: Cloud, gateway: string, b: Settings, file: File, writing: Writing)
    requires b.Valid()
    ensures ModulesUpdated(cloud, gateway, b, file, writing).b.Valid()
  {
    hide Listed;
    hide SensorsReadable;
    hide Rewritten;
    hide Requests;
  }

  lemma UpdateIsValid(cloud: Cloud, mac: string, b: Settings, file: File, writing: Writing)
    requires b.Valid()
    ensures RemoteUpdated(cloud, mac, b, file, writing).b.Valid()
  {
    forall gateway: string, c: Settings | c.Valid()
      ensures ModulesUpdated(cloud, gateway, c, file, writing).b.Valid()
    {
      ModulesAreValid(cloud, gateway, c, file, writing);
    }
    hide ModulesUpdated;
    hide GatewayItem;
    hide Attribute;
  }

  lemma BootIsValid(start: Start, file: File)
    requires file.Holds?
    ensures Boot(start, file).b.Valid()
  {
    LoadedIsValid(ZeroSettings, file.fields);
    UpdateIsValid(start.cloud, start.mac, Loaded(ZeroSettings, file.fields), file, start.writing);
    hide Loaded;
    hide RemoteUpdated;
  }

  /** A start after which the settings of this version stay: offline, or offered nothing newer, or killed at once. */
  predicate Quiet(start: Start, version: real) {
    start.online ==> !PassesGate(start.cloud, start.mac, version)
  }

  /** The file after a number of starts. */
  function Starts(file: File, starts: seq<Start>): File {
    if starts == [] then file
    else Boot(starts[|starts| - 1], Starts(file, starts[..|starts| - 1])).file
  }

  /** The first answer of the process is unreadable. */
  predicate KilledAtOnce(start: Start) {
    start.online && start.cloud.answer(0, ByMacAddress(start.mac)).Unreadable?
  }

  /** How a quiet start ends that finds these settings in the file. */
  function AtRest(start: Start, b: Settings, file: File): Booted {
    if KilledAtOnce(start) then Booted(KILLED, ZeroSettings, file) else Booted(0, b, file)
  }

  /** Settings in step with the file come back at every later quiet start, however many there are. */
  lemma {:induction false} SettledStays(b: Settings, file: File, starts: seq<Start>)
    requires InSync(b, file) && forall i :: 0 <= i < |starts| ==> Quiet(starts[i], b.version)
    ensures Starts(file, starts) == file
    ensures forall start: Start :: Quiet(start, b.version) ==> Boot(start, file) == AtRest(start, b, file)
    decreases |starts|
  {
    forall start: Start | Quiet(start, b.version) ensures Boot(start, file) == AtRest(start, b, file) {
      GateDecides(start.cloud, start.mac, b, file, start.writing);
    }
    if starts != [] {
      SettledStays(b, file, starts[..|starts| - 1]);
    }
  }

  /** After an update that was offered, answered and written, memory is what every later quiet start comes up with. */
  lemma UpdateSurvivesStarts(start: Start, file: File, starts: seq<Start>, next: Start)
    requires start.online && file.Holds? && Offered(start.cloud, start.mac).Some?
    requires ModulesAnswered(start.cloud, start.mac) && start.writing.Whole?
    requires var version := Boot(start, file).b.version;
      Quiet(next, version) && forall i :: 0 <= i < |starts| ==> Quiet(starts[i], version)
    ensures var r := Boot(start, file);
      r.rc == 0 && Boot(next, Starts(r.file, starts)) == AtRest(next, r.b, r.file)
  {
    AnsweredIsNotKilled(start, file);
    hide Boot;
    FileFollowsMemory(start, file);
    SettledStays(Boot(start, file).b, Boot(start, file).file, starts);
  }

  lemma AnsweredIsNotKilled(start: Start, file: File)
    requires file.Holds? && ModulesAnswered(start.cloud, start.mac)
    ensures Boot(start, file).rc == 0
  {
    hide Loaded;
    hide Saved;
    hide Attribute;
    hide Items;
    hide SensorsReadable;
  }

  // ---------- What the cloud publishes arrives ----------

  predicate Describes(item: Json, m: Module) {
    && Attribute(item, DEVICE_ID, "S") == Some(m.addr) && Attribute(item, BLUETOOTH_ADDRESS, "S") == Some(m.bleAddr)
    && Attribute(item, PROTOCOL, "S") == Some(m.protocol)
  }

  predicate Names(items: seq<Json>, sensors: seq<string>) {
    |items| == |sensors| && forall j :: 0 <= j < |items| ==> Attribute(items[j], DEVICE_ID, "S") == Some(sensors[j])
  }

  predicate ListsSensors(cloud: Cloud, n: nat, m: Module) {
    var reply := cloud.answer(n, ByLink(m.addr));
    reply.Answered? && Names(Listed(reply.fields), m.sensors)
  }

  predicate ListsModules(cloud: Cloud, items: seq<Json>, cm: seq<Module>) {
    |items| == |cm| && forall i :: 0 <= i < |cm| ==> Describes(items[i], cm[i]) && ListsSensors(cloud, 2 + i, cm[i])
  }

  /** The table in the cloud describes these settings, and every request is answered; attributes come in any order. */
  ghost predicate Publishes(cloud: Cloud, mac: string, b: Settings) {
    && GatewayItem(cloud, mac).Some?
    && VersionOf(cloud, GatewayItem(cloud, mac).value) == Some(b.version)
    && Attribute(GatewayItem(cloud, mac).value, DEVICE_ID, "S") == Some(b.addr)
    && cloud.answer(1, ByLink(b.addr)).Answered?
    && ListsModules(cloud, Listed(cloud.answer(1, ByLink(b.addr)).fields), b.cm)
  }

  lemma {:induction false} EveryItemRequests(cloud: Cloud, items: seq<Json>, cm: seq<Module>, k: nat)
    requires ListsModules(cloud, items, cm) && k <= |items|
    ensures Requests(items, k) == k
  {
    hide Attribute;
    hide ListsSensors;
    if k > 0 {
      EveryItemRequests(cloud, items, cm, k - 1);
      assert Describes(items[k - 1], cm[k - 1]);
    }
  }

  lemma ListedModulesArrive(cloud: Cloud, items: seq<Json>, cm: seq<Module>)
    requires ListsModules(cloud, items, cm) && forall i :: 0 <= i < |cm| ==> cm[i].Valid()
    ensures FetchedModules(cloud, 2, items) == cm && SensorsReadable(cloud, 2, items)
  {
    hide Attribute;
    hide Items;
    forall i | 0 <= i < |cm| ensures ModuleAt(cloud, 2, items, i) == cm[i] && ReadableAt(cloud, 2, items, i) {
      EveryItemRequests(cloud, items, cm, i);
      assert Describes(items[i], cm[i]) && ListsSensors(cloud, 2 + i, cm[i]);
      assert FetchedSensors(cloud, 2 + i, cm[i].addr) == cm[i].sensors;
    }
  }

  /**
   Settings published under a newer version are what the next online start runs with and writes to the file, apart from
   the two keys, which only the file has.
   */
  lemma PublishedArrives(start: Start, file: File, b: Settings)
    requires start.online && start.writing.Whole? && file.Holds? && b.Valid() && Publishes(start.cloud, start.mac, b)
    requires b.version > Loaded(ZeroSettings, file.fields).version
    ensures var local := Loaded(ZeroSettings, file.fields);
      var b' := b.(accessKey := local.accessKey, secretKey := local.secretKey);
      Boot(start, file) == Booted(0, b', Holds(Saved(b'))) && InSync(b', Boot(start, file).file)
  {
    hide Attribute;
    hide Items;
    hide GatewayItem;
    hide Saved;
    var local := Loaded(ZeroSettings, file.fields);
    var b' := b.(accessKey := local.accessKey, secretKey := local.secretKey);
    ListedModulesArrive(start.cloud, Listed(start.cloud.answer(1, ByLink(b.addr)).fields), b.cm);
    hide SensorsReadable;
    LoadingRestores(ZeroSettings, b');
    hide Loaded;
  }

  // ---------- What goes wrong, and for how long ----------

  lemma UpdateBringsModules(start: Start, file: File, gateway: string, fields: Fields, items: seq<Json>)
    requires start.online && file.Holds?
    requires PassesGate(start.cloud, start.mac, Loaded(ZeroSettings, file.fields).version)
    requires Attribute(GatewayItem(start.cloud, start.mac).value, DEVICE_ID, "S") == Some(gateway)
    requires start.cloud.answer(1, ByLink(gateway)) == Answered(fields) && Listed(fields) == items
    requires SensorsReadable(start.cloud, 2, items)
    ensures Boot(start, file).b.cm == FetchedModules(start.cloud, 2, items)
    ensures ModulesAnswered(start.cloud, start.mac)
  {
    hide Items;
    hide Attribute;
    hide GatewayItem;
  }

  /** The device of an item of the modules' answer, if the request for its sensors failed. */
  predicate SensorsLost(cloud: Cloud, items: seq<Json>, i: nat)
    requires i < |items|
  {
    match Attribute(items[i], DEVICE_ID, "S")
    case None => false
    case Some(device) => cloud.answer(2 + Requests(items, i), ByLink(device)).Failed?
  }

  lemma LostModuleIsBare(cloud: Cloud, items: seq<Json>, i: nat)
    requires i < |items| && SensorsLost(cloud, items, i)
    ensures var m := FetchedModules(cloud, 2, items)[i]; m.sensors == [] && m.sizeSen == 0
  {
    hide Attribute;
  }

  /**
   A module whose sensors could not be fetched during an update has none at any later quiet start: the file already has
   the new version, so the gate keeps the sensors from being asked for again.
   */
  lemma LostSensorsStayLost(
      start: Start, file: File, gateway: string, fields: Fields, items: seq<Json>, i: nat, starts: seq<Start>,
      next: Start)
    requires start.online && file.Holds? && start.writing.Whole? && Offered(start.cloud, start.mac).Some?
    requires PassesGate(start.cloud, start.mac, Loaded(ZeroSettings, file.fields).version)
    requires Attribute(GatewayItem(start.cloud, start.mac).value, DEVICE_ID, "S") == Some(gateway)
    requires start.cloud.answer(1, ByLink(gateway)) == Answered(fields) && Listed(fields) == items
    requires SensorsReadable(start.cloud, 2, items) && i < |items| && SensorsLost(start.cloud, items, i)
    requires var version := Boot(start, file).b.version;
      Quiet(next, version) && forall k :: 0 <= k < |starts| ==> Quiet(starts[k], version)
    ensures var r := Boot(next, Starts(Boot(start, file).file, starts));
      if KilledAtOnce(next) then r.rc == KILLED
      else |r.b.cm| == |items| && r.b.cm[i].sensors == [] && r.b.cm[i].sizeSen == 0
  {
    hide *;
    UpdateBringsModules(start, file, gateway, fields, items);
    UpdateSurvivesStarts(start, file, starts, next);
    LostModuleIsBare(start.cloud, items, i);
    RestIs(next, Boot(start, file).b, Boot(start, file).file);
  }

  lemma RestIs(start: Start, b: Settings, file: File)
    ensures AtRest(start, b, file).rc == if KilledAtOnce(start) then KILLED else 0
    ensures !KilledAtOnce(start) ==> AtRest(start, b, file).b == b
  {
  }

  /** A file that was lost, cut to nothing or written in part is never repaired: no start gets past it. */
  lemma {:induction false} EmptyFileIsFinal(file: File, starts: seq<Start>, next: Start)
    requires !file.Holds?
    ensures Starts(file, starts) == file && Boot(next, file).rc != 0 && Boot(next, file).file == file
    decreases |starts|
  {
    if starts != [] {
      EmptyFileIsFinal(file, starts[..|starts| - 1], next);
    }
  }

  // ---------- Failing starts, and items without a version ----------

  /** A start that reads the file and leaves it: offline, stopped by the gate, or not answered about the modules. */
  predicate Leaves(start: Start, version: real) {
    start.online ==> !PassesGate(start.cloud, start.mac, version) || !ModulesAnswered(start.cloud, start.mac)
  }

  lemma {:induction false} FailuresLeaveFile(file: File, starts: seq<Start>)
    requires file.Holds?
    requires forall i :: 0 <= i < |starts| ==> Leaves(starts[i], Loaded(ZeroSettings, file.fields).version)
    ensures Starts(file, starts) == file
    decreases |starts|
  {
    if starts != [] {
      FailuresLeaveFile(file, starts[..|starts| - 1]);
      assert Leaves(starts[|starts| - 1], Loaded(ZeroSettings, file.fields).version);
    }
  }

  /**
   However many starts fail, the next one that fails to get the modules still finds the same version past the gate, and
   runs without any module.
   */
  lemma FailedUpdateIsRetried(file: File, failed: seq<Start>, start: Start)
    requires start.online && file.Holds? && Offered(start.cloud, start.mac).Some?
    requires PassesGate(start.cloud, start.mac, Loaded(ZeroSettings, file.fields).version)
    requires forall i :: 0 <= i < |failed| ==> Leaves(failed[i], Loaded(ZeroSettings, file.fields).version)
    requires var item := GatewayItem(start.cloud, start.mac).value;
      Attribute(item, DEVICE_ID, "S").Some? && !ModulesAnswered(start.cloud, start.mac)
    ensures var r := Boot(start, Starts(file, failed));
      && r.file == file && r.b.cm == [] && r.b.sizeCm == 0
      && PassesGate(start.cloud, start.mac, Loaded(ZeroSettings, r.file.fields).version)
  {
    FailuresLeaveFile(file, failed);
    hide Starts;
    hide Loaded;
    hide Attribute;
    hide Items;
    hide SensorsReadable;
  }

  /**
   However many starts fail to get the modules, the file and its version stay, so settings published under a newer
   version still arrive at the first start that gets them.
   */
  lemma PublishedArrivesInTheEnd(file: File, failed: seq<Start>, start: Start, b: Settings)
    requires start.online && start.writing.Whole? && file.Holds? && b.Valid()
    requires Publishes(start.cloud, start.mac, b) && b.version > Loaded(ZeroSettings, file.fields).version
    requires forall i :: 0 <= i < |failed| ==> Leaves(failed[i], Loaded(ZeroSettings, file.fields).version)
    ensures var local := Loaded(ZeroSettings, file.fields);
      var b' := b.(accessKey := local.accessKey, secretKey := local.secretKey);
      Boot(start, Starts(file, failed)) == Booted(0, b', Holds(Saved(b')))
  {
    hide *;
    FailuresLeaveFile(file, failed);
    PublishedArrives(start, file, b);
  }

  /** A start that replaces the modules because the item offers no version to compare. */
  predicate Refetches(start: Start) {
    && start.online && start.writing.Whole? && GatewayItem(start.cloud, start.mac).Some?
    && Offered(start.cloud, start.mac).None? && ModulesAnswered(start.cloud, start.mac)
  }

  /** What such a start keeps of the file: the two keys and the version. */
  predicate SameKeys(b: Settings, c: Settings) {
    b.accessKey == c.accessKey && b.secretKey == c.secretKey && b.version == c.version
  }

  /** It takes the rest from the cloud, and leaves memory and file in step. */
  lemma RefetchForgets(start: Start, file: File, other: File)
    requires Refetches(start) && file.Holds? && other.Holds?
    requires SameKeys(Loaded(ZeroSettings, file.fields), Loaded(ZeroSettings, other.fields))
    ensures Boot(start, file) == Boot(start, other)
    ensures Boot(start, file).file.Holds?
    ensures var b, r := Loaded(ZeroSettings, file.fields), Boot(start, file);
      SameKeys(r.b, b) && Loaded(ZeroSettings, r.file.fields) == r.b
  {
    FileFollowsMemory(start, file);
    hide Loaded;
    hide Saved;
    hide Attribute;
    hide Items;
    hide FetchedModules;
  }

  /**
   Items without a version pass the gate at every online start. Over any number of starts of which each refetches or
   leaves the file, the keys and the version on file stay, and a start that refetches comes up as if it were the first.
   */
  lemma {:induction false} OnlyLastRefetchCounts(file: File, starts: seq<Start>, last: Start)
    requires file.Holds? && Refetches(last)
    requires forall i :: 0 <= i < |starts| ==>
      Refetches(starts[i]) || Leaves(starts[i], Loaded(ZeroSettings, file.fields).version)
    ensures Starts(file, starts).Holds?
    ensures SameKeys(Loaded(ZeroSettings, Starts(file, starts).fields), Loaded(ZeroSettings, file.fields))
    ensures Boot(last, Starts(file, starts)) == Boot(last, file)
    decreases |starts|
  {
    hide Boot;
    hide Loaded;
    hide Refetches;
    hide Leaves;
    if starts != [] {
      var init, start := starts[..|starts| - 1], starts[|starts| - 1];
      OnlyLastRefetchCounts(file, init, last);
      var before := Starts(file, init);
      if Refetches(start) {
        RefetchForgets(start, before, before);
      } else {
        LeavingStart(start, before);
      }
    }
    RefetchForgets(last, Starts(file, starts), file);
  }

  lemma LeavingStart(start: Start, file: File)
    requires file.Holds? && Leaves(start, Loaded(ZeroSettings, file.fields).version)
    ensures Boot(start, file).file == file
  {
  }

  /** Exactly the files that hold no settings are dead: no start, after whatever starts, gets past them. */
  ghost predicate Dead(file: File) {
    forall starts: seq<Start>, next: Start :: Boot(next, Starts(file, starts)).rc != 0
  }

  lemma DeadHoldsNothing(file: File)
    ensures Dead(file) <==> !file.Holds?
  {
    if file.Holds? {
      var offline := Start(false, Cloud((_: nat, _: Query) => Failed, (_: string) => 0.0), "", Whole);
      assert Starts(file, []) == file && Boot(offline, Starts(file, [])).rc == 0;
    } else {
      forall starts: seq<Start>, next: Start ensures Boot(next, Starts(file, starts)).rc != 0 {
        EmptyFileIsFinal(file, starts, next);
      }
    }
  }

  /**
   An update that got its answers leaves a dead file exactly when the file was cut and not written as a whole. After a
   write that put nothing out the next start gives up; after one that put a part out it is killed by signal 11.
   */
  lemma InterruptedWriteIsFinal(start: Start, file: File)
    requires start.online && file.Holds? && ModulesAnswered(start.cloud, start.mac)
    requires PassesGate(start.cloud, start.mac, Loaded(ZeroSettings, file.fields).version)
    ensures Dead(Boot(start, file).file) <==>
      match start.writing
      case Whole => false
      case Partial => true
      case Nothing => true
      case Kept => false
      case Mixed(found) => !found.Holds?
    ensures forall next: Start ::
      && (start.writing.Nothing? ==> Boot(next, Boot(start, file).file).rc == 1)
      && (start.writing.Partial? ==> Boot(next, Boot(start, file).file).rc == -11)
  {
    DeadHoldsNothing(Boot(start, file).file);
    AnsweredIsNotKilled(start, file);
    hide Dead;
    hide Loaded;
    hide Saved;
    hide Attribute;
    hide Items;
    hide SensorsReadable;
  }

  /**
   Over any number of starts, a file that still holds settings holds no older version than it did, unless a text was
   written in part over another that could not be cut.
   */
  lemma {:induction false} FileVersionNeverFalls(file: File, starts: seq<Start>)
    requires Starts(file, starts).Holds? && forall i :: 0 <= i < |starts| ==> !starts[i].writing.Mixed?
    ensures file.Holds?
    ensures Loaded(ZeroSettings, Starts(file, starts).fields).version >= Loaded(ZeroSettings, file.fields).version
    decreases |starts|
  {
    if starts != [] {
      var n := |starts| - 1;
      FileVersionNeverFalls(file, starts[..n]);
      StartKeepsVersion(starts[n], Starts(file, starts[..n]));
    }
  }

  lemma StartKeepsVersion(start: Start, file: File)
    requires file.Holds? && Boot(start, file).file.Holds? && !start.writing.Mixed?
    ensures Loaded(ZeroSettings, Boot(start, file).file.fields).version >= Loaded(ZeroSettings, file.fields).version
  {
    LoadedIsValid(ZeroSettings, file.fields);
    UpdateKeepsVersion(start.cloud, start.mac, Loaded(ZeroSettings, file.fields), file, start.writing);
    hide Loaded;
    hide RemoteUpdated;
  }

  /** Unless old and new text are mixed, a file that holds settings is as it was or holds those in memory. */
  lemma UpdateWrites(cloud: Cloud, mac: string, b: Settings, file: File, writing: Writing)
    requires file.Holds? && !writing.Mixed?
    ensures var u := RemoteUpdated(cloud, mac, b, file, writing);
      u.file.Holds? ==> u.file == file || u.file == Holds(Saved(u.b))
  {
    forall gateway: string, c: Settings
      ensures var u := ModulesUpdated(cloud, gateway, c, file, writing);
        u.file.Holds? ==> u.file == file || u.file == Holds(Saved(u.b))
    {
      ModulesWrite(cloud, gateway, c, file, writing);
    }
    hide ModulesUpdated;
    hide GatewayItem;
    hide Attribute;
    hide Saved;
  }

  lemma ModulesWrite(cloud: Cloud, gateway: string, b: Settings, file: File, writing: Writing)
    requires file.Holds? && !writing.Mixed?
    ensures var u := ModulesUpdated(cloud, gateway, b, file, writing);
      u.file.Holds? ==> u.file == file || u.file == Holds(Saved(u.b))
  {
    hide Listed;
    hide SensorsReadable;
    hide Saved;
    hide Requests;
  }

  lemma UpdateKeepsVersion(cloud: Cloud, mac: string, b: Settings, file: File, writing: Writing)
    requires b.Valid() && file.Holds? && Loaded(ZeroSettings, file.fields) == b && !writing.Mixed?
    ensures var u := RemoteUpdated(cloud, mac, b, file, writing);
      u.file.Holds? ==> Loaded(ZeroSettings, u.file.fields).version >= b.version
  {
    var u := RemoteUpdated(cloud, mac, b, file, writing);
    GateDecides(cloud, mac, b, file, writing);
    UpdateIsValid(cloud, mac, b, file, writing);
    UpdateWrites(cloud, mac, b, file, writing);
    LoadingRestores(ZeroSettings, u.b);
    hide Loaded;
    hide Saved;
    hide RemoteUpdated;
    hide PassesGate;
  }
}
