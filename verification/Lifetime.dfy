/** From the sensors to the cloud: what every stored reading owes to the responses heard, over the life of a gateway. */
module Lifetime {
  import opened Types
  import opened AttServer
  import opened Link
  import opened CoreModules
  import opened Exchange
  import opened Acquisition
  import opened AcquisitionTheorems
  import opened Provenance
  import opened Producer
  import opened UploadMachine
  import opened UploadTheorems

  // ---------- What a process has heard ----------

  /** All replies heard on the links of these modules. */
  function Journal(ws: seq<World>): set<seq<byte>> {
    if ws == [] then {} else Journal(ws[..|ws| - 1]) + HeardOn(ws[|ws| - 1].link)
  }

  lemma JournalSnoc(ws: seq<World>, w: World)
    ensures Journal(ws + [w]) == Journal(ws) + HeardOn(w.link)
  {
    assert (ws + [w])[..|ws|] == ws;
  }

  /** One of the peers gave this reply to one of the reads made on the link. */
  ghost predicate SaidByOne(peers: seq<Peer>, reply: seq<byte>, upTo: nat) {
    exists peer :: peer in peers && SaidBetween(peer, reply, 0, upTo)
  }

  ghost predicate AllSaid(peers: seq<Peer>, s: LinkState) {
    forall k :: 0 <= k < |s.heard| ==> SaidByOne(peers, s.heard[k], s.received)
  }

  ghost predicate NothingInvented(peers: seq<Peer>, ws: seq<World>) {
    forall i :: 0 <= i < |ws| ==> AllSaid(peers, ws[i].link)
  }

  /** An error shows the error value, and a value is one whose octets were heard. */
  ghost predicate TrueSensor(heard: set<seq<byte>>, sen: Sensor) {
    Marked(sen) && Genuine(heard, sen)
  }

  ghost predicate TrueSensors(heard: set<seq<byte>>, w: World) {
    forall i :: 0 <= i < |w.sen| ==> TrueSensor(heard, w.sen[i])
  }

  ghost predicate AllTrue(heard: set<seq<byte>>, ws: seq<World>) {
    forall i :: 0 <= i < |ws| ==> TrueSensors(heard, ws[i])
  }

  lemma TrueSensorsStay(heard: set<seq<byte>>, more: set<seq<byte>>, w: World)
    requires TrueSensors(heard, w) && heard <= more
    ensures TrueSensors(more, w)
  {
    forall i | 0 <= i < |w.sen| ensures TrueSensor(more, w.sen[i]) {
      GenuineStays(heard, more, w.sen[i]);
    }
    hide Genuine;
  }

  lemma AllTrueStay(heard: set<seq<byte>>, more: set<seq<byte>>, ws: seq<World>)
    requires AllTrue(heard, ws) && heard <= more
    ensures AllTrue(more, ws)
  {
    forall i | 0 <= i < |ws| ensures TrueSensors(more, ws[i]) {
      TrueSensorsStay(heard, more, ws[i]);
    }
  }

  // ---------- A tick ----------

  /** A module's part of a tick; `heard` is what has been heard on any link. */
  lemma PartKeepsTrue(heard: set<seq<byte>>, way: Way, w: World)
    requires TrueSensors(heard, w) && BufferKnown(heard, w.resp)
    ensures var v := Part(way, w);
      TrueSensors(heard + HeardOn(v.link), v) && BufferKnown(heard + HeardOn(v.link), v.resp)
  {
    var v := Part(way, w);
    if way.bluetooth {
      TrueIsKnown(heard, w);
      KnownStays(heard, heard + HeardOn(w.link), w);
      RoundKeepsKnown(way.peer, heard, w, way.connected);
      RoundKeepsMarked(way.peer, w, way.connected);
      hide Round;
      KnownIsTrue(heard + HeardOn(v.link), v);
    } else {
      TrueSensorsStay(heard, heard + HeardOn(w.link), w);
      BufferStays(heard, heard + HeardOn(w.link), w.resp);
    }
  }

  lemma TrueIsKnown(heard: set<seq<byte>>, w: World)
    requires TrueSensors(heard, w) && BufferKnown(heard, w.resp)
    ensures Known(heard, w) && AllMarked(w)
  {
    assert forall i :: 0 <= i < |w.sen| ==> TrueSensor(heard, w.sen[i]);
    hide Genuine;
  }

  lemma KnownIsTrue(heard: set<seq<byte>>, w: World)
    requires Known(heard, w) && AllMarked(w)
    ensures TrueSensors(heard, w) && BufferKnown(heard, w.resp)
  {
    hide Genuine;
  }

  /** Over the modules in turn, starting with what has been heard before. */
  lemma {:induction false} TickKeepsTrue(heard: set<seq<byte>>, ways: seq<Way>, before: seq<World>, resp: packet)
    requires |ways| == |before| && AllTrue(heard, before) && BufferKnown(heard, resp)
    ensures var after := Ticked(ways, before, resp);
      AllTrue(heard + Journal(after), after) && BufferKnown(heard + Journal(after), BufferAfter(after, resp))
    decreases |ways|
  {
    hide TrueSensors;
    hide BufferKnown;
    var after := Ticked(ways, before, resp);
    if ways == [] {
      assert heard + Journal(after) == heard;
    } else {
      var n := |ways| - 1;
      var init := Ticked(ways[..n], before[..n], resp);
      TickKeepsTrue(heard, ways[..n], before[..n], resp);
      var w := before[n].(resp := BufferAfter(init, resp));
      TrueSensorsStay(heard, heard + Journal(init), before[n]);
      SameSensors(heard + Journal(init), before[n], w.resp);
      PartKeepsTrue(heard + Journal(init), ways[n], w);
      var last := Part(ways[n], w);
      assert after == init + [last];
      hide Part;
      hide Ticked;
      TickStepIsTrue(heard, init, last, resp);
    }
  }

  lemma SameSensors(heard: set<seq<byte>>, w: World, resp: packet)
    requires TrueSensors(heard, w)
    ensures TrueSensors(heard, w.(resp := resp))
  {
  }

  lemma TickStepIsTrue(heard: set<seq<byte>>, init: seq<World>, last: World, resp: packet)
    requires AllTrue(heard + Journal(init), init)
    requires TrueSensors(heard + Journal(init) + HeardOn(last.link), last)
    requires BufferKnown(heard + Journal(init) + HeardOn(last.link), last.resp)
    ensures var after := init + [last];
      AllTrue(heard + Journal(after), after) && BufferKnown(heard + Journal(after), BufferAfter(after, resp))
  {
    JournalSnoc(init, last);
    var all := heard + Journal(init) + HeardOn(last.link);
    assert all == heard + Journal(init + [last]);
    AllTrueStay(heard + Journal(init), all, init);
    hide Journal;
    hide TrueSensors;
    hide BufferKnown;
  }

  /** Every way leads to one of the peers. */
  ghost predicate Reach(ways: seq<Way>, peers: seq<Peer>) {
    forall i :: 0 <= i < |ways| ==> ways[i].peer in peers
  }

  /** A tick forgets nothing of what was heard, and adds what the peers say to the reads it makes. */
  lemma {:induction false} TickHears(peers: seq<Peer>, ways: seq<Way>, before: seq<World>, resp: packet)
    requires |ways| == |before| && Reach(ways, peers) && NothingInvented(peers, before)
    ensures NothingInvented(peers, Ticked(ways, before, resp))
    ensures Journal(before) <= Journal(Ticked(ways, before, resp))
    decreases |ways|
  {
    if ways != [] {
      var n := |ways| - 1;
      TickHears(peers, ways[..n], before[..n], resp);
      var init := Ticked(ways[..n], before[..n], resp);
      var w := before[n].(resp := BufferAfter(init, resp));
      assert AllSaid(peers, w.link);
      PartHears(peers, ways[n], w);
      hide AllSaid;
      hide Part;
      JournalSnoc(init, Part(ways[n], w));
    }
  }

  lemma PartHears(peers: seq<Peer>, way: Way, w: World)
    requires way.peer in peers && AllSaid(peers, w.link)
    ensures AllSaid(peers, Part(way, w).link) && HeardOn(w.link) <= HeardOn(Part(way, w).link)
  {
    if way.bluetooth {
      RoundHears(way.peer, w, way.connected);
      var v := Round(way.peer, w, way.connected);
      HeardGrows(way.peer, w.link, v.link);
      hide Round;
      hide SaidBetween;
      forall k | 0 <= k < |v.link.heard| ensures SaidByOne(peers, v.link.heard[k], v.link.received) {
        if k < |w.link.heard| {
          assert v.link.heard[k] == v.link.heard[..|w.link.heard|][k];
          SaidByOneStays(peers, w.link.heard[k], w.link.received, v.link.received);
        } else {
          SaidWithin(way.peer, v.link.heard[k], w.link.received, v.link.received, 0, v.link.received);
        }
      }
    }
  }

  lemma SaidByOneStays(peers: seq<Peer>, reply: seq<byte>, upTo: nat, more: nat)
    requires SaidByOne(peers, reply, upTo) && upTo <= more
    ensures SaidByOne(peers, reply, more)
  {
    var peer :| peer in peers && SaidBetween(peer, reply, 0, upTo);
    SaidWithin(peer, reply, 0, upTo, 0, more);
  }

  // ---------- Readings ----------

  /** What TrueSensor says, of a reading on its way. */
  ghost predicate TrueReading(heard: set<seq<byte>>, r: Reading) {
    |r.id| == MAX_SENSOR_ADDR && TrueSensor(heard, Sensor(r.id, r.data, r.code))
  }

  lemma ReadingsAreTrue(heard: set<seq<byte>>, w: World, now: int)
    requires TrueSensors(heard, w)
    ensures forall r :: r in ReadingsAt(w.sen, now) ==> TrueReading(heard, r)
  {
    forall r | r in ReadingsAt(w.sen, now) ensures TrueReading(heard, r) {
      var k :| 0 <= k < |w.sen| && r == ReadingsAt(w.sen, now)[k];
      hide TrueSensor;
      assert Sensor(r.id, r.data, r.code) == w.sen[k];
    }
  }

  lemma {:induction false} AllReadingsAreTrue(heard: set<seq<byte>>, ws: seq<World>, now: int)
    requires AllTrue(heard, ws)
    ensures forall r :: r in AllReadings(ws, now) ==> TrueReading(heard, r)
    decreases |ws|
  {
    if ws != [] {
      AllReadingsAreTrue(heard, ws[..|ws| - 1], now);
      ReadingsAreTrue(heard, ws[|ws| - 1], now);
      hide TrueReading;
      hide ReadingsAt;
    }
  }

  /** It is a true reading of one of these processes. */
  ghost predicate TrueInOne(processes: seq<seq<World>>, r: Reading) {
    exists k :: 0 <= k < |processes| && TrueReading(Journal(processes[k]), r)
  }

  // ---------- A life ----------

  /** What happens to a gateway: a tick, a step of consumer or cloud, or a new process with these modules. */
  datatype Act = Tick(ways: seq<Way>, now: int) | Other(e: Event) | Start(ws: seq<World>)

  /** The modules and the response buffer of the process that runs, the events so far, and the processes before. */
  datatype Life = Life(ws: seq<World>, resp: packet, es: seq<Event>, past: seq<seq<World>>) {
    function Processes(): seq<seq<World>> { past + [ws] }
  }

  /** Before the first process. */
  const Unborn := Life([], Zeros(MAX_BLE_PACKET_LEN), [], [])

  /** A tick for another number of modules than there are does nothing. */
  function Do(l: Life, act: Act): Life {
    match act
    case Other(e) => l.(es := l.es + [e])
    case Start(ws) => Life(ws, Zeros(MAX_BLE_PACKET_LEN), l.es + [Crash], l.Processes())
    case Tick(ways, now) =>
      if |ways| != |l.ws| then l
      else
        var after := Ticked(ways, l.ws, l.resp);
        Life(after, BufferAfter(after, l.resp), l.es + Pushes(AllReadings(after, now)), l.past)
  }

  function Lived(acts: seq<Act>): Life {
    if acts == [] then Unborn else Do(Lived(acts[..|acts| - 1]), acts[|acts| - 1])
  }

  /** A module as a process finds it after loading its configuration. */
  predicate Loaded(w: World) {
    && w.found == Gatt(0, 0, 0) && w.link == LinkState(false, 0, 0, [], [])
    && forall i :: 0 <= i < |w.sen| ==> w.sen[i] == Sensor(w.sen[i].addr, Number(0.0), Ok)
  }

  /** Ticks reach these peers only, nothing but ticks pushes, and a process starts with modules just loaded. */
  ghost predicate Plausible(peers: seq<Peer>, act: Act) {
    match act
    case Tick(ways, _) => Reach(ways, peers)
    case Other(e) => !e.Push? && !e.Crash?
    case Start(ws) => forall i :: 0 <= i < |ws| ==> Loaded(ws[i])
  }

  /** Sensors and buffer of the running process show what it has heard, and so do the readings pushed by any. */
  ghost predicate Traced(peers: seq<Peer>, l: Life) {
    && AllTrue(Journal(l.ws), l.ws) && BufferKnown(Journal(l.ws), l.resp)
    && (forall k :: 0 <= k < |l.Processes()| ==> NothingInvented(peers, l.Processes()[k]))
    && OnlyPushes(l.es, r => TrueInOne(l.Processes(), r))
  }

  lemma TrueReadingStays(heard: set<seq<byte>>, more: set<seq<byte>>, r: Reading)
    requires TrueReading(heard, r) && heard <= more
    ensures TrueReading(more, r)
  {
    GenuineStays(heard, more, Sensor(r.id, r.data, r.code));
    hide Genuine;
  }

  /** A reading traced to one of the processes stays so when the last one hears more, and when another one starts. */
  lemma TrueInOneStays(past: seq<seq<World>>, before: seq<World>, after: seq<World>, r: Reading)
    requires TrueInOne(past + [before], r) && Journal(before) <= Journal(after)
    ensures TrueInOne(past + [after], r)
  {
    var k :| 0 <= k < |past + [before]| && TrueReading(Journal((past + [before])[k]), r);
    hide TrueReading;
    hide Journal;
    if k < |past| {
      assert (past + [after])[k] == past[k] == (past + [before])[k];
    } else {
      TrueReadingStays(Journal(before), Journal(after), r);
      assert (past + [after])[k] == after;
    }
  }

  lemma TrueInOneOfMore(processes: seq<seq<World>>, ws: seq<World>, r: Reading)
    requires TrueInOne(processes, r)
    ensures TrueInOne(processes + [ws], r)
  {
    var k :| 0 <= k < |processes| && TrueReading(Journal(processes[k]), r);
    assert (processes + [ws])[k] == processes[k];
  }

  lemma TickIsTraced(peers: seq<Peer>, l: Life, ways: seq<Way>, now: int)
    requires Traced(peers, l) && Reach(ways, peers) && |ways| == |l.ws|
    ensures Traced(peers, Do(l, Tick(ways, now)))
  {
    var after := Ticked(ways, l.ws, l.resp);
    var heard := Journal(l.ws);
    assert l.Processes()[|l.past|] == l.ws;
    TickHears(peers, ways, l.ws, l.resp);
    TickKeepsTrue(heard, ways, l.ws, l.resp);
    assert heard + Journal(after) == Journal(after);
    AllReadingsAreTrue(Journal(after), after, now);
    hide Ticked;
    hide Journal;
    hide AllTrue;
    hide TrueReading;
    hide AllReadings;
    var next := Do(l, Tick(ways, now));
    forall k | 0 <= k < |next.Processes()| ensures NothingInvented(peers, next.Processes()[k]) {
      if k < |l.past| {
        assert next.Processes()[k] == l.past[k] == l.Processes()[k];
      } else {
        assert next.Processes()[k] == after;
      }
    }
    hide NothingInvented;
    forall e | e in next.es && e.Push? ensures TrueInOne(next.Processes(), e.reading) {
      if e in l.es {
        TrueInOneStays(l.past, l.ws, after, e.reading);
      } else {
        assert e in Pushes(AllReadings(after, now));
        assert next.Processes()[|l.past|] == after && TrueReading(Journal(after), e.reading);
      }
    }
  }

  lemma LoadedIsTraced(peers: seq<Peer>, ws: seq<World>)
    requires forall i :: 0 <= i < |ws| ==> Loaded(ws[i])
    ensures AllTrue(Journal(ws), ws) && BufferKnown(Journal(ws), Zeros(MAX_BLE_PACKET_LEN))
    ensures NothingInvented(peers, ws)
  {
    hide Journal;
    hide AnswersFor;
    hide Shows;
  }

  lemma StartIsTraced(peers: seq<Peer>, l: Life, ws: seq<World>)
    requires Traced(peers, l) && forall i :: 0 <= i < |ws| ==> Loaded(ws[i])
    ensures Traced(peers, Do(l, Start(ws)))
  {
    LoadedIsTraced(peers, ws);
    hide NothingInvented;
    hide AllTrue;
    hide BufferKnown;
    hide TrueInOne;
    hide Journal;
    hide Loaded;
    var next := Do(l, Start(ws));
    forall e | e in next.es && e.Push? ensures TrueInOne(next.Processes(), e.reading) {
      TrueInOneOfMore(l.Processes(), ws, e.reading);
    }
  }

  /**
   At every moment of a gateway's life, the octets of each probe value on a sensor are those of responses heard in the
   same process, and so are those of each reading pushed, of some process; and all that was heard was said by a peer.
   */
  lemma {:induction false} LifeIsTraced(peers: seq<Peer>, acts: seq<Act>)
    requires forall i :: 0 <= i < |acts| ==> Plausible(peers, acts[i])
    ensures Traced(peers, Lived(acts))
    decreases |acts|
  {
    if acts == [] {
      LoadedIsTraced(peers, []);
      hide AllTrue;
      hide BufferKnown;
      hide NothingInvented;
    } else {
      var before, act := Lived(acts[..|acts| - 1]), acts[|acts| - 1];
      LifeIsTraced(peers, acts[..|acts| - 1]);
      assert Plausible(peers, act);
      hide Lived;
      DoIsTraced(peers, before, act);
      hide Traced;
      assert Lived(acts) == Do(before, act) by { LivedSnoc(acts); }
    }
  }

  lemma LivedSnoc(acts: seq<Act>)
    requires acts != []
    ensures Lived(acts) == Do(Lived(acts[..|acts| - 1]), acts[|acts| - 1])
  {
  }

  lemma DoIsTraced(peers: seq<Peer>, l: Life, act: Act)
    requires Traced(peers, l) && Plausible(peers, act)
    ensures Traced(peers, Do(l, act))
  {
    match act
    case Tick(ways, now) =>
      if |ways| == |l.ws| {
        TickIsTraced(peers, l, ways, now);
      }
    case Start(ws) => StartIsTraced(peers, l, ws);
    case Other(e) => OtherIsTraced(peers, l, e);
  }

  lemma OtherIsTraced(peers: seq<Peer>, l: Life, e: Event)
    requires Traced(peers, l) && !e.Push?
    ensures Traced(peers, Do(l, Other(e)))
  {
    hide AllTrue;
    hide BufferKnown;
    hide NothingInvented;
    hide TrueInOne;
    hide Journal;
    assert Do(l, Other(e)).Processes() == l.Processes();
  }

  /**
   Over the whole life of a gateway, with any failures, crashes and restarts: every reading in the database or the cloud
   with an error code has the value 999.0; every probe value there answers a response carrying the probe's own address
   that one process heard, and each of its octets is that response's own or, where that is too short, 0 or the one in
   the same place of some response which the same process heard.
   */
  lemma CloudIsTrue(peers: seq<Peer>, acts: seq<Act>, s: State)
    requires forall i :: 0 <= i < |acts| ==> Plausible(peers, acts[i])
    requires Run(Init, Lived(acts).es) == Some(s)
    ensures forall i :: 0 <= i < |s.table| ==> TrueInOne(Lived(acts).Processes(), s.table[i].reading)
    ensures forall r :: r in s.cloud ==> TrueInOne(Lived(acts).Processes(), r)
    ensures forall k :: 0 <= k < |Lived(acts).Processes()| ==> NothingInvented(peers, Lived(acts).Processes()[k])
  {
    LifeIsTraced(peers, acts);
    hide Run;
    hide TrueInOne;
    hide Lived;
    hide AllTrue;
    hide BufferKnown;
    hide NothingInvented;
    OnlyPushedArrives(Lived(acts).es, s, r => TrueInOne(Lived(acts).Processes(), r));
  }

  // ---------- If responses are long enough ----------

  /** No response of these peers that carries the address is too short to hold a value. */
  ghost predicate AnswersInFull(peers: seq<Peer>, addr: address) {
    forall peer, n: nat, pdu: seq<byte> :: peer in peers && AnswersFor(Reply(peer, n, pdu), addr) ==>
      |Reply(peer, n, pdu)| >= 14
  }

  /** The response carries the address, says the reading is good, and has this value, all in octets of its own. */
  predicate IsOwn(reply: seq<byte>, addr: address, octets: seq<byte>) {
    && |reply| >= 14 && reply[0] == 0x0B
    && reply[3] == 0x41 && reply[4..10] == addr && reply[10..14] == octets
  }

  /** A probe value is one heard for the very address. */
  ghost predicate OwnSensor(heard: set<seq<byte>>, sen: Sensor) {
    sen.code == Ok && sen.data.Float32? ==>
      exists reply :: reply in heard && IsOwn(reply, sen.addr, sen.data.octets)
  }

  ghost predicate OwnInOne(processes: seq<seq<World>>, r: Reading) {
    && |r.id| == MAX_SENSOR_ADDR
    && exists k :: 0 <= k < |processes| && OwnSensor(Journal(processes[k]), Sensor(r.id, r.data, r.code))
  }

  lemma {:induction false} JournalIsSaid(peers: seq<Peer>, ws: seq<World>, reply: seq<byte>) returns (upTo: nat)
    requires NothingInvented(peers, ws) && reply in Journal(ws)
    ensures SaidByOne(peers, reply, upTo)
    decreases |ws|
  {
    var init, last := ws[..|ws| - 1], ws[|ws| - 1];
    if reply in Journal(init) {
      upTo := JournalIsSaid(peers, init, reply);
    } else {
      assert AllSaid(peers, last.link);
      var k :| 0 <= k < |last.link.heard| && last.link.heard[k] == reply;
      upTo := last.link.received;
    }
  }

  lemma SaidInFull(peers: seq<Peer>, addr: address, reply: seq<byte>, upTo: nat)
    requires AnswersInFull(peers, addr) && SaidByOne(peers, reply, upTo) && AnswersFor(reply, addr)
    ensures |reply| >= 14
  {
    var peer :| peer in peers && SaidBetween(peer, reply, 0, upTo);
    var n: nat, pdu: seq<byte> :| 0 <= n < upTo && reply == Reply(peer, n, pdu);
    hide AnswersFor;
    hide Reply;
  }

  lemma LongIsOwn(heard: set<seq<byte>>, addr: address, reply: seq<byte>, octets: seq<byte>)
    requires AnswersFor(reply, addr) && Shows(heard, reply, octets) && |reply| >= 14
    ensures IsOwn(reply, addr, octets)
  {
    assert Padded(reply)[4..10] == reply[4..10];
    hide Octet;
    forall j: nat | j < 4 ensures reply[10..14][j] == octets[j] {
      assert OwnOrOld(heard, reply, 9 + j, octets[j]);
    }
  }

  lemma GenuineIsOwn(peers: seq<Peer>, ws: seq<World>, sen: Sensor)
    requires NothingInvented(peers, ws) && Genuine(Journal(ws), sen) && AnswersInFull(peers, sen.addr)
    ensures OwnSensor(Journal(ws), sen)
  {
    if sen.code == Ok && sen.data.Float32? {
      var heard := Journal(ws);
      var reply :| reply in heard && AnswersFor(reply, sen.addr) && Shows(heard, reply, sen.data.octets);
      hide AnswersFor;
      hide Shows;
      hide AnswersInFull;
      var upTo := JournalIsSaid(peers, ws, reply);
      SaidInFull(peers, sen.addr, reply, upTo);
      LongIsOwn(heard, sen.addr, reply, sen.data.octets);
    }
  }

  /**
   At every moment of a gateway's life: a probe to whose address no peer ever answers in fewer than 14 octets shows
   only a value heard in the same process in a response with that address.
   */
  lemma LifeIsOwn(peers: seq<Peer>, acts: seq<Act>, i: nat, j: nat)
    requires forall i :: 0 <= i < |acts| ==> Plausible(peers, acts[i])
    requires i < |Lived(acts).ws| && j < |Lived(acts).ws[i].sen|
    requires AnswersInFull(peers, Lived(acts).ws[i].sen[j].addr)
    ensures OwnSensor(Journal(Lived(acts).ws), Lived(acts).ws[i].sen[j])
  {
    LifeIsTraced(peers, acts);
    var l := Lived(acts);
    hide Lived;
    hide AnswersInFull;
    hide Genuine;
    hide NothingInvented;
    assert l.Processes()[|l.past|] == l.ws;
    assert TrueSensors(Journal(l.ws), l.ws[i]);
    assert TrueSensor(Journal(l.ws), l.ws[i].sen[j]);
    GenuineIsOwn(peers, l.ws, l.ws[i].sen[j]);
  }

  lemma TrueIsOwn(peers: seq<Peer>, processes: seq<seq<World>>, r: Reading)
    requires TrueInOne(processes, r) && |r.id| == MAX_SENSOR_ADDR && AnswersInFull(peers, r.id)
    requires forall k :: 0 <= k < |processes| ==> NothingInvented(peers, processes[k])
    ensures OwnInOne(processes, r)
  {
    hide AnswersInFull;
    hide Genuine;
    hide OwnSensor;
    hide NothingInvented;
    hide Journal;
    var k :| 0 <= k < |processes| && TrueReading(Journal(processes[k]), r);
    GenuineIsOwn(peers, processes[k], Sensor(r.id, r.data, r.code));
  }

  /** The same of every reading in database or cloud; the value was heard in one of the processes. */
  lemma CloudIsOwn(peers: seq<Peer>, acts: seq<Act>, s: State, r: Reading)
    requires forall i :: 0 <= i < |acts| ==> Plausible(peers, acts[i])
    requires Run(Init, Lived(acts).es) == Some(s)
    requires r in s.cloud || exists i :: 0 <= i < |s.table| && s.table[i].reading == r
    requires |r.id| == MAX_SENSOR_ADDR && AnswersInFull(peers, r.id)
    ensures OwnInOne(Lived(acts).Processes(), r)
  {
    hide *;
    CloudIsTrue(peers, acts, s);
    TrueIsOwn(peers, Lived(acts).Processes(), r);
  }
}
