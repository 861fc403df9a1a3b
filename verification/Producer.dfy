/** The producer: every interval it acquires all modules and pushes one reading a sensor on the uploader's queue. */
module Producer {
  import opened Types
  import opened AttServer
  import opened Link
  import opened CoreModules
  import opened Acquisition
  import opened UploadMachine
  import opened UploadHandler

  const INTERVAL: int := 60

  /** A core module as the producer sees it: the text naming its protocol, its sensors, and the way to the device. */
  datatype Member = Member(protocol: string, cm: CoreModule, sock: Socket) {
    predicate IsBluetooth() {
      Occurs(protocol, "Bluetooth")
    }
  }

  /** The readings of some sensors, in order. */
  function ReadingsAt(sen: seq<Sensor>, now: int): (r: seq<Reading>)
    ensures |r| == |sen|
  {
    seq(|sen|, i requires 0 <= i < |sen| => Reading(sen[i].addr, sen[i].data, sen[i].code, now))
  }

  function Pushes(rs: seq<Reading>): (es: seq<Event>)
    ensures |es| == |rs|
    ensures forall i :: 0 <= i < |es| ==> es[i] == Push(rs[i])
  {
    seq(|rs|, i requires 0 <= i < |rs| => Push(rs[i]))
  }

  method PushReadings(sen: seq<Sensor>, now: int, up: Uploader)
    requires up.Valid()
    modifies up
    ensures up.Valid() && up.history == old(up.history) + Pushes(ReadingsAt(sen, now))
    ensures up.queue == old(up.queue) + ReadingsAt(sen, now)
    ensures up.table == old(up.table) && up.cloud == old(up.cloud)
  {
    hide Run;
    var j := 0;
    while j < |sen|
      invariant j <= |sen| && up.Valid() && up.table == old(up.table) && up.cloud == old(up.cloud)
      invariant up.history == old(up.history) + Pushes(ReadingsAt(sen[..j], now))
      invariant up.queue == old(up.queue) + ReadingsAt(sen[..j], now)
    {
      up.PushData(Reading(sen[j].addr, sen[j].data, sen[j].code, now));
      assert ReadingsAt(sen[..j + 1], now) == ReadingsAt(sen[..j], now) + [ReadingsAt(sen, now)[j]];
      assert Pushes(ReadingsAt(sen[..j + 1], now)) ==
             Pushes(ReadingsAt(sen[..j], now)) + [Push(ReadingsAt(sen, now)[j])];
      j := j + 1;
    }
    assert sen[..j] == sen;
  }

  // ---------- A tick, told over worlds ----------

  /** How a module is reached in a tick. */
  datatype Way = Way(peer: Peer, bluetooth: bool, connected: bool)

  /** A module's part of a tick; only Bluetooth modules are acquired. */
  function Part(way: Way, w: World): World {
    if way.bluetooth then Round(way.peer, w, way.connected) else w
  }

  /** What the response buffer holds after these parts; it is shared by all modules. */
  function BufferAfter(after: seq<World>, resp: packet): packet {
    if after == [] then resp else after[|after| - 1].resp
  }

  /** All modules after a tick that starts with `resp` in the response buffer. */
  function Ticked(ways: seq<Way>, before: seq<World>, resp: packet): (after: seq<World>)
    requires |ways| == |before|
    ensures |after| == |before|
  {
    if ways == [] then []
    else
      var n := |ways| - 1;
      var init := Ticked(ways[..n], before[..n], resp);
      init + [Part(ways[n], before[n].(resp := BufferAfter(init, resp)))]
  }

  /** The readings of all modules, in order. */
  function AllReadings(ws: seq<World>, now: int): (r: seq<Reading>)
    ensures ws == [] ==> r == []
  {
    if ws == [] then []
    else AllReadings(ws[..|ws| - 1], now) + ReadingsAt(ws[|ws| - 1].sen, now)
  }

  lemma AllReadingsSnoc(ws: seq<World>, w: World, now: int)
    ensures AllReadings(ws + [w], now) == AllReadings(ws, now) + ReadingsAt(w.sen, now)
  {
    assert (ws + [w])[..|ws|] == ws;
  }

  lemma TickedSnoc(ways: seq<Way>, before: seq<World>, resp: packet, n: nat)
    requires n < |ways| == |before|
    ensures var init := Ticked(ways[..n], before[..n], resp);
      Ticked(ways[..n + 1], before[..n + 1], resp) ==
      init + [Part(ways[n], before[n].(resp := BufferAfter(init, resp)))]
  {
    assert ways[..n + 1][..n] == ways[..n] && before[..n + 1][..n] == before[..n];
  }

  lemma PushesConcat(a: seq<Reading>, b: seq<Reading>)
    ensures Pushes(a) + Pushes(b) == Pushes(a + b)
  {
  }

  // ---------- The program ----------

  function WaysOf(members: seq<Member>, connected: seq<bool>): (ways: seq<Way>)
    requires |connected| == |members|
    ensures |ways| == |members|
    ensures forall i :: 0 <= i < |ways| ==> ways[i] == WayOf(members[i], connected[i])
  {
    seq(|members|, i requires 0 <= i < |members| => WayOf(members[i], connected[i]))
  }

  function WayOf(m: Member, connected: bool): Way {
    Way(m.sock.peer, m.IsBluetooth(), connected)
  }

  /** No two modules share their sensors or their socket. */
  ghost predicate Apart(members: seq<Member>) {
    forall i, j :: 0 <= i < j < |members| ==>
      members[i].cm != members[j].cm && members[i].sock != members[j].sock
  }

  lemma ApartFrom(members: seq<Member>, i: nat)
    requires Apart(members) && i < |members|
    ensures forall j :: 0 <= j < |members| && j != i ==>
      members[j].cm != members[i].cm && members[j].sock != members[i].sock
  {
  }

  /** The module and its socket are as in `w`, whose buffer is left out. */
  ghost predicate At(m: Member, w: World)
    reads m.cm, m.sock
  {
    m.cm.Found() == w.found && m.cm.sen == w.sen && m.sock.state == w.link
  }

  lemma AtWithBuffer(m: Member, w: World, resp: packet)
    requires At(m, w)
    ensures At(m, w.(resp := resp))
  {
  }

  /** What an uploader holds at some moment. */
  datatype Snapshot = Snapshot(history: seq<Event>, queue: seq<Reading>, table: seq<Row>, cloud: seq<Reading>)

  /** Since that moment exactly these readings have been pushed, and nothing else has happened. */
  ghost predicate PushedSince(up: Uploader, was: Snapshot, rs: seq<Reading>)
    reads up
  {
    && up.Valid() && up.history == was.history + Pushes(rs) && up.queue == was.queue + rs
    && up.table == was.table && up.cloud == was.cloud
  }

  method PushMore(sen: seq<Sensor>, now: int, up: Uploader, ghost was: Snapshot, ghost rs: seq<Reading>)
    requires PushedSince(up, was, rs)
    modifies up
    ensures PushedSince(up, was, rs + ReadingsAt(sen, now))
  {
    hide Uploader.Valid;
    PushReadings(sen, now, up);
    PushesConcat(rs, ReadingsAt(sen, now));
  }

  /** One module's part of a tick. */
  method AcquireAndPush(
      now: int, m: Member, connected: bool, bleCmd: array<byte>, bleResp: array<byte>, up: Uploader,
      ghost before: World, ghost was: Snapshot, ghost rs: seq<Reading>)
    returns (ghost after: World)
    requires PushedSince(up, was, rs)
    requires bleCmd.Length == bleResp.Length == MAX_BLE_PACKET_LEN && bleCmd != bleResp
    requires At(m, before) && before.resp == bleResp[..]
    modifies m.cm, m.sock, bleCmd, bleResp, up
    ensures after == Part(WayOf(m, connected), before) && At(m, after) && bleResp[..] == after.resp
    ensures PushedSince(up, was, rs + ReadingsAt(after.sen, now))
  {
    hide PushedSince;
    hide Round;
    hide Member.IsBluetooth;
    if m.IsBluetooth() {
      var rc := BleDataAcq(m.cm, m.sock, connected, bleCmd, bleResp);
    }
    after := WorldOf(m.cm, m.sock, bleResp);
    PushMore(m.cm.sen, now, up, was, rs);
  }

  /** The members are in these worlds. */
  ghost predicate AllAt(members: seq<Member>, ws: seq<World>)
    reads set m | m in members :: m.cm, set m | m in members :: m.sock
  {
    |ws| == |members| && forall j {:trigger At(members[j], ws[j])} :: 0 <= j < |members| ==> At(members[j], ws[j])
  }

  ghost predicate Within(members: seq<Member>, cms: set<CoreModule>, socks: set<Socket>) {
    forall i :: 0 <= i < |members| ==> members[i].cm in cms && members[i].sock in socks
  }

  /** The i-th turn of the loop over the modules, which starts with `w` for that module. */
  method AcquireNext(
      now: int, members: seq<Member>, connected: bool, bleCmd: array<byte>, bleResp: array<byte>, up: Uploader, i: nat,
      ghost worlds: seq<World>, ghost was: Snapshot, ghost rs: seq<Reading>,
      ghost cms: set<CoreModule>, ghost socks: set<Socket>)
    returns (ghost done: World)
    requires i < |members| && Apart(members) && Within(members, cms, socks) && AllAt(members, worlds)
    requires PushedSince(up, was, rs)
    requires bleCmd.Length == bleResp.Length == MAX_BLE_PACKET_LEN && bleCmd != bleResp
    modifies cms, socks, bleCmd, bleResp, up
    ensures done == Part(WayOf(members[i], connected), worlds[i].(resp := old(bleResp[..]))) && bleResp[..] == done.resp
    ensures AllAt(members, worlds[i := done]) && PushedSince(up, was, rs + ReadingsAt(done.sen, now))
  {
    ApartFrom(members, i);
    hide Apart;
    hide PushedSince;
    hide Part;
    hide WayOf;
    hide At;
    AtWithBuffer(members[i], worlds[i], bleResp[..]);
    done := AcquireAndPush(now, members[i], connected, bleCmd, bleResp, up, worlds[i].(resp := bleResp[..]), was, rs);
  }

  /** Acquires every module and pushes its readings; `before` names the modules before the call. */
  method AcquireAll(
      now: int, members: seq<Member>, connected: seq<bool>, bleCmd: array<byte>, bleResp: array<byte>, up: Uploader,
      ghost before: seq<World>, ghost cms: set<CoreModule>, ghost socks: set<Socket>)
    returns (ghost after: seq<World>)
    requires |connected| == |members| && Apart(members) && Within(members, cms, socks) && AllAt(members, before)
    requires bleCmd.Length == bleResp.Length == MAX_BLE_PACKET_LEN && bleCmd != bleResp && up.Valid()
    modifies cms, socks, bleCmd, bleResp, up
    ensures AllAt(members, after) && after == Ticked(WaysOf(members, connected), before, old(bleResp[..]))
    ensures bleResp[..] == BufferAfter(after, old(bleResp[..]))
    ensures PushedSince(up, old(Snapshot(up.history, up.queue, up.table, up.cloud)), AllReadings(after, now))
  {
    ghost var was := Snapshot(up.history, up.queue, up.table, up.cloud);
    ghost var ways, resp := WaysOf(members, connected), bleResp[..];
    assert PushedSince(up, was, []) && |before| == |members|;
    hide *;
    after := before;
    TickBegins(ways, before, resp, now);
    var i := 0;
    while i < |members|
      invariant i <= |members| == |after| && TickedUpTo(ways, before, resp, after, i)
      invariant bleResp[..] == BufferUpTo(after, resp, i)
      invariant AllAt(members, after) && PushedSince(up, was, ReadingsUpTo(after, now, i))
    {
      NextIsBefore(ways, before, resp, after, i);
      ghost var done := AcquireNext(now, members, connected[i], bleCmd, bleResp, up, i, after, was,
                                    ReadingsUpTo(after, now, i), cms, socks);
      TickStep(ways, before, resp, after, i, now, done);
      after := after[i := done];
      i := i + 1;
    }
    TickEnds(ways, before, resp, after, now);
  }

  // ---------- The tick in the making: the first `i` modules have had their part ----------

  ghost predicate TickedUpTo(ways: seq<Way>, before: seq<World>, resp: packet, after: seq<World>, i: nat)
    requires |ways| == |before| == |after| && i <= |after|
  {
    after[i..] == before[i..] && after[..i] == Ticked(ways[..i], before[..i], resp)
  }

  ghost function BufferUpTo(after: seq<World>, resp: packet, i: nat): packet
    requires i <= |after|
  {
    BufferAfter(after[..i], resp)
  }

  ghost function ReadingsUpTo(after: seq<World>, now: int, i: nat): seq<Reading>
    requires i <= |after|
  {
    AllReadings(after[..i], now)
  }

  lemma TickBegins(ways: seq<Way>, before: seq<World>, resp: packet, now: int)
    requires |ways| == |before|
    ensures TickedUpTo(ways, before, resp, before, 0)
    ensures BufferUpTo(before, resp, 0) == resp && ReadingsUpTo(before, now, 0) == []
  {
  }

  lemma NextIsBefore(ways: seq<Way>, before: seq<World>, resp: packet, after: seq<World>, i: nat)
    requires |ways| == |before| == |after| && i < |after| && TickedUpTo(ways, before, resp, after, i)
    ensures after[i] == before[i]
  {
    assert after[i] == after[i..][0] && before[i] == before[i..][0];
  }

  lemma TickStep(
      ways: seq<Way>, before: seq<World>, resp: packet, after: seq<World>, i: nat, now: int, done: World)
    requires |ways| == |before| == |after| && i < |after| && TickedUpTo(ways, before, resp, after, i)
    requires done == Part(ways[i], before[i].(resp := BufferUpTo(after, resp, i)))
    ensures var next := after[i := done];
      && TickedUpTo(ways, before, resp, next, i + 1) && BufferUpTo(next, resp, i + 1) == done.resp
      && ReadingsUpTo(next, now, i + 1) == ReadingsUpTo(after, now, i) + ReadingsAt(done.sen, now)
  {
    hide Part;
    hide ReadingsAt;
    var next := after[i := done];
    assert next[..i + 1] == after[..i] + [done];
    assert next[i + 1..] == after[i..][1..] == before[i..][1..];
    TickedSnoc(ways, before, resp, i);
    AllReadingsSnoc(after[..i], done, now);
  }

  lemma TickEnds(ways: seq<Way>, before: seq<World>, resp: packet, after: seq<World>, now: int)
    requires |ways| == |before| == |after| && TickedUpTo(ways, before, resp, after, |after|)
    ensures after == Ticked(ways, before, resp)
    ensures BufferUpTo(after, resp, |after|) == BufferAfter(after, resp)
    ensures ReadingsUpTo(after, now, |after|) == AllReadings(after, now)
  {
    assert ways[..|after|] == ways && before[..|after|] == before && after[..|after|] == after;
  }

  // ---------- What a tick does to each module ----------

  predicate BluetoothAt(protocol: string, k: int) {
    0 <= k <= |protocol| - 9 && protocol[k..k + 9] == ['B', 'l', 'u', 'e', 't', 'o', 'o', 't', 'h']
  }

  /** The nine letters stand somewhere in the protocol text. */
  ghost predicate SaysBluetooth(protocol: string) {
    exists k :: BluetoothAt(protocol, k)
  }

  lemma BluetoothIsSaid(m: Member)
    ensures m.IsBluetooth() <==> SaysBluetooth(m.protocol)
  {
    assert "Bluetooth" == ['B', 'l', 'u', 'e', 't', 'o', 'o', 't', 'h'];
    forall k ensures OccursAt(m.protocol, "Bluetooth", k) <==> BluetoothAt(m.protocol, k) {
    }
    if SaysBluetooth(m.protocol) {
      var k :| BluetoothAt(m.protocol, k);
      assert OccursAt(m.protocol, "Bluetooth", k);
    }
    if m.IsBluetooth() {
      var k :| 0 <= k <= |m.protocol| && OccursAt(m.protocol, "Bluetooth", k);
      assert BluetoothAt(m.protocol, k);
    }
  }

  /** The world of the i-th module as its part of the tick finds it: the buffer is what the one before has left. */
  function Meets(before: seq<World>, after: seq<World>, resp: packet, i: nat): World
    requires i < |before| && |after| == |before|
  {
    before[i].(resp := if i == 0 then resp else after[i - 1].resp)
  }

  lemma {:induction false} TickedAt(ways: seq<Way>, before: seq<World>, resp: packet, i: nat)
    requires i < |ways| == |before|
    ensures var after := Ticked(ways, before, resp); after[i] == Part(ways[i], Meets(before, after, resp, i))
    decreases |ways|
  {
    hide Part;
    var n := |ways| - 1;
    var init := Ticked(ways[..n], before[..n], resp);
    var after := Ticked(ways, before, resp);
    assert after == init + [Part(ways[n], before[n].(resp := BufferAfter(init, resp)))];
    if i < n {
      TickedAt(ways[..n], before[..n], resp, i);
      assert Meets(before[..n], init, resp, i) == Meets(before, after, resp, i);
    } else {
      assert n > 0 ==> after[n - 1] == init[n - 1];
    }
  }

  /** How many readings the modules before the i-th give. */
  function Offset(ws: seq<World>, i: nat): nat
    requires i <= |ws|
  {
    if i == 0 then 0 else Offset(ws, i - 1) + |ws[i - 1].sen|
  }

  lemma {:induction false} OffsetOfPrefix(ws: seq<World>, n: nat, i: nat)
    requires i <= n <= |ws|
    ensures Offset(ws[..n], i) == Offset(ws, i)
    decreases i
  {
    if i > 0 {
      OffsetOfPrefix(ws, n, i - 1);
    }
  }

  /** The readings of all modules, one a sensor, in order and with the time of the tick. */
  ghost predicate ReadingsOf(ws: seq<World>, now: int, rs: seq<Reading>) {
    && |rs| == Offset(ws, |ws|)
    && forall i, j :: 0 <= i < |ws| && 0 <= j < |ws[i].sen| ==> ReadingAt(ws, now, rs, i, ws[i].sen[j], j)
  }

  predicate ReadingAt(ws: seq<World>, now: int, rs: seq<Reading>, i: nat, sen: Sensor, j: nat)
    requires i < |ws|
  {
    Offset(ws, i) + j < |rs| && rs[Offset(ws, i) + j] == Reading(sen.addr, sen.data, sen.code, now)
  }

  lemma {:induction false} AllReadingsAt(ws: seq<World>, now: int)
    ensures ReadingsOf(ws, now, AllReadings(ws, now))
    decreases |ws|
  {
    if ws != [] {
      var n := |ws| - 1;
      AllReadingsAt(ws[..n], now);
      OffsetOfPrefix(ws, n, n);
      var init, rs := AllReadings(ws[..n], now), AllReadings(ws, now);
      assert rs == init + ReadingsAt(ws[n].sen, now);
      forall i, j | 0 <= i < |ws| && 0 <= j < |ws[i].sen|
        ensures ReadingAt(ws, now, rs, i, ws[i].sen[j], j)
      {
        if i < n {
          OffsetOfPrefix(ws, n, i);
          assert ReadingAt(ws[..n], now, init, i, ws[..n][i].sen[j], j);
        } else {
          assert rs[|init| + j] == ReadingsAt(ws[n].sen, now)[j];
        }
      }
    }
  }

  /** The i-th module has had a round if its protocol says so, and has been left alone otherwise. */
  ghost predicate Acquired(
      members: seq<Member>, connected: seq<bool>, before: seq<World>, after: seq<World>, resp: packet, i: nat)
    requires i < |members| == |connected| == |before| == |after|
  {
    after[i] ==
      if SaysBluetooth(members[i].protocol) then
        Round(members[i].sock.peer, Meets(before, after, resp, i), connected[i])
      else Meets(before, after, resp, i)
  }

  lemma TickAcquires(members: seq<Member>, connected: seq<bool>, before: seq<World>, resp: packet, i: nat)
    requires i < |members| == |connected| == |before|
    ensures Acquired(members, connected, before, Ticked(WaysOf(members, connected), before, resp), resp, i)
  {
    hide Round;
    hide Meets;
    hide Ticked;
    hide SaysBluetooth;
    hide Member.IsBluetooth;
    TickedAt(WaysOf(members, connected), before, resp, i);
    BluetoothIsSaid(members[i]);
  }

  /**
   One call of the timer: every 60 seconds each module whose protocol says so has its round, in turn, and the readings
   of all join the queue; otherwise nothing happens.
   */
  method TimeoutCallback(
      now: int, startTime: int, members: seq<Member>, connected: seq<bool>, bleCmd: array<byte>, bleResp: array<byte>,
      up: Uploader, ghost before: seq<World>)
    returns (ghost after: seq<World>)
    requires |connected| == |members| && Apart(members) && AllAt(members, before) && up.Valid()
    requires bleCmd.Length == bleResp.Length == MAX_BLE_PACKET_LEN && bleCmd != bleResp
    modifies set m | m in members :: m.cm
    modifies set m | m in members :: m.sock
    modifies bleCmd, bleResp, up
    ensures AllAt(members, after)
    ensures up.Valid() && up.table == old(up.table) && up.cloud == old(up.cloud)
    ensures (now - startTime) % INTERVAL == 0 ==>
      && after == Ticked(WaysOf(members, connected), before, old(bleResp[..]))
      && bleResp[..] == BufferAfter(after, old(bleResp[..]))
      && up.history == old(up.history) + Pushes(AllReadings(after, now))
      && up.queue == old(up.queue) + AllReadings(after, now)
    ensures (now - startTime) % 60 == 0 ==>
      && |after| == |before| == |members|
      && (forall i :: 0 <= i < |members| ==> Acquired(members, connected, before, after, old(bleResp[..]), i))
      && |up.queue| >= |old(up.queue)| && up.queue[..|old(up.queue)|] == old(up.queue)
      && ReadingsOf(after, now, up.queue[|old(up.queue)|..])
    ensures (now - startTime) % 60 != 0 ==>
      after == before && bleResp[..] == old(bleResp[..]) && up.history == old(up.history) && up.queue == old(up.queue)
  {
    hide Uploader.Valid;
    hide At;
    hide Apart;
    hide Ticked;
    hide WaysOf;
    hide AllReadings;
    hide Acquired;
    hide ReadingsOf;
    after := before;
    if (now - startTime) % INTERVAL == 0 {
      after := AcquireAll(now, members, connected, bleCmd, bleResp, up, before,
                          set m | m in members :: m.cm, set m | m in members :: m.sock);
      forall i | 0 <= i < |members| ensures Acquired(members, connected, before, after, old(bleResp[..]), i) {
        TickAcquires(members, connected, before, old(bleResp[..]), i);
      }
      AllReadingsAt(after, now);
      assert |after| == |members|;
    }
  }
}
