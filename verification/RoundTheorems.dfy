/** What whole rounds do for a module: when it becomes usable, when it stays stuck, and when its probes are read. */
module RoundTheorems {
  import opened Types
  import opened AttServer
  import opened Link
  import opened CoreModules
  import opened Discovery
  import opened DiscoveryTheorems
  import opened Exchange
  import opened Acquisition
  import opened AcquisitionTheorems
  import opened Codec

  // ---------- Handles in a round ----------

  /** A round started by connecting the module. */
  function Started(w: World): World { SetOpen(w, true) }

  /** A turn on a closed socket, or after something has been found, leaves the handles alone. */
  lemma TurnKeepsFound(peer: Peer, w: World, i: nat)
    requires i < |w.sen| && (!w.link.open || w.found.discovered != 0)
    ensures Turn(peer, w, i).found == w.found
    ensures !w.link.open ==> !Turn(peer, w, i).link.open
  {
    if !w.link.open {
      TurnOnClosed(peer, w, i);
    }
  }

  /** From the first turn on the handles are those found in its search, if that found something or lost the link. */
  lemma {:induction false} FoundInFirstTurn(peer: Peer, w: World, r: Result, k: nat)
    requires 0 < k <= |w.sen| && w.found.discovered == 0
    requires r == Discover(peer, Started(w).link, w.found, 1) && (!r.link.open || r.found.discovered != 0)
    ensures var v := After(peer, Started(w), k);
      v.found == r.found && (!r.link.open ==> !v.link.open) && |v.sen| == |w.sen|
    decreases k
  {
    var v := Started(w);
    TurnChangesOne(peer);
    StepsSettle(Turns(peer), v, 0, k);
    StepsSettle(Turns(peer), v, 0, k - 1);
    if k > 1 {
      FoundInFirstTurn(peer, w, r, k - 1);
      TurnKeepsFound(peer, After(peer, v, k - 1), k - 1);
      assert After(peer, v, k) == Turns(peer)(After(peer, v, k - 1), k - 1);
    } else {
      assert After(peer, v, 0) == v && After(peer, v, 1) == Turns(peer)(v, 0);
      FirstTurn(peer, v, r);
    }
  }

  lemma FirstTurn(peer: Peer, v: World, r: Result)
    requires |v.sen| > 0 && v.found.discovered == 0 && r == Discover(peer, v.link, v.found, 1)
    ensures Turn(peer, v, 0).found == r.found && (!r.link.open ==> !Turn(peer, v, 0).link.open)
  {
    var u := Searched(peer, v);
    if !u.link.open {
      SendOnClosed(peer, u.link, Frame(u.sen[0].addr), u.found.readHandle, u.found.writeHandle);
    }
  }

  lemma RoundFinds(peer: Peer, w: World, r: Result)
    requires |w.sen| > 0 && w.found.discovered == 0
    requires r == Discover(peer, Started(w).link, w.found, 1) && (!r.link.open || r.found.discovered != 0)
    ensures Round(peer, w, true).found == r.found && |Round(peer, w, true).sen| == |w.sen|
  {
    FoundInFirstTurn(peer, w, r, |w.sen|);
  }

  // ---------- After a lost discovery ----------

  lemma Within(server: ConformingServer, r: nat, q: nat)
    requires OneOfEach(server, r, q)
    ensures r < |server.chars| && q < |server.chars| && r != q
  {
    assert server.chars[r].uuid == READ_UUID && server.chars[q].uuid == WRITE_UUID;
    assert READ_UUID[12] != WRITE_UUID[12];
  }

  lemma PrefixFound(server: ConformingServer, g: Gatt, r: nat, q: nat, n: nat)
    requires OneOfEach(server, r, q) && n <= |server.chars|
    ensures LearnAll(g, server.chars[..n]).discovered ==
            g.discovered + (if r < n then 1 else 0) + (if q < n then 1 else 0)
  {
    var cs := server.chars[..n];
    assert forall j :: 0 <= j < n ==> cs[j] == server.chars[j];
    LearnAllHandles(g, cs, if r < n then r else n, if q < n then q else n);
  }

  /** Rounds in which connecting fails change neither the handles nor the number of sensors. */
  lemma {:induction false} TimeoutsKeepFound(w: World, rounds: seq<(Peer, bool)>)
    requires forall i :: 0 <= i < |rounds| ==> !rounds[i].1
    ensures Rounds(w, rounds).found == w.found && |Rounds(w, rounds).sen| == |w.sen|
    decreases |rounds|
  {
    if rounds != [] {
      TimeoutsKeepFound(w, rounds[..|rounds| - 1]);
    }
  }

  lemma ReliableRoundFinds(peer: Peer, w: World, r: nat, q: nat)
    requires |w.sen| > 0 && w.found.discovered == 0 && Reliable(peer) && OneOfEach(peer.server, r, q)
    ensures Round(peer, w, true).found == Gatt(peer.server.chars[r].value, peer.server.chars[q].value, 2)
  {
    DiscoverySucceeds(peer, Started(w).link, w.found, r, q);
    RoundFinds(peer, w, Discover(peer, Started(w).link, w.found, 1));
  }

  lemma UsableStaysUsable(peer: Peer, w: World)
    requires w.found.discovered == 2
    ensures Round(peer, w, true).found == w.found
  {
    forall v: World, i: nat | v.found == w.found ensures Turns(peer)(v, i).found == w.found {
      if i < |v.sen| {
        TurnKeepsFound(peer, v, i);
      }
    }
    StepsKeep(Turns(peer), (v: World) => v.found == w.found, Started(w), |w.sen|);
  }

  /**
   After a discovery lost on the way, and any number of rounds that cannot connect, one reliable round makes the module
   usable if and only if the characteristics seen before the loss, the first `n`, contain neither or both of the two. If
   they contain one, no sequence of later rounds ever makes it usable.
   */
  lemma LostDiscoveryRecovers(
      peer: Peer, w: World, r: nat, q: nat, between: seq<(Peer, bool)>, later: Peer) returns (n: nat)
    requires |w.sen| > 0 && w.found.discovered == 0 && OneOfEach(peer.server, r, q)
    requires Discover(peer, Started(w).link, w.found, 1).code != Ok
    requires (forall i :: 0 <= i < |between| ==> !between[i].1)
    requires later.server == peer.server && Reliable(later)
    ensures n <= |peer.server.chars|
    ensures var lost := Round(peer, w, true);
      && lost.found == LearnAll(w.found, peer.server.chars[..n])
      && (Round(later, Rounds(lost, between), true).found.discovered == 2 <==> (r < n <==> q < n))
      && ((r < n) != (q < n) ==> forall rounds :: Rounds(lost, rounds).found.discovered == 1)
  {
    var result := Discover(peer, Started(w).link, w.found, 1);
    n := DiscoverLearnsPrefix(peer, Started(w).link, w.found, 1, result);
    FirstFromStart(peer.server);
    assert peer.server.chars[0..n] == peer.server.chars[..n];
    PrefixFound(peer.server, w.found, r, q, n);
    RoundFinds(peer, w, result);
    var lost := Round(peer, w, true);
    hide Round;
    hide LearnAll;
    TimeoutsKeepFound(lost, between);
    var waiting := Rounds(lost, between);
    if lost.found.discovered == 0 {
      ReliableRoundFinds(later, waiting, r, q);
    } else if lost.found.discovered == 2 {
      UsableStaysUsable(later, waiting);
    } else {
      forall rounds ensures Rounds(lost, rounds).found.discovered == 1 {
        HalfFoundForever(lost, rounds, Rounds(lost, rounds));
      }
      HalfFoundIsIdle(later, waiting);
    }
  }

  /** A round over a link that breaks after `n` characteristics keeps exactly what those teach. */
  lemma BrokenRoundFinds(server: ConformingServer, w: World, n: nat, peer: Peer)
    requires |w.sen| > 0 && w.found.discovered == 0 && n <= |server.chars|
    requires peer == CutOff(server, Started(w).link.received + n)
    ensures Discover(peer, Started(w).link, w.found, 1).code == BleReadErr
    ensures Round(peer, w, true).found == LearnAll(w.found, server.chars[..n])
  {
    hide Discover;
    hide LearnAll;
    hide Round;
    var s := Started(w).link;
    var result := Discover(peer, s, w.found, 1);
    FirstFromStart(server);
    CutOffLearns(server, s.received + n, s, w.found, 1, result);
    assert server.chars[0..n] == server.chars[..n];
    RoundFinds(peer, w, result);
  }

  /**
   For every server with one characteristic of each kind there is a link that leaves the module stuck: one read lost
   between the two is enough, and no later round, however good, makes it usable.
   */
  lemma LostDiscoveryCanStick(server: ConformingServer, w: World, r: nat, q: nat) returns (peer: Peer)
    requires |w.sen| > 0 && w.found.discovered == 0 && OneOfEach(server, r, q)
    ensures peer.server == server && Discover(peer, Started(w).link, w.found, 1).code == BleReadErr
    ensures HalfFound(Round(peer, w, true))
    ensures forall rounds :: Rounds(Round(peer, w, true), rounds).found.discovered == 1
  {
    var n := if r < q then r + 1 else q + 1;
    Within(server, r, q);
    peer := CutOff(server, Started(w).link.received + n);
    hide OneOfEach;
    hide Discover;
    hide LearnAll;
    hide Round;
    hide CutOff;
    BrokenRoundFinds(server, w, n, peer);
    PrefixFound(server, w.found, r, q, n);
    assert peer.server == server by { CutOffServer(server, Started(w).link.received + n); }
    var lost := Round(peer, w, true);
    forall rounds ensures Rounds(lost, rounds).found.discovered == 1 {
      HalfFoundForever(lost, rounds, Rounds(lost, rounds));
    }
  }

  lemma CutOffServer(server: ConformingServer, at: nat)
    ensures CutOff(server, at).server == server
  {
  }

  /** A link on which nothing ever fails, to this server and a device that answers commands and polls with `reply`. */
  function Flawless(server: ConformingServer, reply: seq<byte>): Peer {
    Peer(server, (_: nat) => 0, (_: nat) => true, (_: nat) => true,
         (_: nat, pdu: seq<byte>) => if pdu != [] && pdu[0] == 0x12 then [0x13] else reply)
  }

  lemma FlawlessIsReliable(server: ConformingServer, reply: seq<byte>)
    ensures Reliable(Flawless(server, reply))
  {
    var peer := Flawless(server, reply);
    forall n: nat ensures SomeWriteOk(peer, n) {
      assert peer.writeOk(n);
    }
  }

  /**
   How many characteristics get through before the link breaks decides: a flawless round afterwards makes the module
   usable if and only if the first `n` hold neither or both of the two.
   */
  lemma CutDecides(server: ConformingServer, w: World, r: nat, q: nat, n: nat, reply: seq<byte>)
    requires |w.sen| > 0 && w.found.discovered == 0 && OneOfEach(server, r, q) && n <= |server.chars|
    ensures var lost := Round(CutOff(server, Started(w).link.received + n), w, true);
      Round(Flawless(server, reply), lost, true).found.discovered == 2 <==> (r < n <==> q < n)
  {
    var peer, later := CutOff(server, Started(w).link.received + n), Flawless(server, reply);
    assert peer.server == server && later.server == server;
    hide CutOff;
    hide Flawless;
    hide Round;
    hide Discover;
    hide LearnAll;
    hide OnlyAt;
    BrokenRoundFinds(server, w, n, peer);
    PrefixFound(server, w.found, r, q, n);
    FlawlessIsReliable(server, reply);
    var m := LostDiscoveryRecovers(peer, w, r, q, [], later);
    PrefixFound(server, w.found, r, q, m);
    assert Rounds(Round(peer, w, true), []) == Round(peer, w, true);
  }

  // ---------- Rounds that read every probe ----------

  /** A response to a poll that is long enough, carries the address and says the reading is good. */
  predicate GoodReply(addr: address, reply: seq<byte>) {
    |reply| >= 14 && reply[0] == 0x0B && reply[3] == 0x41 && reply[4..10] == addr
  }

  /**
   The exchange for `addr` that starts in link state `s`: the command is acknowledged, and the first matching response
   is a good one and comes at the k-th poll.
   */
  ghost predicate Served(peer: Peer, s: LinkState, found: Gatt, addr: address, k: nat) {
    Replied(peer, s, found, addr, k) && GoodReply(addr, PollReply(peer, found.readHandle, s.received + k))
  }

  /** The same of any first matching response. */
  ghost predicate Replied(peer: Peer, s: LinkState, found: Gatt, addr: address, k: nat) {
    && Reply(peer, s.received, WritePdu(found.writeHandle, Frame(addr))) == [0x13] && 1 <= k <= 99
    && First(MatchingReads(peer, Frame(addr), found.readHandle), s.received + 1, s.received + k)
  }

  lemma FirstIsUnique(m: nat -> bool, from: nat, i: nat, j: nat)
    requires First(m, from, i) && First(m, from, j)
    ensures i == j
  {
  }

  /** On a working link the acknowledged exchange takes exactly that response. */
  lemma PollTakesFirst(peer: Peer, s: LinkState, cmd: seq<byte>, h: handle, n: nat)
    requires AnswersPolls(peer, h) && s.open && |cmd| >= 9
    requires First(MatchingReads(peer, cmd, h), s.received, n) && n < s.received + 99
    ensures var e := Poll(peer, s, cmd, h, FAST_RETRY_TIMES);
      e.code == Ok && e.link.open && e.link.received == n + 1 && e.payload == PollReply(peer, h, n)[1..]
  {
    hide Poll;
    hide MatchesAt;
    PollIsExact(peer, s, cmd, h);
    PollStaysOpen(peer, s, cmd, h, FAST_RETRY_TIMES);
    var e := Poll(peer, s, cmd, h, FAST_RETRY_TIMES);
    FirstIsUnique(MatchingReads(peer, cmd, h), s.received, n, e.link.received - 1);
  }

  lemma RepliedIsSent(peer: Peer, s: LinkState, found: Gatt, addr: address, k: nat)
    requires Reliable(peer) && AnswersPolls(peer, found.readHandle) && s.open && Replied(peer, s, found, addr, k)
    ensures var e := Send(peer, s, Frame(addr), found.readHandle, found.writeHandle);
      && e.code == Ok && e.link.open && e.link.received == s.received + k + 1
      && e.payload == PollReply(peer, found.readHandle, s.received + k)[1..]
  {
    hide Poll;
    hide Transact;
    hide First;
    hide PollReply;
    hide GoodReply;
    hide Frame;
    var cmd := Frame(addr);
    assert SomeWriteOk(peer, s.writes);
    TransactSucceeds(peer, s, WritePdu(found.writeHandle, cmd));
    var t := Transact(peer, s, WritePdu(found.writeHandle, cmd));
    PollTakesFirst(peer, t.link, cmd, found.readHandle, s.received + k);
  }

  lemma {:induction false} PollStaysOpen(peer: Peer, s: LinkState, cmd: seq<byte>, h: handle, retry: nat)
    requires AnswersPolls(peer, h) && s.open && |cmd| >= 9
    ensures Poll(peer, s, cmd, h, retry).link.open
    decreases retry
  {
    if retry > 0 {
      var s' := PollOnce(peer, s, cmd, h, retry);
      PollStaysOpen(peer, s', cmd, h, retry - 1);
    }
  }

  /** The i-th sensor's turn, as the round comes to it: handles searched if need be. */
  function AtTurn(peer: Peer, w: World, i: nat): World {
    Searched(peer, After(peer, Started(w), i))
  }

  function Tsys01(sen: Sensor): bool { sen.addr[..2] == [0x30, 0x32] }

  /** Each TSYS01 probe is served in its turn, the i-th one at poll `poll(i)`. */
  ghost predicate AllServed(peer: Peer, w: World, found: Gatt, poll: nat -> nat) {
    forall i :: 0 <= i < |w.sen| && Tsys01(w.sen[i]) ==>
      Served(peer, AtTurn(peer, w, i).link, found, w.sen[i].addr, poll(i))
  }

  /** The module is usable when its turns begin: its handles are known already, or a reliable search finds both. */
  ghost predicate Usable(peer: Peer, w: World, found: Gatt) {
    && Searched(peer, Started(w)).found == found && found.discovered == 2
    && (w.found.discovered == 2 || (w.found.discovered == 0 && exists r, q :: OneOfEach(peer.server, r, q)))
  }

  lemma StartIsUsable(peer: Peer, w: World, found: Gatt)
    requires Reliable(peer) && Usable(peer, w, found)
    ensures AtTurn(peer, w, 0).link.open && AtTurn(peer, w, 0).found == found
  {
    if w.found.discovered == 0 {
      DiscoverLearnsAll(peer, Started(w).link, w.found);
    }
  }

  /** The sensor shows the value of a good response that carries its own address. */
  predicate ReadFrom(sen: Sensor, reply: seq<byte>) {
    GoodReply(sen.addr, reply) && sen.code == Ok && sen.data == Float32(reply[10..14])
  }

  lemma ProbeIsRead(peer: Peer, w: World, i: nat, k: nat)
    requires i < |w.sen| && Reliable(peer) && w.link.open && AnswersPolls(peer, w.found.readHandle)
    requires Served(peer, w.link, w.found, w.sen[i].addr, k)
    ensures var after := ReadProbe(peer, w, i);
      && after.link.open && after.link.received == w.link.received + k + 1
      && after.found == w.found && |after.sen| == |w.sen|
      && ReadFrom(after.sen[i], PollReply(peer, w.found.readHandle, w.link.received + k))
  {
    hide Send;
    hide PollReply;
    hide Frame;
    hide Overlay;
    hide Reliable;
    hide AnswersPolls;
    hide Served;
    hide Replied;
    hide Padded;
    var reply := PollReply(peer, w.found.readHandle, w.link.received + k);
    ServedIsReplied(peer, w.link, w.found, w.sen[i].addr, k);
    RepliedIsSent(peer, w.link, w.found, w.sen[i].addr, k);
    ServedIsGood(peer, w.link, w.found, w.sen[i].addr, k);
    ReplyLaidOut(reply, w.resp);
  }

  lemma ServedIsReplied(peer: Peer, s: LinkState, found: Gatt, addr: address, k: nat)
    requires Served(peer, s, found, addr, k)
    ensures Replied(peer, s, found, addr, k)
  {
  }

  lemma ServedIsGood(peer: Peer, s: LinkState, found: Gatt, addr: address, k: nat)
    requires Served(peer, s, found, addr, k)
    ensures GoodReply(addr, PollReply(peer, found.readHandle, s.received + k))
  {
  }

  /** A served turn reads the probe and leaves the module ready for the next turn. */
  lemma ServedTurn(peer: Peer, before: World, i: nat, k: nat)
    requires i < |before.sen| && Reliable(peer)
    requires var w := Searched(peer, before);
      && w.link.open && w.found.discovered == 2 && AnswersPolls(peer, w.found.readHandle)
      && (Tsys01(w.sen[i]) ==> Served(peer, w.link, w.found, w.sen[i].addr, k))
    ensures var w, after := Searched(peer, before), Turn(peer, before, i);
      && after.link.open && after.found == w.found
      && (Tsys01(w.sen[i]) ==> ReadFrom(after.sen[i], PollReply(peer, w.found.readHandle, w.link.received + k)))
  {
    hide ReadProbe;
    hide Served;
    hide Reliable;
    hide AnswersPolls;
    hide ReadFrom;
    var w := Searched(peer, before);
    if Tsys01(w.sen[i]) {
      ProbeIsRead(peer, w, i, k);
    }
    hide Searched;
  }

  lemma {:induction false} TurnsGoOn(peer: Peer, w: World, found: Gatt, poll: nat -> nat, i: nat)
    requires Reliable(peer) && Usable(peer, w, found) && AnswersPolls(peer, found.readHandle)
    requires AllServed(peer, w, found, poll) && i < |w.sen|
    ensures var v := AtTurn(peer, w, i);
      && v.link.open && v.found == found && |v.sen| == |w.sen| && v.sen[i] == w.sen[i]
      && |After(peer, Started(w), i).sen| == |w.sen|
  {
    hide Turn;
    hide Served;
    hide Round;
    hide Usable;
    hide Reliable;
    hide AnswersPolls;
    hide Searched;
    SettledByOwnTurn(peer, w, i);
    SearchKeepsSensors(peer, After(peer, Started(w), i));
    if i == 0 {
      StartIsUsable(peer, w, found);
    } else {
      TurnsGoOn(peer, w, found, poll, i - 1);
      var before := After(peer, Started(w), i - 1);
      assert found.discovered == 2 by { UsableHas(peer, w, found); }
      ServedTurn(peer, before, i - 1, poll(i - 1));
      SearchIsOver(peer, Turn(peer, before, i - 1));
      StepIsTurn(peer, w, i - 1);
    }
  }

  lemma SearchKeepsSensors(peer: Peer, w: World)
    ensures Searched(peer, w).sen == w.sen
  {
  }

  lemma SearchIsOver(peer: Peer, w: World)
    requires w.found.discovered != 0
    ensures Searched(peer, w) == w
  {
  }

  lemma UsableHas(peer: Peer, w: World, found: Gatt)
    requires Usable(peer, w, found)
    ensures found.discovered == 2
  {
  }

  lemma StepIsTurn(peer: Peer, w: World, i: nat)
    requires i < |After(peer, Started(w), i).sen|
    ensures After(peer, Started(w), i + 1) == Turn(peer, After(peer, Started(w), i), i)
  {
  }

  /**
   On a reliable link a module with one characteristic of each kind, or with its handles known, has every TSYS01 probe
   read in one round, if the device acknowledges each command and answers it well within 99 polls: each such probe ends
   the round Ok, with the octets of the response to its own command.
   */
  lemma RoundReadsAll(peer: Peer, w: World, found: Gatt, poll: nat -> nat, i: nat)
    requires Reliable(peer) && Usable(peer, w, found) && AnswersPolls(peer, found.readHandle)
    requires AllServed(peer, w, found, poll) && i < |w.sen| && Tsys01(w.sen[i])
    ensures var end, n := Round(peer, w, true), AtTurn(peer, w, i).link.received + poll(i);
      && |end.sen| == |w.sen| && end.sen[i].addr == w.sen[i].addr
      && ReadFrom(end.sen[i], PollReply(peer, found.readHandle, n))
  {
    hide Turn;
    hide Served;
    hide Round;
    hide Usable;
    hide Reliable;
    hide AnswersPolls;
    hide ReadFrom;
    hide Searched;
    TurnsGoOn(peer, w, found, poll, i);
    SettledByOwnTurn(peer, w, i);
    var before := After(peer, Started(w), i);
    assert found.discovered == 2 by { UsableHas(peer, w, found); }
    ServedTurn(peer, before, i, poll(i));
    TurnKeepsAddress(peer, before, i);
  }

  lemma TurnKeepsAddress(peer: Peer, w: World, i: nat)
    requires i < |w.sen|
    ensures Turn(peer, w, i).sen[i].addr == w.sen[i].addr
  {
  }

  /** The response of a probe at `addr` whose value has these octets. */
  function GoodResponse(addr: address, octets: seq<byte>): (reply: seq<byte>)
    requires |octets| == 4
    ensures GoodReply(addr, reply) && |reply| == 14 && reply[10..14] == octets
  {
    [0x0B, 0, 0, 0x41] + addr + octets
  }

  /** There is such a device for every probe: with its handles known and nothing failing, a round shows its value. */
  lemma FlawlessProbeIsRead(server: ConformingServer, w: World, octets: seq<byte>)
    requires |w.sen| == 1 && Tsys01(w.sen[0]) && w.found.discovered == 2 && |octets| == 4
    ensures var peer := Flawless(server, GoodResponse(w.sen[0].addr, octets));
      var end := Round(peer, w, true);
      |end.sen| == 1 && end.sen[0].code == Ok && end.sen[0].data == Float32(octets)
  {
    var addr := w.sen[0].addr;
    var reply := GoodResponse(addr, octets);
    var peer, h := Flawless(server, reply), w.found.readHandle;
    FlawlessIsReliable(server, reply);
    forall n: nat ensures PollReply(peer, h, n) == reply && SomeWriteOk(peer, n) {
    }
    FlawlessServes(peer, reply, Started(w).link, w.found, addr);
    assert AtTurn(peer, w, 0) == Started(w);
    hide Flawless;
    hide Round;
    hide Served;
    hide PollReply;
    hide Reliable;
    assert AnswersPolls(peer, h);
    assert AllServed(peer, w, w.found, (_: nat) => 1);
    RoundReadsAll(peer, w, w.found, (_: nat) => 1, 0);
  }

  lemma FlawlessServes(peer: Peer, reply: seq<byte>, s: LinkState, found: Gatt, addr: address)
    requires peer == Flawless(peer.server, reply) && |reply| == 14 && GoodReply(addr, reply)
    ensures Served(peer, s, found, addr, 1)
  {
    GoodReplyMatches(addr, reply);
    assert PollReply(peer, found.readHandle, s.received + 1) == reply;
    assert MatchingReads(peer, Frame(addr), found.readHandle)(s.received + 1);
  }

  lemma GoodReplyMatches(addr: address, reply: seq<byte>)
    requires GoodReply(addr, reply) && |reply| <= MAX_BLE_PACKET_LEN
    ensures Matches(Frame(addr), reply)
  {
    assert Padded(reply)[4..10] == reply[4..10];
  }

  // ---------- Handles beyond one octet ----------

  /** The requests with the whole handle, which the program sends only if the high octet is 0. */
  function FullWrite(h: handle, cmd: seq<byte>): seq<byte> { [0x12, h % 256, h / 256] + cmd }

  function FullPoll(h: handle): seq<byte> { [0x0A, h % 256, h / 256] }

  lemma LowHandlePdus(h: handle, cmd: seq<byte>)
    ensures WritePdu(h, cmd) == FullWrite(h, cmd) <==> h < 256
    ensures PollPdu(h) == FullPoll(h) <==> h < 256
  {
    assert WritePdu(h, cmd)[2] == 0 && FullWrite(h, cmd)[2] == High(h);
    assert PollPdu(h)[2] == 0 && FullPoll(h)[2] == High(h);
  }

  /** A device that takes only requests addressed to its own handles for its own. */
  ghost predicate Addressed(peer: Peer, found: Gatt) {
    && (forall n: nat, cmd :: WritePdu(found.writeHandle, cmd) != FullWrite(found.writeHandle, cmd) ==>
          Reply(peer, n, WritePdu(found.writeHandle, cmd)) != [ATT_OP_WRITE_RESP])
    && (forall n: nat :: PollPdu(found.readHandle) != FullPoll(found.readHandle) ==>
          PollReply(peer, found.readHandle, n) == [] || PollReply(peer, found.readHandle, n)[0] != ATT_OP_READ_RESP)
  }

  /** It serves an exchange in which both handles are written out in full. */
  ghost predicate ServedInFull(peer: Peer, s: LinkState, found: Gatt, addr: address, k: nat) {
    && Reply(peer, s.received, FullWrite(found.writeHandle, Frame(addr))) == [0x13] && 1 <= k <= 99
    && GoodReply(addr, Reply(peer, s.received + k, FullPoll(found.readHandle)))
    && forall j: nat :: s.received < j < s.received + k ==>
         !Matches(Frame(addr), Reply(peer, j, FullPoll(found.readHandle)))
  }

  ghost predicate AllServedInFull(peer: Peer, w: World, found: Gatt, poll: nat -> nat) {
    && (forall n: nat :: Reply(peer, n, FullPoll(found.readHandle)) != [])
    && forall i :: 0 <= i < |w.sen| && Tsys01(w.sen[i]) ==>
         ServedInFull(peer, AtTurn(peer, w, i).link, found, w.sen[i].addr, poll(i))
  }

  lemma FullIsServed(peer: Peer, s: LinkState, found: Gatt, addr: address, k: nat)
    requires ServedInFull(peer, s, found, addr, k) && found.readHandle < 256 && found.writeHandle < 256
    ensures Served(peer, s, found, addr, k)
  {
    LowHandlePdus(found.readHandle, []);
    LowHandlePdus(found.writeHandle, Frame(addr));
    GoodReplyMatches(addr, PollReply(peer, found.readHandle, s.received + k));
    assert MatchingReads(peer, Frame(addr), found.readHandle)(s.received + k);
    hide Frame;
    hide Matches;
    hide GoodReply;
  }

  /** Of a device that takes only its own requests, no probe is read in a turn unless both handles fit in one octet. */
  lemma OnlyLowHandlesAreRead(peer: Peer, before: World, i: nat)
    requires i < |before.sen| && Tsys01(before.sen[i]) && Searched(peer, before).found.discovered == 2
    requires Addressed(peer, Searched(peer, before).found)
    requires Turn(peer, before, i).sen[i].code == Ok
    ensures var found := Searched(peer, before).found; found.readHandle < 256 && found.writeHandle < 256
  {
    var w := Searched(peer, before);
    var found, cmd := w.found, Frame(before.sen[i].addr);
    var n := ValueIsAttributed(peer, before, i);
    TransactMeaning(peer, w.link, WritePdu(found.writeHandle, cmd));
    assert Send(peer, w.link, cmd, found.readHandle, found.writeHandle).code == Ok;
    assert Reply(peer, w.link.received, WritePdu(found.writeHandle, cmd)) == [ATT_OP_WRITE_RESP];
    hide Reply;
    hide PollReply;
    hide Searched;
    hide Send;
    LowHandlePdus(found.writeHandle, cmd);
    LowHandlePdus(found.readHandle, []);
  }

  /** Handles that are known when the turns begin stay as they are. */
  lemma {:induction false} FoundAtTurn(peer: Peer, w: World, found: Gatt, i: nat)
    requires Searched(peer, Started(w)).found == found && found.discovered == 2 && i < |w.sen|
    ensures AtTurn(peer, w, i).found == found
    ensures i > 0 ==> After(peer, Started(w), i).found == found
  {
    hide Turn;
    hide Searched;
    if i > 0 {
      FoundAtTurn(peer, w, found, i - 1);
      var before := After(peer, Started(w), i - 1);
      SettledByOwnTurn(peer, w, i - 1);
      StepIsTurn(peer, w, i - 1);
      TurnFinds(peer, before, i - 1);
      SearchIsOver(peer, Turn(peer, before, i - 1));
    }
  }

  lemma TurnFinds(peer: Peer, w: World, i: nat)
    requires i < |w.sen| && Searched(peer, w).found.discovered == 2
    ensures Turn(peer, w, i).found == Searched(peer, w).found
  {
    hide Send;
    hide Discover;
  }

  /**
   A device that would serve every exchange addressed to its handles, and takes no other, has its probes read in a round
   if and only if both handles are below 256.
   */
  lemma HandlesDecide(peer: Peer, w: World, found: Gatt, poll: nat -> nat, i: nat)
    requires Reliable(peer) && Usable(peer, w, found) && Addressed(peer, found)
    requires AllServedInFull(peer, w, found, poll) && i < |w.sen| && Tsys01(w.sen[i])
    ensures |Round(peer, w, true).sen| == |w.sen|
    ensures Round(peer, w, true).sen[i].code == Ok <==> found.readHandle < 256 && found.writeHandle < 256
  {
    SettledByOwnTurn(peer, w, i);
    if found.readHandle < 256 && found.writeHandle < 256 {
      forall j | 0 <= j < |w.sen| && Tsys01(w.sen[j])
        ensures Served(peer, AtTurn(peer, w, j).link, found, w.sen[j].addr, poll(j))
      {
        FullIsServed(peer, AtTurn(peer, w, j).link, found, w.sen[j].addr, poll(j));
      }
      assert AnswersPolls(peer, found.readHandle) by {
        LowHandlePdus(found.readHandle, []);
      }
      hide Round;
      hide Served;
      hide ServedInFull;
      hide Usable;
      RoundReadsAll(peer, w, found, poll, i);
    } else if Round(peer, w, true).sen[i].code == Ok {
      FoundAtTurn(peer, w, found, i);
      hide Round;
      hide Turn;
      hide Searched;
      hide Addressed;
      OnlyLowHandlesAreRead(peer, After(peer, Started(w), i), i);
    }
  }

  /** A device that acknowledges or answers requests to its own handles, a poll with `reply`, and rejects all others. */
  function OwnHandlesOnly(server: ConformingServer, found: Gatt, reply: seq<byte>): Peer {
    Peer(server, (_: nat) => 0, (_: nat) => true, (_: nat) => true,
         (_: nat, pdu: seq<byte>) =>
           if |pdu| >= 3 && pdu[..3] == FullWrite(found.writeHandle, []) then [0x13]
           else if |pdu| >= 3 && pdu[..3] == FullPoll(found.readHandle) then reply
           else ErrorResponse(if pdu == [] then 0 else pdu[0], 0, ATT_ECODE_INVALID_HANDLE))
  }

  /** There is such a device for any two handles, probe and value: a round shows the value exactly if both are low. */
  lemma OwnHandlesDecide(server: ConformingServer, w: World, octets: seq<byte>)
    requires |w.sen| == 1 && Tsys01(w.sen[0]) && w.found.discovered == 2 && |octets| == 4
    ensures var end := Round(OwnHandlesOnly(server, w.found, GoodResponse(w.sen[0].addr, octets)), w, true);
      |end.sen| == 1 && (end.sen[0].code == Ok <==> w.found.readHandle < 256 && w.found.writeHandle < 256)
  {
    var addr := w.sen[0].addr;
    var reply := GoodResponse(addr, octets);
    var peer := OwnHandlesOnly(server, w.found, reply);
    hide *;
    OwnHandlesAreReliable(server, w.found, reply);
    OwnHandlesAreAddressed(server, w.found, reply);
    OwnHandlesServe(server, w.found, reply, Started(w).link, addr);
    HandlesDecideForOne(peer, w);
  }

  lemma HandlesDecideForOne(peer: Peer, w: World)
    requires |w.sen| == 1 && Tsys01(w.sen[0]) && w.found.discovered == 2 && Reliable(peer) && Addressed(peer, w.found)
    requires ServedInFull(peer, Started(w).link, w.found, w.sen[0].addr, 1)
    requires forall n: nat :: Reply(peer, n, FullPoll(w.found.readHandle)) != []
    ensures |Round(peer, w, true).sen| == 1
    ensures Round(peer, w, true).sen[0].code == Ok <==> w.found.readHandle < 256 && w.found.writeHandle < 256
  {
    OneProbeIsServed(peer, w);
    hide *;
    HandlesDecide(peer, w, w.found, (_: nat) => 1, 0);
  }

  /** The only probe of a usable module has its turn as the round begins. */
  lemma OneProbeIsServed(peer: Peer, w: World)
    requires |w.sen| == 1 && Tsys01(w.sen[0]) && w.found.discovered == 2
    requires ServedInFull(peer, Started(w).link, w.found, w.sen[0].addr, 1)
    requires forall n: nat :: Reply(peer, n, FullPoll(w.found.readHandle)) != []
    ensures AllServedInFull(peer, w, w.found, (_: nat) => 1) && Usable(peer, w, w.found)
  {
    assert AtTurn(peer, w, 0) == Started(w);
    hide ServedInFull;
    hide Reply;
    hide Discover;
  }

  lemma OwnHandlesAreReliable(server: ConformingServer, found: Gatt, reply: seq<byte>)
    ensures Reliable(OwnHandlesOnly(server, found, reply))
  {
    var peer := OwnHandlesOnly(server, found, reply);
    forall n: nat ensures SomeWriteOk(peer, n) {
      assert peer.writeOk(n);
    }
  }

  lemma OwnHandlesAreAddressed(server: ConformingServer, found: Gatt, reply: seq<byte>)
    ensures Addressed(OwnHandlesOnly(server, found, reply), found)
  {
    var peer := OwnHandlesOnly(server, found, reply);
    forall n: nat, cmd | WritePdu(found.writeHandle, cmd) != FullWrite(found.writeHandle, cmd)
      ensures Reply(peer, n, WritePdu(found.writeHandle, cmd)) != [ATT_OP_WRITE_RESP]
    {
      OwnHandlesReject(server, found, reply, n, cmd);
    }
    forall n: nat | PollPdu(found.readHandle) != FullPoll(found.readHandle)
      ensures PollReply(peer, found.readHandle, n)[..1] == [ATT_OP_ERROR]
    {
      OwnHandlesRejectPoll(server, found, reply, n);
    }
    hide OwnHandlesOnly;
    hide PollReply;
    hide Reply;
  }

  lemma OwnHandlesReject(server: ConformingServer, found: Gatt, reply: seq<byte>, n: nat, cmd: seq<byte>)
    requires WritePdu(found.writeHandle, cmd) != FullWrite(found.writeHandle, cmd)
    ensures Reply(OwnHandlesOnly(server, found, reply), n, WritePdu(found.writeHandle, cmd)) != [ATT_OP_WRITE_RESP]
  {
    LowHandlePdus(found.writeHandle, cmd);
    var pdu := WritePdu(found.writeHandle, cmd);
    assert pdu[..3][2] == 0 && FullWrite(found.writeHandle, [])[2] == High(found.writeHandle);
    assert pdu[..3][0] == ATT_OP_WRITE_REQ;
  }

  lemma OwnHandlesRejectPoll(server: ConformingServer, found: Gatt, reply: seq<byte>, n: nat)
    requires PollPdu(found.readHandle) != FullPoll(found.readHandle)
    ensures var r := PollReply(OwnHandlesOnly(server, found, reply), found.readHandle, n);
      |r| >= 1 && r[..1] == [ATT_OP_ERROR]
  {
    LowHandlePdus(found.readHandle, []);
  }

  lemma OwnHandlesServe(server: ConformingServer, found: Gatt, reply: seq<byte>, s: LinkState, addr: address)
    requires GoodReply(addr, reply) && |reply| == 14
    ensures var peer := OwnHandlesOnly(server, found, reply);
      && ServedInFull(peer, s, found, addr, 1)
      && forall n: nat :: Reply(peer, n, FullPoll(found.readHandle)) != []
  {
    var cmd, h := FullWrite(found.writeHandle, Frame(addr)), FullPoll(found.readHandle);
    assert cmd[..3] == FullWrite(found.writeHandle, []) && h[..3] == h;
  }
}
