/** What a response shorter than 14 octets does to the value of a probe, and what longer ones guarantee. */
module ShortResponses {
  import opened Types
  import opened AttServer
  import opened Link
  import opened CoreModules
  import opened Discovery
  import opened DiscoveryTheorems
  import opened Exchange
  import opened Acquisition
  import opened AcquisitionTheorems
  import opened Codec
  import opened RoundTheorems

  /** The i-th sensor after its turn, if the response buffer held `resp` before. */
  function ValueFrom(peer: Peer, before: World, i: nat, resp: packet): Sensor
    requires i < |before.sen|
  {
    Turn(peer, before.(resp := resp), i).sen[i]
  }

  /** Whatever the buffer held, the sensor shows the same value when it is Ok. */
  ghost predicate ShowsOneValue(peer: Peer, before: World, i: nat)
    requires i < |before.sen|
  {
    forall a: packet, b: packet ::
      ValueFrom(peer, before, i, a).code == Ok && ValueFrom(peer, before, i, b).code == Ok ==>
        ValueFrom(peer, before, i, a).data == ValueFrom(peer, before, i, b).data
  }

  /** The exchange in the i-th sensor's turn ends well and takes `reply`. */
  ghost predicate Takes(peer: Peer, before: World, i: nat, reply: seq<byte>)
    requires i < |before.sen|
  {
    var w := Searched(peer, before);
    var e := Send(peer, w.link, Frame(before.sen[i].addr), w.found.readHandle, w.found.writeHandle);
    && w.found.discovered == 2 && e.code == Ok && 0 < |reply| <= MAX_BLE_PACKET_LEN && e.payload == reply[1..]
  }

  lemma ValueIs(peer: Peer, before: World, i: nat, reply: seq<byte>, resp: packet)
    requires i < |before.sen| && Tsys01(before.sen[i]) && Takes(peer, before, i, reply)
    ensures ValueFrom(peer, before, i, resp) == Decoded(before.sen[i], Overlay(reply[1..], resp))
  {
    var w := before.(resp := resp);
    assert Searched(peer, w) == Searched(peer, before).(resp := resp);
    hide Send;
    hide Frame;
    hide Overlay;
    hide Decoded;
    hide Discover;
  }

  /** A buffer of which every octet says that the reading is good. */
  function AllGood(): (resp: packet)
    ensures forall p :: 0 <= p < MAX_BLE_PACKET_LEN ==> resp[p] == READ_OK
  {
    seq(MAX_BLE_PACKET_LEN, _ => READ_OK)
  }

  lemma LongOverlay(reply: seq<byte>, resp: packet)
    requires 14 <= |reply| <= MAX_BLE_PACKET_LEN
    ensures Overlay(reply[1..], resp)[9..13] == reply[10..14] && Overlay(reply[1..], resp)[2] == reply[3]
  {
  }

  lemma ShortOverlay(reply: seq<byte>, resp: packet)
    requires 0 < |reply| < 14 && (|reply| < 4 || reply[3] == READ_OK) && resp[2] == READ_OK
    ensures Overlay(reply[1..], resp)[9..13][3] == resp[12] && Overlay(reply[1..], resp)[2] == READ_OK
  {
  }

  /**
   The value after a turn is the response's own, whatever the buffer held before, if and only if the response has at
   least 14 octets; then it is octets 10 to 13 of it. A shorter one shows octets of the buffer.
   */
  lemma OwnValueIfLong(peer: Peer, before: World, i: nat, reply: seq<byte>)
    requires i < |before.sen| && Tsys01(before.sen[i]) && Takes(peer, before, i, reply)
    requires |reply| < 4 || reply[3] == 0x41
    ensures ShowsOneValue(peer, before, i) <==> |reply| >= 14
    ensures |reply| >= 14 ==>
      forall resp: packet ::
        && ValueFrom(peer, before, i, resp).code == Ok
        && ValueFrom(peer, before, i, resp).data == Float32(reply[10..14])
  {
    forall resp: packet
      ensures ValueFrom(peer, before, i, resp) == Decoded(before.sen[i], Overlay(reply[1..], resp))
    {
      ValueIs(peer, before, i, reply, resp);
    }
    hide ValueFrom;
    hide Takes;
    if |reply| >= 14 {
      forall resp: packet
        ensures ValueFrom(peer, before, i, resp).code == Ok
        ensures ValueFrom(peer, before, i, resp).data == Float32(reply[10..14])
      {
        LongOverlay(reply, resp);
        hide Overlay;
      }
    } else {
      var a: packet, b: packet := AllGood(), AllGood()[12 := 0];
      ShortOverlay(reply, a);
      ShortOverlay(reply, b);
      hide Overlay;
      var x, y := ValueFrom(peer, before, i, a), ValueFrom(peer, before, i, b);
      assert x.code == Ok && y.code == Ok && x.data.octets[3] != y.data.octets[3];
    }
  }

  // ---------- A round in which one probe shows the value of another ----------

  /** A response that ends with the address: it says the reading is good, and has no value. */
  function ShortResponse(addr: address): (reply: seq<byte>)
    ensures |reply| == 10 && reply[0] == 0x0B && reply[3] == 0x41 && reply[4..10] == addr
  {
    [0x0B, 0, 0, 0x41] + addr
  }

  /** Nothing fails; every command is acknowledged, read number `at` brings `first` and every other read `other`. */
  function TwoResponses(server: ConformingServer, at: nat, first: seq<byte>, other: seq<byte>): Peer {
    Peer(server, (_: nat) => 0, (_: nat) => true, (_: nat) => true,
         (n: nat, pdu: seq<byte>) =>
           if pdu != [] && pdu[0] == 0x12 then [0x13] else if n == at then first else other)
  }

  lemma TwoResponsesWork(peer: Peer, at: nat, first: seq<byte>, other: seq<byte>, h: handle)
    requires peer == TwoResponses(peer.server, at, first, other) && 0 < |first| <= 40 && 0 < |other| <= 40
    ensures Reliable(peer) && AnswersPolls(peer, h)
    ensures forall n: nat :: PollReply(peer, h, n) == if n == at then first else other
    ensures forall n: nat, cmd :: Reply(peer, n, WritePdu(h, cmd)) == [ATT_OP_WRITE_RESP]
  {
    forall n: nat ensures SomeWriteOk(peer, n) {
      assert peer.writeOk(n);
    }
  }

  lemma ShortMatches(addr: address)
    ensures Matches(Frame(addr), ShortResponse(addr))
  {
    assert Padded(ShortResponse(addr))[4..10] == ShortResponse(addr)[4..10];
  }

  /**
   Two TSYS01 probes of one module, nothing failing: the first answers well, the second with its own address and no
   value. After the round the second is Ok and shows the value of the first.
   */
  lemma ShortResponseShowsAnother(server: ConformingServer, w: World, octets: seq<byte>) returns (peer: Peer)
    requires |w.sen| == 2 && Tsys01(w.sen[0]) && Tsys01(w.sen[1]) && w.found.discovered == 2 && |octets| == 4
    ensures peer == TwoResponses(server, w.link.received + 1, GoodResponse(w.sen[0].addr, octets),
                                 ShortResponse(w.sen[1].addr))
    ensures var end := Round(peer, w, true);
      && |end.sen| == 2 && end.sen[0].code == end.sen[1].code == Ok
      && end.sen[0].data == end.sen[1].data == Float32(octets)
  {
    var good, short := GoodResponse(w.sen[0].addr, octets), ShortResponse(w.sen[1].addr);
    peer := TwoResponses(server, w.link.received + 1, good, short);
    var before := Started(w);
    SecondTurn(peer, before, good, short, octets);
    SettledByOwnTurn(peer, w, 0);
    SettledByOwnTurn(peer, w, 1);
    StepIsTurn(peer, w, 0);
    assert After(peer, before, 0) == before;
    hide Round;
    hide Turn;
  }

  lemma SecondTurn(peer: Peer, w: World, good: seq<byte>, short: seq<byte>, octets: seq<byte>)
    requires |w.sen| == 2 && Tsys01(w.sen[0]) && Tsys01(w.sen[1]) && w.found.discovered == 2 && |octets| == 4
    requires good == GoodResponse(w.sen[0].addr, octets) && short == ShortResponse(w.sen[1].addr)
    requires w.link.open && peer == TwoResponses(peer.server, w.link.received + 1, good, short)
    ensures var first := Turn(peer, w, 0);
      && first.sen[0].code == Ok && first.sen[0].data == Float32(octets) && |first.sen| == 2
      && Turn(peer, first, 1).sen[1].code == Ok && Turn(peer, first, 1).sen[1].data == Float32(octets)
  {
    assert 0 < |good| <= 40 == MAX_BLE_PACKET_LEN && 0 < |short| <= 40;
    hide *;
    TwoResponsesWork(peer, w.link.received + 1, good, short, w.found.readHandle);
    TwoResponsesWork(peer, w.link.received + 1, good, short, w.found.writeHandle);
    GoodReplyMatches(w.sen[0].addr, good);
    ShortMatches(w.sen[1].addr);
    TurnReads(peer, w, 0);
    FirstPollTaken(peer, w, 0, good);
    FirstProbe(peer, w, good);
    var first := ReadProbe(peer, w, 0);
    TurnReads(peer, first, 1);
    FirstPollTaken(peer, first, 1, short);
    SecondProbe(peer, first, short, octets);
  }

  lemma TurnReads(peer: Peer, w: World, i: nat)
    requires i < |w.sen| && Tsys01(w.sen[i]) && w.found.discovered == 2
    ensures Turn(peer, w, i) == ReadProbe(peer, w, i)
  {
    hide ReadProbe;
  }

  /** The exchange of the i-th probe takes this reply of its first poll. */
  ghost predicate TakesAtOnce(peer: Peer, w: World, i: nat, reply: seq<byte>)
    requires i < |w.sen|
  {
    var e := Send(peer, w.link, Frame(w.sen[i].addr), w.found.readHandle, w.found.writeHandle);
    && e.code == Ok && e.link.open && e.link.received == w.link.received + 2
    && 0 < |reply| <= MAX_BLE_PACKET_LEN && e.payload == reply[1..]
  }

  lemma FirstPollTaken(peer: Peer, w: World, i: nat, reply: seq<byte>)
    requires i < |w.sen| && w.link.open && Reliable(peer) && AnswersPolls(peer, w.found.readHandle)
    requires forall cmd :: Reply(peer, w.link.received, WritePdu(w.found.writeHandle, cmd)) == [ATT_OP_WRITE_RESP]
    requires 0 < |reply| <= MAX_BLE_PACKET_LEN && Matches(Frame(w.sen[i].addr), reply)
    requires PollReply(peer, w.found.readHandle, w.link.received + 1) == reply
    ensures TakesAtOnce(peer, w, i, reply)
  {
    hide Reply;
    hide PollReply;
    hide Send;
    hide Frame;
    hide Matches;
    hide Reliable;
    hide AnswersPolls;
    hide Replied;
    RepliedAtOnce(peer, w, w.sen[i].addr, reply);
    RepliedIsSent(peer, w.link, w.found, w.sen[i].addr, 1);
  }

  lemma RepliedAtOnce(peer: Peer, w: World, addr: address, reply: seq<byte>)
    requires Reply(peer, w.link.received, WritePdu(w.found.writeHandle, Frame(addr))) == [ATT_OP_WRITE_RESP]
    requires |reply| <= MAX_BLE_PACKET_LEN && Matches(Frame(addr), reply)
    requires PollReply(peer, w.found.readHandle, w.link.received + 1) == reply
    ensures Replied(peer, w.link, w.found, addr, 1)
  {
    hide Reply;
    hide PollReply;
    hide Frame;
    hide Matches;
    assert MatchingReads(peer, Frame(addr), w.found.readHandle)(w.link.received + 1);
  }

  /** The first probe is read, and its response lies in the buffer. */
  lemma FirstProbe(peer: Peer, w: World, good: seq<byte>)
    requires |w.sen| == 2 && TakesAtOnce(peer, w, 0, good) && |good| == 14 && GoodReply(w.sen[0].addr, good)
    ensures var first := ReadProbe(peer, w, 0);
      && first.sen[0].code == Ok && first.sen[0].data == Float32(good[10..14]) && first.sen[1] == w.sen[1]
      && |first.sen| == 2 && first.found == w.found && first.link.open
      && first.link.received == w.link.received + 2 && first.resp[9..13] == good[10..14]
  {
    LongOverlay(good, w.resp);
    hide Send;
    hide Overlay;
    hide Frame;
  }

  /** The second is Ok with what lies in the buffer. */
  lemma SecondProbe(peer: Peer, w: World, short: seq<byte>, octets: seq<byte>)
    requires |w.sen| == 2 && TakesAtOnce(peer, w, 1, short)
    requires short == ShortResponse(w.sen[1].addr) && w.resp[9..13] == octets
    ensures var second := ReadProbe(peer, w, 1);
      |second.sen| == 2 && second.sen[1].code == Ok && second.sen[1].data == Float32(octets)
  {
    var resp := Overlay(short[1..], w.resp);
    assert resp[2] == READ_OK && resp[9..13] == w.resp[9..13];
    hide Send;
    hide Overlay;
    hide Frame;
  }
}
