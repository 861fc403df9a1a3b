/** Where the values of the probes come from: every octet shown was received, by whom and when. */
module Provenance {
  import opened Types
  import opened AttServer
  import opened Link
  import opened CoreModules
  import opened Discovery
  import opened Exchange
  import opened Acquisition
  import opened AcquisitionTheorems
  import opened Codec

  // ---------- What is heard on a link ----------

  /** The peer gives this reply to one of the reads from number `lo` up to `hi`. */
  ghost predicate SaidBetween(peer: Peer, reply: seq<byte>, lo: nat, hi: nat) {
    exists n: nat, pdu: seq<byte> :: lo <= n < hi && reply == Reply(peer, n, pdu)
  }

  /** From `s` to `t` nothing heard is forgotten, and all that is new is what the peer says to the reads made. */
  ghost predicate Hears(peer: Peer, s: LinkState, t: LinkState) {
    && s.received <= t.received && |s.heard| <= |t.heard| && t.heard[..|s.heard|] == s.heard
    && forall k :: |s.heard| <= k < |t.heard| ==> SaidBetween(peer, t.heard[k], s.received, t.received)
  }

  lemma SaidWithin(peer: Peer, reply: seq<byte>, lo: nat, hi: nat, lo': nat, hi': nat)
    requires SaidBetween(peer, reply, lo, hi) && lo' <= lo && hi <= hi'
    ensures SaidBetween(peer, reply, lo', hi')
  {
    var n: nat, pdu: seq<byte> :| lo <= n < hi && reply == Reply(peer, n, pdu);
    hide Reply;
    assert lo' <= n < hi' && reply == Reply(peer, n, pdu);
  }

  lemma HearsOn(peer: Peer, s: LinkState, t: LinkState, u: LinkState)
    requires Hears(peer, s, t) && Hears(peer, t, u)
    ensures Hears(peer, s, u)
  {
    hide SaidBetween;
    forall k | |s.heard| <= k < |u.heard| ensures SaidBetween(peer, u.heard[k], s.received, u.received) {
      if k < |t.heard| {
        assert u.heard[k] == u.heard[..|t.heard|][k];
        SaidWithin(peer, t.heard[k], s.received, t.received, s.received, u.received);
      } else {
        SaidWithin(peer, u.heard[k], t.received, u.received, s.received, u.received);
      }
    }
    assert u.heard[..|s.heard|] == u.heard[..|t.heard|][..|s.heard|];
  }

  lemma HearsNothing(peer: Peer, s: LinkState, t: LinkState)
    requires t.received >= s.received && t.heard == s.heard
    ensures Hears(peer, s, t)
  {
    assert t.heard[..|s.heard|] == s.heard;
  }

  lemma HearsOne(peer: Peer, s: LinkState, t: LinkState, pdu: seq<byte>)
    requires t.received == s.received + 1 && t.heard == s.heard + [Reply(peer, s.received, pdu)]
    ensures Hears(peer, s, t)
  {
    hide Reply;
    assert SaidBetween(peer, Reply(peer, s.received, pdu), s.received, t.received);
  }

  lemma TransactHears(peer: Peer, s: LinkState, pdu: seq<byte>)
    ensures var t := Transact(peer, s, pdu);
      && Hears(peer, s, t.link)
      && (t.code == Ok ==> t.link.heard == s.heard + [t.reply])
  {
    hide Hears;
    var t := Transact(peer, s, pdu);
    if t.code == Ok {
      HearsOne(peer, s, t.link, pdu);
    } else {
      HearsNothing(peer, s, t.link);
    }
  }

  /** A polling that ends well has heard, at last, the response it takes. */
  lemma {:induction false} PollHears(peer: Peer, s: LinkState, cmd: seq<byte>, h: handle, retry: nat, e: Exchanged)
    requires |cmd| >= 9 && e == Poll(peer, s, cmd, h, retry)
    ensures Hears(peer, s, e.link)
    ensures e.code == Ok ==> TakesLast(cmd, e)
    decreases retry
  {
    hide Hears;
    hide Matches;
    if retry == 0 {
      HearsNothing(peer, s, e.link);
    } else {
      TransactHears(peer, s, PollPdu(h));
      var t := Transact(peer, s, PollPdu(h));
      hide Transact;
      if t.code == Ok && !Matches(cmd, t.reply) {
        PollHears(peer, t.link, cmd, h, retry - 1, e);
        HearsOn(peer, s, t.link, e.link);
      }
    }
  }

  predicate TakesLast(cmd: seq<byte>, e: Exchanged)
    requires |cmd| >= 9
  {
    && e.link.heard != []
    && var reply := e.link.heard[|e.link.heard| - 1];
       0 < |reply| <= MAX_BLE_PACKET_LEN && Matches(cmd, reply) && e.payload == reply[1..]
  }

  lemma SendHears(peer: Peer, s: LinkState, cmd: seq<byte>, readHandle: handle, writeHandle: handle, e: Exchanged)
    requires |cmd| >= 9 && e == Send(peer, s, cmd, readHandle, writeHandle)
    ensures Hears(peer, s, e.link)
    ensures e.code == Ok ==> TakesLast(cmd, e)
  {
    hide Hears;
    hide TakesLast;
    TransactHears(peer, s, WritePdu(writeHandle, cmd));
    var t := Transact(peer, s, WritePdu(writeHandle, cmd));
    if t.code == Ok && t.reply == [ATT_OP_WRITE_RESP] {
      PollHears(peer, t.link, cmd, readHandle, FAST_RETRY_TIMES, e);
      HearsOn(peer, s, t.link, e.link);
    }
  }

  lemma AskHears(peer: Peer, s: LinkState, start: handle)
    requires start > 0
    ensures Hears(peer, s, AskFrom(peer, s, start).1)
  {
    hide Hears;
    TransactHears(peer, s, Request(start));
  }

  lemma {:induction false} DiscoverHears(peer: Peer, s: LinkState, g: Gatt, start: handle, r: Result)
    requires start > 0 && r == Discover(peer, s, g, start)
    ensures Hears(peer, s, r.link)
    decreases |peer.server.chars| - FirstFrom(peer.server.chars, start)
  {
    hide Hears;
    AskHears(peer, s, start);
    hide AskFrom;
    hide FirstFrom;
    hide LearnAll;
    match AskFrom(peer, s, start) {
      case (Lost(_), _) =>
      case (Exhausted, _) =>
      case (Got(batch), s') =>
        DiscoverHears(peer, s', LearnAll(g, batch), batch[|batch| - 1].value, r);
        HearsOn(peer, s, s', r.link);
    }
  }

  lemma SearchHears(peer: Peer, w: World)
    ensures Hears(peer, w.link, Searched(peer, w).link)
  {
    hide Hears;
    if w.found.discovered == 0 {
      DiscoverHears(peer, w.link, w.found, 1, Discover(peer, w.link, w.found, 1));
    } else {
      HearsNothing(peer, w.link, w.link);
    }
  }

  lemma TurnHears(peer: Peer, w: World, i: nat)
    requires i < |w.sen|
    ensures Hears(peer, w.link, Turn(peer, w, i).link)
  {
    hide Hears;
    SearchHears(peer, w);
    var u := Searched(peer, w);
    assert u.sen == w.sen;
    hide Searched;
    var cmd := Frame(u.sen[i].addr);
    var e := Send(peer, u.link, cmd, u.found.readHandle, u.found.writeHandle);
    SendHears(peer, u.link, cmd, u.found.readHandle, u.found.writeHandle, e);
    HearsOn(peer, w.link, u.link, e.link);
    hide Send;
  }

  /** All that a round hears is what its peer says to the reads the round makes. */
  lemma RoundHears(peer: Peer, w: World, connected: bool)
    ensures Hears(peer, w.link, Round(peer, w, connected).link)
  {
    var v := SetOpen(w, true);
    HearsNothing(peer, w.link, v.link);
    forall u: World, i: nat | Hears(peer, w.link, u.link) ensures Hears(peer, w.link, Turns(peer)(u, i).link) {
      if i < |u.sen| {
        TurnHears(peer, u, i);
        HearsOn(peer, w.link, u.link, Turn(peer, u, i).link);
      }
    }
    StepsKeep(Turns(peer), (u: World) => Hears(peer, w.link, u.link), v, |w.sen|);
    hide Turns;
    var end := Round(peer, w, connected);
    if connected {
      HearsNothing(peer, After(peer, v, |w.sen|).link, end.link);
      HearsOn(peer, w.link, After(peer, v, |w.sen|).link, end.link);
    } else {
      HearsNothing(peer, w.link, end.link);
    }
  }

  // ---------- What is known of the octets shown ----------

  function HeardOn(s: LinkState): set<seq<byte>> {
    set reply | reply in s.heard
  }

  /** The octet at position `p` of the response buffer is 0, as it is at first, or comes from a read response heard. */
  ghost predicate Octet(heard: set<seq<byte>>, p: nat, b: byte) {
    b == 0 || exists reply :: reply in heard && p + 1 < |reply| && reply[0] == 0x0B && reply[p + 1] == b
  }

  ghost predicate BufferKnown(heard: set<seq<byte>>, resp: packet) {
    forall p: nat :: p < MAX_BLE_PACKET_LEN ==> Octet(heard, p, resp[p])
  }

  /** A read response that carries this address, as far as it goes. */
  predicate AnswersFor(reply: seq<byte>, addr: address) {
    0 < |reply| <= MAX_BLE_PACKET_LEN && reply[0] == 0x0B && Padded(reply)[4..10] == addr
  }

  /** The octet at position `p` is the response's own, or if it is too short one known from before. */
  ghost predicate OwnOrOld(heard: set<seq<byte>>, reply: seq<byte>, p: nat, b: byte) {
    if p + 1 < |reply| then b == reply[p + 1] else Octet(heard, p, b)
  }

  /** The response says the reading is good and its value has these octets. */
  ghost predicate Shows(heard: set<seq<byte>>, reply: seq<byte>, octets: seq<byte>) {
    && |octets| == 4 && OwnOrOld(heard, reply, 2, 0x41)
    && forall j: nat :: j < 4 ==> OwnOrOld(heard, reply, 9 + j, octets[j])
  }

  /** A sensor that is Ok shows a number, or is a TSYS01 probe and shows a response heard for its own address. */
  ghost predicate Genuine(heard: set<seq<byte>>, sen: Sensor) {
    sen.code == Ok && sen.data.Float32? ==>
      && sen.addr[..2] == [0x30, 0x32]
      && exists reply :: reply in heard && AnswersFor(reply, sen.addr) && Shows(heard, reply, sen.data.octets)
  }

  ghost predicate Known(heard: set<seq<byte>>, w: World) {
    BufferKnown(heard, w.resp) && forall i :: 0 <= i < |w.sen| ==> Genuine(heard, w.sen[i])
  }

  lemma OctetStays(heard: set<seq<byte>>, more: set<seq<byte>>, p: nat, b: byte)
    requires Octet(heard, p, b) && heard <= more
    ensures Octet(more, p, b)
  {
  }

  lemma GenuineStays(heard: set<seq<byte>>, more: set<seq<byte>>, sen: Sensor)
    requires Genuine(heard, sen) && heard <= more
    ensures Genuine(more, sen)
  {
    if sen.code == Ok && sen.data.Float32? {
      var reply :| reply in heard && AnswersFor(reply, sen.addr) && Shows(heard, reply, sen.data.octets);
      hide Octet;
      hide AnswersFor;
      forall p: nat, b: byte | Octet(heard, p, b) ensures Octet(more, p, b) {
        OctetStays(heard, more, p, b);
      }
      assert Shows(more, reply, sen.data.octets);
    }
  }

  lemma BufferStays(heard: set<seq<byte>>, more: set<seq<byte>>, resp: packet)
    requires BufferKnown(heard, resp) && heard <= more
    ensures BufferKnown(more, resp)
  {
    forall p: nat | p < MAX_BLE_PACKET_LEN ensures Octet(more, p, resp[p]) {
      OctetStays(heard, more, p, resp[p]);
    }
  }

  lemma KnownStays(heard: set<seq<byte>>, more: set<seq<byte>>, w: World)
    requires Known(heard, w) && heard <= more
    ensures Known(more, w)
  {
    BufferStays(heard, more, w.resp);
    forall i | 0 <= i < |w.sen| ensures Genuine(more, w.sen[i]) {
      GenuineStays(heard, more, w.sen[i]);
    }
  }

  lemma HeardGrows(peer: Peer, s: LinkState, t: LinkState)
    requires Hears(peer, s, t)
    ensures HeardOn(s) <= HeardOn(t)
  {
    forall reply | reply in s.heard ensures reply in t.heard {
      var k :| 0 <= k < |s.heard| && s.heard[k] == reply;
      assert t.heard[k] == t.heard[..|s.heard|][k];
    }
  }

  /** A response laid over a known buffer leaves it known, with the response's own octets where it has them. */
  lemma OverlayKnown(heard: set<seq<byte>>, reply: seq<byte>, resp: packet)
    requires BufferKnown(heard, resp) && reply in heard
    requires 0 < |reply| <= MAX_BLE_PACKET_LEN && reply[0] == ATT_OP_READ_RESP
    ensures BufferKnown(heard, Overlay(reply[1..], resp))
    ensures forall p: nat :: p < MAX_BLE_PACKET_LEN ==> OwnOrOld(heard, reply, p, Overlay(reply[1..], resp)[p])
  {
    var after := Overlay(reply[1..], resp);
    forall p: nat | p < MAX_BLE_PACKET_LEN
      ensures Octet(heard, p, after[p]) && OwnOrOld(heard, reply, p, after[p])
    {
      if p + 1 < |reply| {
        assert after[p] == reply[p + 1];
      } else {
        assert after[p] == resp[p];
        assert Octet(heard, p, resp[p]);
      }
    }
  }

  lemma DecodedIsGenuine(heard: set<seq<byte>>, sen: Sensor, reply: seq<byte>, resp: packet)
    requires sen.addr[..2] == PROBE_TSYS01 && reply in heard && AnswersFor(reply, sen.addr)
    requires forall p: nat :: p < MAX_BLE_PACKET_LEN ==> OwnOrOld(heard, reply, p, resp[p])
    ensures Genuine(heard, Decoded(sen, resp))
  {
    if resp[2] == READ_OK {
      var octets := resp[9..13];
      hide OwnOrOld;
      hide AnswersFor;
      assert OwnOrOld(heard, reply, 2, resp[2]);
      forall j: nat | j < 4 ensures OwnOrOld(heard, reply, 9 + j, octets[j]) {
        assert octets[j] == resp[9 + j];
      }
      assert Shows(heard, reply, octets);
    }
  }

  lemma MatchCarries(addr: address, reply: seq<byte>)
    requires 0 < |reply| <= MAX_BLE_PACKET_LEN && Matches(Frame(addr), reply)
    ensures AnswersFor(reply, addr)
  {
    MatchCarriesAddress(addr, reply);
    assert Padded(reply)[0] == reply[0];
  }

  lemma LastIsHeard(s: LinkState)
    requires s.heard != []
    ensures s.heard[|s.heard| - 1] in HeardOn(s)
  {
  }

  /** A turn in which the exchange succeeds. */
  lemma ReadKeepsKnown(peer: Peer, heard: set<seq<byte>>, w: World, i: nat, e: Exchanged)
    requires i < |w.sen| && Known(heard, w) && w.sen[i].addr[..2] == PROBE_TSYS01
    requires e == Send(peer, w.link, Frame(w.sen[i].addr), w.found.readHandle, w.found.writeHandle)
    requires e.code == Ok && HeardOn(e.link) <= heard
    ensures Known(heard, ReadProbe(peer, w, i))
  {
    var sen, cmd := w.sen[i], Frame(w.sen[i].addr);
    SendHears(peer, w.link, cmd, w.found.readHandle, w.found.writeHandle, e);
    var reply := e.link.heard[|e.link.heard| - 1];
    LastIsHeard(e.link);
    MatchCarries(sen.addr, reply);
    hide Send;
    hide HeardOn;
    hide Matches;
    hide Hears;
    hide Octet;
    var resp := Overlay(e.payload, w.resp);
    OverlayKnown(heard, reply, w.resp);
    DecodedIsGenuine(heard, sen, reply, resp);
    hide Genuine;
    hide OwnOrOld;
    hide AnswersFor;
    hide Decoded;
    hide Overlay;
    hide Frame;
  }

  lemma FailedReadKeepsKnown(peer: Peer, heard: set<seq<byte>>, w: World, i: nat)
    requires i < |w.sen| && Known(heard, w)
    requires Send(peer, w.link, Frame(w.sen[i].addr), w.found.readHandle, w.found.writeHandle).code != Ok
    ensures Known(heard, ReadProbe(peer, w, i))
  {
    hide Send;
    hide Frame;
    hide BufferKnown;
    hide AnswersFor;
    hide Shows;
  }

  /** `others` is what has been heard on other links. */
  lemma TurnKeepsKnown(peer: Peer, others: set<seq<byte>>, w: World, i: nat)
    requires i < |w.sen| && Known(others + HeardOn(w.link), w)
    ensures Known(others + HeardOn(Turn(peer, w, i).link), Turn(peer, w, i))
  {
    var after := Turn(peer, w, i);
    TurnHears(peer, w, i);
    HeardGrows(peer, w.link, after.link);
    var heard := others + HeardOn(after.link);
    KnownStays(others + HeardOn(w.link), heard, w);
    var u := Searched(peer, w);
    assert u.sen == w.sen && u.resp == w.resp;
    hide Searched;
    hide HeardOn;
    hide Hears;
    hide BufferKnown;
    hide Genuine;
    assert Known(heard, u);
    if u.found.discovered == 2 {
      if u.sen[i].addr[..2] == PROBE_TSYS01 {
        hide ReadProbe;
        var e := Send(peer, u.link, Frame(u.sen[i].addr), u.found.readHandle, u.found.writeHandle);
        assert e.link == after.link by { ReadLink(peer, u, i); }
        if e.code == Ok {
          ReadKeepsKnown(peer, heard, u, i, e);
        } else {
          FailedReadKeepsKnown(peer, heard, u, i);
        }
      } else if u.sen[i].addr[..2] != PROBE_12CH {
        UnknownIsGenuine(heard, u.sen[i]);
      }
    }
  }

  lemma ReadLink(peer: Peer, w: World, i: nat)
    requires i < |w.sen|
    ensures ReadProbe(peer, w, i).link ==
            Send(peer, w.link, Frame(w.sen[i].addr), w.found.readHandle, w.found.writeHandle).link
  {
  }

  lemma UnknownIsGenuine(heard: set<seq<byte>>, sen: Sensor)
    ensures Genuine(heard, sen.(data := ERROR_DATA_VALUE, code := UnknownProbeDefinition))
  {
  }

  /** A round leaves the buffer and every sensor known from what has been heard by its end. */
  lemma RoundKeepsKnown(peer: Peer, others: set<seq<byte>>, w: World, connected: bool)
    requires Known(others + HeardOn(w.link), w)
    ensures Known(others + HeardOn(Round(peer, w, connected).link), Round(peer, w, connected))
  {
    if connected {
      forall u: World, i: nat | KnownHere(others, u) ensures KnownHere(others, Turns(peer)(u, i)) {
        if i < |u.sen| {
          TurnKeepsKnown(peer, others, u, i);
        }
      }
      assert KnownHere(others, SetOpen(w, true));
      StepsKeep(Turns(peer), (u: World) => KnownHere(others, u), SetOpen(w, true), |w.sen|);
      hide Turns;
      hide Known;
      assert KnownHere(others, After(peer, SetOpen(w, true), |w.sen|));
      SetOpenKeepsKnown(others, After(peer, SetOpen(w, true), |w.sen|), false);
    } else {
      assert KnownHere(others, w.(sen := TimedOut(w.sen)));
      SetOpenKeepsKnown(others, w.(sen := TimedOut(w.sen)), false);
    }
  }

  ghost predicate KnownHere(others: set<seq<byte>>, w: World) {
    Known(others + HeardOn(w.link), w)
  }

  lemma SetOpenKeepsKnown(others: set<seq<byte>>, w: World, open: bool)
    requires KnownHere(others, w)
    ensures KnownHere(others, SetOpen(w, open))
  {
    assert SetOpen(w, open).link.heard == w.link.heard;
  }
}
