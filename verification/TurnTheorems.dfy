/** What the turn of one sensor sends, octet by octet, and all the ways in which it ends. */
module TurnTheorems {
  import opened Types
  import opened AttServer
  import opened Link
  import opened CoreModules
  import opened Exchange
  import opened Acquisition
  import opened AcquisitionTheorems
  import opened RoundTheorems
  import opened Codec

  // ---------- Octets ----------

  /** The write request with the read-temperature command for the probe at `addr`. */
  function Command(h: handle, addr: address): seq<byte> {
    [0x12, h % 256, 0x00, 0x03, 0x08, 0x01] + addr + [(0x0C + Six(addr)) % 256]
  }

  function PollOf(h: handle): seq<byte> { [0x0A, h % 256, 0x00] }

  function Polls(h: handle, k: nat): (p: seq<seq<byte>>)
    ensures |p| == k
  {
    seq(k, _ => PollOf(h))
  }

  /** A read response in which the address stands, as far as the response goes and with zeros behind it. */
  predicate IsAnswer(reply: seq<byte>, addr: address) {
    && reply != [] && reply[0] == 0x0B
    && forall j :: 0 <= j < 6 ==> addr[j] == if 4 + j < |reply| then reply[4 + j] else 0
  }

  lemma CommandIs(h: handle, addr: address)
    ensures WritePdu(h, Frame(addr)) == Command(h, addr)
  {
    SumOfNine([0x03, 0x08, 0x01] + addr, addr);
    hide Sum;
  }

  lemma MatchIsAnswer(addr: address, reply: seq<byte>)
    requires |reply| <= MAX_BLE_PACKET_LEN
    ensures Matches(Frame(addr), reply) <==> IsAnswer(reply, addr)
  {
    var p := Padded(reply);
    assert Frame(addr)[3..9] == addr;
    assert p[4..10] == addr <==> forall j :: 0 <= j < 6 ==> p[4..10][j] == addr[j];
    assert forall j :: 0 <= j < 6 ==> p[4..10][j] == if 4 + j < |reply| then reply[4 + j] else 0;
    hide Frame;
  }

  // ---------- What is sent ----------

  lemma TransactSends(peer: Peer, s: LinkState, pdu: seq<byte>)
    ensures var t := Transact(peer, s, pdu);
      && (t.link.sent == s.sent || t.link.sent == s.sent + [pdu])
      && (t.code == Ok ==> t.link.sent == s.sent + [pdu])
  {
  }

  lemma PollsFollow(sent: seq<seq<byte>>, one: seq<seq<byte>>, all: seq<seq<byte>>, h: handle, k: nat)
    requires one == sent + [PollOf(h)] && all == one + Polls(h, k)
    ensures all == sent + Polls(h, k + 1)
  {
  }

  lemma PollIs(h: handle)
    ensures PollPdu(h) == PollOf(h)
  {
  }

  /** One poll, after which the polling goes on or ends. */
  lemma PollUnfolds(peer: Peer, s: LinkState, cmd: seq<byte>, h: handle, retry: nat)
    requires |cmd| >= 9 && retry > 0
    ensures var t := Transact(peer, s, PollPdu(h));
      Poll(peer, s, cmd, h, retry).link ==
        if t.code == Ok && !Matches(cmd, t.reply) then Poll(peer, t.link, cmd, h, retry - 1).link else t.link
  {
    hide Transact;
    hide Matches;
  }

  lemma {:induction false} PollSends(peer: Peer, s: LinkState, cmd: seq<byte>, h: handle, retry: nat) returns (k: nat)
    requires |cmd| >= 9
    ensures k <= retry && Poll(peer, s, cmd, h, retry).link.sent == s.sent + Polls(h, k)
    decreases retry
  {
    k := 0;
    NoPolls(s.sent, h);
    if retry == 0 {
      assert Poll(peer, s, cmd, h, retry).link == s;
    } else {
      hide *;
      PollUnfolds(peer, s, cmd, h, retry);
      TransactSends(peer, s, PollPdu(h));
      PollIs(h);
      var t := Transact(peer, s, PollPdu(h));
      if t.code == Ok && !Matches(cmd, t.reply) {
        k := PollSends(peer, t.link, cmd, h, retry - 1);
        PollsFollow(s.sent, t.link.sent, Poll(peer, t.link, cmd, h, retry - 1).link.sent, h, k);
        k := k + 1;
      } else if t.link.sent != s.sent {
        NoPolls(t.link.sent, h);
        PollsFollow(s.sent, t.link.sent, t.link.sent, h, 0);
        k := 1;
      }
    }
  }

  lemma NoPolls(sent: seq<seq<byte>>, h: handle)
    ensures sent + Polls(h, 0) == sent
  {
  }

  /**
   In the turn of a sensor whose module has its handles, nothing is sent, or it is a TSYS01 probe and one command is,
   followed by at most 100 polls.
   */
  lemma TurnSends(peer: Peer, w: World, i: nat) returns (k: nat)
    requires i < |w.sen| && w.found.discovered == 2
    ensures var sent := Turn(peer, w, i).link.sent;
      || sent == w.link.sent
      || (w.sen[i].addr[..2] == [0x30, 0x32] && k <= 100
          && sent == w.link.sent + [Command(w.found.writeHandle, w.sen[i].addr)] + Polls(w.found.readHandle, k))
  {
    var addr := w.sen[i].addr;
    var pdu := WritePdu(w.found.writeHandle, Frame(addr));
    k := 0;
    if addr[..2] == PROBE_TSYS01 {
      TransactSends(peer, w.link, pdu);
      CommandIs(w.found.writeHandle, addr);
      var t := Transact(peer, w.link, pdu);
      hide Transact;
      hide Poll;
      hide WritePdu;
      hide Frame;
      hide Command;
      hide Decoded;
      hide Overlay;
      if t.code == Ok && t.reply == [ATT_OP_WRITE_RESP] {
        k := PollSends(peer, t.link, Frame(addr), w.found.readHandle, FAST_RETRY_TIMES);
      }
      hide PollOf;
      assert t.link.sent + Polls(w.found.readHandle, 0) == t.link.sent;
    }
  }

  // ---------- How a turn ends ----------

  function Failed(sen: Sensor, code: DataCode): Sensor {
    Sensor(sen.addr, Number(999.0), code)
  }

  /** The n-th read is the first after the acknowledgement that brings a response with the address. */
  ghost predicate FirstAnswer(peer: Peer, w: World, addr: address, n: nat) {
    var poll := PollOf(w.found.readHandle);
    && w.link.received < n && IsAnswer(Reply(peer, n, poll), addr)
    && forall m: nat :: w.link.received < m < n ==> !IsAnswer(Reply(peer, m, poll), addr)
  }

  /** Writes and reads get through, and every poll is answered by something. */
  ghost predicate PollsWork(peer: Peer, h: handle) {
    forall n: nat :: SomeWriteOk(peer, n) && Reply(peer, n, PollOf(h)) != []
  }

  /** A TSYS01 probe on an open link: the command cannot be sent, or is not acknowledged. */
  lemma CommandFails(peer: Peer, w: World, i: nat)
    requires i < |w.sen| && w.found.discovered == 2 && w.link.open && w.sen[i].addr[..2] == [0x30, 0x32]
    ensures var sen, after := w.sen[i], Turn(peer, w, i).sen[i];
      var ack := Reply(peer, w.link.received, Command(w.found.writeHandle, sen.addr));
      && (!SomeWriteOk(peer, w.link.writes) ==> after == Failed(sen, BleWriteErr))
      && (SomeWriteOk(peer, w.link.writes) && ack != [0x13] ==> after == Failed(sen, BleReadErr))
  {
    var addr := w.sen[i].addr;
    CommandIs(w.found.writeHandle, addr);
    hide Command;
    hide Poll;
    hide Reply;
    hide Frame;
    hide Decoded;
    hide Overlay;
    WriteGivesUpAfterFive(peer, w.link, WritePdu(w.found.writeHandle, Frame(addr)));
    hide WritePdu;
    hide Write;
    hide SomeWriteOk;
  }

  lemma AnswerIsMatch(peer: Peer, w: World, addr: address, n: nat)
    ensures MatchingReads(peer, Frame(addr), w.found.readHandle)(n) <==>
            IsAnswer(Reply(peer, n, PollOf(w.found.readHandle)), addr)
  {
    MatchIsAnswer(addr, Reply(peer, n, PollPdu(w.found.readHandle)));
    hide Frame;
    hide Matches;
    hide IsAnswer;
    hide Reply;
  }

  /** A TSYS01 probe on an open link whose command is acknowledged, and polling works. */
  ghost predicate Acknowledged(peer: Peer, w: World, i: nat)
    requires i < |w.sen|
  {
    && w.found.discovered == 2 && w.link.open && w.sen[i].addr[..2] == [0x30, 0x32]
    && PollsWork(peer, w.found.readHandle)
    && Reply(peer, w.link.received, Command(w.found.writeHandle, w.sen[i].addr)) == [0x13]
  }

  lemma ProbeEnds(peer: Peer, w: World, i: nat, e: Exchanged)
    requires i < |w.sen| && w.found.discovered == 2 && w.sen[i].addr[..2] == [0x30, 0x32]
    requires e == Send(peer, w.link, Frame(w.sen[i].addr), w.found.readHandle, w.found.writeHandle)
    ensures var sen, after := w.sen[i], Turn(peer, w, i).sen[i];
      var b := Overlay(e.payload, w.resp);
      after == if e.code != Ok then Failed(sen, e.code)
               else if b[2] == 0x41 then Sensor(sen.addr, Float32(b[9..13]), Ok)
               else Failed(sen, Rs485Tsys01NoResponse)
  {
    hide Send;
    hide Frame;
    hide Overlay;
  }

  /** Then the first answer that comes within 99 polls is taken: it decides by its octet 3, as laid over the buffer. */
  lemma AnswerIsTaken(peer: Peer, w: World, i: nat, n: nat)
    requires i < |w.sen| && Acknowledged(peer, w, i)
    requires FirstAnswer(peer, w, w.sen[i].addr, n) && n < w.link.received + 100
    ensures var sen, after := w.sen[i], Turn(peer, w, i).sen[i];
      var b := Overlay(Reply(peer, n, PollOf(w.found.readHandle))[1..], w.resp);
      after == if b[2] == 0x41 then Sensor(sen.addr, Float32(b[9..13]), Ok) else Failed(sen, Rs485Tsys01NoResponse)
  {
    var e := Send(peer, w.link, Frame(w.sen[i].addr), w.found.readHandle, w.found.writeHandle);
    ProbeEnds(peer, w, i, e);
    ExchangeTakes(peer, w, w.sen[i].addr, n, e, MatchingReads(peer, Frame(w.sen[i].addr), w.found.readHandle),
                  w.link.received + 1);
    hide *;
  }

  lemma ExchangeTakes(peer: Peer, w: World, addr: address, n: nat, e: Exchanged, m: nat -> bool, from: nat)
    requires w.link.open && PollsWork(peer, w.found.readHandle)
    requires Reply(peer, w.link.received, Command(w.found.writeHandle, addr)) == [0x13]
    requires FirstAnswer(peer, w, addr, n) && n < w.link.received + 100
    requires e == Send(peer, w.link, Frame(addr), w.found.readHandle, w.found.writeHandle)
    requires m == MatchingReads(peer, Frame(addr), w.found.readHandle) && from == w.link.received + 1
    ensures e.code == Ok && e.payload == Reply(peer, n, PollOf(w.found.readHandle))[1..]
  {
    hide *;
    AcknowledgedIsPolled(peer, w, addr, e, m, from);
    FirstAnswerIsFirst(peer, w, addr, n, m, from);
    TakesFirst(e, m, from, n);
  }

  /** An exchange that takes a first match if there is one takes this one. */
  lemma TakesFirst(e: Exchanged, m: nat -> bool, from: nat, n: nat)
    requires First(m, from, n) && n < from + 99
    requires e.code == Ok <==> exists k: nat :: from <= k < from + 99 && m(k)
    requires e.code == Ok ==> e.link.received > 0 && First(m, from, e.link.received - 1)
    ensures e.code == Ok && e.link.received == n + 1
  {
    FirstIsUnique(m, from, n, e.link.received - 1);
  }

  /** And if none comes within 99 polls, the module is said not to respond. */
  lemma NoAnswerFails(peer: Peer, w: World, i: nat)
    requires i < |w.sen| && Acknowledged(peer, w, i)
    requires forall n: nat :: w.link.received < n < w.link.received + 100 ==>
      !IsAnswer(Reply(peer, n, PollOf(w.found.readHandle)), w.sen[i].addr)
    ensures Turn(peer, w, i).sen[i] == Failed(w.sen[i], BleInternalCmdNoResponse)
  {
    var addr := w.sen[i].addr;
    var e := Send(peer, w.link, Frame(addr), w.found.readHandle, w.found.writeHandle);
    ProbeEnds(peer, w, i, e);
    hide Turn;
    hide Overlay;
    AcknowledgedIsPolled(peer, w, addr, e, MatchingReads(peer, Frame(addr), w.found.readHandle), w.link.received + 1);
    hide Send;
    hide Command;
    hide PollsWork;
    AnswersAreMatches(peer, w, addr);
    hide MatchingReads;
    hide Reply;
    hide IsAnswer;
    hide Frame;
    hide PollOf;
  }

  lemma AnswersAreMatches(peer: Peer, w: World, addr: address)
    ensures forall n: nat :: MatchingReads(peer, Frame(addr), w.found.readHandle)(n) <==>
              IsAnswer(Reply(peer, n, PollOf(w.found.readHandle)), addr)
  {
    forall n: nat ensures MatchingReads(peer, Frame(addr), w.found.readHandle)(n) <==>
                            IsAnswer(Reply(peer, n, PollOf(w.found.readHandle)), addr)
    {
      AnswerIsMatch(peer, w, addr, n);
    }
  }

  lemma FirstAnswerIsFirst(peer: Peer, w: World, addr: address, n: nat, m: nat -> bool, from: nat)
    requires FirstAnswer(peer, w, addr, n)
    requires m == MatchingReads(peer, Frame(addr), w.found.readHandle) && from == w.link.received + 1
    ensures First(m, from, n)
  {
    AnswersAreMatches(peer, w, addr);
    hide MatchingReads;
    hide Reply;
    hide IsAnswer;
    hide Frame;
    hide PollOf;
  }

  lemma AcknowledgedIsPolled(peer: Peer, w: World, addr: address, e: Exchanged, m: nat -> bool, from: nat)
    requires w.link.open && PollsWork(peer, w.found.readHandle)
    requires Reply(peer, w.link.received, Command(w.found.writeHandle, addr)) == [0x13]
    requires e == Send(peer, w.link, Frame(addr), w.found.readHandle, w.found.writeHandle)
    requires m == MatchingReads(peer, Frame(addr), w.found.readHandle) && from == w.link.received + 1
    ensures e.code == Ok <==> exists n: nat :: from <= n < from + 99 && m(n)
    ensures e.code != Ok ==> e.code == BleInternalCmdNoResponse
    ensures e.code == Ok ==> e.link.received > 0 && First(m, from, e.link.received - 1)
    ensures e.code == Ok ==> e.payload == Reply(peer, e.link.received - 1, PollOf(w.found.readHandle))[1..]
  {
    var cmd := Frame(addr);
    CommandIs(w.found.writeHandle, addr);
    assert AnswersPolls(peer, w.found.readHandle) by {
      assert PollPdu(w.found.readHandle) == PollOf(w.found.readHandle);
    }
    hide PollsWork;
    assert SomeWriteOk(peer, w.link.writes);
    TransactSucceeds(peer, w.link, WritePdu(w.found.writeHandle, cmd));
    var t := Transact(peer, w.link, WritePdu(w.found.writeHandle, cmd));
    PollIsExact(peer, t.link, cmd, w.found.readHandle);
    hide Poll;
    hide Transact;
    hide Frame;
    hide Reply;
    hide Command;
    hide MatchingReads;
    hide AnswersPolls;
    hide First;
  }

  /** The turn of any other sensor: one with the prefix of a 12-channel probe is left alone, all others are unknown. */
  lemma OtherSensors(peer: Peer, w: World, i: nat)
    requires i < |w.sen| && w.found.discovered == 2 && w.sen[i].addr[..2] != [0x30, 0x32]
    ensures Turn(peer, w, i).link == w.link
    ensures Turn(peer, w, i).sen[i] ==
      if w.sen[i].addr[..2] == [0x30, 0x33] then w.sen[i] else Failed(w.sen[i], UnknownProbeDefinition)
  {
  }

  /** A module that cannot be connected: every sensor says so, and nothing is sent. */
  lemma NotConnected(peer: Peer, w: World, i: nat)
    requires i < |w.sen|
    ensures |Round(peer, w, false).sen| == |w.sen| && Round(peer, w, false).sen[i] == Failed(w.sen[i], BleConnTimeout)
    ensures Round(peer, w, false).link == w.link.(open := false) && Round(peer, w, false).found == w.found
  {
  }

  /** An answer longer than 40 octets is cut. */
  lemma LongAnswersAreCut(peer: Peer, n: nat, h: handle)
    requires peer.readOk(n)
    ensures var whole := peer.answer(n, PollOf(h));
      Reply(peer, n, PollOf(h)) == if |whole| <= 40 then whole else whole[..40]
  {
  }
}
