/** The link to one BLE module: what the peer may answer, and the effect of the write and read primitives. */
module Link {
  import opened Types
  import opened AttServer

  const RETRY_TIMES: nat := 5

  /**
   Everything the other side and the radio may do. `writeOk(n)` tells if the n-th write attempt on an open socket
   succeeds, `readOk(n)` if the n-th read delivers anything. A read after a discovery request delivers the answer of
   `server`, packed as `extra(n)` says; after any other PDU it delivers `answer(n, pdu)`, which is arbitrary.
   */
  datatype Peer = Peer(
    server: ConformingServer, extra: nat -> nat,
    writeOk: nat -> bool, readOk: nat -> bool, answer: (nat, seq<byte>) -> seq<byte>)

  function Zeros(n: nat): (z: seq<byte>)
    ensures |z| == n
  {
    seq(n, _ => 0)
  }

  /** The socket: open or closed, the attempts made so far, the PDUs delivered to the peer, and the answers it gave. */
  datatype LinkState = LinkState(
    open: bool, writes: nat, received: nat, sent: seq<seq<byte>>, heard: seq<seq<byte>>)

  /** What the n-th read delivers after `pdu`; nothing stands for a return value of 0 or less. */
  function Reply(peer: Peer, n: nat, pdu: seq<byte>): (r: seq<byte>)
    ensures |r| <= MAX_BLE_PACKET_LEN
  {
    var whole :=
      if !peer.readOk(n) then []
      else if pdu != [] && pdu[0] == ATT_OP_READ_BY_TYPE_REQ then Respond(peer.server, pdu, peer.extra(n))
      else peer.answer(n, pdu);
    if |whole| <= MAX_BLE_PACKET_LEN then whole else whole[..MAX_BLE_PACKET_LEN]
  }

  function LastSent(s: LinkState): seq<byte> {
    if s.sent == [] then [] else s.sent[|s.sent| - 1]
  }

  /** One write call. */
  function Attempt(peer: Peer, s: LinkState, pdu: seq<byte>): (bool, LinkState) {
    if !s.open then (false, s)
    else if peer.writeOk(s.writes) then (true, s.(writes := s.writes + 1, sent := s.sent + [pdu]))
    else (false, s.(writes := s.writes + 1))
  }

  /** How many of the attempts from the n-th on fail before one succeeds, `tries` at most. */
  function Failures(peer: Peer, n: nat, tries: nat): (k: nat)
    ensures k <= tries
    decreases tries, n
  {
    if tries == 0 || peer.writeOk(n) then 0 else 1 + Failures(peer, n + 1, tries - 1)
  }

  /** Attempts until one succeeds or all of RETRY_TIMES have failed; then the socket is closed. */
  function Write(peer: Peer, s: LinkState, pdu: seq<byte>): (bool, LinkState) {
    if !s.open then (false, s)
    else
      var k := Failures(peer, s.writes, RETRY_TIMES);
      if k < RETRY_TIMES then (true, s.(writes := s.writes + k + 1, sent := s.sent + [pdu]))
      else (false, s.(writes := s.writes + k, open := false))
  }

  /** One read; when it delivers nothing the socket is closed. */
  function Read(peer: Peer, s: LinkState): (Option<seq<byte>>, LinkState) {
    if !s.open then (None, s)
    else
      var data := Reply(peer, s.received, LastSent(s));
      if data == [] then (None, s.(open := false, received := s.received + 1))
      else (Some(data), s.(received := s.received + 1, heard := s.heard + [data]))
  }

  /** `reply` means something only when the code is Ok. */
  datatype Transaction = Transaction(code: DataCode, reply: seq<byte>, link: LinkState)

  /** A PDU written and the answer to it read. */
  function Transact(peer: Peer, s: LinkState, pdu: seq<byte>): (t: Transaction)
    ensures t.code == Ok ==> t.reply != [] && |t.reply| <= MAX_BLE_PACKET_LEN
    ensures t.code in {Ok, BleWriteErr, BleReadErr}
  {
    var (ok, s1) := Write(peer, s, pdu);
    if !ok then Transaction(BleWriteErr, [], s1)
    else
      var (got, s2) := Read(peer, s1);
      if got.None? then Transaction(BleReadErr, [], s2) else Transaction(Ok, got.value, s2)
  }

  /** A completed transaction brings the reply to its own PDU; a failed one closes the socket. */
  lemma TransactMeaning(peer: Peer, s: LinkState, pdu: seq<byte>)
    ensures var t := Transact(peer, s, pdu);
      if t.code == Ok then
        t.link.open && t.reply == Reply(peer, s.received, pdu) && t.link.received == s.received + 1
      else !t.link.open
  {
  }

  /** Of the attempts from the n-th on, one of the first five gets through. */
  ghost predicate SomeWriteOk(peer: Peer, n: nat) {
    exists m: nat :: n <= m < n + 5 && peer.writeOk(m)
  }

  lemma {:induction false} FailuresEnd(peer: Peer, n: nat, tries: nat)
    ensures Failures(peer, n, tries) < tries <==> exists m: nat :: n <= m < n + tries && peer.writeOk(m)
    decreases tries
  {
    if tries != 0 && !peer.writeOk(n) {
      FailuresEnd(peer, n + 1, tries - 1);
    }
  }

  /** A PDU is given up only after five failures in a row, and delivered at the first success otherwise. */
  lemma WriteGivesUpAfterFive(peer: Peer, s: LinkState, pdu: seq<byte>)
    requires s.open
    ensures var (ok, s') := Write(peer, s, pdu);
      && (ok <==> SomeWriteOk(peer, s.writes))
      && (ok ==> s'.open && s'.sent == s.sent + [pdu] && s'.received == s.received)
      && (!ok ==> s' == s.(open := false, writes := s.writes + 5))
  {
    FailuresEnd(peer, s.writes, RETRY_TIMES);
  }

  lemma TransactSucceeds(peer: Peer, s: LinkState, pdu: seq<byte>)
    requires s.open && SomeWriteOk(peer, s.writes) && Reply(peer, s.received, pdu) != []
    ensures var t := Transact(peer, s, pdu);
      && t.code == Ok && t.reply == Reply(peer, s.received, pdu)
      && t.link.open && t.link.received == s.received + 1 && |t.link.sent| == |s.sent| + 1
  {
    WriteGivesUpAfterFive(peer, s, pdu);
  }

  /** The module under acquisition has one socket; its file keeps it in a global. */
  class Socket {
    const peer: Peer
    var state: LinkState

    constructor (peer: Peer)
      ensures this.peer == peer && state == LinkState(false, 0, 0, [], [])
    {
      this.peer := peer;
      state := LinkState(false, 0, 0, [], []);
    }

    method Close()
      modifies this
      ensures state == old(state).(open := false)
    {
      state := state.(open := false);
    }

    method SystemWrite(pdu: seq<byte>) returns (ok: bool)
      modifies this
      ensures (ok, state) == Attempt(peer, old(state), pdu)
    {
      var (ok', next) := Attempt(peer, state, pdu);
      ok, state := ok', next;
    }

    method WriteBleData(data: seq<byte>) returns (ok: bool)
      modifies this
      ensures (ok, state) == Write(peer, old(state), data)
    {
      var try: nat, done := RETRY_TIMES, false;
      ghost var n := state.writes;
      while try > 0 && !done
        invariant try <= RETRY_TIMES
        invariant !done ==>
          state == if old(state).open then old(state).(writes := n + (RETRY_TIMES - try)) else old(state)
        invariant !done && old(state).open ==>
          Failures(peer, n, RETRY_TIMES) == RETRY_TIMES - try + Failures(peer, state.writes, try)
        invariant done ==> try > 0 && Write(peer, old(state), data) == (true, state)
        decreases try, !done
      {
        done := SystemWrite(data);
        if !done {
          try := try - 1;
        }
      }
      if try == 0 {
        Close();
        return false;
      }
      return true;
    }

    /** Copies what arrived over the beginning of `data`. */
    method ReadBleData(data: array<byte>) returns (ok: bool, dataLength: nat)
      requires data.Length == MAX_BLE_PACKET_LEN
      modifies this, data
      ensures state == Read(peer, old(state)).1
      ensures ok <==> Read(peer, old(state)).0.Some?
      ensures ok ==>
        var got := Read(peer, old(state)).0.value;
        dataLength == |got| && data[..] == got + old(data[..])[|got|..]
      ensures !ok ==> data[..] == old(data[..])
    {
      var (got, next) := Read(peer, state);
      state := next;
      match got {
        case None =>
          Close();
          return false, 0;
        case Some(bytes) =>
          forall i | 0 <= i < |bytes| {
            data[i] := bytes[i];
          }
          return true, |bytes|;
      }
    }

    /** Writes a PDU and reads the answer over a cleared buffer. */
    method WriteThenRead(pdu: seq<byte>, data: array<byte>) returns (code: DataCode, received: nat)
      requires data.Length == MAX_BLE_PACKET_LEN
      modifies this, data
      ensures var t := Transact(peer, old(state), pdu);
        && code == t.code && state == t.link
        && (code == Ok ==> received == |t.reply| && data[..] == t.reply + Zeros(MAX_BLE_PACKET_LEN - received))
    {
      var ok := WriteBleData(pdu);
      if !ok {
        return BleWriteErr, 0;
      }
      forall i | 0 <= i < data.Length {
        data[i] := 0;
      }
      ok, received := ReadBleData(data);
      if !ok {
        return BleReadErr, 0;
      }
      code := Ok;
    }
  }
}
