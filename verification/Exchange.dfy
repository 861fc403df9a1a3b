/** One command and its polled response on the link. */
module Exchange {
  import opened Types
  import opened AttServer
  import opened Link
  import opened CoreModules

  const FAST_RETRY_TIMES: nat := 100
  const ATT_OP_READ_REQ: byte := 0x0A
  const ATT_OP_READ_RESP: byte := 0x0B
  const ATT_OP_WRITE_REQ: byte := 0x12
  const ATT_OP_WRITE_RESP: byte := 0x13

  /** Only the low octet of a handle is sent. */
  function WritePdu(h: handle, cmd: seq<byte>): seq<byte> { [ATT_OP_WRITE_REQ, Low(h), 0x00] + cmd }

  function PollPdu(h: handle): seq<byte> { [ATT_OP_READ_REQ, Low(h), 0x00] }

  /** What a cleared packet buffer holds after `data` has arrived. */
  function Padded(data: seq<byte>): (p: seq<byte>)
    requires |data| <= MAX_BLE_PACKET_LEN
    ensures |p| == MAX_BLE_PACKET_LEN
  {
    data + Zeros(MAX_BLE_PACKET_LEN - |data|)
  }

  /** A read response that carries the address the command was sent to. */
  predicate Matches(cmd: seq<byte>, reply: seq<byte>)
    requires |cmd| >= 9 && |reply| <= MAX_BLE_PACKET_LEN
  {
    Padded(reply)[4..4 + MAX_SENSOR_ADDR] == cmd[3..3 + MAX_SENSOR_ADDR] && Padded(reply)[0] == ATT_OP_READ_RESP
  }

  /** `payload` is the response without its opcode; it means something only when the code is Ok. */
  datatype Exchanged = Exchanged(code: DataCode, payload: seq<byte>, link: LinkState)

  /** Polling with `retry` polls left. A match on the last of them is not taken. */
  function Poll(peer: Peer, s: LinkState, cmd: seq<byte>, h: handle, retry: nat): (e: Exchanged)
    requires |cmd| >= 9
    ensures |e.payload| < MAX_BLE_PACKET_LEN
    decreases retry, s.open
  {
    if retry == 0 then Exchanged(BleInternalCmdNoResponse, [], s)
    else
      var t := Transact(peer, s, PollPdu(h));
      if t.code != Ok then Exchanged(t.code, [], t.link)
      else if !Matches(cmd, t.reply) then Poll(peer, t.link, cmd, h, retry - 1)
      else if retry == 1 then Exchanged(BleInternalCmdNoResponse, [], t.link)
      else Exchanged(Ok, t.reply[1..], t.link)
  }

  /** The command is written, its acknowledgement awaited, and the response polled. */
  function Send(peer: Peer, s: LinkState, cmd: seq<byte>, readHandle: handle, writeHandle: handle): (e: Exchanged)
    requires |cmd| >= 9
    ensures |e.payload| < MAX_BLE_PACKET_LEN
  {
    var t := Transact(peer, s, WritePdu(writeHandle, cmd));
    if t.code != Ok then Exchanged(t.code, [], t.link)
    else if t.reply != [ATT_OP_WRITE_RESP] then Exchanged(BleReadErr, [], t.link)
    else Poll(peer, t.link, cmd, readHandle, FAST_RETRY_TIMES)
  }

  /** `resp` keeps what it held beyond the response. */
  method SendBleCmdWithResponse(cmd: seq<byte>, resp: array<byte>, cm: CoreModule, sock: Socket)
    returns (code: DataCode, respLength: nat)
    requires 9 <= |cmd| <= MAX_BLE_PACKET_LEN - 3 && resp.Length == MAX_BLE_PACKET_LEN
    modifies sock, resp
    ensures var e := Send(sock.peer, old(sock.state), cmd, cm.readHandle, cm.writeHandle);
      && code == e.code && sock.state == e.link
      && (code == Ok ==> respLength == |e.payload| && resp[..] == e.payload + old(resp[..])[|e.payload|..])
      && (code != Ok ==> resp[..] == old(resp[..]))
  {
    hide Poll;
    var rdata := new byte[MAX_BLE_PACKET_LEN](_ => 0);
    var received: nat;
    respLength := 0;
    code, received := sock.WriteThenRead([ATT_OP_WRITE_REQ, Low(cm.writeHandle), 0x00] + cmd, rdata);
    if code != Ok {
      return;
    }
    if !(received == 1 && rdata[0] == ATT_OP_WRITE_RESP) {
      code := BleReadErr;
      return;
    }
    code, received := PollLoop(cmd, rdata, cm, sock);
    if code == Ok {
      respLength := received - 1;
      forall i | 0 <= i < respLength {
        resp[i] := rdata[1 + i];
      }
    }
  }

  /** The polling loop; on success `rdata` starts with the `received` octets of the response. */
  method PollLoop(cmd: seq<byte>, rdata: array<byte>, cm: CoreModule, sock: Socket)
    returns (code: DataCode, received: nat)
    requires |cmd| >= 9 && rdata.Length == MAX_BLE_PACKET_LEN
    modifies sock, rdata
    ensures var e := Poll(sock.peer, old(sock.state), cmd, cm.readHandle, FAST_RETRY_TIMES);
      && code == e.code && sock.state == e.link
      && (code == Ok ==> 1 <= received <= MAX_BLE_PACKET_LEN && e.payload == rdata[1..received])
  {
    hide Transact;
    hide Zeros;
    var retry: nat, readStatus := FAST_RETRY_TIMES, false;
    ghost var spec := Poll(sock.peer, sock.state, cmd, cm.readHandle, FAST_RETRY_TIMES);
    received := 0;
    while retry > 0 && !readStatus
      invariant received <= MAX_BLE_PACKET_LEN && (readStatus ==> received >= 1)
      invariant spec == if !readStatus then Poll(sock.peer, sock.state, cmd, cm.readHandle, retry)
                        else if retry == 0 then Exchanged(BleInternalCmdNoResponse, [], sock.state)
                        else Exchanged(Ok, rdata[..received][1..], sock.state)
      decreases retry
    {
      ghost var reply := Transact(sock.peer, sock.state, PollPdu(cm.readHandle)).reply;
      code, received := sock.WriteThenRead([ATT_OP_READ_REQ, Low(cm.readHandle), 0x00], rdata);
      if code != Ok {
        return;
      }
      assert rdata[..received] == reply;
      assert rdata[..] == Padded(reply);
      if cmd[3..3 + MAX_SENSOR_ADDR] == rdata[4..4 + MAX_SENSOR_ADDR] && rdata[0] == ATT_OP_READ_RESP {
        readStatus := true;
      }
      assert readStatus <==> Matches(cmd, reply);
      retry := retry - 1;
    }
    code := if retry == 0 then BleInternalCmdNoResponse else Ok;
  }

  // ---------- What polling guarantees ----------

  /** The link works while the module is polled: writes and reads get through and every poll is answered. */
  ghost predicate AnswersPolls(peer: Peer, h: handle) {
    forall n: nat :: SomeWriteOk(peer, n) && Reply(peer, n, PollPdu(h)) != []
  }

  /** The reply a poll gets when it is the n-th read. */
  function PollReply(peer: Peer, h: handle, n: nat): (r: seq<byte>)
    ensures |r| <= MAX_BLE_PACKET_LEN
  {
    Reply(peer, n, PollPdu(h))
  }

  predicate MatchesAt(peer: Peer, cmd: seq<byte>, h: handle, n: nat)
    requires |cmd| >= 9
  {
    Matches(cmd, PollReply(peer, h, n))
  }

  /** Which reads would bring a matching response. */
  function MatchingReads(peer: Peer, cmd: seq<byte>, h: handle): nat -> bool
    requires |cmd| >= 9
  {
    (n: nat) => MatchesAt(peer, cmd, h, n)
  }

  /** On a working link one poll is one read; it either ends the polling or leaves one poll less. */
  lemma PollOnce(peer: Peer, s: LinkState, cmd: seq<byte>, h: handle, retry: nat) returns (s': LinkState)
    requires AnswersPolls(peer, h) && s.open && |cmd| >= 9 && retry > 0
    ensures s'.open && s'.received == s.received + 1 && |s'.sent| == |s.sent| + 1
    ensures PollReply(peer, h, s.received) != []
    ensures Poll(peer, s, cmd, h, retry) ==
            if !MatchesAt(peer, cmd, h, s.received) then Poll(peer, s', cmd, h, retry - 1)
            else if retry == 1 then Exchanged(BleInternalCmdNoResponse, [], s')
            else Exchanged(Ok, PollReply(peer, h, s.received)[1..], s')
  {
    assert SomeWriteOk(peer, s.writes) && Reply(peer, s.received, PollPdu(h)) != [];
    TransactSucceeds(peer, s, PollPdu(h));
    s' := Transact(peer, s, PollPdu(h)).link;
  }

  /** The n-th read is the first one from the `from`-th on with the property `m`. */
  ghost predicate First(m: nat -> bool, from: nat, n: nat) {
    from <= n && m(n) && forall k: nat :: from <= k < n ==> !m(k)
  }

  /** Looks at one read after the other; tells if it stopped at a match other than the last one allowed, and where. */
  function Search(m: nat -> bool, from: nat, retry: nat): (bool, nat)
    decreases retry, from
  {
    if retry == 0 then (false, from)
    else if !m(from) then Search(m, from + 1, retry - 1)
    else (retry != 1, from + 1)
  }

  lemma {:induction false} SearchIsExact(m: nat -> bool, from: nat, retry: nat)
    ensures var (found, next) := Search(m, from, retry);
      && (found <==> exists n: nat :: from <= n < from + retry - 1 && m(n))
      && from <= next <= from + retry
      && (found ==> next > 0 && First(m, from, next - 1))
    decreases retry
  {
    if retry != 0 && !m(from) {
      SearchIsExact(m, from + 1, retry - 1);
    }
  }

  lemma {:induction false} PollSearches(peer: Peer, s: LinkState, cmd: seq<byte>, h: handle, retry: nat, e: Exchanged)
    requires AnswersPolls(peer, h) && s.open && |cmd| >= 9
    requires e == Poll(peer, s, cmd, h, retry)
    ensures e.code in {Ok, BleInternalCmdNoResponse}
    ensures (e.code == Ok, e.link.received) == Search(MatchingReads(peer, cmd, h), s.received, retry)
    ensures |e.link.sent| - |s.sent| == e.link.received - s.received
    ensures e.code == Ok ==> e.link.received > 0 && e.payload == PollReply(peer, h, e.link.received - 1)[1..]
    decreases retry
  {
    hide PollReply;
    hide Transact;
    hide Matches;
    hide AnswersPolls;
    if retry != 0 {
      var s' := PollOnce(peer, s, cmd, h, retry);
      if !MatchesAt(peer, cmd, h, s.received) {
        PollSearches(peer, s', cmd, h, retry - 1, e);
      }
    }
  }

  /**
   On a working link an exchange that has been acknowledged takes the first matching response if and only if it is
   among the first 99 polls, and issues one read request per response looked at, at most 100 in all.
   */
  lemma PollIsExact(peer: Peer, s: LinkState, cmd: seq<byte>, h: handle)
    requires AnswersPolls(peer, h) && s.open && |cmd| >= 9
    ensures var m, e := MatchingReads(peer, cmd, h), Poll(peer, s, cmd, h, FAST_RETRY_TIMES);
      && (e.code == Ok <==> exists n: nat :: s.received <= n < s.received + 99 && m(n))
      && (e.code != Ok ==> e.code == BleInternalCmdNoResponse)
      && |e.link.sent| - |s.sent| == e.link.received - s.received <= 100
      && (e.code == Ok ==>
            && e.link.received > 0
            && First(m, s.received, e.link.received - 1)
            && e.payload == PollReply(peer, h, e.link.received - 1)[1..])
  {
    hide Poll;
    hide PollReply;
    hide MatchesAt;
    hide Search;
    PollSearches(peer, s, cmd, h, FAST_RETRY_TIMES, Poll(peer, s, cmd, h, FAST_RETRY_TIMES));
    SearchIsExact(MatchingReads(peer, cmd, h), s.received, FAST_RETRY_TIMES);
  }
}
