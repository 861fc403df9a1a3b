/** The discovery client: which octets it sends, what it makes of the answers, and what it finds. */
module Discovery {
  import opened Types
  import opened AttServer
  import opened Link
  import opened CoreModules

  const MAX_UUID_LEN: nat := 16
  const READ_UUID: seq<byte> :=
    [0x23, 0xD1, 0x13, 0xEF, 0x5F, 0x78, 0x23, 0x15, 0xDE, 0xEF, 0x12, 0x12, 0x55, 0x47, 0x00, 0x00]
  const WRITE_UUID: seq<byte> :=
    [0x23, 0xD1, 0x13, 0xEF, 0x5F, 0x78, 0x23, 0x15, 0xDE, 0xEF, 0x12, 0x12, 0x56, 0x47, 0x00, 0x00]

  // ---------- Discovery over characteristics ----------

  /** The effect of one characteristic on what has been found. */
  function Learn(g: Gatt, c: Characteristic): Gatt {
    if c.uuid == READ_UUID then g.(readHandle := c.value, discovered := g.discovered + 1)
    else if c.uuid == WRITE_UUID then g.(writeHandle := c.value, discovered := g.discovered + 1)
    else g
  }

  function LearnAll(g: Gatt, cs: seq<Characteristic>): Gatt {
    if cs == [] then g else Learn(LearnAll(g, cs[..|cs| - 1]), cs[|cs| - 1])
  }

  /** A search for characteristic declarations with handles in `start..end`. */
  function SearchPdu(start: handle, end: handle): (pdu: seq<byte>) {
    [ATT_OP_READ_BY_TYPE_REQ, Low(start), High(start), Low(end), High(end),
     Low(GATT_CHARAC_UUID), High(GATT_CHARAC_UUID)]
  }

  /** The search the client makes: from `start` to the last handle there is. */
  function Request(start: handle): (pdu: seq<byte>) {
    SearchPdu(start, 0xFFFF)
  }

  /** The characteristics the answer to the n-th read brings when the client asks from position `i`. */
  function Batch(peer: Peer, n: nat, i: nat): (cs: seq<Characteristic>)
    requires i < |peer.server.chars|
    ensures 1 <= |cs| <= |peer.server.chars| - i && cs == peer.server.chars[i..i + |cs|]
    ensures |peer.server.chars[i].uuid| == 16 ==> |cs| == 1
    ensures forall j :: 0 <= j < |cs| ==> EntryLength(cs[j]) == EntryLength(cs[0])
  {
    FoundShape(peer.server, i, 0xFFFF, peer.extra(n));
    Found(peer.server, i, 0xFFFF, peer.extra(n))
  }

  /** What one request leads to: a lost link, the end of the search, or some characteristics. */
  datatype Outcome = Lost(code: DataCode) | Exhausted | Got(batch: seq<Characteristic>)

  /** The characteristics from `start` on begin with this batch, and those after it from its last value handle on. */
  predicate IsNext(cs: seq<Characteristic>, start: handle, batch: seq<Characteristic>) {
    && batch != [] && FirstFrom(cs, start) + |batch| <= |cs|
    && batch == cs[FirstFrom(cs, start)..FirstFrom(cs, start) + |batch|]
    && batch[|batch| - 1].value > 0
    && FirstFrom(cs, batch[|batch| - 1].value) == FirstFrom(cs, start) + |batch|
  }

  lemma BatchIsNext(peer: Peer, n: nat, start: handle)
    requires FirstFrom(peer.server.chars, start) < |peer.server.chars|
    ensures IsNext(peer.server.chars, start, Batch(peer, n, FirstFrom(peer.server.chars, start)))
  {
    var i := FirstFrom(peer.server.chars, start);
    var batch := Batch(peer, n, i);
    hide Batch;
    NextFrom(peer.server, i + |batch| - 1);
    assert batch[|batch| - 1] == peer.server.chars[i + |batch| - 1];
    assert WellFormed(peer.server.chars[i + |batch| - 1]);
  }

  /** What the answer to the n-th read brings. */
  function Brought(peer: Peer, n: nat, start: handle): (o: Outcome)
    ensures !o.Lost?
    ensures o.Got? ==> IsNext(peer.server.chars, start, o.batch)
  {
    var i := FirstFrom(peer.server.chars, start);
    if i == |peer.server.chars| then Exhausted
    else
      BatchIsNext(peer, n, start);
      Got(Batch(peer, n, i))
  }

  function AskFrom(peer: Peer, s: LinkState, start: handle): (r: (Outcome, LinkState))
    requires start > 0
    ensures r.0.Got? ==> IsNext(peer.server.chars, start, r.0.batch)
  {
    var t := Transact(peer, s, Request(start));
    (if t.code == Ok then Brought(peer, s.received, start) else Lost(t.code), t.link)
  }

  datatype Result = Result(code: DataCode, found: Gatt, link: LinkState)

  /** Discovery from handle `start` on, told over characteristics instead of octets. */
  function Discover(peer: Peer, s: LinkState, g: Gatt, start: handle): Result
    requires start > 0
    decreases |peer.server.chars| - FirstFrom(peer.server.chars, start)
  {
    match AskFrom(peer, s, start)
    case (Lost(code), s') => Result(code, g, s')
    case (Exhausted, s') => Result(Ok, g, s')
    case (Got(batch), s') => Discover(peer, s', LearnAll(g, batch), batch[|batch| - 1].value)
  }

  // ---------- The octets of one answer ----------

  /** The server reads the octets of a search as a search between the same two handles. */
  lemma SearchIsUnderstood(server: ConformingServer, start: handle, end: handle, extra: nat)
    ensures Respond(server, SearchPdu(start, end), extra) == Answer(server, start, end, extra)
  {
    JoinSplit(start);
    JoinSplit(end);
    JoinSplit(GATT_CHARAC_UUID);
  }

  /** The reply to a discovery request that meets no fault. */
  lemma ReplyIs(peer: Peer, n: nat, start: handle)
    requires start > 0 && peer.readOk(n)
    ensures var cs, i := peer.server.chars, FirstFrom(peer.server.chars, start);
      Reply(peer, n, Request(start)) ==
        if i == |cs| then ErrorResponse(ATT_OP_READ_BY_TYPE_REQ, start, ATT_ECODE_ATTR_NOT_FOUND)
        else [ATT_OP_READ_BY_TYPE_RESP, EntryLength(cs[i])] + Entries(Batch(peer, n, i))
  {
    SearchIsUnderstood(peer.server, start, 0xFFFF, peer.extra(n));
    var i := FirstFrom(peer.server.chars, start);
    if i < |peer.server.chars| {
      FoundShape(peer.server, i, 0xFFFF, peer.extra(n));
    }
  }

  /** Short UUIDs are never the ones looked for. */
  lemma {:induction false} ShortTeachNothing(g: Gatt, cs: seq<Characteristic>)
    requires forall j :: 0 <= j < |cs| ==> |cs[j].uuid| != MAX_UUID_LEN
    ensures LearnAll(g, cs) == g
  {
    if cs != [] {
      ShortTeachNothing(g, cs[..|cs| - 1]);
    }
  }

  lemma FirstItem(head: seq<byte>, items: seq<byte>, c: Characteristic, length: nat, reply: seq<byte>)
    requires |head| == 2 && |items| >= length == EntryLength(c) && items[..length] == Entry(c) && reply == head + items
    ensures reply[5] == Low(c.value) && reply[6] == High(c.value) && reply[7..2 + length] == c.uuid
  {
    assert items[3] == Entry(c)[3] && items[4] == Entry(c)[4];
    assert reply[7..2 + length] == items[..length][5..];
  }

  lemma LastItem(head: seq<byte>, items: seq<byte>, c: Characteristic, length: nat, reply: seq<byte>)
    requires |head| == 2 && |items| >= length == EntryLength(c) && items[|items| - length..] == Entry(c)
    requires reply == head + items
    ensures reply[|reply| - length + 3] == Low(c.value) && reply[|reply| - length + 4] == High(c.value)
  {
    var from := |items| - length;
    assert items[from + 3] == items[from..][3] && items[from + 4] == items[from..][4];
  }

  /** The first item of an answer at its fixed offsets, and the last item counted from the end. */
  lemma AnswerLayout(cs: seq<Characteristic>, block: byte, reply: seq<byte>)
    requires cs != [] && forall j :: 0 <= j < |cs| ==> EntryLength(cs[j]) == block
    requires reply == [ATT_OP_READ_BY_TYPE_RESP, block] + Entries(cs)
    ensures 2 + block <= |reply| && reply[0] == ATT_OP_READ_BY_TYPE_RESP && reply[1] == block
    ensures reply[5] == Low(cs[0].value) && reply[6] == High(cs[0].value) && reply[7..2 + block] == cs[0].uuid
    ensures reply[|reply| - block + 3] == Low(cs[|cs| - 1].value)
    ensures reply[|reply| - block + 4] == High(cs[|cs| - 1].value)
  {
    hide *;
    EntriesEnds(cs, block);
    var head := [ATT_OP_READ_BY_TYPE_RESP, block];
    FirstItem(head, Entries(cs), cs[0], block, reply);
    LastItem(head, Entries(cs), cs[|cs| - 1], block, reply);
  }

  lemma LearnBatch(peer: Peer, n: nat, i: nat, g: Gatt)
    requires i < |peer.server.chars|
    ensures var batch := Batch(peer, n, i);
      LearnAll(g, batch) == if |batch[0].uuid| == MAX_UUID_LEN then Learn(g, batch[0]) else g
  {
    var batch := Batch(peer, n, i);
    if |batch[0].uuid| == MAX_UUID_LEN {
      assert batch == [batch[0]];
      assert LearnAll(g, batch) == Learn(LearnAll(g, []), batch[0]);
    } else {
      ShortTeachNothing(g, batch);
    }
  }

  // ---------- The client ----------

  method EncDiscoverCmd(start: handle, end: handle, buf: array<byte>) returns (length: nat)
    requires buf.Length == MAX_BLE_PACKET_LEN
    modifies buf
    ensures length == 7 && buf[..length] == SearchPdu(start, end)
    ensures buf[..7] == [0x08, start % 256, start / 256, end % 256, end / 256, 0x03, 0x28]
  {
    buf[0] := ATT_OP_READ_BY_TYPE_REQ;
    buf[1] := Low(start);
    buf[2] := High(start);
    buf[3] := Low(end);
    buf[4] := High(end);
    buf[5] := Low(GATT_CHARAC_UUID);
    buf[6] := High(GATT_CHARAC_UUID);
    length := 7;
  }

  /** What the client reads out of one good answer that brings `batch`. */
  ghost predicate Understood(batch: seq<Characteristic>, g: Gatt, data: seq<byte>, received: nat)
    requires batch != []
  {
    var block := EntryLength(batch[0]);
    && block in {0x07, 0x15} && 2 + block <= received <= |data| && |data| == MAX_BLE_PACKET_LEN
    && data[0] == ATT_OP_READ_BY_TYPE_RESP && data[1] == block
    && Join(data[received - block + 3], data[received - block + 4]) == batch[|batch| - 1].value
    && (block == 0x15 ==> Join(data[5], data[6]) == batch[0].value && data[7..7 + MAX_UUID_LEN] == batch[0].uuid)
    && LearnAll(g, batch) == if block == 0x15 then Learn(g, batch[0]) else g
  }

  lemma AnswerUnderstood(peer: Peer, n: nat, start: handle, g: Gatt, data: seq<byte>, received: nat)
    requires start > 0 && peer.readOk(n) && received <= |data| == MAX_BLE_PACKET_LEN
    requires data[..received] == Reply(peer, n, Request(start))
    ensures var i := FirstFrom(peer.server.chars, start);
      if i == |peer.server.chars| then received > 0 && data[0] == 0x01
      else Understood(Batch(peer, n, i), g, data, received)
  {
    var cs, i := peer.server.chars, FirstFrom(peer.server.chars, start);
    ReplyIs(peer, n, start);
    hide Reply;
    hide Entries;
    hide LearnAll;
    var reply := data[..received];
    if i == |cs| {
      assert data[0] == reply[0];
    } else {
      var batch := Batch(peer, n, i);
      AnswerLayout(batch, EntryLength(cs[i]), reply);
      LearnBatch(peer, n, i, g);
      JoinSplit(batch[0].value);
      JoinSplit(batch[|batch| - 1].value);
      if EntryLength(cs[i]) == 0x15 {
        assert data[7..7 + MAX_UUID_LEN] == reply[7..2 + 0x15];
      }
    }
  }

  /** Sends one request and waits for the answer, in a buffer cleared beforehand. */
  method Ask(sock: Socket, start: handle, buf: array<byte>, readBuf: array<byte>, ghost g: Gatt)
    returns (code: DataCode, received: nat)
    requires buf.Length == readBuf.Length == MAX_BLE_PACKET_LEN && buf != readBuf && start > 0
    modifies sock, buf, readBuf
    ensures sock.state == AskFrom(sock.peer, old(sock.state), start).1
    ensures match AskFrom(sock.peer, old(sock.state), start).0
            case Lost(c) => code == c && code != Ok
            case Exhausted => code == Ok && readBuf[0] == ATT_OP_ERROR
            case Got(batch) => code == Ok && Understood(batch, g, readBuf[..], received)
  {
    var length := EncDiscoverCmd(start, 0xFFFF, buf);
    ghost var n := sock.state.received;
    TransactMeaning(sock.peer, sock.state, Request(start));
    code, received := sock.WriteThenRead(buf[..length], readBuf);
    if code == Ok {
      AnswerUnderstood(sock.peer, n, start, g, readBuf[..], received);
    }
  }

  /** Reads one answer: keeps the handle of the first item if its UUID is known, and the last value handle. */
  method TakeAnswer(cm: CoreModule, readBuf: array<byte>, received: nat, ghost batch: seq<Characteristic>)
    returns (code: DataCode, done: bool, start: handle)
    requires readBuf.Length == MAX_BLE_PACKET_LEN && batch != []
    requires Understood(batch, cm.Found(), readBuf[..], received)
    modifies cm`readHandle, cm`writeHandle, cm`discovered
    ensures code == Ok && !done
    ensures cm.Found() == LearnAll(old(cm.Found()), batch) && start == batch[|batch| - 1].value
  {
    code, done, start := BleReadErr, true, 0x0001;
    var block := readBuf[1];
    if (received - 2) / block >= 1 {
      if block - 5 == MAX_UUID_LEN {
        if readBuf[7..7 + MAX_UUID_LEN] == READ_UUID {
          cm.readHandle := Join(readBuf[5], readBuf[6]);
          cm.discovered := cm.discovered + 1;
        } else if readBuf[7..7 + MAX_UUID_LEN] == WRITE_UUID {
          cm.writeHandle := Join(readBuf[5], readBuf[6]);
          cm.discovered := cm.discovered + 1;
        }
      }
      if block == 0x07 {
        code, done, start := Ok, false, Join(readBuf[received - 4], readBuf[received - 3]);
      } else if block == 0x15 {
        code, done := Ok, false;
        start := Join(readBuf[received - MAX_UUID_LEN - 2], readBuf[received - MAX_UUID_LEN - 1]);
      } else if block == 0x08 {
        code := Ok;
      }
    }
  }

  /** The octet-level client finds what discovery over characteristics finds, whatever the peer's packing and faults. */
  method DicoverChar(cm: CoreModule, sock: Socket) returns (code: DataCode)
    modifies cm`readHandle, cm`writeHandle, cm`discovered, sock
    ensures Discover(sock.peer, old(sock.state), old(cm.Found()), 1) == Result(code, cm.Found(), sock.state)
  {
    hide AskFrom;
    hide Understood;
    hide LearnAll;
    hide FirstFrom;
    var buf := new byte[MAX_BLE_PACKET_LEN](_ => 0);
    var readBuf := new byte[MAX_BLE_PACKET_LEN](_ => 0);
    var start: handle := 0x0001;
    ghost var cs := sock.peer.server.chars;

    while readBuf[0] != ATT_OP_ERROR
      invariant readBuf[0] != ATT_OP_ERROR && start > 0
      invariant Discover(sock.peer, old(sock.state), old(cm.Found()), 1) ==
                Discover(sock.peer, sock.state, cm.Found(), start)
      decreases |cs| - FirstFrom(cs, start)
    {
      ghost var outcome := AskFrom(sock.peer, sock.state, start).0;
      var received: nat;
      code, received := Ask(sock, start, buf, readBuf, cm.Found());
      if code != Ok {
        return code;
      }
      if readBuf[0] == ATT_OP_ERROR {
        return Ok;
      }
      var done: bool;
      code, done, start := TakeAnswer(cm, readBuf, received, outcome.batch);
      if done {
        return code;
      }
    }
    code := Ok;
  }
}
