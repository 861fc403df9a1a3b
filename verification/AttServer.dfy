/**
 A conforming attribute server, as seen by a client that looks for characteristics: Bluetooth Core Specification
 v5.3, Vol 3 Part F sections 3.4.1.1, 3.4.4.1 and 3.4.4.2, and Vol 3 Part G sections 3.3.1 and 4.6.1.
 */
module AttServer {
  import opened Types

  /** An attribute handle. */
  type handle = h: nat | h < 65536

  const MAX_BLE_PACKET_LEN: nat := 40
  const ATT_OP_ERROR: byte := 0x01
  const ATT_OP_READ_BY_TYPE_REQ: byte := 0x08
  const ATT_OP_READ_BY_TYPE_RESP: byte := 0x09
  const ATT_ECODE_INVALID_HANDLE: byte := 0x01
  const ATT_ECODE_REQ_NOT_SUPP: byte := 0x06
  const ATT_ECODE_ATTR_NOT_FOUND: byte := 0x0A
  const GATT_CHARAC_UUID: handle := 0x2803

  function Low(h: handle): byte { h % 256 }

  function High(h: handle): byte { h / 256 }

  function Join(low: byte, high: byte): handle { high * 256 + low }

  /** A characteristic declaration: its own handle, and the properties, value handle and UUID it holds. */
  datatype Characteristic = Characteristic(decl: handle, properties: byte, value: handle, uuid: seq<byte>)

  /** `mtu` is the longest PDU the server sends; a client that never negotiates gets the default of 23. */
  datatype AnyServer = Server(chars: seq<Characteristic>, mtu: nat)

  /** A value follows its declaration; UUIDs have 16 or 128 bits. */
  predicate WellFormed(c: Characteristic) {
    0 < c.decl < c.value && |c.uuid| in {2, 16}
  }

  predicate Before(c: Characteristic, d: Characteristic) {
    c.value < d.decl
  }

  /** The declarations are in handle order and each value comes before the next declaration. */
  ghost predicate Conforming(s: AnyServer) {
    && 23 <= s.mtu <= MAX_BLE_PACKET_LEN
    && (forall i :: 0 <= i < |s.chars| ==> WellFormed(s.chars[i]))
    && (forall i, j :: 0 <= i < j < |s.chars| ==> Before(s.chars[i], s.chars[j]))
  }

  type ConformingServer = s: AnyServer | Conforming(s) witness Server([], 23)

  function EntryLength(c: Characteristic): nat { 5 + |c.uuid| }

  /** One item of the attribute data list: the handle, then the value of the declaration. */
  function Entry(c: Characteristic): (e: seq<byte>)
    ensures |e| == EntryLength(c)
  {
    [Low(c.decl), High(c.decl), c.properties, Low(c.value), High(c.value)] + c.uuid
  }

  function Entries(cs: seq<Characteristic>): seq<byte> {
    if cs == [] then [] else Entry(cs[0]) + Entries(cs[1..])
  }

  /** The number of declarations below `start`, which is the position of the first one at or above it. */
  function FirstFrom(cs: seq<Characteristic>, start: handle): (i: nat)
    ensures i <= |cs|
  {
    if cs == [] || cs[0].decl >= start then 0 else 1 + FirstFrom(cs[1..], start)
  }

  /** How many leading items of `length` octets go in one answer, when the server would like to send `want`. */
  function Packed(cs: seq<Characteristic>, end: handle, length: nat, room: int, want: nat): (k: nat)
    ensures k <= |cs| && k <= want
    ensures forall j :: 0 <= j < k ==> EntryLength(cs[j]) == length && cs[j].decl <= end
  {
    if cs == [] || want == 0 || EntryLength(cs[0]) != length || room < length || cs[0].decl > end then 0
    else 1 + Packed(cs[1..], end, length, room - length, want - 1)
  }

  function ErrorResponse(request: byte, h: handle, code: byte): seq<byte> {
    [ATT_OP_ERROR, request, Low(h), High(h), code]
  }

  /** The items the server sends for the declarations from position `i` up to handle `end`. */
  function Found(s: ConformingServer, i: nat, end: handle, extra: nat): seq<Characteristic>
    requires i < |s.chars|
  {
    s.chars[i..i + Packed(s.chars[i..], end, EntryLength(s.chars[i]), s.mtu - 2, 1 + extra)]
  }

  /** The answer to a search for characteristic declarations with handles in `start..end`. */
  function Answer(s: ConformingServer, start: handle, end: handle, extra: nat): seq<byte> {
    if start == 0 || start > end then ErrorResponse(ATT_OP_READ_BY_TYPE_REQ, start, ATT_ECODE_INVALID_HANDLE)
    else
      var i := FirstFrom(s.chars, start);
      if i == |s.chars| || s.chars[i].decl > end then
        ErrorResponse(ATT_OP_READ_BY_TYPE_REQ, start, ATT_ECODE_ATTR_NOT_FOUND)
      else [ATT_OP_READ_BY_TYPE_RESP, EntryLength(s.chars[i])] + Entries(Found(s, i, end, extra))
  }

  /** The answer to a request PDU; `extra` is the number of items the server would like to send beyond the first. */
  function Respond(s: ConformingServer, pdu: seq<byte>, extra: nat): seq<byte> {
    if |pdu| == 7 && pdu[0] == ATT_OP_READ_BY_TYPE_REQ && Join(pdu[5], pdu[6]) == GATT_CHARAC_UUID then
      Answer(s, Join(pdu[1], pdu[2]), Join(pdu[3], pdu[4]), extra)
    else ErrorResponse(if pdu == [] then 0 else pdu[0], 0, ATT_ECODE_REQ_NOT_SUPP)
  }

  /** The answers of the server octet by octet: the error that nothing is left, or the header and the first item. */
  lemma AnswerOctets(s: ConformingServer, start: handle, end: handle, extra: nat)
    requires 0 < start <= end
    ensures var i, answer := FirstFrom(s.chars, start), Answer(s, start, end, extra);
      if i == |s.chars| || s.chars[i].decl > end then answer == [0x01, 0x08, start % 256, start / 256, 0x0A]
      else
        var c := s.chars[i];
        var item := [c.decl % 256, c.decl / 256, c.properties, c.value % 256, c.value / 256] + c.uuid;
        [0x09, |item|] + item <= answer
  {
    var i := FirstFrom(s.chars, start);
    if i < |s.chars| && s.chars[i].decl <= end {
      FoundShape(s, i, end, extra);
      assert Found(s, i, end, extra)[0] == s.chars[i];
    }
  }

  // ---------- What a client finds in the octets ----------

  lemma JoinSplit(h: handle)
    ensures Join(Low(h), High(h)) == h
  {
  }

  lemma Ends(first: seq<byte>, rest: seq<byte>, length: nat)
    requires |first| == length <= |rest|
    ensures (first + rest)[..length] == first
    ensures (first + rest)[|first + rest| - length..] == rest[|rest| - length..]
  {
  }

  lemma EntriesSplit(cs: seq<Characteristic>)
    requires cs != []
    ensures Entries(cs) == Entry(cs[0]) + Entries(cs[1..]) && (|cs| == 1 ==> Entries(cs[1..]) == [])
  {
  }

  /** With items of one length, the list starts with the first item and ends with the last. */
  lemma {:induction false} EntriesEnds(cs: seq<Characteristic>, length: nat)
    requires cs != [] && forall j :: 0 <= j < |cs| ==> EntryLength(cs[j]) == length
    ensures |Entries(cs)| >= length
    ensures Entries(cs)[..length] == Entry(cs[0])
    ensures Entries(cs)[|Entries(cs)| - length..] == Entry(cs[|cs| - 1])
  {
    hide Entry;
    hide EntryLength;
    EntriesSplit(cs);
    hide Entries;
    var first, rest := Entry(cs[0]), Entries(cs[1..]);
    if |cs| > 1 {
      assert forall j :: 0 <= j < |cs[1..]| ==> cs[1..][j] == cs[j + 1];
      EntriesEnds(cs[1..], length);
      Ends(first, rest, length);
    } else {
      assert Entries(cs) == first;
    }
  }

  lemma {:induction false} EntriesFit(cs: seq<Characteristic>, end: handle, length: nat, room: int, want: nat)
    requires room >= 0
    ensures |Entries(cs[..Packed(cs, end, length, room, want)])| <= room
    decreases |cs|
  {
    var k := Packed(cs, end, length, room, want);
    if k > 0 {
      EntriesFit(cs[1..], end, length, room - length, want - 1);
      assert cs[..k][1..] == cs[1..][..k - 1];
    }
  }

  /** An item with a 128-bit UUID travels alone: two of them do not fit in any PDU the client can read. */
  lemma FoundShape(s: ConformingServer, i: nat, end: handle, extra: nat)
    requires i < |s.chars| && s.chars[i].decl <= end
    ensures var f := Found(s, i, end, extra);
      && 1 <= |f| <= |s.chars| - i && f == s.chars[i..i + |f|]
      && (|s.chars[i].uuid| == 16 ==> |f| == 1)
      && (forall j :: 0 <= j < |f| ==> EntryLength(f[j]) == EntryLength(s.chars[i]))
      && |Entries(f)| <= s.mtu - 2
  {
    var cs, length := s.chars[i..], EntryLength(s.chars[i]);
    assert cs[0] == s.chars[i];
    if |s.chars[i].uuid| == 16 {
      assert Packed(cs[1..], end, length, s.mtu - 2 - length, extra) == 0;
    }
    EntriesFit(cs, end, length, s.mtu - 2, 1 + extra);
    assert Found(s, i, end, extra) == cs[..Packed(cs, end, length, s.mtu - 2, 1 + extra)];
  }

  lemma {:induction false} FirstFromIs(cs: seq<Characteristic>, start: handle, i: nat)
    requires i <= |cs| && (forall j :: 0 <= j < i ==> cs[j].decl < start) && (i < |cs| ==> start <= cs[i].decl)
    ensures FirstFrom(cs, start) == i
    decreases i
  {
    if i > 0 {
      FirstFromIs(cs[1..], start, i - 1);
    }
  }

  /** Asking again from a value handle skips exactly the declarations up to that value. */
  lemma NextFrom(s: ConformingServer, last: nat)
    requires last < |s.chars|
    ensures FirstFrom(s.chars, s.chars[last].value) == last + 1
  {
    forall j | 0 <= j <= last ensures s.chars[j].decl < s.chars[last].value {
      assert WellFormed(s.chars[j]);
      assert j < last ==> Before(s.chars[j], s.chars[last]);
    }
    assert last + 1 < |s.chars| ==> Before(s.chars[last], s.chars[last + 1]);
    FirstFromIs(s.chars, s.chars[last].value, last + 1);
  }
}
