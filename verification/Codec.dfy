/** The small codecs: byte-sum checksum, probe command frame, hexadecimal digits. */
module Codec {
  import opened Types

  // ---------- Checksum and command frame ----------

  function Sum(s: seq<byte>): nat {
    if s == [] then 0 else Sum(s[..|s| - 1]) + s[|s| - 1]
  }

  /**
   The sum of the first `length` octets modulo 256. The 8-bit counter never passes `length` and the accumulator stays
   far below the range of a 32-bit int.
   */
  method CalChecksum(value: array<byte>, length: byte) returns (checksum: byte)
    requires length <= value.Length
    ensures checksum == Sum(value[..length]) % 256
  {
    var i: byte := 0;
    var sum: int := 0;
    while i < length
      invariant i <= length && sum == Sum(value[..i])
      invariant sum <= 255 * i <= 255 * 255 < 0x7FFF_FFFF
    {
      assert value[..i + 1][..i] == value[..i];
      sum := sum + value[i];
      i := i + 1;
    }
    checksum := sum % 256;
  }

  const READ_TEMP_LEN: byte := 10
  const RS485_CHANNEL_HEX: byte := 0x03
  const READ_TEMP_HEX: byte := 0x01
  const MAX_RS485_ADDR_LEN: nat := 6

  /** What a probe accepts: the channel, the length of what follows, a matching sum. */
  predicate ValidFrame(f: seq<byte>) {
    |f| == READ_TEMP_LEN && f[0] == RS485_CHANNEL_HEX && f[1] == READ_TEMP_LEN - 2
    && f[READ_TEMP_LEN - 1] == Sum(f[..READ_TEMP_LEN - 1]) % 256
  }

  /** The read-temperature command for the probe at `addr`. */
  function Frame(addr: seq<byte>): (f: seq<byte>)
    requires |addr| == MAX_RS485_ADDR_LEN
    ensures ValidFrame(f) && f[2] == READ_TEMP_HEX && f[3..9] == addr
  {
    var body := [RS485_CHANNEL_HEX, READ_TEMP_LEN - 2, READ_TEMP_HEX] + addr;
    assert (body + [Sum(body) % 256])[..READ_TEMP_LEN - 1] == body;
    body + [Sum(body) % 256]
  }

  function Six(addr: seq<byte>): int
    requires |addr| == 6
  {
    addr[0] as int + addr[1] as int + addr[2] as int + addr[3] as int + addr[4] as int + addr[5] as int
  }

  lemma SumSnoc(s: seq<byte>, n: nat)
    requires n < |s|
    ensures Sum(s[..n + 1]) == Sum(s[..n]) + s[n] as int
  {
    assert s[..n + 1][..n] == s[..n];
  }

  lemma SumOfNine(body: seq<byte>, addr: seq<byte>)
    requires |addr| == 6 && body == [0x03, 0x08, 0x01] + addr
    ensures Sum(body) == 0x0C + Six(addr)
  {
    hide Sum;
    SumSnoc(body, 0);
    SumSnoc(body, 1);
    SumSnoc(body, 2);
    SumSnoc(body, 3);
    SumSnoc(body, 4);
    SumSnoc(body, 5);
    SumSnoc(body, 6);
    SumSnoc(body, 7);
    SumSnoc(body, 8);
    assert body[..0] == [] && body[..9] == body;
    NothingSummed();
  }

  lemma NothingSummed()
    ensures Sum([]) == 0
  {
  }

  method GetBleCmdTempProbe(addr: seq<byte>, bleCmd: array<byte>) returns (length: nat)
    requires |addr| == MAX_RS485_ADDR_LEN && bleCmd.Length >= READ_TEMP_LEN
    modifies bleCmd
    ensures length == READ_TEMP_LEN && bleCmd[..length] == Frame(addr)
    ensures length == 10 && bleCmd[..3] == [0x03, 0x08, 0x01] && bleCmd[3..9] == addr
    ensures bleCmd[9] == (0x0C + Six(addr)) % 256
  {
    length := READ_TEMP_LEN;
    bleCmd[0] := RS485_CHANNEL_HEX;
    bleCmd[1] := READ_TEMP_LEN - 2;
    bleCmd[2] := READ_TEMP_HEX;
    forall i | 0 <= i < MAX_RS485_ADDR_LEN {
      bleCmd[3 + i] := addr[i];
    }
    assert bleCmd[..9] == Frame(addr)[..9];
    var checksum := CalChecksum(bleCmd, READ_TEMP_LEN - 1);
    bleCmd[READ_TEMP_LEN - 1] := checksum;
    SumOfNine([0x03, 0x08, 0x01] + addr, addr);
    assert bleCmd[..length] == bleCmd[..9] + [checksum];
  }

  lemma {:induction false} SumUpdate(s: seq<byte>, i: nat, b: byte)
    requires i < |s|
    ensures Sum(s[i := b]) == Sum(s) - s[i] + b
    decreases |s|
  {
    var n := |s| - 1;
    if i < n {
      SumUpdate(s[..n], i, b);
      assert s[i := b][..n] == s[..n][i := b];
    } else {
      assert s[i := b][..n] == s[..n];
    }
  }

  /** Commands for two addresses that differ in one octet have different checksums. */
  lemma OneOctetChangesChecksum(addr: seq<byte>, i: nat, b: byte)
    requires |addr| == MAX_RS485_ADDR_LEN && i < |addr| && addr[i] != b
    ensures Frame(addr)[9] != Frame(addr[i := b])[9]
  {
    var f, g := Frame(addr), Frame(addr[i := b]);
    SumUpdate(f[..9], 3 + i, b);
    assert f[3..9][i] == addr[i];
    assert g[..9] == f[..9][3 + i := b];
  }

  // ---------- Hexadecimal ----------

  predicate IsUpperHex(c: byte) { 0x30 <= c <= 0x39 || 0x41 <= c <= 0x46 }

  /** The lower bound of the second range is decimal 41, not 0x41: characters from `)` to `@` are shifted too. */
  function SingleChar2Hex(c: byte): byte {
    if 0x30 <= c <= 0x39 then c - 0x30
    else if 41 <= c <= 0x46 then (c - 0x37) % 256
    else c
  }

  function Char2Hex(data: seq<byte>, start: byte): byte
    requires start + 1 < |data|
  {
    (SingleChar2Hex(data[start]) * 16 + SingleChar2Hex(data[start + 1])) % 256
  }

  function Char2Hex16(data: seq<byte>, start: byte): (r: nat)
    requires start + 3 < |data|
  {
    (SingleChar2Hex(data[start]) * 4096 + SingleChar2Hex(data[start + 1]) * 256
     + SingleChar2Hex(data[start + 2]) * 16 + SingleChar2Hex(data[start + 3])) % 65536
  }

  function Pair(high: byte, low: byte): nat { high * 256 + low }

  function NibbleToHexCharacter(nibble: byte): byte
    requires nibble < 16
  {
    if nibble < 10 then 0x30 + nibble else 0x41 + nibble - 10
  }

  /** The two digits of an octet. */
  function HexDigits(b: byte): seq<byte> {
    [NibbleToHexCharacter(b / 16), NibbleToHexCharacter(b % 16)]
  }

  method Hex2Char(b: byte, out: array<byte>)
    requires out.Length >= 2
    modifies out
    ensures out[..2] == HexDigits(b) && out[2..] == old(out[2..])
    ensures out[0] == if b < 0xA0 then 0x30 + b / 16 else 0x37 + b / 16
    ensures out[1] == if b % 16 < 10 then 0x30 + b % 16 else 0x37 + b % 16
    ensures Char2Hex(out[..2], 0) == b
  {
    DigitsAre(b);
    DigitsPair(b);
    hide *;
    out[0] := NibbleToHexCharacter(b / 16);
    out[1] := NibbleToHexCharacter(b % 16);
    assert out[..2] == HexDigits(b);
  }

  lemma DigitsAre(b: byte)
    ensures HexDigits(b) == [NibbleToHexCharacter(b / 16), NibbleToHexCharacter(b % 16)]
    ensures NibbleToHexCharacter(b / 16) == if b < 0xA0 then 0x30 + b / 16 else 0x37 + b / 16
    ensures NibbleToHexCharacter(b % 16) == if b % 16 < 10 then 0x30 + b % 16 else 0x37 + b % 16
  {
  }

  lemma DigitsPair(b: byte)
    ensures Char2Hex(HexDigits(b), 0) == b
  {
    DigitsDecode(b);
    hide SingleChar2Hex;
    hide NibbleToHexCharacter;
  }

  function HexText(bs: seq<byte>): (t: seq<byte>)
    ensures |t| == 2 * |bs|
  {
    if bs == [] then [] else HexDigits(bs[0]) + HexText(bs[1..])
  }

  lemma {:induction false} HexTextAt(bs: seq<byte>, i: nat)
    requires i < |bs|
    ensures HexText(bs)[2 * i..2 * i + 2] == HexDigits(bs[i])
    decreases |bs|
  {
    if i > 0 {
      HexTextAt(bs[1..], i - 1);
      assert HexText(bs)[2 * i..2 * i + 2] == HexText(bs[1..])[2 * (i - 1)..2 * (i - 1) + 2];
    }
  }

  lemma DigitsDecode(b: byte)
    ensures SingleChar2Hex(NibbleToHexCharacter(b / 16)) == b / 16
    ensures SingleChar2Hex(NibbleToHexCharacter(b % 16)) == b % 16
  {
  }

  ghost predicate Holds(t: seq<byte>, p: nat, b: byte) {
    p + 1 < |t| && SingleChar2Hex(t[p]) == b / 16 && SingleChar2Hex(t[p + 1]) == b % 16
  }

  lemma DigitsJoin(t: seq<byte>, p: byte, b: byte)
    requires Holds(t, p, b)
    ensures Char2Hex(t, p) == b
  {
  }

  lemma DigitsJoinTwice(t: seq<byte>, p: byte, b: byte, c: byte)
    requires Holds(t, p, b) && Holds(t, p + 2, c)
    ensures Char2Hex16(t, p) == Pair(b, c)
  {
  }

  lemma DigitsAt(bs: seq<byte>, i: nat)
    requires i < |bs|
    ensures Holds(HexText(bs), 2 * i, bs[i])
  {
    HexTextAt(bs, i);
    DigitsDecode(bs[i]);
    var two := HexText(bs)[2 * i..2 * i + 2];
    assert HexText(bs)[2 * i] == two[0] && HexText(bs)[2 * i + 1] == two[1];
  }

  lemma PairIs(bs: seq<byte>, i: nat)
    requires i < |bs|
    ensures i + 1 < |bs| ==> Pair(bs[i], bs[i + 1]) == 256 * (bs[i] as int) + bs[i + 1] as int
  {
  }

  /** Decoding the digits of any octets gives them back, singly and in pairs, wherever the 8-bit position can point. */
  lemma HexRoundTrip(bs: seq<byte>, i: nat)
    requires i < |bs| && 2 * i < 256
    ensures Char2Hex(HexText(bs), 2 * i) == bs[i]
    ensures i + 1 < |bs| ==> Char2Hex16(HexText(bs), 2 * i) == 256 * (bs[i] as int) + bs[i + 1] as int
  {
    PairIs(bs, i);
    hide *;
    DigitsAt(bs, i);
    DigitsJoin(HexText(bs), 2 * i, bs[i]);
    if i + 1 < |bs| {
      DigitsAt(bs, i + 1);
      assert 2 * (i + 1) == 2 * i + 2;
      DigitsJoinTwice(HexText(bs), 2 * i, bs[i], bs[i + 1]);
    }
  }

  lemma NibbleIsUpper(nibble: byte)
    requires nibble < 16
    ensures IsUpperHex(NibbleToHexCharacter(nibble))
  {
  }

  lemma UpperDigit(c: byte)
    requires IsUpperHex(c)
    ensures SingleChar2Hex(c) < 16 && NibbleToHexCharacter(SingleChar2Hex(c)) == c
  {
  }

  lemma JoinNibbles(high: byte, low: byte)
    requires high < 16 && low < 16
    ensures (high * 16 + low) % 256 / 16 == high && (high * 16 + low) % 256 % 16 == low
  {
  }

  /** Two characters survive decoding and encoding exactly when both are upper-case hexadecimal digits. */
  lemma HexDecodesExactly(x: byte, y: byte)
    ensures HexDigits(Char2Hex([x, y], 0)) == [x, y] <==> IsUpperHex(x) && IsUpperHex(y)
  {
    hide SingleChar2Hex;
    hide NibbleToHexCharacter;
    hide IsUpperHex;
    var b := Char2Hex([x, y], 0);
    NibbleIsUpper(b / 16);
    NibbleIsUpper(b % 16);
    if IsUpperHex(x) && IsUpperHex(y) {
      UpperDigit(x);
      UpperDigit(y);
      JoinNibbles(SingleChar2Hex(x), SingleChar2Hex(y));
    } else {
      assert HexDigits(b)[0] != x || HexDigits(b)[1] != y;
    }
  }
}
