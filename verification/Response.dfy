/**
 What the program reads as the answer to a PUT. The octets received are laid over a buffer that nobody clears, and three
 texts are searched in the result up to its first zero octet; how many octets were received is not looked at.
 */
module Response {
  import opened Types
  import opened Stream
  import opened UploadMachine

  const RECEIVE_TIMEOUT: real := 0.5

  function Octets(s: string): (o: seq<byte>)
    ensures |o| == |s|
  {
    seq(|s|, i requires 0 <= i < |s| => s[i] as int % 256)
  }

  const STATUS_OK: seq<byte> := Octets("HTTP/1.1 200 OK")
  const DATE: seq<byte> := Octets("Date:")
  const JSON_START: seq<byte> := Octets("{")

  /** The text in a buffer: what comes before the first zero octet. */
  function Text(buffer: seq<byte>): seq<byte> {
    if buffer == [] || buffer[0] == 0 then [] else [buffer[0]] + Text(buffer[1..])
  }

  predicate LooksStored(buffer: seq<byte>) {
    Occurs(Text(buffer), STATUS_OK) && Occurs(Text(buffer), DATE) && Occurs(Text(buffer), JSON_START)
  }

  /**
   Everything that may happen to one PUT: whether the cloud stores it, whether the request can be built and the socket
   be connected, what the receive loop sees from time `begin` on, and what the response buffer holds beforehand.
   */
  datatype AnyAnswer = Answer(
    stored: bool, built: bool, connected: bool, begin: real, script: seq<Poll>, stale: seq<byte>)
  {
    function Received(): Receiving { Stream.Received(RECEIVE_TIMEOUT, begin, script) }

    /** The receive loop ends, and what it receives fits in the buffer. */
    predicate Complete() { Received().ended && |Received().resp| <= |stale| }
  }

  type Answer = a: AnyAnswer | a.Complete() witness Answer(false, false, false, 0.0, [Poll(2.0, None, 0.0)], [])

  function LaidOver(resp: seq<byte>, buffer: seq<byte>): (b: seq<byte>)
    requires |resp| <= |buffer|
    ensures |b| == |buffer|
  {
    resp + buffer[|resp|..]
  }

  /** What the buffer holds afterwards. */
  function BufferAfter(a: Answer): seq<byte> {
    if a.built && a.connected then LaidOver(a.Received().resp, a.stale) else a.stale
  }

  /** The PUT counts as acknowledged. */
  predicate ReadAsAcked(a: Answer) {
    a.built && a.connected && LooksStored(BufferAfter(a))
  }

  function Outcome(a: Answer): (o: PutOutcome)
    ensures o.Stored() == a.stored && o.ReadAsAcked() == ReadAsAcked(a)
  {
    if a.stored then if ReadAsAcked(a) then Acked else AckLost
    else if ReadAsAcked(a) then Misread else Rejected
  }

  // ---------- The same by octets ----------

  /** These octets start at position `i`. */
  predicate StatusAt(b: seq<byte>, i: int) {
    0 <= i <= |b| - 15 &&
    b[i..i + 15] == [0x48, 0x54, 0x54, 0x50, 0x2F, 0x31, 0x2E, 0x31, 0x20, 0x32, 0x30, 0x30, 0x20, 0x4F, 0x4B]
  }

  predicate DateAt(b: seq<byte>, i: int) {
    0 <= i <= |b| - 5 && b[i..i + 5] == [0x44, 0x61, 0x74, 0x65, 0x3A]
  }

  /** Somewhere before the first zero there are a status line of 200 OK, a Date field and an opening brace. */
  ghost predicate HoldsAcknowledgement(b: seq<byte>) {
    exists n :: 0 <= n <= |b| && 0 !in b[..n] && (n < |b| ==> b[n] == 0)
      && (exists i :: StatusAt(b[..n], i)) && (exists i :: DateAt(b[..n], i)) && 0x7B in b[..n]
  }

  lemma OctetsAre()
    ensures STATUS_OK == [0x48, 0x54, 0x54, 0x50, 0x2F, 0x31, 0x2E, 0x31, 0x20, 0x32, 0x30, 0x30, 0x20, 0x4F, 0x4B]
    ensures DATE == [0x44, 0x61, 0x74, 0x65, 0x3A] && JSON_START == [0x7B]
  {
  }

  /** The text is what stands before the first zero. */
  lemma {:induction false} TextIs(b: seq<byte>)
    ensures |Text(b)| <= |b| && Text(b) == b[..|Text(b)|] && 0 !in Text(b)
    ensures |Text(b)| < |b| ==> b[|Text(b)|] == 0
  {
    if b != [] && b[0] != 0 {
      TextIs(b[1..]);
    }
  }

  lemma {:induction false} OneTextOnly(b: seq<byte>, n: nat)
    requires n <= |b| && 0 !in b[..n] && (n < |b| ==> b[n] == 0)
    ensures Text(b) == b[..n]
    decreases n
  {
    if n > 0 {
      assert b[0] == b[..n][0] && b[1..][..n - 1] == b[..n][1..];
      OneTextOnly(b[1..], n - 1);
    }
  }

  lemma TextsFound(t: seq<byte>)
    ensures Occurs(t, STATUS_OK) <==> exists i :: StatusAt(t, i)
    ensures Occurs(t, DATE) <==> exists i :: DateAt(t, i)
    ensures Occurs(t, JSON_START) <==> 0x7B in t
  {
    OctetsAre();
    hide Octets;
    forall i ensures OccursAt(t, STATUS_OK, i) <==> StatusAt(t, i) {
    }
    forall i ensures OccursAt(t, DATE, i) <==> DateAt(t, i) {
    }
    forall i ensures OccursAt(t, JSON_START, i) <==> 0 <= i < |t| && t[i] == 0x7B {
      assert 0 <= i < |t| ==> t[i..i + 1] == [t[i]];
    }
  }

  lemma AcknowledgedIs(b: seq<byte>)
    ensures LooksStored(b) <==> HoldsAcknowledgement(b)
  {
    TextIs(b);
    TextsFound(Text(b));
    hide Occurs;
    if HoldsAcknowledgement(b) {
      var n :| 0 <= n <= |b| && 0 !in b[..n] && (n < |b| ==> b[n] == 0)
        && (exists i :: StatusAt(b[..n], i)) && (exists i :: DateAt(b[..n], i)) && 0x7B in b[..n];
      OneTextOnly(b, n);
    }
  }

  /** A 200 answer with a Date field and a body is an acknowledgement, whatever the buffer held. */
  lemma GoodAnswerIsAcked(a: Answer, fields: seq<byte>, more: seq<byte>, body: seq<byte>)
    requires a.stored && a.built && a.connected && 0 !in fields && 0 !in more
    requires a.Received().resp ==
      [0x48, 0x54, 0x54, 0x50, 0x2F, 0x31, 0x2E, 0x31, 0x20, 0x32, 0x30, 0x30, 0x20, 0x4F, 0x4B]
      + fields + [0x44, 0x61, 0x74, 0x65, 0x3A] + more + [0x7B] + body
    ensures Outcome(a) == Acked
  {
    var line := [0x48, 0x54, 0x54, 0x50, 0x2F, 0x31, 0x2E, 0x31, 0x20, 0x32, 0x30, 0x30, 0x20, 0x4F, 0x4B];
    var date := [0x44, 0x61, 0x74, 0x65, 0x3A];
    var start := line + fields + date + more + [0x7B];
    var rest := body + a.stale[|a.Received().resp|..];
    assert BufferAfter(a) == start + rest;
    assert 0 !in start;
    hide Text;
    hide Occurs;
    TextThrough(start, rest);
    TextsFound(start + Text(rest));
    PartsAt(line, fields, date, more, Text(rest));
    assert StatusAt(start + Text(rest), 0) && DateAt(start + Text(rest), 15 + |fields|);
  }

  lemma PartsAt(a: seq<byte>, b: seq<byte>, c: seq<byte>, d: seq<byte>, e: seq<byte>)
    ensures var t, k := a + b + c + d + [0x7B] + e, |a| + |b|;
      t[..|a|] == a && t[k..k + |c|] == c && 0x7B in t
  {
    assert (a + b + c + d + [0x7B] + e)[|a + b + c + d|] == 0x7B;
  }

  /** Behind a status line with another code, the 200 line can only stand in what follows it. */
  lemma StatusIsBehind(b: seq<byte>, code: seq<byte>, behind: seq<byte>, i: int)
    requires |code| == 3 && code != [0x32, 0x30, 0x30] && 0x48 !in code && StatusAt(b, i)
    requires b == [0x48, 0x54, 0x54, 0x50, 0x2F, 0x31, 0x2E, 0x31, 0x20] + code + behind
    ensures StatusAt(behind, i - 12)
  {
    StatusOctets(b, i);
    assert forall k :: 9 <= k < 12 ==> b[k] == code[k - 9];
    assert i != 0 by {
      assert code == [b[9], b[10], b[11]];
    }
    if i < 12 {
      assert false;
    }
    assert behind[i - 12..i + 3] == b[i..i + 15];
  }

  lemma StatusOctets(b: seq<byte>, i: int)
    requires StatusAt(b, i)
    ensures b[i] == 0x48 && b[i + 9] == 0x32 && b[i + 10] == 0x30 && b[i + 11] == 0x30
  {
    var line := b[i..i + 15];
    assert line[0] == b[i] && line[9] == b[i + 9] && line[10] == b[i + 10] && line[11] == b[i + 11];
  }

  /** The same with another status code is none, unless the 200 line stands somewhere behind its own status line. */
  lemma OtherStatusIsNotAcked(a: Answer, code: seq<byte>, rest: seq<byte>)
    requires |code| == 3 && code != [0x32, 0x30, 0x30] && 0x48 !in code
    requires a.Received().resp == [0x48, 0x54, 0x54, 0x50, 0x2F, 0x31, 0x2E, 0x31, 0x20] + code + rest
    requires forall i :: !StatusAt(rest + a.stale[|a.Received().resp|..], i)
    ensures Outcome(a) == if a.stored then AckLost else Rejected
  {
    var b := LaidOver(a.Received().resp, a.stale);
    var t := Text(b);
    TextIs(b);
    TextsFound(t);
    var behind := rest + a.stale[|a.Received().resp|..];
    assert b == [0x48, 0x54, 0x54, 0x50, 0x2F, 0x31, 0x2E, 0x31, 0x20] + code + behind;
    forall i ensures !StatusAt(t, i) {
      if StatusAt(t, i) {
        assert t[i..i + 15] == b[i..i + 15];
        StatusIsBehind(b, code, behind, i);
      }
    }
  }

  // ---------- The program ----------

  /** Receives over the beginning of the buffer. */
  method SendHttpRequestToDynamodb(a: Answer, response: array<byte>) returns (rc: int, responseLength: nat)
    requires response[..] == a.stale
    modifies response
    ensures rc == if a.connected then 0 else 1
    ensures response[..] == if a.connected then LaidOver(a.Received().resp, a.stale) else a.stale
    ensures a.connected ==> responseLength == |a.Received().resp|
  {
    if !a.connected {
      return 1, 0;
    }
    var resp, ended := RecvTimeout(RECEIVE_TIMEOUT, a.begin, a.script);
    forall i | 0 <= i < |resp| {
      response[i] := resp[i];
    }
    return 0, |resp|;
  }

  /**
   The result is 0 exactly when the request was built and the socket connected, and the three texts, given here by their
   octets, are somewhere in the buffer before its first zero octet.
   */
  method SyncSingleRawData(a: Answer) returns (rc: int)
    ensures rc == if ReadAsAcked(a) then 0 else -1
    ensures var resp := a.Received().resp;
      rc == 0 <==> a.built && a.connected && HoldsAcknowledgement(resp + a.stale[|resp|..])
  {
    AcknowledgedIs(a.Received().resp + a.stale[|a.Received().resp|..]);
    var response := new byte[|a.stale|](i requires 0 <= i < |a.stale| => a.stale[i]);
    assert response[..] == a.stale;
    if !a.built {
      return -1;
    }
    var sent, responseLength := SendHttpRequestToDynamodb(a, response);
    if sent != 0 {
      return -1;
    }
    var text := Text(response[..]);
    var httpPos, datePos, jsonStart := Occurs(text, STATUS_OK), Occurs(text, DATE), Occurs(text, JSON_START);
    if !httpPos {
      return -1;
    }
    if !datePos {
      return -1;
    }
    if !jsonStart {
      return -1;
    }
    rc := 0;
  }

  /** The program waits half a second after data, and a second for the first. */
  lemma WaitsForHalfASecond(a: AnyAnswer)
    ensures a.Received().ended <==> exists k: nat :: k < |a.script| && TimeIsOver(0.5, a.begin, a.script, k)
  {
    EndsWhenTimeIsOver(0.5, a.begin, a.script);
  }

  // ---------- What an acknowledgement is worth ----------

  /** The peer sends nothing: every read is negative or meets the end of the stream. */
  predicate Silent(script: seq<Poll>) {
    forall k :: 0 <= k < |script| ==> script[k].got.None? || script[k].got.value == []
  }

  lemma {:induction false} SilentBringsNothing(timeout: real, begin: real, script: seq<Poll>)
    requires Silent(script)
    ensures Received(timeout, begin, script).resp == []
    decreases |script|
  {
    if script != [] {
      SilentBringsNothing(timeout, begin, script[..|script| - 1]);
    }
  }

  /** A PUT that is answered by nothing at all gets the verdict of the buffer as it was. */
  lemma SilenceKeepsVerdict(a: Answer)
    requires a.built && a.connected && Silent(a.script)
    ensures BufferAfter(a) == a.stale && (ReadAsAcked(a) <==> LooksStored(a.stale))
  {
    SilentBringsNothing(RECEIVE_TIMEOUT, a.begin, a.script);
    assert [] + a.stale[0..] == a.stale;
  }

  /** So an acknowledgement is inherited: after one that was read, a silent peer acknowledges whatever comes next. */
  lemma AcknowledgementIsInherited(a: Answer, b: Answer)
    requires ReadAsAcked(a) && b.stale == BufferAfter(a)
    requires b.built && b.connected && Silent(b.script) && !b.stored
    ensures Outcome(b) == Misread
  {
    SilenceKeepsVerdict(b);
  }

  lemma {:induction false} TextIsAll(s: seq<byte>)
    requires 0 !in s
    ensures Text(s) == s
  {
    if s != [] {
      TextIsAll(s[1..]);
    }
  }

  lemma {:induction false} TextUpToZero(s: seq<byte>, rest: seq<byte>)
    requires rest == [] || rest[0] == 0
    ensures Text(s + rest) == Text(s)
    decreases |s|
  {
    if s == [] {
      assert s + rest == rest;
    } else {
      assert (s + rest)[1..] == s[1..] + rest;
      TextUpToZero(s[1..], rest);
    }
  }

  lemma Parts(a: seq<byte>, b: seq<byte>, c: seq<byte>)
    ensures Occurs(a + b + c, a) && Occurs(a + b + c, b) && Occurs(a + b + c, c)
  {
    var t := a + b + c;
    assert t[..|a|] == a && t[|a|..|a| + |b|] == b && t[|a| + |b|..] == c;
    assert OccursAt(t, a, 0) && OccursAt(t, b, |a|) && OccursAt(t, c, |a| + |b|);
  }

  lemma NoZeros(s: string)
    requires forall i :: 0 <= i < |s| ==> 0 < s[i] as int < 256
    ensures 0 !in Octets(s)
  {
  }

  /** A good answer to one PUT, followed by a PUT to a peer that has gone silent: the second is misread. */
  lemma MisreadHappens() returns (a: Answer, b: Answer)
    ensures Outcome(a) == Acked && b.stale == BufferAfter(a) && Outcome(b) == Misread
  {
    var text := STATUS_OK + DATE + JSON_START;
    assert LooksStored(text) by {
      NoZeros("HTTP/1.1 200 OK");
      NoZeros("Date:");
      NoZeros("{");
      TextIsAll(text);
      Parts(STATUS_OK, DATE, JSON_START);
    }
    hide LooksStored;
    var heard := [Poll(0.0, Some(text), 0.0)];
    var silence := Poll(2.0, None, 0.0);
    assert (heard + [silence])[..1] == heard && heard[..0] == [] && [silence][..0] == [];
    assert [] + text == text && text + text[|text|..] == text;
    assert Received(RECEIVE_TIMEOUT, 0.0, []) == Receiving(0.0, [], 0, false);
    assert Received(RECEIVE_TIMEOUT, 0.0, heard) == Receiving(0.0, text, 1, false);
    assert Received(RECEIVE_TIMEOUT, 0.0, heard + [silence]) == Receiving(0.0, text, 1, true);
    assert Received(RECEIVE_TIMEOUT, 0.0, [silence]) == Receiving(0.0, [], 0, true);
    a := Answer(true, true, true, 0.0, heard + [silence], text);
    b := Answer(false, true, true, 0.0, [silence], text);
    AcknowledgementIsInherited(a, b);
  }

  /** The buffer ends the text right behind the octets received: it was cleared, or the answer fills it. */
  predicate Terminated(a: Answer) {
    var n := |a.Received().resp|;
    n < |a.stale| ==> a.stale[n] == 0
  }

  /** The cloud sends the three texts only for a PUT that it has stored. */
  predicate Honest(a: Answer) {
    LooksStored(a.Received().resp) ==> a.stored
  }

  /** Then the verdict is that of the octets received alone, and with an honest cloud nothing is misread. */
  lemma TerminatedIsNeverMisread(a: Answer)
    requires Terminated(a)
    ensures ReadAsAcked(a) <==> a.built && a.connected && LooksStored(a.Received().resp)
    ensures Outcome(a) == Misread <==> a.built && a.connected && !Honest(a)
  {
    var resp := a.Received().resp;
    TextUpToZero(resp, a.stale[|resp|..]);
  }

  lemma {:induction false} TextThrough(s: seq<byte>, rest: seq<byte>)
    requires 0 !in s
    ensures Text(s + rest) == s + Text(rest)
    decreases |s|
  {
    if s == [] {
      assert s + rest == rest;
    } else {
      assert (s + rest)[1..] == s[1..] + rest;
      TextThrough(s[1..], rest);
    }
  }

  lemma {:induction false} TextEnds(s: seq<byte>, rest: seq<byte>)
    requires 0 in s
    ensures Text(s + rest) == Text(s)
    decreases |s|
  {
    if s[0] != 0 {
      assert (s + rest)[1..] == s[1..] + rest;
      TextEnds(s[1..], rest);
    }
  }

  /** The old text behind the octets received, if these do not end the text themselves, completes the three texts. */
  predicate Completed(a: Answer) {
    var resp := a.Received().resp;
    var text := resp + Text(a.stale[|resp|..]);
    0 !in resp && Occurs(text, STATUS_OK) && Occurs(text, DATE) && Occurs(text, JSON_START)
  }

  /** From an honest cloud, a PUT sent and not stored is misread exactly when the old buffer completes its answer. */
  lemma HonestMisreads(a: Answer)
    requires Honest(a)
    ensures Outcome(a) == Misread <==> a.built && a.connected && !a.stored && Completed(a)
  {
    var resp := a.Received().resp;
    if 0 in resp {
      TextEnds(resp, a.stale[|resp|..]);
    } else {
      TextThrough(resp, a.stale[|resp|..]);
    }
  }

  /** Clearing the buffer before the call is enough, whatever arrives. */
  lemma ClearedIsNeverMisread(a: Answer)
    requires (forall i :: 0 <= i < |a.stale| ==> a.stale[i] == 0) && Honest(a)
    ensures Outcome(a) != Misread
  {
    TerminatedIsNeverMisread(a);
  }
}
