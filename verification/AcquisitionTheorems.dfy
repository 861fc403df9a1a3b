/** What holds of the sensors over every run of acquisition rounds, whatever the links do. */
module AcquisitionTheorems {
  import opened Types
  import opened AttServer
  import opened Link
  import opened CoreModules
  import opened Discovery
  import opened DiscoveryTheorems
  import opened Exchange
  import opened Acquisition
  import opened Codec

  // ---------- Error value ----------

  /** A sensor that was not read well shows the error value. */
  predicate Marked(sen: Sensor) {
    sen.code != Ok ==> sen.data == Number(999.0)
  }

  ghost predicate AllMarked(w: World) {
    forall i :: 0 <= i < |w.sen| ==> Marked(w.sen[i])
  }

  lemma TurnKeepsMarked(peer: Peer, w: World, i: nat)
    requires i < |w.sen| && AllMarked(w)
    ensures AllMarked(Turn(peer, w, i))
  {
  }

  lemma {:induction false} StepsKeep(step: (World, nat) -> World, inv: World -> bool, w: World, k: nat)
    requires inv(w) && forall v, i :: inv(v) ==> inv(step(v, i))
    ensures inv(Steps(step, w, k))
  {
    if k > 0 {
      StepsKeep(step, inv, w, k - 1);
    }
  }

  lemma RoundKeepsMarked(peer: Peer, w: World, connected: bool)
    requires AllMarked(w)
    ensures AllMarked(Round(peer, w, connected))
  {
    if connected {
      forall v, i: nat | AllMarked(v) ensures AllMarked(Turns(peer)(v, i)) {
        if i < |v.sen| {
          TurnKeepsMarked(peer, v, i);
        }
      }
      StepsKeep(Turns(peer), v => AllMarked(v), SetOpen(w, true), |w.sen|);
    }
  }

  /** Any number of rounds, each with its own peer and its own outcome of connecting. */
  function Rounds(w: World, rounds: seq<(Peer, bool)>): World {
    if rounds == [] then w
    else
      var (peer, connected) := rounds[|rounds| - 1];
      Round(peer, Rounds(w, rounds[..|rounds| - 1]), connected)
  }

  /** From zero-initialised sensors on, a code other than Ok always comes with the error value. */
  lemma {:induction false} ErrorsAreMarked(w: World, rounds: seq<(Peer, bool)>)
    requires AllMarked(w)
    ensures AllMarked(Rounds(w, rounds))
    decreases |rounds|
  {
    if rounds != [] {
      var before := Rounds(w, rounds[..|rounds| - 1]);
      ErrorsAreMarked(w, rounds[..|rounds| - 1]);
      RoundKeepsMarked(rounds[|rounds| - 1].0, before, rounds[|rounds| - 1].1);
    }
  }

  // ---------- Each sensor is settled by its own turn ----------

  /** `v'` differs from `v` in no sensor but the i-th, and in no address. */
  predicate OnlyChanges(v: World, v': World, i: nat) {
    && |v'.sen| == |v.sen|
    && (forall j :: 0 <= j < |v.sen| ==> v'.sen[j].addr == v.sen[j].addr && (j != i ==> v'.sen[j] == v.sen[j]))
  }

  lemma TurnChangesOne(peer: Peer)
    ensures forall v, i :: OnlyChanges(v, Turns(peer)(v, i), i)
  {
  }

  lemma {:induction false} StepsSettle(step: (World, nat) -> World, w: World, j: nat, k: nat)
    requires forall v, i :: OnlyChanges(v, step(v, i), i)
    ensures |Steps(step, w, k).sen| == |w.sen|
    ensures j < |w.sen| ==> Steps(step, w, k).sen[j].addr == w.sen[j].addr
    ensures k <= j < |w.sen| ==> Steps(step, w, k).sen[j] == w.sen[j]
    ensures j < |w.sen| && j < k ==> |Steps(step, w, j + 1).sen| == |w.sen|
    ensures j < |w.sen| && j < k ==> Steps(step, w, k).sen[j] == Steps(step, w, j + 1).sen[j]
  {
    if k > 0 {
      StepsSettle(step, w, j, k - 1);
      assert OnlyChanges(Steps(step, w, k - 1), Steps(step, w, k), k - 1);
    }
  }

  /** A sensor reaches its turn as the round found it, and leaves the round as its own turn left it. */
  lemma SettledByOwnTurn(peer: Peer, w: World, i: nat)
    requires i < |w.sen|
    ensures |After(peer, SetOpen(w, true), i).sen| == |w.sen| == |Round(peer, w, true).sen|
    ensures After(peer, SetOpen(w, true), i).sen[i] == w.sen[i]
    ensures Round(peer, w, true).sen[i] == Turn(peer, After(peer, SetOpen(w, true), i), i).sen[i]
  {
    TurnChangesOne(peer);
    var v := SetOpen(w, true);
    StepsSettle(Turns(peer), v, i, i);
    StepsSettle(Turns(peer), v, i, |w.sen|);
    assert Steps(Turns(peer), v, i + 1) == Turns(peer)(After(peer, v, i), i);
  }

  // ---------- Attribution ----------

  lemma {:induction false} PollTakesMatch(peer: Peer, s: LinkState, cmd: seq<byte>, h: handle, retry: nat, e: Exchanged)
    requires |cmd| >= 9 && e == Poll(peer, s, cmd, h, retry) && e.code == Ok
    ensures e.link.received > s.received && MatchesAt(peer, cmd, h, e.link.received - 1)
    ensures PollReply(peer, h, e.link.received - 1) != []
    ensures e.payload == PollReply(peer, h, e.link.received - 1)[1..]
    decreases retry
  {
    TransactMeaning(peer, s, PollPdu(h));
    var t := Transact(peer, s, PollPdu(h));
    if t.code == Ok && !Matches(cmd, t.reply) {
      PollTakesMatch(peer, t.link, cmd, h, retry - 1, e);
    }
  }

  lemma SendTakesMatch(peer: Peer, s: LinkState, addr: address, readHandle: handle, writeHandle: handle)
    returns (n: nat)
    requires Send(peer, s, Frame(addr), readHandle, writeHandle).code == Ok
    ensures var reply := PollReply(peer, readHandle, n);
      && n > s.received && reply != []
      && Send(peer, s, Frame(addr), readHandle, writeHandle).payload == reply[1..]
      && Padded(reply)[4..10] == addr && Padded(reply)[0] == ATT_OP_READ_RESP
  {
    hide Poll;
    hide Frame;
    hide Matches;
    hide PollReply;
    hide Reply;
    hide Transact;
    var cmd := Frame(addr);
    var t := Transact(peer, s, WritePdu(writeHandle, cmd));
    TransactMeaning(peer, s, WritePdu(writeHandle, cmd));
    var e := Poll(peer, t.link, cmd, readHandle, FAST_RETRY_TIMES);
    PollTakesMatch(peer, t.link, cmd, readHandle, FAST_RETRY_TIMES, e);
    n := e.link.received - 1;
    MatchCarriesAddress(addr, PollReply(peer, readHandle, n));
  }

  lemma MatchCarriesAddress(addr: address, reply: seq<byte>)
    requires |reply| <= MAX_BLE_PACKET_LEN && Matches(Frame(addr), reply)
    ensures Padded(reply)[4..10] == addr && Padded(reply)[0] == ATT_OP_READ_RESP
  {
  }

  lemma ReplyLaidOut(reply: seq<byte>, resp: packet)
    requires 0 < |reply| <= MAX_BLE_PACKET_LEN
    ensures Padded(reply)[0] == reply[0]
    ensures |reply| >= 14 ==> Padded(reply)[4..10] == reply[4..10] && Overlay(reply[1..], resp)[2] == reply[3]
    ensures |reply| >= 14 ==> Overlay(reply[1..], resp)[9..13] == reply[10..14]
  {
  }

  /**
   The value of a TSYS01 probe that is Ok after its turn comes from octets 9 to 12 of a response that follows the
   command, carries the probe's own address and says the reading is good, provided that response has at least 13 octets
   after its opcode; of a shorter one, the missing octets are those already in the buffer.
   */
  lemma ValueIsAttributed(peer: Peer, before: World, i: nat) returns (n: nat)
    requires i < |before.sen| && before.sen[i].addr[..2] == PROBE_TSYS01
    requires Searched(peer, before).found.discovered == 2 && Turn(peer, before, i).sen[i].code == Ok
    ensures var w, reply := Searched(peer, before), PollReply(peer, Searched(peer, before).found.readHandle, n);
      && n > w.link.received && reply != [] && reply[0] == ATT_OP_READ_RESP
      && Padded(reply)[4..10] == before.sen[i].addr
      && Overlay(reply[1..], before.resp)[2] == READ_OK
      && Turn(peer, before, i).sen[i].data == Float32(Overlay(reply[1..], before.resp)[9..13])
      && (|reply| >= 14 ==>
            reply[4..10] == before.sen[i].addr && reply[3] == READ_OK
            && Turn(peer, before, i).sen[i].data == Float32(reply[10..14]))
  {
    var w := Searched(peer, before);
    n := SendTakesMatch(peer, w.link, before.sen[i].addr, w.found.readHandle, w.found.writeHandle);
    ReplyLaidOut(PollReply(peer, w.found.readHandle, n), before.resp);
    hide Searched;
    hide Send;
    hide PollReply;
    hide Padded;
    hide Overlay;
    hide Frame;
  }

  // ---------- A lost link stays lost for the round ----------

  lemma SendOnClosed(peer: Peer, s: LinkState, cmd: seq<byte>, readHandle: handle, writeHandle: handle)
    requires !s.open && |cmd| >= 9
    ensures Send(peer, s, cmd, readHandle, writeHandle) == Exchanged(BleWriteErr, [], s)
  {
  }

  lemma DiscoverOnClosed(peer: Peer, s: LinkState, g: Gatt)
    requires !s.open
    ensures Discover(peer, s, g, 1) == Result(BleWriteErr, g, s)
  {
  }

  /** What becomes of a sensor whose turn comes when the socket is closed. */
  function OnClosedSocket(found: Gatt, sen: Sensor): Sensor {
    if found.discovered != 2 || sen.addr[..2] == [0x30, 0x33] then sen
    else if sen.addr[..2] == [0x30, 0x32] then sen.(data := Number(999.0), code := BleWriteErr)
    else sen.(data := Number(999.0), code := UnknownProbeDefinition)
  }

  lemma TurnOnClosed(peer: Peer, w: World, i: nat)
    requires i < |w.sen| && !w.link.open
    ensures Turn(peer, w, i) == w.(sen := w.sen[i := OnClosedSocket(w.found, w.sen[i])])
  {
    DiscoverOnClosed(peer, w.link, w.found);
    SendOnClosed(peer, w.link, Frame(w.sen[i].addr), w.found.readHandle, w.found.writeHandle);
    assert w.sen[i := w.sen[i]] == w.sen;
  }

  /** What a step does to a world whose socket is closed. */
  predicate ClosedStep(v: World, v': World, i: nat) {
    !v.link.open && i < |v.sen| ==> v' == v.(sen := v.sen[i := OnClosedSocket(v.found, v.sen[i])])
  }

  lemma {:induction false} StepsOnClosed(step: (World, nat) -> World, w: World, i: nat, k: nat)
    requires forall v, j :: OnlyChanges(v, step(v, j), j) && ClosedStep(v, step(v, j), j)
    requires i <= k <= |w.sen| && !Steps(step, w, i).link.open
    ensures var lost, end := Steps(step, w, i), Steps(step, w, k);
      && |lost.sen| == |end.sen| == |w.sen|
      && end == lost.(sen := end.sen)
      && forall j :: 0 <= j < |w.sen| ==>
           end.sen[j] == if i <= j < k then OnClosedSocket(lost.found, w.sen[j]) else lost.sen[j]
    decreases k
  {
    StepsSettle(step, w, 0, i);
    if i < k {
      StepsOnClosed(step, w, i, k - 1);
      StepsSettle(step, w, k - 1, i);
      assert ClosedStep(Steps(step, w, k - 1), Steps(step, w, k), k - 1);
    }
  }

  /**
   Once the socket has been closed in a round, no later sensor is read, and nothing more is found or sent: a TSYS01
   probe gets the write error if the module is usable, and keeps what it has otherwise.
   */
  lemma LinkFailureIsSticky(peer: Peer, w: World, i: nat, j: nat)
    requires i <= j < |w.sen| && !After(peer, SetOpen(w, true), i).link.open
    ensures var lost, end := After(peer, SetOpen(w, true), i), Round(peer, w, true);
      && end.link == lost.link && end.found == lost.found && end.resp == lost.resp && |end.sen| == |w.sen|
      && end.sen[j] == OnClosedSocket(lost.found, w.sen[j])
  {
    TurnChangesOne(peer);
    forall v, k: nat ensures ClosedStep(v, Turns(peer)(v, k), k) {
      if !v.link.open && k < |v.sen| {
        TurnOnClosed(peer, v, k);
      }
    }
    StepsOnClosed(Turns(peer), SetOpen(w, true), i, |w.sen|);
  }

  // ---------- Half-done discovery is never repaired ----------

  /** Found something, but not two characteristics. */
  predicate HalfFound(w: World) {
    w.found.discovered != 0 && w.found.discovered != 2
  }

  lemma HalfFoundIsIdle(peer: Peer, w: World)
    requires HalfFound(w)
    ensures Round(peer, w, true) == SetOpen(w, false)
  {
    var v := SetOpen(w, true);
    forall u, i: nat | u == v ensures Turns(peer)(u, i) == v {
    }
    StepsKeep(Turns(peer), u => u == v, v, |w.sen|);
  }

  /** Connecting failed in at least one of the rounds. */
  predicate SomeTimeout(rounds: seq<(Peer, bool)>) {
    rounds != [] && (!rounds[|rounds| - 1].1 || SomeTimeout(rounds[..|rounds| - 1]))
  }

  /**
   A module of which discovery has found one characteristic only is never searched or read again: in every later round
   it sends nothing, and each sensor keeps what it has or, once connecting has failed, the timeout error.
   */
  lemma {:induction false} HalfFoundForever(w: World, rounds: seq<(Peer, bool)>, end: World)
    requires HalfFound(w) && end == Rounds(w, rounds)
    ensures end.found == w.found && end.link.sent == w.link.sent && end.resp == w.resp
    ensures end.sen == if SomeTimeout(rounds) then TimedOut(w.sen) else w.sen
    decreases |rounds|
  {
    if rounds != [] {
      var n := |rounds| - 1;
      var before := Rounds(w, rounds[..n]);
      HalfFoundForever(w, rounds[..n], before);
      if rounds[n].1 {
        HalfFoundIsIdle(rounds[n].0, before);
      }
      assert TimedOut(TimedOut(w.sen)) == TimedOut(w.sen);
    }
  }
}
