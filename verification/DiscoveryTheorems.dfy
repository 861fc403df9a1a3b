/** What discovery finds on a conforming server, with and without faults on the link. */
module DiscoveryTheorems {
  import opened Types
  import opened AttServer
  import opened Link
  import opened CoreModules
  import opened Discovery

  /** No read fails, and no five write attempts in a row do. */
  ghost predicate Reliable(peer: Peer) {
    && (forall n: nat :: peer.readOk(n))
    && (forall n: nat :: SomeWriteOk(peer, n))
  }

  // ---------- The meaning of LearnAll ----------

  lemma {:induction false} LearnAllConcat(g: Gatt, a: seq<Characteristic>, b: seq<Characteristic>)
    ensures LearnAll(LearnAll(g, a), b) == LearnAll(g, a + b)
    decreases |b|
  {
    if b == [] {
      assert a + b == a;
    } else {
      var n := |b| - 1;
      LearnAllConcat(g, a, b[..n]);
      assert (a + b)[..|a + b| - 1] == a + b[..n];
    }
  }

  function CountUuid(cs: seq<Characteristic>, uuid: seq<byte>): nat {
    if cs == [] then 0
    else CountUuid(cs[..|cs| - 1], uuid) + (if cs[|cs| - 1].uuid == uuid then 1 else 0)
  }

  /** `discovered` counts every characteristic with either UUID, even when the same UUID occurs twice. */
  lemma {:induction false} LearnAllCounts(g: Gatt, cs: seq<Characteristic>)
    ensures LearnAll(g, cs).discovered == g.discovered + CountUuid(cs, READ_UUID) + CountUuid(cs, WRITE_UUID)
    decreases |cs|
  {
    if cs != [] {
      LearnAllCounts(g, cs[..|cs| - 1]);
      assert READ_UUID[12] != WRITE_UUID[12];
    }
  }

  /** Position `i` is the only one in `cs` with this UUID. */
  ghost predicate OnlyAt(cs: seq<Characteristic>, uuid: seq<byte>, i: nat) {
    i < |cs| && forall j :: 0 <= j < |cs| ==> (cs[j].uuid == uuid <==> j == i)
  }

  /** A UUID of the maker's own, of which all octets but one are fixed; 0x55 there means reading and 0x56 writing. */
  function Vendor(kind: byte): seq<byte> {
    [0x23, 0xD1, 0x13, 0xEF, 0x5F, 0x78, 0x23, 0x15, 0xDE, 0xEF, 0x12, 0x12, kind, 0x47, 0x00, 0x00]
  }

  /** The server has exactly one characteristic of each kind, at positions `r` and `w`. */
  ghost predicate OneOfEach(server: ConformingServer, r: nat, w: nat) {
    OnlyAt(server.chars, Vendor(0x55), r) && OnlyAt(server.chars, Vendor(0x56), w)
  }

  /** The handles kept are those of the characteristics with the two UUIDs, if each occurs at most once. */
  lemma {:induction false} LearnAllHandles(g: Gatt, cs: seq<Characteristic>, r: nat, w: nat)
    requires forall j :: 0 <= j < |cs| ==> (cs[j].uuid == READ_UUID <==> j == r)
    requires forall j :: 0 <= j < |cs| ==> (cs[j].uuid == WRITE_UUID <==> j == w)
    ensures LearnAll(g, cs) == Gatt(
              if r < |cs| then cs[r].value else g.readHandle,
              if w < |cs| then cs[w].value else g.writeHandle,
              g.discovered + (if r < |cs| then 1 else 0) + (if w < |cs| then 1 else 0))
    decreases |cs|
  {
    if cs != [] {
      LearnAllHandles(g, cs[..|cs| - 1], r, w);
      assert READ_UUID[12] != WRITE_UUID[12];
    }
  }

  // ---------- Runs of discovery ----------

  /** `r` learned from positions `i` to `n`: all that remain if it ended well, or else with the socket closed. */
  ghost predicate LearnedUpTo(cs: seq<Characteristic>, g: Gatt, i: nat, r: Result, n: nat) {
    && i <= n <= |cs| && r.found == LearnAll(g, cs[i..n])
    && (r.code == Ok ==> n == |cs| && r.link.open)
    && (r.code != Ok ==> r.code in {BleReadErr, BleWriteErr} && !r.link.open)
  }

  lemma LearnedBatch(cs: seq<Characteristic>, g: Gatt, i: nat, batch: seq<Characteristic>, r: Result, n: nat)
    requires i + |batch| <= |cs| && batch == cs[i..i + |batch|]
    requires LearnedUpTo(cs, LearnAll(g, batch), i + |batch|, r, n)
    ensures LearnedUpTo(cs, g, i, r, n)
  {
    LearnAllConcat(g, batch, cs[i + |batch|..n]);
    assert batch + cs[i + |batch|..n] == cs[i..n];
  }

  /**
   Whatever the faults, discovery learns from a prefix of the characteristics in handle order, skipping none and
   taking none twice; it ends well only when that is all of them, and otherwise leaves the socket closed.
   */
  lemma {:induction false} DiscoverLearnsPrefix(peer: Peer, s: LinkState, g: Gatt, start: handle, r: Result)
    returns (n: nat)
    requires start > 0 && r == Discover(peer, s, g, start)
    ensures LearnedUpTo(peer.server.chars, g, FirstFrom(peer.server.chars, start), r, n)
    decreases |peer.server.chars| - FirstFrom(peer.server.chars, start)
  {
    hide AskFrom;
    hide FirstFrom;
    var cs, i := peer.server.chars, FirstFrom(peer.server.chars, start);
    AskLeavesLink(peer, s, start);
    match AskFrom(peer, s, start) {
      case (Lost(_), _) => n := i;
      case (Exhausted, _) => n := i;
      case (Got(batch), s') =>
        var next := batch[|batch| - 1].value;
        n := DiscoverLearnsPrefix(peer, s', LearnAll(g, batch), next, r);
        LearnedBatch(cs, g, i, batch, r, n);
    }
  }

  lemma AskLeavesLink(peer: Peer, s: LinkState, start: handle)
    requires start > 0
    ensures var (outcome, s') := AskFrom(peer, s, start);
      if outcome.Lost? then !s'.open && outcome.code in {BleReadErr, BleWriteErr}
      else s'.open && (outcome.Exhausted? ==> FirstFrom(peer.server.chars, start) == |peer.server.chars|)
  {
    TransactMeaning(peer, s, Request(start));
  }

  lemma AskOnReliable(peer: Peer, s: LinkState, start: handle)
    requires Reliable(peer) && s.open && start > 0
    ensures var (outcome, s') := AskFrom(peer, s, start);
      && s'.open && !outcome.Lost? && |s'.sent| == |s.sent| + 1
      && (outcome.Exhausted? <==> FirstFrom(peer.server.chars, start) == |peer.server.chars|)
  {
    assert SomeWriteOk(peer, s.writes) && peer.readOk(s.received);
    ReplyIs(peer, s.received, start);
    TransactSucceeds(peer, s, Request(start));
  }

  lemma AskSendsOnce(peer: Peer, s: LinkState, start: handle)
    requires start > 0
    ensures |AskFrom(peer, s, start).1.sent| <= |s.sent| + 1
  {
  }

  /** Whatever the link does, the search makes at most one request more than there are characteristics left. */
  lemma {:induction false} DiscoverIsBounded(peer: Peer, s: LinkState, g: Gatt, start: handle)
    requires start > 0
    ensures |Discover(peer, s, g, start).link.sent| <=
            |s.sent| + (|peer.server.chars| - FirstFrom(peer.server.chars, start)) + 1
    decreases |peer.server.chars| - FirstFrom(peer.server.chars, start)
  {
    hide AskFrom;
    hide FirstFrom;
    hide LearnAll;
    AskSendsOnce(peer, s, start);
    match AskFrom(peer, s, start) {
      case (Lost(_), _) =>
      case (Exhausted, _) =>
      case (Got(batch), s') => DiscoverIsBounded(peer, s', LearnAll(g, batch), batch[|batch| - 1].value);
    }
  }

  /** The octets of a search from this handle to the last one there is. */
  function SearchFrom(h: handle): seq<byte> { [0x08, h % 256, h / 256, 0xFF, 0xFF, 0x03, 0x28] }

  /** A search from `start`, or from the value handle of one of the characteristics. */
  ghost predicate Asks(cs: seq<Characteristic>, start: handle, pdu: seq<byte>) {
    pdu == SearchFrom(start) || exists c :: c in cs && pdu == SearchFrom(c.value)
  }

  lemma AskSends(peer: Peer, s: LinkState, start: handle)
    requires start > 0
    ensures var (outcome, s') := AskFrom(peer, s, start);
      s'.sent == s.sent + [SearchFrom(start)] || (s'.sent == s.sent && outcome.Lost?)
  {
    assert Request(start) == SearchFrom(start);
  }

  /** All that discovery sends are searches to the end, from the first handle or from value handles it was told. */
  lemma {:induction false} DiscoverAsks(peer: Peer, s: LinkState, g: Gatt, start: handle, k: nat)
    requires start > 0 && |s.sent| <= k < |Discover(peer, s, g, start).link.sent|
    ensures Asks(peer.server.chars, start, Discover(peer, s, g, start).link.sent[k])
    ensures k == |s.sent| ==> Discover(peer, s, g, start).link.sent[k] == SearchFrom(start)
    decreases |peer.server.chars| - FirstFrom(peer.server.chars, start)
  {
    hide AskFrom;
    hide FirstFrom;
    hide LearnAll;
    hide SearchFrom;
    AskSends(peer, s, start);
    match AskFrom(peer, s, start) {
      case (Lost(_), _) =>
      case (Exhausted, _) =>
      case (Got(batch), s') =>
        var next := batch[|batch| - 1];
        assert next in peer.server.chars;
        DiscoverKeepsSent(peer, s', LearnAll(g, batch), next.value);
        if k >= |s'.sent| {
          DiscoverAsks(peer, s', LearnAll(g, batch), next.value, k);
        }
    }
  }

  lemma {:induction false} DiscoverKeepsSent(peer: Peer, s: LinkState, g: Gatt, start: handle)
    requires start > 0
    ensures s.sent <= Discover(peer, s, g, start).link.sent
    decreases |peer.server.chars| - FirstFrom(peer.server.chars, start)
  {
    hide AskFrom;
    hide FirstFrom;
    hide LearnAll;
    hide SearchFrom;
    AskSends(peer, s, start);
    match AskFrom(peer, s, start) {
      case (Lost(_), _) =>
      case (Exhausted, _) =>
      case (Got(batch), s') => DiscoverKeepsSent(peer, s', LearnAll(g, batch), batch[|batch| - 1].value);
    }
  }

  /** On a reliable link the search ends well. */
  lemma {:induction false} DiscoverEndsWell(peer: Peer, s: LinkState, g: Gatt, start: handle)
    requires Reliable(peer) && s.open && start > 0
    ensures Discover(peer, s, g, start).code == Ok
    decreases |peer.server.chars| - FirstFrom(peer.server.chars, start)
  {
    hide AskFrom;
    hide LearnAll;
    hide FirstFrom;
    hide Reliable;
    AskOnReliable(peer, s, start);
    match AskFrom(peer, s, start) {
      case (Exhausted, _) =>
      case (Got(batch), s') => DiscoverEndsWell(peer, s', LearnAll(g, batch), batch[|batch| - 1].value);
    }
  }

  // ---------- A link that breaks ----------

  /** A link on which nothing fails but the read number `at`, to a server that sends one item an answer. */
  function CutOff(server: ConformingServer, at: nat): Peer {
    Peer(server, (_: nat) => 0, (_: nat) => true, (n: nat) => n != at, (_: nat, _: seq<byte>) => [])
  }

  lemma OneAnAnswer(peer: Peer, n: nat, i: nat)
    requires i < |peer.server.chars| && peer.extra(n) == 0
    ensures Batch(peer, n, i) == [peer.server.chars[i]]
  {
  }

  lemma AskOnCutOff(server: ConformingServer, at: nat, s: LinkState, start: handle)
    requires s.open && start > 0
    ensures var (outcome, s') := AskFrom(CutOff(server, at), s, start);
      var i := FirstFrom(server.chars, start);
      if s.received == at then outcome == Lost(BleReadErr) && !s'.open
      else
        && s'.open && s'.received == s.received + 1
        && outcome == if i == |server.chars| then Exhausted else Got([server.chars[i]])
  {
    var peer := CutOff(server, at);
    assert peer.writeOk(s.writes);
    assert SomeWriteOk(peer, s.writes);
    WriteGivesUpAfterFive(peer, s, Request(start));
    if s.received != at {
      ReplyIs(peer, s.received, start);
      TransactSucceeds(peer, s, Request(start));
      if FirstFrom(server.chars, start) < |server.chars| {
        OneAnAnswer(peer, s.received, FirstFrom(server.chars, start));
      }
    }
  }

  /** A link can break after any number of characteristics: what was found up to there is kept. */
  lemma {:induction false} CutOffLearns(
      server: ConformingServer, at: nat, s: LinkState, g: Gatt, start: handle, r: Result)
    requires s.open && start > 0 && r == Discover(CutOff(server, at), s, g, start)
    requires s.received <= at <= s.received + |server.chars| - FirstFrom(server.chars, start)
    ensures var i := FirstFrom(server.chars, start);
      && r.code == BleReadErr && !r.link.open
      && r.found == LearnAll(g, server.chars[i..i + (at - s.received)])
    decreases |server.chars| - FirstFrom(server.chars, start)
  {
    hide AskFrom;
    hide FirstFrom;
    var cs, i := server.chars, FirstFrom(server.chars, start);
    assert LearnAll(g, cs[i..i]) == g;
    hide LearnAll;
    AskOnCutOff(server, at, s, start);
    match AskFrom(CutOff(server, at), s, start) {
      case (Lost(_), _) =>
      case (Exhausted, _) =>
      case (Got(batch), s') =>
        var m := i + (at - s.received);
        CutOffLearns(server, at, s', LearnAll(g, batch), batch[|batch| - 1].value, r);
        LearnAllConcat(g, batch, cs[i + 1..m]);
        assert batch + cs[i + 1..m] == cs[i..m];
    }
  }

  lemma FirstFromStart(server: ConformingServer)
    ensures FirstFrom(server.chars, 1) == 0
  {
    if server.chars != [] {
      assert WellFormed(server.chars[0]);
    }
  }

  lemma DiscoverLearnsAll(peer: Peer, s: LinkState, g: Gatt)
    requires Reliable(peer) && s.open
    ensures var r := Discover(peer, s, g, 1);
      && r.code == Ok && r.link.open && r.found == LearnAll(g, peer.server.chars)
      && |r.link.sent| <= |s.sent| + |peer.server.chars| + 1
  {
    DiscoverEndsWell(peer, s, g, 1);
    DiscoverIsBounded(peer, s, g, 1);
    var n := DiscoverLearnsPrefix(peer, s, g, 1, Discover(peer, s, g, 1));
    FirstFromStart(peer.server);
    assert peer.server.chars[0..|peer.server.chars|] == peer.server.chars;
  }

  /**
   A conforming server with exactly one read and one write characteristic: on a reliable link both handles are found,
   whatever other characteristics there are, in whatever order and packing.
   */
  lemma DiscoverySucceeds(peer: Peer, s: LinkState, g: Gatt, r: nat, w: nat)
    requires Reliable(peer) && s.open && g.discovered == 0
    requires OneOfEach(peer.server, r, w)
    ensures var cs, result := peer.server.chars, Discover(peer, s, g, 1);
      && result.code == Ok && result.found == Gatt(cs[r].value, cs[w].value, 2)
      && |result.link.sent| <= |s.sent| + |cs| + 1
  {
    var cs := peer.server.chars;
    DiscoverLearnsAll(peer, s, g);
    LearnAllHandles(g, cs, r, w);
  }

  /**
   In general a module ends up usable, that is with `discovered` equal to 2, exactly when two characteristics carry one
   of the two UUIDs; nothing checks that they are one of each.
   */
  lemma UsableIffTwoMatches(peer: Peer, s: LinkState, g: Gatt)
    requires Reliable(peer) && s.open && g.discovered == 0
    ensures var cs := peer.server.chars;
      Discover(peer, s, g, 1).found.discovered == 2 <==>
      CountUuid(cs, Vendor(0x55)) + CountUuid(cs, Vendor(0x56)) == 2
  {
    var cs := peer.server.chars;
    DiscoverLearnsAll(peer, s, g);
    LearnAllCounts(g, cs);
  }
}
