/** What the uploader guarantees over whole runs: order, conservation, cost and catching up. */
module UploadTheorems {
  import opened Types
  import opened UploadMachine

  // ---------- Delivery ----------

  /** The stored PUTs without those that repeat the row stored just before. */
  function Collapse(arrivals: seq<nat>, cloud: seq<Reading>): seq<Reading>
    requires |arrivals| == |cloud|
  {
    if arrivals == [] then []
    else
      var n := |arrivals| - 1;
      Collapse(arrivals[..n], cloud[..n]) + (if n > 0 && arrivals[n] == arrivals[n - 1] then [] else [cloud[n]])
  }

  /** The first `n` rows without the lost ones. */
  function Without(rows: seq<Reading>, n: nat, lost: set<nat>): seq<Reading>
    requires n <= |rows|
  {
    if n == 0 then [] else Without(rows, n - 1, lost) + if n - 1 in lost then [] else [rows[n - 1]]
  }

  lemma {:induction false} WithoutHas(rows: seq<Reading>, n: nat, lost: set<nat>, r: Reading)
    requires n <= |rows|
    ensures r in Without(rows, n, lost) <==> exists i: nat :: i < n && i !in lost && rows[i] == r
  {
    if n > 0 {
      WithoutHas(rows, n - 1, lost, r);
      assert r in Without(rows, n, lost) <==>
             r in Without(rows, n - 1, lost) || (n - 1 !in lost && rows[n - 1] == r);
    }
  }

  /** A stretch of lost rows adds nothing. */
  lemma {:induction false} WithoutSkips(rows: seq<Reading>, m: nat, n: nat, lost: set<nat>)
    requires m <= n <= |rows| && forall i: nat :: m <= i < n ==> i in lost
    ensures Without(rows, n, lost) == Without(rows, m, lost)
    decreases n
  {
    if m < n {
      WithoutSkips(rows, m, n - 1, lost);
    }
  }

  lemma {:induction false} NothingLost(rows: seq<Reading>, n: nat)
    requires n <= |rows|
    ensures Without(rows, n, {}) == rows[..n]
  {
    if n > 0 {
      NothingLost(rows, n - 1);
      assert rows[..n] == rows[..n - 1] + [rows[n - 1]];
    }
  }

  ghost predicate Ascending(arrivals: seq<nat>) {
    forall j, k :: 0 <= j < k < |arrivals| ==> arrivals[j] <= arrivals[k]
  }

  /** The first position after all arrivals. */
  function End(arrivals: seq<nat>): nat {
    if arrivals == [] then 0 else arrivals[|arrivals| - 1] + 1
  }

  /** Up to their end, the positions that did not arrive are the lost ones. */
  ghost predicate Misses(arrivals: seq<nat>, lost: set<nat>) {
    forall i: nat :: i < End(arrivals) ==> (i in arrivals <==> i !in lost)
  }

  lemma BelowEnd(arrivals: seq<nat>, i: nat)
    requires Ascending(arrivals) && i in arrivals
    ensures i < End(arrivals)
  {
    var k :| 0 <= k < |arrivals| && arrivals[k] == i;
  }

  predicate Repeats(init: seq<nat>, last: nat) {
    init != [] && init[|init| - 1] == last
  }

  /** Between the end of `init` and `last`, which is not lost itself, everything is. */
  ghost predicate Jumps(init: seq<nat>, last: nat, lost: set<nat>) {
    End(init) <= last && last !in lost && forall i: nat :: End(init) <= i < last ==> i in lost
  }

  /** What the last arrival adds: nothing new if it repeats, or else a position behind a stretch of lost ones. */
  lemma LastArrival(init: seq<nat>, last: nat, lost: set<nat>)
    requires Ascending(init + [last]) && Misses(init + [last], lost)
    ensures Ascending(init) && Misses(init, lost)
    ensures if Repeats(init, last) then End(init) == last + 1 else Jumps(init, last, lost)
  {
    var all := init + [last];
    assert forall k :: 0 <= k < |init| ==> all[k] == init[k];
    assert all[|init|] == last;
    forall i: nat | i < End(init) ensures i in init <==> i !in lost {
      assert i in all <==> i in init || i == last;
      if i == last {
        assert init[|init| - 1] == last;
      }
    }
    forall i: nat | i in init ensures i < End(init) {
      BelowEnd(init, i);
    }
    if init == [] || init[|init| - 1] != last {
      assert last in all;
      forall i: nat | End(init) <= i < last ensures i in lost {
        assert i !in init && i !in all;
      }
    }
  }

  /** The cloud has the rows at these positions. */
  ghost predicate Carries(arrivals: seq<nat>, cloud: seq<Reading>, rows: seq<Reading>) {
    && |arrivals| == |cloud|
    && forall k :: 0 <= k < |arrivals| ==> arrivals[k] < |rows| && cloud[k] == rows[arrivals[k]]
  }

  lemma CarriesParts(arrivals: seq<nat>, cloud: seq<Reading>, rows: seq<Reading>)
    requires Carries(arrivals, cloud, rows)
    ensures |arrivals| == |cloud|
    ensures arrivals != [] ==>
      var n := |arrivals| - 1;
      Carries(arrivals[..n], cloud[..n], rows) && arrivals[n] < |rows| && cloud[n] == rows[arrivals[n]]
  {
  }

  /** Without repetitions, what arrived is the table without the rows that never did. */
  lemma {:induction false} CollapseIs(arrivals: seq<nat>, cloud: seq<Reading>, rows: seq<Reading>, lost: set<nat>)
    requires Carries(arrivals, cloud, rows) && Ascending(arrivals) && Misses(arrivals, lost)
    ensures End(arrivals) <= |rows|
    ensures Collapse(arrivals, cloud) == Without(rows, End(arrivals), lost)
    decreases |arrivals|
  {
    hide *;
    CarriesParts(arrivals, cloud, rows);
    if arrivals == [] {
      CollapseNone(rows, lost);
    } else {
      var n := |arrivals| - 1;
      var init, last, stored := arrivals[..n], arrivals[n], cloud[..n];
      AsSnoc(arrivals, init, last);
      AsSnoc(cloud, stored, rows[last]);
      LastArrival(init, last, lost);
      CollapseIs(init, stored, rows, lost);
      CollapseSnoc(init, last, stored, rows, lost);
    }
  }

  lemma CollapseNone(rows: seq<Reading>, lost: set<nat>)
    ensures End([]) == 0 && Collapse([], []) == Without(rows, 0, lost)
  {
  }

  lemma AsSnoc<T>(s: seq<T>, init: seq<T>, last: T)
    requires s != [] && init == s[..|s| - 1] && last == s[|s| - 1]
    ensures s == init + [last]
  {
  }

  /** The last arrival adds its row, unless it repeats the one before. */
  lemma CollapseSnoc(init: seq<nat>, last: nat, cloud: seq<Reading>, rows: seq<Reading>, lost: set<nat>)
    requires |init| == |cloud| && last < |rows| && End(init) <= |rows|
    requires Collapse(init, cloud) == Without(rows, End(init), lost)
    requires if Repeats(init, last) then End(init) == last + 1 else Jumps(init, last, lost)
    ensures End(init + [last]) == last + 1
    ensures Collapse(init + [last], cloud + [rows[last]]) == Without(rows, last + 1, lost)
  {
    CollapseAdds(init, last, cloud, rows[last]);
    hide Collapse;
    if !Repeats(init, last) {
      WithoutSkips(rows, End(init), last, lost);
    }
  }

  lemma CollapseAdds(init: seq<nat>, last: nat, cloud: seq<Reading>, r: Reading)
    requires |init| == |cloud|
    ensures Collapse(init + [last], cloud + [r]) == Collapse(init, cloud) + if Repeats(init, last) then [] else [r]
  {
    var n := |init|;
    assert (init + [last])[..n] == init && (cloud + [r])[..n] == cloud;
    assert n > 0 ==> (init + [last])[n - 1] == init[n - 1];
  }

  lemma {:induction false} ArrivalsAre(log: seq<Try>)
    requires InOrder(log)
    ensures ArrivalsFit(log)
    decreases |log|
  {
    hide *;
    if log == [] {
      NothingFits();
    } else {
      var init, last := log[..|log| - 1], log[|log| - 1];
      AsSnoc(log, init, last);
      InOrderSnoc(init, last);
      ArrivalsAre(init);
      ArrivalsFitSnoc(init, last);
    }
  }

  /** The arrivals are the positions stored, in ascending order, and none lies behind the last PUT. */
  ghost predicate ArrivalsFit(log: seq<Try>) {
    && Ascending(Arrivals(log)) && End(Arrivals(log)) <= Tip(log) + 1
    && forall i: nat :: i in Arrivals(log) <==> StoredAt(log, i)
  }

  lemma NothingFits()
    ensures ArrivalsFit([])
  {
  }

  lemma InOrderSnoc(init: seq<Try>, last: Try)
    requires InOrder(init + [last])
    ensures InOrder(init) && Tip(init) <= last.pos
  {
    var log := init + [last];
    assert forall k :: 0 <= k < |init| ==> log[k] == init[k];
    assert log[|init|] == last;
  }

  lemma ArrivalsFitSnoc(init: seq<Try>, last: Try)
    requires ArrivalsFit(init) && Tip(init) <= last.pos
    ensures ArrivalsFit(init + [last])
  {
    ArrivalsSnoc(init, last);
    hide Arrivals;
    hide StoredAt;
    forall i: nat
      ensures StoredAt(init + [last], i) <==> StoredAt(init, i) || (i == last.pos && last.outcome.Stored())
    {
      StoredAtSnoc(init, last, i);
    }
    forall k | 0 <= k < |Arrivals(init)| ensures Arrivals(init)[k] <= last.pos {
      BelowEnd(Arrivals(init), Arrivals(init)[k]);
    }
  }

  /** Some PUT of the row at `i` was stored. */
  ghost predicate StoredAt(log: seq<Try>, i: nat) {
    exists k :: 0 <= k < |log| && log[k].pos == i && log[k].outcome.Stored()
  }

  lemma StoredAtSnoc(log: seq<Try>, last: Try, i: nat)
    ensures StoredAt(log + [last], i) <==> StoredAt(log, i) || (i == last.pos && last.outcome.Stored())
  {
    var all := log + [last];
    if StoredAt(log, i) {
      var k :| 0 <= k < |log| && log[k].pos == i && log[k].outcome.Stored();
      assert all[k] == log[k];
    }
    assert all[|log|] == last;
    if StoredAt(all, i) {
      var k :| 0 <= k < |all| && all[k].pos == i && all[k].outcome.Stored();
      assert k < |log| ==> log[k] == all[k];
    }
  }

  /** A PUT of the row at `i` was read as acknowledged without having been stored, and none was ever stored. */
  ghost predicate LostAt(log: seq<Try>, i: nat) {
    (exists k :: 0 <= k < |log| && log[k] == Try(i, Misread)) && !StoredAt(log, i)
  }

  /**
   Exactly the first `synced` rows are marked; the cloud holds exactly the rows among the first `stored` that are not
   lost, in order; only marked rows can be lost.
   */
  ghost predicate Delivered(s: State, synced: nat, stored: nat, lost: set<nat>) {
    && synced <= stored <= synced + 1 && stored <= |s.table|
    && (forall i :: 0 <= i < |s.table| ==> (s.table[i].synced <==> i < synced))
    && (forall i :: i in lost ==> i < synced)
    && (forall i: nat :: i in Arrivals(s.log) <==> i < stored && i !in lost)
    && |Arrivals(s.log)| == |s.cloud|
    && Collapse(Arrivals(s.log), s.cloud) == Without(Readings(s.table), stored, lost)
    && (forall r :: r in s.cloud <==> r in Without(Readings(s.table), stored, lost))
  }

  /** The marked rows of which no PUT was stored. */
  ghost function Lost(s: State): (lost: set<nat>)
    ensures forall i: nat :: i in lost <==> i < Frontier(s) && i !in Arrivals(s.log)
  {
    set i: nat | i < Frontier(s) && i !in Arrivals(s.log)
  }

  function StoredRows(s: State): nat {
    if Frontier(s) in Arrivals(s.log) then Frontier(s) + 1 else Frontier(s)
  }

  lemma ArrivedPositions(s: State)
    requires TableInv(s) && LogInv(s) && CloudInv(s)
    ensures Ascending(Arrivals(s.log)) && End(Arrivals(s.log)) <= StoredRows(s) <= |s.table|
    ensures forall i: nat :: i in Arrivals(s.log) <==> i < StoredRows(s) && i !in Lost(s)
  {
    ArrivalsAre(s.log);
    var arrivals := Arrivals(s.log);
    hide Arrivals;
    hide InOrder;
    hide StoredAt;
    hide AckedAt;
    hide Ascending;
    forall i: nat | i in arrivals ensures i <= Frontier(s) {
      BelowEnd(arrivals, i);
    }
    if Frontier(s) in arrivals {
      var k :| 0 <= k < |arrivals| && arrivals[k] == Frontier(s);
      assert s.cloud[k] == s.table[arrivals[k]].reading;
    } else if arrivals != [] {
      assert arrivals[|arrivals| - 1] in arrivals;
    }
  }

  lemma CloudHas(s: State, r: Reading)
    requires Inv(s)
    ensures r in s.cloud <==> r in Without(Readings(s.table), StoredRows(s), Lost(s))
    ensures StoredRows(s) <= |s.table|
  {
    hide CostInv;
    hide FlowInv;
    hide LogInv;
    hide TableInv;
    ArrivedPositions(s);
    WithoutHas(Readings(s.table), StoredRows(s), Lost(s), r);
    var arrivals := Arrivals(s.log);
    hide Arrivals;
    hide Without;
    hide StoredRows;
    hide Lost;
    if r in s.cloud {
      var k :| 0 <= k < |s.cloud| && s.cloud[k] == r;
      assert arrivals[k] in arrivals;
    }
    if i: nat :| i < StoredRows(s) && i !in Lost(s) && Readings(s.table)[i] == r {
      assert i in arrivals;
      var k :| 0 <= k < |arrivals| && arrivals[k] == i;
      assert s.cloud[k] == r;
    }
  }

  lemma CollapseIsStored(s: State)
    requires TableInv(s) && LogInv(s) && CloudInv(s)
    ensures StoredRows(s) <= |s.table|
    ensures Collapse(Arrivals(s.log), s.cloud) == Without(Readings(s.table), StoredRows(s), Lost(s))
  {
    ArrivedPositions(s);
    var arrivals, rows, lost := Arrivals(s.log), Readings(s.table), Lost(s);
    hide Arrivals;
    hide LogInv;
    hide TableInv;
    hide Without;
    CollapseIs(arrivals, s.cloud, rows, lost);
    forall i: nat | End(arrivals) <= i < StoredRows(s) ensures i in lost {
      if i in arrivals {
        BelowEnd(arrivals, i);
      }
    }
    WithoutSkips(rows, End(arrivals), StoredRows(s), lost);
  }

  lemma InvDelivers(s: State)
    requires Inv(s)
    ensures Delivered(s, Frontier(s), StoredRows(s), Lost(s))
  {
    hide LogInv;
    hide TableInv;
    hide PhaseInv;
    hide CostInv;
    hide FlowInv;
    hide Collapse;
    hide Without;
    hide Arrivals;
    hide Lost;
    hide StoredRows;
    hide NextPending;
    hide Readings;
    ArrivedPositions(s);
    CollapseIsStored(s);
    MarkedRows(s);
    forall r ensures r in s.cloud <==> r in Without(Readings(s.table), StoredRows(s), Lost(s)) {
      CloudHas(s, r);
    }
  }

  lemma MarkedRows(s: State)
    requires Inv(s)
    ensures forall i :: 0 <= i < |s.table| ==> (s.table[i].synced <==> i < Frontier(s))
    ensures Frontier(s) <= StoredRows(s) <= Frontier(s) + 1
  {
    hide LogInv;
    hide CloudInv;
    hide CostInv;
    hide FlowInv;
  }

  /** Of the marked rows, those never stored are exactly those marked on a misread answer with no PUT stored. */
  lemma LostAreMisread(s: State, i: nat)
    requires Inv(s) && i < Frontier(s)
    ensures i in Lost(s) <==> LostAt(s.log, i)
  {
    hide CostInv;
    hide FlowInv;
    hide CloudInv;
    ArrivalsAre(s.log);
    assert AckedAt(s.log, i);
    var k :| 0 <= k < |s.log| && s.log[k].pos == i && s.log[k].outcome.ReadAsAcked();
    assert s.log[k].outcome.Stored() || s.log[k] == Try(i, Misread);
  }

  /**
   In every reachable state the marked rows are a prefix of the table, and the cloud holds that prefix, or that prefix
   and the next row, in table order, without the rows that are lost: those marked on an answer that was read as an
   acknowledgement of a PUT not stored, and of which no other PUT was stored. Only a row stored again right after itself
   appears twice.
   */
  lemma DeliveredInOrder(es: seq<Event>, s: State)
    requires Run(Init, es) == Some(s)
    ensures exists synced: nat, stored: nat, lost: set<nat> ::
      Delivered(s, synced, stored, lost) && forall i: nat :: i < synced ==> (i in lost <==> LostAt(s.log, i))
  {
    hide Run;
    InitInv();
    RunKeepsInv(Init, es, s);
    InvDelivers(s);
    forall i: nat | i < Frontier(s) ensures i in Lost(s) <==> LostAt(s.log, i) {
      LostAreMisread(s, i);
    }
    hide *;
    assert Delivered(s, Frontier(s), StoredRows(s), Lost(s)) &&
           forall i: nat :: i < Frontier(s) ==> (i in Lost(s) <==> LostAt(s.log, i));
  }

  /** The cloud misses no marked row. */
  ghost predicate DeliveredInFull(s: State) {
    exists synced: nat, stored: nat :: Delivered(s, synced, stored, {})
  }

  /** Then, without repetitions, the cloud is the first rows of the table: all that are marked, and at most one more. */
  lemma FullIsPrefix(s: State, synced: nat, stored: nat)
    requires Delivered(s, synced, stored, {})
    ensures synced <= stored <= synced + 1 && stored <= |s.table|
    ensures Collapse(Arrivals(s.log), s.cloud) == Readings(s.table)[..stored]
  {
    hide Collapse;
    hide Arrivals;
    NothingLost(Readings(s.table), stored);
  }

  lemma FullMeansNoneLost(s: State, i: nat)
    requires DeliveredInFull(s) && i < |s.table| && s.table[i].synced
    ensures i in Arrivals(s.log)
  {
    hide Collapse;
    hide Without;
    hide Arrivals;
    hide Readings;
    var synced: nat, stored: nat :| Delivered(s, synced, stored, {});
  }

  lemma NoneLostMeansFull(s: State)
    requires Inv(s) && Lost(s) == {}
    ensures DeliveredInFull(s)
  {
    hide Delivered;
    hide Inv;
    hide Lost;
    InvDelivers(s);
  }

  /** That is so exactly when no marked row was lost to a misread answer. */
  lemma FullUnlessMisread(es: seq<Event>, s: State)
    requires Run(Init, es) == Some(s)
    ensures DeliveredInFull(s) <==> forall i: nat :: i < |s.table| && s.table[i].synced ==> !LostAt(s.log, i)
  {
    hide Run;
    hide LostAt;
    hide DeliveredInFull;
    hide Inv;
    InitInv();
    RunKeepsInv(Init, es, s);
    MarkedRows(s);
    forall i: nat | i < Frontier(s) ensures i in Lost(s) <==> LostAt(s.log, i) {
      LostAreMisread(s, i);
    }
    hide NextPending;
    hide Lost;
    if DeliveredInFull(s) {
      forall i: nat | i < |s.table| && s.table[i].synced ensures !LostAt(s.log, i) {
        FullMeansNoneLost(s, i);
      }
    } else if Lost(s) == {} {
      NoneLostMeansFull(s);
    }
  }

  /** Every outcome in the log is one of an event. */
  lemma {:induction false} LogIsFromEvents(es: seq<Event>, s: State, k: nat)
    requires Run(Init, es) == Some(s) && k < |s.log|
    ensures Put(s.log[k].outcome) in es
    decreases |es|
  {
    if es != [] {
      var init, last := es[..|es| - 1], es[|es| - 1];
      var mid := Run(Init, init).value;
      assert es == init + [last];
      StepGrowsLog(mid, last, s);
      if k < |mid.log| {
        LogIsFromEvents(init, mid, k);
      }
    }
  }

  lemma StepGrowsLog(s: State, e: Event, t: State)
    requires Step(s, e) == Some(t)
    ensures t.log == s.log || (e.Put? && t.log == s.log + [Try(s.phase.pos, e.outcome)])
  {
  }

  /** So a run in which no answer is misread delivers everything it marks. */
  lemma NoMisreadDelivers(es: seq<Event>, s: State)
    requires Run(Init, es) == Some(s) && Put(Misread) !in es
    ensures DeliveredInFull(s)
  {
    FullUnlessMisread(es, s);
    forall i: nat | i < |s.table| && s.table[i].synced ensures !LostAt(s.log, i) {
      if LostAt(s.log, i) {
        var k :| 0 <= k < |s.log| && s.log[k] == Try(i, Misread);
        LogIsFromEvents(es, s, k);
      }
    }
  }

  lemma Extend(es: seq<Event>, s: State, e: Event, t: State) returns (longer: seq<Event>)
    requires Run(Init, es) == Some(s) && Step(s, e) == Some(t)
    ensures longer == es + [e] && Run(Init, longer) == Some(t)
  {
    longer := es + [e];
    RunSnoc(Init, es, e);
  }

  /** The only row, still pending, is sent and then marked on a misread answer. */
  lemma MisreadMarks(before: seq<Event>, s: State, r: Reading) returns (es: seq<Event>, t: State)
    requires Run(Init, before) == Some(s) && s.phase == Deciding && s.noInternetCount == 0
    requires s.table == [Row(1, r, false)] && s.cloud == [] && s.log == [] && r.timestamp != 0
    ensures Run(Init, es) == Some(t) && t.table == [Row(1, r, true)] && t.cloud == [] && t.log == [Try(0, Misread)]
  {
    var s1 := s.(phase := Opening);
    var s2 := s.(phase := Scanning(0));
    assert NextPending(s.table, 0) == 0;
    var s3 := s.(phase := Sending(0));
    var s4 := Step(s3, Put(Misread)).value;
    t := Step(s4, Mark(true)).value;
    assert t.table == [Row(1, r, true)];
    hide Run;
    es := Extend(before, s, CheckInternet(true), s1);
    es := Extend(es, s1, OpenDb(true), s2);
    es := Extend(es, s2, Fetch, s3);
    es := Extend(es, s3, Put(Misread), s4);
    es := Extend(es, s4, Mark(true), t);
  }

  lemma OneReadingStored(r: Reading) returns (es: seq<Event>, s: State)
    ensures Run(Init, es) == Some(s) && s.phase == Deciding && s.noInternetCount == 0
    ensures s.table == [Row(1, r, false)] && s.cloud == [] && s.log == []
  {
    var s1 := Step(Init, Push(r)).value;
    var s2 := Step(s1, Pop).value;
    s := Step(s2, Insert(true)).value;
    es := Extend([], Init, Push(r), s1);
    es := Extend(es, s1, Pop, s2);
    es := Extend(es, s2, Insert(true), s);
  }

  /** One misread answer is enough to mark a row that the cloud never gets. */
  lemma MisreadLoses(r: Reading) returns (es: seq<Event>, s: State)
    requires r.timestamp != 0
    ensures Run(Init, es) == Some(s) && s.table == [Row(1, r, true)] && s.cloud == [] && !DeliveredInFull(s)
  {
    var before, mid := OneReadingStored(r);
    hide Run;
    es, s := MisreadMarks(before, mid, r);
    hide DeliveredInFull;
    FullUnlessMisread(es, s);
    assert s.log[0] == Try(0, Misread);
    assert LostAt(s.log, 0) && s.table[0].synced;
  }

  lemma ZeroRowIsBarrier(s: State, k: nat)
    requires TableInv(s) && LogInv(s) && k < |s.table| && s.table[k].reading.timestamp == 0
    ensures Frontier(s) <= k && Tip(s.log) < k
  {
  }

  lemma {:induction false} PositionsEnd(log: seq<Try>, k: nat)
    requires InOrder(log) && k < |log|
    ensures log[k].pos <= Tip(log)
    decreases |log|
  {
    if k < |log| - 1 {
      PositionsEnd(log[..|log| - 1], k);
    }
  }

  /**
   A row with timestamp 0 stops every sync in front of it: neither it nor any later row is ever sent or marked,
   whatever happens from then on.
   */
  lemma ZeroTimestampBlocks(es: seq<Event>, s: State, k: nat, later: seq<Event>, t: State)
    requires Run(Init, es) == Some(s) && Run(s, later) == Some(t)
    requires k < |s.table| && s.table[k].reading.timestamp == 0
    ensures k < |t.table|
    ensures forall i :: k <= i < |t.table| ==> !t.table[i].synced
    ensures forall j :: 0 <= j < |t.log| ==> t.log[j].pos < k
  {
    hide Run;
    hide CostInv;
    hide FlowInv;
    hide PhaseInv;
    hide InOrder;
    InitInv();
    RunKeepsInv(Init, es, s);
    RunKeepsInv(s, later, t);
    ZeroRowIsBarrier(t, k);
    forall j: nat | j < |t.log| ensures t.log[j].pos < k {
      PositionsEnd(t.log, j);
    }
  }

  // ---------- Conservation ----------

  lemma {:induction false} InterleavingAlone(a: seq<Reading>, c: seq<Reading>)
    requires Interleaving(a, [], c)
    ensures a == c
    decreases |c|
  {
    if c != [] {
      InterleavingAlone(a[..|a| - 1], c[..|c| - 1]);
    }
  }

  /**
   No reading of this boot is lost silently or reordered: what was pushed is an interleaving of the rows inserted
   and the readings whose insert failed, then the reading in hand, then the queue. If no insert failed, the rows
   inserted are exactly the consumed readings, in order.
   */
  lemma ReadingsConserved(es: seq<Event>, s: State)
    requires Run(Init, es) == Some(s)
    ensures s.boot.rows <= |s.table|
    ensures exists consumed ::
      && s.pushed == consumed + InHand(s) + s.queue
      && Interleaving(Readings(s.table[s.boot.rows..]), s.dropped, consumed)
      && (s.dropped == [] ==> Readings(s.table[s.boot.rows..]) == consumed)
  {
    hide Run;
    hide TableInv;
    hide LogInv;
    hide CloudInv;
    hide CostInv;
    InitInv();
    RunKeepsInv(Init, es, s);
    if s.dropped == [] {
      InterleavingAlone(Readings(s.table[s.boot.rows..]), Consumed(s));
    }
    assert s.pushed == Consumed(s) + InHand(s) + s.queue;
  }

  // ---------- Cost ----------

  /**
   Within one boot the PUTs sent, accepted or not, number at most the rows marked, the failed syncs and the one being
   marked, and N pops allow at most ceil(N / 101) failed syncs.
   */
  lemma UploadCost(es: seq<Event>, s: State)
    requires Run(Init, es) == Some(s)
    ensures s.boot.synced <= Frontier(s) && s.boot.tries <= |s.log|
    ensures |s.log| - s.boot.tries <= Frontier(s) - s.boot.synced + s.failed + (if s.phase.Marking? then 1 else 0)
    ensures s.failed <= (s.pops + 100) / 101
  {
    hide Run;
    hide TableInv;
    hide LogInv;
    hide CloudInv;
    hide FlowInv;
    hide NextPending;
    InitInv();
    RunKeepsInv(Init, es, s);
  }

  function PopCount(es: seq<Event>): nat {
    if es == [] then 0
    else PopCount(es[..|es| - 1]) + (if es[|es| - 1].Pop? then 1 else 0)
  }

  /** Where the consumer is in the back-off when `pops` readings have been popped since the failed sync. */
  ghost predicate BackedOff(s: State, pops: nat) {
    if s.phase.Idle? then s.noInternetCount == if pops == 100 then 0 else pops + 1
    else (s.phase.Holding? || s.phase.Deciding?) && pops > 0 && s.noInternetCount == pops
  }

  lemma BackedOffStep(s: State, e: Event, t: State, pops: nat)
    requires BackedOff(s, pops) && pops < 100 + (if e.Pop? then 0 else 1) && Step(s, e) == Some(t) && !e.Crash?
    ensures BackedOff(t, if e.Pop? then pops + 1 else pops) && !e.CheckInternet?
  {
  }

  /**
   A failed sync is followed by exactly 100 pops without any attempt: up to the 100th the counter counts them, and then
   it is 0 again.
   */
  lemma {:induction false} BackoffLasts(s: State, es: seq<Event>, t: State)
    requires s.phase.Idle? && s.noInternetCount == 1
    requires Run(s, es) == Some(t) && Crash !in es && PopCount(es) <= 100
    ensures forall e :: e in es ==> !e.CheckInternet?
    ensures t.phase.Idle? ==> t.noInternetCount == if PopCount(es) == 100 then 0 else PopCount(es) + 1
    ensures BackedOff(t, PopCount(es))
    decreases |es|
  {
    if es != [] {
      var init, last := es[..|es| - 1], es[|es| - 1];
      assert es == init + [last];
      BackoffLasts(s, init, Run(s, init).value);
      BackedOffStep(Run(s, init).value, last, t, PopCount(init));
    }
  }

  // ---------- What arrives ----------

  /** Every reading the producer pushes has the property. */
  ghost predicate OnlyPushes(es: seq<Event>, p: Reading -> bool) {
    forall e :: e in es && e.Push? ==> p(e.reading)
  }

  ghost predicate AllHave(s: State, p: Reading -> bool) {
    && (forall r :: r in s.queue ==> p(r)) && (forall r :: r in s.cloud ==> p(r))
    && (forall i :: 0 <= i < |s.table| ==> p(s.table[i].reading))
    && (s.phase.Holding? ==> p(s.phase.reading))
  }

  lemma StepKeepsAll(s: State, e: Event, t: State, p: Reading -> bool)
    requires AllHave(s, p) && Step(s, e) == Some(t) && (e.Push? ==> p(e.reading))
    ensures AllHave(t, p)
  {
  }

  /** Nothing but readings pushed in this boot or an earlier one is ever in the queue, the table or the cloud. */
  lemma {:induction false} OnlyPushedArrives(es: seq<Event>, s: State, p: Reading -> bool)
    requires Run(Init, es) == Some(s) && OnlyPushes(es, p)
    ensures AllHave(s, p)
    decreases |es|
  {
    if es != [] {
      var init, last := es[..|es| - 1], es[|es| - 1];
      assert es == init + [last];
      OnlyPushedArrives(init, Run(Init, init).value, p);
      StepKeepsAll(Run(Init, init).value, last, s, p);
    }
  }

  // ---------- Catching up ----------

  /** The environment lets every insert, check, open, cursor step, PUT and mark succeed, and there is no crash. */
  predicate Favourable(e: Event) {
    match e
    case Push(_) => true
    case Pop => true
    case Backoff => true
    case Fetch => true
    case Insert(ok) => ok
    case CheckInternet(ok) => ok
    case OpenDb(ok) => ok
    case Put(outcome) => outcome.Acked?
    case Mark(ok) => ok
    case CursorError => false
    case Crash => false
  }

  /** The first pending row, if there is one, has timestamp 0. */
  ghost predicate Drained(s: State) {
    Frontier(s) < |s.table| ==> s.table[Frontier(s)].reading.timestamp == 0
  }

  /** How far `pops` favourable pops have brought the uploader. */
  ghost predicate Progress(s: State, pops: nat) {
    if s.phase.Idle? then
      if s.noInternetCount == 0 then pops <= 100 || Drained(s) else pops < s.noInternetCount
    else s.noInternetCount != 0 ==> pops <= s.noInternetCount
  }

  lemma FavourableStep(s: State, e: Event, t: State, pops: nat)
    requires Inv(s) && Favourable(e) && Step(s, e) == Some(t) && Progress(s, pops)
    ensures Progress(t, if e.Pop? then pops + 1 else pops)
  {
    TableKept(s, e, t);
    if e == Fetch {
      FrontierIs(s.table, NextPending(s.table, s.phase.pos));
    }
  }

  lemma {:induction false} FavourableRun(s: State, es: seq<Event>, t: State)
    requires Inv(s) && Run(s, es) == Some(t) && forall e :: e in es ==> Favourable(e)
    ensures Inv(t) && Progress(t, PopCount(es))
    decreases |es|
  {
    if es != [] {
      var init, last := es[..|es| - 1], es[|es| - 1];
      var mid := Run(s, init).value;
      FavourableRun(s, init, mid);
      assert last in es;
      FavourableStep(mid, last, t, PopCount(init));
      StepKeepsInv(mid, last, t);
    }
  }

  /** Between two pops the rows that are marked are those before the first row with timestamp 0, if there is one. */
  lemma CaughtUp(t: State, pops: nat)
    requires Inv(t) && Progress(t, pops) && pops >= 101 && t.phase.Idle?
    ensures (forall i :: 0 <= i < |t.table| ==> t.table[i].synced) <==>
            (forall i :: 0 <= i < |t.table| ==> t.table[i].reading.timestamp != 0)
    ensures forall i :: 0 <= i < |t.table| ==>
      (t.table[i].synced <==> forall j :: 0 <= j <= i ==> t.table[j].reading.timestamp != 0)
  {
    hide LogInv;
    hide CloudInv;
    hide CostInv;
    hide FlowInv;
    assert Drained(t);
    var n := Frontier(t);
    assert forall i :: 0 <= i < |t.table| ==> (t.table[i].synced <==> i < n);
    assert forall i :: 0 <= i < n ==> t.table[i].reading.timestamp != 0;
    assert n < |t.table| ==> t.table[n].reading.timestamp == 0 && !t.table[n].synced;
  }

  /**
   From any reachable state, once the environment is favourable and 101 or more readings have been popped, the
   backlog between two pops is empty if and only if no row has timestamp 0; otherwise it starts at the first such row.
   */
  lemma CatchUp(es: seq<Event>, s: State, later: seq<Event>, t: State)
    requires Run(Init, es) == Some(s) && Run(s, later) == Some(t)
    requires forall e :: e in later ==> Favourable(e)
    requires PopCount(later) >= 101 && t.phase.Idle?
    ensures (forall i :: 0 <= i < |t.table| ==> t.table[i].synced) <==>
            (forall i :: 0 <= i < |t.table| ==> t.table[i].reading.timestamp != 0)
    ensures forall i :: 0 <= i < |t.table| ==>
      (t.table[i].synced <==> forall j :: 0 <= j <= i ==> t.table[j].reading.timestamp != 0)
  {
    hide *;
    InitInv();
    RunKeepsInv(Init, es, s);
    FavourableRun(s, later, t);
    CaughtUp(t, PopCount(later));
  }
}
