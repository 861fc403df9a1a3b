/**
 The store-and-forward uploader as a state machine over its smallest steps.

 The producer pushes readings on a volatile queue. The consumer pops one reading, inserts it in a durable
 table, and then either backs off or sends every pending row to the cloud, marking each row that was
 acknowledged. Every step of the environment is an event: a failed insert, a lost acknowledgement, an
 acknowledgement read where there was none, a failed UPDATE and a crash can happen wherever the program lets
 them happen.
 */
module UploadMachine {
  import opened Types

  const NO_INTERNET_CHECK_FREQUENCY: nat := 100

  datatype Row = Row(id: nat, reading: Reading, synced: bool)

  /**
   What became of one PUT: refused or never sent; stored and acknowledged; stored, but not read as acknowledged; read as
   acknowledged, but not stored.
   */
  datatype PutOutcome = Rejected | Acked | AckLost | Misread {
    predicate Stored() { Acked? || AckLost? }

    predicate ReadAsAcked() { Acked? || Misread? }
  }

  /** One PUT: the table position of its row, and what became of it. */
  datatype Try = Try(pos: nat, outcome: PutOutcome)

  /** Where the consumer thread is. `pos` is the position of its cursor in the table. */
  datatype Phase =
    | Idle
    | Holding(reading: Reading)
    | Deciding
    | Opening
    | Scanning(pos: nat)
    | Sending(pos: nat)
    | Marking(pos: nat)

  datatype Event =
    | Push(reading: Reading)
    | Pop
    | Insert(ok: bool)
    | Backoff
    | CheckInternet(ok: bool)
    | OpenDb(ok: bool)
    | Fetch
    | CursorError
    | Put(outcome: PutOutcome)
    | Mark(ok: bool)
    | Crash

  /** How much had already been done when the current process started. */
  datatype Boot = Boot(rows: nat, tries: nat, synced: nat)

  /**
   `table` and `cloud` survive a crash; `cloud` lists the accepted PUTs in order of arrival.
   The fields from `log` on are history: no step looks at them to decide what to do. `log` has every PUT ever sent,
   accepted or not; the others describe the current boot only.
   */
  datatype State = State(
    queue: seq<Reading>, table: seq<Row>, cloud: seq<Reading>, noInternetCount: nat, phase: Phase,
    log: seq<Try>, pushed: seq<Reading>, dropped: seq<Reading>, pops: nat, failed: nat, boot: Boot)

  const Init := State([], [], [], 0, Idle, [], [], [], 0, 0, Boot(0, 0, 0))

  // ---------- The table ----------

  function NextId(table: seq<Row>): nat {
    if table == [] then 1 else table[|table| - 1].id + 1
  }

  /** The position of the first row at or after `pos` whose status is still 0. */
  function NextPending(table: seq<Row>, pos: nat): (p: nat)
    requires pos <= |table|
    ensures pos <= p <= |table|
    ensures forall i :: pos <= i < p ==> table[i].synced
    ensures p < |table| ==> !table[p].synced
    decreases |table| - pos
  {
    if pos == |table| || !table[pos].synced then pos else NextPending(table, pos + 1)
  }

  /** The UPDATE statement: set the status of every row carrying `id`. */
  function MarkId(table: seq<Row>, id: nat): (t: seq<Row>)
    ensures |t| == |table|
    ensures forall i :: 0 <= i < |t| ==>
      t[i] == if table[i].id == id then table[i].(synced := true) else table[i]
  {
    seq(|table|, i requires 0 <= i < |table| =>
      if table[i].id == id then table[i].(synced := true) else table[i])
  }

  function Readings(rows: seq<Row>): (r: seq<Reading>)
    ensures |r| == |rows|
    ensures forall i :: 0 <= i < |r| ==> r[i] == rows[i].reading
  {
    seq(|rows|, i requires 0 <= i < |rows| => rows[i].reading)
  }

  /** The number of rows before the first pending one. */
  function Frontier(s: State): nat {
    NextPending(s.table, 0)
  }

  // ---------- Steps ----------

  /** A sync that ends with a non-zero result. */
  function Fail(s: State): State {
    s.(noInternetCount := s.noInternetCount + 1, failed := s.failed + 1, phase := Idle)
  }

  /** A new process: the queue and the back-off counter are gone, the table and the cloud are not. */
  function Reboot(s: State): State {
    s.(queue := [], noInternetCount := 0, phase := Idle, pushed := [], dropped := [], pops := 0, failed := 0,
       boot := Boot(|s.table|, |s.log|, Frontier(s)))
  }

  /** One step, or None when `e` cannot happen in `s`. */
  function Step(s: State, e: Event): Option<State> {
    match e
    case Push(r) => Some(s.(queue := s.queue + [r], pushed := s.pushed + [r]))
    case Crash => Some(Reboot(s))
    case Pop =>
      if s.phase.Idle? && s.queue != [] then
        Some(s.(queue := s.queue[1..], phase := Holding(s.queue[0]), pops := s.pops + 1))
      else None
    case Insert(ok) =>
      if !s.phase.Holding? then None
      else if ok then
        Some(s.(table := s.table + [Row(NextId(s.table), s.phase.reading, false)], phase := Deciding))
      else Some(s.(dropped := s.dropped + [s.phase.reading], phase := Deciding))
    case Backoff =>
      if s.phase.Deciding? && s.noInternetCount != 0 then
        var c := s.noInternetCount + 1;
        Some(s.(noInternetCount := if c > NO_INTERNET_CHECK_FREQUENCY then 0 else c, phase := Idle))
      else None
    case CheckInternet(ok) =>
      if s.phase.Deciding? && s.noInternetCount == 0 then
        Some(if ok then s.(phase := Opening) else Fail(s))
      else None
    case OpenDb(ok) =>
      if s.phase.Opening? then Some(if ok then s.(phase := Scanning(0)) else Fail(s)) else None
    case Fetch =>
      if s.phase.Scanning? && s.phase.pos <= |s.table| then
        var p := NextPending(s.table, s.phase.pos);
        Some(s.(phase := if p == |s.table| || s.table[p].reading.timestamp == 0 then Idle else Sending(p)))
      else None
    case CursorError =>
      if s.phase.Scanning? then Some(s.(phase := Idle)) else None
    case Put(outcome) =>
      if s.phase.Sending? && s.phase.pos < |s.table| then
        var tried := s.(log := s.log + [Try(s.phase.pos, outcome)],
                        cloud := s.cloud + if outcome.Stored() then [s.table[s.phase.pos].reading] else []);
        Some(if outcome.ReadAsAcked() then tried.(phase := Marking(s.phase.pos)) else Fail(tried))
      else None
    case Mark(ok) =>
      if s.phase.Marking? && s.phase.pos < |s.table| then
        Some(if ok then s.(table := MarkId(s.table, s.table[s.phase.pos].id), phase := Scanning(s.phase.pos + 1))
             else Fail(s))
      else None
  }

  /** The state after a run, or None if some event could not happen when its turn came. */
  function Run(s: State, es: seq<Event>): Option<State> {
    if es == [] then Some(s)
    else
      match Run(s, es[..|es| - 1])
      case None => None
      case Some(t) => Step(t, es[|es| - 1])
  }

  lemma RunSnoc(s: State, es: seq<Event>, e: Event)
    ensures Run(s, es + [e]) ==
            match Run(s, es) { case None => None case Some(t) => Step(t, e) }
  {
    assert (es + [e])[..|es|] == es;
  }

  lemma {:induction false} RunConcat(s: State, a: seq<Event>, b: seq<Event>)
    ensures Run(s, a + b) == match Run(s, a) { case None => None case Some(t) => Run(t, b) }
    decreases |b|
  {
    if b == [] {
      assert a + b == a;
    } else {
      var init, last := b[..|b| - 1], b[|b| - 1];
      assert a + b == (a + init) + [last];
      RunConcat(s, a, init);
      RunSnoc(s, a + init, last);
    }
  }

  // ---------- What every step keeps ----------

  /** Ids grow along the table, so an UPDATE by id changes one row. */
  ghost predicate IdsIncrease(table: seq<Row>) {
    forall i, j :: 0 <= i < j < |table| ==> table[i].id < table[j].id
  }

  /** The positions of the PUTs that were stored, in order of arrival. */
  function Arrivals(log: seq<Try>): seq<nat> {
    if log == [] then []
    else
      var last := log[|log| - 1];
      Arrivals(log[..|log| - 1]) + if last.outcome.Stored() then [last.pos] else []
  }

  /** The last position that was PUT, or -1. */
  function Tip(log: seq<Try>): int {
    if log == [] then -1 else log[|log| - 1].pos
  }

  /** The positions that were PUT start at 0 and each repeats its predecessor or is the next one. */
  ghost predicate InOrder(log: seq<Try>) {
    (log != [] ==> log[0].pos == 0) &&
    forall k :: 0 < k < |log| ==> log[k - 1].pos <= log[k].pos <= log[k - 1].pos + 1
  }

  /** Some PUT of the row at `i` was read as acknowledged. */
  ghost predicate AckedAt(log: seq<Try>, i: nat) {
    exists k :: 0 <= k < |log| && log[k].pos == i && log[k].outcome.ReadAsAcked()
  }

  ghost predicate TableInv(s: State) {
    && IdsIncrease(s.table)
    && (forall i :: Frontier(s) <= i < |s.table| ==> !s.table[i].synced)
    && (forall i :: 0 <= i < Frontier(s) ==> s.table[i].reading.timestamp != 0)
  }

  ghost predicate LogInv(s: State) {
    && InOrder(s.log)
    && (forall k :: 0 <= k < |s.log| ==>
          s.log[k].pos < |s.table| && s.table[s.log[k].pos].reading.timestamp != 0)
    && Frontier(s) - 1 <= Tip(s.log) <= Frontier(s)
    && (s.phase.Marking? ==> Tip(s.log) == s.phase.pos && s.log[|s.log| - 1].outcome.ReadAsAcked())
    && (forall i: nat :: i < Frontier(s) ==> AckedAt(s.log, i))
  }

  /** The cloud has the readings of the rows that arrived, in order of arrival. */
  ghost predicate CloudInv(s: State) {
    && |Arrivals(s.log)| == |s.cloud|
    && (forall k :: 0 <= k < |s.cloud| ==>
          Arrivals(s.log)[k] < |s.table| && s.cloud[k] == s.table[Arrivals(s.log)[k]].reading)
  }

  ghost predicate PhaseInv(s: State) {
    && s.noInternetCount <= NO_INTERNET_CHECK_FREQUENCY
    && (s.phase.Opening? || s.phase.Scanning? || s.phase.Sending? || s.phase.Marking? ==> s.noInternetCount == 0)
    && (s.phase.Scanning? ==> s.phase.pos <= Frontier(s))
    && (s.phase.Sending? || s.phase.Marking? ==>
          && s.phase.pos == Frontier(s) < |s.table|
          && s.table[s.phase.pos].reading.timestamp != 0)
  }

  /** Since the boot: one PUT for each row marked, one more for each failed sync, and one while a mark is due. */
  ghost predicate CostInv(s: State) {
    && s.boot.synced <= Frontier(s) && s.boot.tries <= |s.log|
    && |s.log| - s.boot.tries <= Frontier(s) - s.boot.synced + s.failed + (if s.phase.Marking? then 1 else 0)
    && (var done := s.pops - (if s.phase.Idle? then 0 else 1);
        if s.noInternetCount == 0 then 101 * s.failed <= done
        else 101 * (s.failed - 1) + s.noInternetCount <= done)
  }

  /** `c` is `a` and `b` merged, each kept in its own order. */
  ghost predicate Interleaving(a: seq<Reading>, b: seq<Reading>, c: seq<Reading>)
    decreases |c|
  {
    if c == [] then a == [] && b == []
    else
      var last := c[|c| - 1];
      || (a != [] && a[|a| - 1] == last && Interleaving(a[..|a| - 1], b, c[..|c| - 1]))
      || (b != [] && b[|b| - 1] == last && Interleaving(a, b[..|b| - 1], c[..|c| - 1]))
  }

  /** The reading the consumer has popped and not yet dealt with. */
  function InHand(s: State): seq<Reading> {
    if s.phase.Holding? then [s.phase.reading] else []
  }

  function Consumed(s: State): seq<Reading> {
    var left := |InHand(s)| + |s.queue|;
    if left <= |s.pushed| then s.pushed[..|s.pushed| - left] else []
  }

  ghost predicate FlowInv(s: State) {
    && s.boot.rows <= |s.table|
    && s.pushed == Consumed(s) + InHand(s) + s.queue
    && Interleaving(Readings(s.table[s.boot.rows..]), s.dropped, Consumed(s))
  }

  ghost predicate Inv(s: State) {
    TableInv(s) && LogInv(s) && CloudInv(s) && PhaseInv(s) && CostInv(s) && FlowInv(s)
  }

  // ---------- Preservation ----------

  lemma FrontierIs(table: seq<Row>, p: nat)
    requires p <= |table|
    requires forall i :: 0 <= i < p ==> table[i].synced
    requires p < |table| ==> !table[p].synced
    ensures NextPending(table, 0) == p
  {
  }

  /** As ids grow along the table, the UPDATE marks the one row at the frontier, which then moves past it. */
  lemma MarkMovesFrontier(s: State, t: State)
    requires TableInv(s) && s.phase.Marking? && s.phase.pos == Frontier(s) < |s.table|
    requires s.table[s.phase.pos].reading.timestamp != 0
    requires Step(s, Mark(true)) == Some(t)
    ensures t.table == s.table[s.phase.pos := s.table[s.phase.pos].(synced := true)]
    ensures Frontier(t) == Frontier(s) + 1 && TableInv(t)
    ensures |t.table| == |s.table| && forall i :: 0 <= i < |t.table| ==> t.table[i].reading == s.table[i].reading
  {
    FrontierIs(t.table, s.phase.pos + 1);
  }

  lemma InsertKeepsFrontier(s: State, t: State)
    requires TableInv(s) && Step(s, Insert(true)) == Some(t)
    ensures Frontier(t) == Frontier(s) && TableInv(t)
  {
    FrontierIs(t.table, Frontier(s));
  }

  lemma TableKept(s: State, e: Event, t: State)
    requires TableInv(s) && PhaseInv(s) && Step(s, e) == Some(t)
    ensures TableInv(t)
    ensures Frontier(t) == Frontier(s) + (if e == Mark(true) then 1 else 0)
    ensures |s.table| <= |t.table|
    ensures forall i :: 0 <= i < |s.table| ==> t.table[i].reading == s.table[i].reading
  {
    if e == Mark(true) {
      MarkMovesFrontier(s, t);
    } else if e == Insert(true) {
      InsertKeepsFrontier(s, t);
    }
  }

  lemma PhaseKept(s: State, e: Event, t: State)
    requires TableInv(s) && PhaseInv(s) && Step(s, e) == Some(t)
    ensures PhaseInv(t)
  {
    TableKept(s, e, t);
    if e == Fetch {
      FrontierIs(s.table, NextPending(s.table, s.phase.pos));
    }
  }

  lemma AckedStays(log: seq<Try>, more: seq<Try>, i: nat)
    requires AckedAt(log, i)
    ensures AckedAt(log + more, i)
  {
    var k :| 0 <= k < |log| && log[k].pos == i && log[k].outcome.ReadAsAcked();
    assert (log + more)[k] == log[k];
  }

  lemma InOrderGrows(log: seq<Try>, last: Try)
    requires InOrder(log) && last.pos - 1 <= Tip(log) <= last.pos
    ensures InOrder(log + [last])
  {
  }

  /** A PUT of the frontier row keeps the order of the PUTs. */
  lemma PutKeepsLog(s: State, t: State, outcome: PutOutcome)
    requires LogInv(s) && Frontier(s) < |s.table| && s.table[Frontier(s)].reading.timestamp != 0
    requires t.table == s.table && t.log == s.log + [Try(Frontier(s), outcome)]
    requires t.phase.Marking? ==> t.phase.pos == Frontier(s) && outcome.ReadAsAcked()
    ensures LogInv(t)
  {
    hide InOrder;
    hide AckedAt;
    hide NextPending;
    InOrderGrows(s.log, Try(Frontier(s), outcome));
    forall i: nat | i < Frontier(t) ensures AckedAt(t.log, i) {
      AckedStays(s.log, [Try(Frontier(s), outcome)], i);
    }
  }

  /** Without a PUT, growing the table or marking the row of the last PUT keeps it too. */
  lemma QuietKeepsLog(s: State, t: State)
    requires LogInv(s) && t.log == s.log && |s.table| <= |t.table| && !t.phase.Marking?
    requires forall i :: 0 <= i < |s.table| ==> t.table[i].reading == s.table[i].reading
    requires Frontier(t) ==
      if s.phase.Marking? && s.phase.pos == Frontier(s) < Frontier(t) then Frontier(s) + 1 else Frontier(s)
    ensures LogInv(t)
  {
    if Frontier(t) != Frontier(s) {
      var n := |s.log| - 1;
      assert s.log[n].pos == Frontier(s) && s.log[n].outcome.ReadAsAcked();
      assert AckedAt(t.log, Frontier(s));
    }
  }

  lemma LogKept(s: State, e: Event, t: State)
    requires TableInv(s) && LogInv(s) && PhaseInv(s) && Step(s, e) == Some(t)
    ensures LogInv(t)
  {
    TableKept(s, e, t);
    hide TableInv;
    hide InOrder;
    hide AckedAt;
    hide NextPending;
    hide LogInv;
    if e.Put? {
      PutKeepsLog(s, t, e.outcome);
    } else if e.Push? {
      SameLog(s, t);
    } else {
      QuietKeepsLog(s, t);
    }
  }

  lemma SameLog(s: State, t: State)
    requires LogInv(s) && t.log == s.log && t.table == s.table && t.phase == s.phase
    ensures LogInv(t)
  {
  }

  lemma ArrivalsSnoc(log: seq<Try>, last: Try)
    ensures Arrivals(log + [last]) == Arrivals(log) + if last.outcome.Stored() then [last.pos] else []
  {
    assert (log + [last])[..|log|] == log;
  }

  /** Rows are added and marked without changing the readings that arrived. */
  lemma QuietKeepsCloud(s: State, t: State)
    requires CloudInv(s) && t.log == s.log && t.cloud == s.cloud && |s.table| <= |t.table|
    requires forall i :: 0 <= i < |s.table| ==> t.table[i].reading == s.table[i].reading
    ensures CloudInv(t)
  {
  }

  lemma PutKeepsCloud(s: State, t: State, last: Try)
    requires CloudInv(s) && last.pos < |s.table| && t.table == s.table && t.log == s.log + [last]
    requires t.cloud == s.cloud + if last.outcome.Stored() then [s.table[last.pos].reading] else []
    ensures CloudInv(t)
  {
    ArrivalsSnoc(s.log, last);
    hide Arrivals;
  }

  lemma CloudKept(s: State, e: Event, t: State)
    requires TableInv(s) && CloudInv(s) && PhaseInv(s) && Step(s, e) == Some(t)
    ensures CloudInv(t)
  {
    TableKept(s, e, t);
    hide NextPending;
    hide TableInv;
    hide CloudInv;
    if e.Put? {
      PutKeepsCloud(s, t, Try(s.phase.pos, e.outcome));
    } else {
      QuietKeepsCloud(s, t);
    }
  }

  lemma CostKept(s: State, e: Event, t: State)
    requires TableInv(s) && PhaseInv(s) && CostInv(s) && Step(s, e) == Some(t)
    ensures CostInv(t)
  {
    TableKept(s, e, t);
  }

  lemma InterleavingSnoc(a: seq<Reading>, b: seq<Reading>, c: seq<Reading>, r: Reading)
    requires Interleaving(a, b, c)
    ensures Interleaving(a + [r], b, c + [r])
    ensures Interleaving(a, b + [r], c + [r])
  {
    assert (c + [r])[..|c|] == c && (a + [r])[..|a|] == a && (b + [r])[..|b|] == b;
  }

  /** The insert step moves the reading in hand to the table or to the dropped readings. */
  lemma InsertKeepsFlow(s: State, ok: bool, t: State)
    requires FlowInv(s) && Step(s, Insert(ok)) == Some(t)
    ensures FlowInv(t)
  {
    hide Interleaving;
    hide NextPending;
    hide NextId;
    var r := s.phase.reading;
    assert Consumed(t) == Consumed(s) + [r];
    InterleavingSnoc(Readings(s.table[s.boot.rows..]), s.dropped, Consumed(s), r);
    if ok {
      assert Readings(t.table[t.boot.rows..]) == Readings(s.table[s.boot.rows..]) + [r];
    }
  }

  lemma ConsumedIs(s: State, c: seq<Reading>)
    requires s.pushed == c + InHand(s) + s.queue
    ensures Consumed(s) == c
  {
  }

  lemma SameReadings(a: seq<Row>, b: seq<Row>, from: nat)
    requires |a| == |b| && from <= |a|
    requires forall i :: 0 <= i < |a| ==> a[i].reading == b[i].reading
    ensures Readings(a[from..]) == Readings(b[from..])
  {
  }

  /** The queue and the reading in hand only pass readings along. */
  lemma QueueKeepsFlow(s: State, e: Event, t: State)
    requires FlowInv(s) && Step(s, e) == Some(t) && (e.Push? || e.Pop?)
    ensures FlowInv(t)
  {
    hide Interleaving;
    hide NextPending;
    var c := Consumed(s);
    if e.Push? {
      assert t.pushed == c + InHand(s) + (s.queue + [e.reading]);
    } else {
      assert s.queue == [s.queue[0]] + s.queue[1..];
      assert t.pushed == c + InHand(t) + t.queue;
    }
    ConsumedIs(t, c);
  }

  /** No other step of the program changes the readings of the rows or the queue. */
  lemma SyncKeepsFlow(s: State, e: Event, t: State)
    requires FlowInv(s) && Step(s, e) == Some(t)
    requires !e.Insert? && !e.Crash? && !e.Push? && !e.Pop?
    ensures FlowInv(t)
  {
    hide Interleaving;
    hide NextPending;
    SameReadings(s.table, t.table, s.boot.rows);
    assert InHand(t) == InHand(s) == [];
    assert t.queue == s.queue && t.pushed == s.pushed;
  }

  lemma FlowKept(s: State, e: Event, t: State)
    requires FlowInv(s) && Step(s, e) == Some(t)
    ensures FlowInv(t)
  {
    if e.Insert? {
      InsertKeepsFlow(s, e.ok, t);
    } else if e.Crash? {
      assert t.table[t.boot.rows..] == [];
    } else if e.Push? || e.Pop? {
      QueueKeepsFlow(s, e, t);
    } else {
      SyncKeepsFlow(s, e, t);
    }
  }

  lemma StepKeepsInv(s: State, e: Event, t: State)
    requires Inv(s) && Step(s, e) == Some(t)
    ensures Inv(t)
  {
    TableKept(s, e, t);
    LogKept(s, e, t);
    CloudKept(s, e, t);
    PhaseKept(s, e, t);
    CostKept(s, e, t);
    FlowKept(s, e, t);
  }

  lemma {:induction false} RunKeepsInv(s: State, es: seq<Event>, t: State)
    requires Inv(s) && Run(s, es) == Some(t)
    ensures Inv(t)
    ensures |s.table| <= |t.table|
    ensures forall i :: 0 <= i < |s.table| ==> t.table[i].reading == s.table[i].reading
    decreases |es|
  {
    if es != [] {
      var init := es[..|es| - 1];
      var mid := Run(s, init).value;
      RunKeepsInv(s, init, mid);
      TableKept(mid, es[|es| - 1], t);
      StepKeepsInv(mid, es[|es| - 1], t);
    }
  }

  lemma InitInv()
    ensures Inv(Init)
  {
  }
}
