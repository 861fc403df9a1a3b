/** The consumer thread itself, proved to take only steps of the upload machine, and exactly the ones it has to. */
module UploadHandler {
  import opened Types
  import opened Response
  import opened UploadMachine
  import opened UploadTheorems
  import opened Attempts

  /** How far the database lets an insert get. */
  datatype Insertion = Insertion(dbOpened: bool, tableThere: bool, inserted: bool) {
    predicate Ok() { dbOpened && tableThere && inserted }
  }

  /** What the environment does while one reading is handled; `cursorOk`, `answer` and `markOk` go by table position. */
  datatype Env = Env(
    insertion: Insertion, online: bool, openOk: bool,
    cursorOk: nat -> bool, answer: nat -> Answer, markOk: nat -> bool)

  /** What the consumer does next in state `s`; None while it waits for a reading. */
  function NextEvent(s: State, env: Env): Option<Event> {
    match s.phase
    case Idle => if s.queue == [] then None else Some(Pop)
    case Holding(_) => Some(Insert(env.insertion.Ok()))
    case Deciding => Some(if s.noInternetCount == 0 then CheckInternet(env.online) else Backoff)
    case Opening => Some(OpenDb(env.openOk))
    case Scanning(pos) => Some(if env.cursorOk(pos) then Fetch else CursorError)
    case Sending(pos) => Some(Put(Outcome(env.answer(pos))))
    case Marking(pos) => Some(Mark(env.markOk(pos)))
  }

  /** The state after the consumer's next `n` steps from `s`. */
  function Consume(s: State, env: Env, n: nat): Option<State> {
    if n == 0 then Some(s)
    else
      match Consume(s, env, n - 1)
      case None => None
      case Some(t) => match NextEvent(t, env) { case None => None case Some(e) => Step(t, e) }
  }

  /** The events of those steps. */
  function Events(s: State, env: Env, n: nat): seq<Event>
    requires Consume(s, env, n).Some?
  {
    if n == 0 then [] else Events(s, env, n - 1) + [NextEvent(Consume(s, env, n - 1).value, env).value]
  }

  lemma ConsumeSnoc(s: State, env: Env, n: nat) returns (t: State, e: Event)
    requires n > 0 && Consume(s, env, n).Some?
    ensures Consume(s, env, n - 1) == Some(t) && NextEvent(t, env) == Some(e)
    ensures Consume(s, env, n) == Step(t, e) && Events(s, env, n) == Events(s, env, n - 1) + [e]
    ensures Consume(s, env, n).value.pops == t.pops + (if e.Pop? then 1 else 0)
  {
    t := Consume(s, env, n - 1).value;
    e := NextEvent(t, env).value;
    StepCountsPops(t, e, Step(t, e).value);
  }

  /** The consumer's steps are a run of the machine, in which the environment behaves as `env` says. */
  lemma {:induction false} ConsumeIsRun(s: State, env: Env, n: nat)
    requires Consume(s, env, n).Some?
    ensures Run(s, Events(s, env, n)) == Consume(s, env, n)
  {
    hide Step;
    hide NextEvent;
    if n != 0 {
      ConsumeIsRun(s, env, n - 1);
      var t, e := ConsumeSnoc(s, env, n);
      RunSnoc(s, Events(s, env, n - 1), e);
    }
  }

  lemma {:induction false} ConsumeCountsPops(s: State, env: Env, n: nat)
    requires Consume(s, env, n).Some?
    ensures PopCount(Events(s, env, n)) == Consume(s, env, n).value.pops - s.pops
  {
    hide Step;
    hide NextEvent;
    if n != 0 {
      ConsumeCountsPops(s, env, n - 1);
      var t, e := ConsumeSnoc(s, env, n);
      PopCountSnoc(Events(s, env, n - 1), e);
    }
  }

  lemma {:induction false} ConsumerPushesNothing(s: State, env: Env, n: nat)
    requires Consume(s, env, n).Some?
    ensures forall e :: e in Events(s, env, n) ==> !e.Push?
  {
    if n != 0 {
      ConsumerPushesNothing(s, env, n - 1);
    }
  }

  /** Nothing goes wrong while a reading is handled. */
  ghost predicate AllWell(env: Env) {
    && env.insertion.Ok() && env.online && env.openOk
    && forall pos :: env.cursorOk(pos) && Outcome(env.answer(pos)).Acked? && env.markOk(pos)
  }

  /** Then all steps of the consumer are favourable ones, of which CatchUp speaks. */
  lemma {:induction false} AllWellIsFavourable(s: State, env: Env, n: nat)
    requires AllWell(env) && Consume(s, env, n).Some?
    ensures forall e :: e in Events(s, env, n) ==> Favourable(e)
  {
    if n != 0 {
      AllWellIsFavourable(s, env, n - 1);
      var t, e := ConsumeSnoc(s, env, n);
    }
  }

  /** The cloud is honest, and no old buffer completes the answer to a PUT that was not stored. */
  ghost predicate ReadsWell(env: Env) {
    forall pos :: Honest(env.answer(pos)) && (env.answer(pos).stored || !Completed(env.answer(pos)))
  }

  lemma {:induction false} ReadsWellIsNeverMisread(s: State, env: Env, n: nat)
    requires ReadsWell(env) && Consume(s, env, n).Some?
    ensures Put(Misread) !in Events(s, env, n)
  {
    if n != 0 {
      ReadsWellIsNeverMisread(s, env, n - 1);
      var t, e := ConsumeSnoc(s, env, n);
      if t.phase.Sending? {
        HonestMisreads(env.answer(t.phase.pos));
      }
    }
  }

  /**
   With a response buffer that keeps an older acknowledgement, a silent peer and a mark that succeeds, two steps of the
   consumer mark a row that was not stored.
   */
  lemma StaleBufferMarks(s: State, env: Env, pos: nat, before: Answer) returns (t: State)
    requires PhaseInv(s) && TableInv(s) && s.phase == Sending(pos) && env.markOk(pos)
    requires ReadAsAcked(before) && env.answer(pos).stale == BufferAfter(before)
    requires var a := env.answer(pos); a.built && a.connected && Silent(a.script) && !a.stored
    ensures Consume(s, env, 2) == Some(t) && t.cloud == s.cloud && |t.table| == |s.table|
    ensures pos < |s.table| && t.table[pos] == s.table[pos].(synced := true)
  {
    AcknowledgementIsInherited(before, env.answer(pos));
    var mid := Step(s, Put(Misread)).value;
    t := Step(mid, Mark(true)).value;
    assert NextEvent(s, env) == Some(Put(Misread)) && NextEvent(mid, env) == Some(Mark(true));
    hide Step;
    ConsumeTwice(s, env, Put(Misread), mid, Mark(true), t);
  }

  lemma ConsumeTwice(s: State, env: Env, e: Event, mid: State, f: Event, t: State)
    requires NextEvent(s, env) == Some(e) && Step(s, e) == Some(mid)
    requires NextEvent(mid, env) == Some(f) && Step(mid, f) == Some(t)
    ensures Consume(s, env, 2) == Some(t)
  {
    hide Step;
    hide NextEvent;
    assert Consume(s, env, 0) == Some(s);
    assert Consume(s, env, 1) == Some(mid);
  }

  lemma PopCountSnoc(es: seq<Event>, e: Event)
    ensures PopCount(es + [e]) == PopCount(es) + (if e.Pop? then 1 else 0)
  {
    assert (es + [e])[..|es|] == es;
  }

  lemma StepCountsPops(s: State, e: Event, t: State)
    requires Step(s, e) == Some(t) && !e.Crash?
    ensures t.pops == s.pops + (if e.Pop? then 1 else 0)
  {
  }

  lemma {:induction false} PopsGrow(s: State, env: Env, m: nat, n: nat)
    requires m <= n && Consume(s, env, n).Some?
    ensures Consume(s, env, m).Some? && Consume(s, env, m).value.pops <= Consume(s, env, n).value.pops
    decreases n
  {
    hide Step;
    hide NextEvent;
    if m < n {
      var t, e := ConsumeSnoc(s, env, n);
      PopsGrow(s, env, m, n - 1);
    }
  }

  /** One turn of the consumer, from waiting to waiting again, ends in one state only. */
  lemma TurnDetermined(s: State, env: Env, m: nat, n: nat)
    requires m <= n && Consume(s, env, m).Some? && Consume(s, env, n).Some?
    requires Consume(s, env, m).value.phase.Idle?
    requires Consume(s, env, m).value.pops == Consume(s, env, n).value.pops
    ensures m == n
  {
    hide Step;
    if m < n {
      PopsGrow(s, env, m + 1, n);
      var t, e := ConsumeSnoc(s, env, m + 1);
    }
  }

  /** Nothing but marks has been added to the rows. */
  ghost predicate Marked(before: seq<Row>, after: seq<Row>) {
    && |after| == |before|
    && forall i :: 0 <= i < |after| ==>
         after[i].id == before[i].id && after[i].reading == before[i].reading && (before[i].synced ==> after[i].synced)
  }

  /** The first `k` rows are marked, and the next one, if there is one, is not and has timestamp 0. */
  predicate MarkedUpTo(table: seq<Row>, k: nat) {
    && k <= |table| && (forall i :: 0 <= i < k ==> table[i].synced)
    && (k < |table| ==> !table[k].synced && table[k].reading.timestamp == 0)
  }

  /** All rows are marked, or all up to one with timestamp 0. */
  ghost predicate UpToZero(table: seq<Row>) {
    exists k: nat :: MarkedUpTo(table, k)
  }

  lemma MarkedOnce(table: seq<Row>)
    ensures Marked(table, table)
  {
  }

  lemma MarkedTwice(before: seq<Row>, mid: seq<Row>, after: seq<Row>, n: nat)
    requires Marked(before, mid) && Marked(mid, after) && n <= |mid|
    requires forall i :: 0 <= i < n ==> mid[i].synced
    ensures Marked(before, after) && |after| == |mid| && forall i :: 0 <= i < n ==> after[i].synced
  {
  }

  lemma UpToZeroAt(table: seq<Row>, k: nat)
    requires k <= |table| && forall i :: 0 <= i < k ==> table[i].synced
    requires k < |table| ==> !table[k].synced && table[k].reading.timestamp == 0
    ensures UpToZero(table)
  {
    assert MarkedUpTo(table, k);
  }

  /** What one turn that starts with the back-off counter at 0 has done to the counter so far. */
  ghost predicate TurnCounts(s: State, t: State, failed: bool) {
    if t.pops == s.pops then t == s && !failed
    else
      && t.pops == s.pops + 1 && (failed ==> t.phase.Idle?)
      && t.noInternetCount == if failed then 1 else 0
  }

  lemma TurnStep(s: State, t: State, e: Event, u: State, failed: bool)
    requires s.phase.Idle? && s.noInternetCount == 0 && TurnCounts(s, t, failed) && Step(t, e) == Some(u)
    requires !e.Push? && !e.Crash? && u.pops <= s.pops + 1
    ensures TurnCounts(s, u, failed || Failure(e))
  {
    hide NextPending;
    hide MarkId;
  }

  /** In a turn that starts with the counter at 0, it ends up as 1 exactly when one of the four failures happens. */
  lemma {:induction false} TurnFails(s: State, env: Env, n: nat)
    requires s.phase.Idle? && s.noInternetCount == 0
    requires Consume(s, env, n).Some? && Consume(s, env, n).value.pops <= s.pops + 1
    ensures TurnCounts(s, Consume(s, env, n).value, exists e :: e in Events(s, env, n) && Failure(e))
  {
    hide Step;
    hide TurnCounts;
    hide Failure;
    if n == 0 {
      NothingCounted(s);
    } else {
      var t, e := ConsumeSnoc(s, env, n);
      TurnFails(s, env, n - 1);
      assert !e.Push? && !e.Crash?;
      TurnStep(s, t, e, Consume(s, env, n).value, exists f :: f in Events(s, env, n - 1) && Failure(f));
    }
  }

  lemma NothingCounted(s: State)
    ensures TurnCounts(s, s, false)
  {
  }

  /** The consumer's memory, the database and the cloud, with the machine state they represent. */
  class Uploader {
    var queue: seq<Reading>
    var table: seq<Row>
    var cloud: seq<Reading>
    var noInternetCount: nat
    ghost var machine: State
    ghost var history: seq<Event>

    /** The real fields are those of the machine, whose back-off counter is `count`. */
    ghost predicate Tracks(count: nat)
      reads this
    {
      && machine.queue == queue && machine.table == table && machine.cloud == cloud
      && machine.noInternetCount == count
    }

    /** The machine got here from a first installation by the events of `history`. */
    ghost predicate Valid()
      reads this
    {
      Tracks(noInternetCount) && Run(Init, history) == Some(machine)
    }

    /** First installation: no table, nothing in the cloud. */
    constructor ()
      ensures Valid() && history == []
    {
      queue, table, cloud, noInternetCount := [], [], [], 0;
      machine, history := Init, [];
    }

    /** The process starts again over the same table and cloud. */
    method Restart()
      requires Valid()
      modifies this
      ensures Valid() && history == old(history) + [Crash]
    {
      RunSnoc(Init, history, Crash);
      queue, noInternetCount := [], 0;
      machine, history := Reboot(machine), history + [Crash];
    }

    /** The producer's side of the queue. */
    method PushData(r: Reading)
      requires Valid()
      modifies this
      ensures Valid() && history == old(history) + [Push(r)]
      ensures queue == old(queue) + [r] && table == old(table) && cloud == old(cloud)
    {
      RunSnoc(Init, history, Push(r));
      queue := queue + [r];
      machine, history := Step(machine, Push(r)).value, history + [Push(r)];
    }

    /** Appends the reading with status 0, unless the database cannot be opened, has no table or refuses. */
    method WriteSqliteHxData(r: Reading, insertion: Insertion) returns (rc: nat)
      modifies this`table
      ensures rc == if insertion.Ok() then 0 else 1
      ensures table == if insertion.Ok() then old(table) + [Row(NextId(old(table)), r, false)] else old(table)
    {
      if !insertion.dbOpened {
        return 1;
      }
      if !insertion.tableThere {
        return 1;
      }
      if !insertion.inserted {
        return 1;
      }
      table := table + [Row(NextId(table), r, false)];
      rc := 0;
    }

    /** Moves the machine one consumer step on. */
    ghost method Advance(start: State, env: Env, n: nat, e: Event) returns (m: nat)
      requires Consume(start, env, n) == Some(machine)
      requires NextEvent(machine, env) == Some(e) && Step(machine, e).Some?
      modifies this`machine
      ensures Some(machine) == Step(old(machine), e)
      ensures Consume(start, env, m) == Some(machine)
    {
      machine := Step(machine, e).value;
      m := n + 1;
    }

    /** Sends the row under the cursor and, if the answer reads as an acknowledgement, marks it. */
    method SyncRow(pos: nat, env: Env, ghost start: State, ghost before: nat) returns (rc: nat, ghost n: nat)
      requires Tracks(0) && machine.phase == Sending(pos) && pos < |table|
      requires Consume(start, env, before) == Some(machine)
      modifies this`table, this`cloud, this`machine
      ensures Tracks(if rc == 0 then 0 else 1) && |table| == old(|table|)
      ensures machine.phase == if rc == 0 then Scanning(pos + 1) else Idle
      ensures machine.failed == old(machine.failed) + (if rc == 0 then 0 else 1)
      ensures Consume(start, env, n) == Some(machine) && machine.pops == old(machine.pops)
      ensures Marked(old(table), table) && (rc == 0 ==> table[pos].synced)
      ensures cloud == old(cloud) + if env.answer(pos).stored then [old(table)[pos].reading] else []
      ensures rc == if !ReadAsAcked(env.answer(pos)) then 2 else if env.markOk(pos) then 0 else 1
    {
      hide ReadAsAcked;
      hide Outcome;
      hide NextPending;
      hide MarkId;
      hide Consume;
      var answer := env.answer(pos);
      if answer.stored {
        cloud := cloud + [table[pos].reading];
      }
      n := Advance(start, env, before, Put(Outcome(answer)));
      var acked := SyncSingleRawData(answer);
      if acked != 0 {
        return 2, n;
      }
      if env.markOk(pos) {
        table := MarkId(table, table[pos].id);
      }
      n := Advance(start, env, n, Mark(env.markOk(pos)));
      if !env.markOk(pos) {
        return 1, n;
      }
      rc := 0;
    }

    /** Moves the cursor over the table, sending and marking the pending rows; the first failure ends it. */
    method SyncRows(env: Env, ghost start: State, ghost before: nat) returns (rc: nat, ghost n: nat)
      requires Tracks(0) && machine.phase == Scanning(0) && Consume(start, env, before) == Some(machine)
      modifies this`table, this`cloud, this`machine
      ensures Tracks(if rc == 0 then 0 else 1) && machine.phase == Idle && machine.pops == old(machine.pops)
      ensures Consume(start, env, n) == Some(machine)
      ensures machine.failed == old(machine.failed) + (if rc == 0 then 0 else 1)
      ensures Marked(old(table), table) && (rc == 0 && (forall pos :: env.cursorOk(pos)) ==> UpToZero(table))
    {
      MarkedOnce(table);
      hide Consume;
      hide UpToZero;
      hide Marked;
      hide ReadAsAcked;
      hide MarkId;
      n := before;
      var pos: nat := 0;
      while true
        invariant Tracks(0) && machine.phase == Scanning(pos) && pos <= |table|
        invariant Consume(start, env, n) == Some(machine)
        invariant machine.failed == old(machine.failed) && machine.pops == old(machine.pops)
        invariant Marked(old(table), table) && forall i :: 0 <= i < pos ==> table[i].synced
        decreases |table| - pos
      {
        if !env.cursorOk(pos) {
          n := Advance(start, env, n, CursorError);
          return 0, n;
        }
        n := Advance(start, env, n, Fetch);
        pos := NextPending(table, pos);
        if pos == |table| || table[pos].reading.timestamp == 0 {
          UpToZeroAt(table, pos);
          return 0, n;
        }
        ghost var rows := table;
        rc, n := SyncRow(pos, env, start, n);
        MarkedTwice(old(table), rows, table, pos);
        if rc != 0 {
          return rc, n;
        }
        pos := pos + 1;
      }
    }

    /**
     Checks the internet, opens the database and sends the pending rows. The result is 0 unless the sync counts as
     failed, and then, if the cursor did not fail, all is done that can be.
     */
    method SyncHxData(env: Env, ghost start: State, ghost before: nat) returns (rc: nat, ghost n: nat)
      requires Tracks(0) && machine.phase == Deciding && noInternetCount == 0
      requires Consume(start, env, before) == Some(machine)
      modifies this`table, this`cloud, this`machine
      ensures Tracks(if rc == 0 then 0 else 1) && machine.phase == Idle && machine.pops == old(machine.pops)
      ensures Consume(start, env, n) == Some(machine)
      ensures machine.failed == old(machine.failed) + (if rc == 0 then 0 else 1)
      ensures !env.online ==> rc == 2
      ensures env.online && !env.openOk ==> rc == 1
      ensures !env.online || !env.openOk ==> table == old(table) && cloud == old(cloud)
      ensures Marked(old(table), table) && (rc == 0 && (forall pos :: env.cursorOk(pos)) ==> UpToZero(table))
    {
      MarkedOnce(table);
      hide Consume;
      hide UpToZero;
      hide Marked;
      n := Advance(start, env, before, CheckInternet(env.online));
      if !env.online {
        return 2, n;
      }
      n := Advance(start, env, n, OpenDb(env.openOk));
      if !env.openOk {
        return 1, n;
      }
      rc, n := SyncRows(env, start, n);
    }

    /**
     What a turn has done, without the machine: the reading at the head of the queue is taken and appended, if the
     database takes it. If the counter was not 0, it goes on to 100 and then to 0, and nothing else happens. If it was,
     it is 1 or 0 now. Offline or without the database it is 1, and nothing else happens; if it is 0 and the cursor did
     not fail, all rows are marked up to the first with timestamp 0.
     */
    twostate predicate TurnTaken(env: Env)
      reads this
    {
      old(queue) != [] &&
      var added := if env.insertion.Ok() then [Row(NextId(old(table)), old(queue)[0], false)] else [];
      && queue == old(queue)[1..] && Marked(old(table) + added, table)
      && (old(noInternetCount) > 0 ==>
            && table == old(table) + added && cloud == old(cloud)
            && noInternetCount == if old(noInternetCount) < 100 then old(noInternetCount) + 1 else 0)
      && (old(noInternetCount) == 0 ==>
            && noInternetCount <= 1
            && (!env.online || !env.openOk ==>
                  noInternetCount == 1 && table == old(table) + added && cloud == old(cloud))
            && (noInternetCount == 0 && (forall pos :: env.cursorOk(pos)) ==> UpToZero(table)))
    }

    /** A sync if the counter is 0; otherwise the counter goes on, and after 100 it is 0 again. */
    method SyncOrBackOff(env: Env, ghost start: State, ghost before: nat) returns (ghost n: nat)
      requires Tracks(noInternetCount) && machine.phase == Deciding && Consume(start, env, before) == Some(machine)
      modifies this`table, this`cloud, this`noInternetCount, this`machine
      ensures Tracks(noInternetCount) && machine.phase == Idle && machine.pops == old(machine.pops)
      ensures Consume(start, env, n) == Some(machine)
      ensures old(noInternetCount) > 0 ==>
        && table == old(table) && cloud == old(cloud)
        && noInternetCount == if old(noInternetCount) < 100 then old(noInternetCount) + 1 else 0
      ensures old(noInternetCount) == 0 ==>
        && noInternetCount <= 1 && Marked(old(table), table)
        && (!env.online || !env.openOk ==> noInternetCount == 1 && table == old(table) && cloud == old(cloud))
        && (noInternetCount == 0 && (forall pos :: env.cursorOk(pos)) ==> UpToZero(table))
    {
      hide Consume;
      hide UpToZero;
      hide Marked;
      if noInternetCount == 0 {
        var rc: nat;
        rc, n := SyncHxData(env, start, before);
        if rc != 0 {
          noInternetCount := noInternetCount + 1;
        }
      } else {
        noInternetCount := noInternetCount + 1;
        if noInternetCount > NO_INTERNET_CHECK_FREQUENCY {
          noInternetCount := 0;
        }
        n := Advance(start, env, before, Backoff);
      }
    }

    /** The loop body of the consumer: it takes one reading, stores it, and then syncs or backs off. */
    method TakeTurn(env: Env) returns (ghost n: nat)
      requires Tracks(noInternetCount) && machine.phase == Idle && queue != []
      modifies this`queue, this`table, this`cloud, this`noInternetCount, this`machine
      ensures Tracks(noInternetCount) && machine.phase == Idle && machine.pops == old(machine.pops) + 1
      ensures Consume(old(machine), env, n) == Some(machine)
      ensures TurnTaken(env)
    {
      ghost var start := machine;
      assert Consume(start, env, 0) == Some(start);
      hide Consume;
      hide UpToZero;
      hide NextPending;
      hide MarkId;
      var reading := queue[0];
      queue := queue[1..];
      n := Advance(start, env, 0, Pop);
      var rc := WriteSqliteHxData(reading, env.insertion);
      n := Advance(start, env, n, Insert(env.insertion.Ok()));
      hide Step;
      hide NextEvent;
      n := SyncOrBackOff(env, start, n);
    }

    /**
     One turn of the consumer: it takes one reading and runs until it waits again. By TurnDetermined this fixes the
     queue, the table, the cloud and the counter. From 0 the counter becomes 1 exactly when one of the four failures is
     among the events of the turn.
     */
    method HandleOne(env: Env) returns (ghost n: nat)
      requires Valid() && machine.phase == Idle && queue != []
      modifies this
      ensures Valid() && machine.phase == Idle
      ensures Consume(old(machine), env, n) == Some(machine) && machine.pops == old(machine.pops) + 1
      ensures history == old(history) + Events(old(machine), env, n)
      ensures TurnTaken(env)
      ensures old(noInternetCount) == 0 ==>
        (noInternetCount == 1 <==> exists e :: e in Events(old(machine), env, n) && Failure(e))
    {
      hide Run;
      hide Failure;
      ghost var start := machine;
      n := TakeTurn(env);
      if start.noInternetCount == 0 {
        TurnFails(start, env, n);
      }
      ConsumeIsRun(start, env, n);
      RunConcat(Init, history, Events(start, env, n));
      history := history + Events(start, env, n);
    }
  }
}
