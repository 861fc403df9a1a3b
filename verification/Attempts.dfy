/** When the consumer tries to upload, told over the events of a run alone. */
module Attempts {
  import opened Types
  import opened UploadMachine
  import opened UploadTheorems

  /** The four ways in which a sync ends with a non-zero result. */
  predicate Failure(e: Event) {
    e == CheckInternet(false) || e == OpenDb(false) || e == Put(Rejected) || e == Put(AckLost) || e == Mark(false)
  }

  /** A new process or a new attempt. */
  predicate Begins(e: Event) {
    e.Crash? || e.CheckInternet?
  }

  /** Some event from the i-th on and before the j-th is a failure. */
  ghost predicate FailsIn(es: seq<Event>, i: int, j: int) {
    exists k :: 0 <= k < |es| && i <= k < j && Failure(es[k])
  }

  /** The i-th event begins a process or an attempt, or i is -1 for the first process, and none before the j-th does. */
  ghost predicate Stretch(es: seq<Event>, i: int, j: int) {
    && -1 <= i < j <= |es| && (i == -1 || Begins(es[i]))
    && forall k :: i < k < j ==> !Begins(es[k])
  }

  /** Where the machine can be when so many readings have been popped since, with or without a failure. */
  ghost predicate Since(t: State, pops: nat, failed: bool) {
    if !failed then
      && t.noInternetCount == 0
      && if t.phase.Holding? || t.phase.Deciding? then pops == 1 else pops == 0
    else if t.phase.Idle? then pops <= 100 && t.noInternetCount == if pops == 100 then 0 else pops + 1
    else
      && (t.phase.Holding? || t.phase.Deciding?) && 1 <= pops <= 101
      && t.noInternetCount == if pops == 101 then 0 else pops
  }

  lemma SinceStep(s: State, e: Event, t: State, pops: nat, failed: bool)
    requires Since(s, pops, failed) && Step(s, e) == Some(t) && !Begins(e)
    ensures Since(t, if e.Pop? then pops + 1 else pops, failed || Failure(e))
  {
    hide NextPending;
    hide MarkId;
  }

  lemma BeginningStep(s: State, e: Event, t: State)
    requires Begins(e) && Step(s, e) == Some(t)
    ensures Since(t, 0, Failure(e))
    ensures e.CheckInternet? ==> s.phase.Deciding? && s.noInternetCount == 0
  {
  }

  lemma PrefixRuns(es: seq<Event>, k: nat)
    requires Run(Init, es).Some? && k <= |es|
    ensures Run(Init, es[..k]).Some?
  {
    assert es[..k] + es[k..] == es;
    RunConcat(Init, es[..k], es[k..]);
  }

  lemma StepAt(es: seq<Event>, k: nat)
    requires Run(Init, es).Some? && k < |es|
    ensures Run(Init, es[..k]).Some? && Run(Init, es[..k + 1]).Some?
    ensures Step(Run(Init, es[..k]).value, es[k]) == Run(Init, es[..k + 1])
  {
    hide Run;
    hide Step;
    PrefixRuns(es, k);
    PrefixRuns(es, k + 1);
    assert es[..k + 1] == es[..k] + [es[k]];
    RunSnoc(Init, es[..k], es[k]);
  }

  lemma PopCountSnoc(es: seq<Event>, i: int, j: int)
    requires -1 <= i && i + 1 < j <= |es|
    ensures PopCount(es[i + 1..j]) == PopCount(es[i + 1..j - 1]) + (if es[j - 1].Pop? then 1 else 0)
  {
    assert es[i + 1..j][..j - i - 2] == es[i + 1..j - 1];
  }

  lemma {:induction false} StretchHolds(es: seq<Event>, i: int, j: int)
    requires Run(Init, es).Some? && Stretch(es, i, j)
    ensures Run(Init, es[..j]).Some?
    ensures Since(Run(Init, es[..j]).value, PopCount(es[i + 1..j]), FailsIn(es, i, j))
    decreases j
  {
    hide Step;
    hide Since;
    hide Run;
    hide Failure;
    if j == i + 1 {
      assert es[i + 1..j] == [];
      if i == -1 {
        InitSince(es);
        assert !FailsIn(es, i, j);
      } else {
        StepAt(es, i);
        BeginningStep(Run(Init, es[..i]).value, es[i], Run(Init, es[..j]).value);
        assert FailsIn(es, i, j) <==> Failure(es[i]);
      }
    } else {
      StretchHolds(es, i, j - 1);
      StepAt(es, j - 1);
      PopCountSnoc(es, i, j);
      SinceStep(Run(Init, es[..j - 1]).value, es[j - 1], Run(Init, es[..j]).value, PopCount(es[i + 1..j - 1]),
                FailsIn(es, i, j - 1));
      assert FailsIn(es, i, j) <==> FailsIn(es, i, j - 1) || Failure(es[j - 1]);
    }
  }

  lemma InitSince(es: seq<Event>)
    ensures Run(Init, es[..0]) == Some(Init) && Since(Init, 0, false)
  {
  }

  /**
   In every run, from the start of a process or from an attempt on, the next attempt of that process comes after exactly
   one more pop if nothing failed since, and after exactly 101 if there was no internet, the database did not open, a
   PUT was not read as acknowledged, or a mark failed.
   */
  lemma AttemptsAreSpaced(es: seq<Event>, i: int, j: int)
    requires Run(Init, es).Some? && Stretch(es, i, j) && j < |es| && es[j].CheckInternet?
    ensures PopCount(es[i + 1..j]) == if FailsIn(es, i, j) then 101 else 1
  {
    assert 0 <= j;
    hide Run;
    hide Stretch;
    hide FailsIn;
    StretchHolds(es, i, j);
    StepAt(es, j);
    BeginningStep(Run(Init, es[..j]).value, es[j], Run(Init, es[..j + 1]).value);
  }

  /** And it does come: there are never more pops without one. */
  lemma AttemptsAreDue(es: seq<Event>, i: int, j: int)
    requires Run(Init, es).Some? && Stretch(es, i, j)
    ensures PopCount(es[i + 1..j]) <= if FailsIn(es, i, j) then 101 else 1
  {
    hide Run;
    hide Stretch;
    hide FailsIn;
    StretchHolds(es, i, j);
  }

  // ---------- What the machine keeps of its events ----------

  /** The events of the process that runs. */
  function ThisBoot(es: seq<Event>): seq<Event> {
    if es == [] || es[|es| - 1].Crash? then [] else ThisBoot(es[..|es| - 1]) + [es[|es| - 1]]
  }

  function PushesIn(es: seq<Event>): seq<Reading> {
    if es == [] then []
    else PushesIn(es[..|es| - 1]) + if es[|es| - 1].Push? then [es[|es| - 1].reading] else []
  }

  function FailureCount(es: seq<Event>): nat {
    if es == [] then 0 else FailureCount(es[..|es| - 1]) + if Failure(es[|es| - 1]) then 1 else 0
  }

  function PutsIn(es: seq<Event>): seq<PutOutcome> {
    if es == [] then []
    else PutsIn(es[..|es| - 1]) + if es[|es| - 1].Put? then [es[|es| - 1].outcome] else []
  }

  function Outcomes(log: seq<Try>): (o: seq<PutOutcome>)
    ensures |o| == |log| && forall k :: 0 <= k < |o| ==> o[k] == log[k].outcome
  {
    seq(|log|, k requires 0 <= k < |log| => log[k].outcome)
  }

  /** The history kept in the state is that of the events. */
  ghost predicate Recorded(es: seq<Event>, s: State) {
    && s.pushed == PushesIn(ThisBoot(es)) && s.pops == PopCount(ThisBoot(es))
    && s.failed == FailureCount(ThisBoot(es)) && Outcomes(s.log) == PutsIn(es)
  }

  lemma RecordedStep(es: seq<Event>, s: State, e: Event, t: State)
    requires Recorded(es, s) && Step(s, e) == Some(t)
    ensures Recorded(es + [e], t)
  {
    hide ThisBoot;
    hide PushesIn;
    hide PopCount;
    hide FailureCount;
    hide PutsIn;
    hide Outcomes;
    hide Step;
    hide Failure;
    BootSnoc(es, e);
    CountsSnoc(ThisBoot(es), e);
    PutsSnoc(es, e);
    StepRecords(s, e, t);
    NothingCounted();
  }

  lemma BootSnoc(es: seq<Event>, e: Event)
    ensures ThisBoot(es + [e]) == if e.Crash? then [] else ThisBoot(es) + [e]
  {
    assert (es + [e])[..|es|] == es;
  }

  lemma CountsSnoc(es: seq<Event>, e: Event)
    ensures PushesIn(es + [e]) == PushesIn(es) + if e.Push? then [e.reading] else []
    ensures PopCount(es + [e]) == PopCount(es) + if e.Pop? then 1 else 0
    ensures FailureCount(es + [e]) == FailureCount(es) + if Failure(e) then 1 else 0
  {
    assert (es + [e])[..|es|] == es;
  }

  lemma PutsSnoc(es: seq<Event>, e: Event)
    ensures PutsIn(es + [e]) == PutsIn(es) + if e.Put? then [e.outcome] else []
  {
    assert (es + [e])[..|es|] == es;
  }

  lemma NothingCounted()
    ensures PushesIn([]) == [] && PopCount([]) == 0 && FailureCount([]) == 0
  {
  }

  /** What one step adds to the history in the state. */
  lemma StepRecords(s: State, e: Event, t: State)
    requires Step(s, e) == Some(t)
    ensures t.pushed == if e.Crash? then [] else s.pushed + if e.Push? then [e.reading] else []
    ensures t.pops == if e.Crash? then 0 else s.pops + if e.Pop? then 1 else 0
    ensures t.failed == if e.Crash? then 0 else s.failed + if Failure(e) then 1 else 0
    ensures Outcomes(t.log) == Outcomes(s.log) + if e.Put? then [e.outcome] else []
  {
    hide NextPending;
    hide MarkId;
  }

  /** Readings pushed, pops, failed syncs and PUTs in the state of a run are those among its events. */
  lemma {:induction false} HistoryIsRecorded(es: seq<Event>, s: State)
    requires Run(Init, es) == Some(s)
    ensures Recorded(es, s)
    decreases |es|
  {
    hide Recorded;
    hide Step;
    if es == [] {
      NothingRecorded();
    } else {
      var init, last := es[..|es| - 1], es[|es| - 1];
      assert es == init + [last];
      HistoryIsRecorded(init, Run(Init, init).value);
      RecordedStep(init, Run(Init, init).value, last, s);
    }
  }

  lemma NothingRecorded()
    ensures Recorded([], Init)
  {
  }
}
