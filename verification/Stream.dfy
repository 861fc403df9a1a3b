/**
 The transfer of a request and its response over a stream socket. The environment is a script: what each system call
 returns, in order. A loop that has used up its script is simply still running.
 */
module Stream {
  import opened Types

  // ---------- Sending ----------

  /** Done: all counted as sent. Broke: a write returned 0. Fault: the next write would start before the buffer. */
  datatype Status = Running | Done | Broke | Fault

  /** `emitted` is what has left through the socket, `errors` how many writes have failed. */
  datatype Sending = Sending(emitted: seq<byte>, sent: int, errors: nat, status: Status)

  /** The n-th write gives `ret`; a negative return is added to `sent` like any other. */
  function SendStep(request: seq<byte>, s: Sending, ret: int): Sending
    requires s.status.Running? ==> 0 <= s.sent && -1 <= ret <= |request| - s.sent
  {
    if !s.status.Running? then s
    else if ret == 0 then s.(status := Broke)
    else
      var sent := s.sent + ret;
      var status := if sent >= |request| then Done else if sent < 0 then Fault else Running;
      if ret < 0 then Sending(s.emitted, sent, s.errors + 1, status)
      else Sending(s.emitted + request[s.sent..sent], sent, s.errors, status)
  }

  /** The script is one that write may follow: it returns -1, or at most as many octets as it was given. */
  ghost predicate Possible(request: seq<byte>, rets: seq<int>)
    decreases |rets|, 0
  {
    rets == [] ||
    (Possible(request, rets[..|rets| - 1]) &&
     (var s := Sent(request, rets[..|rets| - 1]);
      s.status.Running? ==> -1 <= rets[|rets| - 1] <= |request| - s.sent))
  }

  ghost function Sent(request: seq<byte>, rets: seq<int>): (s: Sending)
    requires Possible(request, rets)
    ensures s.status.Running? ==> 0 <= s.sent
    decreases |rets|, 1
  {
    if rets == [] then Sending([], 0, 0, Running)
    else SendStep(request, Sent(request, rets[..|rets| - 1]), rets[|rets| - 1])
  }

  method SendRequest(request: seq<byte>, rets: seq<int>) returns (emitted: seq<byte>, sent: int, status: Status)
    requires Possible(request, rets)
    ensures var s := Sent(request, rets); emitted == s.emitted && sent == s.sent && status == s.status
  {
    emitted, sent, status := [], 0, Running;
    var n := 0;
    assert rets[..0] == [];
    while n < |rets|
      invariant n <= |rets| && Possible(request, rets[..n])
      invariant var s := Sent(request, rets[..n]); emitted == s.emitted && sent == s.sent && status == s.status
    {
      PossiblePrefix(request, rets, n + 1);
      assert rets[..n + 1][..n] == rets[..n];
      if status.Running? {
        var bytes := rets[n];
        if bytes == 0 {
          status := Broke;
        } else {
          if bytes > 0 {
            emitted := emitted + request[sent..sent + bytes];
          }
          sent := sent + bytes;
          status := if sent >= |request| then Done else if sent < 0 then Fault else Running;
        }
      }
      n := n + 1;
    }
    assert rets[..n] == rets;
  }

  lemma {:induction false} PossiblePrefix(request: seq<byte>, rets: seq<int>, n: nat)
    requires Possible(request, rets) && n <= |rets|
    ensures Possible(request, rets[..n])
    decreases |rets|
  {
    if n == |rets| {
      assert rets[..n] == rets;
    } else {
      PossiblePrefix(request, rets[..|rets| - 1], n);
      assert rets[..|rets| - 1][..n] == rets[..n];
    }
  }

  /** Octets out, octets counted and errors always balance; without errors what is out is what was counted, in order. */
  ghost predicate Balanced(request: seq<byte>, s: Sending) {
    && |s.emitted| == s.sent + s.errors && -1 <= s.sent <= |request|
    && (s.errors == 0 ==> s.sent >= 0 && s.emitted == request[..s.sent])
    && (s.status.Done? ==> s.sent == |request|)
    && (s.status.Fault? <==> s.sent == -1)
  }

  lemma {:induction false} SentIsBalanced(request: seq<byte>, rets: seq<int>)
    requires Possible(request, rets)
    ensures Balanced(request, Sent(request, rets))
    decreases |rets|
  {
    if rets != [] {
      var init, ret := rets[..|rets| - 1], rets[|rets| - 1];
      SentIsBalanced(request, init);
      StepIsBalanced(request, Sent(request, init), ret);
      hide Balanced;
    }
  }

  lemma StepIsBalanced(request: seq<byte>, s: Sending, ret: int)
    requires Balanced(request, s) && (s.status.Running? ==> 0 <= s.sent && -1 <= ret <= |request| - s.sent)
    ensures Balanced(request, SendStep(request, s, ret))
  {
    if s.status.Running? && ret > 0 {
      assert request[..s.sent] + request[s.sent..s.sent + ret] == request[..s.sent + ret];
    }
  }

  /**
   A transfer that counts itself done has put out exactly the request if and only if no write failed; each failure puts
   out one octet too many. It goes wrong altogether when there have been more failures than octets put out.
   */
  lemma DoneIsExactWithoutErrors(request: seq<byte>, rets: seq<int>)
    requires Possible(request, rets)
    ensures var s := Sent(request, rets);
      && (s.status.Done? ==> (s.emitted == request <==> s.errors == 0) && |s.emitted| == |request| + s.errors)
      && (s.status.Fault? <==> s.errors > |s.emitted|)
  {
    SentIsBalanced(request, rets);
    var s := Sent(request, rets);
    assert request[..|request|] == request;
  }

  function Total(rets: seq<int>): int {
    if rets == [] then 0 else Total(rets[..|rets| - 1]) + rets[|rets| - 1]
  }

  /** Positive partial writes put the request out once, in order, and are done exactly when they add up to all of it. */
  lemma {:induction false} PartialWritesAreExact(request: seq<byte>, rets: seq<int>)
    requires forall i :: 0 <= i < |rets| ==> rets[i] > 0
    requires request != [] && Total(rets) <= |request|
    ensures Possible(request, rets)
    ensures 0 <= Total(rets)
    ensures Sent(request, rets) ==
            Sending(request[..Total(rets)], Total(rets), 0, if Total(rets) == |request| then Done else Running)
    decreases |rets|
  {
    if rets != [] {
      var init, ret := rets[..|rets| - 1], rets[|rets| - 1];
      PartialWritesAreExact(request, init);
      assert request[..Total(init)] + request[Total(init)..Total(init) + ret] == request[..Total(rets)];
    }
  }

  /** A write that returns 0 ends the transfer there, whatever the later ones would return. */
  lemma {:induction false} ZeroWriteEnds(request: seq<byte>, rets: seq<int>, more: seq<int>)
    requires Possible(request, rets + [0] + more) && Possible(request, rets)
    requires Sent(request, rets).status.Running?
    ensures Sent(request, rets + [0] + more) == Sent(request, rets).(status := Broke)
    decreases |more|
  {
    var all := rets + [0] + more;
    if more == [] {
      assert all == rets + [0] && all[..|all| - 1] == rets;
    } else {
      var n := |more| - 1;
      assert all[..|all| - 1] == rets + [0] + more[..n];
      PossiblePrefix(request, all, |all| - 1);
      ZeroWriteEnds(request, rets, more[..n]);
    }
  }

  // ---------- Receiving ----------

  /**
   One pass of the receiving loop: the time at which it looks at the clock, what the read then gives (nothing stands for
   a negative return, no octets for the end of the stream), and the time at which the timer is set again.
   */
  datatype Poll = Poll(now: real, got: Option<seq<byte>>, reset: real)

  /** `passes` counts the reads made. */
  datatype Receiving = Receiving(begin: real, resp: seq<byte>, passes: nat, ended: bool)

  /** Too much time has passed: the timeout if there is data already, twice that in any case. */
  predicate Expired(s: Receiving, timeout: real, now: real) {
    (s.resp != [] && now - s.begin > timeout) || now - s.begin > timeout * 2.0
  }

  function ReceiveStep(timeout: real, s: Receiving, p: Poll): Receiving {
    if s.ended then s
    else if Expired(s, timeout, p.now) then s.(ended := true)
    else
      match p.got
      case None => s.(passes := s.passes + 1)
      case Some(chunk) => Receiving(p.reset, s.resp + chunk, s.passes + 1, false)
  }

  function Received(timeout: real, begin: real, script: seq<Poll>): Receiving {
    if script == [] then Receiving(begin, [], 0, false)
    else ReceiveStep(timeout, Received(timeout, begin, script[..|script| - 1]), script[|script| - 1])
  }

  method RecvTimeout(timeout: real, begin: real, script: seq<Poll>) returns (resp: seq<byte>, ended: bool)
    ensures var s := Received(timeout, begin, script); resp == s.resp && ended == s.ended
  {
    var since := begin;
    resp, ended := [], false;
    var n := 0;
    while n < |script|
      invariant n <= |script|
      invariant Received(timeout, begin, script[..n]) ==
                Receiving(since, resp, Received(timeout, begin, script[..n]).passes, ended)
    {
      assert script[..n + 1][..n] == script[..n];
      if !ended {
        var diff := script[n].now - since;
        if resp != [] && diff > timeout {
          ended := true;
        } else if diff > timeout * 2.0 {
          ended := true;
        } else if script[n].got.Some? {
          resp := resp + script[n].got.value;
          since := script[n].reset;
        }
      }
      n := n + 1;
    }
    assert script[..n] == script;
  }

  /** The chunks of some passes, one after the other. */
  function Chunks(script: seq<Poll>): seq<byte> {
    if script == [] then []
    else
      var p := script[|script| - 1];
      Chunks(script[..|script| - 1]) + if p.got.Some? then p.got.value else []
  }

  /** The response is the chunks read, all of them and in order: those of the passes before the one that ended it. */
  lemma {:induction false} ResponseIsChunks(timeout: real, begin: real, script: seq<Poll>)
    ensures var s := Received(timeout, begin, script);
      && s.passes <= |script| && s.resp == Chunks(script[..s.passes])
      && (s.ended <==> s.passes < |script|)
      && (s.ended ==> Expired(Received(timeout, begin, script[..s.passes]), timeout, script[s.passes].now))
    decreases |script|
  {
    if script != [] {
      var init := script[..|script| - 1];
      ResponseIsChunks(timeout, begin, init);
      var s := Received(timeout, begin, init);
      assert init[..s.passes] == script[..s.passes];
      assert script[..|script|] == script;
      if s.passes == |init| {
        assert init[..|init|] == init;
      }
    }
  }

  /** When the timer was last set before the k-th pass: at the last read that was not negative, or at the start. */
  function TimerAt(begin: real, script: seq<Poll>, k: nat): real
    requires k <= |script|
  {
    if k == 0 then begin else if script[k - 1].got.Some? then script[k - 1].reset else TimerAt(begin, script, k - 1)
  }

  /** At the k-th pass there is data and the timer has run for longer than `timeout`, or it has for twice as long. */
  predicate TimeIsOver(timeout: real, begin: real, script: seq<Poll>, k: nat)
    requires k < |script|
  {
    var passed := script[k].now - TimerAt(begin, script, k);
    || passed > 2.0 * timeout
    || (passed > timeout && exists j :: 0 <= j < k && script[j].got.Some? && script[j].got.value != [])
  }

  lemma {:induction false} TimerOfPrefix(begin: real, script: seq<Poll>, n: nat, k: nat)
    requires k <= n <= |script|
    ensures TimerAt(begin, script[..n], k) == TimerAt(begin, script, k)
    decreases k
  {
    if k > 0 {
      TimerOfPrefix(begin, script, n, k - 1);
    }
  }

  /** The loop has ended if and only if the time was over at one of its passes. */
  lemma {:induction false} EndsWhenTimeIsOver(timeout: real, begin: real, script: seq<Poll>)
    ensures var s := Received(timeout, begin, script);
      && (s.ended <==> exists k: nat :: k < |script| && TimeIsOver(timeout, begin, script, k))
      && (!s.ended ==>
            && s.begin == TimerAt(begin, script, |script|)
            && (s.resp != [] <==> exists j :: 0 <= j < |script| && script[j].got.Some? && script[j].got.value != []))
    decreases |script|
  {
    if script != [] {
      var n := |script| - 1;
      var init := script[..n];
      EndsWhenTimeIsOver(timeout, begin, init);
      TimerOfPrefix(begin, script, n, n);
      forall k: nat | k < n ensures TimeIsOver(timeout, begin, init, k) == TimeIsOver(timeout, begin, script, k) {
        TimerOfPrefix(begin, script, n, k);
      }
      var s := Received(timeout, begin, init);
      if !s.ended {
        assert Expired(s, timeout, script[n].now) <==> TimeIsOver(timeout, begin, script, n) by {
          assert forall j :: 0 <= j < n ==> init[j] == script[j];
        }
        assert Received(timeout, begin, script) == ReceiveStep(timeout, s, script[n]);
        assert forall k: nat :: k < n ==> !TimeIsOver(timeout, begin, script, k);
        DataSoFar(init, script[n]);
        assert script == init + [script[n]];
        hide TimeIsOver;
      }
    }
  }

  lemma DataSoFar(init: seq<Poll>, p: Poll)
    ensures (exists j :: 0 <= j <= |init| && (init + [p])[j].got.Some? && (init + [p])[j].got.value != []) <==>
            (exists j :: 0 <= j < |init| && init[j].got.Some? && init[j].got.value != []) ||
            (p.got.Some? && p.got.value != [])
  {
    assert (init + [p])[|init|] == p;
    forall j | 0 <= j < |init| ensures (init + [p])[j] == init[j] {
    }
  }

  /** From the m-th pass on every read is negative. */
  predicate SilentFrom(script: seq<Poll>, m: nat) {
    forall k :: m <= k < |script| ==> script[k].got.None?
  }

  /** Once reads stay negative, the loop is over when twice the timeout has passed since the timer was last set. */
  lemma SilenceEnds(timeout: real, begin: real, script: seq<Poll>, m: nat)
    requires m < |script| && SilentFrom(script, m)
    requires script[|script| - 1].now - Received(timeout, begin, script[..m]).begin > timeout * 2.0
    ensures Received(timeout, begin, script).ended
  {
    SilenceKeepsTimer(timeout, begin, script[..|script| - 1], m);
    assert script[..|script| - 1][..m] == script[..m];
  }

  lemma {:induction false} SilenceKeepsTimer(timeout: real, begin: real, script: seq<Poll>, m: nat)
    requires m <= |script| && SilentFrom(script, m)
    ensures Received(timeout, begin, script).begin == Received(timeout, begin, script[..m]).begin
    decreases |script|
  {
    if m == |script| {
      assert script[..m] == script;
    } else {
      SilenceKeepsTimer(timeout, begin, script[..|script| - 1], m);
      assert script[..|script| - 1][..m] == script[..m];
    }
  }

  /** When the timer was set before the k-th pass, if every pass before it read something. */
  function SetBefore(begin: real, script: seq<Poll>, k: nat): real
    requires k <= |script|
  {
    if k == 0 then begin else script[k - 1].reset
  }

  /** Each pass reads something, possibly nothing but the end of the stream, within the timeout of the one before. */
  predicate Prompt(timeout: real, begin: real, script: seq<Poll>) {
    forall k :: 0 <= k < |script| ==>
      script[k].got.Some? && script[k].now - SetBefore(begin, script, k) <= timeout
  }

  lemma PromptBefore(timeout: real, begin: real, script: seq<Poll>)
    requires script != [] && Prompt(timeout, begin, script)
    ensures var init, last := script[..|script| - 1], script[|script| - 1];
      Prompt(timeout, begin, init) && last.got.Some? && last.now - SetBefore(begin, init, |init|) <= timeout
  {
    var init := script[..|script| - 1];
    assert forall k :: 0 <= k < |init| ==>
      init[k] == script[k] && SetBefore(begin, init, k) == SetBefore(begin, script, k);
  }

  /** A peer that has closed the stream keeps the loop going for ever: reads of length zero set the timer again. */
  lemma {:induction false} ClosedStreamNeverEnds(timeout: real, begin: real, script: seq<Poll>)
    requires timeout >= 0.0 && Prompt(timeout, begin, script)
    ensures !Received(timeout, begin, script).ended
    ensures Received(timeout, begin, script).begin == SetBefore(begin, script, |script|)
    decreases |script|
  {
    if script != [] {
      PromptBefore(timeout, begin, script);
      ClosedStreamNeverEnds(timeout, begin, script[..|script| - 1]);
      hide Prompt;
    }
  }
}
