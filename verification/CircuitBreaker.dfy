/**
 The guard in front of a carrier: a breaker that refuses calls for a while after a series of failures, and
 the request that retries behind it.
 */
module CircuitBreakers {
  import opened Options

  // ----- the breaker as a value -----

  datatype Settings = Settings(threshold: int, cooldown: real)

  datatype State = State(failures: nat, openedAt: Option<real>)

  const CLOSED := State(0, None)

  /** Looking at the breaker may close it: once the cooldown is over, everything is forgotten. */
  function Looked(c: Settings, s: State, now: real): State {
    if s.openedAt.Some? && now - s.openedAt.value >= c.cooldown then CLOSED else s
  }

  function FailedAt(c: Settings, s: State, now: real): State {
    State(s.failures + 1, if s.failures + 1 >= c.threshold then Some(now) else s.openedAt)
  }

  class CircuitBreaker {
    const settings: Settings
    var failures: nat
    var openedAt: Option<real>

    constructor (threshold: int, cooldown: real)
      ensures settings == Settings(threshold, cooldown) && Current() == CLOSED
    {
      settings := Settings(threshold, cooldown);
      failures, openedAt := 0, None;
    }

    function Current(): State
      reads this
    {
      State(failures, openedAt)
    }

    method IsOpen(now: real) returns (open: bool)
      modifies this
      ensures Current() == Looked(settings, old(Current()), now)
      ensures open <==> Current().openedAt.Some?
    {
      if openedAt.None? {
        return false;
      }
      if now - openedAt.value >= settings.cooldown {
        openedAt := None;
        failures := 0;
        return false;
      }
      return true;
    }

    method RecordSuccess()
      modifies this
      ensures Current() == CLOSED
    {
      failures := 0;
      openedAt := None;
    }

    method RecordFailure(now: real)
      modifies this
      ensures Current() == FailedAt(settings, old(Current()), now)
    {
      failures := failures + 1;
      if failures >= settings.threshold {
        openedAt := Some(now);
      }
    }
  }

  // ----- one request -----

  datatype Error = Timeout | Unavailable | Auth | RateLimited | Validation | Other | CircuitOpen

  /** How one attempt ends: the transport gives up, or the carrier answers with a status. */
  datatype Outcome = TimedOut | TransportFailed | Answered(status: int)

  datatype Answer = Response(status: int) | Failure(error: Error)

  datatype Call = Call(maxAttempts: int, retry: bool, raiseForStatus: bool) {
    function Attempts(): int {
      if retry then maxAttempts else 1
    }
  }

  function ErrorForStatus(status: int): Option<Error> {
    if status < 400 then None
    else if status == 401 || status == 403 then Some(Auth)
    else if status == 429 then Some(RateLimited)
    else if status == 502 || status == 503 || status == 504 then Some(Unavailable)
    else if status < 500 then Some(Validation)
    else Some(Other)
  }

  function ErrorOf(o: Outcome): Option<Error> {
    match o
    case TimedOut => Some(Timeout)
    case TransportFailed => Some(Unavailable)
    case Answered(status) => ErrorForStatus(status)
  }

  predicate IsRetriable(e: Error) {
    e == Timeout || e == Unavailable || e == RateLimited || e == CircuitOpen
  }

  /** The answer goes to the caller and counts as a success of the carrier. */
  predicate IsAccepted(call: Call, o: Outcome) {
    o.Answered? && (ErrorOf(o).None? || (!call.raiseForStatus && ErrorOf(o) == Some(Validation)))
  }

  /**
   Which statuses are tried again, and which go to the caller: a refusal of the data may be asked for as an
   answer, a refusal of the caller or of the rate never.
   */
  lemma WhatAStatusMeans(call: Call, status: int)
    ensures ErrorForStatus(status).Some? && IsRetriable(ErrorForStatus(status).value) <==> status in {429, 502, 503, 504}
    ensures IsAccepted(call, Answered(status)) <==>
              status < 400 || (!call.raiseForStatus && 400 <= status < 500 && status !in {401, 403, 429})
  {
  }

  /** A request between its attempts, or at its end. */
  datatype Progress = Running(calls: nat, slept: real) | Done(calls: nat, slept: real, answer: Answer)

  function Pow2(n: nat): nat {
    if n == 0 then 1 else 2 * Pow2(n - 1)
  }

  /** The pause after the n-th attempt: 0.2, 0.4, 0.8 seconds and so on. */
  function PauseAfter(n: nat): real
    requires n > 0
  {
    0.2 * Pow2(n - 1) as real
  }

  /** A request that the breaker let through. With no attempt to make, the loop is empty and the request fails. */
  function Begun(call: Call): Progress {
    if call.Attempts() < 1 then Done(0, 0.0, Failure(Unavailable)) else Running(0, 0.0)
  }

  function Attempted(call: Call, p: Progress, o: Outcome): Progress
    requires p.Running?
  {
    var calls := p.calls + 1;
    if IsAccepted(call, o) then Done(calls, p.slept, Response(o.status))
    else
      var error := ErrorOf(o).GetOr(Unavailable);
      if !call.retry || !IsRetriable(error) || calls == call.Attempts() then Done(calls, p.slept, Failure(error))
      else Running(calls, p.slept + PauseAfter(calls))
  }

  /** A request after as many of the outcomes as it needs. */
  function Progressed(call: Call, outcomes: seq<Outcome>): Progress {
    if outcomes == [] then Begun(call)
    else
      var p := Progressed(call, outcomes[..|outcomes| - 1]);
      if p.Done? then p else Attempted(call, p, outcomes[|outcomes| - 1])
  }

  /** What a request may look like at any moment: its pauses follow from the number of its calls alone. */
  predicate IsPaced(call: Call, p: Progress) {
    match p
    case Running(calls, slept) => calls < call.Attempts() && slept == 0.2 * (Pow2(calls) as real - 1.0)
    case Done(calls, slept, answer) =>
      && (calls == 0 <==> call.Attempts() < 1)
      && (calls > 0 ==> calls <= call.Attempts() && slept == 0.2 * (Pow2(calls - 1) as real - 1.0))
      && (calls == 0 ==> slept == 0.0 && answer == Failure(Unavailable))
      && (calls > 0 && calls < call.Attempts() ==> answer.Response? || !IsRetriable(answer.error))
  }

  /** One more attempt keeps the pace. */
  lemma AttemptKeepsPace(call: Call, p: Progress, o: Outcome)
    requires p.Running? && IsPaced(call, p)
    ensures IsPaced(call, Attempted(call, p, o)) && Attempted(call, p, o).calls == p.calls + 1
  {
    assert Pow2(p.calls + 1) == 2 * Pow2(p.calls);
  }

  /**
   k calls, at most `max_attempts` of them, sleep exactly 0.2 (2^(k-1) - 1) seconds. The failure after the
   loop is reached only when no attempt was allowed at all.
   */
  lemma {:induction false} SleepsArePaced(call: Call, outcomes: seq<Outcome>)
    ensures IsPaced(call, Progressed(call, outcomes))
    ensures Progressed(call, outcomes).calls <= |outcomes|
  {
    if outcomes != [] {
      SleepsArePaced(call, outcomes[..|outcomes| - 1]);
      var p := Progressed(call, outcomes[..|outcomes| - 1]);
      if p.Running? {
        AttemptKeepsPace(call, p, outcomes[|outcomes| - 1]);
      }
    }
  }

  // ----- when a request goes on, and what its caller gets -----

  /** The carrier may still answer: it was silent, could not be reached, or said that it is busy. */
  predicate IsTriedAgain(o: Outcome) {
    match o
    case TimedOut => true
    case TransportFailed => true
    case Answered(status) => status in {429, 502, 503, 504}
  }

  /**
   A request makes another call if and only if it may repeat itself, an attempt is left, and each outcome so far was a
   timeout, a transport failure, or one of the four busy statuses.
   */
  lemma {:induction false} RequestGoesOnIff(call: Call, outcomes: seq<Outcome>)
    ensures Progressed(call, outcomes).Running? <==>
              && call.Attempts() >= 1
              && (outcomes != [] ==> call.retry && |outcomes| < call.Attempts())
              && forall i :: 0 <= i < |outcomes| ==> IsTriedAgain(outcomes[i])
    ensures Progressed(call, outcomes).Running? ==> Progressed(call, outcomes).calls == |outcomes|
  {
    if outcomes != [] {
      var front := outcomes[..|outcomes| - 1];
      RequestGoesOnIff(call, front);
      assert forall i :: 0 <= i < |front| ==> front[i] == outcomes[i];
    }
  }

  /** The caller gets this answer after this outcome was the last. */
  predicate IsAnswerTo(call: Call, o: Outcome, answer: Answer) {
    match o
    case TimedOut => answer == Failure(Timeout)
    case TransportFailed => answer == Failure(Unavailable)
    case Answered(status) =>
      && (status < 400 ==> answer == Response(status))
      && (status in {401, 403} ==> answer == Failure(Auth))
      && (status == 429 ==> answer == Failure(RateLimited))
      && (400 <= status < 500 && status !in {401, 403, 429} ==>
           answer == if call.raiseForStatus then Failure(Validation) else Response(status))
      && (status in {502, 503, 504} ==> answer == Failure(Unavailable))
      && (status >= 500 && status !in {502, 503, 504} ==> answer == Failure(Other))
  }

  /**
   The end of a request: it is answered by the first outcome after which it does not go on, and told what that was. Of
   the outcomes behind it none is asked for.
   */
  lemma WhatTheCallerGets(call: Call, front: seq<Outcome>, last: Outcome)
    requires Progressed(call, front).Running?
    ensures Progressed(call, front + [last]).Done? ==>
              var end := Progressed(call, front + [last]);
              end.calls == |front| + 1 && IsAnswerTo(call, last, end.answer)
    ensures Progressed(call, front + [last]).Done? <==>
              !call.retry || !IsTriedAgain(last) || |front| + 1 >= call.Attempts()
  {
    var all := front + [last];
    assert all[..|all| - 1] == front;
    RequestGoesOnIff(call, front);
    SleepsArePaced(call, front);
  }

  /** Once it is over, a request is over. */
  lemma DoneStaysDone(call: Call, front: seq<Outcome>, last: Outcome)
    requires Progressed(call, front).Done?
    ensures Progressed(call, front + [last]) == Progressed(call, front)
  {
    assert (front + [last])[..|front + [last]| - 1] == front;
  }

  /** For example, a timeout and then an answer: two calls, a fifth of a second between them. */
  lemma TimeoutIsTriedAgain()
    ensures Progressed(Call(3, true, true), [TimedOut, Answered(200)]) == Done(2, 0.2, Response(200))
  {
    var call, both := Call(3, true, true), [TimedOut, Answered(200)];
    RequestGoesOnIff(call, [TimedOut]);
    SleepsArePaced(call, [TimedOut]);
    assert [TimedOut] + [Answered(200)] == both;
    WhatTheCallerGets(call, [TimedOut], Answered(200));
    SleepsArePaced(call, both);
    assert Pow2(1) == 2;
  }

  // ----- what the request does to the breaker -----

  /** A carrier that answers the caller has proved itself alive; every other outcome counts against it. */
  lemma WhatABreakerLearns(c: Settings, s: State, call: Call, o: Outcome, at: real)
    ensures (exists answer: Answer :: answer.Response? && IsAnswerTo(call, o, answer)) ==> Recorded(c, s, call, o, at) == CLOSED
    ensures (exists answer: Answer :: answer.Failure? && IsAnswerTo(call, o, answer)) ==>
              var r := Recorded(c, s, call, o, at);
              r.failures == s.failures + 1 && r.openedAt == if s.failures + 1 >= c.threshold then Some(at) else s.openedAt
  {
  }

  function Recorded(c: Settings, s: State, call: Call, o: Outcome, at: real): State {
    if IsAccepted(call, o) then CLOSED else FailedAt(c, s, at)
  }

  /** The breaker after a request that had it for itself. */
  function RecordedAll(c: Settings, s: State, call: Call, replies: seq<(Outcome, real)>): State {
    if replies == [] then s
    else
      var last := replies[|replies| - 1];
      Recorded(c, RecordedAll(c, s, call, replies[..|replies| - 1]), call, last.0, last.1)
  }

  function Outcomes(replies: seq<(Outcome, real)>): seq<Outcome> {
    seq(|replies|, i requires 0 <= i < |replies| => replies[i].0)
  }

  /** The replies that came, as many as there were calls. */
  function Replies(reply: nat -> (Outcome, real), n: nat): (r: seq<(Outcome, real)>)
    ensures |r| == n && forall i :: 0 <= i < n ==> r[i] == reply(i)
  {
    seq(n, i requires 0 <= i < n => reply(i))
  }

  /**
   One request, alone on its breaker. `reply(k)` is how attempt k + 1 ends, and when.
   */
  method Request(breaker: CircuitBreaker, call: Call, start: real, reply: nat -> (Outcome, real))
    returns (answer: Answer, calls: nat, slept: real)
    modifies breaker
    ensures var seen := Looked(breaker.settings, old(breaker.Current()), start);
            if seen.openedAt.Some?
            then answer == Failure(CircuitOpen) && calls == 0 && slept == 0.0 && breaker.Current() == seen
            else && Progressed(call, Outcomes(Replies(reply, calls))) == Done(calls, slept, answer)
                 && breaker.Current() == RecordedAll(breaker.settings, seen, call, Replies(reply, calls))
  {
    calls, slept := 0, 0.0;
    var open := breaker.IsOpen(start);
    if open {
      return Failure(CircuitOpen), 0, 0.0;
    }
    ghost var seen := breaker.Current();
    var attempts := call.Attempts();
    var lastError: Option<Error> := None;
    while calls < attempts
      invariant lastError.None? <==> calls == 0
      invariant calls == 0 || calls < attempts
      invariant Progressed(call, Outcomes(Replies(reply, calls)))
                == (if attempts < 1 then Done(calls, slept, Failure(Unavailable)) else Running(calls, slept))
      invariant breaker.Current() == RecordedAll(breaker.settings, seen, call, Replies(reply, calls))
    {
      var (outcome, at) := reply(calls);
      OneMoreReply(breaker.settings, seen, call, reply, calls);
      var error := ErrorOf(outcome);
      calls := calls + 1;
      if error.None? || (!call.raiseForStatus && outcome.Answered? && error == Some(Validation)) {
        breaker.RecordSuccess();
        return Response(outcome.status), calls, slept;
      }
      breaker.RecordFailure(at);
      lastError := error;
      if !call.retry || !IsRetriable(error.value) || calls == attempts {
        return Failure(error.value), calls, slept;
      }
      slept := slept + PauseAfter(calls);
    }
    return Failure(lastError.GetOr(Unavailable)), calls, slept;
  }

  lemma OneMoreReply(c: Settings, s: State, call: Call, reply: nat -> (Outcome, real), n: nat)
    ensures var p := Progressed(call, Outcomes(Replies(reply, n)));
            Progressed(call, Outcomes(Replies(reply, n + 1))) == (if p.Done? then p else Attempted(call, p, reply(n).0))
    ensures RecordedAll(c, s, call, Replies(reply, n + 1))
            == Recorded(c, RecordedAll(c, s, call, Replies(reply, n)), call, reply(n).0, reply(n).1)
  {
    var more := Replies(reply, n + 1);
    assert more[..n] == Replies(reply, n);
    assert Outcomes(more)[..n] == Outcomes(Replies(reply, n));
  }
}
