/**
 Requests that share one breaker, interleaved in any way: each step is one request asking the breaker to
 let it through, or one attempt of a request coming to its end.
 */
module BreakerRuns {
  import opened Options
  import opened CircuitBreakers

  type RequestId = nat

  /** What the breaker saw, in order of time. */
  datatype Note = Failed(at: real) | Succeeded(at: real) | LookedAt(at: real, refused: bool)

  /** A request that was let through, with the ends of its attempts so far. */
  datatype Request = Request(call: Call, outcomes: seq<Outcome>, progress: Progress)

  datatype World = World(state: State, clock: real, requests: map<RequestId, Request>, refused: set<RequestId>, notes: seq<Note>)

  datatype Event = Begin(id: RequestId, call: Call, at: real) | End(id: RequestId, outcome: Outcome, at: real)

  const START := World(CLOSED, 0.0, map[], {}, [])

  predicate Enabled(w: World, e: Event) {
    && w.clock <= e.at
    && (e.Begin? ==> e.id !in w.requests && e.id !in w.refused)
    && (e.End? ==> e.id in w.requests && w.requests[e.id].progress.Running?)
  }

  function After(c: Settings, w: World, e: Event): World
    requires Enabled(w, e)
  {
    match e
    case Begin(id, call, at) =>
      var seen := Looked(c, w.state, at);
      var noted := w.(state := seen, clock := at, notes := w.notes + [LookedAt(at, seen.openedAt.Some?)]);
      if seen.openedAt.Some? then noted.(refused := w.refused + {id})
      else noted.(requests := w.requests[id := Request(call, [], Begun(call))])
    case End(id, outcome, at) =>
      var r := w.requests[id];
      var note := if IsAccepted(r.call, outcome) then Succeeded(at) else Failed(at);
      w.(state := Recorded(c, w.state, r.call, outcome, at), clock := at, notes := w.notes + [note],
         requests := w.requests[id := Request(r.call, r.outcomes + [outcome], Attempted(r.call, r.progress, outcome))])
  }

  predicate Runs(c: Settings, w: World, events: seq<Event>)
    decreases |events|
  {
    events == [] || (Enabled(w, events[0]) && Runs(c, After(c, w, events[0]), events[1..]))
  }

  function Final(c: Settings, w: World, events: seq<Event>): World
    requires Runs(c, w, events)
    decreases |events|
  {
    if events == [] then w else Final(c, After(c, w, events[0]), events[1..])
  }

  // ----- the state follows from the history -----

  /** When the breaker last opened, counting failures since the last success or the last end of a cooldown. */
  function StateOf(c: Settings, notes: seq<Note>): State {
    if notes == [] then CLOSED
    else
      var before, last := StateOf(c, notes[..|notes| - 1]), notes[|notes| - 1];
      match last
      case Failed(at) => FailedAt(c, before, at)
      case Succeeded(_) => CLOSED
      case LookedAt(at, _) => Looked(c, before, at)
  }

  /** The i-th note forgets every failure before it: a success, or a look that found the cooldown over. */
  predicate IsReset(c: Settings, notes: seq<Note>, i: nat)
    requires i < |notes|
  {
    match notes[i]
    case Failed(_) => false
    case Succeeded(_) => true
    case LookedAt(at, _) => StateOf(c, notes[..i]).openedAt.Some? && StateOf(c, notes[..i + 1]).openedAt.None?
  }

  /** How many failures there were since the last reset. */
  function FailuresSinceReset(c: Settings, notes: seq<Note>, n: nat): nat
    requires n <= |notes|
  {
    if n == 0 || IsReset(c, notes, n - 1) then 0
    else FailuresSinceReset(c, notes, n - 1) + if notes[n - 1].Failed? then 1 else 0
  }

  lemma {:induction false} HistoryBefore(c: Settings, notes: seq<Note>, more: seq<Note>, n: nat)
    requires n <= |notes|
    ensures FailuresSinceReset(c, notes + more, n) == FailuresSinceReset(c, notes, n)
  {
    if n > 0 {
      HistoryBefore(c, notes, more, n - 1);
      assert (notes + more)[..n - 1] == notes[..n - 1] && (notes + more)[..n] == notes[..n];
    }
  }

  /** A closed breaker has counted fewer than the threshold since its last reset, an open one at least that many. */
  ghost predicate CountsItsFailures(c: Settings, s: State, notes: seq<Note>) {
    && s == StateOf(c, notes)
    && s.failures == FailuresSinceReset(c, notes, |notes|)
    && (s.openedAt.None? <==> s.failures < c.threshold)
  }

  lemma NoteKeepsCounting(c: Settings, s: State, notes: seq<Note>, note: Note, s': State)
    requires c.threshold >= 1 && CountsItsFailures(c, s, notes)
    requires s' == match note { case Failed(at) => FailedAt(c, s, at) case Succeeded(_) => CLOSED case LookedAt(at, _) => Looked(c, s, at) }
    ensures CountsItsFailures(c, s', notes + [note])
  {
    var longer := notes + [note];
    assert longer[..|notes|] == notes && longer[..|longer|] == longer;
    HistoryBefore(c, notes, [note], |notes|);
  }

  // ----- nothing is called before the cooldown ends -----

  /** The i-th note is a failure with which the count reached the threshold, and no success came after it. */
  predicate OpensAt(c: Settings, notes: seq<Note>, i: nat)
    requires i < |notes|
  {
    && notes[i].Failed? && FailuresSinceReset(c, notes, i + 1) >= c.threshold
    && forall j :: i < j < |notes| ==> !notes[j].Succeeded?
  }

  /** Until the cooldown after such a failure is over, the breaker is open, and was opened no earlier than that. */
  ghost predicate StaysOpen(c: Settings, w: World) {
    && (forall i :: 0 <= i < |w.notes| && OpensAt(c, w.notes, i) ==>
         || w.clock >= w.notes[i].at + c.cooldown
         || (w.state.openedAt.Some? && w.state.openedAt.value >= w.notes[i].at))
    && (w.state.openedAt.Some? ==> w.state.openedAt.value <= w.clock)
    && (forall i :: 0 <= i < |w.notes| ==> w.notes[i].at <= w.clock)
  }

  /** Every request was paced by its own attempts alone, and none of the refused ones was ever sent. */
  ghost predicate RequestsAreTheirOwn(w: World) {
    && (forall id :: id in w.requests ==> w.requests[id].progress == Progressed(w.requests[id].call, w.requests[id].outcomes))
    && (forall id :: id in w.refused ==> id !in w.requests)
    && (forall id :: id in w.requests ==> w.requests[id].progress.calls == |w.requests[id].outcomes|)
  }

  ghost predicate Inv(c: Settings, w: World) {
    CountsItsFailures(c, w.state, w.notes) && StaysOpen(c, w) && RequestsAreTheirOwn(w)
  }

  lemma EarlierOpening(c: Settings, notes: seq<Note>, note: Note, i: nat)
    requires i < |notes| && OpensAt(c, notes + [note], i)
    ensures OpensAt(c, notes, i) && !note.Succeeded?
  {
    HistoryBefore(c, notes, [note], i + 1);
    assert (notes + [note])[|notes|] == note;
    assert forall j :: i < j < |notes| ==> (notes + [note])[j] == notes[j];
  }

  lemma StepKeepsOpen(c: Settings, w: World, e: Event)
    requires c.threshold >= 1 && Enabled(w, e) && Inv(c, w)
    requires CountsItsFailures(c, After(c, w, e).state, After(c, w, e).notes)
    ensures StaysOpen(c, After(c, w, e))
  {
    var w' := After(c, w, e);
    var note := w'.notes[|w.notes|];
    assert w'.notes == w.notes + [note];
    forall i | 0 <= i < |w'.notes| && OpensAt(c, w'.notes, i)
      ensures w'.clock >= w'.notes[i].at + c.cooldown
              || (w'.state.openedAt.Some? && w'.state.openedAt.value >= w'.notes[i].at)
    {
      if i < |w.notes| {
        EarlierOpening(c, w.notes, note, i);
      }
    }
  }

  lemma StepKeepsRequests(c: Settings, w: World, e: Event)
    requires Enabled(w, e) && RequestsAreTheirOwn(w)
    ensures RequestsAreTheirOwn(After(c, w, e))
  {
    if e.End? {
      var r := w.requests[e.id];
      assert (r.outcomes + [e.outcome])[..|r.outcomes|] == r.outcomes;
    }
  }

  lemma StepKeepsInv(c: Settings, w: World, e: Event)
    requires c.threshold >= 1 && Enabled(w, e) && Inv(c, w)
    ensures Inv(c, After(c, w, e))
  {
    var w' := After(c, w, e);
    var note := w'.notes[|w.notes|];
    assert w'.notes == w.notes + [note];
    NoteKeepsCounting(c, w.state, w.notes, note, w'.state);
    StepKeepsOpen(c, w, e);
    StepKeepsRequests(c, w, e);
  }

  lemma {:induction false} RunKeepsInv(c: Settings, w: World, events: seq<Event>)
    requires c.threshold >= 1 && Runs(c, w, events) && Inv(c, w)
    ensures Inv(c, Final(c, w, events))
    decreases |events|
  {
    if events != [] {
      StepKeepsInv(c, w, events[0]);
      RunKeepsInv(c, After(c, w, events[0]), events[1..]);
    }
  }

  // ----- the theorems -----

  /** In every interleaving: closed if and only if fewer than `threshold` failures since the last reset. */
  lemma ClosedMeansFewFailures(c: Settings, events: seq<Event>)
    requires c.threshold >= 1 && Runs(c, START, events)
    ensures var w := Final(c, START, events);
            w.state.openedAt.None? <==> FailuresSinceReset(c, w.notes, |w.notes|) < c.threshold
  {
    RunKeepsInv(c, START, events);
  }

  /** A request that begins before the cooldown is over makes no call, then or ever. */
  lemma NoCallBeforeTheCooldownEnds(c: Settings, before: seq<Event>, e: Event, later: seq<Event>, i: nat)
    requires c.threshold >= 1 && Runs(c, START, before)
    requires Enabled(Final(c, START, before), e) && e.Begin?
    requires Runs(c, After(c, Final(c, START, before), e), later)
    requires i < |Final(c, START, before).notes| && OpensAt(c, Final(c, START, before).notes, i)
    requires e.at < Final(c, START, before).notes[i].at + c.cooldown
    ensures e.id in Final(c, After(c, Final(c, START, before), e), later).refused
    ensures e.id !in Final(c, After(c, Final(c, START, before), e), later).requests
  {
    var w := Final(c, START, before);
    RunKeepsInv(c, START, before);
    StepKeepsInv(c, w, e);
    assert e.id in After(c, w, e).refused;
    RefusedStaysRefused(c, After(c, w, e), later, e.id);
    RunKeepsInv(c, After(c, w, e), later);
  }

  lemma {:induction false} RefusedStaysRefused(c: Settings, w: World, events: seq<Event>, id: RequestId)
    requires Runs(c, w, events) && id in w.refused
    ensures id in Final(c, w, events).refused
    decreases |events|
  {
    if events != [] {
      RefusedStaysRefused(c, After(c, w, events[0]), events[1..], id);
    }
  }

  /** Whatever the others do, a request that made k calls has slept exactly 0.2 (2^(k-1) - 1) seconds. */
  lemma RequestsArePacedApart(c: Settings, events: seq<Event>, id: RequestId)
    requires c.threshold >= 1 && Runs(c, START, events) && id in Final(c, START, events).requests
    ensures var r := Final(c, START, events).requests[id];
            IsPaced(r.call, r.progress) && r.progress.calls == |r.outcomes|
  {
    RunKeepsInv(c, START, events);
    var r := Final(c, START, events).requests[id];
    SleepsArePaced(r.call, r.outcomes);
  }

  /**
   Once the cooldown is over the breaker is simply closed: it lets through every request, not one trial
   call, and a failed trial opens it again if and only if the threshold is one.
   */
  lemma TrialCallIsNotAlone(c: Settings, w: World, first: Event, second: Event)
    requires c.threshold >= 1 && Enabled(w, first) && first.Begin? && w.state.openedAt.Some?
    requires first.at >= w.state.openedAt.value + c.cooldown
    requires Enabled(After(c, w, first), second) && second.Begin?
    ensures second.id in After(c, After(c, w, first), second).requests
    ensures FailedAt(c, After(c, w, first).state, second.at).openedAt.Some? <==> c.threshold == 1
  {
  }
}
