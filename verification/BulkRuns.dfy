/**
 All histories of one bulk run: passes, passes whose row writes are lost after the services already
 answered, and the work of other runs in the same services; and the button of the cabinet beside them.
 */
module BulkRuns {
  import opened Collections
  import opened Options
  import opened BulkRows

  /** The committed rows of a run and the two keyed services it shares with all other runs. */
  datatype World = World(runId: string, rows: seq<RowState>, status: RunStatus, decisions: Store, shipments: Store)

  function KeysIn(w: World): seq<string> {
    seq(|w.rows|, i requires 0 <= i < |w.rows| => RowKey(w.runId, w.rows[i].id))
  }

  datatype Event =
    | QuotePassed(quotes: seq<QuoteReply>)
    | SelectPassed(selections: seq<SelectReply>)
    | CreatePassed(creations: seq<ServiceReply>)
    | SelectLost(selections: seq<SelectReply>, upTo: nat)
    | CreateLost(creations: seq<ServiceReply>, upTo: nat)
    | OtherDecision(key: string, result: Id)
    | OtherShipment(key: string, result: Id)

  /** Identifiers given to new results have not been used before. */
  ghost predicate NewIds(calls: seq<Option<ServiceReply>>, store: Store) {
    && (forall i :: 0 <= i < |calls| && Stores(calls[i]) ==> calls[i].value.newId !in store.Values)
    && (forall i, j :: 0 <= i < j < |calls| && Stores(calls[i]) && Stores(calls[j]) ==> calls[i].value.newId != calls[j].value.newId)
  }

  ghost predicate Possible(w: World, e: Event) {
    match e
    case QuotePassed(quotes) => |quotes| == |w.rows|
    case SelectPassed(selections) => |selections| == |w.rows| && NewIds(SelectCalls(w.rows, selections), w.decisions)
    case CreatePassed(creations) => |creations| == |w.rows| && NewIds(CreateCalls(w.rows, creations), w.shipments)
    case SelectLost(selections, upTo) =>
      |selections| == |w.rows| && upTo <= |w.rows| && NewIds(SelectCalls(w.rows, selections), w.decisions)
    case CreateLost(creations, upTo) =>
      |creations| == |w.rows| && upTo <= |w.rows| && NewIds(CreateCalls(w.rows, creations), w.shipments)
    case OtherDecision(key, result) => key !in KeysIn(w) && key !in w.decisions && result !in w.decisions.Values
    case OtherShipment(key, result) => key !in KeysIn(w) && key !in w.shipments && result !in w.shipments.Values
  }

  ghost function Step(w: World, e: Event): World
    requires Possible(w, e)
  {
    match e
    case QuotePassed(quotes) =>
      var rows := QuotePass(w.rows, quotes);
      w.(rows := rows, status := RunStatusOf(rows, QuotedRun))
    case SelectPassed(selections) =>
      var rows := SelectPass(w.rows, KeysIn(w), w.decisions, selections);
      w.(rows := rows, status := RunStatusOf(rows, QuotedRun),
         decisions := StoreAfterCalls(w.decisions, KeysIn(w), SelectCalls(w.rows, selections), |w.rows|))
    case CreatePassed(creations) =>
      var rows := CreatePass(w.rows, KeysIn(w), w.shipments, creations);
      w.(rows := rows, status := RunStatusOf(rows, Creating),
         shipments := StoreAfterCalls(w.shipments, KeysIn(w), CreateCalls(w.rows, creations), |w.rows|))
    case SelectLost(selections, upTo) =>
      w.(decisions := StoreAfterCalls(w.decisions, KeysIn(w), SelectCalls(w.rows, selections), upTo))
    case CreateLost(creations, upTo) =>
      w.(shipments := StoreAfterCalls(w.shipments, KeysIn(w), CreateCalls(w.rows, creations), upTo))
    case OtherDecision(key, result) => w.(decisions := w.decisions[key := result])
    case OtherShipment(key, result) => w.(shipments := w.shipments[key := result])
  }

  ghost predicate PossibleRun(w: World, events: seq<Event>)
    decreases |events|
  {
    events == [] || (Possible(w, events[0]) && PossibleRun(Step(w, events[0]), events[1..]))
  }

  ghost function Run(w: World, events: seq<Event>): World
    requires PossibleRun(w, events)
    decreases |events|
  {
    if events == [] then w else Run(Step(w, events[0]), events[1..])
  }

  // ----- the invariant -----

  ghost predicate Injective(store: Store) {
    forall k, l :: k in store && l in store && store[k] == store[l] ==> k == l
  }

  /** A row carries exactly the links its status promises, and they are what the services hold under its key. */
  ghost predicate RowOk(r: RowState, key: string, decisions: Store, shipments: Store) {
    && (r.status == New ==> r.quote.None? && r.recommendation.None? && r.decision.None? && r.shipment.None?)
    && (r.status == RowStatus.Quoted ==> r.quote.Some? && r.recommendation.None? && r.decision.None? && r.shipment.None?)
    && (r.status == Selected ==> r.quote.Some? && r.recommendation.Some? && r.decision.Some? && r.shipment.None?)
    && (r.status == RowStatus.Created ==> r.quote.Some? && r.recommendation.Some? && r.decision.Some? && r.shipment.Some?)
    && (r.status == RowStatus.Failed ==> r.error.Some? && r.error.value != "" && r.shipment.None?)
    && (r.decision.Some? ==> key in decisions && decisions[key] == r.decision.value)
    && (r.shipment.Some? ==> key in shipments && shipments[key] == r.shipment.value)
  }

  ghost predicate Inv(w: World) {
    && (forall i, j :: 0 <= i < j < |w.rows| ==> w.rows[i].id != w.rows[j].id)
    && (forall i :: 0 <= i < |w.rows| ==> RowOk(w.rows[i], KeysIn(w)[i], w.decisions, w.shipments))
    && Injective(w.decisions) && Injective(w.shipments)
  }

  /** A run as it is created: new rows, no links. */
  ghost predicate Initial(w: World) {
    && (forall i, j :: 0 <= i < j < |w.rows| ==> w.rows[i].id != w.rows[j].id)
    && (forall i :: 0 <= i < |w.rows| ==> w.rows[i] == RowState(w.rows[i].id, New, None, None, None, None, None))
    && Injective(w.decisions) && Injective(w.shipments)
  }

  lemma InitialInv(w: World)
    requires Initial(w)
    ensures Inv(w)
  {
  }

  lemma KeysDistinct(w: World)
    requires forall i, j :: 0 <= i < j < |w.rows| ==> w.rows[i].id != w.rows[j].id
    ensures Distinct(KeysIn(w))
  {
    forall i, j | 0 <= i < j < |w.rows| ensures RowKey(w.runId, w.rows[i].id) != RowKey(w.runId, w.rows[j].id) {
      var prefix := "bulk:" + w.runId + ":";
      assert RowKey(w.runId, w.rows[i].id) == prefix + w.rows[i].id && RowKey(w.runId, w.rows[j].id) == prefix + w.rows[j].id;
      assert (prefix + w.rows[i].id)[|prefix|..] == w.rows[i].id;
      assert (prefix + w.rows[j].id)[|prefix|..] == w.rows[j].id;
    }
  }

  lemma InjectiveWith(store: Store, key: string, result: Id)
    requires Injective(store) && result !in store.Values
    ensures Injective(store[key := result])
  {
    forall k | k in store ensures store[k] in store.Values {}
  }

  lemma {:induction false} StoreStaysInjective(store: Store, keys: seq<string>, calls: seq<Option<ServiceReply>>, n: nat)
    requires n <= |keys| == |calls| && Distinct(keys) && Injective(store) && NewIds(calls, store)
    ensures Injective(StoreAfterCalls(store, keys, calls, n))
  {
    if n > 0 {
      StoreStaysInjective(store, keys, calls, n - 1);
      var before := StoreAfterCalls(store, keys, calls, n - 1);
      if Stores(calls[n - 1]) && keys[n - 1] !in before {
        var result := calls[n - 1].value.newId;
        forall k | k in before ensures before[k] != result {
          if k in store {
            StoreGrows(store, keys, calls, n - 1);
            assert store[k] in store.Values;
          } else {
            var i := AddedByCall(store, keys, calls, n - 1, k);
          }
        }
        InjectiveWith(before, keys[n - 1], result);
      }
    }
  }

  /** Links are written once. */
  ghost predicate KeepsLinks(a: RowState, b: RowState) {
    && a.id == b.id
    && (a.quote.Some? ==> b.quote == a.quote) && (a.recommendation.Some? ==> b.recommendation == a.recommendation)
    && (a.decision.Some? ==> b.decision == a.decision) && (a.shipment.Some? ==> b.shipment == a.shipment)
  }

  /** A finished row is final. */
  ghost predicate RowMoves(a: RowState, b: RowState) {
    KeepsLinks(a, b) && (!Unfinished(a.status) ==> b == a)
  }

  lemma RowAfterGrowth(r: RowState, key: string, d: Store, s: Store, d': Store, s': Store)
    requires RowOk(r, key, d, s) && Grows(d, d') && Grows(s, s')
    ensures RowOk(r, key, d', s')
  {
  }

  /** What every step does to a run: it keeps the invariant, moves rows forward only, and loses no result. */
  ghost predicate GoodStep(w: World, w': World) {
    && Inv(w') && |w'.rows| == |w.rows| && KeysIn(w') == KeysIn(w)
    && (forall i :: 0 <= i < |w.rows| ==> RowMoves(w.rows[i], w'.rows[i]))
    && Grows(w.decisions, w'.decisions) && Grows(w.shipments, w'.shipments)
  }

  lemma StepKeepsInv(w: World, e: Event)
    requires Inv(w) && Possible(w, e)
    ensures GoodStep(w, Step(w, e))
  {
    match e {
      case QuotePassed(quotes) => QuoteKeepsInv(w, quotes);
      case SelectPassed(selections) => SelectKeepsInv(w, selections);
      case CreatePassed(creations) => CreateKeepsInv(w, creations);
      case SelectLost(selections, upTo) =>
        KeysDistinct(w);
        StoreGrows(w.decisions, KeysIn(w), SelectCalls(w.rows, selections), upTo);
        StoreStaysInjective(w.decisions, KeysIn(w), SelectCalls(w.rows, selections), upTo);
        ServicesOnly(w, Step(w, e));
      case CreateLost(creations, upTo) =>
        KeysDistinct(w);
        StoreGrows(w.shipments, KeysIn(w), CreateCalls(w.rows, creations), upTo);
        StoreStaysInjective(w.shipments, KeysIn(w), CreateCalls(w.rows, creations), upTo);
        ServicesOnly(w, Step(w, e));
      case OtherDecision(key, result) =>
        InjectiveWith(w.decisions, key, result);
        ServicesOnly(w, Step(w, e));
      case OtherShipment(key, result) =>
        InjectiveWith(w.shipments, key, result);
        ServicesOnly(w, Step(w, e));
    }
  }

  lemma ServicesOnly(w: World, w': World)
    requires Inv(w) && w'.rows == w.rows && w'.runId == w.runId
    requires Grows(w.decisions, w'.decisions) && Grows(w.shipments, w'.shipments)
    requires Injective(w'.decisions) && Injective(w'.shipments)
    ensures GoodStep(w, w')
  {
    forall i | 0 <= i < |w.rows| ensures RowOk(w'.rows[i], KeysIn(w')[i], w'.decisions, w'.shipments) {
      RowAfterGrowth(w.rows[i], KeysIn(w)[i], w.decisions, w.shipments, w'.decisions, w'.shipments);
    }
  }

  lemma QuoteKeepsInv(w: World, quotes: seq<QuoteReply>)
    requires Inv(w) && Possible(w, QuotePassed(quotes))
    ensures GoodStep(w, Step(w, QuotePassed(quotes)))
  {
    var w' := Step(w, QuotePassed(quotes));
    assert KeysIn(w') == KeysIn(w);
    forall i | 0 <= i < |w.rows|
      ensures RowOk(w'.rows[i], KeysIn(w)[i], w'.decisions, w'.shipments) && RowMoves(w.rows[i], w'.rows[i])
    {
      QuotedRowOk(w.rows[i], KeysIn(w)[i], w.decisions, w.shipments, quotes[i]);
    }
  }

  lemma QuotedRowOk(r: RowState, key: string, d: Store, s: Store, reply: QuoteReply)
    requires RowOk(r, key, d, s)
    ensures RowOk(QuoteRow(r, reply), key, d, s) && RowMoves(r, QuoteRow(r, reply))
  {
  }

  lemma SelectKeepsInv(w: World, selections: seq<SelectReply>)
    requires Inv(w) && Possible(w, SelectPassed(selections))
    ensures GoodStep(w, Step(w, SelectPassed(selections)))
  {
    var w', keys, calls := Step(w, SelectPassed(selections)), KeysIn(w), SelectCalls(w.rows, selections);
    KeysDistinct(w);
    StoreGrows(w.decisions, keys, calls, |w.rows|);
    StoreStaysInjective(w.decisions, keys, calls, |w.rows|);
    assert KeysIn(w') == keys;
    forall i | 0 <= i < |w.rows|
      ensures RowOk(w'.rows[i], keys[i], w'.decisions, w'.shipments) && RowMoves(w.rows[i], w'.rows[i])
    {
      if Stores(calls[i]) {
        CallIsStored(w.decisions, keys, calls, |w.rows|, i);
      }
      SelectedRowOk(w.rows[i], keys[i], w.decisions, w'.decisions, w.shipments, selections[i]);
    }
  }

  lemma SelectedRowOk(r: RowState, key: string, d: Store, d': Store, s: Store, reply: SelectReply)
    requires RowOk(r, key, d, s) && Grows(d, d')
    requires Stores(SelectCall(r, reply)) ==> key in d' && d'[key] == if key in d then d[key] else reply.decide.newId
    ensures RowOk(SelectRow(r, key, d, reply), key, d', s) && RowMoves(r, SelectRow(r, key, d, reply))
  {
  }

  lemma CreateKeepsInv(w: World, creations: seq<ServiceReply>)
    requires Inv(w) && Possible(w, CreatePassed(creations))
    ensures GoodStep(w, Step(w, CreatePassed(creations)))
  {
    var w', keys, calls := Step(w, CreatePassed(creations)), KeysIn(w), CreateCalls(w.rows, creations);
    KeysDistinct(w);
    StoreGrows(w.shipments, keys, calls, |w.rows|);
    StoreStaysInjective(w.shipments, keys, calls, |w.rows|);
    assert KeysIn(w') == keys;
    forall i | 0 <= i < |w.rows|
      ensures RowOk(w'.rows[i], keys[i], w'.decisions, w'.shipments) && RowMoves(w.rows[i], w'.rows[i])
    {
      if Stores(calls[i]) {
        CallIsStored(w.shipments, keys, calls, |w.rows|, i);
      }
      CreatedRowOk(w.rows[i], keys[i], w.decisions, w.shipments, w'.shipments, creations[i]);
    }
  }

  lemma CreatedRowOk(r: RowState, key: string, d: Store, s: Store, s': Store, reply: ServiceReply)
    requires RowOk(r, key, d, s) && Grows(s, s')
    requires Stores(CreateCall(r, reply)) ==> key in s' && s'[key] == if key in s then s[key] else reply.newId
    ensures RowOk(CreateRow(r, key, s, reply), key, d, s') && RowMoves(r, CreateRow(r, key, s, reply))
  {
  }

  // ----- over whole histories -----

  /** In every history the invariant holds, links are written once, finished rows stay, and services forget nothing. */
  lemma {:induction false} RunKeepsInv(w: World, events: seq<Event>)
    requires Inv(w) && PossibleRun(w, events)
    ensures GoodStep(w, Run(w, events))
    decreases |events|
  {
    if events != [] {
      StepKeepsInv(w, events[0]);
      RunKeepsInv(Step(w, events[0]), events[1..]);
    }
  }

  /** No two rows ever share a shipment or a decision. */
  lemma NoSharedShipments(w: World, events: seq<Event>, i: nat, j: nat)
    requires Initial(w) && PossibleRun(w, events) && i < j < |w.rows|
    ensures |Run(w, events).rows| == |w.rows|
    ensures var rows := Run(w, events).rows;
            && (rows[i].shipment.Some? && rows[j].shipment.Some? ==> rows[i].shipment != rows[j].shipment)
            && (rows[i].decision.Some? && rows[j].decision.Some? ==> rows[i].decision != rows[j].decision)
  {
    InitialInv(w);
    RunKeepsInv(w, events);
    KeysDistinct(Run(w, events));
    assert KeysIn(Run(w, events))[i] != KeysIn(Run(w, events))[j];
  }

  /**
   A shipment that was ordered for a row, in a pass whose row writes were lost or not, is the only one that row
   can ever get: whatever happens next, the row has no shipment or this one.
   */
  lemma OrderedShipmentIsKept(w: World, events: seq<Event>, i: nat)
    requires Inv(w) && PossibleRun(w, events) && i < |w.rows| && KeysIn(w)[i] in w.shipments
    ensures |Run(w, events).rows| == |w.rows|
    ensures var row := Run(w, events).rows[i];
            row.shipment.None? || row.shipment == Some(w.shipments[KeysIn(w)[i]])
  {
    RunKeepsInv(w, events);
  }

  /**
   Running a creation that was lost after any of its rows completes the rows it had reached with the
   shipments already ordered for them, and orders none of those twice.
   */
  lemma LostCreationIsCompleted(w: World, lost: seq<ServiceReply>, upTo: nat, again: seq<ServiceReply>, i: nat)
    requires Inv(w) && i < upTo <= |w.rows| && Creatable(w.rows[i]) && |again| == |w.rows|
    requires Possible(w, CreateLost(lost, upTo)) && !lost[i].RaisesBefore? && again[i].Answers?
    requires Possible(Step(w, CreateLost(lost, upTo)), CreatePassed(again))
    ensures var crashed := Step(w, CreateLost(lost, upTo));
            var done := Step(crashed, CreatePassed(again));
            && |done.rows| == |w.rows|
            && KeysIn(w)[i] in crashed.shipments
            && KeysIn(w)[i] in done.shipments
            && done.rows[i].status == RowStatus.Created
            && done.rows[i].shipment == Some(crashed.shipments[KeysIn(w)[i]])
            && done.shipments[KeysIn(w)[i]] == crashed.shipments[KeysIn(w)[i]]
  {
    KeysDistinct(w);
    var crashed := Step(w, CreateLost(lost, upTo));
    CallIsStored(w.shipments, KeysIn(w), CreateCalls(w.rows, lost), upTo, i);
    StepKeepsInv(w, CreateLost(lost, upTo));
    StepKeepsInv(crashed, CreatePassed(again));
  }

  /** The row failed for this reason and kept its links. */
  predicate FailedFor(before: RowState, after: RowState, exc: Exc) {
    after == before.(status := RowStatus.Failed, error := Some(Reason(exc)))
  }

  ghost predicate AgreeBut<T>(a: seq<T>, b: seq<T>, at: nat) {
    |a| == |b| && forall k :: 0 <= k < |a| && k != at ==> a[k] == b[k]
  }

  /** Two passes of one kind whose replies differ for one row at most. */
  ghost predicate DifferAt(e: Event, f: Event, at: nat) {
    match e
    case QuotePassed(quotes) => f.QuotePassed? && AgreeBut(quotes, f.quotes, at)
    case SelectPassed(selections) => f.SelectPassed? && AgreeBut(selections, f.selections, at)
    case CreatePassed(creations) => f.CreatePassed? && AgreeBut(creations, f.creations, at)
    case _ => false
  }

  /** It is the row's turn in this pass. */
  predicate IsTurnOf(e: Event, r: RowState) {
    match e
    case QuotePassed(_) => r.status == New
    case SelectPassed(_) => Selectable(r)
    case CreatePassed(_) => Creatable(r)
    case _ => false
  }

  /** The exception that the replies for a row raise into the loop, if they do. */
  function RaisedAt(e: Event, i: nat): Option<Exc> {
    match e
    case QuotePassed(quotes) => if i < |quotes| && quotes[i].QuoteRaised? then Some(quotes[i].exc) else None
    case SelectPassed(selections) =>
      if i >= |selections| then None
      else (match selections[i].recommend
            case RecommendRaised(exc) => Some(exc)
            case Recommended(_, offer) =>
              if offer.None? then Some(NOTHING_TO_SELECT)
              else if selections[i].decide.Answers? then None else Some(selections[i].decide.exc))
    case CreatePassed(creations) => if i < |creations| && !creations[i].Answers? then Some(creations[i].exc) else None
    case _ => None
  }

  function Held(store: Store, key: string): Option<Id> {
    if key in store then Some(store[key]) else None
  }

  /** What a service holds under the other keys does not depend on the call for one of them. */
  lemma {:induction false} OtherKeysAgree(
      store: Store, keys: seq<string>, a: seq<Option<ServiceReply>>, b: seq<Option<ServiceReply>>, n: nat, at: nat, key: string)
    requires n <= |keys| == |a| == |b| && at < |keys| && AgreeBut(a, b, at) && key != keys[at]
    ensures Held(StoreAfterCalls(store, keys, a, n), key) == Held(StoreAfterCalls(store, keys, b, n), key)
  {
    if n > 0 {
      OtherKeysAgree(store, keys, a, b, n - 1, at, key);
    }
  }

  /**
   In each of the three passes an exception fails its own row and keeps its links, and every other row, and what the
   services hold under the keys of the other rows, is as it would be without it.
   */
  lemma OneFailureStaysAlone(w: World, e: Event, f: Event, failing: nat, i: nat, key: string)
    requires Possible(w, e) && Possible(w, f) && DifferAt(e, f, failing)
    requires failing < |w.rows| && i < |w.rows| && i != failing && key != KeysIn(w)[failing]
    ensures var a, b := Step(w, e), Step(w, f);
            && |a.rows| == |b.rows| == |w.rows| && a.rows[i] == b.rows[i]
            && Held(a.decisions, key) == Held(b.decisions, key) && Held(a.shipments, key) == Held(b.shipments, key)
            && (RaisedAt(f, failing).Some? ==>
                  if IsTurnOf(f, w.rows[failing]) then FailedFor(w.rows[failing], b.rows[failing], RaisedAt(f, failing).value)
                  else b.rows[failing] == w.rows[failing])
  {
    match e
    case SelectPassed(selections) =>
      OtherKeysAgree(w.decisions, KeysIn(w), SelectCalls(w.rows, selections), SelectCalls(w.rows, f.selections), |w.rows|, failing, key);
    case CreatePassed(creations) =>
      OtherKeysAgree(w.shipments, KeysIn(w), CreateCalls(w.rows, creations), CreateCalls(w.rows, f.creations), |w.rows|, failing, key);
    case _ =>
  }

  // ----- the button -----

  datatype NextButton = QuoteButton | SelectButton | CreateButton

  /** The next step, derived from the counters of the rows. */
  function NextStep(rows: seq<RowState>): Option<NextButton> {
    if CountOf(rows, New) > 0 then Some(QuoteButton)
    else if CountOf(rows, RowStatus.Quoted) > 0 then Some(SelectButton)
    else if CountOf(rows, Selected) > 0 then Some(CreateButton)
    else None
  }

  /** The event a press causes, for whatever the services reply. */
  function Press(b: NextButton, quotes: seq<QuoteReply>, selections: seq<SelectReply>, creations: seq<ServiceReply>): Event {
    match b
    case QuoteButton => QuotePassed(quotes)
    case SelectButton => SelectPassed(selections)
    case CreateButton => CreatePassed(creations)
  }

  /** There is no button exactly when no row is in work. */
  lemma NoButtonMeansFinished(rows: seq<RowState>)
    ensures NextStep(rows).None? <==> UnfinishedCount(rows) == 0
  {
    CountsAre(rows, New);
    CountsAre(rows, RowStatus.Quoted);
    CountsAre(rows, Selected);
    if NextStep(rows).None? {
      forall r | r in rows ensures !Unfinished(r.status) {}
    }
  }

  /** How many presses can still be needed. */
  function PressesLeft(rows: seq<RowState>): nat {
    match NextStep(rows)
    case Some(QuoteButton) => 3
    case Some(SelectButton) => 2
    case Some(CreateButton) => 1
    case None => 0
  }

  predicate Fits(b: NextButton, e: Event) {
    match b
    case QuoteButton => e.QuotePassed?
    case SelectButton => e.SelectPassed?
    case CreateButton => e.CreatePassed?
  }

  function Takes(b: NextButton): RowStatus {
    match b
    case QuoteButton => New
    case SelectButton => RowStatus.Quoted
    case CreateButton => Selected
  }

  /** The server takes exactly the rows the button counts: each of them moves on, and none comes back to it. */
  lemma PassTakesItsRows(w: World, b: NextButton, e: Event, i: nat)
    requires Inv(w) && Possible(w, e) && Fits(b, e) && i < |w.rows| == |Step(w, e).rows|
    ensures var r, r' := w.rows[i], Step(w, e).rows[i];
            && (r.status == Takes(b) ==> Level(r'.status) < Level(r.status))
            && (r.status != Takes(b) ==> r' == r)
  {
    assert RowOk(w.rows[i], KeysIn(w)[i], w.decisions, w.shipments);
  }

  lemma {:induction false} LeftFrom(rows: seq<RowState>)
    ensures forall r :: r in rows ==> Level(r.status) <= PressesLeft(rows)
    ensures NextStep(rows).Some? ==> PressesLeft(rows) == Level(Takes(NextStep(rows).value))
    ensures NextStep(rows).Some? ==> exists r :: r in rows && r.status == Takes(NextStep(rows).value)
  {
    CountsAre(rows, New);
    CountsAre(rows, RowStatus.Quoted);
    CountsAre(rows, Selected);
  }

  /** A press the cabinet offers always moves the run on, and never leads to the same step again. */
  lemma PressMakesProgress(w: World, e: Event)
    requires Inv(w) && NextStep(w.rows).Some? && Possible(w, e) && Fits(NextStep(w.rows).value, e)
    ensures Step(w, e).rows != w.rows
    ensures PressesLeft(Step(w, e).rows) < PressesLeft(w.rows)
  {
    var w', b := Step(w, e), NextStep(w.rows).value;
    LeftFrom(w.rows);
    StepKeepsInv(w, e);
    forall i | 0 <= i < |w'.rows|
      ensures Level(w'.rows[i].status) < PressesLeft(w.rows)
    {
      assert w.rows[i] in w.rows;
      PassTakesItsRows(w, b, e, i);
    }
    LeftBelow(w'.rows, PressesLeft(w.rows));
    var r :| r in w.rows && r.status == Takes(b);
    var i :| 0 <= i < |w.rows| && w.rows[i] == r;
    PassTakesItsRows(w, b, e, i);
  }

  lemma LeftBelow(rows: seq<RowState>, limit: nat)
    requires limit > 0 && forall i :: 0 <= i < |rows| ==> Level(rows[i].status) < limit
    ensures PressesLeft(rows) < limit
  {
    LeftFrom(rows);
  }

  /** After a pass the run is over exactly when there is no button, and then it failed only if every row did. */
  lemma StatusAfterPass(w: World, e: Event)
    requires Possible(w, e) && (e.QuotePassed? || e.SelectPassed? || e.CreatePassed?) && w.rows != []
    ensures var w' := Step(w, e);
            && (NextStep(w'.rows).None? <==> w'.status in {FailedRun, Completed})
            && (w'.status == FailedRun <==> forall r :: r in w'.rows ==> r.status == RowStatus.Failed)
  {
    var w' := Step(w, e);
    CountsAre(w'.rows, RowStatus.Failed);
    NoButtonMeansFinished(w'.rows);
    assert |w'.rows| == |w.rows|;
  }

  function Level(status: RowStatus): nat {
    match status
    case New => 3
    case Quoted => 2
    case Selected => 1
    case Created => 0
    case Failed => 0
  }

  /** The replies to one press. */
  datatype Replies = Replies(quotes: seq<QuoteReply>, selections: seq<SelectReply>, creations: seq<ServiceReply>)

  ghost predicate PressPossible(w: World, r: Replies) {
    NextStep(w.rows).Some? ==> Possible(w, Press(NextStep(w.rows).value, r.quotes, r.selections, r.creations))
  }

  ghost function AfterPress(w: World, r: Replies): World
    requires PressPossible(w, r)
  {
    if NextStep(w.rows).None? then w
    else Step(w, Press(NextStep(w.rows).value, r.quotes, r.selections, r.creations))
  }

  lemma OnePress(w: World, r: Replies)
    requires Inv(w) && PressPossible(w, r)
    ensures Inv(AfterPress(w, r)) && |AfterPress(w, r).rows| == |w.rows|
    ensures PressesLeft(AfterPress(w, r).rows) <= if PressesLeft(w.rows) == 0 then 0 else PressesLeft(w.rows) - 1
  {
    if NextStep(w.rows).Some? {
      var e := Press(NextStep(w.rows).value, r.quotes, r.selections, r.creations);
      StepKeepsInv(w, e);
      PressMakesProgress(w, e);
    }
  }

  /** From every reachable run three presses are enough, whatever the services reply; nothing is left in work then. */
  lemma ThreePressesFinish(w: World, a: Replies, b: Replies, c: Replies)
    requires Inv(w) && PressPossible(w, a) && PressPossible(AfterPress(w, a), b)
    requires PressPossible(AfterPress(AfterPress(w, a), b), c)
    ensures var done := AfterPress(AfterPress(AfterPress(w, a), b), c);
            NextStep(done.rows).None? && UnfinishedCount(done.rows) == 0
  {
    OnePress(w, a);
    OnePress(AfterPress(w, a), b);
    OnePress(AfterPress(AfterPress(w, a), b), c);
    NoButtonMeansFinished(AfterPress(AfterPress(AfterPress(w, a), b), c).rows);
  }
}
