/**
 Bulk runs: a list of recipients goes through quoting, selection and creation, row by row. A row that fails
 turns itself off and not the run; the services behind are keyed stores, so a repeated pass is safe.
 */
module BulkRows {
  import opened Collections
  import opened Options

  type Id = nat

  datatype RowStatus = New | Quoted | Selected | Created | Failed
  datatype RunStatus = Draft | Quoting | QuotedRun | Creating | Completed | FailedRun

  /** An exception: its text, and the never empty name of its class. */
  datatype Exc = Exc(message: string, classInitial: char, classRest: string)

  function Reason(e: Exc): (r: string)
    ensures r != ""
  {
    if e.message != "" then e.message else [e.classInitial] + e.classRest
  }

  /** Raised when the quote went well but there was nothing to choose from. */
  const NOTHING_TO_SELECT := Exc("no offer fits the row", 'N', "othingToSelectError")

  datatype RowState = RowState(
    id: string, status: RowStatus,
    quote: Option<Id>, recommendation: Option<Id>, decision: Option<Id>, shipment: Option<Id>,
    error: Option<string>)

  /** The idempotency key of a row: derived, never asked for. */
  function RowKey(runId: string, rowId: string): string {
    "bulk:" + runId + ":" + rowId
  }

  lemma {:induction false} SplitAtColon(a: string, b: string, c: string, d: string)
    requires ':' !in a && ':' !in c && a + [':'] + b == c + [':'] + d
    ensures a == c && b == d
  {
    var first := (a + [':'] + b)[0];
    assert first == (c + [':'] + d)[0];
    assert if a == [] then first == ':' else first == a[0] && first in a;
    assert if c == [] then first == ':' else first == c[0] && first in c;
    if a == [] || c == [] {
      assert (a + [':'] + b)[1..] == b && (c + [':'] + d)[1..] == d;
    } else {
      assert (a + [':'] + b)[0] == a[0] && (c + [':'] + d)[0] == c[0];
      assert (a + [':'] + b)[1..] == a[1..] + [':'] + b && (c + [':'] + d)[1..] == c[1..] + [':'] + d;
      SplitAtColon(a[1..], b, c[1..], d);
      assert a == [a[0]] + a[1..] && c == [c[0]] + c[1..];
    }
  }

  /** Identifiers contain no colon, so a key names one row of one run. */
  lemma RowKeyInjective(run: string, row: string, run': string, row': string)
    requires ':' !in run && ':' !in run'
    ensures RowKey(run, row) == RowKey(run', row') <==> run == run' && row == row'
  {
    if RowKey(run, row) == RowKey(run', row') {
      var prefix := "bulk:";
      assert RowKey(run, row) == prefix + (run + [':'] + row);
      assert RowKey(run', row') == prefix + (run' + [':'] + row');
      assert (prefix + (run + [':'] + row))[|prefix|..] == run + [':'] + row;
      assert (prefix + (run' + [':'] + row'))[|prefix|..] == run' + [':'] + row';
      SplitAtColon(run, row, run', row');
    }
  }

  // ----- the services behind a row -----

  datatype QuoteReply = QuoteDone(quote: Id) | QuoteRaised(exc: Exc)

  datatype RecommendReply = Recommended(recommendation: Id, offer: Option<Id>) | RecommendRaised(exc: Exc)

  /**
   How a keyed service reacts: it answers, or it raises before or after it stored its result. `newId` is
   the identifier it would give a new result; a known key gets its old one.
   */
  datatype ServiceReply = Answers(newId: Id) | RaisesBefore(exc: Exc) | RaisesAfter(newId: Id, exc: Exc)

  datatype SelectReply = SelectReply(recommend: RecommendReply, decide: ServiceReply)

  type Store = map<string, Id>

  function StoreAfter(store: Store, key: string, reply: ServiceReply): Store {
    if reply.RaisesBefore? || key in store then store else store[key := reply.newId]
  }

  function ServiceResult(store: Store, key: string, reply: ServiceReply): Result<Id, Exc> {
    match reply
    case Answers(newId) => Ok(if key in store then store[key] else newId)
    case RaisesBefore(exc) => Err(exc)
    case RaisesAfter(_, exc) => Err(exc)
  }

  /** A service that returns the finished result for a repeated key. */
  class KeyedService {
    var results: Store

    constructor ()
      ensures results == map[]
    {
      results := map[];
    }

    method GetOrCreate(key: string, reply: ServiceReply) returns (result: Result<Id, Exc>)
      modifies this
      ensures results == StoreAfter(old(results), key, reply)
      ensures result == ServiceResult(old(results), key, reply)
    {
      match reply {
        case RaisesBefore(exc) =>
          return Err(exc);
        case Answers(newId) =>
          if key !in results {
            results := results[key := newId];
          }
          return Ok(results[key]);
        case RaisesAfter(newId, exc) =>
          if key !in results {
            results := results[key := newId];
          }
          return Err(exc);
      }
    }
  }

  // ----- one row, one pass -----

  function FailRow(r: RowState, exc: Exc): RowState {
    r.(status := Failed, error := Some(Reason(exc)))
  }

  function QuoteRow(r: RowState, reply: QuoteReply): RowState {
    if r.status != New then r
    else match reply
      case QuoteDone(quote) => r.(quote := Some(quote), status := Quoted)
      case QuoteRaised(exc) => FailRow(r, exc)
  }

  predicate Selectable(r: RowState) { r.status == Quoted && r.quote.Some? }

  /** The call to the decision service, if the row gets that far. */
  function SelectCall(r: RowState, reply: SelectReply): Option<ServiceReply> {
    if Selectable(r) && reply.recommend.Recommended? && reply.recommend.offer.Some? then Some(reply.decide) else None
  }

  function SelectRow(r: RowState, key: string, store: Store, reply: SelectReply): RowState {
    if !Selectable(r) then r
    else match reply.recommend
      case RecommendRaised(exc) => FailRow(r, exc)
      case Recommended(recommendation, offer) =>
        if offer.None? then FailRow(r, NOTHING_TO_SELECT)
        else match ServiceResult(store, key, reply.decide)
          case Ok(decision) => r.(recommendation := Some(recommendation), decision := Some(decision), status := Selected)
          case Err(exc) => FailRow(r, exc)
  }

  predicate Creatable(r: RowState) { r.status == Selected && r.decision.Some? }

  function CreateCall(r: RowState, reply: ServiceReply): Option<ServiceReply> {
    if Creatable(r) then Some(reply) else None
  }

  function CreateRow(r: RowState, key: string, store: Store, reply: ServiceReply): RowState {
    if !Creatable(r) then r
    else match ServiceResult(store, key, reply)
      case Ok(shipment) => r.(shipment := Some(shipment), status := Created)
      case Err(exc) => FailRow(r, exc)
  }

  // ----- the store over a pass -----

  function Called(store: Store, key: string, call: Option<ServiceReply>): Store {
    if call.Some? then StoreAfter(store, key, call.value) else store
  }

  /** The store after the first n rows. */
  function StoreAfterCalls(store: Store, keys: seq<string>, calls: seq<Option<ServiceReply>>, n: nat): Store
    requires n <= |keys| == |calls|
  {
    if n == 0 then store
    else Called(StoreAfterCalls(store, keys, calls, n - 1), keys[n - 1], calls[n - 1])
  }

  /** Row i of a pass finds its own key as the pass found it. */
  lemma {:induction false} KeyStillUntouched(store: Store, keys: seq<string>, calls: seq<Option<ServiceReply>>, n: nat, i: nat)
    requires n <= i < |keys| == |calls| && Distinct(keys)
    ensures var after := StoreAfterCalls(store, keys, calls, n);
            (keys[i] in after <==> keys[i] in store) && (keys[i] in store ==> after[keys[i]] == store[keys[i]])
  {
    if n > 0 {
      KeyStillUntouched(store, keys, calls, n - 1, i);
      assert keys[n - 1] != keys[i];
    }
  }

  ghost predicate Grows(a: Store, b: Store) {
    forall k :: k in a ==> k in b && b[k] == a[k]
  }

  /** A pass never rewrites a result. */
  lemma {:induction false} StoreGrows(store: Store, keys: seq<string>, calls: seq<Option<ServiceReply>>, n: nat)
    requires n <= |keys| == |calls|
    ensures Grows(store, StoreAfterCalls(store, keys, calls, n))
  {
    if n > 0 {
      StoreGrows(store, keys, calls, n - 1);
    }
  }

  predicate Stores(call: Option<ServiceReply>) {
    call.Some? && !call.value.RaisesBefore?
  }

  /** Whatever a pass adds comes from one of its calls, under the key of that row. */
  lemma {:induction false} AddedByCall(store: Store, keys: seq<string>, calls: seq<Option<ServiceReply>>, n: nat, k: string)
    returns (i: nat)
    requires n <= |keys| == |calls|
    requires k in StoreAfterCalls(store, keys, calls, n) && k !in store
    ensures i < n && keys[i] == k && Stores(calls[i]) && StoreAfterCalls(store, keys, calls, n)[k] == calls[i].value.newId
  {
    if k in StoreAfterCalls(store, keys, calls, n - 1) {
      i := AddedByCall(store, keys, calls, n - 1, k);
    } else {
      i := n - 1;
    }
  }

  /** What a call stored, or found stored, is there when the pass ends. */
  lemma {:induction false} CallIsStored(store: Store, keys: seq<string>, calls: seq<Option<ServiceReply>>, n: nat, i: nat)
    requires i < n <= |keys| == |calls| && Distinct(keys) && Stores(calls[i])
    ensures var after := StoreAfterCalls(store, keys, calls, n);
            keys[i] in after && after[keys[i]] == if keys[i] in store then store[keys[i]] else calls[i].value.newId
  {
    if i < n - 1 {
      CallIsStored(store, keys, calls, n - 1, i);
    } else {
      KeyStillUntouched(store, keys, calls, n - 1, i);
    }
  }

  // ----- counters and the status of the run -----

  function CountOf(rows: seq<RowState>, status: RowStatus): nat {
    if rows == [] then 0 else (if rows[0].status == status then 1 else 0) + CountOf(rows[1..], status)
  }

  predicate Unfinished(status: RowStatus) { status != Created && status != Failed }

  function UnfinishedCount(rows: seq<RowState>): nat {
    if rows == [] then 0 else (if Unfinished(rows[0].status) then 1 else 0) + UnfinishedCount(rows[1..])
  }

  function RunStatusOf(rows: seq<RowState>, whenBusy: RunStatus): RunStatus {
    if UnfinishedCount(rows) > 0 then whenBusy
    else if rows != [] && CountOf(rows, Failed) == |rows| then FailedRun
    else Completed
  }

  lemma {:induction false} CountsAre(rows: seq<RowState>, status: RowStatus)
    ensures CountOf(rows, status) <= |rows|
    ensures CountOf(rows, status) == 0 <==> forall r :: r in rows ==> r.status != status
    ensures CountOf(rows, status) == |rows| <==> forall r :: r in rows ==> r.status == status
    ensures UnfinishedCount(rows) == 0 <==> forall r :: r in rows ==> !Unfinished(r.status)
  {
    if rows != [] {
      CountsAre(rows[1..], status);
      assert rows[0] in rows && forall r :: r in rows <==> r == rows[0] || r in rows[1..];
    }
  }

  // ----- the rows and the three passes as they change in place -----

  class BulkRow {
    const id: string
    var status: RowStatus
    var rateQuoteId: Option<Id>
    var recommendationId: Option<Id>
    var decisionId: Option<Id>
    var shipmentId: Option<Id>
    var errorMessage: Option<string>

    constructor (id: string)
      ensures State() == RowState(id, New, None, None, None, None, None)
    {
      this.id := id;
      status := New;
      rateQuoteId, recommendationId, decisionId, shipmentId, errorMessage := None, None, None, None, None;
    }

    function State(): RowState
      reads this
    {
      RowState(id, status, rateQuoteId, recommendationId, decisionId, shipmentId, errorMessage)
    }

    method Fail(exc: Exc)
      modifies this
      ensures State() == FailRow(old(State()), exc)
    {
      status := Failed;
      errorMessage := Some(Reason(exc));
    }
  }

  method SelectOne(row: BulkRow, key: string, decisions: KeyedService, reply: SelectReply)
    modifies row, decisions
    ensures row.State() == SelectRow(old(row.State()), key, old(decisions.results), reply)
    ensures decisions.results == Called(old(decisions.results), key, SelectCall(old(row.State()), reply))
  {
    if row.status != RowStatus.Quoted || row.rateQuoteId.None? {
      return;
    }
    match reply.recommend {
      case RecommendRaised(exc) => row.Fail(exc);
      case Recommended(recommendation, offer) =>
        if offer.None? {
          row.Fail(NOTHING_TO_SELECT);
          return;
        }
        var result := decisions.GetOrCreate(key, reply.decide);
        match result {
          case Err(exc) => row.Fail(exc);
          case Ok(decision) =>
            row.recommendationId := Some(recommendation);
            row.decisionId := Some(decision);
            row.status := Selected;
        }
    }
  }

  method CreateOne(row: BulkRow, key: string, shipments: KeyedService, reply: ServiceReply)
    modifies row, shipments
    ensures row.State() == CreateRow(old(row.State()), key, old(shipments.results), reply)
    ensures shipments.results == Called(old(shipments.results), key, CreateCall(old(row.State()), reply))
  {
    if row.status != Selected || row.decisionId.None? {
      return;
    }
    var result := shipments.GetOrCreate(key, reply);
    match result {
      case Err(exc) => row.Fail(exc);
      case Ok(shipment) =>
        row.shipmentId := Some(shipment);
        row.status := RowStatus.Created;
    }
  }

  /** A row sees of a store only what is under its own key. */
  lemma SelectSeesItsKeyOnly(r: RowState, key: string, a: Store, b: Store, reply: SelectReply)
    requires key in a <==> key in b
    requires key in a ==> a[key] == b[key]
    ensures SelectRow(r, key, a, reply) == SelectRow(r, key, b, reply)
  {
  }

  lemma CreateSeesItsKeyOnly(r: RowState, key: string, a: Store, b: Store, reply: ServiceReply)
    requires key in a <==> key in b
    requires key in a ==> a[key] == b[key]
    ensures CreateRow(r, key, a, reply) == CreateRow(r, key, b, reply)
  {
  }

  function StatesOf(rows: seq<BulkRow>): seq<RowState>
    reads rows
  {
    seq(|rows|, i requires 0 <= i < |rows| reads rows => rows[i].State())
  }

  function KeysOf(runId: string, rows: seq<BulkRow>): seq<string> {
    seq(|rows|, i requires 0 <= i < |rows| => RowKey(runId, rows[i].id))
  }

  function SelectCalls(rows: seq<RowState>, replies: seq<SelectReply>): seq<Option<ServiceReply>>
    requires |rows| == |replies|
  {
    seq(|rows|, i requires 0 <= i < |rows| => SelectCall(rows[i], replies[i]))
  }

  function CreateCalls(rows: seq<RowState>, replies: seq<ServiceReply>): seq<Option<ServiceReply>>
    requires |rows| == |replies|
  {
    seq(|rows|, i requires 0 <= i < |rows| => CreateCall(rows[i], replies[i]))
  }

  function QuotePass(rows: seq<RowState>, replies: seq<QuoteReply>): seq<RowState>
    requires |rows| == |replies|
  {
    seq(|rows|, i requires 0 <= i < |rows| => QuoteRow(rows[i], replies[i]))
  }

  /** Every row is selected against the store as the pass found it: the rows do not see each other. */
  function SelectPass(rows: seq<RowState>, keys: seq<string>, store: Store, replies: seq<SelectReply>): seq<RowState>
    requires |rows| == |replies| == |keys|
  {
    seq(|rows|, i requires 0 <= i < |rows| => SelectRow(rows[i], keys[i], store, replies[i]))
  }

  function CreatePass(rows: seq<RowState>, keys: seq<string>, store: Store, replies: seq<ServiceReply>): seq<RowState>
    requires |rows| == |replies| == |keys|
  {
    seq(|rows|, i requires 0 <= i < |rows| => CreateRow(rows[i], keys[i], store, replies[i]))
  }

  /** The first k rows as the pass leaves them, the others as it found them. */
  ghost function HalfDone(goal: seq<RowState>, before: seq<RowState>, k: nat): (rows: seq<RowState>)
    requires |goal| == |before| && k <= |before|
    ensures |rows| == |before|
  {
    if k == 0 then before else HalfDone(goal, before, k - 1)[k - 1 := goal[k - 1]]
  }

  lemma {:induction false} HalfDoneIs(goal: seq<RowState>, before: seq<RowState>, k: nat)
    requires |goal| == |before| && k <= |before|
    ensures forall i :: 0 <= i < |before| ==> HalfDone(goal, before, k)[i] == if i < k then goal[i] else before[i]
    ensures k == |before| ==> HalfDone(goal, before, k) == goal
  {
    if k > 0 {
      HalfDoneIs(goal, before, k - 1);
    }
  }

  /** When the pass reaches row k, acting on the store of that moment is acting on the store the pass began with. */
  lemma SelectReaches(rows: seq<RowState>, keys: seq<string>, store: Store, replies: seq<SelectReply>, k: nat)
    requires k < |rows| == |keys| == |replies| && Distinct(keys)
    ensures var calls := SelectCalls(rows, replies);
            var now := StoreAfterCalls(store, keys, calls, k);
            && SelectRow(rows[k], keys[k], now, replies[k]) == SelectPass(rows, keys, store, replies)[k]
            && Called(now, keys[k], SelectCall(rows[k], replies[k])) == StoreAfterCalls(store, keys, calls, k + 1)
  {
    var calls := SelectCalls(rows, replies);
    KeyStillUntouched(store, keys, calls, k, k);
    SelectSeesItsKeyOnly(rows[k], keys[k], StoreAfterCalls(store, keys, calls, k), store, replies[k]);
  }

  method SelectAt(rows: seq<BulkRow>, k: nat, key: string, decisions: KeyedService, reply: SelectReply)
    requires k < |rows| && Distinct(rows)
    modifies rows[k], decisions
    ensures |StatesOf(rows)| == |rows|
    ensures StatesOf(rows) == old(StatesOf(rows))[k := SelectRow(old(StatesOf(rows))[k], key, old(decisions.results), reply)]
    ensures decisions.results == Called(old(decisions.results), key, SelectCall(old(StatesOf(rows))[k], reply))
  {
    assert StatesOf(rows)[k] == rows[k].State();
    SelectOne(rows[k], key, decisions, reply);
    assert forall i :: 0 <= i < |rows| && i != k ==> rows[i] != rows[k];
  }

  /** The rows when the pass has reached row k, and one step further. */
  lemma SelectStep(before: seq<RowState>, keys: seq<string>, store: Store, replies: seq<SelectReply>, k: nat)
    requires k < |before| == |keys| == |replies| && Distinct(keys)
    ensures var calls, goal := SelectCalls(before, replies), SelectPass(before, keys, store, replies);
            var now := StoreAfterCalls(store, keys, calls, k);
            && HalfDone(goal, before, k)[k] == before[k]
            && HalfDone(goal, before, k)[k := SelectRow(before[k], keys[k], now, replies[k])] == HalfDone(goal, before, k + 1)
            && Called(now, keys[k], SelectCall(before[k], replies[k])) == StoreAfterCalls(store, keys, calls, k + 1)
  {
    SelectReaches(before, keys, store, replies, k);
    HalfDoneIs(SelectPass(before, keys, store, replies), before, k);
  }

  method SelectEach(rows: seq<BulkRow>, keys: seq<string>, decisions: KeyedService, replies: seq<SelectReply>)
    requires Distinct(rows) && Distinct(keys) && |replies| == |rows| == |keys|
    modifies rows, decisions
    ensures StatesOf(rows) == SelectPass(old(StatesOf(rows)), keys, old(decisions.results), replies)
    ensures decisions.results == StoreAfterCalls(old(decisions.results), keys, SelectCalls(old(StatesOf(rows)), replies), |rows|)
  {
    ghost var before, store := StatesOf(rows), decisions.results;
    ghost var calls, goal := SelectCalls(before, replies), SelectPass(before, keys, store, replies);
    for k := 0 to |rows|
      invariant StatesOf(rows) == HalfDone(goal, before, k)
      invariant decisions.results == StoreAfterCalls(store, keys, calls, k)
    {
      SelectStep(before, keys, store, replies, k);
      SelectAt(rows, k, keys[k], decisions, replies[k]);
    }
    HalfDoneIs(goal, before, |rows|);
  }

  /** When the pass reaches row k, acting on the store of that moment is acting on the store the pass began with. */
  lemma CreateReaches(rows: seq<RowState>, keys: seq<string>, store: Store, replies: seq<ServiceReply>, k: nat)
    requires k < |rows| == |keys| == |replies| && Distinct(keys)
    ensures var calls := CreateCalls(rows, replies);
            var now := StoreAfterCalls(store, keys, calls, k);
            && CreateRow(rows[k], keys[k], now, replies[k]) == CreatePass(rows, keys, store, replies)[k]
            && Called(now, keys[k], CreateCall(rows[k], replies[k])) == StoreAfterCalls(store, keys, calls, k + 1)
  {
    var calls := CreateCalls(rows, replies);
    KeyStillUntouched(store, keys, calls, k, k);
    CreateSeesItsKeyOnly(rows[k], keys[k], StoreAfterCalls(store, keys, calls, k), store, replies[k]);
  }

  method CreateAt(rows: seq<BulkRow>, k: nat, key: string, shipments: KeyedService, reply: ServiceReply)
    requires k < |rows| && Distinct(rows)
    modifies rows[k], shipments
    ensures |StatesOf(rows)| == |rows|
    ensures StatesOf(rows) == old(StatesOf(rows))[k := CreateRow(old(StatesOf(rows))[k], key, old(shipments.results), reply)]
    ensures shipments.results == Called(old(shipments.results), key, CreateCall(old(StatesOf(rows))[k], reply))
  {
    assert StatesOf(rows)[k] == rows[k].State();
    CreateOne(rows[k], key, shipments, reply);
    assert forall i :: 0 <= i < |rows| && i != k ==> rows[i] != rows[k];
  }

  /** The rows when the pass has reached row k, and one step further. */
  lemma CreateStep(before: seq<RowState>, keys: seq<string>, store: Store, replies: seq<ServiceReply>, k: nat)
    requires k < |before| == |keys| == |replies| && Distinct(keys)
    ensures var calls, goal := CreateCalls(before, replies), CreatePass(before, keys, store, replies);
            var now := StoreAfterCalls(store, keys, calls, k);
            && HalfDone(goal, before, k)[k] == before[k]
            && HalfDone(goal, before, k)[k := CreateRow(before[k], keys[k], now, replies[k])] == HalfDone(goal, before, k + 1)
            && Called(now, keys[k], CreateCall(before[k], replies[k])) == StoreAfterCalls(store, keys, calls, k + 1)
  {
    CreateReaches(before, keys, store, replies, k);
    HalfDoneIs(CreatePass(before, keys, store, replies), before, k);
  }

  method CreateEach(rows: seq<BulkRow>, keys: seq<string>, shipments: KeyedService, replies: seq<ServiceReply>)
    requires Distinct(rows) && Distinct(keys) && |replies| == |rows| == |keys|
    modifies rows, shipments
    ensures StatesOf(rows) == CreatePass(old(StatesOf(rows)), keys, old(shipments.results), replies)
    ensures shipments.results == StoreAfterCalls(old(shipments.results), keys, CreateCalls(old(StatesOf(rows)), replies), |rows|)
  {
    ghost var before, store := StatesOf(rows), shipments.results;
    ghost var calls, goal := CreateCalls(before, replies), CreatePass(before, keys, store, replies);
    for k := 0 to |rows|
      invariant StatesOf(rows) == HalfDone(goal, before, k)
      invariant shipments.results == StoreAfterCalls(store, keys, calls, k)
    {
      CreateStep(before, keys, store, replies, k);
      CreateAt(rows, k, keys[k], shipments, replies[k]);
    }
    HalfDoneIs(goal, before, |rows|);
  }

  class BulkRun {
    const id: string
    const rows: seq<BulkRow>
    var status: RunStatus

    constructor (id: string, rows: seq<BulkRow>)
      ensures this.id == id && this.rows == rows && status == Draft
    {
      this.id, this.rows, status := id, rows, Draft;
    }

    /** The rows are different objects with different identifiers. */
    ghost predicate Valid() {
      forall i, j :: 0 <= i < j < |rows| ==> rows[i] != rows[j] && rows[i].id != rows[j].id
    }

    lemma KeysAreDistinct()
      requires Valid()
      ensures Distinct(KeysOf(id, rows))
    {
      forall i, j | 0 <= i < j < |rows| ensures RowKey(id, rows[i].id) != RowKey(id, rows[j].id) {
        var prefix := "bulk:" + id + ":";
        assert RowKey(id, rows[i].id) == prefix + rows[i].id && RowKey(id, rows[j].id) == prefix + rows[j].id;
        assert (prefix + rows[i].id)[|prefix|..] == rows[i].id;
        assert (prefix + rows[j].id)[|prefix|..] == rows[j].id;
      }
    }

    /** Count the rows and derive the state of the run from them. */
    method UpdateStatus(whenBusy: RunStatus)
      modifies this
      ensures status == RunStatusOf(StatesOf(rows), whenBusy)
    {
      var unfinished, failed := 0, 0;
      ghost var states := StatesOf(rows);
      var i := |rows|;
      while i > 0
        invariant 0 <= i <= |rows|
        invariant unfinished == UnfinishedCount(states[i..]) && failed == CountOf(states[i..], Failed)
      {
        i := i - 1;
        assert states[i..] == [states[i]] + states[i + 1..];
        if Unfinished(rows[i].status) {
          unfinished := unfinished + 1;
        }
        if rows[i].status == Failed {
          failed := failed + 1;
        }
      }
      assert states[0..] == states;
      if unfinished > 0 {
        status := whenBusy;
      } else if |rows| > 0 && failed == |rows| {
        status := FailedRun;
      } else {
        status := Completed;
      }
    }

    /** Quote every new row. What becomes of a row depends on that row and its own reply only. */
    method QuoteAll(replies: seq<QuoteReply>)
      requires Valid() && |replies| == |rows|
      modifies this, rows
      ensures StatesOf(rows) == QuotePass(old(StatesOf(rows)), replies)
      ensures status == RunStatusOf(StatesOf(rows), QuotedRun)
    {
      status := Quoting;
      for k := 0 to |rows|
        invariant forall i :: 0 <= i < k ==> rows[i].State() == QuoteRow(old(rows[i].State()), replies[i])
        invariant forall i :: k <= i < |rows| ==> rows[i].State() == old(rows[i].State())
      {
        var row := rows[k];
        if row.status != New {
          continue;
        }
        match replies[k] {
          case QuoteRaised(exc) => row.Fail(exc);
          case QuoteDone(quote) =>
            row.rateQuoteId := Some(quote);
            row.status := RowStatus.Quoted;
        }
      }
      UpdateStatus(QuotedRun);
    }

    /** Recommend and decide for every quoted row. */
    method SelectAll(decisions: KeyedService, replies: seq<SelectReply>)
      requires Valid() && |replies| == |rows|
      modifies this, rows, decisions
      ensures StatesOf(rows) == SelectPass(old(StatesOf(rows)), KeysOf(id, rows), old(decisions.results), replies)
      ensures decisions.results
           == StoreAfterCalls(old(decisions.results), KeysOf(id, rows), SelectCalls(old(StatesOf(rows)), replies), |rows|)
      ensures status == RunStatusOf(StatesOf(rows), QuotedRun)
    {
      KeysAreDistinct();
      SelectEach(rows, KeysOf(id, rows), decisions, replies);
      UpdateStatus(QuotedRun);
    }

    /** Create the shipments of all selected rows. */
    method CreateAll(shipments: KeyedService, replies: seq<ServiceReply>)
      requires Valid() && |replies| == |rows|
      modifies this, rows, shipments
      ensures StatesOf(rows) == CreatePass(old(StatesOf(rows)), KeysOf(id, rows), old(shipments.results), replies)
      ensures shipments.results
           == StoreAfterCalls(old(shipments.results), KeysOf(id, rows), CreateCalls(old(StatesOf(rows)), replies), |rows|)
      ensures status == RunStatusOf(StatesOf(rows), Creating)
    {
      status := Creating;
      KeysAreDistinct();
      CreateEach(rows, KeysOf(id, rows), shipments, replies);
      UpdateStatus(Creating);
    }

    /** The shipments of the run in the order of its rows, as labels are printed. */
    method ShipmentIds() returns (ids: seq<Id>)
      ensures ids == ShipmentsOf(StatesOf(rows))
    {
      ids := [];
      ghost var states := StatesOf(rows);
      for k := 0 to |rows|
        invariant ids == ShipmentsOf(states[..k])
      {
        assert states[..k + 1][..k] == states[..k];
        if rows[k].shipmentId.Some? {
          ids := ids + [rows[k].shipmentId.value];
        }
      }
      assert states[..|rows|] == states;
    }
  }

  function ShipmentsOf(rows: seq<RowState>): seq<Id> {
    if rows == [] then []
    else
      var last := |rows| - 1;
      ShipmentsOf(rows[..last]) + if rows[last].shipment.Some? then [rows[last].shipment.value] else []
  }
}
