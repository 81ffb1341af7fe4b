/**
 Concurrent polling of the carriers under one deadline. The scheduler is any list of events: tasks finish
 in any order, with any answer, before or after the deadline.
 */
module CarrierPoll {
  import opened Options

  type Id = nat
  type Quote = nat

  datatype Account = Account(id: Id, carrierId: Id)

  /** An account made ready for its adapter: code and id of the carrier it belongs to. */
  datatype Item = Item(account: Account, carrierCode: string, carrierId: Id, adapterKnown: bool)

  datatype Outcome = Outcome(
    carrierCode: string, carrierId: Id, accountId: Id,
    quotes: seq<Quote>, errorCode: Option<string>)

  /** How the call of one adapter ended. */
  datatype Reply = Answered(quotes: seq<Quote>) | SlowCarrier | CarrierRaised(code: string) | AdapterCrashed

  function Failure(item: Item, code: string): Outcome {
    Outcome(item.carrierCode, item.carrierId, item.account.id, [], Some(code))
  }

  /** One carrier. No exception leaves the task. */
  function AskOne(item: Item, reply: Reply): Outcome {
    if !item.adapterKnown then Failure(item, "carrier_not_available")
    else
      match reply
      case Answered(quotes) => Outcome(item.carrierCode, item.carrierId, item.account.id, quotes, None)
      case SlowCarrier => Failure(item, "carrier_timeout")
      case CarrierRaised(code) => Failure(item, code)
      case AdapterCrashed => Failure(item, "carrier_error")
  }

  datatype Event = Finish(task: nat, reply: Reply) | Deadline

  datatype Task = Running | Done(outcome: Outcome)

  datatype Carrier = Carrier(id: Id, code: string)

  /** The active carriers, the accounts whose credentials can be read, and the codes that have an adapter. */
  datatype Outside = Outside(carriers: seq<Carrier>, isReadable: Account -> bool, hasAdapter: string -> bool)

  function FindCarrier(carriers: seq<Carrier>, id: Id): Option<Carrier> {
    if carriers == [] then None
    else if carriers[0].id == id then Some(carriers[0])
    else FindCarrier(carriers[1..], id)
  }

  /** An account is left out when its carrier is not active or its credentials cannot be read. */
  function Prepare(o: Outside, a: Account): Option<Item> {
    var carrier := FindCarrier(o.carriers, a.carrierId);
    if carrier.None? || !o.isReadable(a) then None
    else Some(Item(a, carrier.value.code, carrier.value.id, o.hasAdapter(carrier.value.code)))
  }

  /** The accounts that could be prepared, in the order of the accounts. */
  function Prepared(o: Outside, accounts: seq<Account>): seq<Item> {
    if accounts == [] then []
    else
      Prepared(o, accounts[..|accounts| - 1])
      + match Prepare(o, accounts[|accounts| - 1]) case Some(item) => [item] case None => []
  }

  /** Task i finishes with this reply: it does so before the deadline, and for the first time. */
  ghost predicate FinishesWith(events: seq<Event>, i: nat, reply: Reply) {
    exists k :: 0 <= k < |events| && FinishesAt(events, k, i, reply)
  }

  ghost predicate FinishesAt(events: seq<Event>, k: nat, i: nat, reply: Reply)
    requires k < |events|
  {
    && events[k] == Finish(i, reply)
    && forall m :: 0 <= m < k ==> events[m] != Deadline && !(events[m].Finish? && events[m].task == i)
  }

  /** What the i-th row of the poll must be for a given schedule. */
  ghost predicate IsRowFor(row: Outcome, item: Item, events: seq<Event>, i: nat) {
    || (exists reply :: FinishesWith(events, i, reply) && row == AskOne(item, reply))
    || ((forall reply :: !FinishesWith(events, i, reply)) && row == Failure(item, "carrier_timeout"))
  }

  ghost predicate TaskIs(task: Task, item: Item, events: seq<Event>, i: nat) {
    match task
    case Done(outcome) => exists reply :: FinishesWith(events, i, reply) && outcome == AskOne(item, reply)
    case Running => forall reply :: !FinishesWith(events, i, reply)
  }

  lemma FinishesInLonger(events: seq<Event>, e: Event, i: nat, reply: Reply)
    ensures FinishesWith(events, i, reply) ==> FinishesWith(events + [e], i, reply)
    ensures Deadline in events ==> (FinishesWith(events + [e], i, reply) <==> FinishesWith(events, i, reply))
    ensures !(e.Finish? && e.task == i) ==> (FinishesWith(events + [e], i, reply) <==> FinishesWith(events, i, reply))
  {
    var more := events + [e];
    if FinishesWith(events, i, reply) {
      var k :| 0 <= k < |events| && FinishesAt(events, k, i, reply);
      assert FinishesAt(more, k, i, reply);
    }
    if Deadline in events {
      var d :| 0 <= d < |events| && events[d] == Deadline;
      assert more[d] == Deadline;
    }
    if FinishesWith(more, i, reply) {
      var k :| 0 <= k < |more| && FinishesAt(more, k, i, reply);
      if k < |events| {
        forall m | 0 <= m < k ensures events[m] != Deadline && !(events[m].Finish? && events[m].task == i) {
          assert more[m] == events[m];
        }
        assert FinishesAt(events, k, i, reply);
      }
    }
  }

  lemma FirstReplyCounts(events: seq<Event>, i: nat, a: Reply, b: Reply)
    requires FinishesWith(events, i, a) && FinishesWith(events, i, b)
    ensures a == b
  {
    var k :| 0 <= k < |events| && FinishesAt(events, k, i, a);
    var m :| 0 <= m < |events| && FinishesAt(events, m, i, b);
    assert k == m;
  }

  lemma FinishNow(events: seq<Event>, i: nat, reply: Reply)
    requires Deadline !in events && forall r :: !FinishesWith(events, i, r)
    ensures FinishesWith(events + [Finish(i, reply)], i, reply)
  {
    var more := events + [Finish(i, reply)];
    forall m | 0 <= m < |events| ensures events[m] != Deadline && !(events[m].Finish? && events[m].task == i) {
      if events[m].Finish? && events[m].task == i {
        FirstFinish(events, m, i);
      }
    }
    assert FinishesAt(more, |events|, i, reply);
  }

  lemma {:induction false} FirstFinish(events: seq<Event>, m: nat, i: nat)
    requires m < |events| && events[m].Finish? && events[m].task == i && Deadline !in events
    ensures exists r :: FinishesWith(events, i, r)
    decreases m
  {
    if j :| 0 <= j < m && events[j].Finish? && events[j].task == i {
      FirstFinish(events, j, i);
    } else {
      assert FinishesAt(events, m, i, events[m].reply);
      assert FinishesWith(events, i, events[m].reply);
    }
  }

  /** Start all tasks, wait for them or for the deadline, then read them in the order they were started. */
  method Poll(o: Outside, accounts: seq<Account>, events: seq<Event>) returns (outcomes: seq<Outcome>)
    ensures |outcomes| == |Prepared(o, accounts)|
    ensures forall i :: 0 <= i < |outcomes| ==> IsRowFor(outcomes[i], Prepared(o, accounts)[i], events, i)
  {
    var prepared: seq<Item> := [];
    for k := 0 to |accounts|
      invariant prepared == Prepared(o, accounts[..k])
    {
      assert accounts[..k + 1][..k] == accounts[..k];
      match Prepare(o, accounts[k]) {
        case Some(item) => prepared := prepared + [item];
        case None =>
      }
    }
    assert accounts[..|accounts|] == accounts;

    var tasks := Wait(prepared, events);
    outcomes := [];
    for i := 0 to |prepared|
      invariant |outcomes| == i
      invariant forall j :: 0 <= j < i ==> IsRowFor(outcomes[j], prepared[j], events, j)
    {
      assert TaskIs(tasks[i], prepared[i], events, i);
      match tasks[i] {
        case Running => outcomes := outcomes + [Failure(prepared[i], "carrier_timeout")];
        case Done(outcome) => outcomes := outcomes + [outcome];
      }
    }
  }

  /** The tasks after the wait: everything that happens after the deadline is not seen. */
  method Wait(prepared: seq<Item>, events: seq<Event>) returns (tasks: seq<Task>)
    ensures |tasks| == |prepared|
    ensures forall i :: 0 <= i < |tasks| ==> TaskIs(tasks[i], prepared[i], events, i)
  {
    tasks := seq(|prepared|, i => Running);
    var expired := false;
    for k := 0 to |events|
      invariant |tasks| == |prepared|
      invariant expired <==> Deadline in events[..k]
      invariant forall i :: 0 <= i < |tasks| ==> TaskIs(tasks[i], prepared[i], events[..k], i)
    {
      var e := events[k];
      assert events[..k + 1] == events[..k] + [e];
      ghost var before := tasks;
      if e == Deadline {
        expired := true;
      } else if !expired && e.task < |tasks| && tasks[e.task] == Running {
        FinishNow(events[..k], e.task, e.reply);
        tasks := tasks[e.task := Done(AskOne(prepared[e.task], e.reply))];
      }
      forall i | 0 <= i < |tasks| ensures TaskIs(tasks[i], prepared[i], events[..k + 1], i) {
        TaskStep(before[i], tasks[i], prepared[i], events[..k], e, i);
      }
    }
    assert events[..|events|] == events;
  }

  lemma TaskStep(before: Task, after: Task, item: Item, events: seq<Event>, e: Event, i: nat)
    requires TaskIs(before, item, events, i)
    requires (e != Deadline && Deadline !in events && e.task == i && before == Running && after == Done(AskOne(item, e.reply)))
          || (after == before && (e == Deadline || Deadline in events || e.task != i || before.Done?))
    ensures TaskIs(after, item, events + [e], i)
  {
    forall reply ensures FinishesWith(events, i, reply) ==> FinishesWith(events + [e], i, reply) {
      FinishesInLonger(events, e, i, reply);
    }
    if after == before {
      if before == Running {
        forall reply ensures !FinishesWith(events + [e], i, reply) {
          FinishesInLonger(events, e, i, reply);
        }
      }
    } else {
      FinishNow(events, i, e.reply);
    }
  }

  // ----- what a caller can rely on -----

  lemma {:induction false} FoundCarrier(carriers: seq<Carrier>, id: Id)
    ensures FindCarrier(carriers, id).Some? ==> FindCarrier(carriers, id).value.id == id && FindCarrier(carriers, id).value in carriers
    ensures FindCarrier(carriers, id).None? <==> forall c :: c in carriers ==> c.id != id
  {
    if carriers != [] {
      FoundCarrier(carriers[1..], id);
      assert forall c :: c in carriers <==> c == carriers[0] || c in carriers[1..];
    }
  }

  /** The prepared list as positions of the accounts: item i was made from account at[i]. */
  lemma {:induction false} WherePrepared(o: Outside, accounts: seq<Account>) returns (at: seq<nat>)
    ensures |at| == |Prepared(o, accounts)| && forall i, j :: 0 <= i < j < |at| ==> at[i] < at[j]
    ensures forall i :: 0 <= i < |at| ==> at[i] < |accounts| && Prepare(o, accounts[at[i]]) == Some(Prepared(o, accounts)[i])
    ensures forall k :: 0 <= k < |accounts| && Prepare(o, accounts[k]).Some? ==> k in at
  {
    at := [];
    if accounts != [] {
      at := WherePrepared(o, accounts[..|accounts| - 1]);
      if Prepare(o, accounts[|accounts| - 1]).Some? {
        at := at + [|accounts| - 1];
      }
    }
  }

  /** The row speaks of this account, of its carrier, and by that carrier's code. */
  predicate Names(row: Outcome, a: Account, carriers: seq<Carrier>) {
    && row.accountId == a.id && row.carrierId == a.carrierId
    && Carrier(a.carrierId, row.carrierCode) in carriers
    && (row.errorCode.Some? ==> row.quotes == [])
  }

  /**
   For every schedule the rows belong to the accounts that could be prepared, one each and in their order,
   and every row, a timeout row too, names its own account and its own carrier.
   */
  lemma RowNamesItsOwnCarrier(o: Outside, accounts: seq<Account>, outcomes: seq<Outcome>, events: seq<Event>)
    returns (at: seq<nat>)
    requires |outcomes| == |Prepared(o, accounts)|
    requires forall i :: 0 <= i < |outcomes| ==> IsRowFor(outcomes[i], Prepared(o, accounts)[i], events, i)
    ensures |at| == |outcomes| && forall i, j :: 0 <= i < j < |at| ==> at[i] < at[j]
    ensures forall k :: 0 <= k < |accounts| ==> (k in at <==> Prepare(o, accounts[k]).Some?)
    ensures forall i :: 0 <= i < |outcomes| ==> at[i] < |accounts| && Names(outcomes[i], accounts[at[i]], o.carriers)
  {
    at := WherePrepared(o, accounts);
    forall i | 0 <= i < |outcomes|
      ensures Names(outcomes[i], accounts[at[i]], o.carriers)
    {
      FoundCarrier(o.carriers, accounts[at[i]].carrierId);
      assert IsRowFor(outcomes[i], Prepared(o, accounts)[i], events, i);
      assert Prepare(o, accounts[at[i]]) == Some(Prepared(o, accounts)[i]);
    }
  }

  /** The row is determined by which task finished with what: the order of completion leaves no trace. */
  lemma ScheduleDoesNotMatter(a: seq<Outcome>, b: seq<Outcome>, prepared: seq<Item>, e: seq<Event>, f: seq<Event>)
    requires |a| == |prepared| == |b|
    requires forall i :: 0 <= i < |a| ==> IsRowFor(a[i], prepared[i], e, i)
    requires forall i :: 0 <= i < |b| ==> IsRowFor(b[i], prepared[i], f, i)
    requires forall i: nat, reply :: i < |prepared| ==> (FinishesWith(e, i, reply) <==> FinishesWith(f, i, reply))
    ensures a == b
  {
    forall i | 0 <= i < |a| ensures a[i] == b[i] {
      assert IsRowFor(a[i], prepared[i], e, i) && IsRowFor(b[i], prepared[i], f, i);
      if reply :| FinishesWith(e, i, reply) {
        assert FinishesWith(f, i, reply);
        forall r | FinishesWith(e, i, r) ensures r == reply { FirstReplyCounts(e, i, r, reply); }
        forall r | FinishesWith(f, i, r) ensures r == reply { FirstReplyCounts(f, i, r, reply); }
      } else {
        assert forall r :: !FinishesWith(f, i, r);
      }
    }
  }

  /** Two neighbouring completions of different tasks can be exchanged. */
  lemma NeighboursCanBeExchanged(front: seq<Event>, x: Event, y: Event, back: seq<Event>, i: nat, reply: Reply)
    requires x.Finish? && y.Finish? && x.task != y.task
    ensures FinishesWith(front + [x, y] + back, i, reply) <==> FinishesWith(front + [y, x] + back, i, reply)
  {
    Exchange(front, x, y, back, i, reply);
    Exchange(front, y, x, back, i, reply);
  }

  lemma Exchange(front: seq<Event>, x: Event, y: Event, back: seq<Event>, i: nat, reply: Reply)
    requires x.Finish? && y.Finish? && x.task != y.task
    ensures FinishesWith(front + [x, y] + back, i, reply) ==> FinishesWith(front + [y, x] + back, i, reply)
  {
    var e, f, n := front + [x, y] + back, front + [y, x] + back, |front|;
    if FinishesWith(e, i, reply) {
      var k :| 0 <= k < |e| && FinishesAt(e, k, i, reply);
      var m := if k == n then n + 1 else if k == n + 1 then n else k;
      forall j | 0 <= j < m ensures f[j] != Deadline && !(f[j].Finish? && f[j].task == i) {
        if j != n && j != n + 1 {
          assert f[j] == e[j];
        } else if k > n + 1 {
          assert e[n] == x && e[n + 1] == y;
        }
      }
      assert FinishesAt(f, m, i, reply);
    }
  }
}
