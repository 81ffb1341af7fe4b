/** What each pass writes into a row, into its service and into the run, by the replies alone. */
module BulkLaws {
  import opened Collections
  import opened Options
  import opened BulkRows
  import opened BulkRuns

  /** The reason a failed row shows: the text of the exception, or the name of its class when it has none. */
  predicate Shows(error: Option<string>, exc: Exc) {
    error == if exc.message == "" then Some([exc.classInitial] + exc.classRest) else Some(exc.message)
  }

  predicate SameLinks(a: RowState, b: RowState) {
    a.id == b.id && a.quote == b.quote && a.recommendation == b.recommendation && a.decision == b.decision && a.shipment == b.shipment
  }

  predicate FailsWith(before: RowState, after: RowState, exc: Exc) {
    SameLinks(before, after) && after.status == RowStatus.Failed && Shows(after.error, exc)
  }

  /** Quoting takes new rows only: such a row gets its own quote and nothing else, or fails with its reason. */
  lemma WhatQuotingDoes(w: World, quotes: seq<QuoteReply>, i: nat)
    requires i < |w.rows| == |quotes|
    ensures |Step(w, QuotePassed(quotes)).rows| == |w.rows|
    ensures var w' := Step(w, QuotePassed(quotes));
            var r, r' := w.rows[i], w'.rows[i];
            && w'.decisions == w.decisions && w'.shipments == w.shipments && w'.runId == w.runId
            && (r.status != New ==> r' == r)
            && (r.status == New && quotes[i].QuoteDone? ==>
                 && r'.status == RowStatus.Quoted && r'.quote == Some(quotes[i].quote)
                 && r'.id == r.id && r'.recommendation == r.recommendation && r'.decision == r.decision
                 && r'.shipment == r.shipment && r'.error == r.error)
            && (r.status == New && quotes[i].QuoteRaised? ==> FailsWith(r, r', quotes[i].exc))
  {
  }

  /** What a row's reply comes to in the selection: an offer to decide for, or an exception before that. */
  predicate Offers(reply: SelectReply, recommendation: Id) {
    reply.recommend.Recommended? && reply.recommend.offer.Some? && reply.recommend.recommendation == recommendation
  }

  /**
   Selection takes quoted rows that have a quote. A row with an offer keeps the recommendation it was made from and
   the decision its key has, the stored one if there is one; a recommendation without an offer has its own reason.
   */
  lemma WhatSelectionDoes(w: World, replies: seq<SelectReply>, i: nat, recommendation: Id)
    requires i < |w.rows| == |replies| && Possible(w, SelectPassed(replies))
    ensures |Step(w, SelectPassed(replies)).rows| == |w.rows|
    ensures var w' := Step(w, SelectPassed(replies));
            var r, r', key := w.rows[i], w'.rows[i], RowKey(w.runId, w.rows[i].id);
            && w'.shipments == w.shipments && w'.runId == w.runId
            && (r.status != RowStatus.Quoted || r.quote == None ==> r' == r)
            && (r.status == RowStatus.Quoted && r.quote != None ==>
                 && (replies[i].recommend.RecommendRaised? ==> FailsWith(r, r', replies[i].recommend.exc))
                 && (replies[i].recommend.Recommended? && replies[i].recommend.offer == None ==>
                      FailsWith(r, r', Exc("no offer fits the row", 'N', "othingToSelectError")))
                 && (Offers(replies[i], recommendation) && !replies[i].decide.Answers? ==> FailsWith(r, r', replies[i].decide.exc))
                 && (Offers(replies[i], recommendation) && replies[i].decide.Answers? ==>
                      && r'.status == Selected && r'.recommendation == Some(recommendation)
                      && r'.decision == Some(if key in w.decisions then w.decisions[key] else replies[i].decide.newId)
                      && r'.id == r.id && r'.quote == r.quote && r'.shipment == r.shipment && r'.error == r.error))
  {
  }

  /** Creation takes selected rows that have a decision; such a row gets the shipment of its key, or fails with its reason. */
  lemma WhatCreationDoes(w: World, replies: seq<ServiceReply>, i: nat)
    requires i < |w.rows| == |replies| && Possible(w, CreatePassed(replies))
    ensures |Step(w, CreatePassed(replies)).rows| == |w.rows|
    ensures var w' := Step(w, CreatePassed(replies));
            var r, r', key := w.rows[i], w'.rows[i], RowKey(w.runId, w.rows[i].id);
            && w'.decisions == w.decisions && w'.runId == w.runId
            && (r.status != Selected || r.decision == None ==> r' == r)
            && (r.status == Selected && r.decision != None && !replies[i].Answers? ==> FailsWith(r, r', replies[i].exc))
            && (r.status == Selected && r.decision != None && replies[i].Answers? ==>
                 && r'.status == RowStatus.Created
                 && r'.shipment == Some(if key in w.shipments then w.shipments[key] else replies[i].newId)
                 && r'.id == r.id && r'.quote == r.quote && r'.recommendation == r.recommendation
                 && r'.decision == r.decision && r'.error == r.error)
  {
  }

  // ----- what the services hold afterwards -----

  /** A key that had a result keeps it, one that had none has the new one. */
  predicate HasResult(before: Option<Id>, after: Option<Id>, newId: Id) {
    after == if before == None then Some(newId) else before
  }

  lemma {:induction false} NoCallNoChange(store: Store, keys: seq<string>, calls: seq<Option<ServiceReply>>, n: nat, key: string)
    requires n <= |keys| == |calls|
    requires forall k :: 0 <= k < n && keys[k] == key ==> !Stores(calls[k])
    ensures Held(StoreAfterCalls(store, keys, calls, n), key) == Held(store, key)
  {
    if n > 0 {
      NoCallNoChange(store, keys, calls, n - 1, key);
    }
  }

  lemma KeyAfterPass(store: Store, keys: seq<string>, calls: seq<Option<ServiceReply>>, n: nat, i: nat)
    requires i < |keys| == |calls| && n <= |keys| && Distinct(keys)
    ensures Held(StoreAfterCalls(store, keys, calls, n), keys[i])
            == if i < n && Stores(calls[i]) && keys[i] !in store then Some(calls[i].value.newId) else Held(store, keys[i])
  {
    if i < n && Stores(calls[i]) {
      CallIsStored(store, keys, calls, n, i);
    } else {
      NoCallNoChange(store, keys, calls, n, keys[i]);
    }
  }

  /**
   The decision service is asked for a row exactly when the row is quoted and was recommended an offer, and, unless it
   raised before, it has a decision under the row's key from then on: the one it had, or a new one.
   */
  lemma DecisionsAfterSelection(w: World, replies: seq<SelectReply>, upTo: nat, i: nat)
    requires Inv(w) && i < |w.rows| == |replies| && upTo <= |w.rows| && Possible(w, SelectLost(replies, upTo))
    ensures var key := RowKey(w.runId, w.rows[i].id);
            var asked := w.rows[i].status == RowStatus.Quoted && w.rows[i].quote != None
                         && replies[i].recommend.Recommended? && replies[i].recommend.offer != None;
            var stores := asked && !replies[i].decide.RaisesBefore?;
            && (stores ==> HasResult(Held(w.decisions, key), Held(Step(w, SelectPassed(replies)).decisions, key), replies[i].decide.newId))
            && (!stores ==> Held(Step(w, SelectPassed(replies)).decisions, key) == Held(w.decisions, key))
            && Held(Step(w, SelectLost(replies, upTo)).decisions, key)
               == if i < upTo then Held(Step(w, SelectPassed(replies)).decisions, key) else Held(w.decisions, key)
  {
    KeysDistinct(w);
    KeyAfterPass(w.decisions, KeysIn(w), SelectCalls(w.rows, replies), |w.rows|, i);
    KeyAfterPass(w.decisions, KeysIn(w), SelectCalls(w.rows, replies), upTo, i);
  }

  /** The same for the shipments. */
  lemma ShipmentsAfterCreation(w: World, replies: seq<ServiceReply>, upTo: nat, i: nat)
    requires Inv(w) && i < |w.rows| == |replies| && upTo <= |w.rows| && Possible(w, CreateLost(replies, upTo))
    ensures var key := RowKey(w.runId, w.rows[i].id);
            var stores := w.rows[i].status == Selected && w.rows[i].decision != None && !replies[i].RaisesBefore?;
            && (stores ==> HasResult(Held(w.shipments, key), Held(Step(w, CreatePassed(replies)).shipments, key), replies[i].newId))
            && (!stores ==> Held(Step(w, CreatePassed(replies)).shipments, key) == Held(w.shipments, key))
            && Held(Step(w, CreateLost(replies, upTo)).shipments, key)
               == if i < upTo then Held(Step(w, CreatePassed(replies)).shipments, key) else Held(w.shipments, key)
  {
    KeysDistinct(w);
    KeyAfterPass(w.shipments, KeysIn(w), CreateCalls(w.rows, replies), |w.rows|, i);
    KeyAfterPass(w.shipments, KeysIn(w), CreateCalls(w.rows, replies), upTo, i);
  }

  /** Nothing is stored under a key that is not of this run. */
  lemma OtherRunsAreLeftAlone(w: World, e: Event, key: string)
    requires Possible(w, e) && (e.QuotePassed? || e.SelectPassed? || e.CreatePassed?)
    requires forall i :: 0 <= i < |w.rows| ==> key != RowKey(w.runId, w.rows[i].id)
    ensures Held(Step(w, e).decisions, key) == Held(w.decisions, key)
    ensures Held(Step(w, e).shipments, key) == Held(w.shipments, key)
  {
    match e
    case SelectPassed(replies) => NoCallNoChange(w.decisions, KeysIn(w), SelectCalls(w.rows, replies), |w.rows|, key);
    case CreatePassed(replies) => NoCallNoChange(w.shipments, KeysIn(w), CreateCalls(w.rows, replies), |w.rows|, key);
    case _ =>
  }

  // ----- the run and its button -----

  ghost predicate SomeRowIs(rows: seq<RowState>, status: RowStatus) {
    exists r :: r in rows && r.status == status
  }

  ghost predicate InWork(rows: seq<RowState>) {
    SomeRowIs(rows, New) || SomeRowIs(rows, RowStatus.Quoted) || SomeRowIs(rows, Selected)
  }

  lemma InWorkIff(rows: seq<RowState>)
    ensures UnfinishedCount(rows) > 0 <==> InWork(rows)
  {
    CountsAre(rows, New);
    if UnfinishedCount(rows) > 0 {
      var r :| r in rows && Unfinished(r.status);
      assert SomeRowIs(rows, r.status);
    }
  }

  /** A run with rows in work is quoted after quoting and selection and creating after creation; without, it failed or is done. */
  lemma WhatTheRunSays(w: World, e: Event)
    requires Possible(w, e) && (e.QuotePassed? || e.SelectPassed? || e.CreatePassed?)
    ensures var w' := Step(w, e);
            && (InWork(w'.rows) ==> w'.status == if e.CreatePassed? then Creating else QuotedRun)
            && (!InWork(w'.rows) ==>
                 w'.status == if SomeRowIs(w'.rows, RowStatus.Created) || w'.rows == [] then Completed else FailedRun)
  {
    var rows := Step(w, e).rows;
    InWorkIff(rows);
    CountsAre(rows, RowStatus.Failed);
    if !InWork(rows) && rows != [] {
      assert rows[0] in rows && !Unfinished(rows[0].status);
    }
  }

  /** The button quotes while there is a new row, then selects, then creates. */
  lemma WhatTheButtonIs(rows: seq<RowState>)
    ensures NextStep(rows) == Some(QuoteButton) <==> SomeRowIs(rows, New)
    ensures NextStep(rows) == Some(SelectButton) <==> !SomeRowIs(rows, New) && SomeRowIs(rows, RowStatus.Quoted)
    ensures NextStep(rows) == Some(CreateButton)
       <==> !SomeRowIs(rows, New) && !SomeRowIs(rows, RowStatus.Quoted) && SomeRowIs(rows, Selected)
  {
    CountsAre(rows, New);
    CountsAre(rows, RowStatus.Quoted);
    CountsAre(rows, Selected);
  }

  /** Each row with a shipment has its place in the list of labels, after all rows before it. */
  lemma {:induction false} ShipmentsInRowOrder(rows: seq<RowState>, i: nat)
    requires i < |rows| && rows[i].shipment.Some?
    ensures var before := |ShipmentsOf(rows[..i])|;
            before < |ShipmentsOf(rows)| && ShipmentsOf(rows)[before] == rows[i].shipment.value
  {
    var last := |rows| - 1;
    if i < last {
      ShipmentsInRowOrder(rows[..last], i);
      assert rows[..last][..i] == rows[..i];
    }
  }

  ghost function WithShipment(rows: seq<RowState>): set<nat> {
    set i: nat | i < |rows| && rows[i].shipment.Some?
  }

  /** And nothing else is in the list. */
  lemma {:induction false} AsManyLabelsAsShipments(rows: seq<RowState>)
    ensures |ShipmentsOf(rows)| == |WithShipment(rows)|
  {
    if rows != [] {
      var last := |rows| - 1;
      AsManyLabelsAsShipments(rows[..last]);
      assert WithShipment(rows) == if rows[last].shipment.Some? then WithShipment(rows[..last]) + {last} else WithShipment(rows[..last]);
    }
  }
}
