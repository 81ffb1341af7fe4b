/**
 The transactions of the document service as events, each committed or lost half way: a lost one undoes its
 rows but not what it did to the storage. Then what one sweep over the pending documents does.
 */
module DocumentSweeps {
  import opened Collections
  import opened Options
  import opened Documents

  /** One transaction. `reached` documents were handled, then it was committed, it raised, or it was lost. */
  datatype Event =
    | Order(shipment: ShipmentId, format: LabelFormat, id: DocId, at: int, reply: PullReply, committed: bool)
    | OrderList(shipments: seq<ShipmentId>, ids: seq<DocId>, at: int, answers: seq<PullReply>, reached: nat, committed: bool)
    | Sweep(at: int, batch: seq<DocId>, replies: DocId -> PullReply, reached: nat, committed: bool)
    | Expire(at: int, files: seq<(DocId, FileKey)>, deletions: DocId -> DeleteReply, reached: nat, committed: bool)
    | NewShipment(shipment: ShipmentId, externalId: string)
    | ShipmentOver(shipment: ShipmentId, at: int)

  /** The event can happen here, with this batch and this ending: nothing that it went past raised. */
  ghost predicate Enabled(w: World, e: Event) {
    match e
    case Order(shipment, format, id, at, reply, committed) =>
      && IsFreshId(w, id)
      && (committed ==> !LabelRaises(w, shipment, StoredFormat(format), id, at, reply))
    case OrderList(shipments, ids, at, answers, reached, committed) =>
      && HasIds(w, shipments, ids, 0) && |answers| == |shipments| && reached <= |shipments|
      && ListIsQuiet(w, shipments, ids, at, answers, Before(reached, committed))
      && (committed ==> reached == |shipments|)
    case Sweep(at, batch, replies, reached, committed) =>
      && IsPendingBatch(w.documents, at - PENDING_DELAY, PENDING_BATCH, batch) && reached <= |batch|
      && SweepIsQuiet(w, batch, at, replies, Before(reached, committed))
      && (committed ==> reached == |batch|)
    case Expire(at, files, deletions, reached, committed) =>
      && IsExpiryBatch(w, at - FILE_GRACE, EXPIRY_BATCH, files) && reached <= |files|
      && (committed ==> reached == |files|)
    case NewShipment(shipment, _) => shipment !in w.shipments
    case ShipmentOver(shipment, _) => shipment in w.shipments
  }

  /** How many of the handled ones cannot have raised: all of them, or all but the last. */
  function Before(reached: nat, committed: bool): nat {
    if committed || reached == 0 then reached else reached - 1
  }

  /** The rows and files as the transaction had them when it ended. */
  ghost function Reached(w: World, e: Event): World
    requires Enabled(w, e)
  {
    match e
    case Order(shipment, format, id, at, reply, _) => Labelled(w, shipment, StoredFormat(format), id, at, reply)
    case OrderList(shipments, ids, at, answers, reached, _) => LabelledUpTo(w, shipments, ids, at, answers, reached)
    case Sweep(at, batch, replies, reached, _) => SweepUpTo(w, batch, at, replies, reached)
    case Expire(_, files, deletions, reached, _) => ExpireUpTo(w, files, deletions, reached)
    case NewShipment(shipment, externalId) =>
      w.(shipments := w.shipments[shipment := Shipment(externalId, "", false, 0)])
    case ShipmentOver(shipment, at) =>
      w.(shipments := w.shipments[shipment := w.shipments[shipment].(isFinal := true, finishedAt := at)])
  }

  predicate IsCommitted(e: Event) {
    match e
    case Order(_, _, _, _, _, committed) => committed
    case OrderList(_, _, _, _, _, committed) => committed
    case Sweep(_, _, _, _, committed) => committed
    case Expire(_, _, _, _, committed) => committed
    case NewShipment(_, _) => true
    case ShipmentOver(_, _) => true
  }

  ghost function After(w: World, e: Event): World
    requires Enabled(w, e)
  {
    if IsCommitted(e) then Reached(w, e) else Lost(w, Reached(w, e))
  }

  ghost predicate Runs(w: World, events: seq<Event>)
    decreases |events|
  {
    events == [] || (Enabled(w, events[0]) && Runs(After(w, events[0]), events[1..]))
  }

  ghost function End(w: World, events: seq<Event>): World
    requires Runs(w, events)
    decreases |events|
  {
    if events == [] then w else End(After(w, events[0]), events[1..])
  }

  // ----- what one document of a batch changes -----

  /** What pulling may do to the world, seen from every other row, file and shipment. */
  ghost predicate TouchesOnly(w: World, w': World, id: DocId)
    requires id in w.documents
  {
    && w'.documents.Keys == w.documents.Keys
    && (forall x :: x in w.documents && x != id ==> w'.documents[x] == w.documents[x])
    && w'.documents[id].shipment == w.documents[id].shipment
    && w'.documents[id].format == w.documents[id].format
    && w'.documents[id].createdAt == w.documents[id].createdAt
    && (forall key :: key in w'.storage && key !in w.storage ==> Some(key) == KeyOf(id, w.documents[id]))
    && (forall key :: key in w.storage && key !in w'.storage ==> Some(key) == KeyOf(id, w.documents[id]))
    && WaybillsKept(w, w')
  }

  ghost predicate WaybillsKept(w: World, w': World) {
    forall s :: s in w.shipments ==>
      && s in w'.shipments
      && (w.shipments[s].waybill != "" ==> w'.shipments[s].waybill == w.shipments[s].waybill)
  }

  predicate SameForm(d: Document, d': Document) {
    d'.shipment == d.shipment && d'.format == d.format && d'.createdAt == d.createdAt
  }

  /** The row names its own key, and the file is there. */
  predicate HasItsFile(w: World, id: DocId)
    requires id in w.documents
  {
    var key := KeyOf(id, w.documents[id]);
    key.Some? && w.documents[id].s3Key == key && key.value in w.storage
  }

  /** A row that a sweep has handled: never expired, and with its file when ready. */
  predicate Handled(r: World, id: DocId) {
    && id in r.documents && r.documents[id].status != Expired
    && (r.documents[id].status == Ready ==> HasItsFile(r, id))
  }

  /** The file lies under the key of its own row. */
  predicate OwnKey(w: World, key: FileKey) {
    key.document in w.documents && Some(key) == KeyOf(key.document, w.documents[key.document])
  }

  /** The rows after n documents of the batch: those n are handled, every other row is as before. */
  ghost predicate RowsSwept(w: World, r: World, batch: seq<DocId>, now: int, n: nat)
    requires n <= |batch| && RowsExist(w, batch)
  {
    && r.documents.Keys == w.documents.Keys
    && (forall x :: x in w.documents && x !in batch ==> r.documents[x] == w.documents[x])
    && (forall k :: n <= k < |batch| ==> r.documents[batch[k]] == w.documents[batch[k]])
    && (forall k :: 0 <= k < n ==> SameForm(w.documents[batch[k]], r.documents[batch[k]]) && Handled(r, batch[k]))
    && (forall k :: 0 <= k < n && IsOverdue(w.documents[batch[k]], now) ==> r.documents[batch[k]].status == Failed)
  }

  /** The files after part of a sweep: nothing is gone, and what is new belongs to a row of the batch. */
  ghost predicate FilesSwept(w: World, r: World, batch: seq<DocId>) {
    && w.storage.Keys <= r.storage.Keys
    && (forall key :: key in r.storage && key !in w.storage ==> key.document in batch && OwnKey(w, key))
  }

  ghost predicate SweepTarget(w: World, batch: seq<DocId>) {
    && RowsExist(w, batch)
    && Distinct(batch)
    && (forall i :: 0 <= i < |batch| ==> w.documents[batch[i]].status == Pending)
  }

  lemma NamingKeepsTheRest(w: World, shipment: ShipmentId, externalRef: string)
    requires shipment in w.shipments
    ensures var r := Named(w, shipment, externalRef);
            WaybillsKept(w, r) && r.documents == w.documents && r.storage == w.storage
  {
  }

  /** What one document of a sweep may do: touch its own row and file, and never end as expired. */
  ghost predicate SweptProperly(w: World, w': World, id: DocId)
    requires id in w.documents
  {
    TouchesOnly(w, w', id) && w.storage.Keys <= w'.storage.Keys && Handled(w', id)
  }

  lemma FailingIsProper(w: World, id: DocId, reason: string)
    requires id in w.documents && w.documents[id].status == Pending
    ensures SweptProperly(w, FailWith(w, id, reason), id)
  {
  }

  /** The form is stored and the row says so, or the storage raised with or without the file. */
  function Stored(w: World, id: DocId, key: FileKey, size: nat, put: PutReply): World
    requires id in w.documents
  {
    if put.PutDone? then Filed(w, id, key, size)
    else if put.written then w.(storage := w.storage[key := size])
    else w
  }

  lemma StoringIsProper(w: World, id: DocId, key: FileKey, size: nat, put: PutReply)
    requires id in w.documents && w.documents[id].status == Pending && KeyOf(id, w.documents[id]) == Some(key)
    ensures SweptProperly(w, Stored(w, id, key, size, put), id)
  {
  }

  lemma NamingFirstIsProper(w: World, named: World, r: World, id: DocId)
    requires named.documents == w.documents && named.storage == w.storage && WaybillsKept(w, named)
    requires id in w.documents && SweptProperly(named, r, id)
    ensures SweptProperly(w, r, id)
  {
  }

  lemma FormIsProper(w: World, id: DocId, reply: PullReply)
    requires id in w.documents && w.documents[id].status == Pending
    requires HasShipment(w, w.documents[id]) && reply.carrier.Form?
    requires w.shipments[w.documents[id].shipment.value].externalId != ""
    ensures SweptProperly(w, Pulled(w, id, reply), id)
  {
    var d, size := w.documents[id], reply.carrier.size;
    var asked := w.(carrierCalls := w.carrierCalls + 1);
    var named, key := Named(asked, d.shipment.value, reply.carrier.externalRef), FileKey(d.shipment.value, id, d.format);
    NamingKeepsTheRest(asked, d.shipment.value, reply.carrier.externalRef);
    StoringIsProper(named, id, key, size, reply.put);
    NamingFirstIsProper(w, named, Stored(named, id, key, size, reply.put), id);
    assert Pulled(w, id, reply) == Stored(named, id, key, size, reply.put);
  }

  lemma SweepOneTouchesOnly(w: World, id: DocId, now: int, reply: PullReply)
    requires id in w.documents && w.documents[id].status == Pending
    ensures SweptProperly(w, SweepOne(w, id, now, reply), id)
    ensures IsOverdue(w.documents[id], now) ==> SweepOne(w, id, now, reply).documents[id].status == Failed
  {
    if IsOverdue(w.documents[id], now) {
      FailingIsProper(w, id, TOO_LATE);
    } else if HasShipment(w, w.documents[id]) && w.shipments[w.documents[id].shipment.value].externalId == "" {
      FailingIsProper(w, id, NO_NUMBER);
    } else if HasShipment(w, w.documents[id]) && reply.carrier.Form? {
      FormIsProper(w, id, reply);
    }
  }

  lemma {:induction false} SweepReaches(w: World, batch: seq<DocId>, now: int, replies: DocId -> PullReply, n: nat)
    requires n <= |batch| && SweepTarget(w, batch)
    ensures var r := SweepUpTo(w, batch, now, replies, n);
            RowsSwept(w, r, batch, now, n) && FilesSwept(w, r, batch) && WaybillsKept(w, r)
  {
    if n > 0 {
      SweepReaches(w, batch, now, replies, n - 1);
      var before := SweepUpTo(w, batch, now, replies, n - 1);
      SweepOneTouchesOnly(before, batch[n - 1], now, replies(batch[n - 1]));
      var r := SweepOne(before, batch[n - 1], now, replies(batch[n - 1]));
      assert SweepUpTo(w, batch, now, replies, n) == r;
      RowsStep(w, before, r, batch, now, n);
      FilesStep(w, before, r, batch, now, n);
    }
  }

  lemma {:induction false} RowsStep(w: World, before: World, r: World, batch: seq<DocId>, now: int, n: nat)
    requires 0 < n <= |batch| && SweepTarget(w, batch) && RowsSwept(w, before, batch, now, n - 1)
    requires TouchesOnly(before, r, batch[n - 1]) && before.storage.Keys <= r.storage.Keys && Handled(r, batch[n - 1])
    requires IsOverdue(w.documents[batch[n - 1]], now) ==> r.documents[batch[n - 1]].status == Failed
    ensures RowsSwept(w, r, batch, now, n)
  {
    forall k | 0 <= k < n
      ensures Handled(r, batch[k])
    {
      assert k < n - 1 ==> Handled(before, batch[k]) && batch[k] != batch[n - 1];
    }
  }

  lemma {:induction false} FilesStep(w: World, before: World, r: World, batch: seq<DocId>, now: int, n: nat)
    requires 0 < n <= |batch| && SweepTarget(w, batch) && RowsSwept(w, before, batch, now, n - 1)
    requires FilesSwept(w, before, batch) && TouchesOnly(before, r, batch[n - 1]) && before.storage.Keys <= r.storage.Keys
    ensures FilesSwept(w, r, batch)
  {
    assert before.documents[batch[n - 1]] == w.documents[batch[n - 1]];
  }

  // ----- a sweep gives up exactly the oldest overdue documents -----

  /** The pending documents created before an instant. */
  ghost function Older(documents: Documents, before: int): set<DocId> {
    set id | id in documents && documents[id].status == Pending && documents[id].createdAt < before
  }

  function Min(a: int, b: int): int {
    if a < b then a else b
  }

  /** An oldest-first batch holds as many of the documents created before an instant as its limit allows. */
  lemma BatchTakesTheOldest(documents: Documents, olderThan: int, limit: nat, batch: seq<DocId>, before: int)
    requires IsPendingBatch(documents, olderThan, limit, batch) && before <= olderThan + 1
    ensures |Older(documents, before) * AsSet(batch)| == Min(limit, |Older(documents, before)|)
    ensures |Older(documents, before)| >= limit ==> AsSet(batch) <= Older(documents, before)
  {
    var aged, taken, matching := Older(documents, before), AsSet(batch), PendingBefore(documents, olderThan);
    DistinctSize(batch);
    assert aged <= matching && taken <= matching;
    if aged <= taken {
      assert aged * taken == aged;
      SubsetSize(aged, taken);
      if |aged| == limit {
        SubsetOfSameSize(aged, taken);
      }
    } else {
      var left :| left in aged && left !in taken;
      assert |matching| > |batch| by {
        SubsetSize(taken + {left}, matching);
      }
      assert forall i :: 0 <= i < |batch| ==> documents[batch[i]].createdAt <= documents[left].createdAt;
      assert taken <= aged;
      assert aged * taken == taken;
      SubsetSize(taken, aged);
    }
  }

  lemma SweepIsTargeted(w: World, at: int, batch: seq<DocId>)
    requires IsPendingBatch(w.documents, at - PENDING_DELAY, PENDING_BATCH, batch)
    ensures SweepTarget(w, batch)
  {
  }

  /**
   A sweep turns exactly min(50, overdue) of the overdue documents into failed ones if and only if it commits or
   none is overdue. Stated for every instant at least a day back, so that it can be used later too.
   */
  lemma SweepGivesUpTheOverdue(w: World, e: Event, before: int)
    requires Enabled(w, e) && e.Sweep? && before <= e.at - GIVE_UP_AFTER
    ensures var overdue, left := Older(w.documents, before), Older(After(w, e).documents, before);
            && left <= overdue
            && (|left| == |overdue| - Min(PENDING_BATCH, |overdue|) <==> e.committed || overdue == {})
            && (e.committed ==>
                 forall id :: id in overdue - left <==> id in overdue && After(w, e).documents[id].status == Failed)
  {
    if e.committed {
      CommittedSweepGivesUp(w, e, before);
    }
  }

  lemma CommittedSweepGivesUp(w: World, e: Event, before: int)
    requires Enabled(w, e) && e.Sweep? && e.committed && before <= e.at - GIVE_UP_AFTER
    ensures var overdue, left := Older(w.documents, before), Older(After(w, e).documents, before);
            && left <= overdue && |left| == |overdue| - Min(PENDING_BATCH, |overdue|)
            && (forall id :: id in overdue - left <==> id in overdue && After(w, e).documents[id].status == Failed)
  {
    BatchTakesTheOldest(w.documents, e.at - PENDING_DELAY, PENDING_BATCH, e.batch, before);
    var overdue, left, taken := Older(w.documents, before), Older(After(w, e).documents, before), AsSet(e.batch);
    assert After(w, e).documents.Keys == w.documents.Keys;
    forall id | id in w.documents
      ensures id in left <==> id in overdue && id !in taken
      ensures id in overdue && id in taken ==> After(w, e).documents[id].status == Failed
    {
      SweptByAge(w, e, before, id);
    }
    assert left == overdue - overdue * taken;
  }

  // ----- when a sweep can commit -----

  /** A document that fails the whole sweep: not overdue, and its shipment is gone or the storage does not take its form. */
  predicate FailsTheSweep(w: World, id: DocId, at: int, reply: PullReply)
    requires id in w.documents
  {
    var d := w.documents[id];
    && at - d.createdAt <= GIVE_UP_AFTER && d.shipment.Some?
    && (d.shipment.value !in w.shipments
        || (w.shipments[d.shipment.value].externalId != "" && reply.carrier.Form? && reply.put.PutRaises?))
  }

  /** What a sweep changes of a shipment is its waybill number alone. */
  predicate SameNumbers(w: World, r: World) {
    r.shipments.Keys == w.shipments.Keys
    && forall s :: s in w.shipments ==> r.shipments[s].externalId == w.shipments[s].externalId
  }

  lemma {:induction false} NumbersStay(w: World, batch: seq<DocId>, at: int, replies: DocId -> PullReply, n: nat)
    requires n <= |batch| && RowsExist(w, batch)
    ensures SameNumbers(w, SweepUpTo(w, batch, at, replies, n))
  {
    if n > 0 {
      NumbersStay(w, batch, at, replies, n - 1);
      PullKeepsNumbers(SweepUpTo(w, batch, at, replies, n - 1), batch[n - 1], at, replies(batch[n - 1]));
    }
  }

  lemma PullKeepsNumbers(w: World, id: DocId, at: int, reply: PullReply)
    requires id in w.documents
    ensures SameNumbers(w, SweepOne(w, id, at, reply))
  {
  }

  lemma QuietAtIff(w: World, batch: seq<DocId>, at: int, replies: DocId -> PullReply, k: nat)
    requires SweepTarget(w, batch) && k < |batch|
    ensures QuietAt(w, batch, at, replies, k) <==> !FailsTheSweep(w, batch[k], at, replies(batch[k]))
  {
    SweepReaches(w, batch, at, replies, k);
    NumbersStay(w, batch, at, replies, k);
  }

  /** Nothing in a sweep raises if and only if no document of its batch fails it, seen before the sweep begins. */
  lemma SweepIsQuietIff(w: World, at: int, batch: seq<DocId>, replies: DocId -> PullReply)
    requires IsPendingBatch(w.documents, at - PENDING_DELAY, PENDING_BATCH, batch)
    ensures SweepTarget(w, batch)
    ensures SweepIsQuiet(w, batch, at, replies, |batch|)
            <==> forall k :: 0 <= k < |batch| ==> !FailsTheSweep(w, batch[k], at, replies(batch[k]))
  {
    SweepIsTargeted(w, at, batch);
    forall k | 0 <= k < |batch|
      ensures QuietAt(w, batch, at, replies, k) <==> !FailsTheSweep(w, batch[k], at, replies(batch[k]))
    {
      QuietAtIff(w, batch, at, replies, k);
    }
  }

  /** A label a day overdue beside a new one of another shipment whose form the storage does not take. */
  const STUCK := World(
    map[0 := Document(Some(6), Pdf, Pending, None, 0, None, None), 1 := Document(Some(7), Pdf, Pending, None, 90000, None, None)],
    map[6 := Shipment("A-6", "", false, 0), 7 := Shipment("A-7", "", false, 0)], map[], 0)

  lemma StuckBatch()
    ensures IsPendingBatch(STUCK.documents, 100000 - PENDING_DELAY, PENDING_BATCH, [0, 1])
    ensures Older(STUCK.documents, 100000 - GIVE_UP_AFTER) == {0}
  {
    assert PendingBefore(STUCK.documents, 100000 - PENDING_DELAY) == {0, 1};
  }

  /** Such a sweep reaches the second document, never commits, and gives nothing up: the overdue one stays pending. */
  lemma StuckSweepGivesUpNothing(e: Event, size: nat, written: bool)
    requires e.Sweep? && e.at == 100000 && e.batch == [0, 1]
    requires e.replies(1) == PullReply(Form(size, ""), PutRaises(written))
    ensures Older(STUCK.documents, e.at - GIVE_UP_AFTER) == {0}
    ensures Enabled(STUCK, e) <==> !e.committed && e.reached <= 2
    ensures Enabled(STUCK, e) ==> Older(After(STUCK, e).documents, e.at - GIVE_UP_AFTER) == {0}
  {
    StuckBatch();
    SweepIsTargeted(STUCK, e.at, e.batch);
    QuietAtIff(STUCK, e.batch, e.at, e.replies, 0);
    QuietAtIff(STUCK, e.batch, e.at, e.replies, 1);
  }

  /** One row through a committed sweep: in the batch it is no longer overdue, outside it nothing changed. */
  lemma SweptByAge(w: World, e: Event, before: int, id: DocId)
    requires Enabled(w, e) && e.Sweep? && e.committed && before <= e.at - GIVE_UP_AFTER && id in w.documents
    ensures var d, d' := w.documents[id], SweepUpTo(w, e.batch, e.at, e.replies, |e.batch|).documents[id];
            && d'.createdAt == d.createdAt
            && (id in e.batch && d.createdAt < before ==> d'.status == Failed)
            && (id !in e.batch ==> d' == d)
  {
    SweepIsTargeted(w, e.at, e.batch);
    SweepReaches(w, e.batch, e.at, e.replies, |e.batch|);
    if id in e.batch {
      var k :| 0 <= k < |e.batch| && e.batch[k] == id;
      assert SameForm(w.documents[e.batch[k]], SweepUpTo(w, e.batch, e.at, e.replies, |e.batch|).documents[e.batch[k]]);
    }
  }

  predicate AllOverdue(w: World, at: int, batch: seq<DocId>)
    requires RowsExist(w, batch)
  {
    forall k :: 0 <= k < |batch| ==> IsOverdue(w.documents[batch[k]], at)
  }

  lemma OverdueIsQuietAt(w: World, at: int, batch: seq<DocId>, replies: DocId -> PullReply, k: nat)
    requires SweepTarget(w, batch) && k < |batch| && AllOverdue(w, at, batch)
    ensures QuietAt(w, batch, at, replies, k) && OverdueAt(w, at, batch, replies, k)
  {
    StaysOverdue(w, at, batch, replies, k);
  }

  /** No call was made and no file written. */
  predicate NothingSent(w: World, r: World) {
    r.carrierCalls == w.carrierCalls && r.storage == w.storage
  }

  predicate OverdueAt(w: World, at: int, batch: seq<DocId>, replies: DocId -> PullReply, k: nat)
    requires k < |batch| && RowsExist(w, batch)
  {
    IsOverdue(SweepUpTo(w, batch, at, replies, k).documents[batch[k]], at)
  }

  /** A batch of nothing but overdue documents costs no call and writes no file. */
  lemma {:induction false} OverdueBatchAsksNobody(w: World, at: int, batch: seq<DocId>, replies: DocId -> PullReply, n: nat)
    requires RowsExist(w, batch) && n <= |batch| && forall k :: 0 <= k < n ==> OverdueAt(w, at, batch, replies, k)
    ensures NothingSent(w, SweepUpTo(w, batch, at, replies, n))
  {
    if n > 0 {
      OverdueBatchAsksNobody(w, at, batch, replies, n - 1);
      assert OverdueAt(w, at, batch, replies, n - 1);
      OverdueAsksNobody(SweepUpTo(w, batch, at, replies, n - 1), batch[n - 1], at, replies(batch[n - 1]));
    }
  }

  lemma StaysOverdue(w: World, at: int, batch: seq<DocId>, replies: DocId -> PullReply, n: nat)
    requires SweepTarget(w, batch) && n < |batch| && IsOverdue(w.documents[batch[n]], at)
    ensures IsOverdue(SweepUpTo(w, batch, at, replies, n).documents[batch[n]], at)
  {
    SweepReaches(w, batch, at, replies, n);
  }

  lemma OverdueAsksNobody(w: World, id: DocId, at: int, reply: PullReply)
    requires id in w.documents && IsOverdue(w.documents[id], at)
    ensures !SweepRaises(w, id, at, reply)
    ensures NothingSent(w, SweepOne(w, id, at, reply))
  {
  }

  /** A sweep facing a full batch of overdue documents asks no carrier, and so nothing in it can raise. */
  lemma FullBatchAsksNobody(w: World, at: int, batch: seq<DocId>, replies: DocId -> PullReply)
    requires IsPendingBatch(w.documents, at - PENDING_DELAY, PENDING_BATCH, batch)
    requires |Older(w.documents, at - GIVE_UP_AFTER)| >= PENDING_BATCH
    ensures SweepTarget(w, batch) && SweepIsQuiet(w, batch, at, replies, |batch|)
    ensures NothingSent(w, SweepUpTo(w, batch, at, replies, |batch|))
  {
    SweepIsTargeted(w, at, batch);
    BatchTakesTheOldest(w.documents, at - PENDING_DELAY, PENDING_BATCH, batch, at - GIVE_UP_AFTER);
    forall k | 0 <= k < |batch|
      ensures IsOverdue(w.documents[batch[k]], at)
    {
      assert batch[k] in AsSet(batch);
    }
    forall k | 0 <= k < |batch|
      ensures QuietAt(w, batch, at, replies, k) && OverdueAt(w, at, batch, replies, k)
    {
      OverdueIsQuietAt(w, at, batch, replies, k);
    }
    OverdueBatchAsksNobody(w, at, batch, replies, |batch|);
  }
}
