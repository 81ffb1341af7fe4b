/** What no run of orders, sweeps and deletions can break, transactions that are lost half way included. */
module DocumentRuns {
  import opened Collections
  import opened Options
  import opened Documents
  import opened DocumentSweeps
  import opened LabelLists

  // ----- what every step keeps -----

  /** Files lie under the keys of their rows, and no expired row has one. */
  ghost predicate FilesAreOwn(w: World) {
    && (forall key :: key in w.storage && key.document in w.documents ==>
         OwnKey(w, key) && w.documents[key.document].status != Expired)
    && (forall id :: id in w.documents && w.documents[id].status == Ready ==>
         KeyOf(id, w.documents[id]).Some? && w.documents[id].s3Key == KeyOf(id, w.documents[id]))
  }

  predicate IsClosed(d: Document) {
    d.status == Failed || d.status == Expired
  }

  /** No row goes away or becomes another shipment's, and a closed row stays exactly as it is. */
  ghost predicate RowsKept(w: World, w': World) {
    forall id :: id in w.documents ==>
      && id in w'.documents && SameForm(w.documents[id], w'.documents[id])
      && (IsClosed(w.documents[id]) ==> w'.documents[id] == w.documents[id])
  }

  lemma LabelsStayOne(w: World, w': World)
    requires OneLabelEach(w) && RowsKept(w, w') && w'.documents.Keys == w.documents.Keys
    ensures OneLabelEach(w')
  {
    forall i, j, shipment, format |
      IsLabelOf(w'.documents, i, shipment, format) && IsLabelOf(w'.documents, j, shipment, format)
      ensures i == j
    {
      assert IsLabelOf(w.documents, i, shipment, format) && IsLabelOf(w.documents, j, shipment, format);
    }
  }

  predicate IsOrder(e: Event) {
    e.Order? || e.OrderList?
  }

  /** An order of one label or of a list, committed or lost, only adds. */
  lemma OrdersOnlyAdd(w: World, e: Event)
    requires Enabled(w, e) && IsOrder(e)
    ensures OnlyAdds(w, Reached(w, e), e.at)
    ensures OneLabelEach(w) ==> OneLabelEach(Reached(w, e))
  {
    match e
    case Order(shipment, format, id, at, reply, _) =>
      LabelledOnlyAdds(w, shipment, StoredFormat(format), id, at, reply);
      if OneLabelEach(w) {
        LabelledKeepsOne(w, shipment, StoredFormat(format), id, at, reply);
      }
    case OrderList(shipments, ids, at, answers, reached, _) => ListOnlyAdds(w, shipments, ids, at, answers, reached);
  }

  lemma OrderKeeps(w: World, e: Event)
    requires Enabled(w, e) && IsOrder(e) && FilesAreOwn(w)
    ensures RowsKept(w, After(w, e)) && WaybillsKept(w, After(w, e)) && FilesAreOwn(After(w, e))
    ensures OneLabelEach(w) ==> OneLabelEach(After(w, e))
  {
    OrdersOnlyAdd(w, e);
    AddingKeeps(w, Reached(w, e), e.at);
    if !IsCommitted(e) && OneLabelEach(w) {
      LabelsStayOne(w, After(w, e));
    }
  }

  lemma AddingKeeps(w: World, r: World, at: int)
    requires OnlyAdds(w, r, at) && FilesAreOwn(w)
    ensures RowsKept(w, r) && FilesAreOwn(r) && FilesAreOwn(Lost(w, r))
  {
  }

  /** One row through a sweep, in or out of its batch. */
  lemma SweptRow(w: World, e: Event, id: DocId)
    requires Enabled(w, e) && e.Sweep? && id in w.documents
    ensures var d, d' := w.documents[id], Reached(w, e).documents[id];
            && SameForm(d, d')
            && (id in e.batch ==> d.status == Pending && d'.status != Expired)
            && (d' == d || (id in e.batch && (d'.status == Ready ==> HasItsFile(Reached(w, e), id))))
  {
    SweepIsTargeted(w, e.at, e.batch);
    SweepReaches(w, e.batch, e.at, e.replies, e.reached);
    if id in e.batch {
      var k :| 0 <= k < |e.batch| && e.batch[k] == id;
      assert k < e.reached ==> Handled(Reached(w, e), e.batch[k]);
    }
  }

  lemma SweepKeepsRows(w: World, e: Event)
    requires Enabled(w, e) && e.Sweep?
    ensures RowsKept(w, After(w, e)) && WaybillsKept(w, After(w, e))
    ensures OneLabelEach(w) ==> OneLabelEach(After(w, e))
  {
    SweepIsTargeted(w, e.at, e.batch);
    SweepReaches(w, e.batch, e.at, e.replies, e.reached);
    forall id | id in w.documents
      ensures SameForm(w.documents[id], Reached(w, e).documents[id])
      ensures IsClosed(w.documents[id]) ==> Reached(w, e).documents[id] == w.documents[id]
    {
      SweptRow(w, e, id);
    }
    if OneLabelEach(w) {
      LabelsStayOne(w, After(w, e));
    }
  }

  lemma SweepKeepsFiles(w: World, e: Event)
    requires Enabled(w, e) && e.Sweep? && FilesAreOwn(w)
    ensures FilesAreOwn(After(w, e))
  {
    SweepIsTargeted(w, e.at, e.batch);
    SweepReaches(w, e.batch, e.at, e.replies, e.reached);
    var r, w' := Reached(w, e), After(w, e);
    assert FilesSwept(w, r, e.batch);
    forall key | key in w'.storage && key.document in w'.documents
      ensures OwnKey(w', key) && w'.documents[key.document].status != Expired
    {
      SweptRow(w, e, key.document);
    }
    forall id | id in w'.documents && w'.documents[id].status == Ready
      ensures KeyOf(id, w'.documents[id]).Some? && w'.documents[id].s3Key == KeyOf(id, w'.documents[id])
    {
      SweptRow(w, e, id);
    }
  }

  // ----- deleting files -----

  ghost predicate ExpireTarget(w: World, files: seq<(DocId, FileKey)>) {
    && PairsExist(w, files)
    && (forall i, j :: 0 <= i < j < |files| ==> files[i].0 != files[j].0)
    && (forall i :: 0 <= i < |files| ==> IsReadyWith(w, files[i].0, files[i].1))
  }

  predicate IsReadyWith(w: World, id: DocId, key: FileKey) {
    id in w.documents && w.documents[id].status == Ready && w.documents[id].s3Key == Some(key)
  }

  /** The storage no longer has the file after this answer. */
  predicate Removes(reply: DeleteReply) {
    reply.DeleteDone? || reply.removed
  }

  /** The k-th pair after n of them were handled. */
  ghost predicate PairAfter(w: World, r: World, files: seq<(DocId, FileKey)>, deletions: DocId -> DeleteReply, n: nat, k: nat)
    requires k < |files|
  {
    var (id, key) := files[k];
    && id in w.documents && id in r.documents
    && r.documents[id] == (if k < n && deletions(id).DeleteDone? then w.documents[id].(s3Key := None, status := Expired)
                           else w.documents[id])
    && (key in r.storage <==> key in w.storage && !(k < n && Removes(deletions(id))))
  }

  ghost predicate PairsExpired(w: World, r: World, files: seq<(DocId, FileKey)>, deletions: DocId -> DeleteReply, n: nat) {
    && r.documents.Keys == w.documents.Keys && r.shipments == w.shipments && r.storage.Keys <= w.storage.Keys
    && (forall x :: x in w.documents && r.documents[x] != w.documents[x] ==> IsListed(files, x))
    && (forall key :: key in w.storage && key !in r.storage ==> IsListed(files, key.document))
    && (forall k :: 0 <= k < |files| ==> PairAfter(w, r, files, deletions, n, k))
  }

  ghost predicate IsListed(files: seq<(DocId, FileKey)>, id: DocId) {
    exists k :: 0 <= k < |files| && files[k].0 == id
  }

  ghost predicate KeysAreOwn(files: seq<(DocId, FileKey)>) {
    forall k :: 0 <= k < |files| ==> files[k].1.document == files[k].0
  }

  lemma {:induction false} ExpireReaches(w: World, files: seq<(DocId, FileKey)>, deletions: DocId -> DeleteReply, n: nat)
    requires ExpireTarget(w, files) && KeysAreOwn(files) && n <= |files|
    ensures PairsExpired(w, ExpireUpTo(w, files, deletions, n), files, deletions, n)
  {
    if n > 0 {
      ExpireReaches(w, files, deletions, n - 1);
      ExpireStep(w, ExpireUpTo(w, files, deletions, n - 1), files, deletions, n);
    }
  }

  lemma {:induction false} ExpireStep(
      w: World, before: World, files: seq<(DocId, FileKey)>, deletions: DocId -> DeleteReply, n: nat)
    requires ExpireTarget(w, files) && KeysAreOwn(files) && 0 < n <= |files|
    requires PairsExpired(w, before, files, deletions, n - 1)
    ensures PairsExpired(w, ExpireOne(before, files[n - 1].0, files[n - 1].1, deletions(files[n - 1].0)), files, deletions, n)
  {
    var (id, key) := files[n - 1];
    var r := ExpireOne(before, id, key, deletions(id));
    assert IsListed(files, id);
    assert PairAfter(w, before, files, deletions, n - 1, n - 1);
    forall k | 0 <= k < |files|
      ensures PairAfter(w, r, files, deletions, n, k)
    {
      assert PairAfter(w, before, files, deletions, n - 1, k);
      assert k != n - 1 ==> files[k].0 != id && files[k].1 != key;
    }
  }

  lemma ExpiryIsTargeted(w: World, at: int, files: seq<(DocId, FileKey)>)
    requires IsExpiryBatch(w, at - FILE_GRACE, EXPIRY_BATCH, files) && FilesAreOwn(w)
    ensures ExpireTarget(w, files) && KeysAreOwn(files)
    ensures forall k :: 0 <= k < |files| ==> Some(files[k].1) == KeyOf(files[k].0, w.documents[files[k].0])
  {
  }

  lemma ExpiryKeepsRows(w: World, e: Event)
    requires Enabled(w, e) && e.Expire? && FilesAreOwn(w)
    ensures RowsKept(w, After(w, e)) && After(w, e).shipments == w.shipments
    ensures OneLabelEach(w) ==> OneLabelEach(After(w, e))
  {
    ExpiryIsTargeted(w, e.at, e.files);
    ExpireReaches(w, e.files, e.deletions, e.reached);
    forall id | id in w.documents
      ensures SameForm(w.documents[id], Reached(w, e).documents[id])
      ensures IsClosed(w.documents[id]) ==> Reached(w, e).documents[id] == w.documents[id]
    {
      ExpiredRow(w, e, id);
    }
    if OneLabelEach(w) {
      LabelsStayOne(w, After(w, e));
    }
  }

  /** One row through an expiry: the same, or a ready one whose file is gone and which says so. */
  lemma ExpiredRow(w: World, e: Event, id: DocId)
    requires Enabled(w, e) && e.Expire? && FilesAreOwn(w) && id in w.documents
    ensures var d, r := w.documents[id], Reached(w, e);
            || r.documents[id] == d
            || (&& d.status == Ready && r.documents[id] == d.(s3Key := None, status := Expired)
                && KeyOf(id, d).Some? && KeyOf(id, d).value !in r.storage)
  {
    ExpiryIsTargeted(w, e.at, e.files);
    ExpireReaches(w, e.files, e.deletions, e.reached);
    var r := Reached(w, e);
    if r.documents[id] != w.documents[id] {
      assert IsListed(e.files, id);
      var k :| 0 <= k < |e.files| && e.files[k].0 == id;
      assert PairAfter(w, r, e.files, e.deletions, e.reached, k);
    }
  }

  lemma ExpiryKeepsFiles(w: World, e: Event)
    requires Enabled(w, e) && e.Expire? && FilesAreOwn(w)
    ensures FilesAreOwn(After(w, e))
  {
    ExpiryIsTargeted(w, e.at, e.files);
    ExpireReaches(w, e.files, e.deletions, e.reached);
    var r, w' := Reached(w, e), After(w, e);
    forall id | id in w.documents
      ensures r.documents[id] == w.documents[id] || !HasItsFileName(r, id)
      ensures SameForm(w.documents[id], r.documents[id])
      ensures r.documents[id].status == Ready ==> r.documents[id] == w.documents[id]
    {
      ExpiredRow(w, e, id);
    }
    forall key | key in w'.storage && key.document in w'.documents
      ensures OwnKey(w', key) && w'.documents[key.document].status != Expired
    {
      assert key in w.storage && OwnKey(w, key);
    }
  }

  /** The storage has a file under the key of the row, whatever the row says. */
  predicate HasItsFileName(w: World, id: DocId)
    requires id in w.documents
  {
    var key := KeyOf(id, w.documents[id]);
    key.Some? && key.value in w.storage
  }

  // ----- every step, every run -----

  lemma StepKeeps(w: World, e: Event)
    requires Enabled(w, e) && FilesAreOwn(w)
    ensures RowsKept(w, After(w, e)) && WaybillsKept(w, After(w, e)) && FilesAreOwn(After(w, e))
    ensures OneLabelEach(w) ==> OneLabelEach(After(w, e))
  {
    match e
    case Order(_, _, _, _, _, _) => OrderKeeps(w, e);
    case OrderList(_, _, _, _, _, _) => OrderKeeps(w, e);
    case Sweep(_, _, _, _, _) => SweepKeepsRows(w, e); SweepKeepsFiles(w, e);
    case Expire(_, _, _, _, _) => ExpiryKeepsRows(w, e); ExpiryKeepsFiles(w, e);
    case NewShipment(_, _) => if OneLabelEach(w) { LabelsStayOne(w, After(w, e)); }
    case ShipmentOver(_, _) => if OneLabelEach(w) { LabelsStayOne(w, After(w, e)); }
  }

  lemma {:induction false} RunKeeps(w: World, events: seq<Event>)
    requires Runs(w, events) && FilesAreOwn(w)
    ensures RowsKept(w, End(w, events)) && WaybillsKept(w, End(w, events)) && FilesAreOwn(End(w, events))
    ensures OneLabelEach(w) ==> OneLabelEach(End(w, events))
    decreases |events|
  {
    if events != [] {
      StepKeeps(w, events[0]);
      RunKeeps(After(w, events[0]), events[1..]);
      RowsKeptTwice(w, After(w, events[0]), End(w, events));
    }
  }

  lemma RowsKeptTwice(a: World, b: World, c: World)
    requires RowsKept(a, b) && RowsKept(b, c) && WaybillsKept(a, b) && WaybillsKept(b, c)
    ensures RowsKept(a, c) && WaybillsKept(a, c)
  {
  }

  /** A world with no document and no file, as the module starts. */
  predicate IsEmpty(w: World) {
    w.documents == map[] && w.storage == map[]
  }

  /** The file of an expired document is never in the storage, crashes included. */
  lemma NoFileOfAnExpiredDocument(w: World, events: seq<Event>, key: FileKey)
    requires IsEmpty(w) && Runs(w, events) && key.document in End(w, events).documents
    requires End(w, events).documents[key.document].status == Expired
    ensures key !in End(w, events).storage
  {
    RunKeeps(w, events);
  }

  /** Whatever is reached once, stays: closed rows, waybill numbers, and the label of a shipment. */
  lemma WhatIsSettledStays(w: World, first: seq<Event>, later: seq<Event>, id: DocId)
    requires IsEmpty(w) && Runs(w, first) && Runs(End(w, first), later) && id in End(w, first).documents
    ensures var a, b := End(w, first), End(End(w, first), later);
            && id in b.documents && SameForm(a.documents[id], b.documents[id])
            && (IsClosed(a.documents[id]) ==> b.documents[id] == a.documents[id])
            && (a.documents[id].shipment.Some? && a.documents[id].shipment.value in a.shipments
                && a.shipments[a.documents[id].shipment.value].waybill != "" ==>
                  && a.documents[id].shipment.value in b.shipments
                  && b.shipments[a.documents[id].shipment.value].waybill == a.shipments[a.documents[id].shipment.value].waybill)
  {
    RunKeeps(w, first);
    RunKeeps(End(w, first), later);
  }

  /** Orders that do not overlap leave one label for a shipment and a format. */
  lemma OneLabelForAShipment(w: World, events: seq<Event>, i: DocId, j: DocId, shipment: ShipmentId, format: Format)
    requires IsEmpty(w) && Runs(w, events)
    requires IsLabelOf(End(w, events).documents, i, shipment, format) && IsLabelOf(End(w, events).documents, j, shipment, format)
    ensures i == j
  {
    RunKeeps(w, events);
  }

  // ----- how long a backlog of overdue documents can last -----

  /** The clock of the run: new documents are not older than the backlog, and a sweep that counts comes a day later. */
  predicate ClockAllows(e: Event, before: int) {
    IsOrder(e) ==> before <= e.at
  }

  predicate IsSweepAfter(e: Event, before: int) {
    e.Sweep? && e.committed && before + GIVE_UP_AFTER <= e.at
  }

  function SweepsAfter(events: seq<Event>, before: int): nat {
    if events == [] then 0
    else (if IsSweepAfter(events[0], before) then 1 else 0) + SweepsAfter(events[1..], before)
  }

  /** No step adds to the backlog. */
  lemma BacklogNeverGrows(w: World, e: Event, before: int)
    requires Enabled(w, e) && FilesAreOwn(w) && ClockAllows(e, before)
    ensures Older(After(w, e).documents, before) <= Older(w.documents, before)
  {
    var w' := After(w, e);
    forall id | id in Older(w'.documents, before)
      ensures id in Older(w.documents, before)
    {
      BacklogRow(w, e, before, id);
    }
  }

  lemma BacklogRow(w: World, e: Event, before: int, id: DocId)
    requires Enabled(w, e) && FilesAreOwn(w) && ClockAllows(e, before)
    requires id in Older(After(w, e).documents, before)
    ensures id in Older(w.documents, before)
  {
    match e
    case Order(_, _, _, _, _, _) => OrdersOnlyAdd(w, e);
    case OrderList(_, _, _, _, _, _) => OrdersOnlyAdd(w, e);
    case Sweep(_, _, _, _, _) => SweptRow(w, e, id);
    case Expire(_, _, _, _, _) => ExpiredRow(w, e, id);
    case NewShipment(_, _) =>
    case ShipmentOver(_, _) =>
  }

  /** How many documents created before the instant are still pending. */
  ghost function Backlog(w: World, before: int): nat {
    |Older(w.documents, before)|
  }

  /**
   Of k documents pending at some moment, at most k - 50 m are still pending after m sweeps that come at
   least a day later and commit, whatever else happens in between: after ceil(k / 50) of them none is.
   */
  lemma {:induction false} OverdueDocumentsDrain(w: World, events: seq<Event>, before: int)
    requires FilesAreOwn(w) && Runs(w, events)
    requires forall i :: 0 <= i < |events| ==> ClockAllows(events[i], before)
    ensures Backlog(End(w, events), before) <= Max0(Backlog(w, before) - PENDING_BATCH * SweepsAfter(events, before))
    decreases |events|
  {
    if events != [] {
      var e, rest, w1 := events[0], events[1..], After(w, events[0]);
      BacklogAfterStep(w, e, before);
      OverdueDocumentsDrain(w1, rest, before);
      DrainArithmetic(Backlog(w, before), Backlog(w1, before), Backlog(End(w1, rest), before),
                      SweepsAfter(rest, before), IsSweepAfter(e, before));
    }
  }

  /** A backlog of k documents is gone after ceil(k / 50) such sweeps. */
  lemma BacklogIsGone(w: World, events: seq<Event>, before: int)
    requires FilesAreOwn(w) && Runs(w, events)
    requires forall i :: 0 <= i < |events| ==> ClockAllows(events[i], before)
    requires SweepsAfter(events, before) >= (Backlog(w, before) + PENDING_BATCH - 1) / PENDING_BATCH
    ensures Older(End(w, events).documents, before) == {}
  {
    OverdueDocumentsDrain(w, events, before);
    EnoughSweeps(Backlog(w, before), SweepsAfter(events, before));
    assert Backlog(End(w, events), before) == 0;
  }

  lemma EnoughSweeps(k: nat, sweeps: nat)
    requires sweeps >= (k + PENDING_BATCH - 1) / PENDING_BATCH
    ensures Max0(k - PENDING_BATCH * sweeps) == 0
  {
  }

  lemma BacklogAfterStep(w: World, e: Event, before: int)
    requires Enabled(w, e) && FilesAreOwn(w) && ClockAllows(e, before)
    ensures FilesAreOwn(After(w, e)) && Backlog(After(w, e), before) <= Backlog(w, before)
    ensures IsSweepAfter(e, before) ==>
              Backlog(After(w, e), before) == Backlog(w, before) - Min(PENDING_BATCH, Backlog(w, before))
  {
    StepKeeps(w, e);
    BacklogNeverGrows(w, e, before);
    SubsetSize(Older(After(w, e).documents, before), Older(w.documents, before));
    if IsSweepAfter(e, before) {
      SweepGivesUpTheOverdue(w, e, before);
    }
  }

  lemma DrainArithmetic(a: nat, b: nat, c: nat, sweeps: nat, swept: bool)
    requires b <= a && (swept ==> b == a - Min(PENDING_BATCH, a)) && c <= Max0(b - PENDING_BATCH * sweeps)
    ensures c <= Max0(a - PENDING_BATCH * ((if swept then 1 else 0) + sweeps))
  {
  }

  function Max0(n: int): nat {
    if n < 0 then 0 else n
  }

  // ----- a ready document has its file, except where a deletion went unrecorded -----

  ghost predicate ReadyHaveFiles(w: World) {
    forall id :: id in w.documents && w.documents[id].status == Ready ==> HasItsFile(w, id)
  }

  /** Every file that this event removes from the storage is a file whose row it marks, and commits. */
  predicate DeletionsRecorded(e: Event) {
    e.Expire? ==>
      forall k :: 0 <= k < |e.files| && k < e.reached && Removes(e.deletions(e.files[k].0)) ==>
        e.committed && e.deletions(e.files[k].0).DeleteDone?
  }

  /** A step leaves every ready document with its file if and only if its deletions are recorded. */
  lemma ReadyHaveFilesIff(w: World, e: Event)
    requires Enabled(w, e) && FilesAreOwn(w) && ReadyHaveFiles(w)
    ensures ReadyHaveFiles(After(w, e)) <==> DeletionsRecorded(e)
  {
    match e
    case Order(_, _, _, _, _, _) => OrdersOnlyAdd(w, e); AddingKeepsReadyFiles(w, Reached(w, e), e.at);
    case OrderList(_, _, _, _, _, _) => OrdersOnlyAdd(w, e); AddingKeepsReadyFiles(w, Reached(w, e), e.at);
    case Sweep(_, _, _, _, _) => SweepKeepsReadyFiles(w, e);
    case Expire(_, _, _, _, _) => ExpiryKeepsReadyFilesIff(w, e);
    case NewShipment(_, _) =>
    case ShipmentOver(_, _) =>
  }

  lemma AddingKeepsReadyFiles(w: World, r: World, at: int)
    requires OnlyAdds(w, r, at) && ReadyHaveFiles(w)
    ensures ReadyHaveFiles(r) && ReadyHaveFiles(Lost(w, r))
  {
    forall id | id in r.documents && r.documents[id].status == Ready
      ensures HasItsFile(r, id)
    {
      assert id in w.documents ==> HasItsFile(w, id);
    }
  }

  lemma SweepKeepsReadyFiles(w: World, e: Event)
    requires Enabled(w, e) && e.Sweep? && ReadyHaveFiles(w)
    ensures ReadyHaveFiles(After(w, e))
  {
    SweepIsTargeted(w, e.at, e.batch);
    SweepReaches(w, e.batch, e.at, e.replies, e.reached);
    forall id | id in After(w, e).documents && After(w, e).documents[id].status == Ready
      ensures HasItsFile(After(w, e), id)
    {
      SweptRow(w, e, id);
      assert w.documents[id].status == Ready ==> HasItsFile(w, id);
    }
  }

  lemma ExpiryKeepsReadyFilesIff(w: World, e: Event)
    requires Enabled(w, e) && e.Expire? && FilesAreOwn(w) && ReadyHaveFiles(w)
    ensures ReadyHaveFiles(After(w, e)) <==> DeletionsRecorded(e)
  {
    if DeletionsRecorded(e) {
      forall id | id in After(w, e).documents && After(w, e).documents[id].status == Ready
        ensures HasItsFile(After(w, e), id)
      {
        RecordedDeletionSparesReady(w, e, id);
      }
    } else {
      var k :| 0 <= k < |e.files| && k < e.reached && Removes(e.deletions(e.files[k].0))
               && !(e.committed && e.deletions(e.files[k].0).DeleteDone?);
      UnrecordedDeletionStrandsARow(w, e, k);
    }
  }

  lemma RecordedDeletionSparesReady(w: World, e: Event, id: DocId)
    requires Enabled(w, e) && e.Expire? && FilesAreOwn(w) && ReadyHaveFiles(w) && DeletionsRecorded(e)
    requires id in After(w, e).documents && After(w, e).documents[id].status == Ready
    ensures HasItsFile(After(w, e), id)
  {
    ExpiryIsTargeted(w, e.at, e.files);
    ExpireReaches(w, e.files, e.deletions, e.reached);
    ExpiredRow(w, e, id);
    assert HasItsFile(w, id);
    if IsListed(e.files, id) {
      var k :| 0 <= k < |e.files| && e.files[k].0 == id;
      assert PairAfter(w, Reached(w, e), e.files, e.deletions, e.reached, k);
    }
  }

  lemma UnrecordedDeletionStrandsARow(w: World, e: Event, k: nat)
    requires Enabled(w, e) && e.Expire? && FilesAreOwn(w) && k < e.reached && Removes(e.deletions(e.files[k].0))
    requires !(e.committed && e.deletions(e.files[k].0).DeleteDone?)
    ensures var id := e.files[k].0;
            id in After(w, e).documents && After(w, e).documents[id].status == Ready && !HasItsFile(After(w, e), id)
  {
    ExpiryIsTargeted(w, e.at, e.files);
    ExpireReaches(w, e.files, e.deletions, e.reached);
    assert PairAfter(w, Reached(w, e), e.files, e.deletions, e.reached, k);
  }
}
