/**
 The life of a printed form: ordered from a carrier, pulled when ready, given up after a day, and its
 file deleted some time after the shipment is over. Rows live in a table that can roll back, files do not.
 */
module Documents {
  import opened Collections
  import opened Options

  type DocId = nat
  type ShipmentId = nat

  datatype Format = Pdf | Zpl
  datatype LabelFormat = PdfA4 | PdfA5 | PdfA6 | ZplLabel
  datatype Status = Pending | Ready | Failed | Expired

  function StoredFormat(f: LabelFormat): Format {
    if f == ZplLabel then Zpl else Pdf
  }

  /** The object key is built from the identifiers of the row, so no two rows share one. */
  datatype FileKey = FileKey(shipment: ShipmentId, document: DocId, format: Format)

  datatype Document = Document(
    shipment: Option<ShipmentId>, format: Format, status: Status, s3Key: Option<FileKey>,
    createdAt: int, sizeBytes: Option<nat>, error: Option<string>)

  /** What a document needs of its shipment; empty texts are "not known". */
  datatype Shipment = Shipment(externalId: string, waybill: string, isFinal: bool, finishedAt: int)

  type Documents = map<DocId, Document>
  type Shipments = map<ShipmentId, Shipment>
  type Storage = map<FileKey, nat>

  const PENDING_DELAY := 2 * 60
  const GIVE_UP_AFTER := 24 * 60 * 60
  const PENDING_BATCH := 50
  const FILE_GRACE := 30 * 24 * 60 * 60
  const EXPIRY_BATCH := 200

  const NO_NUMBER := "the shipment has no number at the carrier"
  const TOO_LATE := "the carrier did not make the document within a day"

  /** How the carrier answers, and how the storage takes the file. */
  datatype CarrierReply = Refuses(reason: string) | NotReadyYet | Form(size: nat, externalRef: string)
  datatype PutReply = PutDone | PutRaises(written: bool)
  datatype PullReply = PullReply(carrier: CarrierReply, put: PutReply)
  datatype DeleteReply = DeleteDone | DeleteRaises(removed: bool)

  datatype World = World(documents: Documents, shipments: Shipments, storage: Storage, carrierCalls: nat)

  // ----- pulling one form -----

  datatype PullOutcome = NoFile | FileStored | Raised

  /** The shipment of a document, when it has one that still exists. */
  predicate HasShipment(w: World, d: Document) {
    d.shipment.Some? && d.shipment.value in w.shipments
  }

  function KeyOf(id: DocId, d: Document): Option<FileKey> {
    if d.shipment.Some? then Some(FileKey(d.shipment.value, id, d.format)) else None
  }

  /** Replacing one row of the table. */
  function WithRow(w: World, id: DocId, d: Document): (r: World)
    requires id in w.documents
    ensures r.documents.Keys == w.documents.Keys && r.documents[id] == d
    ensures forall x :: x in w.documents && x != id ==> r.documents[x] == w.documents[x]
  {
    w.(documents := w.documents[id := d])
  }

  function FailWith(w: World, id: DocId, reason: string): World
    requires id in w.documents
  {
    WithRow(w, id, w.documents[id].(status := Failed, error := Some(reason)))
  }

  /** The 64 characters that fit the column. */
  function Waybill(externalRef: string): string {
    if |externalRef| <= 64 then externalRef else externalRef[..64]
  }

  /** The waybill number arrives with the form, and only the first one is kept. */
  function Named(w: World, shipment: ShipmentId, externalRef: string): World
    requires shipment in w.shipments
  {
    var s := w.shipments[shipment];
    if externalRef != "" && s.waybill == ""
    then w.(shipments := w.shipments[shipment := s.(waybill := Waybill(externalRef))])
    else w
  }

  function Filed(w: World, id: DocId, key: FileKey, size: nat): World
    requires id in w.documents
  {
    var stored := w.(storage := w.storage[key := size]);
    WithRow(stored, id, w.documents[id].(status := Ready, s3Key := Some(key), sizeBytes := Some(size), error := None))
  }

  function PullOutcomeOf(w: World, id: DocId, reply: PullReply): PullOutcome
    requires id in w.documents
  {
    var d := w.documents[id];
    if d.shipment.None? then NoFile
    else if d.shipment.value !in w.shipments then Raised
    else if w.shipments[d.shipment.value].externalId == "" || !reply.carrier.Form? then NoFile
    else if reply.put.PutRaises? then Raised
    else FileStored
  }

  function Pulled(w: World, id: DocId, reply: PullReply): (r: World)
    requires id in w.documents
    ensures r.documents.Keys == w.documents.Keys
  {
    var d := w.documents[id];
    if !HasShipment(w, d) then w
    else if w.shipments[d.shipment.value].externalId == "" then FailWith(w, id, NO_NUMBER)
    else
      var asked := w.(carrierCalls := w.carrierCalls + 1);
      match reply.carrier
      case Refuses(reason) => FailWith(asked, id, reason)
      case NotReadyYet => asked
      case Form(size, externalRef) =>
        var key := FileKey(d.shipment.value, id, d.format);
        var named := Named(asked, d.shipment.value, externalRef);
        match reply.put
        case PutRaises(written) => if written then named.(storage := named.storage[key := size]) else named
        case PutDone => Filed(named, id, key, size)
  }

  // ----- the sweeps as functions of a batch -----

  predicate IsOverdue(d: Document, now: int) {
    now - d.createdAt > GIVE_UP_AFTER
  }

  /** One document of a pending sweep: given up by age, or asked for again. */
  function SweepOne(w: World, id: DocId, now: int, reply: PullReply): (r: World)
    requires id in w.documents
    ensures r.documents.Keys == w.documents.Keys
  {
    if IsOverdue(w.documents[id], now) then FailWith(w, id, TOO_LATE) else Pulled(w, id, reply)
  }

  predicate SweepRaises(w: World, id: DocId, now: int, reply: PullReply)
    requires id in w.documents
  {
    !IsOverdue(w.documents[id], now) && PullOutcomeOf(w, id, reply) == Raised
  }

  predicate RowsExist(w: World, ids: seq<DocId>) {
    forall i :: 0 <= i < |ids| ==> ids[i] in w.documents
  }

  function SweepUpTo(w: World, batch: seq<DocId>, now: int, replies: DocId -> PullReply, n: nat): (r: World)
    requires n <= |batch| && RowsExist(w, batch)
    ensures r.documents.Keys == w.documents.Keys
  {
    if n == 0 then w
    else SweepOne(SweepUpTo(w, batch, now, replies, n - 1), batch[n - 1], now, replies(batch[n - 1]))
  }

  /** The k-th document of the sweep does not raise. */
  predicate QuietAt(w: World, batch: seq<DocId>, now: int, replies: DocId -> PullReply, k: nat)
    requires k < |batch| && RowsExist(w, batch)
  {
    !SweepRaises(SweepUpTo(w, batch, now, replies, k), batch[k], now, replies(batch[k]))
  }

  ghost predicate SweepIsQuiet(w: World, batch: seq<DocId>, now: int, replies: DocId -> PullReply, n: nat)
    requires n <= |batch| && RowsExist(w, batch)
  {
    forall k :: 0 <= k < n ==> QuietAt(w, batch, now, replies, k)
  }

  /** The k-th document of the sweep got its file. */
  predicate FiledAt(w: World, batch: seq<DocId>, now: int, replies: DocId -> PullReply, k: nat)
    requires k < |batch| && RowsExist(w, batch)
  {
    var before := SweepUpTo(w, batch, now, replies, k);
    !IsOverdue(before.documents[batch[k]], now) && PullOutcomeOf(before, batch[k], replies(batch[k])) == FileStored
  }

  function FiledCount(w: World, batch: seq<DocId>, now: int, replies: DocId -> PullReply, n: nat): nat
    requires n <= |batch| && RowsExist(w, batch)
  {
    if n == 0 then 0
    else FiledCount(w, batch, now, replies, n - 1) + if FiledAt(w, batch, now, replies, n - 1) then 1 else 0
  }

  /** What a rolled back transaction leaves: the old rows and the new files. */
  function Lost(w: World, reached: World): World {
    w.(storage := reached.storage, carrierCalls := reached.carrierCalls)
  }

  function MarkedExpired(w: World, id: DocId): (r: World)
    requires id in w.documents
    ensures r.documents.Keys == w.documents.Keys
  {
    WithRow(w, id, w.documents[id].(s3Key := None, status := Expired))
  }

  function ExpireOne(w: World, id: DocId, key: FileKey, reply: DeleteReply): (r: World)
    requires id in w.documents
    ensures r.documents.Keys == w.documents.Keys
  {
    match reply
    case DeleteRaises(removed) => if removed then w.(storage := w.storage - {key}) else w
    case DeleteDone => MarkedExpired(w.(storage := w.storage - {key}), id)
  }

  predicate PairsExist(w: World, batch: seq<(DocId, FileKey)>) {
    forall i :: 0 <= i < |batch| ==> batch[i].0 in w.documents
  }

  function ExpireUpTo(w: World, batch: seq<(DocId, FileKey)>, replies: DocId -> DeleteReply, n: nat): (r: World)
    requires n <= |batch| && PairsExist(w, batch)
    ensures r.documents.Keys == w.documents.Keys
  {
    if n == 0 then w
    else ExpireOne(ExpireUpTo(w, batch, replies, n - 1), batch[n - 1].0, batch[n - 1].1, replies(batch[n - 1].0))
  }

  // ----- the queries -----

  predicate IsPendingBefore(d: Document, olderThan: int) {
    d.status == Pending && d.createdAt <= olderThan
  }

  ghost function PendingBefore(documents: Documents, olderThan: int): set<DocId> {
    set id | id in documents && IsPendingBefore(documents[id], olderThan)
  }

  /** A result of the ordered, limited query: the oldest matching rows, ties broken in any way. */
  ghost predicate IsPendingBatch(documents: Documents, olderThan: int, limit: nat, batch: seq<DocId>) {
    var matching := PendingBefore(documents, olderThan);
    && (forall i :: 0 <= i < |batch| ==> batch[i] in matching)
    && Distinct(batch)
    && (forall i, j :: 0 <= i < j < |batch| ==> documents[batch[i]].createdAt <= documents[batch[j]].createdAt)
    && |batch| == (if |matching| < limit then |matching| else limit)
    && (forall i, x :: 0 <= i < |batch| && x in matching && x !in batch ==>
         documents[batch[i]].createdAt <= documents[x].createdAt)
  }

  predicate IsExpirable(d: Document, shipments: Shipments, finishedBefore: int) {
    && d.status == Ready && d.s3Key.Some?
    && d.shipment.Some? && d.shipment.value in shipments
    && shipments[d.shipment.value].isFinal && shipments[d.shipment.value].finishedAt < finishedBefore
  }

  /** A result of the expiry query: at most `limit` ready files of long finished shipments, each with its key. */
  ghost predicate IsExpiryBatch(w: World, finishedBefore: int, limit: nat, batch: seq<(DocId, FileKey)>) {
    && |batch| <= limit
    && (forall i, j :: 0 <= i < j < |batch| ==> batch[i].0 != batch[j].0)
    && (forall i :: 0 <= i < |batch| ==>
         && batch[i].0 in w.documents && IsExpirable(w.documents[batch[i].0], w.shipments, finishedBefore)
         && w.documents[batch[i].0].s3Key == Some(batch[i].1))
  }

  /** The label of a shipment in a format, as `find` sees it: any one of the matching rows. */
  predicate IsLabelOf(documents: Documents, id: DocId, shipment: ShipmentId, format: Format) {
    id in documents && documents[id].shipment == Some(shipment) && documents[id].format == format
  }

  ghost predicate HasLabel(documents: Documents, shipment: ShipmentId, format: Format) {
    exists id :: IsLabelOf(documents, id, shipment, format)
  }

  /** No row and no file has used this identifier. */
  ghost predicate IsFreshId(w: World, id: DocId) {
    id !in w.documents && forall key :: key in w.storage ==> key.document != id
  }

  /** A new pending row, before the first attempt to pull it. */
  function NewRow(w: World, id: DocId, shipment: ShipmentId, format: Format, now: int): World {
    w.(documents := w.documents[id := Document(Some(shipment), format, Pending, None, now, None, None)])
  }

  function Ordered(w: World, id: DocId, shipment: ShipmentId, format: Format, now: int, reply: PullReply): World {
    Pulled(NewRow(w, id, shipment, format, now), id, reply)
  }

  /** Asking for a label: as it is if there is one, otherwise a new row that is pulled once. */
  ghost function Labelled(w: World, shipment: ShipmentId, format: Format, id: DocId, now: int, reply: PullReply): World {
    if shipment !in w.shipments || HasLabel(w.documents, shipment, format) then w
    else Ordered(w, id, shipment, format, now, reply)
  }

  /** Asking for a label raises: the shipment is unknown, or the storage does not take the file of a new label. */
  ghost predicate LabelRaises(w: World, shipment: ShipmentId, format: Format, id: DocId, now: int, reply: PullReply) {
    || shipment !in w.shipments
    || (!HasLabel(w.documents, shipment, format)
        && PullOutcomeOf(NewRow(w, id, shipment, format, now), id, reply) == Raised)
  }

  // ----- labels for a whole list -----

  ghost function LabelledUpTo(w: World, batch: seq<ShipmentId>, ids: seq<DocId>, now: int, replies: seq<PullReply>, n: nat): World
    requires n <= |batch| == |ids| == |replies|
  {
    if n == 0 then w
    else Labelled(LabelledUpTo(w, batch, ids, now, replies, n - 1), batch[n - 1], Pdf, ids[n - 1], now, replies[n - 1])
  }

  /** The k-th shipment of the list does not raise. */
  ghost predicate LabelQuietAt(w: World, batch: seq<ShipmentId>, ids: seq<DocId>, now: int, replies: seq<PullReply>, k: nat)
    requires k < |batch| == |ids| == |replies|
  {
    !LabelRaises(LabelledUpTo(w, batch, ids, now, replies, k), batch[k], Pdf, ids[k], now, replies[k])
  }

  ghost predicate ListIsQuiet(w: World, batch: seq<ShipmentId>, ids: seq<DocId>, now: int, replies: seq<PullReply>, n: nat)
    requires n <= |batch| == |ids| == |replies|
  {
    forall k :: 0 <= k < n ==> LabelQuietAt(w, batch, ids, now, replies, k)
  }

  lemma OneMoreInTheList(
      w: World, before: World, batch: seq<ShipmentId>, ids: seq<DocId>, now: int, replies: seq<PullReply>, k: nat)
    requires k < |batch| == |ids| == |replies| && before == LabelledUpTo(w, batch, ids, now, replies, k)
    requires ListIsQuiet(w, batch, ids, now, replies, k)
    ensures LabelledUpTo(w, batch, ids, now, replies, k + 1) == Labelled(before, batch[k], Pdf, ids[k], now, replies[k])
    ensures LabelQuietAt(w, batch, ids, now, replies, k) <==> !LabelRaises(before, batch[k], Pdf, ids[k], now, replies[k])
    ensures ListIsQuiet(w, batch, ids, now, replies, k + 1) <==> LabelQuietAt(w, batch, ids, now, replies, k)
  {
  }

  /** A new identifier for each possible row of the list, from one position on. */
  ghost predicate HasIds(w: World, batch: seq<ShipmentId>, ids: seq<DocId>, from: nat) {
    && |ids| == |batch| && Distinct(ids)
    && (forall i :: from <= i < |ids| ==> IsFreshId(w, ids[i]))
  }

  lemma LabelKeepsTheRestFresh(w: World, batch: seq<ShipmentId>, ids: seq<DocId>, now: int, reply: PullReply, n: nat)
    requires HasIds(w, batch, ids, n) && n < |batch|
    ensures HasIds(Labelled(w, batch[n], Pdf, ids[n], now, reply), batch, ids, n + 1)
  {
    var r := Labelled(w, batch[n], Pdf, ids[n], now, reply);
    forall i | n + 1 <= i < |ids|
      ensures IsFreshId(r, ids[i])
    {
      assert ids[i] != ids[n] && IsFreshId(w, ids[i]);
    }
  }

  function StatusOf(documents: Documents, id: DocId): Status {
    if id in documents then documents[id].status else Failed
  }

  function StatusesOf(documents: Documents, found: seq<DocId>): seq<Status> {
    seq(|found|, k requires 0 <= k < |found| => StatusOf(documents, found[k]))
  }

  /** How many statuses are ready, pending and neither. */
  ghost function Counted(statuses: seq<Status>): LabelCounts {
    var m := multiset(statuses);
    LabelCounts(m[Ready], m[Pending], m[Failed] + m[Expired])
  }

  /** The counts are those of one label for each of the first shipments of the list. */
  ghost predicate IsReport(documents: Documents, batch: seq<ShipmentId>, found: seq<DocId>, counts: LabelCounts) {
    && |found| <= |batch|
    && (forall k :: 0 <= k < |found| ==> IsLabelOf(documents, found[k], batch[k], Pdf))
    && counts == Counted(StatusesOf(documents, found))
  }

  /** One label more is counted, and rows that only gain neighbours are counted as before. */
  lemma OneMoreLabel(documents: Documents, more: Documents, batch: seq<ShipmentId>, found: seq<DocId>, id: DocId, counts: LabelCounts)
    requires IsReport(documents, batch, found, counts) && |found| < |batch| && IsLabelOf(more, id, batch[|found|], Pdf)
    requires forall x :: x in documents ==> x in more && more[x] == documents[x]
    ensures IsReport(more, batch, found + [id], counts.Plus(more[id].status))
  {
    var before, after := StatusesOf(documents, found), StatusesOf(more, found + [id]);
    assert after == before + [more[id].status];
    forall k | 0 <= k < |found| + 1
      ensures IsLabelOf(more, (found + [id])[k], batch[k], Pdf)
    {
      assert k < |found| ==> IsLabelOf(documents, found[k], batch[k], Pdf);
    }
  }

  // ----- the service over its tables -----

  /** The table, the shipments it refers to, and the object storage beside them. */
  class DocumentService {
    var documents: Documents
    var shipments: Shipments
    var storage: Storage
    var carrierCalls: nat

    constructor (shipments: Shipments)
      ensures Now() == World(map[], shipments, map[], 0)
    {
      this.documents, this.shipments, this.storage, this.carrierCalls := map[], shipments, map[], 0;
    }

    function Now(): World
      reads this
    {
      World(documents, shipments, storage, carrierCalls)
    }

    method Fail(id: DocId, reason: string)
      requires id in documents
      modifies this`documents
      ensures Now() == FailWith(old(Now()), id, reason)
    {
      documents := documents[id := documents[id].(status := Failed, error := Some(reason))];
    }

    /** Ask for one form; a refusal turns the document off, a storage failure is raised to the caller. */
    method Pull(id: DocId, reply: PullReply) returns (outcome: PullOutcome)
      requires id in documents
      modifies this
      ensures Now() == Pulled(old(Now()), id, reply)
      ensures outcome == PullOutcomeOf(old(Now()), id, reply)
    {
      var document := documents[id];
      if document.shipment.None? {
        return NoFile;
      }
      if document.shipment.value !in shipments {
        return Raised;
      }
      var shipment := shipments[document.shipment.value];
      if shipment.externalId == "" {
        Fail(id, NO_NUMBER);
        return NoFile;
      }
      carrierCalls := carrierCalls + 1;
      match reply.carrier {
        case Refuses(reason) =>
          Fail(id, reason);
          return NoFile;
        case NotReadyYet =>
          return NoFile;
        case Form(size, externalRef) =>
          if externalRef != "" && shipment.waybill == "" {
            shipments := shipments[document.shipment.value := shipment.(waybill := Waybill(externalRef))];
          }
          var key := FileKey(document.shipment.value, id, document.format);
          if reply.put.PutRaises? {
            if reply.put.written {
              storage := storage[key := size];
            }
            return Raised;
          }
          storage := storage[key := size];
          documents := documents[id := document.(status := Ready, s3Key := Some(key), sizeBytes := Some(size), error := None)];
          return FileStored;
      }
    }

    /** Order a label, or give back the one already ordered, whatever became of it; nothing when it raises. */
    method OrderOne(shipment: ShipmentId, format: Format, id: DocId, now: int, reply: PullReply) returns (found: Option<DocId>)
      requires IsFreshId(Now(), id)
      modifies this
      ensures Now() == Labelled(old(Now()), shipment, format, id, now, reply)
      ensures found.None? <==> LabelRaises(old(Now()), shipment, format, id, now, reply)
      ensures found.Some? ==> IsLabelOf(documents, found.value, shipment, format)
      ensures forall x :: x in old(documents) ==> x in documents && documents[x] == old(documents)[x]
    {
      if shipment !in shipments {
        return None;
      }
      var existing := set x | x in documents && IsLabelOf(documents, x, shipment, format);
      if existing != {} {
        var first :| first in existing;
        return Some(first);
      }
      assert forall x :: IsLabelOf(documents, x, shipment, format) ==> x in existing;
      documents := documents[id := Document(Some(shipment), format, Pending, None, now, None, None)];
      var outcome := Pull(id, reply);
      PulledKeepsIdentity(NewRow(old(Now()), id, shipment, format, now), id, reply);
      return if outcome == Raised then None else Some(id);
    }

    /** One request for a label, in one transaction: an exception undoes the rows but not the file. */
    method Label(shipment: ShipmentId, format: LabelFormat, id: DocId, now: int, reply: PullReply)
      returns (found: Option<DocId>)
      requires IsFreshId(Now(), id)
      modifies this
      ensures found.None? <==> LabelRaises(old(Now()), shipment, StoredFormat(format), id, now, reply)
      ensures found.Some? ==> Now() == Labelled(old(Now()), shipment, StoredFormat(format), id, now, reply)
      ensures found.Some? ==> IsLabelOf(documents, found.value, shipment, StoredFormat(format))
      ensures found.None? ==>
                Now() == Lost(old(Now()), Labelled(old(Now()), shipment, StoredFormat(format), id, now, reply))
    {
      var rows, parcels := documents, shipments;
      found := OrderOne(shipment, StoredFormat(format), id, now, reply);
      if found.None? {
        documents, shipments := rows, parcels;
      }
    }

    /** The loop over a list: how many labels are ready, pending and neither; it stops at the first that raises. */
    method LabelBatch(batch: seq<ShipmentId>, ids: seq<DocId>, now: int, replies: seq<PullReply>)
      returns (raised: bool, counts: LabelCounts, ghost reached: nat, ghost found: seq<DocId>)
      requires HasIds(Now(), batch, ids, 0) && |replies| == |batch|
      modifies this
      ensures reached <= |batch| && Now() == LabelledUpTo(old(Now()), batch, ids, now, replies, reached)
      ensures raised ==> reached > 0 && !LabelQuietAt(old(Now()), batch, ids, now, replies, reached - 1)
      ensures reached > 0 ==> ListIsQuiet(old(Now()), batch, ids, now, replies, reached - 1)
      ensures !raised ==> reached == |batch| && ListIsQuiet(old(Now()), batch, ids, now, replies, |batch|)
      ensures !raised ==> |found| == |batch| && IsReport(documents, batch, found, counts)
    {
      ghost var start := Now();
      raised, counts, reached, found := false, LabelCounts(0, 0, 0), 0, [];
      for k := 0 to |batch|
        invariant reached == k && Now() == LabelledUpTo(start, batch, ids, now, replies, k)
        invariant HasIds(Now(), batch, ids, k) && ListIsQuiet(start, batch, ids, now, replies, k)
        invariant |found| == k && IsReport(documents, batch, found, counts)
      {
        ghost var before := Now();
        LabelKeepsTheRestFresh(before, batch, ids, now, replies[k], k);
        var document := OrderOne(batch[k], Pdf, ids[k], now, replies[k]);
        OneMoreInTheList(start, before, batch, ids, now, replies, k);
        reached := k + 1;
        if document.None? {
          return true, counts, reached, found;
        }
        OneMoreLabel(before.documents, documents, batch, found, document.value, counts);
        found := found + [document.value];
        counts := counts.Plus(documents[document.value].status);
      }
    }

    /** One press for a whole list, in one transaction: an exception undoes every row of the list but no file. */
    method OrderLabels(batch: seq<ShipmentId>, ids: seq<DocId>, now: int, replies: seq<PullReply>)
      returns (counts: Option<LabelCounts>, ghost reached: nat, ghost found: seq<DocId>)
      requires HasIds(Now(), batch, ids, 0) && |replies| == |batch|
      modifies this
      ensures reached <= |batch|
      ensures counts.Some? <==> ListIsQuiet(old(Now()), batch, ids, now, replies, |batch|)
      ensures counts.Some? ==> reached == |batch| == |found| && IsReport(documents, batch, found, counts.value)
      ensures counts.Some? ==> Now() == LabelledUpTo(old(Now()), batch, ids, now, replies, |batch|)
      ensures counts.None? ==> reached > 0 && !LabelQuietAt(old(Now()), batch, ids, now, replies, reached - 1)
                               && ListIsQuiet(old(Now()), batch, ids, now, replies, reached - 1)
      ensures counts.None? ==> Now() == Lost(old(Now()), LabelledUpTo(old(Now()), batch, ids, now, replies, reached))
    {
      var rows, parcels := documents, shipments;
      var raised, counted;
      raised, counted, reached, found := LabelBatch(batch, ids, now, replies);
      if raised {
        documents, shipments := rows, parcels;
        return None, reached, found;
      }
      return Some(counted), reached, found;
    }

    /** The oldest pending documents, at most `limit` of them. */
    method PendingDocuments(olderThan: int, limit: nat) returns (batch: seq<DocId>)
      ensures IsPendingBatch(documents, olderThan, limit, batch)
    {
      var remaining := set id | id in documents && IsPendingBefore(documents[id], olderThan);
      batch := [];
      while |batch| < limit && remaining != {}
        invariant |batch| <= limit && AreTaken(documents, PendingBefore(documents, olderThan), batch, remaining)
        decreases remaining
      {
        OldestExists(documents, remaining);
        var oldest :| oldest in remaining && IsOldest(documents, remaining, oldest);
        OneMoreTaken(documents, PendingBefore(documents, olderThan), batch, remaining, oldest);
        remaining := remaining - {oldest};
        batch := batch + [oldest];
      }
    }

    /** One document of the sweep: given up by age, or asked for again. */
    method SweepDocument(id: DocId, now: int, reply: PullReply) returns (outcome: PullOutcome)
      requires id in documents
      modifies this
      ensures Now() == SweepOne(old(Now()), id, now, reply)
      ensures outcome == Raised <==> SweepRaises(old(Now()), id, now, reply)
      ensures outcome == FileStored <==>
                !IsOverdue(old(Now()).documents[id], now) && PullOutcomeOf(old(Now()), id, reply) == FileStored
    {
      if IsOverdue(documents[id], now) {
        Fail(id, TOO_LATE);
        return NoFile;
      }
      outcome := Pull(id, reply);
    }

    /** The loop of a pending sweep: it stops at the first document that raises. */
    method SweepBatch(now: int, batch: seq<DocId>, replies: DocId -> PullReply)
      returns (raised: bool, pulled: nat, ghost reached: nat)
      requires RowsExist(Now(), batch)
      modifies this
      ensures reached <= |batch| && Now() == SweepUpTo(old(Now()), batch, now, replies, reached)
      ensures raised ==> reached > 0 && !QuietAt(old(Now()), batch, now, replies, reached - 1)
                         && SweepIsQuiet(old(Now()), batch, now, replies, reached - 1)
      ensures !raised ==> reached == |batch| && SweepIsQuiet(old(Now()), batch, now, replies, |batch|)
      ensures !raised ==> pulled == FiledCount(old(Now()), batch, now, replies, |batch|)
    {
      ghost var start := Now();
      raised, pulled, reached := false, 0, 0;
      for k := 0 to |batch|
        invariant reached == k && Now() == SweepUpTo(start, batch, now, replies, k)
        invariant SweepIsQuiet(start, batch, now, replies, k)
        invariant pulled == FiledCount(start, batch, now, replies, k)
      {
        var outcome := SweepDocument(batch[k], now, replies(batch[k]));
        reached := k + 1;
        if outcome == Raised {
          return true, pulled, reached;
        }
        assert QuietAt(start, batch, now, replies, k);
        assert outcome == FileStored <==> FiledAt(start, batch, now, replies, k);
        if outcome == FileStored {
          pulled := pulled + 1;
        }
      }
    }

    /** One pending sweep over its batch, in one transaction: an exception undoes the rows but not the files. */
    method FetchPending(now: int, batch: seq<DocId>, replies: DocId -> PullReply) returns (pulled: Option<nat>, ghost reached: nat)
      requires IsPendingBatch(documents, now - PENDING_DELAY, PENDING_BATCH, batch)
      modifies this
      ensures reached <= |batch| && RowsExist(old(Now()), batch)
      ensures pulled.Some? <==> SweepIsQuiet(old(Now()), batch, now, replies, |batch|)
      ensures pulled.Some? ==> reached == |batch|
      ensures pulled.Some? ==> Now() == SweepUpTo(old(Now()), batch, now, replies, |batch|)
      ensures pulled.Some? ==> pulled.value == FiledCount(old(Now()), batch, now, replies, |batch|)
      ensures pulled.None? ==> reached > 0 && !QuietAt(old(Now()), batch, now, replies, reached - 1)
                               && SweepIsQuiet(old(Now()), batch, now, replies, reached - 1)
      ensures pulled.None? ==> Now() == Lost(old(Now()), SweepUpTo(old(Now()), batch, now, replies, reached))
    {
      var rows, parcels := documents, shipments;
      var raised, count;
      raised, count, reached := SweepBatch(now, batch, replies);
      if raised {
        documents, shipments := rows, parcels;
        return None, reached;
      }
      return Some(count), reached;
    }

    /** Delete the files of the batch; a file the storage did not delete keeps its row as it is. */
    method ExpireFiles(now: int, batch: seq<(DocId, FileKey)>, replies: DocId -> DeleteReply) returns (expired: nat)
      requires IsExpiryBatch(Now(), now - FILE_GRACE, EXPIRY_BATCH, batch)
      modifies this
      ensures PairsExist(old(Now()), batch) && Now() == ExpireUpTo(old(Now()), batch, replies, |batch|)
      ensures expired == Deleted(batch, replies, |batch|)
    {
      ghost var start := Now();
      expired := 0;
      for k := 0 to |batch|
        invariant documents.Keys == start.documents.Keys
        invariant Now() == ExpireUpTo(start, batch, replies, k)
        invariant expired == Deleted(batch, replies, k)
      {
        var (id, key) := batch[k];
        match replies(id) {
          case DeleteRaises(removed) =>
            if removed {
              storage := storage - {key};
            }
          case DeleteDone =>
            storage := storage - {key};
            documents := documents[id := documents[id].(s3Key := None, status := Expired)];
            expired := expired + 1;
        }
      }
    }
  }

  /** What a press reports: labels that are ready, still pending, and neither. */
  datatype LabelCounts = LabelCounts(ready: nat, pending: nat, failed: nat) {
    function Sum(): nat {
      ready + pending + failed
    }

    function Plus(status: Status): LabelCounts {
      if status == Ready then this.(ready := ready + 1)
      else if status == Pending then this.(pending := pending + 1)
      else this.(failed := failed + 1)
    }
  }

  /** How many of the first n deletions the storage confirmed. */
  function Deleted(batch: seq<(DocId, FileKey)>, replies: DocId -> DeleteReply, n: nat): nat
    requires n <= |batch|
  {
    if n == 0 then 0
    else Deleted(batch, replies, n - 1) + if replies(batch[n - 1].0).DeleteDone? then 1 else 0
  }

  /** Pulling a form changes what its row says of the form, never whose form it is. */
  lemma PulledKeepsIdentity(w: World, id: DocId, reply: PullReply)
    requires id in w.documents
    ensures var d, d' := w.documents[id], Pulled(w, id, reply).documents[id];
            d'.shipment == d.shipment && d'.format == d.format && d'.createdAt == d.createdAt
    ensures forall x :: x in w.documents && x != id ==> Pulled(w, id, reply).documents[x] == w.documents[x]
  {
  }

  /** The first of the matching documents in order of age, and the ones that remain. */
  ghost predicate AreTaken(documents: Documents, matching: set<DocId>, batch: seq<DocId>, remaining: set<DocId>) {
    && matching <= documents.Keys && remaining <= matching && Distinct(batch)
    && (forall i :: 0 <= i < |batch| ==> batch[i] in matching && batch[i] !in remaining)
    && (forall id :: id in matching && id !in remaining ==> id in batch)
    && |batch| + |remaining| == |matching|
    && (forall i, j :: 0 <= i < j < |batch| ==> documents[batch[i]].createdAt <= documents[batch[j]].createdAt)
    && (forall i, x :: 0 <= i < |batch| && x in remaining ==> documents[batch[i]].createdAt <= documents[x].createdAt)
  }

  lemma OneMoreTaken(documents: Documents, matching: set<DocId>, batch: seq<DocId>, remaining: set<DocId>, oldest: DocId)
    requires AreTaken(documents, matching, batch, remaining) && oldest in remaining && IsOldest(documents, remaining, oldest)
    ensures AreTaken(documents, matching, batch + [oldest], remaining - {oldest})
  {
    var more := batch + [oldest];
    forall id | id in matching && id !in remaining - {oldest}
      ensures id in more
    {
      assert id == oldest || id in batch;
    }
  }

  predicate IsOldest(documents: Documents, ids: set<DocId>, oldest: DocId)
    requires oldest in documents && forall id :: id in ids ==> id in documents
  {
    forall x :: x in ids ==> documents[oldest].createdAt <= documents[x].createdAt
  }

  lemma {:induction false} OldestExists(documents: Documents, ids: set<DocId>)
    requires ids != {} && forall id :: id in ids ==> id in documents
    ensures exists oldest :: oldest in ids && IsOldest(documents, ids, oldest)
  {
    var id :| id in ids;
    if ids != {id} {
      OldestExists(documents, ids - {id});
      var best :| best in ids - {id} && IsOldest(documents, ids - {id}, best);
      var winner := if documents[id].createdAt <= documents[best].createdAt then id else best;
      assert forall x :: x in ids ==> x == id || x in ids - {id};
      assert winner in ids && IsOldest(documents, ids, winner);
    }
  }
}
