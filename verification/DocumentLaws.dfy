/** What becomes of one form when it is asked for: told on the columns of its row, its file and its shipment. */
module DocumentLaws {
  import opened Options
  import opened Documents

  // ----- the cases, as a caller sees them -----

  predicate IsTooOld(d: Document, now: int) {
    now - d.createdAt > 86400
  }

  /** The carrier is asked for the form: the shipment exists and has a number there. */
  predicate IsAsked(w: World, d: Document) {
    d.shipment.Some? && d.shipment.value in w.shipments && w.shipments[d.shipment.value].externalId != ""
  }

  /** The shipment exists and has no number at the carrier. */
  predicate LacksNumber(w: World, d: Document) {
    d.shipment.Some? && d.shipment.value in w.shipments && w.shipments[d.shipment.value].externalId == ""
  }

  /** The carrier had the form, and the storage took it. */
  predicate Arrived(reply: PullReply) {
    reply.carrier.Form? && reply.put.PutDone?
  }

  // ----- the row -----

  /** The row stays exactly as it is. */
  ghost predicate RowStays(w: World, r: World, id: DocId)
    requires id in w.documents
  {
    id in r.documents && r.documents[id] == w.documents[id]
  }

  /** The row is given up for this reason; everything else it says stays. */
  ghost predicate RowFails(w: World, r: World, id: DocId, reason: string)
    requires id in w.documents
  {
    && id in r.documents
    && r.documents[id] == Document(
         w.documents[id].shipment, w.documents[id].format, Failed, w.documents[id].s3Key, w.documents[id].createdAt,
         w.documents[id].sizeBytes, Some(reason))
  }

  /** The row has its form: under a key of its own, with the size, and without an error. */
  ghost predicate RowIsFiled(w: World, r: World, id: DocId, size: nat)
    requires id in w.documents
  {
    var d := w.documents[id];
    && id in r.documents && d.shipment.Some?
    && r.documents[id] == Document(
         d.shipment, d.format, Ready, Some(FileKey(d.shipment.value, id, d.format)), d.createdAt, Some(size), None)
    && r.storage == w.storage[FileKey(d.shipment.value, id, d.format) := size]
  }

  /**
   What a sweep does to a pending row. It is given up when it is a day old, when its shipment has no number, and when
   the carrier refuses, each with its own reason. It is filed when the form arrived. A form that is not ready yet, a
   shipment that is not there, and a file that the storage did not take leave it pending as it was, for a later sweep.
   */
  lemma WhatASweepDoesToARow(w: World, id: DocId, now: int, reply: PullReply)
    requires id in w.documents && w.documents[id].status == Pending
    ensures var d, r := w.documents[id], SweepOne(w, id, now, reply);
            && (RowStays(w, r, id) <==>
                 !IsTooOld(d, now) && !LacksNumber(w, d)
                 && (IsAsked(w, d) ==> reply.carrier.NotReadyYet? || (reply.carrier.Form? && reply.put.PutRaises?)))
            && (r.documents[id].status == Failed <==>
                 IsTooOld(d, now) || LacksNumber(w, d) || (IsAsked(w, d) && reply.carrier.Refuses?))
            && (r.documents[id].status == Ready <==> !IsTooOld(d, now) && IsAsked(w, d) && Arrived(reply))
            && (IsTooOld(d, now) ==> RowFails(w, r, id, "the carrier did not make the document within a day"))
            && (!IsTooOld(d, now) && LacksNumber(w, d) ==> RowFails(w, r, id, "the shipment has no number at the carrier"))
            && (!IsTooOld(d, now) && IsAsked(w, d) && reply.carrier.Refuses? ==> RowFails(w, r, id, reply.carrier.reason))
            && (!IsTooOld(d, now) && IsAsked(w, d) && Arrived(reply) ==> RowIsFiled(w, r, id, reply.carrier.size))
  {
  }

  /** What an order does to the row it adds: the same, with no day to wait. */
  lemma WhatAnOrderDoesToItsRow(w: World, id: DocId, shipment: ShipmentId, format: Format, now: int, reply: PullReply)
    requires IsFreshId(w, id) && shipment in w.shipments
    ensures var r := Ordered(w, id, shipment, format, now, reply);
            var hasNumber := w.shipments[shipment].externalId != "";
            && id in r.documents
            && r.documents[id].(status := Pending, s3Key := None, sizeBytes := None, error := None)
               == Document(Some(shipment), format, Pending, None, now, None, None)
            && (r.documents[id].status == Pending <==>
                 hasNumber && (reply.carrier.NotReadyYet? || (reply.carrier.Form? && reply.put.PutRaises?)))
            && (r.documents[id].status == Failed <==> !hasNumber || reply.carrier.Refuses?)
            && (r.documents[id].status == Failed ==>
                 r.documents[id].error
                 == Some(if !hasNumber then "the shipment has no number at the carrier" else reply.carrier.reason))
            && (r.documents[id].status == Ready <==> hasNumber && Arrived(reply))
            && (r.documents[id].status == Ready ==> RowIsFiled(NewRow(w, id, shipment, format, now), r, id, reply.carrier.size))
  {
  }

  /** For example, a label that the carrier promised five minutes ago waits on. */
  lemma PromisedFormIsWaitedFor(w: World, id: DocId, reply: PullReply)
    requires id in w.documents && w.documents[id] == Document(Some(7), Pdf, Pending, None, 0, None, None)
    requires 7 in w.shipments && w.shipments[7].externalId == "A-7" && reply.carrier.NotReadyYet?
    ensures SweepOne(w, id, 300, reply).documents[id] == w.documents[id]
  {
  }

  // ----- the file, the calls and the shipment -----

  /** The first characters of a text, as many as the column takes. */
  predicate IsCutTo(cut: string, text: string, limit: nat) {
    cut <= text && |cut| <= limit && (|cut| == limit || cut == text)
  }

  /** The number of the waybill is learnt from this answer: the carrier sent one with the form, and none was known. */
  predicate LearnsWaybill(w: World, d: Document, reply: PullReply)
    requires IsAsked(w, d)
  {
    reply.carrier.Form? && reply.carrier.externalRef != "" && w.shipments[d.shipment.value].waybill == ""
  }

  /**
   Beside the row: no other row changes, the carrier is asked once or not at all, and the storage gains the file when it
   took it, also where it then raised.
   */
  lemma WhatAPullDoesBesideTheRow(w: World, id: DocId, reply: PullReply)
    requires id in w.documents
    ensures var d, r := w.documents[id], Pulled(w, id, reply);
            && r.carrierCalls == w.carrierCalls + (if IsAsked(w, d) then 1 else 0)
            && (forall other :: other in w.documents && other != id ==> other in r.documents && r.documents[other] == w.documents[other])
            && r.storage == if IsAsked(w, d) && reply.carrier.Form? && (reply.put.PutDone? || reply.put.written)
                            then w.storage[FileKey(d.shipment.value, id, d.format) := reply.carrier.size] else w.storage
  {
    PulledKeepsIdentity(w, id, reply);
  }

  /**
   Of the shipments only the waybill of this one can change: to the first 64 characters of the number that came with
   the form, if none was known, whether or not the file was then taken.
   */
  lemma WhatAPullDoesToShipments(w: World, id: DocId, reply: PullReply)
    requires id in w.documents
    ensures var d, r := w.documents[id], Pulled(w, id, reply);
            && r.shipments.Keys == w.shipments.Keys
            && (forall s :: s in w.shipments && Some(s) != d.shipment ==> r.shipments[s] == w.shipments[s])
            && (!IsAsked(w, d) ==> r.shipments == w.shipments)
            && (IsAsked(w, d) ==>
                 var before, after := w.shipments[d.shipment.value], r.shipments[d.shipment.value];
                 if LearnsWaybill(w, d, reply)
                 then after.(waybill := "") == before && IsCutTo(after.waybill, reply.carrier.externalRef, 64)
                 else after == before)
  {
  }

  /** A sweep asks nobody about a document that is a day old, and is a pull for every other one. */
  lemma WhatASweepDoesBesideTheRow(w: World, id: DocId, now: int, reply: PullReply)
    requires id in w.documents
    ensures IsTooOld(w.documents[id], now) ==>
              var r := SweepOne(w, id, now, reply);
              r.shipments == w.shipments && r.storage == w.storage && r.carrierCalls == w.carrierCalls
    ensures !IsTooOld(w.documents[id], now) ==> SweepOne(w, id, now, reply) == Pulled(w, id, reply)
  {
  }

  /** What the caller of a pull learns: whether the file is there, and that a missing shipment or a storage failure raises. */
  lemma WhatAPullReports(w: World, id: DocId, reply: PullReply)
    requires id in w.documents
    ensures var d := w.documents[id];
            && (PullOutcomeOf(w, id, reply) == FileStored <==> IsAsked(w, d) && Arrived(reply))
            && (PullOutcomeOf(w, id, reply) == Raised <==>
                 || (d.shipment.Some? && d.shipment.value !in w.shipments)
                 || (IsAsked(w, d) && reply.carrier.Form? && reply.put.PutRaises?))
  {
  }

  // ----- deleting -----

  /** Deleting a file: confirmed, the row is expired without a key; refused, the row stays, whether the file does or not. */
  lemma WhatAnExpiryDoes(w: World, id: DocId, key: FileKey, reply: DeleteReply)
    requires id in w.documents
    ensures var d, r := w.documents[id], ExpireOne(w, id, key, reply);
            && r.shipments == w.shipments && r.carrierCalls == w.carrierCalls
            && (forall other :: other in w.documents && other != id ==> other in r.documents && r.documents[other] == w.documents[other])
            && id in r.documents
            && r.documents[id] == (if reply.DeleteDone?
                                   then Document(d.shipment, d.format, Expired, None, d.createdAt, d.sizeBytes, d.error) else d)
            && (forall k :: k in r.storage <==> k in w.storage && (k != key || (reply.DeleteRaises? && !reply.removed)))
  {
  }

  /** A sweep counts a document when it made it ready, an expiry when it made it expired. */
  lemma WhatASweepCounts(w: World, batch: seq<DocId>, now: int, replies: DocId -> PullReply, k: nat)
    requires RowsExist(w, batch) && k < |batch| && SweepUpTo(w, batch, now, replies, k).documents[batch[k]].status == Pending
    ensures FiledCount(w, batch, now, replies, k + 1) - FiledCount(w, batch, now, replies, k)
            == if SweepUpTo(w, batch, now, replies, k + 1).documents[batch[k]].status == Ready then 1 else 0
    ensures FiledCount(w, batch, now, replies, 0) == 0
  {
    FiledMeansReady(SweepUpTo(w, batch, now, replies, k), batch[k], now, replies(batch[k]));
  }

  lemma FiledMeansReady(w: World, id: DocId, now: int, reply: PullReply)
    requires id in w.documents && w.documents[id].status == Pending
    ensures !IsOverdue(w.documents[id], now) && PullOutcomeOf(w, id, reply) == FileStored <==>
              SweepOne(w, id, now, reply).documents[id].status == Ready
  {
  }

  lemma WhatAnExpiryCounts(w: World, batch: seq<(DocId, FileKey)>, replies: DocId -> DeleteReply, k: nat)
    requires PairsExist(w, batch) && k < |batch| && ExpireUpTo(w, batch, replies, k).documents[batch[k].0].status == Ready
    ensures Deleted(batch, replies, k + 1) - Deleted(batch, replies, k)
            == if ExpireUpTo(w, batch, replies, k + 1).documents[batch[k].0].status == Expired then 1 else 0
    ensures Deleted(batch, replies, 0) == 0
  {
  }

  /** Asked for again are the pending forms two minutes after they were ordered, in the order of their age. */
  lemma WhichFormsAreDue(documents: Documents, now: int, batch: seq<DocId>, i: nat, j: nat)
    requires IsPendingBatch(documents, now - PENDING_DELAY, PENDING_BATCH, batch) && i < j < |batch|
    ensures batch[i] in documents && batch[j] in documents && batch[i] != batch[j] && |batch| <= 50
    ensures documents[batch[i]].status == Pending && documents[batch[i]].createdAt + 120 <= now
    ensures documents[batch[i]].createdAt <= documents[batch[j]].createdAt
  {
  }

  /** Deleted are the files of shipments that have been finished for more than thirty days. */
  lemma WhichFilesExpire(w: World, now: int, batch: seq<(DocId, FileKey)>, i: nat)
    requires IsExpiryBatch(w, now - FILE_GRACE, EXPIRY_BATCH, batch) && i < |batch|
    ensures batch[i].0 in w.documents && |batch| <= 200
    ensures var d := w.documents[batch[i].0];
            && d.status == Ready && d.s3Key == Some(batch[i].1)
            && d.shipment.Some? && d.shipment.value in w.shipments
            && w.shipments[d.shipment.value].isFinal && w.shipments[d.shipment.value].finishedAt + 2592000 < now
  {
  }

  /** The forms in which a label can be ordered: three sheets of one kind, and the printer's language. */
  lemma WhatAFormatIsStoredAs(f: LabelFormat)
    ensures StoredFormat(f) == Zpl <==> f == ZplLabel
  {
  }

  /** The delays of the service, in seconds: two minutes, a day, thirty days; and its batches. */
  lemma DelaysAre()
    ensures PENDING_DELAY == 120 && GIVE_UP_AFTER == 86400 && FILE_GRACE == 2592000
    ensures PENDING_BATCH == 50 && EXPIRY_BATCH == 200
  {
  }
}
