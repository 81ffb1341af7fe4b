/**
 One press for the labels of a whole list, committed or lost, and the press after it: what each may add to the
 rows and files, and which of them ask a carrier.
 */
module LabelLists {
  import opened Collections
  import opened Options
  import opened Documents
  import opened DocumentSweeps

  // ----- what ordering labels may change -----

  /** New rows under unused identifiers, files of new rows only, first waybill numbers, and nothing else. */
  ghost predicate OnlyAdds(w: World, r: World, at: int) {
    && (forall x :: x in w.documents ==> x in r.documents && r.documents[x] == w.documents[x])
    && (forall x :: x in r.documents && x !in w.documents ==>
         IsFreshId(w, x) && r.documents[x].createdAt == at && Handled(r, x))
    && w.storage.Keys <= r.storage.Keys
    && (forall key :: key in r.storage && key !in w.storage ==> key.document !in w.documents && OwnKey(r, key))
    && WaybillsKept(w, r)
  }

  lemma AddsNothing(w: World, at: int)
    ensures OnlyAdds(w, w, at)
  {
  }

  lemma OnlyAddsTwice(a: World, b: World, c: World, at: int)
    requires OnlyAdds(a, b, at) && OnlyAdds(b, c, at)
    ensures OnlyAdds(a, c, at)
  {
  }

  lemma PulledOnlyAdds(w: World, shipment: ShipmentId, format: Format, id: DocId, now: int, reply: PullReply)
    requires IsFreshId(w, id)
    ensures OnlyAdds(w, Ordered(w, id, shipment, format, now, reply), now)
  {
    var added := NewRow(w, id, shipment, format, now);
    SweepOneTouchesOnly(added, id, now, reply);
    assert !IsOverdue(added.documents[id], now);
  }

  lemma LabelledOnlyAdds(w: World, shipment: ShipmentId, format: Format, id: DocId, now: int, reply: PullReply)
    requires IsFreshId(w, id)
    ensures OnlyAdds(w, Labelled(w, shipment, format, id, now, reply), now)
  {
    AddsNothing(w, now);
    PulledOnlyAdds(w, shipment, format, id, now, reply);
  }

  /** The only label that is new is the one asked for, and only when there was none. */
  lemma LabelledIs(w: World, shipment: ShipmentId, format: Format, id: DocId, now: int, reply: PullReply)
    requires IsFreshId(w, id)
    ensures var r := Labelled(w, shipment, format, id, now, reply);
            && (forall x, s, f :: IsLabelOf(w.documents, x, s, f) ==> IsLabelOf(r.documents, x, s, f))
            && (forall x, s, f :: IsLabelOf(r.documents, x, s, f) && !IsLabelOf(w.documents, x, s, f) ==>
                  x == id && s == shipment && f == format && !HasLabel(w.documents, shipment, format))
            && (shipment in w.shipments ==> HasLabel(r.documents, shipment, format))
  {
    var r := Labelled(w, shipment, format, id, now, reply);
    if shipment in w.shipments && !HasLabel(w.documents, shipment, format) {
      PulledKeepsIdentity(NewRow(w, id, shipment, format, now), id, reply);
      assert IsLabelOf(r.documents, id, shipment, format);
    }
  }

  /** At most one label for each shipment and format. */
  ghost predicate OneLabelEach(w: World) {
    forall i, j, shipment, format ::
      IsLabelOf(w.documents, i, shipment, format) && IsLabelOf(w.documents, j, shipment, format) ==> i == j
  }

  lemma LabelledKeepsOne(w: World, shipment: ShipmentId, format: Format, id: DocId, now: int, reply: PullReply)
    requires IsFreshId(w, id) && OneLabelEach(w)
    ensures OneLabelEach(Labelled(w, shipment, format, id, now, reply))
  {
    var r := Labelled(w, shipment, format, id, now, reply);
    LabelledIs(w, shipment, format, id, now, reply);
    forall i, j, s, f | IsLabelOf(r.documents, i, s, f) && IsLabelOf(r.documents, j, s, f)
      ensures i == j
    {
      assert IsLabelOf(w.documents, i, s, f) || i == id;
      assert IsLabelOf(w.documents, j, s, f) || j == id;
    }
  }

  /** The list up to n: what its labels added, and the identifiers that are still unused. */
  lemma {:induction false} ListOnlyAdds(w: World, batch: seq<ShipmentId>, ids: seq<DocId>, now: int, replies: seq<PullReply>, n: nat)
    requires HasIds(w, batch, ids, 0) && |replies| == |batch| && n <= |batch|
    ensures var r := LabelledUpTo(w, batch, ids, now, replies, n);
            OnlyAdds(w, r, now) && HasIds(r, batch, ids, n) && (OneLabelEach(w) ==> OneLabelEach(r))
  {
    if n == 0 {
      AddsNothing(w, now);
    } else {
      ListOnlyAdds(w, batch, ids, now, replies, n - 1);
      var before := LabelledUpTo(w, batch, ids, now, replies, n - 1);
      var r := Labelled(before, batch[n - 1], Pdf, ids[n - 1], now, replies[n - 1]);
      LabelKeepsTheRestFresh(before, batch, ids, now, replies[n - 1], n - 1);
      LabelledOnlyAdds(before, batch[n - 1], Pdf, ids[n - 1], now, replies[n - 1]);
      OnlyAddsTwice(w, before, r, now);
      if OneLabelEach(w) {
        LabelledKeepsOne(before, batch[n - 1], Pdf, ids[n - 1], now, replies[n - 1]);
      }
    }
  }

  // ----- what a press costs -----

  ghost predicate AllLabelled(w: World, batch: seq<ShipmentId>) {
    forall i :: 0 <= i < |batch| ==> HasLabel(w.documents, batch[i], Pdf)
  }

  ghost predicate LabelsKept(w: World, r: World) {
    forall s :: HasLabel(w.documents, s, Pdf) ==> HasLabel(r.documents, s, Pdf)
  }

  /** The shipments of a list that have no label yet. */
  ghost function Missing(w: World, batch: seq<ShipmentId>): set<ShipmentId> {
    set s | s in batch && !HasLabel(w.documents, s, Pdf)
  }

  /** One shipment of the list costs at most a call, none if it has a label, and has one when it did not raise. */
  lemma LabelStepFacts(w: World, shipment: ShipmentId, id: DocId, now: int, reply: PullReply)
    requires IsFreshId(w, id)
    ensures var r := Labelled(w, shipment, Pdf, id, now, reply);
            && LabelsKept(w, r) && r.carrierCalls <= w.carrierCalls + (if HasLabel(w.documents, shipment, Pdf) then 0 else 1)
            && (!LabelRaises(w, shipment, Pdf, id, now, reply) ==> HasLabel(r.documents, shipment, Pdf))
            && (shipment in w.shipments ==> HasLabel(r.documents, shipment, Pdf))
  {
    var r := Labelled(w, shipment, Pdf, id, now, reply);
    LabelledIs(w, shipment, Pdf, id, now, reply);
    forall s | HasLabel(w.documents, s, Pdf)
      ensures HasLabel(r.documents, s, Pdf)
    {
      var x :| IsLabelOf(w.documents, x, s, Pdf);
      assert IsLabelOf(r.documents, x, s, Pdf);
    }
  }

  /** Inside the transaction: a call for each different shipment without a label at most, and a label for each that was passed. */
  lemma {:induction false} CallsUpTo(w: World, batch: seq<ShipmentId>, ids: seq<DocId>, now: int, replies: seq<PullReply>, n: nat)
    requires HasIds(w, batch, ids, 0) && |replies| == |batch| && n <= |batch|
    requires n > 0 ==> ListIsQuiet(w, batch, ids, now, replies, n - 1)
    ensures var r := LabelledUpTo(w, batch, ids, now, replies, n);
            && LabelsKept(w, r) && r.carrierCalls <= w.carrierCalls + |Missing(w, batch[..n])|
            && (ListIsQuiet(w, batch, ids, now, replies, n) ==> AllLabelled(r, batch[..n]))
  {
    if n > 0 {
      CallsUpTo(w, batch, ids, now, replies, n - 1);
      var before, r := LabelledUpTo(w, batch, ids, now, replies, n - 1), LabelledUpTo(w, batch, ids, now, replies, n);
      ListOnlyAdds(w, batch, ids, now, replies, n - 1);
      LabelStepFacts(before, batch[n - 1], ids[n - 1], now, replies[n - 1]);
      OneMoreMissing(w, before, batch, n);
      if ListIsQuiet(w, batch, ids, now, replies, n) {
        assert LabelQuietAt(w, batch, ids, now, replies, n - 1);
        OneMoreLabelled(before, r, batch, n);
      }
    }
  }

  lemma OneMoreLabelled(before: World, r: World, batch: seq<ShipmentId>, n: nat)
    requires 0 < n <= |batch| && AllLabelled(before, batch[..n - 1]) && LabelsKept(before, r)
    requires HasLabel(r.documents, batch[n - 1], Pdf)
    ensures AllLabelled(r, batch[..n])
  {
    forall i | 0 <= i < n
      ensures HasLabel(r.documents, batch[..n][i], Pdf)
    {
      assert i < n - 1 ==> HasLabel(before.documents, batch[..n - 1][i], Pdf);
    }
  }

  lemma OneMoreMissing(w: World, before: World, batch: seq<ShipmentId>, n: nat)
    requires 0 < n <= |batch| && AllLabelled(before, batch[..n - 1]) && LabelsKept(w, before)
    ensures |Missing(w, batch[..n])|
            >= |Missing(w, batch[..n - 1])| + if HasLabel(before.documents, batch[n - 1], Pdf) then 0 else 1
  {
    var s, earlier, all := batch[n - 1], Missing(w, batch[..n - 1]), Missing(w, batch[..n]);
    assert batch[..n] == batch[..n - 1] + [s];
    SubsetSize(earlier, all);
    if !HasLabel(before.documents, s, Pdf) {
      var front := batch[..n - 1];
      assert forall i :: 0 <= i < |front| ==> HasLabel(before.documents, front[i], Pdf);
      assert s !in front;
      SubsetSize(earlier + {s}, all);
    }
  }

  lemma MissingGrows(w: World, batch: seq<ShipmentId>, n: nat)
    requires n <= |batch|
    ensures |Missing(w, batch[..n])| <= |Missing(w, batch)|
  {
    SubsetSize(Missing(w, batch[..n]), Missing(w, batch));
  }

  /**
   A press costs at most one call for each different shipment of the list that has no label. Committed, it leaves
   none without; lost, it leaves the rows and shipments as they were, whatever it had ordered.
   */
  lemma {:induction false} CallsAreForMissingLabels(w: World, press: Event)
    requires Enabled(w, press) && press.OrderList?
    ensures After(w, press).carrierCalls <= w.carrierCalls + |Missing(w, press.shipments)|
    ensures press.committed ==> AllLabelled(After(w, press), press.shipments)
    ensures !press.committed ==> After(w, press).documents == w.documents && After(w, press).shipments == w.shipments
  {
    var n := press.reached;
    assert n > 0 ==> ListIsQuiet(w, press.shipments, press.ids, press.at, press.answers, n - 1);
    CallsUpTo(w, press.shipments, press.ids, press.at, press.answers, n);
    MissingGrows(w, press.shipments, n);
    if press.committed {
      assert press.shipments[..n] == press.shipments;
    }
  }

  // ----- which presses ask no carrier -----

  /** Labelling this shipment asks its carrier. */
  ghost predicate Asks(w: World, shipment: ShipmentId) {
    && shipment in w.shipments && w.shipments[shipment].externalId != ""
    && !HasLabel(w.documents, shipment, Pdf)
  }

  /** No shipment of the list asks its carrier, or an unknown one stands before every one that does. */
  ghost predicate IsSilent(w: World, batch: seq<ShipmentId>) {
    forall i :: 0 <= i < |batch| && Asks(w, batch[i]) ==> exists j :: 0 <= j < i && batch[j] !in w.shipments
  }

  /** The press went on until it was through or something raised: no crash cut it short. */
  ghost predicate RanItsCourse(w: World, press: Event)
    requires press.OrderList? && Enabled(w, press)
  {
    || press.reached == |press.shipments|
    || (press.reached > 0 && !LabelQuietAt(w, press.shipments, press.ids, press.at, press.answers, press.reached - 1))
  }

  /** A shipment that does not ask leaves the calls and the shipments alone, and raises only when it is unknown. */
  lemma SilentStep(w: World, shipment: ShipmentId, id: DocId, now: int, reply: PullReply)
    requires IsFreshId(w, id) && !Asks(w, shipment)
    ensures var r := Labelled(w, shipment, Pdf, id, now, reply);
            && r.carrierCalls == w.carrierCalls && r.shipments == w.shipments
            && (LabelRaises(w, shipment, Pdf, id, now, reply) <==> shipment !in w.shipments)
  {
  }

  /** A shipment that asks costs exactly one call. */
  lemma AskingStep(w: World, shipment: ShipmentId, id: DocId, now: int, reply: PullReply)
    requires IsFreshId(w, id) && Asks(w, shipment)
    ensures Labelled(w, shipment, Pdf, id, now, reply).carrierCalls == w.carrierCalls + 1
  {
  }

  ghost predicate NoneAsks(w: World, batch: seq<ShipmentId>, n: nat)
    requires n <= |batch|
  {
    forall k :: 0 <= k < n ==> !Asks(w, batch[k])
  }

  lemma {:induction false} SilentUpTo(w: World, batch: seq<ShipmentId>, ids: seq<DocId>, now: int, replies: seq<PullReply>, n: nat)
    requires HasIds(w, batch, ids, 0) && |replies| == |batch| && n <= |batch| && NoneAsks(w, batch, n)
    ensures var r := LabelledUpTo(w, batch, ids, now, replies, n);
            r.carrierCalls == w.carrierCalls && r.shipments == w.shipments && LabelsKept(w, r)
  {
    if n > 0 {
      SilentUpTo(w, batch, ids, now, replies, n - 1);
      var before := LabelledUpTo(w, batch, ids, now, replies, n - 1);
      ListOnlyAdds(w, batch, ids, now, replies, n - 1);
      assert !Asks(before, batch[n - 1]);
      SilentStep(before, batch[n - 1], ids[n - 1], now, replies[n - 1]);
      LabelStepFacts(before, batch[n - 1], ids[n - 1], now, replies[n - 1]);
    }
  }

  lemma QuietWhenSilent(w: World, batch: seq<ShipmentId>, ids: seq<DocId>, now: int, replies: seq<PullReply>, k: nat)
    requires HasIds(w, batch, ids, 0) && |replies| == |batch| && k < |batch| && NoneAsks(w, batch, k) && !Asks(w, batch[k])
    ensures LabelQuietAt(w, batch, ids, now, replies, k) <==> batch[k] in w.shipments
  {
    SilentUpTo(w, batch, ids, now, replies, k);
    ListOnlyAdds(w, batch, ids, now, replies, k);
    SilentStep(LabelledUpTo(w, batch, ids, now, replies, k), batch[k], ids[k], now, replies[k]);
  }

  /** Nothing takes a call back. */
  lemma {:induction false} CallsOnlyGrow(w: World, batch: seq<ShipmentId>, ids: seq<DocId>, now: int, replies: seq<PullReply>, m: nat, n: nat)
    requires m <= n <= |batch| == |ids| == |replies|
    ensures LabelledUpTo(w, batch, ids, now, replies, m).carrierCalls <= LabelledUpTo(w, batch, ids, now, replies, n).carrierCalls
    decreases n
  {
    if m < n {
      CallsOnlyGrow(w, batch, ids, now, replies, m, n - 1);
    }
  }

  lemma {:induction false} NewLabelIsListed(
      w: World, batch: seq<ShipmentId>, ids: seq<DocId>, now: int, replies: seq<PullReply>, n: nat, s: ShipmentId)
    requires HasIds(w, batch, ids, 0) && |replies| == |batch| && n <= |batch|
    requires HasLabel(LabelledUpTo(w, batch, ids, now, replies, n).documents, s, Pdf) && !HasLabel(w.documents, s, Pdf)
    ensures s in batch[..n]
  {
    if n > 0 {
      var before, r := LabelledUpTo(w, batch, ids, now, replies, n - 1), LabelledUpTo(w, batch, ids, now, replies, n);
      ListOnlyAdds(w, batch, ids, now, replies, n - 1);
      LabelledIs(before, batch[n - 1], Pdf, ids[n - 1], now, replies[n - 1]);
      assert batch[..n] == batch[..n - 1] + [batch[n - 1]];
      if HasLabel(before.documents, s, Pdf) {
        NewLabelIsListed(w, batch, ids, now, replies, n - 1, s);
      } else {
        var x :| IsLabelOf(r.documents, x, s, Pdf);
        assert !IsLabelOf(before.documents, x, s, Pdf);
      }
    }
  }

  lemma NotBefore(w: World, batch: seq<ShipmentId>, i: nat)
    requires i < |batch| && NoneAsks(w, batch, i) && Asks(w, batch[i])
    ensures batch[i] !in batch[..i]
  {
  }

  /** The first shipment that asks costs a call: nothing before it can have given it a label. */
  lemma AskingIsHeard(w: World, batch: seq<ShipmentId>, ids: seq<DocId>, now: int, replies: seq<PullReply>, i: nat)
    requires HasIds(w, batch, ids, 0) && |replies| == |batch| && i < |batch| && NoneAsks(w, batch, i) && Asks(w, batch[i])
    ensures LabelledUpTo(w, batch, ids, now, replies, i + 1).carrierCalls == w.carrierCalls + 1
  {
    SilentUpTo(w, batch, ids, now, replies, i);
    ListOnlyAdds(w, batch, ids, now, replies, i);
    NotBefore(w, batch, i);
    var before := LabelledUpTo(w, batch, ids, now, replies, i);
    if HasLabel(before.documents, batch[i], Pdf) {
      NewLabelIsListed(w, batch, ids, now, replies, i, batch[i]);
    }
    AskingStep(before, batch[i], ids[i], now, replies[i]);
  }

  lemma {:induction false} FirstThatAsks(w: World, batch: seq<ShipmentId>, n: nat) returns (i: nat)
    requires n <= |batch| && !NoneAsks(w, batch, n)
    ensures i < n && NoneAsks(w, batch, i) && Asks(w, batch[i])
  {
    i := 0;
    while !Asks(w, batch[i])
      invariant i < n && NoneAsks(w, batch, i)
      decreases n - i
    {
      i := i + 1;
    }
  }

  /** A press that ran its course asks no carrier if and only if its list is silent. */
  lemma {:induction false} PressIsSilentIff(w: World, press: Event)
    requires press.OrderList? && Enabled(w, press) && RanItsCourse(w, press)
    ensures After(w, press).carrierCalls == w.carrierCalls <==> IsSilent(w, press.shipments)
  {
    if NoneAsks(w, press.shipments, press.reached) {
      UnaskedIsSilent(w, press);
    } else {
      AskedIsNotSilent(w, press);
    }
  }

  lemma UnaskedIsSilent(w: World, press: Event)
    requires press.OrderList? && Enabled(w, press) && RanItsCourse(w, press) && NoneAsks(w, press.shipments, press.reached)
    ensures After(w, press).carrierCalls == w.carrierCalls && IsSilent(w, press.shipments)
  {
    var batch, n := press.shipments, press.reached;
    SilentUpTo(w, batch, press.ids, press.at, press.answers, n);
    if n < |batch| {
      QuietWhenSilent(w, batch, press.ids, press.at, press.answers, n - 1);
      assert batch[n - 1] !in w.shipments;
    }
  }

  lemma AskedIsNotSilent(w: World, press: Event)
    requires press.OrderList? && Enabled(w, press) && !NoneAsks(w, press.shipments, press.reached)
    ensures After(w, press).carrierCalls > w.carrierCalls && !IsSilent(w, press.shipments)
  {
    var batch, n := press.shipments, press.reached;
    var i := FirstThatAsks(w, batch, n);
    AskingIsHeard(w, batch, press.ids, press.at, press.answers, i);
    CallsOnlyGrow(w, batch, press.ids, press.at, press.answers, i + 1, n);
    forall j | 0 <= j < i
      ensures batch[j] in w.shipments
    {
      assert LabelQuietAt(w, batch, press.ids, press.at, press.answers, j);
      QuietWhenSilent(w, batch, press.ids, press.at, press.answers, j);
    }
  }

  /**
   The same list a second time asks no carrier if and only if the first press committed, or its list was silent
   from the start: a label that the first press ordered and lost is ordered again.
   */
  lemma {:induction false} SecondPressIsFreeIff(w: World, first: Event, second: Event)
    requires first.OrderList? && Enabled(w, first)
    requires second.OrderList? && second.shipments == first.shipments
    requires Enabled(After(w, first), second) && RanItsCourse(After(w, first), second)
    ensures After(After(w, first), second).carrierCalls == After(w, first).carrierCalls
            <==> first.committed || IsSilent(w, first.shipments)
  {
    CallsAreForMissingLabels(w, first);
    PressIsSilentIff(After(w, first), second);
  }

  /** One shipment with a number and no label, and no file yet. */
  const UNLABELLED := World(map[], map[7 := Shipment("A-7", "", false, 0)], map[], 0)

  /** The storage does not take the first label: the carrier is asked, nothing is kept, and the next press asks again. */
  lemma RaisedPressIsRepeated(size: nat, written: bool, second: Event)
    requires second.OrderList? && second.shipments == [7]
    ensures var first := OrderList([7], [1], 0, [PullReply(Form(size, ""), PutRaises(written))], 1, false);
            && Enabled(UNLABELLED, first) && After(UNLABELLED, first).documents == map[]
            && After(UNLABELLED, first).carrierCalls == 1
            && (Enabled(After(UNLABELLED, first), second) && RanItsCourse(After(UNLABELLED, first), second) ==>
                  After(After(UNLABELLED, first), second).carrierCalls == 2)
  {
    var first := OrderList([7], [1], 0, [PullReply(Form(size, ""), PutRaises(written))], 1, false);
    var once := After(UNLABELLED, first);
    assert Asks(UNLABELLED, [7][0]) && !IsSilent(UNLABELLED, [7]);
    AskingIsHeard(UNLABELLED, first.shipments, first.ids, first.at, first.answers, 0);
    if Enabled(once, second) && RanItsCourse(once, second) {
      CallsOnlyGrow(once, second.shipments, second.ids, second.at, second.answers, 0, second.reached);
      SecondPressIsFreeIff(UNLABELLED, first, second);
      CallsAreForMissingLabels(once, second);
      assert Missing(once, second.shipments) == {7};
    }
  }
}
