/** Who is asked and why not, what a row of the poll says, what is saved of it, and where it is shown. */
module AnswerLaws {
  import opened Options
  import opened Sorting
  import opened QuoteReuse
  import opened SavedAnswers
  import RepeatOrder
  import Poll = CarrierPoll

  // ----- the policy -----

  ghost predicate IsForbidden(policy: Policy, code: string) {
    code in policy.verdicts && !policy.verdicts[code].allowed
  }

  /** An account is asked if its carrier is known, is not forbidden, and insures where insurance is required. */
  ghost predicate MayBeAsked(a: Account, policy: Policy, codes: map<Id, string>, insures: set<string>) {
    && a.carrierId in codes && !IsForbidden(policy, codes[a.carrierId])
    && (policy.requireInsurance ==> codes[a.carrierId] in insures)
  }

  lemma AskIsMayBeAsked(a: Account, policy: Policy, codes: map<Id, string>, insures: set<string>)
    ensures FateOf(a, policy, codes, insures) == Ask <==> MayBeAsked(a, policy, codes, insures)
  {
  }

  lemma CountWithLast(front: seq<Account>, last: Account, a: Account)
    ensures multiset(front + [last])[a] == multiset(front)[a] + if last == a then 1 else 0
  {
  }

  /** The accounts asked are those that may be, each as often as it stands among the eligible ones. */
  lemma {:induction false} WhoIsAsked(accounts: seq<Account>, policy: Policy, codes: map<Id, string>, insures: set<string>, a: Account)
    ensures multiset(Asked(accounts, policy, codes, insures))[a]
            == if MayBeAsked(a, policy, codes, insures) then multiset(accounts)[a] else 0
  {
    if accounts != [] {
      var last := |accounts| - 1;
      var front := Asked(accounts[..last], policy, codes, insures);
      WhoIsAsked(accounts[..last], policy, codes, insures, a);
      AskIsMayBeAsked(accounts[last], policy, codes, insures);
      assert accounts == accounts[..last] + [accounts[last]];
      CountWithLast(accounts[..last], accounts[last], a);
      CountWithLast(front, accounts[last], a);
      assert front + [] == front;
    }
  }

  /** A forbidden carrier is refused with the reason of its rule; one without a reason, and one that does not insure, with the general one. */
  lemma WhyAnAccountIsRefused(accounts: seq<Account>, policy: Policy, codes: map<Id, string>, insures: set<string>, b: BlockedCarrier)
    returns (a: Account)
    requires b in Refused(accounts, policy, codes, insures)
    ensures a in accounts && a.carrierId in codes
    ensures b.accountId == a.id && b.carrierId == a.carrierId && b.carrierCode == codes[a.carrierId]
    ensures IsForbidden(policy, b.carrierCode) || (policy.requireInsurance && b.carrierCode !in insures)
    ensures b.reason == if IsForbidden(policy, b.carrierCode) && policy.verdicts[b.carrierCode].reason.Some?
                        then policy.verdicts[b.carrierCode].reason.value else "tenant_policy"
  {
    a := RefusedComesFrom(accounts, policy, codes, insures, b);
  }

  // ----- the poll -----

  /** An account is prepared when its carrier is active and its credentials can be read, with that carrier's code. */
  lemma WhoIsPrepared(o: Poll.Outside, a: Account)
    ensures Poll.Prepare(o, a).Some? <==> o.isReadable(a) && exists c :: c in o.carriers && c.id == a.carrierId
    ensures Poll.Prepare(o, a).Some? ==>
              var item := Poll.Prepare(o, a).value;
              && item.account == a && item.carrierId == a.carrierId && Poll.Carrier(a.carrierId, item.carrierCode) in o.carriers
              && item.adapterKnown == o.hasAdapter(item.carrierCode)
  {
    Poll.FoundCarrier(o.carriers, a.carrierId);
  }

  ghost predicate NeverFinishes(events: seq<Poll.Event>, i: nat) {
    forall reply :: !Poll.FinishesWith(events, i, reply)
  }

  /**
   What the row of a prepared account says: nothing but a time-out when its task did not finish before the deadline,
   and otherwise what the call ended with. A carrier without an adapter is not available, a slow one timed out too,
   a refusal keeps its own code, and any other exception is an error of the carrier.
   */
  lemma WhatARowOfThePollSays(item: Poll.Item, row: Poll.Outcome, events: seq<Poll.Event>, i: nat, reply: Poll.Reply)
    requires Poll.IsRowFor(row, item, events, i)
    ensures row.carrierCode == item.carrierCode && row.carrierId == item.carrierId && row.accountId == item.account.id
    ensures NeverFinishes(events, i) ==> row.errorCode == Some("carrier_timeout") && row.quotes == []
    ensures Poll.FinishesWith(events, i, reply) && !item.adapterKnown ==>
              row.errorCode == Some("carrier_not_available") && row.quotes == []
    ensures Poll.FinishesWith(events, i, reply) && item.adapterKnown ==>
              match reply
              case Answered(quotes) => row.errorCode == None && row.quotes == quotes
              case SlowCarrier => row.errorCode == Some("carrier_timeout") && row.quotes == []
              case CarrierRaised(code) => row.errorCode == Some(code) && row.quotes == []
              case AdapterCrashed => row.errorCode == Some("carrier_error") && row.quotes == []
  {
    if Poll.FinishesWith(events, i, reply) {
      forall r | Poll.FinishesWith(events, i, r)
        ensures r == reply
      {
        Poll.FirstReplyCounts(events, i, r, reply);
      }
    }
  }

  // ----- the saved rows -----

  /** An offer is in time by its whole seconds, and one whose time is not known counts as fit. */
  predicate IsRowOfTariff(row: OfferRow, o: Poll.Outcome, t: Tariff, deadline: Option<int>) {
    && row.carrierId == o.carrierId && row.accountId == o.accountId
    && row.amount == t.amount && row.currency == t.currency && row.days == t.days && row.errorCode == None
    && (t.eta.None? || deadline.None? ==> row.meetsDeadline == None && row.eligible)
    && (t.eta.Some? && deadline.Some? ==>
         && row.meetsDeadline == Some(row.eligible)
         && (row.eligible <==> t.eta.value < deadline.value + 1_000_000))
  }

  /** A row without an offer: no amount, nothing promised, a reason. */
  predicate IsRowOfNoOffer(row: OfferRow, carrier: Id, account: Id, code: string) {
    && row.carrierId == carrier && row.accountId == account && row.errorCode == Some(code) && !row.eligible
    && row.amount == 0 && row.currency == "RUB" && row.days == None && row.meetsDeadline == None && row.rank == None
  }

  lemma BlockedRowSays(b: BlockedCarrier, id: string)
    ensures IsRowOfNoOffer(BlockedRow(b, id), b.carrierId, b.accountId, "blocked_by_policy")
  {
  }

  /** The refused carriers are saved first, in their order. */
  lemma {:induction false} RefusedAreSavedFirst(blocked: seq<BlockedCarrier>, outcomes: seq<Poll.Outcome>,
    tariffs: Poll.Quote -> Tariff, deadline: Option<int>, ids: nat -> string, i: nat)
    requires i < |blocked|
    ensures var rows := SavedRows(blocked, outcomes, tariffs, deadline, ids);
            && (outcomes == [] ==> |rows| == |blocked|) && i < |rows|
            && IsRowOfNoOffer(rows[i], blocked[i].carrierId, blocked[i].accountId, "blocked_by_policy")
  {
    if outcomes != [] {
      RefusedAreSavedFirst(blocked, outcomes[..|outcomes| - 1], tariffs, deadline, ids, i);
    } else {
      BlockedRowSays(blocked[i], ids(i));
    }
  }

  /** The rows of one outcome: one for its failure, or one for each of its tariffs. */
  ghost predicate AreRowsOf(rows: seq<OfferRow>, o: Poll.Outcome, tariffs: Poll.Quote -> Tariff, deadline: Option<int>) {
    if o.errorCode.Some? then |rows| == 1 && IsRowOfNoOffer(rows[0], o.carrierId, o.accountId, o.errorCode.value)
    else |rows| == |o.quotes| && forall k :: 0 <= k < |rows| ==> IsRowOfTariff(rows[k], o, tariffs(o.quotes[k]), deadline)
  }

  lemma TariffRowSays(o: Poll.Outcome, t: Tariff, deadline: Option<int>, id: string)
    ensures IsRowOfTariff(TariffRow(o, t, deadline, id), o, t, deadline)
  {
    if t.eta.Some? && deadline.Some? {
      DeadlineGapIsOneSided(t.eta.value, deadline.value);
    }
  }

  lemma RowsOfSay(o: Poll.Outcome, tariffs: Poll.Quote -> Tariff, deadline: Option<int>, ids: nat -> string, from: nat)
    ensures AreRowsOf(RowsOf(o, tariffs, deadline, ids, from), o, tariffs, deadline)
  {
    forall k | 0 <= k < |o.quotes|
      ensures IsRowOfTariff(TariffRow(o, tariffs(o.quotes[k]), deadline, ids(from + k)), o, tariffs(o.quotes[k]), deadline)
    {
      TariffRowSays(o, tariffs(o.quotes[k]), deadline, ids(from + k));
    }
  }

  /** One outcome more adds its rows behind all others. */
  lemma {:induction false} OneMoreOutcome(blocked: seq<BlockedCarrier>, outcomes: seq<Poll.Outcome>, o: Poll.Outcome,
    tariffs: Poll.Quote -> Tariff, deadline: Option<int>, ids: nat -> string)
    returns (added: seq<OfferRow>)
    ensures SavedRows(blocked, outcomes + [o], tariffs, deadline, ids) == SavedRows(blocked, outcomes, tariffs, deadline, ids) + added
    ensures AreRowsOf(added, o, tariffs, deadline)
  {
    assert (outcomes + [o])[..|outcomes|] == outcomes;
    var from := |SavedRows(blocked, outcomes, tariffs, deadline, ids)|;
    added := RowsOf(o, tariffs, deadline, ids, from);
    RowsOfSay(o, tariffs, deadline, ids, from);
  }

  // ----- the order they are shown in -----

  /** By currency, in one currency by amount, for one amount by the carrier's name, and then by the identifier. */
  ghost predicate IsShownEarlier(a: OfferRow, b: OfferRow, names: Id -> string) {
    || StandsBefore(a.currency, b.currency)
    || (a.currency == b.currency && a.amount < b.amount)
    || (a.currency == b.currency && a.amount == b.amount && StandsBefore(names(a.carrierId), names(b.carrierId)))
    || (a.currency == b.currency && a.amount == b.amount && names(a.carrierId) == names(b.carrierId)
        && (a.id == b.id || StandsBefore(a.id, b.id)))
  }

  lemma OrderOfOffers(rows: seq<OfferRow>, hasDeadline: bool, names: Id -> string, codes: Id -> string, i: nat, j: nat)
    requires i < j < |Response(rows, hasDeadline, names, codes).offers|
    ensures var offers := Response(rows, hasDeadline, names, codes).offers;
            IsShownEarlier(offers[i], offers[j], names)
  {
    var offers := Response(rows, hasDeadline, names, codes).offers;
    EveryRowIsShownOnce(rows, hasDeadline, names, codes);
    var a, b := offers[i], offers[j];
    assert ShownBefore(names)(a, b);
    TextLeIs(a.currency, b.currency);
    TextLeIs(names(a.carrierId), names(b.carrierId));
    TextLeIs(a.id, b.id);
  }

  /** Refusals and failures are shown by the carrier's code. */
  lemma OrderOfTheOthers(rows: seq<OfferRow>, hasDeadline: bool, names: Id -> string, codes: Id -> string, i: nat, j: nat)
    requires i < j
    ensures var r := Response(rows, hasDeadline, names, codes);
            && (j < |r.blocked| ==> codes(r.blocked[i].carrierId) == codes(r.blocked[j].carrierId)
                                    || StandsBefore(codes(r.blocked[i].carrierId), codes(r.blocked[j].carrierId)))
            && (j < |r.failures| ==> codes(r.failures[i].carrierId) == codes(r.failures[j].carrierId)
                                     || StandsBefore(codes(r.failures[i].carrierId), codes(r.failures[j].carrierId)))
  {
    var r := Response(rows, hasDeadline, names, codes);
    RepeatOrder.SortedFacts(rows, IsBlocked, codes);
    RepeatOrder.SortedFacts(rows, IsFailure, codes);
    if j < |r.blocked| {
      assert CodeBefore(codes)(r.blocked[i], r.blocked[j]);
      TextLeIs(codes(r.blocked[i].carrierId), codes(r.blocked[j].carrierId));
    }
    if j < |r.failures| {
      assert CodeBefore(codes)(r.failures[i], r.failures[j]);
      TextLeIs(codes(r.failures[i].carrierId), codes(r.failures[j].carrierId));
    }
  }

  /** Rows of one list, of carriers with one code, in the order they stand in. */
  function OfOneCode(rows: seq<OfferRow>, code: string, codes: Id -> string): seq<OfferRow> {
    if rows == [] then []
    else
      var last := |rows| - 1;
      OfOneCode(rows[..last], code, codes) + if codes(rows[last].carrierId) == code then [rows[last]] else []
  }

  lemma {:induction false} TiesAreOfOneCode(rows: seq<OfferRow>, y: OfferRow, codes: Id -> string)
    ensures Ties(rows, y, CodeBefore(codes)) == OfOneCode(rows, codes(y.carrierId), codes)
  {
    if rows != [] {
      var last := |rows| - 1;
      TiesAreOfOneCode(rows[..last], y, codes);
      TextLaws(codes(rows[last].carrierId), codes(y.carrierId), "");
    }
  }

  /** And several of one carrier in the order they were read in. */
  lemma OneCarrierKeepsItsOrder(rows: seq<OfferRow>, hasDeadline: bool, names: Id -> string, codes: Id -> string, y: OfferRow)
    ensures var r := Response(rows, hasDeadline, names, codes);
            var code := codes(y.carrierId);
            && OfOneCode(r.blocked, code, codes) == OfOneCode(Where(rows, IsBlocked), code, codes)
            && OfOneCode(r.failures, code, codes) == OfOneCode(Where(rows, IsFailure), code, codes)
  {
    var r := Response(rows, hasDeadline, names, codes);
    RepeatOrder.CodesOrder(codes);
    SortedKeepsTies(Where(rows, IsBlocked), y, CodeBefore(codes));
    SortedKeepsTies(Where(rows, IsFailure), y, CodeBefore(codes));
    TiesAreOfOneCode(r.blocked, y, codes);
    TiesAreOfOneCode(r.failures, y, codes);
    TiesAreOfOneCode(Where(rows, IsBlocked), y, codes);
    TiesAreOfOneCode(Where(rows, IsFailure), y, codes);
  }
}
