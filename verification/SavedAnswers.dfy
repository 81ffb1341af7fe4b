/** The rows of an answer as they are saved and ranked, and when a saved answer is given again. */
module SavedAnswers {
  import opened Collections
  import opened Options
  import opened Sorting
  import opened QuoteReuse
  import Poll = CarrierPoll
  import R = Ranking

  /** What an adapter quoted, as far as the row needs it. */
  datatype Tariff = Tariff(amount: int, currency: string, days: Option<int>, eta: Option<int>)

  function TariffRow(o: Poll.Outcome, t: Tariff, deadline: Option<int>, id: string): OfferRow {
    var meets := MeetsDeadline(t.eta, deadline);
    OfferRow(id, o.carrierId, o.accountId, t.amount, t.currency, t.days, meets, None, meets != Some(false), None)
  }

  function FailureRow(o: Poll.Outcome, id: string): OfferRow {
    OfferRow(id, o.carrierId, o.accountId, 0, "RUB", None, None, o.errorCode, false, None)
  }

  function BlockedRow(b: BlockedCarrier, id: string): OfferRow {
    OfferRow(id, b.carrierId, b.accountId, 0, "RUB", None, None, Some(BLOCKED_BY_POLICY), false, None)
  }

  function TariffRows(o: Poll.Outcome, n: nat, tariffs: Poll.Quote -> Tariff, deadline: Option<int>, ids: nat -> string, from: nat)
    : seq<OfferRow>
    requires n <= |o.quotes|
  {
    seq(n, k requires 0 <= k < n => TariffRow(o, tariffs(o.quotes[k]), deadline, ids(from + k)))
  }

  /** The rows of one outcome: one for its failure, or one for each of its tariffs. */
  function RowsOf(o: Poll.Outcome, tariffs: Poll.Quote -> Tariff, deadline: Option<int>, ids: nat -> string, from: nat)
    : seq<OfferRow>
  {
    if o.errorCode.Some? then [FailureRow(o, ids(from))] else TariffRows(o, |o.quotes|, tariffs, deadline, ids, from)
  }

  function BlockedRows(blocked: seq<BlockedCarrier>, ids: nat -> string): seq<OfferRow> {
    seq(|blocked|, k requires 0 <= k < |blocked| => BlockedRow(blocked[k], ids(k)))
  }

  /** The rows before they are ranked: the refused carriers first, then those of every outcome. */
  function SavedRows(blocked: seq<BlockedCarrier>, outcomes: seq<Poll.Outcome>, tariffs: Poll.Quote -> Tariff,
    deadline: Option<int>, ids: nat -> string): seq<OfferRow>
  {
    if outcomes == [] then BlockedRows(blocked, ids)
    else
      var front := SavedRows(blocked, outcomes[..|outcomes| - 1], tariffs, deadline, ids);
      front + RowsOf(outcomes[|outcomes| - 1], tariffs, deadline, ids, |front|)
  }

  // ----- the ranks of the saved offers -----

  lemma {:induction false} WhereBoth(a: seq<OfferRow>, b: seq<OfferRow>, p: OfferRow -> bool)
    ensures Where(a + b, p) == Where(a, p) + Where(b, p)
  {
    if a == [] {
      assert a + b == b;
    } else {
      WhereBoth(a[1..], b, p);
      var first := if p(a[0]) then [a[0]] else [];
      assert (a + b)[0] == a[0] && (a + b)[1..] == a[1..] + b;
      assert first + (Where(a[1..], p) + Where(b, p)) == (first + Where(a[1..], p)) + Where(b, p);
    }
  }

  /** How many offers stand before the i-th row. */
  function OffersBefore(rows: seq<OfferRow>, i: nat): nat
    requires i <= |rows|
  {
    |Where(rows[..i], IsOffer)|
  }

  lemma OneMoreRow(rows: seq<OfferRow>, i: nat)
    requires i < |rows|
    ensures Where(rows[..i + 1], IsOffer) == Where(rows[..i], IsOffer) + if IsOffer(rows[i]) then [rows[i]] else []
    ensures IsOffer(rows[i]) ==>
              OffersBefore(rows, i) < |Where(rows, IsOffer)| && Where(rows, IsOffer)[OffersBefore(rows, i)] == rows[i]
  {
    var front, back := rows[..i], rows[i..];
    assert rows == front + back && back[0] == rows[i];
    WhereBoth(front, back, IsOffer);
    assert rows[..i + 1] == front + [rows[i]];
    WhereBoth(front, [rows[i]], IsOffer);
  }

  function FactsIn(offers: seq<OfferRow>): seq<R.Facts> {
    seq(|offers|, i requires 0 <= i < |offers| => R.Facts(Some(offers[i].amount), offers[i].days, offers[i].meetsDeadline))
  }

  ghost function RankAt(rows: seq<OfferRow>, required: bool, i: nat): Option<nat>
    requires i < |rows|
  {
    if !IsOffer(rows[i]) then None
    else
      OneMoreRow(rows, i);
      Some(R.RankOf(R.KeysOf(FactsIn(Where(rows, IsOffer)), required), OffersBefore(rows, i)))
  }

  /** The rows as they are kept: every offer with its rank among the offers, the other rows without one. */
  ghost function Ranked(rows: seq<OfferRow>, required: bool): seq<OfferRow> {
    seq(|rows|, i requires 0 <= i < |rows| => rows[i].(rank := RankAt(rows, required, i)))
  }

  /** One object to rank for each offer among the rows, in their order. */
  method OffersToRank(rows: seq<OfferRow>) returns (quotes: seq<R.RateOffer>)
    ensures forall p :: 0 <= p < |quotes| ==> fresh(quotes[p])
    ensures Distinct(quotes) && R.FactsOf(quotes) == FactsIn(Where(rows, IsOffer))
  {
    quotes := [];
    for i := 0 to |rows|
      invariant forall p :: 0 <= p < |quotes| ==> fresh(quotes[p])
      invariant Distinct(quotes) && R.FactsOf(quotes) == FactsIn(Where(rows[..i], IsOffer))
    {
      OneMoreRow(rows, i);
      if IsOffer(rows[i]) {
        var quote := new R.RateOffer(R.Facts(Some(rows[i].amount), rows[i].days, rows[i].meetsDeadline));
        assert FactsIn(Where(rows[..i], IsOffer) + [rows[i]]) == FactsIn(Where(rows[..i], IsOffer)) + [quote.facts];
        assert R.FactsOf(quotes + [quote]) == R.FactsOf(quotes) + [quote.facts];
        quotes := quotes + [quote];
      }
    }
    assert rows[..|rows|] == rows;
  }

  method RankRows(rows: seq<OfferRow>, required: bool) returns (ranked: seq<OfferRow>)
    requires forall i :: 0 <= i < |rows| ==> rows[i].rank == None
    ensures ranked == Ranked(rows, required)
  {
    var quotes := OffersToRank(rows);
    KnownAmounts(Where(rows, IsOffer));
    R.RankQuotes(quotes, required);
    assert |quotes| == |R.FactsOf(quotes)| == |Where(rows, IsOffer)|;
    var ranks := seq(|quotes|, p requires 0 <= p < |quotes| reads quotes => quotes[p].rank);
    ranked := WithRanks(rows, required, ranks);
  }

  /** Hand the ranks out to the offers among the rows, one after another. */
  method WithRanks(rows: seq<OfferRow>, required: bool, ranks: seq<Option<nat>>) returns (ranked: seq<OfferRow>)
    requires forall i :: 0 <= i < |rows| ==> rows[i].rank == None
    requires |ranks| == |Where(rows, IsOffer)|
    requires forall p :: 0 <= p < |ranks| ==> ranks[p] == Some(R.RankOf(R.KeysOf(FactsIn(Where(rows, IsOffer)), required), p))
    ensures ranked == Ranked(rows, required)
  {
    ranked := [];
    var n := 0;
    for i := 0 to |rows|
      invariant n == OffersBefore(rows, i) && |ranked| == i
      invariant forall k :: 0 <= k < i ==> ranked[k] == rows[k].(rank := RankAt(rows, required, k))
    {
      OneMoreRow(rows, i);
      if IsOffer(rows[i]) {
        assert RankAt(rows, required, i) == ranks[n];
        ranked := ranked + [rows[i].(rank := ranks[n])];
        n := n + 1;
      } else {
        assert RankAt(rows, required, i) == None == rows[i].rank;
        ranked := ranked + [rows[i]];
      }
    }
  }

  lemma KnownAmounts(offers: seq<OfferRow>)
    ensures R.Known(R.Amounts(FactsIn(offers))) == [] <==> offers == []
  {
    if offers != [] {
      assert R.Amounts(FactsIn(offers))[0] == Some(offers[0].amount);
    }
  }

  /** Save the refused carriers, the failures and the tariffs, and rank the priced rows. */
  method Persist(blocked: seq<BlockedCarrier>, outcomes: seq<Poll.Outcome>, tariffs: Poll.Quote -> Tariff,
    deadline: Option<int>, ids: nat -> string) returns (rows: seq<OfferRow>)
    ensures rows == Ranked(SavedRows(blocked, outcomes, tariffs, deadline, ids), deadline.Some?)
  {
    rows := [];
    for k := 0 to |blocked|
      invariant rows == SavedRows(blocked[..k], [], tariffs, deadline, ids)
    {
      rows := rows + [BlockedRow(blocked[k], ids(|rows|))];
    }
    assert blocked[..|blocked|] == blocked;
    for k := 0 to |outcomes|
      invariant rows == SavedRows(blocked, outcomes[..k], tariffs, deadline, ids)
    {
      assert outcomes[..k + 1][..k] == outcomes[..k];
      var more := OutcomeRows(outcomes[k], tariffs, deadline, ids, |rows|);
      rows := rows + more;
    }
    assert outcomes[..|outcomes|] == outcomes;
    SavedRowsNumbered(blocked, outcomes, tariffs, deadline, ids);
    rows := RankRows(rows, deadline.Some?);
  }

  method OutcomeRows(o: Poll.Outcome, tariffs: Poll.Quote -> Tariff, deadline: Option<int>, ids: nat -> string, from: nat)
    returns (rows: seq<OfferRow>)
    ensures rows == RowsOf(o, tariffs, deadline, ids, from)
  {
    if o.errorCode.Some? {
      return [FailureRow(o, ids(from))];
    }
    rows := [];
    for q := 0 to |o.quotes|
      invariant rows == TariffRows(o, q, tariffs, deadline, ids, from)
    {
      rows := rows + [TariffRow(o, tariffs(o.quotes[q]), deadline, ids(from + q))];
    }
  }

  // ----- which accounts the rows speak of -----

  /** An outcome leaves a trace unless its carrier answered without an error and without a single tariff. */
  predicate LeavesRow(o: Poll.Outcome) {
    o.errorCode.Some? || o.quotes != []
  }

  function RowAccounts(rows: seq<OfferRow>): set<Id> {
    set r | r in rows :: r.accountId
  }

  lemma RowAccountsConcat(a: seq<OfferRow>, b: seq<OfferRow>)
    ensures RowAccounts(a + b) == RowAccounts(a) + RowAccounts(b)
  {
    forall r ensures r in a + b <==> r in a || r in b {}
  }

  lemma RowsOfNames(o: Poll.Outcome, tariffs: Poll.Quote -> Tariff, deadline: Option<int>, ids: nat -> string, from: nat)
    ensures RowAccounts(RowsOf(o, tariffs, deadline, ids, from)) == if LeavesRow(o) then {o.accountId} else {}
  {
    var rows := RowsOf(o, tariffs, deadline, ids, from);
    forall r | r in rows ensures r.accountId == o.accountId {}
    if LeavesRow(o) {
      assert rows[0] in rows;
    }
  }

  ghost function BlockedIds(blocked: seq<BlockedCarrier>): set<Id> {
    set b | b in blocked :: b.accountId
  }

  ghost function TracedIds(outcomes: seq<Poll.Outcome>): set<Id> {
    set o | o in outcomes && LeavesRow(o) :: o.accountId
  }

  lemma OneMoreTrace(outcomes: seq<Poll.Outcome>)
    requires outcomes != []
    ensures var front, last := outcomes[..|outcomes| - 1], outcomes[|outcomes| - 1];
            TracedIds(outcomes) == TracedIds(front) + if LeavesRow(last) then {last.accountId} else {}
  {
    var front, last := outcomes[..|outcomes| - 1], outcomes[|outcomes| - 1];
    assert outcomes == front + [last];
    forall x ensures x in outcomes <==> x in front || x == last {}
  }

  /** Which accounts the saved rows speak of: the refused ones and the polled ones that left a trace. */
  lemma {:induction false} SavedRowsNameTheAccounts(blocked: seq<BlockedCarrier>, outcomes: seq<Poll.Outcome>,
    tariffs: Poll.Quote -> Tariff, deadline: Option<int>, ids: nat -> string)
    ensures RowAccounts(SavedRows(blocked, outcomes, tariffs, deadline, ids)) == BlockedIds(blocked) + TracedIds(outcomes)
  {
    if outcomes == [] {
      BlockedRowsName(blocked, ids);
      assert TracedIds(outcomes) == {};
    } else {
      var last := outcomes[|outcomes| - 1];
      var front := SavedRows(blocked, outcomes[..|outcomes| - 1], tariffs, deadline, ids);
      SavedRowsNameTheAccounts(blocked, outcomes[..|outcomes| - 1], tariffs, deadline, ids);
      RowAccountsConcat(front, RowsOf(last, tariffs, deadline, ids, |front|));
      RowsOfNames(last, tariffs, deadline, ids, |front|);
      OneMoreTrace(outcomes);
    }
  }

  lemma BlockedRowsName(blocked: seq<BlockedCarrier>, ids: nat -> string)
    ensures RowAccounts(BlockedRows(blocked, ids)) == BlockedIds(blocked)
  {
    var rows := BlockedRows(blocked, ids);
    forall r | r in rows ensures r.accountId in BlockedIds(blocked) {
      var k :| 0 <= k < |rows| && rows[k] == r;
      assert rows[k] == BlockedRow(blocked[k], ids(k)) && blocked[k] in blocked;
    }
    forall b | b in blocked ensures b.accountId in RowAccounts(rows) {
      var k :| 0 <= k < |blocked| && blocked[k] == b;
      assert rows[k] == BlockedRow(b, ids(k)) && rows[k] in rows;
    }
  }

  /** The rows are numbered on from some number, and none is ranked yet. */
  ghost predicate Numbered(rows: seq<OfferRow>, ids: nat -> string, from: nat) {
    forall k :: 0 <= k < |rows| ==> rows[k].id == ids(from + k) && rows[k].rank == None
  }

  lemma NumberedBoth(front: seq<OfferRow>, more: seq<OfferRow>, ids: nat -> string)
    requires Numbered(front, ids, 0) && Numbered(more, ids, |front|)
    ensures Numbered(front + more, ids, 0)
  {
    forall k | 0 <= k < |front + more|
      ensures (front + more)[k].id == ids(k) && (front + more)[k].rank == None
    {
      assert k >= |front| ==> (front + more)[k] == more[k - |front|];
    }
  }

  lemma RowsOfNumbered(o: Poll.Outcome, tariffs: Poll.Quote -> Tariff, deadline: Option<int>, ids: nat -> string, from: nat)
    ensures Numbered(RowsOf(o, tariffs, deadline, ids, from), ids, from)
  {
  }

  lemma {:induction false} SavedRowsNumbered(blocked: seq<BlockedCarrier>, outcomes: seq<Poll.Outcome>,
    tariffs: Poll.Quote -> Tariff, deadline: Option<int>, ids: nat -> string)
    ensures Numbered(SavedRows(blocked, outcomes, tariffs, deadline, ids), ids, 0)
  {
    if outcomes == [] {
      assert Numbered(BlockedRows(blocked, ids), ids, 0);
    } else {
      var front, last := SavedRows(blocked, outcomes[..|outcomes| - 1], tariffs, deadline, ids), outcomes[|outcomes| - 1];
      SavedRowsNumbered(blocked, outcomes[..|outcomes| - 1], tariffs, deadline, ids);
      RowsOfNumbered(last, tariffs, deadline, ids, |front|);
      NumberedBoth(front, RowsOf(last, tariffs, deadline, ids, |front|), ids);
    }
  }

  predicate HasOffer(rows: seq<OfferRow>) {
    exists i :: 0 <= i < |rows| && IsOffer(rows[i])
  }

  lemma RankedKeepsTheRest(rows: seq<OfferRow>, required: bool)
    ensures |Ranked(rows, required)| == |rows| && RowAccounts(Ranked(rows, required)) == RowAccounts(rows)
    ensures HasOffer(Ranked(rows, required)) <==> HasOffer(rows)
  {
    var ranked := Ranked(rows, required);
    forall x ensures x in RowAccounts(ranked) <==> x in RowAccounts(rows) {
      if x in RowAccounts(ranked) {
        var i :| 0 <= i < |ranked| && ranked[i].accountId == x;
        assert rows[i] in rows;
      }
      if x in RowAccounts(rows) {
        var i :| 0 <= i < |rows| && rows[i].accountId == x;
        assert ranked[i] in ranked;
      }
    }
    forall i | 0 <= i < |rows|
      ensures IsOffer(ranked[i]) <==> IsOffer(rows[i])
    {
    }
  }

  /** With fresh identifiers a repeated answer shows the offers of the first one, in whatever order its rows come back. */
  lemma RepeatShowsTheSameOffers(blocked: seq<BlockedCarrier>, outcomes: seq<Poll.Outcome>, tariffs: Poll.Quote -> Tariff,
    deadline: Option<int>, ids: nat -> string, readBack: seq<OfferRow>, names: Id -> string, codes: Id -> string, later: Id -> string)
    requires forall i, j :: i != j ==> ids(i) != ids(j)
    requires multiset(readBack) == multiset(Ranked(SavedRows(blocked, outcomes, tariffs, deadline, ids), deadline.Some?))
    ensures var rows := Ranked(SavedRows(blocked, outcomes, tariffs, deadline, ids), deadline.Some?);
            var first, again := Response(rows, deadline.Some?, names, codes), Response(readBack, deadline.Some?, names, later);
            && first.offers == again.offers && first.noDeadlineMatch == again.noDeadlineMatch
            && multiset(first.blocked) == multiset(again.blocked) && multiset(first.failures) == multiset(again.failures)
  {
    var rows := Ranked(SavedRows(blocked, outcomes, tariffs, deadline, ids), deadline.Some?);
    SavedRowsNumbered(blocked, outcomes, tariffs, deadline, ids);
    OffersIgnoreRowOrder(rows, readBack, deadline.Some?, names, codes);
    SortedPermutes(Where(readBack, IsBlocked), CodeBefore(codes));
    SortedPermutes(Where(readBack, IsBlocked), CodeBefore(later));
    SortedPermutes(Where(readBack, IsFailure), CodeBefore(codes));
    SortedPermutes(Where(readBack, IsFailure), CodeBefore(later));
  }

  // ----- reuse -----

  /** A saved answer. The request and the policy version it was computed for are recorded to state what reuse means. */
  datatype RateQuote = RateQuote(
    id: Id, request: RateRequest, policyVersion: string, hash: Fingerprint,
    createdAt: int, validUntil: int, offers: seq<OfferRow>)

  ghost predicate Saved(q: RateQuote) {
    q.hash == RequestHash(q.request, q.policyVersion)
  }

  /** The freshest answer that is still alive under this fingerprint. */
  method FindReusable(quotes: seq<RateQuote>, hash: Fingerprint, now: int) returns (found: Option<RateQuote>)
    ensures found.Some? ==>
              && found.value in quotes && found.value.hash == hash && found.value.validUntil > now
              && forall q :: q in quotes && q.hash == hash && q.validUntil > now ==> q.createdAt <= found.value.createdAt
    ensures found.None? ==> forall q :: q in quotes ==> !(q.hash == hash && q.validUntil > now)
  {
    found := None;
    for k := 0 to |quotes|
      invariant found.Some? ==>
                  && found.value in quotes && found.value.hash == hash && found.value.validUntil > now
                  && forall j :: 0 <= j < k && quotes[j].hash == hash && quotes[j].validUntil > now ==>
                       quotes[j].createdAt <= found.value.createdAt
      invariant found.None? ==> forall j :: 0 <= j < k ==> !(quotes[j].hash == hash && quotes[j].validUntil > now)
    {
      var q := quotes[k];
      if q.hash == hash && q.validUntil > now && (found.None? || q.createdAt > found.value.createdAt) {
        found := Some(q);
      }
    }
  }

  predicate HasPricedOffer(q: RateQuote) {
    HasOffer(q.offers)
  }

  function AccountIds(accounts: seq<Account>): set<Id> {
    set a | a in accounts :: a.id
  }

  function PolledIds(q: RateQuote): set<Id> {
    RowAccounts(q.offers)
  }

  /** Nothing else that is alive and answers the same request is as fresh. */
  ghost predicate IsFreshest(quotes: seq<RateQuote>, q: RateQuote, request: RateRequest, policyVersion: string, now: int) {
    && q in quotes && q.validUntil > now && SameRequest(q.request, q.policyVersion, request, policyVersion)
    && forall r :: r in quotes && r != q && r.validUntil > now && SameRequest(r.request, r.policyVersion, request, policyVersion) ==>
         r.createdAt < q.createdAt
  }

  method Reusable(quotes: seq<RateQuote>, request: RateRequest, policyVersion: string, accounts: seq<Account>, now: int)
    returns (reused: Option<RateQuote>)
    requires forall q :: q in quotes ==> Saved(q)
    ensures reused.Some? ==>
              var q := reused.value;
              && q in quotes && q.validUntil > now
              && SameRequest(q.request, q.policyVersion, request, policyVersion)
              && HasPricedOffer(q) && PolledIds(q) == AccountIds(accounts)
    ensures forall q :: IsFreshest(quotes, q, request, policyVersion, now) ==>
              (reused == Some(q) <==> HasPricedOffer(q) && PolledIds(q) == AccountIds(accounts))
    ensures reused.None? ==>
              forall q :: q in quotes && q.validUntil > now && SameRequest(q.request, q.policyVersion, request, policyVersion)
                          && HasPricedOffer(q) && PolledIds(q) == AccountIds(accounts) ==>
                exists newer :: newer in quotes && newer.validUntil > now && newer.createdAt >= q.createdAt
                                && SameRequest(newer.request, newer.policyVersion, request, policyVersion)
                                && !(HasPricedOffer(newer) && PolledIds(newer) == AccountIds(accounts))
  {
    var hash := RequestHash(request, policyVersion);
    var found := FindReusable(quotes, hash, now);
    forall q | q in quotes ensures q.hash == hash <==> SameRequest(q.request, q.policyVersion, request, policyVersion) {
      FingerprintIsExact(q.request, q.policyVersion, request, policyVersion);
    }
    if found.None? {
      return None;
    }
    if !HasPricedOffer(found.value) {
      return None;
    }
    if PolledIds(found.value) != AccountIds(accounts) {
      return None;
    }
    return found;
  }

  // ----- when a fresh answer is given again -----

  /** The account was refused by the rules, or was polled and answered with an error or a tariff. */
  ghost predicate LeftARow(a: Account, policy: Policy, codes: map<Id, string>, insures: set<string>, outcomes: seq<Poll.Outcome>) {
    FateOf(a, policy, codes, insures).Refuse? || a.id in TracedIds(outcomes)
  }

  ghost predicate IdsDiffer(accounts: seq<Account>) {
    forall x, y :: x in accounts && y in accounts && x.id == y.id ==> x == y
  }

  /** A poll of exactly these accounts, whatever it brought. */
  ghost predicate IsPollOf(outcomes: seq<Poll.Outcome>, o: Poll.Outside, asked: seq<Account>, events: seq<Poll.Event>) {
    && |outcomes| == |Poll.Prepared(o, asked)|
    && forall i :: 0 <= i < |outcomes| ==> Poll.IsRowFor(outcomes[i], Poll.Prepared(o, asked)[i], events, i)
  }

  lemma RefusedIdsAre(accounts: seq<Account>, policy: Policy, codes: map<Id, string>, insures: set<string>, a: Account)
    requires IdsDiffer(accounts) && a in accounts
    ensures a.id in BlockedIds(Refused(accounts, policy, codes, insures)) <==> FateOf(a, policy, codes, insures).Refuse?
  {
    PolicySplitsAccounts(accounts, policy, codes, insures, a);
    if b :| b in Refused(accounts, policy, codes, insures) && b.accountId == a.id {
      var source := RefusedComesFrom(accounts, policy, codes, insures, b);
      assert source == a;
    }
  }

  /** The rows speak of no account but the eligible ones. */
  lemma TracesAreOfAccounts(accounts: seq<Account>, policy: Policy, codes: map<Id, string>, insures: set<string>,
    outcomes: seq<Poll.Outcome>, o: Poll.Outside, events: seq<Poll.Event>, x: Id)
    requires IsPollOf(outcomes, o, Asked(accounts, policy, codes, insures), events)
    requires x in TracedIds(outcomes) + BlockedIds(Refused(accounts, policy, codes, insures))
    ensures x in AccountIds(accounts)
  {
    if x in TracedIds(outcomes) {
      var asked := Asked(accounts, policy, codes, insures);
      var at := Poll.RowNamesItsOwnCarrier(o, asked, outcomes, events);
      var outcome :| outcome in outcomes && outcome.accountId == x;
      var i :| 0 <= i < |outcomes| && outcomes[i] == outcome;
      assert Poll.Names(outcomes[i], asked[at[i]], o.carriers);
      assert asked[at[i]] in asked;
      AskedAre(accounts, policy, codes, insures, asked[at[i]]);
    } else {
      var b :| b in Refused(accounts, policy, codes, insures) && b.accountId == x;
      var a := RefusedComesFrom(accounts, policy, codes, insures, b);
    }
  }

  /** The saved answer of one poll. */
  ghost predicate IsAnswerOf(q: RateQuote, accounts: seq<Account>, policy: Policy, codes: map<Id, string>, insures: set<string>,
    outcomes: seq<Poll.Outcome>, tariffs: Poll.Quote -> Tariff, deadline: Option<int>, ids: nat -> string)
  {
    q.offers == Ranked(SavedRows(Refused(accounts, policy, codes, insures), outcomes, tariffs, deadline, ids), deadline.Some?)
  }

  /** The carrier quoted at least one tariff. */
  predicate Quoted(o: Poll.Outcome) {
    o.errorCode.None? && o.quotes != []
  }

  predicate SomeQuoted(outcomes: seq<Poll.Outcome>) {
    exists i :: 0 <= i < |outcomes| && Quoted(outcomes[i])
  }

  lemma OfferInEither(a: seq<OfferRow>, b: seq<OfferRow>)
    ensures HasOffer(a + b) <==> HasOffer(a) || HasOffer(b)
  {
    forall i | 0 <= i < |a| ensures (a + b)[i] == a[i] {}
    forall i | 0 <= i < |b| ensures (a + b)[|a| + i] == b[i] {}
    if HasOffer(a + b) {
      var i :| 0 <= i < |a + b| && IsOffer((a + b)[i]);
      assert i >= |a| ==> b[i - |a|] == (a + b)[i];
    }
  }

  lemma OffersOfOne(o: Poll.Outcome, tariffs: Poll.Quote -> Tariff, deadline: Option<int>, ids: nat -> string, from: nat)
    ensures HasOffer(RowsOf(o, tariffs, deadline, ids, from)) <==> Quoted(o)
  {
    var rows := RowsOf(o, tariffs, deadline, ids, from);
    if Quoted(o) {
      assert IsOffer(rows[0]);
    }
  }

  lemma QuotedLast(outcomes: seq<Poll.Outcome>)
    requires outcomes != []
    ensures SomeQuoted(outcomes) <==> SomeQuoted(outcomes[..|outcomes| - 1]) || Quoted(outcomes[|outcomes| - 1])
  {
    var front := outcomes[..|outcomes| - 1];
    forall i | 0 <= i < |front| ensures front[i] == outcomes[i] {}
    if SomeQuoted(outcomes) {
      var i :| 0 <= i < |outcomes| && Quoted(outcomes[i]);
      assert i < |front| ==> Quoted(front[i]);
    }
  }

  lemma {:induction false} OfferIffQuoted(blocked: seq<BlockedCarrier>, outcomes: seq<Poll.Outcome>,
    tariffs: Poll.Quote -> Tariff, deadline: Option<int>, ids: nat -> string)
    ensures HasOffer(SavedRows(blocked, outcomes, tariffs, deadline, ids)) <==> SomeQuoted(outcomes)
  {
    if outcomes == [] {
      assert forall k :: 0 <= k < |blocked| ==> BlockedRows(blocked, ids)[k] == BlockedRow(blocked[k], ids(k));
    } else {
      var front, last := SavedRows(blocked, outcomes[..|outcomes| - 1], tariffs, deadline, ids), outcomes[|outcomes| - 1];
      OfferIffQuoted(blocked, outcomes[..|outcomes| - 1], tariffs, deadline, ids);
      OffersOfOne(last, tariffs, deadline, ids, |front|);
      OfferInEither(front, RowsOf(last, tariffs, deadline, ids, |front|));
      QuotedLast(outcomes);
    }
  }

  /**
   A fresh answer is fit for its own repeat if and only if some carrier quoted a tariff, and every eligible
   account was refused by the rules or left a row. So an account that could not be prepared, or a carrier that
   answers without a single tariff, makes every repeat a new poll.
   */
  lemma FitForRepeatIff(q: RateQuote, accounts: seq<Account>, policy: Policy, codes: map<Id, string>, insures: set<string>,
    outcomes: seq<Poll.Outcome>, o: Poll.Outside, events: seq<Poll.Event>, tariffs: Poll.Quote -> Tariff, deadline: Option<int>,
    ids: nat -> string)
    requires IdsDiffer(accounts) && IsPollOf(outcomes, o, Asked(accounts, policy, codes, insures), events)
    requires IsAnswerOf(q, accounts, policy, codes, insures, outcomes, tariffs, deadline, ids)
    ensures HasPricedOffer(q) && PolledIds(q) == AccountIds(accounts) <==>
              && SomeQuoted(outcomes)
              && (forall a :: a in accounts ==> LeftARow(a, policy, codes, insures, outcomes))
  {
    var blocked := Refused(accounts, policy, codes, insures);
    var rows := SavedRows(blocked, outcomes, tariffs, deadline, ids);
    RankedKeepsTheRest(rows, deadline.Some?);
    SavedRowsNameTheAccounts(blocked, outcomes, tariffs, deadline, ids);
    OfferIffQuoted(blocked, outcomes, tariffs, deadline, ids);
    forall a | a in accounts
      ensures a.id in PolledIds(q) <==> LeftARow(a, policy, codes, insures, outcomes)
    {
      RefusedIdsAre(accounts, policy, codes, insures, a);
    }
    forall x | x in PolledIds(q)
      ensures x in AccountIds(accounts)
    {
      TracesAreOfAccounts(accounts, policy, codes, insures, outcomes, o, events, x);
    }
    if forall a :: a in accounts ==> LeftARow(a, policy, codes, insures, outcomes) {
      assert PolledIds(q) == AccountIds(accounts);
    } else {
      var a :| a in accounts && !LeftARow(a, policy, codes, insures, outcomes);
      assert a.id in AccountIds(accounts) && a.id !in PolledIds(q);
    }
  }
}
