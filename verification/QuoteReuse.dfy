/**
 The answer of a rate request: the fingerprint that guards its reuse, the split of the accounts by
 policy, and the one assembly of the answer from its rows.
 */
module QuoteReuse {
  import opened Options
  import opened Sorting
  import Poll = CarrierPoll

  type Id = nat

  // ----- the request and its fingerprint -----

  /** A moment with its zone: local seconds and the offset from UTC. */
  datatype Moment = Moment(local: int, offset: int) {
    function Instant(): int { local - offset }
  }

  datatype Package = Package(weightGrams: int, lengthMm: Option<int>, widthMm: Option<int>, heightMm: Option<int>)

  /** Everything else of the request, kept as it is. */
  datatype Route = Route(
    origin: string, destination: string, cargoValue: (int, string), cargoType: string, dangerous: bool, strategy: string)

  datatype RateRequest = RateRequest(
    route: Route,
    shipAt: Option<Moment>,
    deadline: Option<Moment>,
    packages: seq<Package>,
    additionalServices: seq<string>,
    carrierWhitelist: seq<string>,
    carrierBlacklist: seq<string>)

  /** The normalised request. Serialising and hashing it is injective, so it stands for the fingerprint itself. */
  datatype Fingerprint = Fingerprint(
    route: Route,
    shipAt: Option<int>,
    deadline: Option<int>,
    packages: seq<Package>,
    additionalServices: seq<string>,
    carrierWhitelist: seq<string>,
    carrierBlacklist: seq<string>,
    policyVersion: string)

  function InUtc(m: Option<Moment>): Option<int> {
    if m.Some? then Some(m.value.Instant()) else None
  }

  function RequestHash(r: RateRequest, policyVersion: string): Fingerprint {
    Fingerprint(r.route, InUtc(r.shipAt), InUtc(r.deadline), r.packages,
      Sorted(r.additionalServices, TextLe), Sorted(r.carrierWhitelist, TextLe), Sorted(r.carrierBlacklist, TextLe),
      policyVersion)
  }

  /** The same request, however it was written down. */
  ghost predicate SameRequest(a: RateRequest, p: string, b: RateRequest, q: string) {
    && a.route == b.route && a.packages == b.packages && p == q
    && InUtc(a.shipAt) == InUtc(b.shipAt) && InUtc(a.deadline) == InUtc(b.deadline)
    && multiset(a.additionalServices) == multiset(b.additionalServices)
    && multiset(a.carrierWhitelist) == multiset(b.carrierWhitelist)
    && multiset(a.carrierBlacklist) == multiset(b.carrierBlacklist)
  }

  /** Fingerprints agree exactly when the requests mean the same under the same rules. */
  lemma FingerprintIsExact(a: RateRequest, p: string, b: RateRequest, q: string)
    ensures RequestHash(a, p) == RequestHash(b, q) <==> SameRequest(a, p, b, q)
  {
    TextOrder();
    SortedIsCanonical(a.additionalServices, b.additionalServices, TextLe);
    SortedIsCanonical(a.carrierWhitelist, b.carrierWhitelist, TextLe);
    SortedIsCanonical(a.carrierBlacklist, b.carrierBlacklist, TextLe);
  }

  // ----- accounts: asked, refused by policy, or unknown -----

  type Account = Poll.Account

  datatype Verdict = Verdict(allowed: bool, reason: Option<string>)

  /** What the rules say: a verdict by carrier code where a rule applies, and whether insurance is required. */
  datatype Policy = Policy(verdicts: map<string, Verdict>, requireInsurance: bool)

  datatype BlockedCarrier = BlockedCarrier(accountId: Id, carrierId: Id, carrierCode: string, reason: string)

  const TENANT_POLICY := "tenant_policy"
  const BLOCKED_BY_POLICY := "blocked_by_policy"

  /** The request can only narrow the set of accounts; the blacklist wins over the whitelist. */
  function EligibleAccounts(accounts: seq<Account>, whitelist: set<Id>, blacklist: set<Id>): seq<Account> {
    if accounts == [] then []
    else
      var a := accounts[0];
      (if (whitelist == {} || a.carrierId in whitelist) && a.carrierId !in blacklist then [a] else [])
      + EligibleAccounts(accounts[1..], whitelist, blacklist)
  }

  lemma {:induction false} EligibleAccountsAre(accounts: seq<Account>, whitelist: set<Id>, blacklist: set<Id>, a: Account)
    ensures multiset(EligibleAccounts(accounts, whitelist, blacklist))[a]
         == if (whitelist != {} && a.carrierId !in whitelist) || a.carrierId in blacklist then 0 else multiset(accounts)[a]
  {
    if accounts != [] {
      EligibleAccountsAre(accounts[1..], whitelist, blacklist, a);
      assert accounts == [accounts[0]] + accounts[1..];
    }
  }

  datatype Fate = Ask | Refuse(reason: string) | Skip

  /** What happens to an account, by its carrier's code. */
  function FateOf(a: Account, policy: Policy, codes: map<Id, string>, insures: set<string>): Fate {
    if a.carrierId !in codes then Skip
    else
      var code := codes[a.carrierId];
      if code in policy.verdicts && !policy.verdicts[code].allowed
      then Refuse(policy.verdicts[code].reason.GetOr(TENANT_POLICY))
      else if policy.requireInsurance && code !in insures then Refuse(TENANT_POLICY)
      else Ask
  }

  function Asked(accounts: seq<Account>, policy: Policy, codes: map<Id, string>, insures: set<string>): seq<Account> {
    if accounts == [] then []
    else
      var last := |accounts| - 1;
      Asked(accounts[..last], policy, codes, insures)
      + if FateOf(accounts[last], policy, codes, insures) == Ask then [accounts[last]] else []
  }

  function Refused(accounts: seq<Account>, policy: Policy, codes: map<Id, string>, insures: set<string>): seq<BlockedCarrier> {
    if accounts == [] then []
    else
      var a := accounts[|accounts| - 1];
      Refused(accounts[..|accounts| - 1], policy, codes, insures)
      + match FateOf(a, policy, codes, insures)
        case Refuse(reason) => [BlockedCarrier(a.id, a.carrierId, codes[a.carrierId], reason)]
        case _ => []
  }

  method ApplyPolicy(accounts: seq<Account>, policy: Policy, codes: map<Id, string>, insures: set<string>)
    returns (allowed: seq<Account>, blocked: seq<BlockedCarrier>)
    ensures allowed == Asked(accounts, policy, codes, insures)
    ensures blocked == Refused(accounts, policy, codes, insures)
  {
    allowed, blocked := [], [];
    for k := 0 to |accounts|
      invariant allowed == Asked(accounts[..k], policy, codes, insures)
      invariant blocked == Refused(accounts[..k], policy, codes, insures)
    {
      var account := accounts[k];
      assert accounts[..k + 1][..k] == accounts[..k];
      if account.carrierId !in codes {
        continue;
      }
      var code := codes[account.carrierId];
      if code in policy.verdicts && !policy.verdicts[code].allowed {
        blocked := blocked + [BlockedCarrier(account.id, account.carrierId, code, policy.verdicts[code].reason.GetOr(TENANT_POLICY))];
        continue;
      }
      if policy.requireInsurance && code !in insures {
        blocked := blocked + [BlockedCarrier(account.id, account.carrierId, code, TENANT_POLICY)];
        continue;
      }
      allowed := allowed + [account];
    }
    assert accounts[..|accounts|] == accounts;
  }

  ghost predicate BlockedFor(b: BlockedCarrier, a: Account, codes: map<Id, string>) {
    b.accountId == a.id && b.carrierId == a.carrierId && a.carrierId in codes && b.carrierCode == codes[a.carrierId]
  }

  /** No account of a known carrier is lost: it is asked or refused, never both, and a forbidden carrier is never asked. */
  lemma PolicySplitsAccounts(accounts: seq<Account>, policy: Policy, codes: map<Id, string>, insures: set<string>, a: Account)
    requires a in accounts
    requires forall x, y :: x in accounts && y in accounts && x.id == y.id ==> x == y
    ensures a in Asked(accounts, policy, codes, insures) <==> FateOf(a, policy, codes, insures) == Ask
    ensures (exists b :: b in Refused(accounts, policy, codes, insures) && BlockedFor(b, a, codes))
        <==> FateOf(a, policy, codes, insures).Refuse?
    ensures FateOf(a, policy, codes, insures) == Skip <==> a.carrierId !in codes
    ensures |Asked(accounts, policy, codes, insures)| + |Refused(accounts, policy, codes, insures)| <= |accounts|
    ensures (forall x :: x in accounts ==> x.carrierId in codes) ==>
              |Asked(accounts, policy, codes, insures)| + |Refused(accounts, policy, codes, insures)| == |accounts|
  {
    SplitCounts(accounts, policy, codes, insures);
    AskedAre(accounts, policy, codes, insures, a);
    if FateOf(a, policy, codes, insures).Refuse? {
      RefusedAre(accounts, policy, codes, insures, a);
    }
    if b :| b in Refused(accounts, policy, codes, insures) && BlockedFor(b, a, codes) {
      var source := RefusedComesFrom(accounts, policy, codes, insures, b);
      assert source == a;
    }
  }

  lemma {:induction false} RefusedComesFrom(accounts: seq<Account>, policy: Policy, codes: map<Id, string>, insures: set<string>,
    b: BlockedCarrier) returns (a: Account)
    requires b in Refused(accounts, policy, codes, insures)
    ensures a in accounts && BlockedFor(b, a, codes) && FateOf(a, policy, codes, insures) == Refuse(b.reason)
  {
    var last := |accounts| - 1;
    if b in Refused(accounts[..last], policy, codes, insures) {
      a := RefusedComesFrom(accounts[..last], policy, codes, insures, b);
    } else {
      a := accounts[last];
    }
  }

  lemma {:induction false} SplitCounts(accounts: seq<Account>, policy: Policy, codes: map<Id, string>, insures: set<string>)
    ensures |Asked(accounts, policy, codes, insures)| + |Refused(accounts, policy, codes, insures)| <= |accounts|
    ensures (forall x :: x in accounts ==> x.carrierId in codes) ==>
              |Asked(accounts, policy, codes, insures)| + |Refused(accounts, policy, codes, insures)| == |accounts|
  {
    if accounts != [] {
      SplitCounts(accounts[..|accounts| - 1], policy, codes, insures);
      assert accounts[|accounts| - 1] in accounts;
    }
  }

  lemma {:induction false} AskedAre(accounts: seq<Account>, policy: Policy, codes: map<Id, string>, insures: set<string>, a: Account)
    ensures a in Asked(accounts, policy, codes, insures) <==> a in accounts && FateOf(a, policy, codes, insures) == Ask
  {
    if accounts != [] {
      var last := |accounts| - 1;
      AskedAre(accounts[..last], policy, codes, insures, a);
      assert accounts == accounts[..last] + [accounts[last]];
    }
  }

  lemma {:induction false} RefusedAre(accounts: seq<Account>, policy: Policy, codes: map<Id, string>, insures: set<string>, a: Account)
    requires a in accounts && FateOf(a, policy, codes, insures).Refuse?
    ensures exists b :: b in Refused(accounts, policy, codes, insures) && BlockedFor(b, a, codes)
  {
    var last := |accounts| - 1;
    if accounts[last] == a {
      var all := Refused(accounts, policy, codes, insures);
      assert all[|all| - 1] in all && BlockedFor(all[|all| - 1], a, codes);
    } else {
      assert accounts == accounts[..last] + [accounts[last]];
      RefusedAre(accounts[..last], policy, codes, insures, a);
      var b :| b in Refused(accounts[..last], policy, codes, insures) && BlockedFor(b, a, codes);
      assert b in Refused(accounts, policy, codes, insures);
    }
  }

  // ----- saved rows and the assembled answer -----

  /** One saved row: an offer, a failure, or a carrier refused by policy. */
  datatype OfferRow = OfferRow(
    id: string, carrierId: Id, accountId: Id, amount: int, currency: string, days: Option<int>,
    meetsDeadline: Option<bool>, errorCode: Option<string>, eligible: bool, rank: Option<nat>)

  datatype RateResponse = RateResponse(
    offers: seq<OfferRow>, blocked: seq<OfferRow>, failures: seq<OfferRow>, noDeadlineMatch: bool)

  predicate IsOffer(r: OfferRow) { r.errorCode.None? }
  predicate IsBlocked(r: OfferRow) { r.errorCode == Some(BLOCKED_BY_POLICY) }
  predicate IsFailure(r: OfferRow) { r.errorCode.Some? && r.errorCode.value != BLOCKED_BY_POLICY }

  function Where(rows: seq<OfferRow>, p: OfferRow -> bool): seq<OfferRow> {
    if rows == [] then [] else (if p(rows[0]) then [rows[0]] else []) + Where(rows[1..], p)
  }

  /** What an offer is sorted by: currency, amount, carrier name, identifier. */
  function ShownBefore(names: Id -> string): (OfferRow, OfferRow) -> bool {
    (a: OfferRow, b: OfferRow) =>
      if a.currency != b.currency then TextLe(a.currency, b.currency)
      else if a.amount != b.amount then a.amount < b.amount
      else if names(a.carrierId) != names(b.carrierId) then TextLe(names(a.carrierId), names(b.carrierId))
      else TextLe(a.id, b.id)
  }

  function CodeBefore(codes: Id -> string): (OfferRow, OfferRow) -> bool {
    (a: OfferRow, b: OfferRow) => TextLe(codes(a.carrierId), codes(b.carrierId))
  }

  predicate AnyEligible(rows: seq<OfferRow>) {
    exists r :: r in rows && r.eligible
  }

  function Response(rows: seq<OfferRow>, hasDeadline: bool, names: Id -> string, codes: Id -> string): RateResponse {
    var offers := Sorted(Where(rows, IsOffer), ShownBefore(names));
    RateResponse(
      offers,
      Sorted(Where(rows, IsBlocked), CodeBefore(codes)),
      Sorted(Where(rows, IsFailure), CodeBefore(codes)),
      hasDeadline && offers != [] && !AnyEligible(offers))
  }

  lemma {:induction false} WhereCounts(rows: seq<OfferRow>, p: OfferRow -> bool, r: OfferRow)
    ensures multiset(Where(rows, p))[r] == if p(r) then multiset(rows)[r] else 0
  {
    if rows != [] {
      assert rows == [rows[0]] + rows[1..];
      WhereCounts(rows[1..], p, r);
    }
  }

  lemma WhereOfPermuted(a: seq<OfferRow>, b: seq<OfferRow>, p: OfferRow -> bool)
    requires multiset(a) == multiset(b)
    ensures multiset(Where(a, p)) == multiset(Where(b, p))
  {
    forall r ensures multiset(Where(a, p))[r] == multiset(Where(b, p))[r] {
      WhereCounts(a, p, r);
      WhereCounts(b, p, r);
    }
  }

  lemma ShownBeforeOrders(names: Id -> string)
    ensures TotalPreorder(ShownBefore(names))
  {
    var le := ShownBefore(names);
    forall x, y ensures le(x, y) || le(y, x) {
      ShownBeforeTotal(names, x, y);
    }
    forall x, y, z | le(x, y) && le(y, z) ensures le(x, z) {
      ShownBeforeTransitive(names, x, y, z);
    }
  }

  lemma ShownBeforeTotal(names: Id -> string, x: OfferRow, y: OfferRow)
    ensures ShownBefore(names)(x, y) || ShownBefore(names)(y, x)
    ensures ShownBefore(names)(x, y) && ShownBefore(names)(y, x) ==> x.id == y.id
  {
    TextLaws(x.currency, y.currency, "");
    TextLaws(names(x.carrierId), names(y.carrierId), "");
    TextLaws(x.id, y.id, "");
  }

  lemma ShownBeforeTransitive(names: Id -> string, x: OfferRow, y: OfferRow, z: OfferRow)
    requires ShownBefore(names)(x, y) && ShownBefore(names)(y, z)
    ensures ShownBefore(names)(x, z)
  {
    TextLaws(x.currency, y.currency, z.currency);
    TextLaws(names(x.carrierId), names(y.carrierId), names(z.carrierId));
    TextLaws(x.id, y.id, z.id);
  }

  ghost predicate DistinctIds(rows: seq<OfferRow>) {
    forall i, j :: 0 <= i < j < |rows| ==> rows[i].id != rows[j].id
  }

  lemma DistinctIdsDoNotTie(rows: seq<OfferRow>, names: Id -> string)
    requires DistinctIds(rows)
    ensures NoTies(Where(rows, IsOffer), ShownBefore(names))
  {
    var le, offers := ShownBefore(names), Where(rows, IsOffer);
    forall x, y | x in offers && y in offers && le(x, y) && le(y, x) ensures x == y {
      WhereCounts(rows, IsOffer, x);
      WhereCounts(rows, IsOffer, y);
      assert x in multiset(offers) && y in multiset(offers);
      ShownBeforeTotal(names, x, y);
      assert x in multiset(rows) && y in multiset(rows);
      var i :| 0 <= i < |rows| && rows[i] == x;
      var j :| 0 <= j < |rows| && rows[j] == y;
    }
  }

  /** Read back in any order, the saved rows give the same list of offers and the same deadline flag. */
  lemma OffersIgnoreRowOrder(a: seq<OfferRow>, b: seq<OfferRow>, hasDeadline: bool, names: Id -> string, codes: Id -> string)
    requires DistinctIds(a) && multiset(a) == multiset(b)
    ensures var r, s := Response(a, hasDeadline, names, codes), Response(b, hasDeadline, names, codes);
            && r.offers == s.offers && r.noDeadlineMatch == s.noDeadlineMatch
            && multiset(r.blocked) == multiset(s.blocked) && multiset(r.failures) == multiset(s.failures)
  {
    ShownBeforeOrders(names);
    DistinctIdsDoNotTie(a, names);
    WhereOfPermuted(a, b, IsOffer);
    WhereOfPermuted(a, b, IsBlocked);
    WhereOfPermuted(a, b, IsFailure);
    SortedIgnoresInputOrder(Where(a, IsOffer), Where(b, IsOffer), ShownBefore(names));
    SortedPermutes(Where(a, IsBlocked), CodeBefore(codes));
    SortedPermutes(Where(b, IsBlocked), CodeBefore(codes));
    SortedPermutes(Where(a, IsFailure), CodeBefore(codes));
    SortedPermutes(Where(b, IsFailure), CodeBefore(codes));
  }

  lemma SortedWhere(rows: seq<OfferRow>, p: OfferRow -> bool, le: (OfferRow, OfferRow) -> bool)
    ensures forall x :: multiset(Sorted(Where(rows, p), le))[x] == if p(x) then multiset(rows)[x] else 0
    ensures forall x :: x in Sorted(Where(rows, p), le) <==> p(x) && x in rows
  {
    var s := Sorted(Where(rows, p), le);
    SortedPermutes(Where(rows, p), le);
    forall x ensures multiset(s)[x] == if p(x) then multiset(rows)[x] else 0 {
      WhereCounts(rows, p, x);
    }
    forall x ensures x in s <==> p(x) && x in rows {
      assert x in s <==> x in multiset(s);
      assert x in rows <==> x in multiset(rows);
    }
  }

  /**
   Every saved row is shown, and in one of the three lists only. The offers are ordered, and "nobody makes the
   deadline" is said exactly when there are offers and none of them does.
   */
  lemma EveryRowIsShownOnce(rows: seq<OfferRow>, hasDeadline: bool, names: Id -> string, codes: Id -> string)
    ensures var r := Response(rows, hasDeadline, names, codes);
            && multiset(r.offers) + multiset(r.blocked) + multiset(r.failures) == multiset(rows)
            && (forall x :: x in r.offers <==> x in rows && x.errorCode.None?)
            && (forall x :: x in r.blocked <==> x in rows && x.errorCode == Some(BLOCKED_BY_POLICY))
            && (forall x :: x in r.failures <==> x in rows && x.errorCode.Some? && x.errorCode.value != BLOCKED_BY_POLICY)
            && IsSorted(r.offers, ShownBefore(names))
            && (r.noDeadlineMatch <==>
                 hasDeadline && (exists x :: x in rows && x.errorCode.None?)
                 && forall x :: x in rows && x.errorCode.None? ==> !x.eligible)
  {
    var r := Response(rows, hasDeadline, names, codes);
    SortedWhere(rows, IsOffer, ShownBefore(names));
    SortedWhere(rows, IsBlocked, CodeBefore(codes));
    SortedWhere(rows, IsFailure, CodeBefore(codes));
    ShownBeforeOrders(names);
    SortedIsSorted(Where(rows, IsOffer), ShownBefore(names));
    forall x ensures (multiset(r.offers) + multiset(r.blocked) + multiset(r.failures))[x] == multiset(rows)[x] {
      assert IsOffer(x) || IsBlocked(x) || IsFailure(x);
    }
    if r.offers != [] {
      assert r.offers[0] in r.offers;
    }
  }

  // ----- saving the rows of a fresh answer -----

  const SECOND := 1_000_000

  /** `int()` of a number of seconds given in microseconds: the fraction is cut off toward zero. */
  function WholeSeconds(micros: int): int {
    if micros >= 0 then micros / SECOND else -(-micros / SECOND)
  }

  /** Margin and lateness in seconds of a promise against a deadline, both given in microseconds. */
  function DeadlineGap(eta: Option<int>, deadline: Option<int>): (Option<int>, Option<int>) {
    if eta.None? || deadline.None? then (None, None)
    else
      var gap := WholeSeconds(deadline.value - eta.value);
      if gap >= 0 then (Some(gap), Some(0)) else (Some(0), Some(-gap))
  }

  function MeetsDeadline(eta: Option<int>, deadline: Option<int>): Option<bool> {
    if deadline.None? || eta.None? then None else Some(DeadlineGap(eta, deadline).1 == Some(0))
  }

  /**
   Margin and lateness are never negative and never both positive. Because the fraction is cut off, an offer counts
   as in time exactly when it is promised less than a whole second after the deadline.
   */
  lemma DeadlineGapIsOneSided(eta: int, deadline: int)
    ensures var (margin, lateness) := DeadlineGap(Some(eta), Some(deadline));
            && margin.Some? && lateness.Some? && margin.value >= 0 && lateness.value >= 0
            && (margin.value == 0 || lateness.value == 0)
            && (MeetsDeadline(Some(eta), Some(deadline)) == Some(true) <==> eta < deadline + SECOND)
            && (lateness.value > 0 ==> lateness.value * SECOND <= eta - deadline < (lateness.value + 1) * SECOND)
            && (margin.value > 0 ==> margin.value * SECOND <= deadline - eta < (margin.value + 1) * SECOND)
  {
  }
}
