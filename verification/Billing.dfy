/**
 What the calculation promised against what the carrier charged: the lines, the totals by currency and by
 carrier, and the database conditions they are selected by.
 */
module Billing {
  import opened Collections
  import opened Options
  import S = Sorting

  type CarrierId = nat

  datatype Shipment = Shipment(
    id: nat, carrier: Option<CarrierId>, currency: string, quoted: Option<int>, actual: Option<int>, createdAt: int)

  // ----- the database's own logic -----

  datatype Truth = True | False | Unknown

  function Not(a: Truth): Truth {
    match a
    case True => False
    case False => True
    case Unknown => Unknown
  }

  function And(a: Truth, b: Truth): Truth {
    if a == False || b == False then False
    else if a == Unknown || b == Unknown then Unknown
    else True
  }

  function Truly(b: bool): Truth {
    if b then True else False
  }

  function IsNull(x: Option<int>): Truth {
    Truly(x.None?)
  }

  /** A comparison with a missing value is neither true nor false. */
  function Equals(a: Option<int>, b: Option<int>): Truth {
    if a.None? || b.None? then Unknown else Truly(a.value == b.value)
  }

  function Greater(a: Option<int>, b: Option<int>): Truth {
    if a.None? || b.None? then Unknown else Truly(a.value > b.value)
  }

  datatype State = Awaiting | NoQuote | Matched | Overcharged | Undercharged

  /** The condition of a state, as the database evaluates it. */
  function StateFilter(state: State, s: Shipment): Truth {
    match state
    case Awaiting => IsNull(s.actual)
    case NoQuote => And(Not(IsNull(s.actual)), IsNull(s.quoted))
    case Matched => And(And(Not(IsNull(s.actual)), Not(IsNull(s.quoted))), Equals(s.actual, s.quoted))
    case Overcharged => And(And(Not(IsNull(s.actual)), Not(IsNull(s.quoted))), Greater(s.actual, s.quoted))
    case Undercharged => And(And(Not(IsNull(s.actual)), Not(IsNull(s.quoted))), Greater(s.quoted, s.actual))
  }

  function Reconciled(s: Shipment): Truth {
    And(Not(IsNull(s.actual)), Not(IsNull(s.quoted)))
  }

  /** What the list and the totals are asked for. */
  datatype Query = Query(since: int, carrier: Option<CarrierId>, state: Option<State>)

  function CarrierIs(s: Shipment, carrier: CarrierId): Truth {
    if s.carrier.None? then Unknown else Truly(s.carrier.value == carrier)
  }

  function Where(q: Query, s: Shipment): Truth {
    var recent := Truly(s.createdAt >= q.since);
    var ofCarrier := if q.carrier.Some? then And(recent, CarrierIs(s, q.carrier.value)) else recent;
    if q.state.Some? then And(ofCarrier, StateFilter(q.state.value, s)) else ofCarrier
  }

  /** The conditions the queries are built from. */
  datatype Condition =
    | Asked(q: Query) | InState(state: State) | IsReconciled | HasCurrency(currency: string) | HasKey(key: CarrierKey)

  function Holds(c: Condition, s: Shipment): Truth {
    match c
    case Asked(q) => Where(q, s)
    case InState(state) => StateFilter(state, s)
    case IsReconciled => Reconciled(s)
    case HasCurrency(currency) => Truly(s.currency == currency)
    case HasKey(key) => Truly(KeyOf(s) == key)
  }

  /** The rows for which a condition is true; unknown is not enough. */
  function Selected(c: Condition, rows: seq<Shipment>): seq<Shipment> {
    if rows == [] then []
    else
      var front, last := Selected(c, rows[..|rows| - 1]), rows[|rows| - 1];
      if Holds(c, last) == True then front + [last] else front
  }

  // ----- the same on values -----

  function StateOf(quoted: Option<int>, actual: Option<int>): State {
    if actual.None? then Awaiting
    else if quoted.None? then NoQuote
    else if actual.value == quoted.value then Matched
    else if actual.value > quoted.value then Overcharged
    else Undercharged
  }

  /** What was charged over what was promised, when both are known. */
  function Difference(s: Shipment): Option<int> {
    if s.actual.Some? && s.quoted.Some? then Some(s.actual.value - s.quoted.value) else None
  }

  // ----- aggregates -----

  /** What can be summed: an amount, the difference of a line, or one for each row. */
  datatype Column = One | Quoted | Actual | Excess

  function Value(x: Column, s: Shipment): Option<int> {
    match x
    case One => Some(1)
    case Quoted => s.quoted
    case Actual => s.actual
    case Excess => Difference(s)
  }

  /** `count(*)` with a filter. */
  function Count(c: Condition, rows: seq<Shipment>): nat {
    |Selected(c, rows)|
  }

  /** `coalesce(sum(x), 0)`: missing values are skipped. */
  function Sum(x: Column, rows: seq<Shipment>): int {
    if rows == [] then 0 else Sum(x, rows[..|rows| - 1]) + Value(x, rows[|rows| - 1]).GetOr(0)
  }

  datatype CurrencyTotals = CurrencyTotals(
    currency: string, shipments: nat, quoted: int, quotedReconciled: int, actual: int,
    awaiting: nat, noQuote: nat, matched: nat, overcharged: nat, undercharged: nat)
  {
    function Difference(): int {
      actual - quotedReconciled
    }
  }

  datatype CarrierKey = CarrierKey(carrier: Option<CarrierId>, currency: string)

  datatype CarrierTotals = CarrierTotals(key: CarrierKey, reconciled: nat, quoted: int, actual: int) {
    function Difference(): int {
      actual - quoted
    }
  }

  function KeyOf(s: Shipment): CarrierKey {
    CarrierKey(s.carrier, s.currency)
  }

  /** What the header says of one currency, over the rows of its group. */
  function TotalsOf(currency: string, group: seq<Shipment>): CurrencyTotals {
    CurrencyTotals(
      currency, |group|, Sum(Quoted, group),
      Sum(Quoted, Selected(IsReconciled, group)), Sum(Actual, Selected(IsReconciled, group)),
      Count(InState(Awaiting), group), Count(InState(NoQuote), group),
      Count(InState(Matched), group), Count(InState(Overcharged), group), Count(InState(Undercharged), group))
  }

  /** One row of the totals by currency. */
  function CurrencyRow(currency: string, matching: seq<Shipment>): CurrencyTotals {
    TotalsOf(currency, Selected(HasCurrency(currency), matching))
  }

  /** One row of the totals by carrier, over reconciled rows only. */
  function CarrierRow(key: CarrierKey, reconciled: seq<Shipment>): CarrierTotals {
    var group := Selected(HasKey(key), reconciled);
    CarrierTotals(key, |group|, Sum(Quoted, group), Sum(Actual, group))
  }

  /** A grouping has one row for each key that occurs, and no other; the order of the rows is the query's. */
  ghost predicate IsByCurrency(q: Query, table: seq<Shipment>, totals: seq<CurrencyTotals>) {
    var matching := Selected(Asked(q), table);
    && (forall i, j :: 0 <= i < j < |totals| ==> totals[i].currency != totals[j].currency)
    && (forall i :: 0 <= i < |totals| ==>
         totals[i] == CurrencyRow(totals[i].currency, matching) && totals[i].shipments > 0)
    && (forall s :: s in matching ==> CurrencyListed(totals, s.currency))
  }

  ghost predicate CurrencyListed(totals: seq<CurrencyTotals>, currency: string) {
    exists k :: 0 <= k < |totals| && totals[k].currency == currency
  }

  ghost predicate IsByCarrier(q: Query, table: seq<Shipment>, totals: seq<CarrierTotals>) {
    var reconciled := Selected(IsReconciled, Selected(Asked(q), table));
    && (forall i, j :: 0 <= i < j < |totals| ==> totals[i].key != totals[j].key)
    && (forall i :: 0 <= i < |totals| ==>
         totals[i] == CarrierRow(totals[i].key, reconciled) && totals[i].reconciled > 0)
    && (forall s :: s in reconciled ==> KeyListed(totals, KeyOf(s)))
  }

  ghost predicate KeyListed(totals: seq<CarrierTotals>, key: CarrierKey) {
    exists k :: 0 <= k < |totals| && totals[k].key == key
  }

  // ----- labels and filters agree -----

  /** Every filter is decided for every row, and selects exactly the rows that carry its label. */
  lemma FiltersAgreeWithLabels(state: State, s: Shipment)
    ensures StateFilter(state, s) == Truly(StateOf(s.quoted, s.actual) == state)
    ensures Reconciled(s) == Truly(Difference(s).Some?)
    ensures Difference(s).Some? <==> StateOf(s.quoted, s.actual) in {Matched, Overcharged, Undercharged}
  {
  }

  lemma {:induction false} SelectedIs(c: Condition, rows: seq<Shipment>)
    ensures forall s :: s in Selected(c, rows) <==> s in rows && Holds(c, s) == True
  {
    if rows != [] {
      SelectedIs(c, rows[..|rows| - 1]);
      assert forall s :: s in rows <==> s in rows[..|rows| - 1] || s == rows[|rows| - 1];
    }
  }

  /** What the list shows for a state filter is what carries that label, whatever else is asked. */
  lemma FilteredListHasTheLabel(q: Query, table: seq<Shipment>, state: State, s: Shipment)
    requires q.state == Some(state)
    ensures s in Selected(Asked(q), table) <==>
              s in Selected(Asked(q.(state := None)), table) && StateOf(s.quoted, s.actual) == state
  {
    SelectedIs(Asked(q), table);
    SelectedIs(Asked(q.(state := None)), table);
    FiltersAgreeWithLabels(state, s);
  }

  /** How many rows carry a label. */
  function Labelled(state: State, rows: seq<Shipment>): nat {
    if rows == [] then 0
    else
      var last := rows[|rows| - 1];
      Labelled(state, rows[..|rows| - 1]) + if StateOf(last.quoted, last.actual) == state then 1 else 0
  }

  lemma {:induction false} CountIsOfTheLabel(state: State, rows: seq<Shipment>)
    ensures Count(InState(state), rows) == Labelled(state, rows)
  {
    if rows != [] {
      CountIsOfTheLabel(state, rows[..|rows| - 1]);
      FiltersAgreeWithLabels(state, rows[|rows| - 1]);
    }
  }

  /** Each counter of a currency, by its name in the header. */
  function Counter(t: CurrencyTotals, state: State): nat {
    match state
    case Awaiting => t.awaiting
    case NoQuote => t.noQuote
    case Matched => t.matched
    case Overcharged => t.overcharged
    case Undercharged => t.undercharged
  }

  /** Each counter in the header is the number of lines that carry its label in the list. */
  lemma CountersCountLabels(currency: string, matching: seq<Shipment>, state: State)
    ensures Counter(CurrencyRow(currency, matching), state) == Labelled(state, Selected(HasCurrency(currency), matching))
  {
    CountIsOfTheLabel(state, Selected(HasCurrency(currency), matching));
  }

  lemma {:induction false} StatesPartition(rows: seq<Shipment>)
    ensures Count(InState(Awaiting), rows) + Count(InState(NoQuote), rows) + Count(InState(Matched), rows)
            + Count(InState(Overcharged), rows) + Count(InState(Undercharged), rows) == |rows|
  {
    if rows != [] {
      StatesPartition(rows[..|rows| - 1]);
    }
  }

  /** The five counters of a currency add up to its shipments. */
  lemma CountersPartition(currency: string, matching: seq<Shipment>)
    ensures var t := CurrencyRow(currency, matching);
            t.awaiting + t.noQuote + t.matched + t.overcharged + t.undercharged == t.shipments
  {
    StatesPartition(Selected(HasCurrency(currency), matching));
  }

  // ----- the totals of a currency agree with its lines -----

  /** One more shipment adds to the sums that select it, and to no other. */
  lemma OneMoreSelected(x: Column, c: Condition, rows: seq<Shipment>)
    requires rows != []
    ensures var front, last := rows[..|rows| - 1], rows[|rows| - 1];
            Sum(x, Selected(c, rows)) == Sum(x, Selected(c, front)) + if Holds(c, last) == True then Value(x, last).GetOr(0) else 0
  {
    var before, last := Selected(c, rows[..|rows| - 1]), rows[|rows| - 1];
    assert (before + [last])[..|before|] == before;
  }

  lemma {:induction false} ReconciledSums(rows: seq<Shipment>)
    ensures Sum(Actual, Selected(IsReconciled, rows)) - Sum(Quoted, Selected(IsReconciled, rows)) == Sum(Excess, rows)
  {
    if rows != [] {
      ReconciledSums(rows[..|rows| - 1]);
      OneMoreSelected(Actual, IsReconciled, rows);
      OneMoreSelected(Quoted, IsReconciled, rows);
      FiltersAgreeWithLabels(Awaiting, rows[|rows| - 1]);
    }
  }

  /** A currency's difference is the sum of the differences of its lines. */
  lemma CurrencyDifferenceIsOfItsLines(currency: string, matching: seq<Shipment>)
    ensures CurrencyRow(currency, matching).Difference() == Sum(Excess, Selected(HasCurrency(currency), matching))
  {
    ReconciledSums(Selected(HasCurrency(currency), matching));
  }

  // ----- and with its carriers -----

  /** A column of the totals by carrier. */
  function Total(x: Column, t: CarrierTotals): int {
    match x
    case One => t.reconciled
    case Quoted => t.quoted
    case Actual => t.actual
    case Excess => t.Difference()
  }

  /** A column of the carriers of one currency, added up over the rows of the totals. */
  function CarrierSum(x: Column, totals: seq<CarrierTotals>, currency: string): int {
    if totals == [] then 0
    else
      var front, last := totals[..|totals| - 1], totals[|totals| - 1];
      CarrierSum(x, front, currency) + if last.key.currency == currency then Total(x, last) else 0
  }

  function Keys(totals: seq<CarrierTotals>): seq<CarrierKey> {
    seq(|totals|, i requires 0 <= i < |totals| => totals[i].key)
  }

  /** The same with every row computed anew from some reconciled shipments. */
  function KeySum(x: Column, keys: seq<CarrierKey>, currency: string, rows: seq<Shipment>): int {
    if keys == [] then 0
    else
      var front, last := keys[..|keys| - 1], keys[|keys| - 1];
      KeySum(x, front, currency, rows) + if last.currency == currency then Sum(x, Selected(HasKey(last), rows)) else 0
  }

  lemma {:induction false} SumOfOnes(rows: seq<Shipment>)
    ensures Sum(One, rows) == |rows|
  {
    if rows != [] {
      SumOfOnes(rows[..|rows| - 1]);
    }
  }

  lemma {:induction false} SumOfExcess(rows: seq<Shipment>)
    requires forall i :: 0 <= i < |rows| ==> Reconciled(rows[i]) == True
    ensures Sum(Excess, rows) == Sum(Actual, rows) - Sum(Quoted, rows)
  {
    if rows != [] {
      SumOfExcess(rows[..|rows| - 1]);
      FiltersAgreeWithLabels(Awaiting, rows[|rows| - 1]);
    }
  }

  /** Every column of a carrier's row is a sum over its group. */
  lemma RowIsSums(x: Column, key: CarrierKey, rows: seq<Shipment>)
    requires forall i :: 0 <= i < |rows| ==> Reconciled(rows[i]) == True
    ensures Total(x, CarrierRow(key, rows)) == Sum(x, Selected(HasKey(key), rows))
  {
    var group := Selected(HasKey(key), rows);
    SelectedIs(HasKey(key), rows);
    forall i | 0 <= i < |group|
      ensures Reconciled(group[i]) == True
    {
      assert group[i] in group && group[i] in rows;
    }
    SumOfOnes(group);
    SumOfExcess(group);
  }

  lemma {:induction false} RowsAreKeys(x: Column, totals: seq<CarrierTotals>, currency: string, rows: seq<Shipment>)
    requires forall i :: 0 <= i < |rows| ==> Reconciled(rows[i]) == True
    requires forall i :: 0 <= i < |totals| ==> totals[i] == CarrierRow(totals[i].key, rows)
    ensures CarrierSum(x, totals, currency) == KeySum(x, Keys(totals), currency, rows)
  {
    if totals != [] {
      var last := totals[|totals| - 1];
      RowsAreKeys(x, totals[..|totals| - 1], currency, rows);
      assert Keys(totals)[..|totals| - 1] == Keys(totals[..|totals| - 1]);
      RowIsSums(x, last.key, rows);
    }
  }

  lemma {:induction false} NoRowForTheKey(x: Column, keys: seq<CarrierKey>, currency: string, rows: seq<Shipment>)
    requires rows != [] && KeyOf(rows[|rows| - 1]) !in keys
    ensures KeySum(x, keys, currency, rows) == KeySum(x, keys, currency, rows[..|rows| - 1])
  {
    if keys != [] {
      NoRowForTheKey(x, keys[..|keys| - 1], currency, rows);
      OneMoreSelected(x, HasKey(keys[|keys| - 1]), rows);
    }
  }

  lemma {:induction false} OneRowForTheKey(x: Column, keys: seq<CarrierKey>, currency: string, rows: seq<Shipment>)
    requires rows != [] && KeyOf(rows[|rows| - 1]) in keys && Distinct(keys)
    ensures var last := rows[|rows| - 1];
            KeySum(x, keys, currency, rows)
            == KeySum(x, keys, currency, rows[..|rows| - 1]) + if last.currency == currency then Value(x, last).GetOr(0) else 0
  {
    var front, key := keys[..|keys| - 1], keys[|keys| - 1];
    OneMoreSelected(x, HasKey(key), rows);
    if key == KeyOf(rows[|rows| - 1]) {
      assert key !in front;
      NoRowForTheKey(x, front, currency, rows);
    } else {
      OneRowForTheKey(x, front, currency, rows);
    }
  }

  lemma {:induction false} NoShipmentsNoSum(x: Column, keys: seq<CarrierKey>, currency: string)
    ensures KeySum(x, keys, currency, []) == 0
  {
    if keys != [] {
      NoShipmentsNoSum(x, keys[..|keys| - 1], currency);
    }
  }

  ghost predicate AllKeyed(keys: seq<CarrierKey>, rows: seq<Shipment>) {
    forall i :: 0 <= i < |rows| ==> KeyOf(rows[i]) in keys
  }

  /** Every shipment is in one group: the groups share out each column of the currency. */
  lemma {:induction false} KeysShareTheSum(x: Column, keys: seq<CarrierKey>, currency: string, rows: seq<Shipment>)
    requires Distinct(keys) && AllKeyed(keys, rows)
    ensures KeySum(x, keys, currency, rows) == Sum(x, Selected(HasCurrency(currency), rows))
  {
    if rows == [] {
      NoShipmentsNoSum(x, keys, currency);
    } else {
      KeysShareTheSum(x, keys, currency, rows[..|rows| - 1]);
      OneRowForTheKey(x, keys, currency, rows);
      OneMoreSelected(x, HasCurrency(currency), rows);
    }
  }

  /** Selecting by two conditions gives the same rows in either order. */
  lemma {:induction false} SelectionsCommute(c: Condition, d: Condition, rows: seq<Shipment>)
    ensures Selected(c, Selected(d, rows)) == Selected(d, Selected(c, rows))
  {
    if rows != [] {
      var front, last := rows[..|rows| - 1], rows[|rows| - 1];
      SelectionsCommute(c, d, front);
      var a, b := Selected(d, front), Selected(c, front);
      assert (a + [last])[..|a|] == a && (b + [last])[..|b|] == b;
    }
  }

  /** The columns of a currency's row over its reconciled lines. */
  lemma CarriersShareTheCurrency(q: Query, table: seq<Shipment>, carriers: seq<CarrierTotals>, currency: string, x: Column)
    requires IsByCarrier(q, table, carriers)
    ensures CarrierSum(x, carriers, currency)
            == Sum(x, Selected(IsReconciled, Selected(HasCurrency(currency), Selected(Asked(q), table))))
  {
    var matching := Selected(Asked(q), table);
    var reconciled := Selected(IsReconciled, matching);
    SelectedIs(IsReconciled, matching);
    forall i | 0 <= i < |reconciled|
      ensures KeyOf(reconciled[i]) in Keys(carriers) && Reconciled(reconciled[i]) == True
    {
      assert reconciled[i] in reconciled;
      var k :| 0 <= k < |carriers| && carriers[k].key == KeyOf(reconciled[i]);
      assert Keys(carriers)[k] == KeyOf(reconciled[i]);
    }
    RowsAreKeys(x, carriers, currency, reconciled);
    KeysShareTheSum(x, Keys(carriers), currency, reconciled);
    SelectionsCommute(HasCurrency(currency), IsReconciled, matching);
  }

  lemma {:induction false} ReconciledAreLabelled(rows: seq<Shipment>)
    ensures |Selected(IsReconciled, rows)|
            == Count(InState(Matched), rows) + Count(InState(Overcharged), rows) + Count(InState(Undercharged), rows)
  {
    if rows != [] {
      ReconciledAreLabelled(rows[..|rows| - 1]);
    }
  }

  /**
   For every set of shipments and every query the header agrees with itself and with the list: a currency's
   difference is the sum of the differences of its lines and of those of its carriers, its reconciled amounts
   are shared out among its carriers, and so are its reconciled shipments.
   */
  lemma TotalsAgree(q: Query, table: seq<Shipment>, currencies: seq<CurrencyTotals>, carriers: seq<CarrierTotals>, i: nat)
    requires IsByCurrency(q, table, currencies) && IsByCarrier(q, table, carriers) && i < |currencies|
    ensures var t := currencies[i];
            && t.Difference() == Sum(Excess, Selected(HasCurrency(t.currency), Selected(Asked(q), table)))
            && t.Difference() == CarrierSum(Excess, carriers, t.currency)
            && t.quotedReconciled == CarrierSum(Quoted, carriers, t.currency)
            && t.actual == CarrierSum(Actual, carriers, t.currency)
            && t.matched + t.overcharged + t.undercharged == CarrierSum(One, carriers, t.currency)
  {
    var matching, currency := Selected(Asked(q), table), currencies[i].currency;
    var lines := Selected(HasCurrency(currency), matching);
    var reconciled := Selected(IsReconciled, lines);
    CurrencyDifferenceIsOfItsLines(currency, matching);
    CarriersShareTheCurrency(q, table, carriers, currency, Excess);
    CarriersShareTheCurrency(q, table, carriers, currency, Quoted);
    CarriersShareTheCurrency(q, table, carriers, currency, Actual);
    CarriersShareTheCurrency(q, table, carriers, currency, One);
    ReconciledAreLabelled(lines);
    SumOfOnes(reconciled);
    SelectedIs(IsReconciled, lines);
    forall k | 0 <= k < |reconciled|
      ensures Reconciled(reconciled[k]) == True
    {
      assert reconciled[k] in reconciled;
    }
    SumOfExcess(reconciled);
  }
}
