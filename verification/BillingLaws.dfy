/** What the reconciliation says of one shipment, and what one shipment more does to every total. */
module BillingLaws {
  import opened Options
  import opened Billing

  // ----- one line -----

  /** The label of a line, by its two amounts. */
  lemma WhatALineIs(quoted: Option<int>, actual: Option<int>)
    ensures StateOf(None, None) == Awaiting && StateOf(quoted, None) == Awaiting
    ensures actual.Some? && quoted.None? ==> StateOf(quoted, actual) == NoQuote
    ensures actual.Some? && quoted.Some? ==>
              && (StateOf(quoted, actual) == Matched <==> actual.value - quoted.value == 0)
              && (StateOf(quoted, actual) == Overcharged <==> actual.value - quoted.value > 0)
              && (StateOf(quoted, actual) == Undercharged <==> actual.value - quoted.value < 0)
  {
  }

  /** A line that was charged more than promised has a positive difference, one charged less a negative one. */
  lemma DifferenceHasTheSignOfTheLabel(s: Shipment)
    ensures Difference(s).Some? <==> s.quoted.Some? && s.actual.Some?
    ensures Difference(s).Some? ==>
              && s.quoted.value + Difference(s).value == s.actual.value
              && (Difference(s).value > 0 <==> StateOf(s.quoted, s.actual) == Overcharged)
              && (Difference(s).value < 0 <==> StateOf(s.quoted, s.actual) == Undercharged)
  {
  }

  /** The shipment belongs to a query: not older than its day, of its carrier and with its label where these are named. */
  predicate IsAskedFor(q: Query, s: Shipment) {
    && s.createdAt >= q.since
    && (q.carrier.Some? ==> s.carrier == q.carrier)
    && (q.state.Some? ==>
         match q.state.value
         case Awaiting => s.actual == None
         case NoQuote => s.actual != None && s.quoted == None
         case Matched => s.actual != None && s.actual == s.quoted
         case Overcharged => s.actual.Some? && s.quoted.Some? && s.quoted.value < s.actual.value
         case Undercharged => s.actual.Some? && s.quoted.Some? && s.actual.value < s.quoted.value)
  }

  lemma AskedIsAsked(q: Query, s: Shipment)
    ensures Holds(Asked(q), s) == True <==> IsAskedFor(q, s)
  {
  }

  /** The database selects exactly the shipments asked for, each as often as it stands in the table. */
  lemma {:induction false} WhatAQuerySelects(q: Query, table: seq<Shipment>, s: Shipment)
    ensures multiset(Selected(Asked(q), table))[s] == if IsAskedFor(q, s) then multiset(table)[s] else 0
  {
    OftenAsHeld(Asked(q), table, s);
    AskedIsAsked(q, s);
  }

  lemma {:induction false} OneMoreCopy(rows: seq<Shipment>, last: Shipment, s: Shipment)
    ensures multiset(rows + [last])[s] == multiset(rows)[s] + if s == last then 1 else 0
  {
  }

  lemma {:induction false} OftenAsHeld(c: Condition, rows: seq<Shipment>, s: Shipment)
    ensures multiset(Selected(c, rows))[s] == if Holds(c, s) == True then multiset(rows)[s] else 0
  {
    if rows != [] {
      var front, last := rows[..|rows| - 1], rows[|rows| - 1];
      OftenAsHeld(c, front, s);
      OneMoreCopy(front, last, s);
      OneMoreCopy(Selected(c, front), last, s);
      assert front + [last] == rows;
    }
  }

  // ----- one more shipment -----

  function If(b: bool, x: int): int {
    if b then x else 0
  }

  /** Both amounts are known. */
  predicate IsComparable(s: Shipment) {
    s.quoted.Some? && s.actual.Some?
  }

  lemma {:induction false} SelectedWith(c: Condition, rows: seq<Shipment>, s: Shipment)
    ensures Selected(c, rows + [s]) == if Holds(c, s) == True then Selected(c, rows) + [s] else Selected(c, rows)
  {
    assert (rows + [s])[..|rows|] == rows;
  }

  lemma {:induction false} SumWith(x: Column, rows: seq<Shipment>, s: Shipment)
    ensures Sum(x, rows + [s]) == Sum(x, rows) + Value(x, s).GetOr(0)
  {
    assert (rows + [s])[..|rows|] == rows;
  }

  lemma {:induction false} CountWith(state: State, group: seq<Shipment>, s: Shipment)
    ensures Count(InState(state), group + [s]) == Count(InState(state), group) + If(StateOf(s.quoted, s.actual) == state, 1)
  {
    SelectedWith(InState(state), group, s);
    FiltersAgreeWithLabels(state, s);
  }

  lemma {:induction false} ReconciledSumWith(x: Column, group: seq<Shipment>, s: Shipment)
    ensures Sum(x, Selected(IsReconciled, group + [s]))
            == Sum(x, Selected(IsReconciled, group)) + If(IsComparable(s), Value(x, s).GetOr(0))
  {
    SelectedWith(IsReconciled, group, s);
    SumWith(x, Selected(IsReconciled, group), s);
    FiltersAgreeWithLabels(Awaiting, s);
  }

  lemma {:induction false} SumsWith(currency: string, group: seq<Shipment>, s: Shipment)
    ensures var t, r := TotalsOf(currency, group), TotalsOf(currency, group + [s]);
            && r.currency == currency && r.shipments == t.shipments + 1
            && r.quoted == t.quoted + s.quoted.GetOr(0)
            && r.quotedReconciled == t.quotedReconciled + If(IsComparable(s), s.quoted.GetOr(0))
            && r.actual == t.actual + If(IsComparable(s), s.actual.GetOr(0))
  {
    SumWith(Quoted, group, s);
    ReconciledSumWith(Quoted, group, s);
    ReconciledSumWith(Actual, group, s);
  }

  lemma {:induction false} CountersWith(currency: string, group: seq<Shipment>, s: Shipment)
    ensures var t, r := TotalsOf(currency, group), TotalsOf(currency, group + [s]);
            && r.awaiting == t.awaiting + If(s.actual.None?, 1)
            && r.noQuote == t.noQuote + If(s.actual.Some? && s.quoted.None?, 1)
            && r.matched == t.matched + If(IsComparable(s) && s.actual == s.quoted, 1)
            && r.overcharged == t.overcharged + If(IsComparable(s) && s.actual.value > s.quoted.value, 1)
            && r.undercharged == t.undercharged + If(IsComparable(s) && s.actual.value < s.quoted.value, 1)
  {
    CountWith(Awaiting, group, s);
    CountWith(NoQuote, group, s);
    CountWith(Matched, group, s);
    CountWith(Overcharged, group, s);
    CountWith(Undercharged, group, s);
  }

  /**
   A shipment more in its currency: the promised amount counts where there is one, both amounts count toward the
   difference only where both are known, and exactly one of the five counters goes up, the one its amounts call for.
   */
  lemma {:induction false} OneMoreShipmentInACurrency(currency: string, matching: seq<Shipment>, s: Shipment)
    requires s.currency == currency
    ensures var t, r := CurrencyRow(currency, matching), CurrencyRow(currency, matching + [s]);
            && r.currency == currency && r.shipments == t.shipments + 1
            && r.quoted == t.quoted + s.quoted.GetOr(0)
            && r.quotedReconciled == t.quotedReconciled + If(IsComparable(s), s.quoted.GetOr(0))
            && r.actual == t.actual + If(IsComparable(s), s.actual.GetOr(0))
            && r.awaiting == t.awaiting + If(s.actual.None?, 1)
            && r.noQuote == t.noQuote + If(s.actual.Some? && s.quoted.None?, 1)
            && r.matched == t.matched + If(IsComparable(s) && s.actual == s.quoted, 1)
            && r.overcharged == t.overcharged + If(IsComparable(s) && s.actual.value > s.quoted.value, 1)
            && r.undercharged == t.undercharged + If(IsComparable(s) && s.actual.value < s.quoted.value, 1)
  {
    var group := Selected(HasCurrency(currency), matching);
    SelectedWith(HasCurrency(currency), matching, s);
    SumsWith(currency, group, s);
    CountersWith(currency, group, s);
  }

  /** A shipment in another currency changes nothing. */
  lemma {:induction false} OtherCurrenciesStayApart(currency: string, matching: seq<Shipment>, s: Shipment)
    ensures s.currency != currency ==> CurrencyRow(currency, matching + [s]) == CurrencyRow(currency, matching)
  {
    SelectedWith(HasCurrency(currency), matching, s);
  }

  lemma {:induction false} CarrierWith(key: CarrierKey, group: seq<Shipment>, s: Shipment)
    requires IsComparable(s)
    ensures Sum(Quoted, group + [s]) == Sum(Quoted, group) + s.quoted.value
    ensures Sum(Actual, group + [s]) == Sum(Actual, group) + s.actual.value
  {
    SumWith(Quoted, group, s);
    SumWith(Actual, group, s);
  }

  lemma OfTheKey(key: CarrierKey, s: Shipment)
    ensures Holds(HasKey(key), s) == True <==> s.carrier == key.carrier && s.currency == key.currency
  {
  }

  /** The same for a carrier and a currency, over reconciled shipments. */
  lemma {:induction false} OneMoreShipmentOfACarrier(key: CarrierKey, reconciled: seq<Shipment>, s: Shipment)
    requires IsComparable(s)
    ensures var t, r := CarrierRow(key, reconciled), CarrierRow(key, reconciled + [s]);
            if s.carrier == key.carrier && s.currency == key.currency
            then r == CarrierTotals(key, t.reconciled + 1, t.quoted + s.quoted.value, t.actual + s.actual.value) else r == t
  {
    OfTheKey(key, s);
    SelectedWith(HasKey(key), reconciled, s);
    CarrierWith(key, Selected(HasKey(key), reconciled), s);
  }

  /** No shipment is nothing in either. */
  lemma {:induction false} NoShipmentIsNothing(currency: string, key: CarrierKey)
    ensures CurrencyRow(currency, []) == CurrencyTotals(currency, 0, 0, 0, 0, 0, 0, 0, 0, 0)
    ensures CarrierRow(key, []) == CarrierTotals(key, 0, 0, 0)
  {
  }

  /** The differences that are shown: charged less promised, over the reconciled shipments. */
  lemma WhatADifferenceIs(t: CurrencyTotals, c: CarrierTotals)
    ensures t.quotedReconciled + t.Difference() == t.actual
    ensures c.quoted + c.Difference() == c.actual
  {
  }
}
