/** The totals and the pages of the reconciliation as they are produced, and what the pages are worth. */
module BillingPages {
  import opened Collections
  import opened Options
  import opened Billing
  import S = Sorting

  // ----- the groupings exist, and their counts add up to the list's -----

  /** Each value once, where it is first met. */
  function FirstSeen<T(==)>(xs: seq<T>): seq<T> {
    if xs == [] then []
    else
      var front, last := FirstSeen(xs[..|xs| - 1]), xs[|xs| - 1];
      if last in front then front else front + [last]
  }

  lemma {:induction false} FirstSeenIs<T(!new)>(xs: seq<T>)
    ensures Distinct(FirstSeen(xs)) && forall x :: x in FirstSeen(xs) <==> x in xs
  {
    if xs != [] {
      FirstSeenIs(xs[..|xs| - 1]);
      assert forall x :: x in xs <==> x in xs[..|xs| - 1] || x == xs[|xs| - 1];
    }
  }

  function CurrencyNames(rows: seq<Shipment>): seq<string> {
    seq(|rows|, i requires 0 <= i < |rows| => rows[i].currency)
  }

  function CarrierKeys(rows: seq<Shipment>): seq<CarrierKey> {
    seq(|rows|, i requires 0 <= i < |rows| => KeyOf(rows[i]))
  }

  /** The totals by currency, in the order of the currency codes. */
  function ByCurrency(q: Query, table: seq<Shipment>): seq<CurrencyTotals> {
    var matching := Selected(Asked(q), table);
    var names := S.Sorted(FirstSeen(CurrencyNames(matching)), S.TextLe);
    seq(|names|, i requires 0 <= i < |names| => CurrencyRow(names[i], matching))
  }

  /** The totals by carrier; the order of the rows, by the carrier's name, is left open. */
  function ByCarrier(q: Query, table: seq<Shipment>): seq<CarrierTotals> {
    var reconciled := Selected(IsReconciled, Selected(Asked(q), table));
    var keys := FirstSeen(CarrierKeys(reconciled));
    seq(|keys|, i requires 0 <= i < |keys| => CarrierRow(keys[i], reconciled))
  }

  lemma DistinctAfterSorting(xs: seq<string>)
    requires Distinct(xs)
    ensures Distinct(S.Sorted(xs, S.TextLe)) && forall x :: x in S.Sorted(xs, S.TextLe) <==> x in xs
  {
    var sorted := S.Sorted(xs, S.TextLe);
    S.SortedPermutes(xs, S.TextLe);
    forall x
      ensures x in sorted <==> x in xs
    {
      assert x in multiset(sorted) <==> x in multiset(xs);
    }
    forall i, j | 0 <= i < j < |sorted|
      ensures sorted[i] != sorted[j]
    {
      OnceInADistinctList(xs, sorted[i]);
      if sorted[i] == sorted[j] {
        TwiceInTheList(sorted, i, j);
      }
    }
  }

  lemma {:induction false} OnceInADistinctList<T>(xs: seq<T>, x: T)
    requires Distinct(xs)
    ensures multiset(xs)[x] <= 1
  {
    if xs != [] {
      OnceInADistinctList(xs[1..], x);
      S.WithoutFirst(xs);
      assert xs[0] !in xs[1..];
    }
  }

  lemma TwiceInTheList<T>(xs: seq<T>, i: nat, j: nat)
    requires i < j < |xs| && xs[i] == xs[j]
    ensures multiset(xs)[xs[i]] >= 2
  {
    assert xs == xs[..j] + [xs[j]] + xs[j + 1..];
    assert xs[i] in xs[..j];
  }

  lemma OccursMeansCounted(matching: seq<Shipment>, i: nat)
    requires i < |matching|
    ensures CurrencyRow(matching[i].currency, matching).shipments > 0
  {
    SelectedIs(HasCurrency(matching[i].currency), matching);
    assert matching[i] in Selected(HasCurrency(matching[i].currency), matching);
  }

  lemma ByCurrencyGroups(q: Query, table: seq<Shipment>)
    ensures IsByCurrency(q, table, ByCurrency(q, table))
  {
    var matching := Selected(Asked(q), table);
    var first := FirstSeen(CurrencyNames(matching));
    var names := S.Sorted(first, S.TextLe);
    FirstSeenIs(CurrencyNames(matching));
    DistinctAfterSorting(first);
    forall s | s in matching
      ensures CurrencyListed(ByCurrency(q, table), s.currency)
    {
      var i :| 0 <= i < |matching| && matching[i] == s;
      assert CurrencyNames(matching)[i] == s.currency;
      assert s.currency in names;
      var k :| 0 <= k < |names| && names[k] == s.currency;
      assert ByCurrency(q, table)[k].currency == s.currency;
    }
    forall k | 0 <= k < |names|
      ensures CurrencyRow(names[k], matching).shipments > 0
    {
      assert names[k] in CurrencyNames(matching);
      var i :| 0 <= i < |matching| && CurrencyNames(matching)[i] == names[k];
      OccursMeansCounted(matching, i);
    }
  }

  lemma ByCarrierGroups(q: Query, table: seq<Shipment>)
    ensures IsByCarrier(q, table, ByCarrier(q, table))
  {
    var reconciled := Selected(IsReconciled, Selected(Asked(q), table));
    var keys := FirstSeen(CarrierKeys(reconciled));
    FirstSeenIs(CarrierKeys(reconciled));
    forall s | s in reconciled
      ensures KeyListed(ByCarrier(q, table), KeyOf(s))
    {
      var i :| 0 <= i < |reconciled| && reconciled[i] == s;
      assert CarrierKeys(reconciled)[i] == KeyOf(s);
      assert KeyOf(s) in CarrierKeys(reconciled) && KeyOf(s) in keys;
      var k :| 0 <= k < |keys| && keys[k] == KeyOf(s);
      assert ByCarrier(q, table)[k].key == KeyOf(s);
    }
    forall k | 0 <= k < |keys|
      ensures CarrierRow(keys[k], reconciled).reconciled > 0
    {
      assert keys[k] in CarrierKeys(reconciled);
      var i :| 0 <= i < |reconciled| && CarrierKeys(reconciled)[i] == keys[k];
      SelectedIs(HasKey(keys[k]), reconciled);
      assert reconciled[i] in Selected(HasKey(keys[k]), reconciled);
    }
  }

  /** A currency whose shipments are all waiting or without a quote has no carrier row and no difference. */
  lemma NothingReconciledNothingCompared(q: Query, table: seq<Shipment>)
    requires q.state == Some(Awaiting) || q.state == Some(NoQuote)
    ensures ByCarrier(q, table) == []
  {
    var matching := Selected(Asked(q), table);
    SelectedIs(Asked(q), table);
    assert forall s :: s in matching ==> StateFilter(q.state.value, s) == True;
    NothingSelected(IsReconciled, matching);
  }

  lemma {:induction false} NothingSelected(c: Condition, rows: seq<Shipment>)
    requires forall s :: s in rows ==> Holds(c, s) != True
    ensures Selected(c, rows) == []
  {
    if rows != [] {
      NothingSelected(c, rows[..|rows| - 1]);
    }
  }

  // ----- the pages -----

  predicate NewestFirst(a: Shipment, b: Shipment) {
    a.createdAt >= b.createdAt
  }

  /** A list the database may give for `order by created_at desc`: ties come in any order. */
  ghost predicate IsListing(matching: seq<Shipment>, list: seq<Shipment>) {
    multiset(list) == multiset(matching) && S.IsSorted(list, NewestFirst)
  }

  function Page(list: seq<Shipment>, page: nat, size: nat): seq<Shipment>
    requires page >= 1 && size >= 1
  {
    var from := if (page - 1) * size <= |list| then (page - 1) * size else |list|;
    list[from..if from + size <= |list| then from + size else |list|]
  }

  function FirstPages(list: seq<Shipment>, pages: nat, size: nat): seq<Shipment>
    requires size >= 1
  {
    if pages == 0 then [] else FirstPages(list, pages - 1, size) + Page(list, pages, size)
  }

  /** The pages of one listing put together are that listing: nothing is skipped and nothing repeated. */
  lemma {:induction false} PagesCoverTheListing(list: seq<Shipment>, pages: nat, size: nat)
    requires size >= 1
    ensures FirstPages(list, pages, size) == list[..if pages * size <= |list| then pages * size else |list|]
  {
    if pages > 0 {
      PagesCoverTheListing(list, pages - 1, size);
      assert pages * size == (pages - 1) * size + size;
    }
  }

  ghost predicate HasTie(matching: seq<Shipment>) {
    exists x, y :: x in matching && y in matching && x != y && x.createdAt == y.createdAt
  }

  ghost predicate OneListing(matching: seq<Shipment>) {
    forall a, b :: IsListing(matching, a) && IsListing(matching, b) ==> a == b
  }

  lemma NewestFirstIsTotal()
    ensures S.TotalPreorder(NewestFirst)
  {
  }

  /** Two neighbours in time, exchanged, give another listing. */
  lemma ExchangedIsListing(matching: seq<Shipment>, list: seq<Shipment>, i: nat, j: nat)
    requires IsListing(matching, list) && i < j < |list| && list[i].createdAt == list[j].createdAt
    ensures IsListing(matching, list[i := list[j]][j := list[i]])
  {
    var other := list[i := list[j]][j := list[i]];
    assert multiset(other) == multiset(list);
    forall k | 0 <= k < |list|
      ensures other[k].createdAt == list[k].createdAt
    {
    }
    forall k, m | 0 <= k < m < |other|
      ensures NewestFirst(other[k], other[m])
    {
      assert NewestFirst(list[k], list[m]);
    }
  }

  lemma ExchangeIsAnother(matching: seq<Shipment>, list: seq<Shipment>, i: nat, j: nat)
    requires IsListing(matching, list) && i < |list| && j < |list|
    requires list[i] != list[j] && list[i].createdAt == list[j].createdAt
    ensures !OneListing(matching)
  {
    var lo, hi := if i < j then i else j, if i < j then j else i;
    ExchangedIsListing(matching, list, lo, hi);
    assert list[lo := list[hi]][hi := list[lo]][lo] != list[lo];
  }

  lemma FoundIn(list: seq<Shipment>, matching: seq<Shipment>, x: Shipment) returns (i: nat)
    requires multiset(list) == multiset(matching) && x in matching
    ensures i < |list| && list[i] == x
  {
    assert x in multiset(list);
    i :| 0 <= i < |list| && list[i] == x;
  }

  lemma SortedIsListing(matching: seq<Shipment>)
    ensures IsListing(matching, S.Sorted(matching, NewestFirst))
  {
    NewestFirstIsTotal();
    S.SortedPermutes(matching, NewestFirst);
    S.SortedIsSorted(matching, NewestFirst);
  }

  lemma TieGivesTwoListings(matching: seq<Shipment>)
    requires HasTie(matching)
    ensures !OneListing(matching)
  {
    SortedIsListing(matching);
    var list := S.Sorted(matching, NewestFirst);
    var x, y :| x in matching && y in matching && x != y && x.createdAt == y.createdAt;
    var i := FoundIn(list, matching, x);
    var j := FoundIn(list, matching, y);
    ExchangeIsAnother(matching, list, i, j);
  }

  lemma NoTieGivesOneListing(matching: seq<Shipment>, a: seq<Shipment>, b: seq<Shipment>)
    requires !HasTie(matching) && IsListing(matching, a) && IsListing(matching, b)
    ensures a == b
  {
    NewestFirstIsTotal();
    forall x, y | x in a && y in a && NewestFirst(x, y) && NewestFirst(y, x)
      ensures x == y
    {
      assert x in multiset(matching) && y in multiset(matching);
    }
    S.SortedListsAgree(a, b, NewestFirst);
  }

  /** The order of the query names one list if and only if no two matching shipments were created at the same moment. */
  lemma ListingIsUniqueIff(matching: seq<Shipment>)
    ensures OneListing(matching) <==> !HasTie(matching)
  {
    if HasTie(matching) {
      TieGivesTwoListings(matching);
    } else {
      forall a, b | IsListing(matching, a) && IsListing(matching, b)
        ensures a == b
      {
        NoTieGivesOneListing(matching, a, b);
      }
    }
  }

  // ----- when the pages are stable -----

  ghost predicate SamePage(a: seq<Shipment>, b: seq<Shipment>, page: nat, size: nat)
    requires page >= 1 && size >= 1
  {
    multiset(Page(a, page, size)) == multiset(Page(b, page, size))
  }

  /** Whatever list the database gives each time, every page holds the same shipments. */
  ghost predicate PagesAreStable(matching: seq<Shipment>, size: nat)
    requires size >= 1
  {
    forall a, b, page: nat :: IsListing(matching, a) && IsListing(matching, b) && page >= 1 ==> SamePage(a, b, page, size)
  }

  /** Two different shipments of one moment lie on different pages. */
  ghost predicate Straddles(list: seq<Shipment>, size: nat)
    requires size >= 1
  {
    exists i, j :: 0 <= i < j < |list| && i / size < j / size && list[i] != list[j] && list[i].createdAt == list[j].createdAt
  }

  /** The first n shipments of a list, or all of them. */
  function Front(list: seq<Shipment>, n: nat): seq<Shipment> {
    if n <= |list| then list[..n] else list
  }

  lemma PageIsBetween(list: seq<Shipment>, page: nat, size: nat)
    requires page >= 1 && size >= 1
    ensures Front(list, (page - 1) * size) + Page(list, page, size) == Front(list, (page - 1) * size + size)
  {
  }

  lemma PartSize(part: multiset<Shipment>, whole: multiset<Shipment>)
    requires part <= whole
    ensures whole == part + (whole - part) && |whole| == |part| + |whole - part|
  {
  }

  lemma SomeIsOutnumbered(a: multiset<Shipment>, b: multiset<Shipment>) returns (x: Shipment)
    requires a != b && |a| == |b|
    ensures a[x] > b[x]
  {
    if a <= b {
      PartSize(a, b);
    }
    x :| a[x] > b[x];
  }

  lemma InFront(list: seq<Shipment>, n: nat, x: Shipment) returns (i: nat)
    requires n <= |list| && x in multiset(list[..n])
    ensures i < n && list[i] == x
  {
    i :| 0 <= i < n && list[..n][i] == x;
  }

  lemma InBack(list: seq<Shipment>, n: nat, x: Shipment) returns (j: nat)
    requires n <= |list| && multiset(list)[x] > multiset(list[..n])[x]
    ensures n <= j < |list| && list[j] == x
  {
    assert list == list[..n] + list[n..];
    assert x in multiset(list[n..]);
    var k :| 0 <= k < |list[n..]| && list[n..][k] == x;
    j := n + k;
  }

  /** Two listings whose first n shipments differ: in each, shipments of one moment stand on both sides. */
  lemma FrontsDiffer(matching: seq<Shipment>, list: seq<Shipment>, other: seq<Shipment>, n: nat) returns (i: nat, j: nat)
    requires IsListing(matching, list) && IsListing(matching, other)
    requires n <= |list| == |other| && multiset(list[..n]) != multiset(other[..n])
    ensures i < n <= j < |list| && list[i] != list[j] && list[i].createdAt == list[j].createdAt
  {
    assert |multiset(list[..n])| == n && |multiset(other[..n])| == n;
    var x := SomeIsOutnumbered(multiset(list[..n]), multiset(other[..n]));
    var y := SomeIsOutnumbered(multiset(other[..n]), multiset(list[..n]));
    i := InFront(list, n, x);
    FrontIsPart(other, n, y);
    j := InBack(list, n, y);
    var k := InFront(other, n, y);
    FrontIsPart(list, n, x);
    var m := InBack(other, n, x);
    assert NewestFirst(list[i], list[j]) && NewestFirst(other[k], other[m]);
  }

  lemma FrontIsPart(list: seq<Shipment>, n: nat, x: Shipment)
    requires n <= |list|
    ensures multiset(list[..n])[x] <= multiset(list)[x]
  {
    assert list == list[..n] + list[n..];
  }

  lemma ProductGrows(a: nat, b: nat, size: nat)
    requires a <= b
    ensures a * size <= b * size && (a + 1) * size == a * size + size
  {
  }

  lemma OwnPage(i: nat, size: nat)
    requires size >= 1
    ensures (i / size) * size <= i < (i / size) * size + size
  {
  }

  lemma ProductBelow(page: nat, q: nat, i: nat, size: nat)
    requires q * size <= i < page * size
    ensures q < page
  {
    if q >= page {
      ProductGrows(page, q, size);
    }
  }

  /** What stands on both sides of a multiple of the size is on different pages. */
  lemma PagesApart(i: nat, j: nat, page: nat, size: nat)
    requires size >= 1 && i < page * size <= j
    ensures i / size < page <= j / size
  {
    OwnPage(i, size);
    OwnPage(j, size);
    ProductBelow(page, i / size, i, size);
    ProductGrows(j / size, j / size, size);
    ProductBelow(j / size + 1, page, j, size);
  }

  ghost predicate SameFront(list: seq<Shipment>, other: seq<Shipment>, pages: nat, size: nat) {
    multiset(Front(list, pages * size)) == multiset(Front(other, pages * size))
  }

  /** Without shipments of one moment on different pages, the first pages hold the same shipments in every listing. */
  lemma FrontsAgree(matching: seq<Shipment>, list: seq<Shipment>, other: seq<Shipment>, pages: nat, size: nat)
    requires size >= 1 && IsListing(matching, list) && IsListing(matching, other) && !Straddles(list, size)
    ensures SameFront(list, other, pages, size)
  {
    assert |multiset(list)| == |multiset(other)|;
    var n := pages * size;
    if n <= |list| && multiset(list[..n]) != multiset(other[..n]) {
      var i, j := FrontsDiffer(matching, list, other, n);
      PagesApart(i, j, pages, size);
    }
  }

  lemma PageFrom(page: nat, size: nat) returns (from: nat)
    requires page >= 1
    ensures from == (page - 1) * size && from + size == page * size
  {
    from := (page - 1) * size;
  }

  lemma PagesAgree(list: seq<Shipment>, other: seq<Shipment>, page: nat, size: nat)
    requires size >= 1 && page >= 1 && SameFront(list, other, page - 1, size) && SameFront(list, other, page, size)
    ensures SamePage(list, other, page, size)
  {
    var from := PageFrom(page, size);
    FrontsMakePages(list, other, page, size, from);
  }

  lemma FrontsMakePages(list: seq<Shipment>, other: seq<Shipment>, page: nat, size: nat, from: nat)
    requires size >= 1 && page >= 1 && from == (page - 1) * size
    requires multiset(Front(list, from)) == multiset(Front(other, from))
    requires multiset(Front(list, from + size)) == multiset(Front(other, from + size))
    ensures SamePage(list, other, page, size)
  {
    PageIsBetween(list, page, size);
    PageIsBetween(other, page, size);
    SameRest(multiset(Front(list, from)), multiset(Page(list, page, size)), multiset(Page(other, page, size)));
  }

  lemma SameRest(front: multiset<Shipment>, a: multiset<Shipment>, b: multiset<Shipment>)
    requires front + a == front + b
    ensures a == b
  {
    assert a == (front + a) - front && b == (front + b) - front;
  }

  lemma EndsBefore(page: nat, later: nat, j: nat, size: nat)
    requires page + 1 <= later && later * size <= j
    ensures page * size + size <= j
  {
    ProductGrows(page, page + 1, size);
    ProductGrows(page + 1, later, size);
  }

  lemma PageEndsBefore(i: nat, j: nat, size: nat)
    requires size >= 1 && i / size < j / size
    ensures (i / size) * size <= i < (i / size) * size + size <= j
  {
    OwnPage(i, size);
    OwnPage(j, size);
    EndsBefore(i / size, j / size, j, size);
  }

  /** Exchanging two shipments of one moment that lie on different pages changes the page of the first. */
  lemma ExchangeChangesAPage(matching: seq<Shipment>, list: seq<Shipment>, i: nat, j: nat, size: nat)
    requires size >= 1 && IsListing(matching, list) && i < j < |list| && i / size < j / size
    requires list[i] != list[j] && list[i].createdAt == list[j].createdAt
    ensures !PagesAreStable(matching, size)
  {
    var other, page := list[i := list[j]][j := list[i]], i / size + 1;
    ExchangedIsListing(matching, list, i, j);
    PageEndsBefore(i, j, size);
    ExchangeAcross(list, i, j, page, size, (i / size) * size);
    assert !SamePage(list, other, page, size);
  }

  lemma ExchangeAcross(list: seq<Shipment>, i: nat, j: nat, page: nat, size: nat, from: nat)
    requires size >= 1 && page >= 1 && from == (page - 1) * size && from <= i < from + size <= j < |list| && list[i] != list[j]
    ensures multiset(Page(list[i := list[j]][j := list[i]], page, size)) != multiset(Page(list, page, size))
  {
    var before, after := Page(list, page, size), Page(list[i := list[j]][j := list[i]], page, size);
    assert before == list[from..from + size] && after == before[i - from := list[j]];
    assert multiset(after)[list[j]] == multiset(before)[list[j]] + 1;
  }

  /**
   Every page holds the same shipments whatever order the database gives ties in, if and only if no two different
   matching shipments of one moment lie on different pages. It does not matter in which listing one looks.
   */
  lemma PagesAreStableIff(matching: seq<Shipment>, list: seq<Shipment>, size: nat)
    requires size >= 1 && IsListing(matching, list)
    ensures PagesAreStable(matching, size) <==> !Straddles(list, size)
  {
    if Straddles(list, size) {
      var i, j :| 0 <= i < j < |list| && i / size < j / size && list[i] != list[j] && list[i].createdAt == list[j].createdAt;
      ExchangeChangesAPage(matching, list, i, j, size);
    } else {
      forall a, b, page: nat | IsListing(matching, a) && IsListing(matching, b) && page >= 1
        ensures SamePage(a, b, page, size)
      {
        NoStraddlingSamePage(matching, list, a, b, page, size);
      }
    }
  }

  lemma NoStraddlingSamePage(matching: seq<Shipment>, list: seq<Shipment>, a: seq<Shipment>, b: seq<Shipment>, page: nat, size: nat)
    requires size >= 1 && page >= 1 && !Straddles(list, size)
    requires IsListing(matching, list) && IsListing(matching, a) && IsListing(matching, b)
    ensures SamePage(a, b, page, size)
  {
    FrontsAgree(matching, list, a, page - 1, size);
    FrontsAgree(matching, list, a, page, size);
    FrontsAgree(matching, list, b, page - 1, size);
    FrontsAgree(matching, list, b, page, size);
    PagesAgree(a, b, page, size);
  }

  /** So a list that fits on one page is stable whatever ties it has. */
  lemma OnePageIsStable(matching: seq<Shipment>, size: nat)
    requires size >= 1 && |matching| <= size
    ensures PagesAreStable(matching, size)
  {
    SortedIsListing(matching);
    S.SortedPermutes(matching, NewestFirst);
    forall j: nat | j < size
      ensures j / size == 0
    {
      OwnPage(j, size);
    }
    PagesAreStableIff(matching, S.Sorted(matching, NewestFirst), size);
  }
}
