/**
 Ranking of the offers of one quote: normalised price and transit time, offers that miss a required
 deadline last, ties kept in input order by the stable sort. Scores are exact reals.
 */
module Ranking {
  import opened Collections
  import opened Options

  /** What the ranking reads of an offer. */
  datatype Facts = Facts(amount: Option<int>, days: Option<int>, meetsDeadline: Option<bool>)

  /** The sort key: first whether the deadline is missed, then the combined score. */
  datatype Key = Key(misses: int, score: real)

  predicate KeyLess(a: Key, b: Key) {
    a.misses < b.misses || (a.misses == b.misses && a.score < b.score)
  }

  function Known(values: seq<Option<int>>): seq<int> {
    if values == [] then []
    else (if values[0].Some? then [values[0].value] else []) + Known(values[1..])
  }

  function Amounts(all: seq<Facts>): seq<Option<int>> {
    seq(|all|, i requires 0 <= i < |all| => all[i].amount)
  }

  function Days(all: seq<Facts>): seq<Option<int>> {
    seq(|all|, i requires 0 <= i < |all| => all[i].days)
  }

  function Min(xs: seq<int>): int
    requires xs != []
  {
    if |xs| == 1 then xs[0] else var m := Min(xs[1..]); if xs[0] < m then xs[0] else m
  }

  function Max(xs: seq<int>): int
    requires xs != []
  {
    if |xs| == 1 then xs[0] else var m := Max(xs[1..]); if xs[0] > m then xs[0] else m
  }

  /** The smallest and the largest known value, or a pair of zeros. */
  datatype Range = Range(low: int, high: int)

  function RangeOf(values: seq<Option<int>>): Range {
    var known := Known(values);
    if known == [] then Range(0, 0) else Range(Min(known), Max(known))
  }

  /** Where a value lies in its range; an unknown value and a range of one point count as the best. */
  function Part(value: Option<int>, range: Range): real {
    if value.Some? && range.high > range.low
    then (value.value - range.low) as real / (range.high - range.low) as real
    else 0.0
  }

  function KeyIn(q: Facts, prices: Range, days: Range, requiredDeadline: bool): Key {
    Key(if requiredDeadline && q.meetsDeadline == Some(false) then 1 else 0,
        0.4 * Part(q.amount, prices) + 0.3 * Part(q.days, days))
  }

  function KeyAt(all: seq<Facts>, i: nat, requiredDeadline: bool): Key
    requires i < |all|
  {
    KeyIn(all[i], RangeOf(Amounts(all)), RangeOf(Days(all)), requiredDeadline)
  }

  /** The order of the ranking, ties broken by position as a stable sort does. */
  predicate Before(keys: seq<Key>, i: nat, j: nat)
    requires i < |keys| && j < |keys|
  {
    KeyLess(keys[i], keys[j]) || (!KeyLess(keys[j], keys[i]) && i < j)
  }

  function KeysOf(all: seq<Facts>, requiredDeadline: bool): seq<Key> {
    seq(|all|, i requires 0 <= i < |all| => KeyAt(all, i, requiredDeadline))
  }

  ghost function Predecessors(keys: seq<Key>, i: nat): set<nat>
    requires i < |keys|
  {
    set j: nat | j < |keys| && Before(keys, j, i)
  }

  /** The rank, without any sorting: one more than the number of offers that come before. */
  ghost function RankOf(keys: seq<Key>, i: nat): nat
    requires i < |keys|
  {
    1 + |Predecessors(keys, i)|
  }

  class RateOffer {
    const facts: Facts
    var rank: Option<nat>

    constructor (facts: Facts)
      ensures this.facts == facts && rank == None
    {
      this.facts := facts;
      rank := None;
    }
  }

  function FactsOf(quotes: seq<RateOffer>): seq<Facts> {
    seq(|quotes|, i requires 0 <= i < |quotes| => quotes[i].facts)
  }

  ghost predicate Ordered(keys: seq<Key>, order: seq<nat>, n: nat) {
    && n <= |keys|
    && |order| == n
    && (forall p :: 0 <= p < |order| ==> order[p] < n)
    && (forall p, q :: 0 <= p < q < |order| ==> Before(keys, order[p], order[q]))
  }

  method StableOrder(keys: seq<Key>) returns (order: seq<nat>)
    ensures Ordered(keys, order, |keys|)
  {
    order := [];
    for n := 0 to |keys|
      invariant Ordered(keys, order, n)
    {
      var p := |order|;
      while p > 0 && KeyLess(keys[n], keys[order[p - 1]])
        invariant 0 <= p <= |order|
        invariant forall q :: p <= q < |order| ==> KeyLess(keys[n], keys[order[q]])
      {
        p := p - 1;
      }
      forall q | 0 <= q < p ensures Before(keys, order[q], n) {
        assert q == p - 1 || Before(keys, order[q], order[p - 1]);
      }
      order := order[..p] + [n] + order[p..];
    }
  }

  /** Write the ranks in place. Without a single known price nothing is ranked. */
  method RankQuotes(quotes: seq<RateOffer>, requiredDeadline: bool)
    requires forall i, j :: 0 <= i < j < |quotes| ==> quotes[i] != quotes[j]
    modifies quotes
    ensures Known(Amounts(FactsOf(quotes))) == [] ==> forall q :: q in quotes ==> q.rank == old(q.rank)
    ensures Known(Amounts(FactsOf(quotes))) != [] ==>
              forall i :: 0 <= i < |quotes| ==>
                quotes[i].rank == Some(RankOf(KeysOf(FactsOf(quotes), requiredDeadline), i))
  {
    var all := FactsOf(quotes);
    if Known(Amounts(all)) == [] {
      return;
    }
    var keys := KeysOf(all, requiredDeadline);
    var order := StableOrder(keys);
    for p := 0 to |order|
      invariant forall q :: 0 <= q < p ==> quotes[order[q]].rank == Some(q + 1)
    {
      forall q | 0 <= q < p ensures order[q] != order[p] {
        assert Before(keys, order[q], order[p]);
      }
      quotes[order[p]].rank := Some(p + 1);
    }
    forall i | 0 <= i < |quotes| ensures quotes[i].rank == Some(RankOf(keys, i)) {
      var p := PositionOf(keys, order, i);
      PositionIsRank(keys, order, p);
    }
  }

  // ----- positions and ranks -----

  ghost function Below(n: nat): set<nat> {
    if n == 0 then {} else Below(n - 1) + {n - 1}
  }

  lemma {:induction false} BelowSize(n: nat)
    ensures |Below(n)| == n
    ensures forall i: nat :: i in Below(n) <==> i < n
  {
    if n > 0 {
      BelowSize(n - 1);
    }
  }

  /** An ordered list of n different positions below n contains all of them. */
  lemma PositionOf(keys: seq<Key>, order: seq<nat>, i: nat) returns (p: nat)
    requires Ordered(keys, order, |keys|) && i < |keys|
    ensures p < |order| && order[p] == i
  {
    forall p, q | 0 <= p < q < |order| ensures order[p] != order[q] {
      assert Before(keys, order[p], order[q]);
    }
    DistinctSize(order);
    BelowSize(|keys|);
    SubsetOfSameSize(AsSet(order), Below(|keys|));
    assert i in Below(|keys|);
    assert i in AsSet(order);
    p :| 0 <= p < |order| && order[p] == i;
  }

  lemma PositionIsRank(keys: seq<Key>, order: seq<nat>, p: nat)
    requires Ordered(keys, order, |keys|) && p < |order|
    ensures RankOf(keys, order[p]) == p + 1
  {
    var front := order[..p];
    forall a, b | 0 <= a < b < |front| ensures front[a] != front[b] {
      assert Before(keys, order[a], order[b]);
    }
    DistinctSize(front);
    forall j: nat | j in Predecessors(keys, order[p]) ensures j in AsSet(front) {
      var q := PositionOf(keys, order, j);
      assert q < p;
      assert front[q] == j;
    }
    forall j | j in AsSet(front) ensures j in Predecessors(keys, order[p]) {
      var q :| 0 <= q < |front| && front[q] == j;
      assert Before(keys, order[q], order[p]);
    }
    assert Predecessors(keys, order[p]) == AsSet(front);
  }

  // ----- what the ranks are -----

  lemma BeforeIsStrictOrder(keys: seq<Key>, i: nat, j: nat, k: nat)
    requires i < |keys| && j < |keys| && k < |keys|
    ensures !Before(keys, i, i)
    ensures i != j ==> (Before(keys, i, j) <==> !Before(keys, j, i))
    ensures Before(keys, i, j) && Before(keys, j, k) ==> Before(keys, i, k)
  {
  }

  /** Ranks order the offers exactly as the comparison does. */
  lemma RankFollowsOrder(keys: seq<Key>, i: nat, j: nat)
    requires i < |keys| && j < |keys|
    ensures RankOf(keys, i) < RankOf(keys, j) <==> Before(keys, i, j)
  {
    if Before(keys, i, j) {
      RankGrows(keys, i, j);
    } else if i != j {
      BeforeIsStrictOrder(keys, i, j, i);
      RankGrows(keys, j, i);
    }
  }

  lemma RankGrows(keys: seq<Key>, i: nat, j: nat)
    requires i < |keys| && j < |keys| && Before(keys, i, j)
    ensures RankOf(keys, i) < RankOf(keys, j)
  {
    forall k | k in Predecessors(keys, i) ensures k in Predecessors(keys, j) {
      BeforeIsStrictOrder(keys, k, i, j);
    }
    BeforeIsStrictOrder(keys, i, j, i);
    var a, b := Predecessors(keys, i), Predecessors(keys, j);
    assert i !in a && i in b;
    SubsetSize(a, b - {i});
  }

  ghost predicate Attained(keys: seq<Key>, r: int) {
    exists i :: 0 <= i < |keys| && RankOf(keys, i) == r
  }

  /** The ranks are the numbers 1..n, each used once. */
  lemma RanksArePermutation(keys: seq<Key>)
    ensures forall i :: 0 <= i < |keys| ==> 1 <= RankOf(keys, i) <= |keys|
    ensures forall i, j :: 0 <= i < j < |keys| ==> RankOf(keys, i) != RankOf(keys, j)
    ensures forall r :: 1 <= r <= |keys| ==> Attained(keys, r)
  {
    forall i | 0 <= i < |keys| ensures 1 <= RankOf(keys, i) <= |keys| {
      BelowSize(|keys|);
      SubsetSize(Predecessors(keys, i), Below(|keys|) - {i});
    }
    forall i, j | 0 <= i < j < |keys| ensures RankOf(keys, i) != RankOf(keys, j) {
      BeforeIsStrictOrder(keys, i, j, i);
      RankFollowsOrder(keys, i, j);
      RankFollowsOrder(keys, j, i);
    }
    var order := GhostOrder(keys);
    forall r | 1 <= r <= |keys| ensures Attained(keys, r) {
      PositionIsRank(keys, order, r - 1);
      assert RankOf(keys, order[r - 1]) == r;
    }
  }

  lemma {:induction false} GhostOrderOf(keys: seq<Key>, n: nat) returns (order: seq<nat>)
    requires n <= |keys|
    ensures Ordered(keys, order, n)
  {
    if n == 0 {
      order := [];
    } else {
      var front := GhostOrderOf(keys, n - 1);
      var p := |front|;
      while p > 0 && Before(keys, n - 1, front[p - 1])
        invariant 0 <= p <= |front|
        invariant forall q :: p <= q < |front| ==> Before(keys, n - 1, front[q])
      {
        p := p - 1;
      }
      forall q | 0 <= q < p ensures Before(keys, front[q], n - 1) {
        assert q == p - 1 || Before(keys, front[q], front[p - 1]);
      }
      order := front[..p] + [n - 1] + front[p..];
    }
  }

  lemma GhostOrder(keys: seq<Key>) returns (order: seq<nat>)
    ensures Ordered(keys, order, |keys|)
  {
    order := GhostOrderOf(keys, |keys|);
  }

  /** A required deadline splits the list: whoever misses it ranks after everybody who does not. */
  lemma LateRanksLast(all: seq<Facts>, i: nat, j: nat)
    requires i < |all| && j < |all|
    requires all[i].meetsDeadline != Some(false) && all[j].meetsDeadline == Some(false)
    ensures RankOf(KeysOf(all, true), i) < RankOf(KeysOf(all, true), j)
  {
    RankFollowsOrder(KeysOf(all, true), i, j);
  }

  /** Without a required deadline nobody is pushed down: offers with equal price and days keep their input order. */
  lemma DeadlineIsIgnoredWhenNotRequired(all: seq<Facts>, i: nat, j: nat)
    requires i < j < |all| && all[i].amount == all[j].amount && all[i].days == all[j].days
    ensures RankOf(KeysOf(all, false), i) < RankOf(KeysOf(all, false), j)
  {
    RankFollowsOrder(KeysOf(all, false), i, j);
  }

  lemma {:induction false} KnownContains(values: seq<Option<int>>, i: nat)
    requires i < |values| && values[i].Some?
    ensures values[i].value in Known(values)
  {
    if i > 0 {
      KnownContains(values[1..], i - 1);
    }
  }

  lemma {:induction false} MinMax(xs: seq<int>, x: int)
    requires x in xs
    ensures Min(xs) <= x <= Max(xs)
  {
    if |xs| > 1 && x != xs[0] {
      MinMax(xs[1..], x);
    } else if |xs| > 1 {
      MinMax(xs[1..], xs[1]);
    }
  }

  lemma InRange(values: seq<Option<int>>, i: nat)
    requires i < |values| && values[i].Some?
    ensures RangeOf(values).low <= values[i].value <= RangeOf(values).high
  {
    KnownContains(values, i);
    MinMax(Known(values), values[i].value);
  }

  lemma PartMonotone(a: int, b: int, range: Range)
    requires range.low <= a <= b <= range.high
    ensures Part(Some(a), range) <= Part(Some(b), range)
    ensures a < b ==> Part(Some(a), range) < Part(Some(b), range)
  {
    if range.high > range.low {
      var width := (range.high - range.low) as real;
      var u, v := Part(Some(a), range), Part(Some(b), range);
      assert u * width == (a - range.low) as real && v * width == (b - range.low) as real;
    }
  }

  /** In one bucket, no worse in price and days and strictly better in one of them ranks strictly ahead. */
  lemma DominatingOfferRanksAhead(all: seq<Facts>, i: nat, j: nat, requiredDeadline: bool)
    requires i < |all| && j < |all|
    requires !requiredDeadline || (all[i].meetsDeadline == Some(false) <==> all[j].meetsDeadline == Some(false))
    requires all[i].amount.Some? && all[j].amount.Some? && all[i].days.Some? && all[j].days.Some?
    requires all[i].amount.value <= all[j].amount.value && all[i].days.value <= all[j].days.value
    requires all[i].amount.value < all[j].amount.value || all[i].days.value < all[j].days.value
    ensures RankOf(KeysOf(all, requiredDeadline), i) < RankOf(KeysOf(all, requiredDeadline), j)
  {
    InRange(Amounts(all), i);
    InRange(Amounts(all), j);
    InRange(Days(all), i);
    InRange(Days(all), j);
    PartMonotone(all[i].amount.value, all[j].amount.value, RangeOf(Amounts(all)));
    PartMonotone(all[i].days.value, all[j].days.value, RangeOf(Days(all)));
    RankFollowsOrder(KeysOf(all, requiredDeadline), i, j);
  }

  // ----- a change of price scale -----

  function Scale(value: Option<int>, a: int, b: int): Option<int> {
    if value.Some? then Some(a * value.value + b) else None
  }

  function Repriced(all: seq<Facts>, a: int, b: int): seq<Facts> {
    seq(|all|, i requires 0 <= i < |all| => all[i].(amount := Scale(all[i].amount, a, b)))
  }

  lemma MulOrder(a: int, x: int, y: int)
    requires a > 0
    ensures x < y <==> a * x < a * y
  {
  }

  lemma {:induction false} ScaledExtremes(xs: seq<int>, ys: seq<int>, a: int, b: int)
    requires xs != [] && |ys| == |xs| && a > 0
    requires forall i :: 0 <= i < |xs| ==> ys[i] == a * xs[i] + b
    ensures Min(ys) == a * Min(xs) + b && Max(ys) == a * Max(xs) + b
  {
    if |xs| > 1 {
      ScaledExtremes(xs[1..], ys[1..], a, b);
      MulOrder(a, xs[0], Min(xs[1..]));
      MulOrder(a, Max(xs[1..]), xs[0]);
    }
  }

  lemma {:induction false} ScaledKnown(values: seq<Option<int>>, scaled: seq<Option<int>>, a: int, b: int)
    requires |values| == |scaled|
    requires forall i :: 0 <= i < |values| ==> scaled[i] == Scale(values[i], a, b)
    ensures |Known(scaled)| == |Known(values)|
    ensures forall i :: 0 <= i < |Known(values)| ==> Known(scaled)[i] == a * Known(values)[i] + b
  {
    if values != [] {
      ScaledKnown(values[1..], scaled[1..], a, b);
      var rest, more := Known(values[1..]), Known(scaled[1..]);
      if values[0].Some? {
        var x, y := values[0].value, scaled[0].value;
        assert Known(values) == [x] + rest && Known(scaled) == [y] + more;
        forall i | 0 <= i < |rest| + 1
          ensures ([y] + more)[i] == a * ([x] + rest)[i] + b
        {
          assert i > 0 ==> more[i - 1] == a * rest[i - 1] + b;
        }
      } else {
        assert Known(values) == rest && Known(scaled) == more;
      }
    }
  }

  lemma ScaledPart(value: Option<int>, range: Range, a: int, b: int)
    requires a > 0
    ensures Part(Scale(value, a, b), Range(a * range.low + b, a * range.high + b)) == Part(value, range)
  {
    MulOrder(a, range.low, range.high);
    if value.Some? && range.high > range.low {
      var x, w, k := (value.value - range.low) as real, (range.high - range.low) as real, a as real;
      assert (a * value.value + b) - (a * range.low + b) == a * (value.value - range.low);
      assert (a * range.high + b) - (a * range.low + b) == a * (range.high - range.low);
      assert (a * (value.value - range.low)) as real == k * x;
      assert (a * (range.high - range.low)) as real == k * w;
      CancelFactor(k, x, w);
    }
  }

  lemma CancelFactor(k: real, x: real, w: real)
    requires k > 0.0 && w > 0.0
    ensures k * w > 0.0 && (k * x) / (k * w) == x / w
  {
    var q := x / w;
    assert q * w == x;
    assert k * x == q * (k * w) by { assert q * (k * w) == k * (q * w); }
  }

  /** Quoting all prices in other units, or adding the same fee to all, changes no rank. */
  lemma RanksIgnorePriceScale(all: seq<Facts>, a: int, b: int, requiredDeadline: bool)
    requires a > 0 && Known(Amounts(all)) != []
    ensures Known(Amounts(Repriced(all, a, b))) != []
    ensures KeysOf(Repriced(all, a, b), requiredDeadline) == KeysOf(all, requiredDeadline)
    ensures forall i :: 0 <= i < |all| ==>
              RankOf(KeysOf(Repriced(all, a, b), requiredDeadline), i) == RankOf(KeysOf(all, requiredDeadline), i)
  {
    var other := Repriced(all, a, b);
    ScaledKnown(Amounts(all), Amounts(other), a, b);
    ScaledExtremes(Known(Amounts(all)), Known(Amounts(other)), a, b);
    assert Days(other) == Days(all);
    var range := RangeOf(Amounts(all));
    assert RangeOf(Amounts(other)) == Range(a * range.low + b, a * range.high + b);
    forall i | 0 <= i < |all| ensures KeyAt(other, i, requiredDeadline) == KeyAt(all, i, requiredDeadline) {
      ScaledPart(all[i].amount, range, a, b);
    }
    assert KeysOf(other, requiredDeadline) == KeysOf(all, requiredDeadline);
  }

  // ----- one more offer -----

  /** The value lies between two known ones, or is unknown itself. */
  ghost predicate Inside(value: Option<int>, values: seq<Option<int>>) {
    value.Some? ==> Known(values) != [] && RangeOf(values).low <= value.value <= RangeOf(values).high
  }

  lemma {:induction false} KnownConcat(a: seq<Option<int>>, b: seq<Option<int>>)
    ensures Known(a + b) == Known(a) + Known(b)
  {
    if a == [] {
      assert a + b == b;
    } else {
      var all, rest := a + b, a[1..];
      var head := if a[0].Some? then [a[0].value] else [];
      KnownConcat(rest, b);
      assert all[0] == a[0] && all[1..] == rest + b;
      assert Known(all) == head + Known(rest + b);
      assert Known(a) == head + Known(rest);
      assert head + (Known(rest) + Known(b)) == (head + Known(rest)) + Known(b);
    }
  }

  lemma {:induction false} MinMaxWith(a: seq<int>, x: int, b: seq<int>)
    requires a + b != []
    ensures Min(a + [x] + b) == if x < Min(a + b) then x else Min(a + b)
    ensures Max(a + [x] + b) == if x > Max(a + b) then x else Max(a + b)
  {
    if a == [] {
      assert a + [x] + b == [x] + b && a + b == b;
      assert ([x] + b)[1..] == b;
    } else if |a + b| == 1 {
      assert a == [a[0]] && b == [];
      assert a + [x] + b == [a[0], x];
    } else {
      var rest := a[1..];
      assert (a + b)[1..] == rest + b && (a + [x] + b)[1..] == rest + [x] + b;
      MinMaxWith(rest, x, b);
    }
  }

  lemma RangeWithInside(a: seq<Option<int>>, x: Option<int>, b: seq<Option<int>>)
    requires Inside(x, a + b)
    ensures RangeOf(a + [x] + b) == RangeOf(a + b)
  {
    KnownConcat(a, b);
    KnownConcat(a + [x], b);
    KnownConcat(a, [x]);
    assert [x][1..] == [];
    if x.Some? {
      assert Known([x]) == [x.value];
      MinMaxWith(Known(a), x.value, Known(b));
    } else {
      assert Known(a) + [] == Known(a);
    }
  }

  /** The position of an old offer after a new one was put in at p. */
  function Shift(i: nat, p: nat): nat {
    if i < p then i else i + 1
  }

  /** An offer inside the existing ranges changes nothing between the others. */
  lemma NewOfferKeepsRelativeOrder(all: seq<Facts>, p: nat, x: Facts, i: nat, j: nat, requiredDeadline: bool)
    requires p <= |all| && i < |all| && j < |all|
    requires Inside(x.amount, Amounts(all)) && Inside(x.days, Days(all))
    ensures var more := all[..p] + [x] + all[p..];
            RankOf(KeysOf(more, requiredDeadline), Shift(i, p)) < RankOf(KeysOf(more, requiredDeadline), Shift(j, p))
            <==> RankOf(KeysOf(all, requiredDeadline), i) < RankOf(KeysOf(all, requiredDeadline), j)
  {
    var more := all[..p] + [x] + all[p..];
    var a, d := Amounts(all), Days(all);
    assert a == a[..p] + a[p..] && Amounts(more) == a[..p] + [x.amount] + a[p..];
    assert d == d[..p] + d[p..] && Days(more) == d[..p] + [x.days] + d[p..];
    RangeWithInside(a[..p], x.amount, a[p..]);
    RangeWithInside(d[..p], x.days, d[p..]);
    assert more[Shift(i, p)] == all[i] && more[Shift(j, p)] == all[j];
    RankFollowsOrder(KeysOf(all, requiredDeadline), i, j);
    RankFollowsOrder(KeysOf(more, requiredDeadline), Shift(i, p), Shift(j, p));
  }
}
