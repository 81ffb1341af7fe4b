/**
 How much of a price a day is worth in the ranking, in whole numbers of minor units and days. The weights are four to
 three, each over the width of what the offers of the quote know.
 */
module RankTradeOff {
  import opened Options
  import opened Ranking

  /** The least and the greatest of the known values. */
  ghost predicate AreBounds(values: seq<Option<int>>, low: int, high: int) {
    && (exists i :: 0 <= i < |values| && values[i] == Some(low))
    && (exists i :: 0 <= i < |values| && values[i] == Some(high))
    && (forall i :: 0 <= i < |values| && values[i].Some? ==> low <= values[i].value <= high)
  }

  ghost predicate NoneKnown(values: seq<Option<int>>) {
    forall i :: 0 <= i < |values| ==> values[i].None?
  }

  /** The bounds of the known values, or none known and a pair of zeros. */
  ghost predicate AreBoundsIfAny(values: seq<Option<int>>, low: int, high: int) {
    AreBounds(values, low, high) || (NoneKnown(values) && low == 0 && high == 0)
  }

  /** The offer misses a deadline that has to be met. */
  predicate Misses(q: Facts, requiredDeadline: bool) {
    requiredDeadline && q.meetsDeadline == Some(false)
  }

  /** How far a value is above the least one; an unknown value is not above it, and without a width none is. */
  function Excess(value: Option<int>, low: int, width: int): int {
    if value.Some? && width > 0 then value.value - low else 0
  }

  function Unit(width: int): int {
    if width > 0 then width else 1
  }

  /** What an offer costs in the trade: four parts of price against three of time, over a common denominator. */
  function Cost(price: int, prices: int, days: int, times: int): int {
    4 * price * Unit(times) + 3 * days * Unit(prices)
  }

  lemma {:induction false} KnownIs(values: seq<Option<int>>, x: int)
    ensures x in Known(values) <==> exists i :: 0 <= i < |values| && values[i] == Some(x)
  {
    if values != [] {
      KnownIs(values[1..], x);
      if i :| 0 <= i < |values| && values[i] == Some(x) {
        assert i > 0 ==> values[1..][i - 1] == Some(x);
      }
      if x in Known(values[1..]) {
        var i :| 0 <= i < |values[1..]| && values[1..][i] == Some(x);
        assert values[i + 1] == Some(x);
      }
    }
  }

  lemma {:induction false} ExtremesAreKnown(xs: seq<int>)
    requires xs != []
    ensures Min(xs) in xs && Max(xs) in xs && forall x :: x in xs ==> Min(xs) <= x <= Max(xs)
  {
    if |xs| > 1 {
      ExtremesAreKnown(xs[1..]);
      assert xs == [xs[0]] + xs[1..];
    }
  }

  lemma RangeIs(values: seq<Option<int>>, low: int, high: int)
    requires AreBoundsIfAny(values, low, high)
    ensures RangeOf(values) == Range(low, high)
  {
    var known := Known(values);
    forall x
      ensures x in known <==> exists i :: 0 <= i < |values| && values[i] == Some(x)
    {
      KnownIs(values, x);
    }
    assert known == [] || known[0] in known;
    if AreBounds(values, low, high) {
      assert low in known && high in known;
      ExtremesAreKnown(known);
    }
  }

  lemma PartIs(value: Option<int>, low: int, high: int)
    ensures Part(value, Range(low, high)) == Excess(value, low, high - low) as real / Unit(high - low) as real
  {
  }

  lemma ScoreTimesWidths(p: int, prices: int, d: int, times: int, score: real)
    requires prices > 0 && times > 0
    requires score == 0.4 * (p as real / prices as real) + 0.3 * (d as real / times as real)
    ensures 10.0 * score * (prices * times) as real == (4 * p * times + 3 * d * prices) as real
  {
    var x, y, u, v := p as real / prices as real, d as real / times as real, prices as real, times as real;
    assert x * u == p as real && y * v == d as real && (prices * times) as real == u * v;
    Distributed(x, y, u, v);
    assert p as real * v == (p * times) as real && d as real * u == (d * prices) as real;
  }

  lemma Distributed(x: real, y: real, u: real, v: real)
    ensures 10.0 * (0.4 * x + 0.3 * y) * (u * v) == 4.0 * (x * u * v) + 3.0 * (y * v * u)
  {
  }

  lemma OrderOfScores(a: real, b: real, m: int, n: int, w: int)
    requires w > 0 && 10.0 * a * w as real == m as real && 10.0 * b * w as real == n as real
    ensures a < b <==> m < n
    ensures a == b <==> m == n
  {
    assert (b - a) * (10.0 * w as real) == (n - m) as real;
    Sign(b - a, 10.0 * w as real);
  }

  lemma Sign(d: real, v: real)
    requires v > 0.0
    ensures (d * v > 0.0 <==> d > 0.0) && (d * v == 0.0 <==> d == 0.0)
  {
  }

  /** What an offer costs in a quote with these bounds. */
  function CostIn(q: Facts, pl: int, ph: int, dl: int, dh: int): int {
    Cost(Excess(q.amount, pl, ph - pl), ph - pl, Excess(q.days, dl, dh - dl), dh - dl)
  }

  lemma ScoreIsCost(q: Facts, pl: int, ph: int, dl: int, dh: int, requiredDeadline: bool, score: real, w: int)
    requires score == KeyIn(q, Range(pl, ph), Range(dl, dh), requiredDeadline).score && w == Unit(ph - pl) * Unit(dh - dl)
    ensures 10.0 * score * w as real == CostIn(q, pl, ph, dl, dh) as real
  {
    PartIs(q.amount, pl, ph);
    PartIs(q.days, dl, dh);
    ScoreTimesWidths(Excess(q.amount, pl, ph - pl), Unit(ph - pl), Excess(q.days, dl, dh - dl), Unit(dh - dl), score);
  }

  lemma ScoresCompare(a: Facts, b: Facts, pl: int, ph: int, dl: int, dh: int, requiredDeadline: bool, sa: real, sb: real)
    requires sa == KeyIn(a, Range(pl, ph), Range(dl, dh), requiredDeadline).score
    requires sb == KeyIn(b, Range(pl, ph), Range(dl, dh), requiredDeadline).score
    ensures sa < sb <==> CostIn(a, pl, ph, dl, dh) < CostIn(b, pl, ph, dl, dh)
    ensures sa == sb <==> CostIn(a, pl, ph, dl, dh) == CostIn(b, pl, ph, dl, dh)
  {
    var w := Product(Unit(ph - pl), Unit(dh - dl));
    ScoreIsCost(a, pl, ph, dl, dh, requiredDeadline, sa, w);
    ScoreIsCost(b, pl, ph, dl, dh, requiredDeadline, sb, w);
    OrderOfScores(sa, sb, CostIn(a, pl, ph, dl, dh), CostIn(b, pl, ph, dl, dh), w);
  }

  lemma Product(u: int, v: int) returns (w: int)
    requires u > 0 && v > 0
    ensures w == u * v && w > 0
  {
    w := u * v;
  }

  /**
   The whole order of the ranking over the offers: who misses a required deadline comes after who does not, then the
   lower cost in the trade of price against time, then the place in the input.
   */
  lemma {:induction false} RanksByTrade(
      all: seq<Facts>, pl: int, ph: int, dl: int, dh: int, i: nat, j: nat, requiredDeadline: bool)
    requires i < |all| && j < |all| && AreBounds(Amounts(all), pl, ph) && AreBoundsIfAny(Days(all), dl, dh)
    ensures var a, b := all[i], all[j];
            var ca, cb := CostIn(a, pl, ph, dl, dh), CostIn(b, pl, ph, dl, dh);
            RankOf(KeysOf(all, requiredDeadline), i) < RankOf(KeysOf(all, requiredDeadline), j) <==>
              if Misses(a, requiredDeadline) != Misses(b, requiredDeadline) then Misses(b, requiredDeadline)
              else ca < cb || (ca == cb && i < j)
  {
    RangeIs(Amounts(all), pl, ph);
    RangeIs(Days(all), dl, dh);
    var keys := KeysOf(all, requiredDeadline);
    ScoresCompare(all[i], all[j], pl, ph, dl, dh, requiredDeadline, keys[i].score, keys[j].score);
    RankFollowsOrder(keys, i, j);
  }

  /**
   Between offers that know both, in quotes whose prices and days differ: i ranks ahead of j if and only if four times
   what it costs more over the width of the days, and three times what it takes longer over the width of the prices,
   are below zero together, or zero with i before j.
   */
  lemma TradeOff(all: seq<Facts>, pl: int, ph: int, dl: int, dh: int, i: nat, j: nat, requiredDeadline: bool)
    requires i < |all| && j < |all| && AreBounds(Amounts(all), pl, ph) && AreBounds(Days(all), dl, dh) && pl < ph && dl < dh
    requires all[i].amount.Some? && all[j].amount.Some? && all[i].days.Some? && all[j].days.Some?
    requires Misses(all[i], requiredDeadline) == Misses(all[j], requiredDeadline)
    ensures var more := 4 * (all[i].amount.value - all[j].amount.value) * (dh - dl) + 3 * (all[i].days.value - all[j].days.value) * (ph - pl);
            RankOf(KeysOf(all, requiredDeadline), i) < RankOf(KeysOf(all, requiredDeadline), j) <==> more < 0 || (more == 0 && i < j)
  {
    RanksByTrade(all, pl, ph, dl, dh, i, j, requiredDeadline);
    Differences(all[i].amount.value, all[j].amount.value, pl, all[i].days.value, all[j].days.value, dl, ph - pl, dh - dl);
  }

  lemma Differences(p: int, q: int, low: int, d: int, e: int, first: int, prices: int, times: int)
    ensures (4 * (p - low) * times + 3 * (d - first) * prices) - (4 * (q - low) * times + 3 * (e - first) * prices)
         == 4 * (p - q) * times + 3 * (d - e) * prices
  {
    assert 4 * (p - low) * times - 4 * (q - low) * times == 4 * (p - q) * times;
    assert 3 * (d - first) * prices - 3 * (e - first) * prices == 3 * (d - e) * prices;
  }

  /** With equal prices the days decide, and with equal or unknown days the prices do. */
  lemma OneMeasureDecides(all: seq<Facts>, pl: int, ph: int, dl: int, dh: int, i: nat, j: nat, requiredDeadline: bool)
    requires i < |all| && j < |all| && AreBounds(Amounts(all), pl, ph) && AreBoundsIfAny(Days(all), dl, dh)
    requires Misses(all[i], requiredDeadline) == Misses(all[j], requiredDeadline)
    ensures pl == ph && all[i].days.Some? && all[j].days.Some? && dl < dh ==>
              (RankOf(KeysOf(all, requiredDeadline), i) < RankOf(KeysOf(all, requiredDeadline), j) <==>
                 all[i].days.value < all[j].days.value || (all[i].days == all[j].days && i < j))
    ensures dl == dh && all[i].amount.Some? && all[j].amount.Some? ==>
              (RankOf(KeysOf(all, requiredDeadline), i) < RankOf(KeysOf(all, requiredDeadline), j) <==>
                 all[i].amount.value < all[j].amount.value || (all[i].amount == all[j].amount && i < j))
  {
    RanksByTrade(all, pl, ph, dl, dh, i, j, requiredDeadline);
    CostOfOne(all[i], pl, ph, dl, dh);
    CostOfOne(all[j], pl, ph, dl, dh);
    assert Amounts(all)[i] == all[i].amount && Amounts(all)[j] == all[j].amount;
  }

  lemma CostOfOne(q: Facts, pl: int, ph: int, dl: int, dh: int)
    ensures pl == ph ==> CostIn(q, pl, ph, dl, dh) == 3 * Excess(q.days, dl, dh - dl)
    ensures dl == dh ==> CostIn(q, pl, ph, dl, dh) == 4 * Excess(q.amount, pl, ph - pl)
  {
  }

  /** For example, the cheap slow offer before the dear fast one. */
  lemma CheapBeforeFast()
    ensures var all := [Facts(Some(1000), Some(5), None), Facts(Some(2000), Some(1), None)];
            RankOf(KeysOf(all, false), 0) < RankOf(KeysOf(all, false), 1)
  {
    var all := [Facts(Some(1000), Some(5), None), Facts(Some(2000), Some(1), None)];
    assert Amounts(all) == [Some(1000), Some(2000)] && Days(all) == [Some(5), Some(1)];
    assert Amounts(all)[0] == Some(1000) && Amounts(all)[1] == Some(2000) && Days(all)[0] == Some(5) && Days(all)[1] == Some(1);
    TradeOff(all, 1000, 2000, 1, 5, 0, 1, false);
  }
}
