/**
 Stable sorting by a comparison, as the built-in `sorted` does it, and the two facts used everywhere:
 the result is an ordered rearrangement, and for a total order it depends on the elements only.
 */
module Sorting {

  function Insert<T>(x: T, ordered: seq<T>, le: (T, T) -> bool): seq<T> {
    if ordered == [] then [x]
    else
      var last := |ordered| - 1;
      if le(ordered[last], x) then ordered + [x]
      else Insert(x, ordered[..last], le) + [ordered[last]]
  }

  function Sorted<T>(xs: seq<T>, le: (T, T) -> bool): seq<T> {
    if xs == [] then [] else Insert(xs[|xs| - 1], Sorted(xs[..|xs| - 1], le), le)
  }

  ghost predicate TotalPreorder<T(!new)>(le: (T, T) -> bool) {
    && (forall x, y :: le(x, y) || le(y, x))
    && (forall x, y, z :: le(x, y) && le(y, z) ==> le(x, z))
  }

  ghost predicate TotalOrder<T(!new)>(le: (T, T) -> bool) {
    TotalPreorder(le) && forall x, y :: le(x, y) && le(y, x) ==> x == y
  }

  ghost predicate IsSorted<T(!new)>(xs: seq<T>, le: (T, T) -> bool) {
    forall i, j :: 0 <= i < j < |xs| ==> le(xs[i], xs[j])
  }

  lemma {:induction false} InsertPermutes<T>(x: T, ordered: seq<T>, le: (T, T) -> bool)
    ensures multiset(Insert(x, ordered, le)) == multiset(ordered) + multiset{x}
  {
    if ordered != [] {
      var last := |ordered| - 1;
      assert ordered == ordered[..last] + [ordered[last]];
      InsertPermutes(x, ordered[..last], le);
    }
  }

  lemma {:induction false} SortedPermutes<T>(xs: seq<T>, le: (T, T) -> bool)
    ensures multiset(Sorted(xs, le)) == multiset(xs)
    ensures |Sorted(xs, le)| == |xs|
  {
    if xs != [] {
      var last := |xs| - 1;
      assert xs == xs[..last] + [xs[last]];
      SortedPermutes(xs[..last], le);
      InsertPermutes(xs[last], Sorted(xs[..last], le), le);
    }
    assert |multiset(Sorted(xs, le))| == |multiset(xs)|;
  }

  lemma {:induction false} InsertSorts<T(!new)>(x: T, ordered: seq<T>, le: (T, T) -> bool)
    requires TotalPreorder(le) && IsSorted(ordered, le)
    ensures IsSorted(Insert(x, ordered, le), le)
  {
    if ordered != [] {
      var last := |ordered| - 1;
      if le(ordered[last], x) {
        forall i | 0 <= i < |ordered| ensures le(ordered[i], x) {
          assert i == last || le(ordered[i], ordered[last]);
        }
      } else {
        var front := Insert(x, ordered[..last], le);
        InsertSorts(x, ordered[..last], le);
        InsertPermutes(x, ordered[..last], le);
        forall i | 0 <= i < |front| ensures le(front[i], ordered[last]) {
          assert front[i] in multiset(front);
          if front[i] != x {
            assert front[i] in ordered[..last];
          }
        }
      }
    }
  }

  lemma {:induction false} SortedIsSorted<T(!new)>(xs: seq<T>, le: (T, T) -> bool)
    requires TotalPreorder(le)
    ensures IsSorted(Sorted(xs, le), le)
  {
    if xs != [] {
      SortedIsSorted(xs[..|xs| - 1], le);
      InsertSorts(xs[|xs| - 1], Sorted(xs[..|xs| - 1], le), le);
    }
  }

  /** No two different elements of the list tie. */
  ghost predicate NoTies<T(!new)>(xs: seq<T>, le: (T, T) -> bool) {
    forall x, y :: x in xs && y in xs && le(x, y) && le(y, x) ==> x == y
  }

  /** Two ordered lists with the same elements, none of which tie, are the same list. */
  lemma {:induction false} SortedListsAgree<T(!new)>(a: seq<T>, b: seq<T>, le: (T, T) -> bool)
    requires TotalPreorder(le) && IsSorted(a, le) && IsSorted(b, le) && NoTies(a, le)
    requires multiset(a) == multiset(b)
    ensures a == b
  {
    assert |multiset(a)| == |multiset(b)|;
    if a != [] {
      FirstsAgree(a, b, le);
      SortedListsAgree(a[1..], b[1..], le);
    }
  }

  lemma FirstsAgree<T(!new)>(a: seq<T>, b: seq<T>, le: (T, T) -> bool)
    requires TotalPreorder(le) && IsSorted(a, le) && IsSorted(b, le) && NoTies(a, le)
    requires multiset(a) == multiset(b) && a != [] && b != []
    ensures a == [a[0]] + a[1..] && b == [a[0]] + b[1..] && multiset(a[1..]) == multiset(b[1..])
    ensures NoTies(a[1..], le)
  {
    assert a[0] in multiset(b) && b[0] in multiset(a);
    FirstIsLeast(a, b[0], le);
    FirstIsLeast(b, a[0], le);
    assert a[0] == b[0];
    WithoutFirst(a);
    WithoutFirst(b);
    assert forall x :: x in a[1..] ==> x in a;
  }

  /** Sorting elements that do not tie gives the same list for every order of the input. */
  lemma SortedIgnoresInputOrder<T(!new)>(a: seq<T>, b: seq<T>, le: (T, T) -> bool)
    requires TotalPreorder(le) && NoTies(a, le) && multiset(a) == multiset(b)
    ensures Sorted(a, le) == Sorted(b, le)
  {
    SortedPermutes(a, le);
    SortedPermutes(b, le);
    SortedIsSorted(a, le);
    SortedIsSorted(b, le);
    var s := Sorted(a, le);
    forall x | x in s ensures x in a {
      assert x in multiset(s);
    }
    SortedListsAgree(s, Sorted(b, le), le);
  }

  lemma WithoutFirst<T>(a: seq<T>)
    requires a != []
    ensures a == [a[0]] + a[1..]
    ensures multiset(a[1..]) == multiset(a) - multiset{a[0]}
  {
    assert a == [a[0]] + a[1..];
  }

  /** One step of an induction over rearrangements: where the first element of `p` is found in `q`, and what is left. */
  lemma FirstFoundIn<T>(p: seq<T>, q: seq<T>) returns (i: nat)
    requires p != [] && multiset(p) == multiset(q)
    ensures i < |q| && q[i] == p[0] && q == q[..i] + [q[i]] + q[i + 1..]
    ensures p == [p[0]] + p[1..]
    ensures multiset(p[1..]) == multiset(q[..i] + q[i + 1..])
  {
    assert p[0] in multiset(q);
    i :| 0 <= i < |q| && q[i] == p[0];
    WithoutFirst(p);
    assert q == q[..i] + [q[i]] + q[i + 1..];
    assert multiset(q) == multiset(q[..i]) + multiset{q[i]} + multiset(q[i + 1..]);
  }

  lemma FirstIsLeast<T(!new)>(a: seq<T>, x: T, le: (T, T) -> bool)
    requires TotalPreorder(le) && IsSorted(a, le) && x in a
    ensures le(a[0], x)
  {
    var i :| 0 <= i < |a| && a[i] == x;
    assert i == 0 || le(a[0], a[i]);
  }

  /** Sorting by a total order forgets the order of the input and nothing else. */
  lemma SortedIsCanonical<T(!new)>(a: seq<T>, b: seq<T>, le: (T, T) -> bool)
    requires TotalOrder(le)
    ensures Sorted(a, le) == Sorted(b, le) <==> multiset(a) == multiset(b)
  {
    SortedPermutes(a, le);
    SortedPermutes(b, le);
    if multiset(a) == multiset(b) {
      SortedIgnoresInputOrder(a, b, le);
    }
  }

  // ----- what is determined when some elements tie -----

  /** A list in order is left as it is: sorting is stable. */
  lemma {:induction false} SortedOfSorted<T(!new)>(s: seq<T>, le: (T, T) -> bool)
    requires IsSorted(s, le)
    ensures Sorted(s, le) == s
  {
    if s != [] {
      var last := |s| - 1;
      SortedOfSorted(s[..last], le);
      assert last > 0 ==> le(s[last - 1], s[last]);
      assert s == s[..last] + [s[last]];
    }
  }

  /** Two elements that tie can be exchanged. */
  lemma ExchangedIsSorted<T(!new)>(s: seq<T>, i: nat, j: nat, le: (T, T) -> bool)
    requires TotalPreorder(le) && IsSorted(s, le) && i < j < |s| && le(s[j], s[i])
    ensures IsSorted(s[i := s[j]][j := s[i]], le) && multiset(s[i := s[j]][j := s[i]]) == multiset(s)
  {
    var other := s[i := s[j]][j := s[i]];
    forall k | 0 <= k < |s|
      ensures le(other[k], s[k]) && le(s[k], other[k])
    {
      assert le(s[i], s[j]) && le(s[k], s[k]);
    }
    forall k, m | 0 <= k < m < |s|
      ensures le(other[k], other[m])
    {
      assert le(other[k], s[k]) && le(s[k], s[m]) && le(s[m], other[m]);
      assert le(other[k], s[m]);
    }
  }

  /** The elements that tie with a given one, in their order. */
  function Ties<T>(xs: seq<T>, y: T, le: (T, T) -> bool): seq<T> {
    if xs == [] then []
    else
      var last := |xs| - 1;
      Ties(xs[..last], y, le) + if le(xs[last], y) && le(y, xs[last]) then [xs[last]] else []
  }

  lemma {:induction false} InsertKeepsTies<T(!new)>(x: T, ordered: seq<T>, y: T, le: (T, T) -> bool)
    requires TotalPreorder(le)
    ensures Ties(Insert(x, ordered, le), y, le) == Ties(ordered, y, le) + if le(x, y) && le(y, x) then [x] else []
  {
    if ordered != [] {
      var last := |ordered| - 1;
      if le(ordered[last], x) {
        assert (ordered + [x])[..|ordered|] == ordered;
      } else {
        var front := Insert(x, ordered[..last], le);
        InsertKeepsTies(x, ordered[..last], y, le);
        assert (front + [ordered[last]])[..|front|] == front;
        assert !(le(ordered[last], y) && le(y, x));
      }
    }
  }

  /** Sorting leaves the elements that tie in the order it found them. */
  lemma {:induction false} SortedKeepsTies<T(!new)>(xs: seq<T>, y: T, le: (T, T) -> bool)
    requires TotalPreorder(le)
    ensures Ties(Sorted(xs, le), y, le) == Ties(xs, y, le)
  {
    if xs != [] {
      var last := |xs| - 1;
      SortedKeepsTies(xs[..last], y, le);
      InsertKeepsTies(xs[last], Sorted(xs[..last], le), y, le);
    }
  }

  function Map<T, U>(f: T -> U, xs: seq<T>): seq<U> {
    seq(|xs|, i requires 0 <= i < |xs| => f(xs[i]))
  }

  lemma {:induction false} MapPermutes<T, U>(f: T -> U, a: seq<T>, b: seq<T>)
    requires multiset(a) == multiset(b)
    ensures multiset(Map(f, a)) == multiset(Map(f, b))
  {
    if a == [] {
      assert |multiset(b)| == 0;
    } else {
      var i := FirstFoundIn(a, b);
      var front, back := b[..i], b[i + 1..];
      MapPermutes(f, a[1..], front + back);
      assert Map(f, a) == [f(a[0])] + Map(f, a[1..]);
      assert Map(f, b) == Map(f, front) + [f(b[i])] + Map(f, back);
      assert Map(f, front + back) == Map(f, front) + Map(f, back);
    }
  }

  // ----- texts -----

  /** Code point order of texts, as `str.__lt__` defines it. */
  predicate TextLe(a: string, b: string) {
    a == [] || (b != [] && (a[0] < b[0] || (a[0] == b[0] && TextLe(a[1..], b[1..]))))
  }

  lemma {:induction false} TextLeTotal(a: string, b: string)
    ensures TextLe(a, b) || TextLe(b, a)
  {
    if a != [] && b != [] && a[0] == b[0] {
      TextLeTotal(a[1..], b[1..]);
    }
  }

  lemma {:induction false} TextLeTransitive(a: string, b: string, c: string)
    requires TextLe(a, b) && TextLe(b, c)
    ensures TextLe(a, c)
  {
    if a != [] && a[0] == b[0] == c[0] {
      TextLeTransitive(a[1..], b[1..], c[1..]);
    }
  }

  lemma {:induction false} TextLeAntisymmetric(a: string, b: string)
    requires TextLe(a, b) && TextLe(b, a)
    ensures a == b
  {
    if a != [] {
      TextLeAntisymmetric(a[1..], b[1..]);
      assert a == [a[0]] + a[1..] && b == [b[0]] + b[1..];
    }
  }

  lemma TextLaws(a: string, b: string, c: string)
    ensures TextLe(a, b) || TextLe(b, a)
    ensures TextLe(a, b) && TextLe(b, c) ==> TextLe(a, c)
    ensures TextLe(a, b) && TextLe(b, a) ==> a == b
  {
    TextLeTotal(a, b);
    if TextLe(a, b) && TextLe(b, c) { TextLeTransitive(a, b, c); }
    if TextLe(a, b) && TextLe(b, a) { TextLeAntisymmetric(a, b); }
  }

  lemma TextOrder()
    ensures TotalOrder(TextLe)
  {
    forall x, y ensures TextLe(x, y) || TextLe(y, x) { TextLeTotal(x, y); }
    forall x, y, z | TextLe(x, y) && TextLe(y, z) ensures TextLe(x, z) { TextLeTransitive(x, y, z); }
    forall x, y | TextLe(x, y) && TextLe(y, x) ensures x == y { TextLeAntisymmetric(x, y); }
  }

  /** One text stands before another: it is the beginning of it, or has the lower character where they part. */
  predicate StandsBefore(a: string, b: string) {
    exists k :: 0 <= k <= |a| && k < |b| && PartAt(a, b, k)
  }

  predicate PartAt(a: string, b: string, k: nat)
    requires k <= |a| && k < |b|
  {
    a[..k] == b[..k] && (k == |a| || a[k] < b[k])
  }

  lemma FirstsInOrder(a: string, b: string)
    requires StandsBefore(a, b) && a != []
    ensures a[0] <= b[0]
  {
    var k :| 0 <= k <= |a| && k < |b| && PartAt(a, b, k);
    if k > 0 {
      assert a[..k][0] == b[..k][0];
    }
  }

  lemma {:induction false} TextLeIs(a: string, b: string)
    ensures TextLe(a, b) <==> a == b || StandsBefore(a, b)
  {
    if a != [] && StandsBefore(a, b) {
      FirstsInOrder(a, b);
    }
    if a != [] && b != [] && a[0] == b[0] {
      TextLeIs(a[1..], b[1..]);
      assert a == [a[0]] + a[1..] && b == [b[0]] + b[1..];
      if StandsBefore(a[1..], b[1..]) {
        var k :| 0 <= k <= |a[1..]| && k < |b[1..]| && PartAt(a[1..], b[1..], k);
        assert a[..k + 1] == [a[0]] + a[1..][..k] && b[..k + 1] == [b[0]] + b[1..][..k];
        assert PartAt(a, b, k + 1);
      }
      if StandsBefore(a, b) {
        var k :| 0 <= k <= |a| && k < |b| && PartAt(a, b, k);
        assert k > 0;
        assert a[1..][..k - 1] == a[..k][1..] && b[1..][..k - 1] == b[..k][1..];
        assert PartAt(a[1..], b[1..], k - 1);
      }
    } else if b != [] && (a == [] || a[0] < b[0]) {
      assert PartAt(a, b, 0);
    }
  }

  predicate IntLe(a: int, b: int) { a <= b }

  lemma IntOrder()
    ensures TotalOrder(IntLe)
  {
  }
}
