/** In what order a repeated answer shows its refusals and failures, which are sorted by the carrier's code alone. */
module RepeatOrder {
  import opened Options
  import opened Sorting
  import opened QuoteReuse

  /** What is shown of the rows of one list, in order; `view` is whatever the answer shows of a row. */
  function ShownOf<T>(rows: seq<OfferRow>, p: OfferRow -> bool, codes: Id -> string, view: OfferRow -> T): seq<T> {
    Map(view, Sorted(Where(rows, p), CodeBefore(codes)))
  }

  /** Two rows of the list have one code and are shown differently. */
  ghost predicate HasVisibleTie<T(!new)>(rows: seq<OfferRow>, p: OfferRow -> bool, codes: Id -> string, view: OfferRow -> T) {
    exists x, y :: x in Where(rows, p) && y in Where(rows, p)
                   && codes(x.carrierId) == codes(y.carrierId) && view(x) != view(y)
  }

  /** Whatever order the rows come back in, the list is shown as it was. */
  ghost predicate IsShownAlike<T(!new)>(rows: seq<OfferRow>, p: OfferRow -> bool, codes: Id -> string, view: OfferRow -> T) {
    forall readBack :: multiset(readBack) == multiset(rows) ==> ShownOf(readBack, p, codes, view) == ShownOf(rows, p, codes, view)
  }

  lemma CodesOrder(codes: Id -> string)
    ensures TotalPreorder(CodeBefore(codes))
  {
    var le := CodeBefore(codes);
    TextOrder();
    forall x, y
      ensures le(x, y) || le(y, x)
    {
      assert TextLe(codes(x.carrierId), codes(y.carrierId)) || TextLe(codes(y.carrierId), codes(x.carrierId));
    }
    forall x, y, z | le(x, y) && le(y, z)
      ensures le(x, z)
    {
      assert TextLe(codes(x.carrierId), codes(y.carrierId)) && TextLe(codes(y.carrierId), codes(z.carrierId));
    }
  }

  function CodeOf(codes: Id -> string): OfferRow -> string {
    (r: OfferRow) => codes(r.carrierId)
  }

  /** Position by position the codes of two sorted lists of the same rows agree. */
  lemma CodesAgree(a: seq<OfferRow>, b: seq<OfferRow>, codes: Id -> string)
    requires multiset(a) == multiset(b) && IsSorted(a, CodeBefore(codes)) && IsSorted(b, CodeBefore(codes))
    ensures |a| == |b| && forall i :: 0 <= i < |a| ==> codes(a[i].carrierId) == codes(b[i].carrierId)
  {
    var ca, cb := Map(CodeOf(codes), a), Map(CodeOf(codes), b);
    assert |multiset(a)| == |multiset(b)|;
    MapPermutes(CodeOf(codes), a, b);
    TextOrder();
    assert IsSorted(ca, TextLe) && IsSorted(cb, TextLe) by {
      assert forall i, j :: 0 <= i < j < |a| ==> CodeBefore(codes)(a[i], a[j]) && CodeBefore(codes)(b[i], b[j]);
    }
    SortedListsAgree(ca, cb, TextLe);
    forall i | 0 <= i < |a|
      ensures codes(a[i].carrierId) == codes(b[i].carrierId)
    {
      assert ca[i] == cb[i];
    }
  }

  lemma SortedFacts(rows: seq<OfferRow>, p: OfferRow -> bool, codes: Id -> string)
    ensures var s := Sorted(Where(rows, p), CodeBefore(codes));
            && multiset(s) == multiset(Where(rows, p)) && IsSorted(s, CodeBefore(codes))
            && forall x :: x in s <==> x in Where(rows, p)
  {
    var s := Sorted(Where(rows, p), CodeBefore(codes));
    CodesOrder(codes);
    SortedPermutes(Where(rows, p), CodeBefore(codes));
    SortedIsSorted(Where(rows, p), CodeBefore(codes));
    forall x
      ensures x in s <==> x in Where(rows, p)
    {
      assert x in multiset(s) <==> x in multiset(Where(rows, p));
    }
  }

  lemma NoVisibleTieShowsAlike<T(!new)>(
      rows: seq<OfferRow>, readBack: seq<OfferRow>, p: OfferRow -> bool, codes: Id -> string, view: OfferRow -> T)
    requires multiset(readBack) == multiset(rows) && !HasVisibleTie(rows, p, codes, view)
    ensures ShownOf(readBack, p, codes, view) == ShownOf(rows, p, codes, view)
  {
    var a, b := Sorted(Where(readBack, p), CodeBefore(codes)), Sorted(Where(rows, p), CodeBefore(codes));
    WhereOfPermuted(readBack, rows, p);
    SortedFacts(readBack, p, codes);
    SortedFacts(rows, p, codes);
    CodesAgree(a, b, codes);
    forall i | 0 <= i < |a|
      ensures view(a[i]) == view(b[i])
    {
      assert a[i] in multiset(b) && b[i] in b;
    }
  }

  /** The rows that are not in the list. */
  function Others(rows: seq<OfferRow>, p: OfferRow -> bool): seq<OfferRow> {
    if rows == [] then [] else (if p(rows[0]) then [] else [rows[0]]) + Others(rows[1..], p)
  }

  lemma {:induction false} OthersCounts(rows: seq<OfferRow>, p: OfferRow -> bool, r: OfferRow)
    ensures multiset(Others(rows, p))[r] == if p(r) then 0 else multiset(rows)[r]
  {
    if rows != [] {
      assert rows == [rows[0]] + rows[1..];
      OthersCounts(rows[1..], p, r);
    }
  }

  lemma SplitInTwo(rows: seq<OfferRow>, p: OfferRow -> bool)
    ensures multiset(Where(rows, p)) + multiset(Others(rows, p)) == multiset(rows)
    ensures Where(Others(rows, p), p) == []
  {
    var list, rest := Where(rows, p), Others(rows, p);
    forall r
      ensures (multiset(list) + multiset(rest))[r] == multiset(rows)[r] && multiset(Where(rest, p))[r] == 0
    {
      WhereCounts(rows, p, r);
      OthersCounts(rows, p, r);
      WhereCounts(rest, p, r);
    }
    assert Where(rest, p) == [] || Where(rest, p)[0] in multiset(Where(rest, p));
  }

  lemma {:induction false} WhereOfList(list: seq<OfferRow>, rest: seq<OfferRow>, p: OfferRow -> bool)
    requires (forall x :: x in list ==> p(x)) && Where(rest, p) == []
    ensures Where(list + rest, p) == list
  {
    if list == [] {
      assert list + rest == rest;
    } else {
      assert (list + rest)[1..] == list[1..] + rest && (list + rest)[0] == list[0];
      WhereOfList(list[1..], rest, p);
      assert list[0] in list;
    }
  }

  /** Rows that come back with the list in some sorted order show it in that order. */
  lemma ComesBackAs<T(!new)>(
      rows: seq<OfferRow>, s: seq<OfferRow>, p: OfferRow -> bool, codes: Id -> string, view: OfferRow -> T)
    requires multiset(s) == multiset(Where(rows, p)) && IsSorted(s, CodeBefore(codes))
    ensures multiset(s + Others(rows, p)) == multiset(rows)
    ensures ShownOf(s + Others(rows, p), p, codes, view) == Map(view, s)
  {
    SplitInTwo(rows, p);
    forall x | x in s
      ensures p(x)
    {
      assert x in multiset(Where(rows, p));
      WhereCounts(rows, p, x);
    }
    WhereOfList(s, Others(rows, p), p);
    SortedOfSorted(s, CodeBefore(codes));
  }

  /** Two positions of a sorted list with one code, shown differently. */
  lemma TieInOrder<T(!new)>(rows: seq<OfferRow>, s: seq<OfferRow>, p: OfferRow -> bool, codes: Id -> string, view: OfferRow -> T)
    returns (lo: nat, hi: nat)
    requires HasVisibleTie(rows, p, codes, view) && forall x :: x in Where(rows, p) ==> x in s
    ensures lo < hi < |s| && codes(s[lo].carrierId) == codes(s[hi].carrierId) && view(s[lo]) != view(s[hi])
  {
    var x, y :| x in Where(rows, p) && y in Where(rows, p) && codes(x.carrierId) == codes(y.carrierId) && view(x) != view(y);
    var i :| 0 <= i < |s| && s[i] == x;
    var j :| 0 <= j < |s| && s[j] == y;
    lo, hi := if i < j then i else j, if i < j then j else i;
  }

  lemma ExchangedIsShownDifferently<T>(s: seq<OfferRow>, lo: nat, hi: nat, codes: Id -> string, view: OfferRow -> T)
    requires IsSorted(s, CodeBefore(codes)) && lo < hi < |s|
    requires codes(s[lo].carrierId) == codes(s[hi].carrierId) && view(s[lo]) != view(s[hi])
    ensures var other := s[lo := s[hi]][hi := s[lo]];
            IsSorted(other, CodeBefore(codes)) && multiset(other) == multiset(s) && Map(view, s) != Map(view, other)
  {
    var other := s[lo := s[hi]][hi := s[lo]];
    CodesOrder(codes);
    assert CodeBefore(codes)(s[lo], s[hi]);
    ExchangedIsSorted(s, lo, hi, CodeBefore(codes));
    assert Map(view, s)[lo] != Map(view, other)[lo];
  }

  lemma VisibleTieShowsDifferently<T(!new)>(rows: seq<OfferRow>, p: OfferRow -> bool, codes: Id -> string, view: OfferRow -> T)
    requires HasVisibleTie(rows, p, codes, view)
    ensures !IsShownAlike(rows, p, codes, view)
  {
    var s := Sorted(Where(rows, p), CodeBefore(codes));
    SortedFacts(rows, p, codes);
    var lo, hi := TieInOrder(rows, s, p, codes, view);
    ExchangedIsShownDifferently(s, lo, hi, codes, view);
    var other := s[lo := s[hi]][hi := s[lo]];
    ComesBackAs(rows, s, p, codes, view);
    ComesBackAs(rows, other, p, codes, view);
    NotBothAlike(rows, s + Others(rows, p), other + Others(rows, p), p, codes, view);
  }

  lemma NotBothAlike<T(!new)>(
      rows: seq<OfferRow>, a: seq<OfferRow>, b: seq<OfferRow>, p: OfferRow -> bool, codes: Id -> string, view: OfferRow -> T)
    requires multiset(a) == multiset(rows) == multiset(b) && ShownOf(a, p, codes, view) != ShownOf(b, p, codes, view)
    ensures !IsShownAlike(rows, p, codes, view)
  {
  }

  /** A list is shown alike for every order of its rows exactly when no two rows of one code are shown differently. */
  lemma ShownAlikeIff<T(!new)>(rows: seq<OfferRow>, p: OfferRow -> bool, codes: Id -> string, view: OfferRow -> T)
    ensures IsShownAlike(rows, p, codes, view) <==> !HasVisibleTie(rows, p, codes, view)
  {
    if HasVisibleTie(rows, p, codes, view) {
      VisibleTieShowsDifferently(rows, p, codes, view);
    } else {
      forall readBack | multiset(readBack) == multiset(rows)
        ensures ShownOf(readBack, p, codes, view) == ShownOf(rows, p, codes, view)
      {
        NoVisibleTieShowsAlike(rows, readBack, p, codes, view);
      }
    }
  }

  /** The two lists of an answer that are sorted by the code alone, as they are shown. */
  ghost predicate SameRefusals<T(!new)>(
      a: seq<OfferRow>, b: seq<OfferRow>, hasDeadline: bool, names: Id -> string, codes: Id -> string, view: OfferRow -> T)
  {
    var r, s := Response(a, hasDeadline, names, codes), Response(b, hasDeadline, names, codes);
    Map(view, r.blocked) == Map(view, s.blocked) && Map(view, r.failures) == Map(view, s.failures)
  }

  /**
   A repeated answer shows its refusals and its failures as the fresh one did, whatever order the rows come back in,
   if and only if in neither list two rows with one carrier code are shown differently: two accounts of one carrier
   that failed for different reasons, for example, can change places.
   */
  lemma RepeatShowsTheSameRefusalsIff<T(!new)>(
      rows: seq<OfferRow>, hasDeadline: bool, names: Id -> string, codes: Id -> string, view: OfferRow -> T)
    ensures (forall readBack :: multiset(readBack) == multiset(rows) ==> SameRefusals(rows, readBack, hasDeadline, names, codes, view))
            <==> !HasVisibleTie(rows, IsBlocked, codes, view) && !HasVisibleTie(rows, IsFailure, codes, view)
  {
    ShownAlikeIff(rows, IsBlocked, codes, view);
    ShownAlikeIff(rows, IsFailure, codes, view);
    if forall readBack :: multiset(readBack) == multiset(rows) ==> SameRefusals(rows, readBack, hasDeadline, names, codes, view) {
      forall readBack | multiset(readBack) == multiset(rows)
        ensures ShownOf(readBack, IsBlocked, codes, view) == ShownOf(rows, IsBlocked, codes, view)
        ensures ShownOf(readBack, IsFailure, codes, view) == ShownOf(rows, IsFailure, codes, view)
      {
        assert SameRefusals(rows, readBack, hasDeadline, names, codes, view);
      }
    }
    if IsShownAlike(rows, IsBlocked, codes, view) && IsShownAlike(rows, IsFailure, codes, view) {
      forall readBack | multiset(readBack) == multiset(rows)
        ensures SameRefusals(rows, readBack, hasDeadline, names, codes, view)
      {
        assert ShownOf(readBack, IsBlocked, codes, view) == ShownOf(rows, IsBlocked, codes, view);
        assert ShownOf(readBack, IsFailure, codes, view) == ShownOf(rows, IsFailure, codes, view);
      }
    }
  }
}
