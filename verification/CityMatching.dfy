/**
 From the cities of a carrier to ours: by identifier where there is one, by name where the name leaves no
 doubt, and otherwise to a person.
 */
module CityMatching {
  import opened Options
  import opened Rounding
  import S = Sorting

  datatype City = City(fiasId: string, name: string, region: string, kladrId: Option<string>)

  /** A city as the carrier exports it; an empty text means the carrier did not say. */
  datatype CarrierCity = CarrierCity(
    code: string, name: string, region: string, fiasId: string, kladrCity: Option<string>, terminals: nat)

  datatype Method = ByFias | ByKladr | ExactName | FuzzyName | NoMethod
  datatype Reason = NoReason | NoMatch | Ambiguous

  /** A city offered to the person who decides; the score to three decimals. */
  datatype Candidate = Candidate(fiasId: string, name: string, region: string, thousandths: int)

  datatype Match = Match(
    fiasId: Option<string>, how: Method, score: real, isConfirmed: bool, reason: Reason, candidates: seq<Candidate>)

  const CANDIDATES_SHOWN := 5

  const FUZZY_THRESHOLD := 0.93
  const AUTO_CONFIRM_THRESHOLD := 0.97
  const AMBIGUITY_MARGIN := 0.05

  /** What is outside: our directory, the text normalisation, and the similarity of two names, between 0 and 1. */
  datatype Outside = Outside(
    isKnown: string -> bool, search: string -> seq<City>, norm: string -> string, ratio: (string, string) -> real)

  ghost predicate IsRatio(ratio: (string, string) -> real) {
    forall a, b :: 0.0 <= ratio(a, b) <= 1.0
  }

  // ----- how alike two cities are -----

  /** The text occurs inside the other one. */
  predicate Occurs(part: string, whole: string) {
    part <= whole || (whole != [] && Occurs(part, whole[1..]))
  }

  predicate RegionsAgree(o: Outside, a: string, b: string) {
    Occurs(o.norm(a), o.norm(b)) || Occurs(o.norm(b), o.norm(a))
  }

  function Score(o: Outside, row: CarrierCity, city: City): real {
    var alike := o.ratio(o.norm(row.name), o.norm(city.name));
    if row.region != "" && city.region != "" then (if RegionsAgree(o, row.region, city.region) then alike else 0.0)
    else alike * 0.8
  }

  // ----- the ladder -----

  datatype Scored = Scored(score: real, city: City)

  /** Sorting in reverse, as `list.sort(reverse=True)` does it: a higher score first, equal ones as they came. */
  predicate NotBelow(a: Scored, b: Scored) {
    a.score >= b.score
  }

  function ScoredOf(o: Outside, row: CarrierCity, candidates: seq<City>): seq<Scored> {
    if candidates == [] then []
    else
      var front, last := ScoredOf(o, row, candidates[..|candidates| - 1]), candidates[|candidates| - 1];
      if Score(o, row, last) > 0.0 then front + [Scored(Score(o, row, last), last)] else front
  }

  /** The best of an ordered list, as a person sees them. */
  function Shown(scored: seq<Scored>): seq<Candidate> {
    seq(if |scored| < CANDIDATES_SHOWN then |scored| else CANDIDATES_SHOWN,
        i requires 0 <= i < |scored| =>
          Candidate(scored[i].city.fiasId, scored[i].city.name, scored[i].city.region, HalfEven(scored[i].score * 1000.0)))
  }

  /** The decision on an ordered list of scores. */
  function Decided(scored: seq<Scored>): Match {
    if scored == [] then Match(None, NoMethod, 0.0, false, NoMatch, [])
    else if |scored| > 1 && scored[0].score - scored[1].score < AMBIGUITY_MARGIN
    then Match(None, NoMethod, scored[0].score, false, Ambiguous, Shown(scored))
    else if scored[0].score < FUZZY_THRESHOLD then Match(None, NoMethod, scored[0].score, false, NoMatch, Shown(scored))
    else
      var sure := scored[0].score >= AUTO_CONFIRM_THRESHOLD;
      Match(Some(scored[0].city.fiasId), if sure then ExactName else FuzzyName, scored[0].score, sure, NoReason, Shown(scored))
  }

  function MatchByName(o: Outside, row: CarrierCity, candidates: seq<City>): Match {
    Decided(S.Sorted(ScoredOf(o, row, candidates), NotBelow))
  }

  function KladrHits(kladr: string, candidates: seq<City>): seq<City> {
    if candidates == [] then []
    else
      var front, last := KladrHits(kladr, candidates[..|candidates| - 1]), candidates[|candidates| - 1];
      if last.kladrId == Some(kladr) then front + [last] else front
  }

  function MatchOf(o: Outside, row: CarrierCity): Match {
    if row.fiasId != "" && o.isKnown(row.fiasId) then Match(Some(row.fiasId), ByFias, 1.0, true, NoReason, [])
    else
      var hits := if row.kladrCity.Some? then KladrHits(row.kladrCity.value, o.search(row.name)) else [];
      if |hits| == 1 then Match(Some(hits[0].fiasId), ByKladr, 0.99, true, NoReason, [])
      else MatchByName(o, row, o.search(row.name))
  }

  /** One row of the export, down the ladder. */
  method MatchOne(o: Outside, row: CarrierCity) returns (result: Match)
    ensures result == MatchOf(o, row)
  {
    if row.fiasId != "" && o.isKnown(row.fiasId) {
      return Match(Some(row.fiasId), ByFias, 1.0, true, NoReason, []);
    }
    var candidates := o.search(row.name);
    if row.kladrCity.Some? {
      var hits := [];
      for i := 0 to |candidates|
        invariant hits == KladrHits(row.kladrCity.value, candidates[..i])
      {
        assert candidates[..i + 1][..i] == candidates[..i];
        if candidates[i].kladrId == row.kladrCity {
          hits := hits + [candidates[i]];
        }
      }
      assert candidates[..|candidates|] == candidates;
      if |hits| == 1 {
        return Match(Some(hits[0].fiasId), ByKladr, 0.99, true, NoReason, []);
      }
    }
    var scored: seq<Scored> := [];
    for i := 0 to |candidates|
      invariant scored == ScoredOf(o, row, candidates[..i])
    {
      assert candidates[..i + 1][..i] == candidates[..i];
      var score := Score(o, row, candidates[i]);
      if score > 0.0 {
        scored := scored + [Scored(score, candidates[i])];
      }
    }
    assert candidates[..|candidates|] == candidates;
    return Decided(S.Sorted(scored, NotBelow));
  }

  // ----- what it means to be accepted by a code -----

  /** This candidate carries the code, and no other one does. */
  ghost predicate OnlyHit(kladr: string, candidates: seq<City>, k: nat)
    requires k < |candidates|
  {
    forall j :: 0 <= j < |candidates| ==> (candidates[j].kladrId == Some(kladr) <==> j == k)
  }

  ghost predicate NoHit(kladr: string, candidates: seq<City>) {
    forall j :: 0 <= j < |candidates| ==> candidates[j].kladrId != Some(kladr)
  }

  lemma OneMoreCandidate(kladr: string, front: seq<City>, last: City)
    ensures NoHit(kladr, front + [last]) <==> NoHit(kladr, front) && last.kladrId != Some(kladr)
    ensures OnlyHit(kladr, front + [last], |front|) <==> NoHit(kladr, front) && last.kladrId == Some(kladr)
    ensures forall k :: 0 <= k < |front| ==>
              (OnlyHit(kladr, front + [last], k) <==> OnlyHit(kladr, front, k) && last.kladrId != Some(kladr))
  {
    var all := front + [last];
    assert all[|front|] == last && forall j :: 0 <= j < |front| ==> all[j] == front[j];
  }

  lemma {:induction false} HitsAre(kladr: string, candidates: seq<City>)
    ensures KladrHits(kladr, candidates) == [] <==> NoHit(kladr, candidates)
    ensures |KladrHits(kladr, candidates)| == 1 <==> exists k :: 0 <= k < |candidates| && OnlyHit(kladr, candidates, k)
    ensures forall k :: 0 <= k < |candidates| && OnlyHit(kladr, candidates, k) ==>
              KladrHits(kladr, candidates) == [candidates[k]]
  {
    if candidates != [] {
      var n := |candidates| - 1;
      HitsAre(kladr, candidates[..n]);
      OneMoreCandidate(kladr, candidates[..n], candidates[n]);
      assert candidates == candidates[..n] + [candidates[n]];
      if |KladrHits(kladr, candidates)| == 1 && candidates[n].kladrId != Some(kladr) {
        var k :| 0 <= k < n && OnlyHit(kladr, candidates[..n], k);
        assert OnlyHit(kladr, candidates, k);
      }
    }
  }

  /** A code places the row if and only if exactly one candidate carries it; otherwise the name decides. */
  lemma CodeDecidesIff(o: Outside, row: CarrierCity)
    ensures row.fiasId != "" && o.isKnown(row.fiasId) ==> MatchOf(o, row).fiasId == Some(row.fiasId)
    ensures MatchOf(o, row).how == ByKladr <==>
              && !(row.fiasId != "" && o.isKnown(row.fiasId)) && row.kladrCity.Some?
              && exists k :: 0 <= k < |o.search(row.name)| && OnlyHit(row.kladrCity.value, o.search(row.name), k)
    ensures MatchOf(o, row).how !in {ByFias, ByKladr} ==> MatchOf(o, row) == MatchByName(o, row, o.search(row.name))
  {
    if row.kladrCity.Some? {
      HitsAre(row.kladrCity.value, o.search(row.name));
    }
  }

  /** In which city a code places the row: that of the only candidate that carries it, and for good. */
  lemma CodePlacesInItsCity(o: Outside, row: CarrierCity, k: nat)
    requires !(row.fiasId != "" && o.isKnown(row.fiasId)) && row.kladrCity.Some?
    requires k < |o.search(row.name)| && OnlyHit(row.kladrCity.value, o.search(row.name), k)
    ensures var m := MatchOf(o, row);
            && m.fiasId == Some(o.search(row.name)[k].fiasId) && m.how == ByKladr && m.score == 0.99
            && m.isConfirmed && m.reason == NoReason && m.candidates == []
  {
    HitsAre(row.kladrCity.value, o.search(row.name));
  }

  /** An identifier of ours that we know places the row there, whatever else the carrier says. */
  lemma IdentifierPlacesInItsCity(o: Outside, row: CarrierCity)
    requires row.fiasId != "" && o.isKnown(row.fiasId)
    ensures var m := MatchOf(o, row);
            && m.fiasId == Some(row.fiasId) && m.how == ByFias && m.score == 1.0
            && m.isConfirmed && m.reason == NoReason && m.candidates == []
  {
  }

  /** For example, two places of one name, of which the second has the code. */
  lemma SecondOfOneName(o: Outside, row: CarrierCity, a: City, b: City)
    requires row.fiasId == "" && row.kladrCity == Some("4500000200000") && o.search(row.name) == [a, b]
    requires a.kladrId == Some("5900000100000") && b.kladrId == Some("4500000200000")
    ensures MatchOf(o, row).fiasId == Some(b.fiasId)
  {
    assert OnlyHit("4500000200000", o.search(row.name), 1);
    CodePlacesInItsCity(o, row, 1);
  }

  // ----- how alike two cities are said to be -----

  predicate StandsAt(part: string, whole: string, i: nat) {
    i + |part| <= |whole| && whole[i..i + |part|] == part
  }

  lemma {:induction false} OccursIff(part: string, whole: string)
    ensures Occurs(part, whole) <==> exists i: nat :: StandsAt(part, whole, i)
  {
    if part <= whole {
      assert StandsAt(part, whole, 0);
    } else if whole != [] {
      OccursIff(part, whole[1..]);
      if i: nat :| StandsAt(part, whole[1..], i) {
        assert StandsAt(part, whole, i + 1);
      }
      if i: nat :| StandsAt(part, whole, i) {
        assert i > 0 ==> StandsAt(part, whole[1..], i - 1);
      }
    }
  }

  /** Both regions are known, and neither name occurs in the other. */
  predicate AreApart(o: Outside, row: CarrierCity, city: City) {
    row.region != "" && city.region != "" && !RegionsAgree(o, row.region, city.region)
  }

  /**
   A city of another region is never shown to anybody: whoever is shown is one of the candidates, with its score to
   three decimals, and its region agrees or is not known on one side, where a fifth of the likeness is taken off.
   */
  lemma ShownCitiesMayBeIt(o: Outside, row: CarrierCity, candidates: seq<City>, i: nat) returns (k: nat, alike: real)
    requires i < |MatchByName(o, row, candidates).candidates|
    ensures i < 5 && k < |candidates| && !AreApart(o, row, candidates[k])
    ensures var ratio := o.ratio(o.norm(row.name), o.norm(candidates[k].name));
            alike == if row.region != "" && candidates[k].region != "" then ratio else ratio * 0.8
    ensures MatchByName(o, row, candidates).candidates[i]
         == Candidate(candidates[k].fiasId, candidates[k].name, candidates[k].region, HalfEven(alike * 1000.0))
  {
    k := ShownPosition(o, row, candidates, S.Sorted(ScoredOf(o, row, candidates), NotBelow), i);
    alike := Score(o, row, candidates[k]);
    ScoreIsOf(o, row, candidates[k]);
  }

  lemma ShownPosition(o: Outside, row: CarrierCity, candidates: seq<City>, sorted: seq<Scored>, i: nat) returns (k: nat)
    requires sorted == S.Sorted(ScoredOf(o, row, candidates), NotBelow) && i < |Decided(sorted).candidates|
    ensures i < 5 && k < |candidates| && Score(o, row, candidates[k]) > 0.0
    ensures Decided(sorted).candidates[i] == Candidate(
              candidates[k].fiasId, candidates[k].name, candidates[k].region, HalfEven(Score(o, row, candidates[k]) * 1000.0))
  {
    var scored := ScoredOf(o, row, candidates);
    SortedFacts(scored);
    ShownIsSorted(sorted, i);
    var m := FoundAt(scored, sorted, i);
    var at := WhereScored(o, row, candidates);
    k := at[m];
    ScoredArePositive(o, row, candidates, m);
  }

  lemma ShownIsSorted(sorted: seq<Scored>, i: nat)
    requires i < |Decided(sorted).candidates|
    ensures i < 5 && i < |sorted|
    ensures Decided(sorted).candidates[i]
         == Candidate(sorted[i].city.fiasId, sorted[i].city.name, sorted[i].city.region, HalfEven(sorted[i].score * 1000.0))
  {
  }

  lemma FoundAt(scored: seq<Scored>, sorted: seq<Scored>, i: nat) returns (m: nat)
    requires multiset(sorted) == multiset(scored) && i < |sorted|
    ensures m < |scored| && scored[m] == sorted[i]
  {
    assert sorted[i] in multiset(scored);
    m :| 0 <= m < |scored| && scored[m] == sorted[i];
  }

  lemma ScoreIsOf(o: Outside, row: CarrierCity, city: City)
    requires Score(o, row, city) > 0.0
    ensures var alike := o.ratio(o.norm(row.name), o.norm(city.name));
            !AreApart(o, row, city) && Score(o, row, city) == if row.region != "" && city.region != "" then alike else alike * 0.8
  {
  }

  lemma {:induction false} ScoredArePositive(o: Outside, row: CarrierCity, candidates: seq<City>, m: nat)
    requires m < |ScoredOf(o, row, candidates)|
    ensures ScoredOf(o, row, candidates)[m].score > 0.0
    ensures ScoredOf(o, row, candidates)[m].score == Score(o, row, ScoredOf(o, row, candidates)[m].city)
  {
    var front := candidates[..|candidates| - 1];
    if m < |ScoredOf(o, row, front)| {
      ScoredArePositive(o, row, front, m);
    }
  }

  // ----- what it means to be accepted by name -----

  /** The candidate is alike enough, and every other one is behind it by the margin. */
  ghost predicate Wins(o: Outside, row: CarrierCity, candidates: seq<City>, k: nat)
    requires k < |candidates|
  {
    && Score(o, row, candidates[k]) >= FUZZY_THRESHOLD
    && forall j :: 0 <= j < |candidates| && j != k ==>
         Score(o, row, candidates[k]) - Score(o, row, candidates[j]) >= AMBIGUITY_MARGIN
  }

  lemma NotBelowIsTotal()
    ensures S.TotalPreorder(NotBelow)
  {
  }

  /** The scored list as indices of the candidates: position i of the list is candidate at[i]. */
  lemma {:induction false} WhereScored(o: Outside, row: CarrierCity, candidates: seq<City>) returns (at: seq<nat>)
    ensures |at| == |ScoredOf(o, row, candidates)|
    ensures forall i :: 0 <= i < |at| ==> at[i] < |candidates|
    ensures forall i :: 0 <= i < |at| ==>
              ScoredOf(o, row, candidates)[i] == Scored(Score(o, row, candidates[at[i]]), candidates[at[i]])
    ensures forall i, j :: 0 <= i < j < |at| ==> at[i] < at[j]
    ensures forall k :: 0 <= k < |candidates| && Score(o, row, candidates[k]) > 0.0 ==> k in at
  {
    at := [];
    if candidates != [] {
      var n := |candidates| - 1;
      at := WhereScored(o, row, candidates[..n]);
      if Score(o, row, candidates[n]) > 0.0 {
        at := at + [n];
      }
    }
  }

  lemma SortedFacts(scored: seq<Scored>)
    ensures var sorted := S.Sorted(scored, NotBelow);
            |sorted| == |scored| && multiset(sorted) == multiset(scored) && S.IsSorted(sorted, NotBelow)
  {
    NotBelowIsTotal();
    S.SortedPermutes(scored, NotBelow);
    S.SortedIsSorted(scored, NotBelow);
  }

  /** An element of a rearrangement of all but the i-th, found in its old place. */
  lemma FoundBesides(scored: seq<Scored>, i: nat, x: Scored) returns (m: nat)
    requires i < |scored| && x in multiset(scored[..i] + scored[i + 1..])
    ensures m < |scored| && m != i && scored[m] == x
  {
    var rest := scored[..i] + scored[i + 1..];
    var q :| 0 <= q < |rest| && rest[q] == x;
    m := if q < i then q else q + 1;
  }

  /** Where the first of the sorted list was before, where the second was, and that nothing else comes between. */
  lemma SortedSplit(scored: seq<Scored>) returns (i: nat, second: nat)
    requires scored != []
    ensures var sorted := S.Sorted(scored, NotBelow);
            && |sorted| == |scored| && i < |scored| && sorted[0] == scored[i]
            && (|sorted| > 1 ==> second < |scored| && second != i && sorted[1] == scored[second])
            && (forall m :: 0 <= m < |scored| && m != i ==>
                 |sorted| > 1 && scored[m].score <= sorted[1].score <= scored[i].score)
  {
    var sorted := S.Sorted(scored, NotBelow);
    SortedFacts(scored);
    i := S.FirstFoundIn(sorted, scored);
    second := 0;
    if |sorted| > 1 {
      assert sorted[1..][0] == sorted[1];
      second := FoundBesides(scored, i, sorted[1]);
      assert NotBelow(sorted[0], sorted[1]);
    }
    forall m | 0 <= m < |scored| && m != i
      ensures |sorted| > 1 && scored[m].score <= sorted[1].score
    {
      RestIsBehind(scored, sorted, i, m);
    }
  }

  lemma SecondIsNext(sorted: seq<Scored>, j: nat)
    requires S.IsSorted(sorted, NotBelow) && 0 < j < |sorted|
    ensures sorted[j].score <= sorted[1].score
  {
    assert j == 1 || NotBelow(sorted[1], sorted[j]);
  }

  lemma RestIsBehind(scored: seq<Scored>, sorted: seq<Scored>, i: nat, m: nat)
    requires S.IsSorted(sorted, NotBelow) && sorted != [] && i < |scored| && m < |scored| && m != i
    requires multiset(sorted[1..]) == multiset(scored[..i] + scored[i + 1..])
    ensures |sorted| > 1 && scored[m].score <= sorted[1].score
  {
    var tail, rest := sorted[1..], scored[..i] + scored[i + 1..];
    assert scored[m] == rest[if m < i then m else m - 1];
    assert scored[m] in multiset(tail);
    var q :| 0 <= q < |tail| && tail[q] == scored[m];
    SecondIsNext(sorted, q + 1);
  }

  /** The best of the sorted list, as a candidate, and all the others behind it in the list. */
  lemma BestCandidate(o: Outside, row: CarrierCity, candidates: seq<City>) returns (k: nat, next: nat)
    requires ScoredOf(o, row, candidates) != []
    ensures var sorted := S.Sorted(ScoredOf(o, row, candidates), NotBelow);
            && k < |candidates| && sorted != []
            && sorted[0] == Scored(Score(o, row, candidates[k]), candidates[k])
            && (|sorted| > 1 ==> next < |candidates| && next != k && Score(o, row, candidates[next]) == sorted[1].score)
            && (forall j :: 0 <= j < |candidates| && j != k && Score(o, row, candidates[j]) > 0.0 ==>
                 |sorted| > 1 && Score(o, row, candidates[j]) <= sorted[1].score <= sorted[0].score)
  {
    var scored := ScoredOf(o, row, candidates);
    var at := WhereScored(o, row, candidates);
    var i, second := SortedSplit(scored);
    k := at[i];
    next := if |scored| > 1 then at[second] else 0;
    forall j | 0 <= j < |candidates| && j != k && Score(o, row, candidates[j]) > 0.0
      ensures |scored| > 1 && Score(o, row, candidates[j]) <= S.Sorted(scored, NotBelow)[1].score <= scored[i].score
    {
      var m :| 0 <= m < |at| && at[m] == j;
      assert m != i && scored[m].score == Score(o, row, candidates[j]);
    }
  }

  lemma OnlyTheBestWins(o: Outside, row: CarrierCity, candidates: seq<City>, k: nat, best: nat)
    requires k < |candidates| && best < |candidates| && Wins(o, row, candidates, k)
    requires Score(o, row, candidates[k]) <= Score(o, row, candidates[best])
    ensures k == best
  {
  }

  /**
   A city is accepted by name if and only if one candidate scores at least 0.93 and is at least 0.05 ahead of
   every other one, and then it is that candidate.
   */
  lemma AcceptedByNameIff(o: Outside, row: CarrierCity, candidates: seq<City>)
    requires IsRatio(o.ratio)
    ensures MatchByName(o, row, candidates).fiasId.Some? <==> exists k :: 0 <= k < |candidates| && Wins(o, row, candidates, k)
    ensures forall k :: 0 <= k < |candidates| && Wins(o, row, candidates, k) ==>
              && MatchByName(o, row, candidates).fiasId == Some(candidates[k].fiasId)
              && MatchByName(o, row, candidates).score == Score(o, row, candidates[k])
  {
    if ScoredOf(o, row, candidates) == [] {
      var at := WhereScored(o, row, candidates);
      S.SortedPermutes(ScoredOf(o, row, candidates), NotBelow);
    } else {
      var best, next := BestCandidate(o, row, candidates);
      forall k | 0 <= k < |candidates| && Wins(o, row, candidates, k)
        ensures k == best
      {
        OnlyTheBestWins(o, row, candidates, k, best);
      }
      if MatchByName(o, row, candidates).fiasId.Some? {
        assert Wins(o, row, candidates, best);
      }
    }
  }

  /** The score is the best of the candidates, or zero when none has any. */
  ghost predicate IsBestScore(o: Outside, row: CarrierCity, candidates: seq<City>, score: real) {
    if forall k :: 0 <= k < |candidates| ==> Score(o, row, candidates[k]) <= 0.0 then score == 0.0
    else
      && (exists k :: 0 <= k < |candidates| && Score(o, row, candidates[k]) == score)
      && (forall k :: 0 <= k < |candidates| ==> Score(o, row, candidates[k]) <= score)
  }

  /** Two candidates of different places in the list are alike, the one the best and the other less than 0.05 behind. */
  ghost predicate HasRival(o: Outside, row: CarrierCity, candidates: seq<City>, score: real) {
    exists j, k :: 0 <= j < |candidates| && 0 <= k < |candidates| && j != k
                   && Score(o, row, candidates[j]) == score && Score(o, row, candidates[k]) > 0.0
                   && score - Score(o, row, candidates[k]) < 0.05
  }

  /**
   What is said of a row that its name decides: the best score, and of the outcomes the one that it deserves. A rival
   leaves the row to a person as ambiguous, a best score under 0.93 as unmatched, and from 0.97 on the city is certain.
   */
  lemma WhatANameDecides(o: Outside, row: CarrierCity, candidates: seq<City>)
    ensures var m := MatchByName(o, row, candidates);
            && IsBestScore(o, row, candidates, m.score)
            && (m.reason == Ambiguous <==> m.score > 0.0 && HasRival(o, row, candidates, m.score))
            && (m.reason == NoMatch <==> m.reason != Ambiguous && m.score < 0.93)
            && (m.fiasId.Some? <==> m.reason == NoReason)
            && (m.isConfirmed <==> m.how == ExactName)
            && (m.how == ExactName <==> m.reason == NoReason && m.score >= 0.97)
            && (m.how == FuzzyName <==> m.reason == NoReason && m.score < 0.97)
            && (m.how == NoMethod <==> m.reason != NoReason)
  {
    var sorted := S.Sorted(ScoredOf(o, row, candidates), NotBelow);
    DecisionOf(sorted);
    S.SortedPermutes(ScoredOf(o, row, candidates), NotBelow);
    if ScoredOf(o, row, candidates) == [] {
      var at := WhereScored(o, row, candidates);
    } else {
      BestAndRival(o, row, candidates);
    }
  }

  /** The decision, by the best and the second score alone. */
  lemma DecisionOf(sorted: seq<Scored>)
    ensures var m := Decided(sorted);
            && m.score == (if sorted == [] then 0.0 else sorted[0].score)
            && (m.reason == Ambiguous <==> |sorted| > 1 && sorted[0].score - sorted[1].score < 0.05)
            && (m.reason == NoMatch <==> m.reason != Ambiguous && m.score < 0.93)
            && (m.fiasId.Some? <==> m.reason == NoReason)
            && (m.isConfirmed <==> m.how == ExactName)
            && (m.how == ExactName <==> m.reason == NoReason && m.score >= 0.97)
            && (m.how == FuzzyName <==> m.reason == NoReason && m.score < 0.97)
            && (m.how == NoMethod <==> m.reason != NoReason)
  {
  }

  lemma BestAndRival(o: Outside, row: CarrierCity, candidates: seq<City>)
    requires ScoredOf(o, row, candidates) != []
    ensures var sorted := S.Sorted(ScoredOf(o, row, candidates), NotBelow);
            && sorted != [] && sorted[0].score > 0.0 && IsBestScore(o, row, candidates, sorted[0].score)
            && (|sorted| > 1 && sorted[0].score - sorted[1].score < 0.05 <==> HasRival(o, row, candidates, sorted[0].score))
  {
    var scored := ScoredOf(o, row, candidates);
    var sorted := S.Sorted(scored, NotBelow);
    SortedFacts(scored);
    var best, next := BestCandidate(o, row, candidates);
    var first := FoundAt(scored, sorted, 0);
    ScoredArePositive(o, row, candidates, first);
    if |sorted| > 1 {
      var second := FoundAt(scored, sorted, 1);
      ScoredArePositive(o, row, candidates, second);
    }
    RivalIff(o, row, candidates, sorted, best, next);
  }

  lemma RivalIff(o: Outside, row: CarrierCity, candidates: seq<City>, sorted: seq<Scored>, best: nat, next: nat)
    requires best < |candidates| && sorted != [] && sorted[0].score == Score(o, row, candidates[best]) > 0.0
    requires |sorted| > 1 ==>
               && next < |candidates| && next != best && sorted[1].score > 0.0
               && Score(o, row, candidates[next]) == sorted[1].score
    requires forall j :: 0 <= j < |candidates| && j != best && Score(o, row, candidates[j]) > 0.0 ==>
               |sorted| > 1 && Score(o, row, candidates[j]) <= sorted[1].score <= sorted[0].score
    ensures IsBestScore(o, row, candidates, sorted[0].score)
    ensures |sorted| > 1 && sorted[0].score - sorted[1].score < 0.05 <==> HasRival(o, row, candidates, sorted[0].score)
  {
  }

  /** So both regions are known and agree: a row without a region is never accepted by name. */
  lemma AcceptedByNameKnowsTheRegion(o: Outside, row: CarrierCity, candidates: seq<City>, k: nat)
    requires IsRatio(o.ratio) && k < |candidates| && Wins(o, row, candidates, k)
    ensures row.region != "" && candidates[k].region != "" && RegionsAgree(o, row.region, candidates[k].region)
    ensures o.ratio(o.norm(row.name), o.norm(candidates[k].name)) >= FUZZY_THRESHOLD
  {
  }

  // ----- the order of the candidates does not matter -----

  lemma {:induction false} ScoredOfBoth(o: Outside, row: CarrierCity, a: seq<City>, b: seq<City>)
    ensures ScoredOf(o, row, a + b) == ScoredOf(o, row, a) + ScoredOf(o, row, b)
  {
    if b == [] {
      assert a + b == a;
    } else {
      assert (a + b)[..|a + b| - 1] == a + b[..|b| - 1];
      ScoredOfBoth(o, row, a, b[..|b| - 1]);
    }
  }

  lemma {:induction false} ScoredPermute(o: Outside, row: CarrierCity, a: seq<City>, b: seq<City>)
    requires multiset(a) == multiset(b)
    ensures multiset(ScoredOf(o, row, a)) == multiset(ScoredOf(o, row, b))
  {
    if a == [] {
      assert |multiset(b)| == 0;
    } else {
      var i := S.FirstFoundIn(a, b);
      var front, back := b[..i], b[i + 1..];
      ScoredPermute(o, row, a[1..], front + back);
      ScoredOfBoth(o, row, [a[0]], a[1..]);
      ScoredOfBoth(o, row, front + [b[i]], back);
      ScoredOfBoth(o, row, front, [b[i]]);
      ScoredOfBoth(o, row, front, back);
    }
  }

  function Scores(xs: seq<Scored>): seq<real> {
    if xs == [] then [] else [xs[0].score] + Scores(xs[1..])
  }

  predicate RealGe(a: real, b: real) {
    a >= b
  }

  lemma {:induction false} ScoresAt(xs: seq<Scored>)
    ensures |Scores(xs)| == |xs| && forall i :: 0 <= i < |xs| ==> Scores(xs)[i] == xs[i].score
  {
    if xs != [] {
      ScoresAt(xs[1..]);
    }
  }

  lemma {:induction false} ScoresOfBoth(a: seq<Scored>, b: seq<Scored>)
    ensures Scores(a + b) == Scores(a) + Scores(b)
  {
    if a == [] {
      assert a + b == b;
    } else {
      assert (a + b)[1..] == a[1..] + b;
      ScoresOfBoth(a[1..], b);
    }
  }

  lemma {:induction false} ScoresPermute(a: seq<Scored>, b: seq<Scored>)
    requires multiset(a) == multiset(b)
    ensures multiset(Scores(a)) == multiset(Scores(b))
  {
    if a == [] {
      assert |multiset(b)| == 0;
    } else {
      var i := S.FirstFoundIn(a, b);
      var front, back := b[..i], b[i + 1..];
      ScoresPermute(a[1..], front + back);
      ScoresOfBoth(front + [b[i]], back);
      ScoresOfBoth(front, [b[i]]);
      ScoresOfBoth(front, back);
    }
  }

  /** Two rearrangements of one list, sorted: the scores agree position by position. */
  lemma SortedScoresAgree(a: seq<Scored>, b: seq<Scored>)
    requires multiset(a) == multiset(b)
    ensures var sa, sb := S.Sorted(a, NotBelow), S.Sorted(b, NotBelow);
            && multiset(sa) == multiset(sb) && |sa| == |sb|
            && (forall i :: 0 <= i < |sa| ==> sa[i].score == sb[i].score)
            && S.IsSorted(sa, NotBelow) && S.IsSorted(sb, NotBelow)
  {
    var sa, sb := S.Sorted(a, NotBelow), S.Sorted(b, NotBelow);
    NotBelowIsTotal();
    S.SortedPermutes(a, NotBelow);
    S.SortedPermutes(b, NotBelow);
    S.SortedIsSorted(a, NotBelow);
    S.SortedIsSorted(b, NotBelow);
    assert |multiset(a)| == |multiset(b)|;
    ScoresPermute(sa, sb);
    ScoresAt(sa);
    ScoresAt(sb);
    assert S.IsSorted(Scores(sa), RealGe) && S.IsSorted(Scores(sb), RealGe) by {
      assert forall i, j :: 0 <= i < j < |sa| ==> NotBelow(sa[i], sa[j]) && NotBelow(sb[i], sb[j]);
    }
    S.SortedListsAgree(Scores(sa), Scores(sb), RealGe);
  }

  /** Equal scores, position by position, are shown as equal scores. */
  lemma ShownScoresAgree(sa: seq<Scored>, sb: seq<Scored>)
    requires |sa| == |sb| && forall i :: 0 <= i < |sa| ==> sa[i].score == sb[i].score
    ensures |Shown(sa)| == |Shown(sb)| && forall i :: 0 <= i < |Shown(sa)| ==> Shown(sa)[i].thousandths == Shown(sb)[i].thousandths
  {
  }

  /**
   The outcome by name, accepted or not, is the same for every order in which the candidates come, and so are the
   scores that are shown. Only the order of shown cities with one score can differ, and none does without such a tie.
   */
  lemma CandidateOrderDoesNotMatter(o: Outside, row: CarrierCity, a: seq<City>, b: seq<City>)
    requires multiset(a) == multiset(b)
    ensures var ma, mb := MatchByName(o, row, a), MatchByName(o, row, b);
            && ma.(candidates := []) == mb.(candidates := [])
            && |ma.candidates| == |mb.candidates|
            && (forall i :: 0 <= i < |ma.candidates| ==> ma.candidates[i].thousandths == mb.candidates[i].thousandths)
            && (S.NoTies(ScoredOf(o, row, a), NotBelow) ==> ma == mb)
  {
    ScoredPermute(o, row, a, b);
    var xs, ys := ScoredOf(o, row, a), ScoredOf(o, row, b);
    SortedScoresAgree(xs, ys);
    DecisionsAgree(S.Sorted(xs, NotBelow), S.Sorted(ys, NotBelow));
    if S.NoTies(xs, NotBelow) {
      NotBelowIsTotal();
      S.SortedIgnoresInputOrder(xs, ys, NotBelow);
    }
  }

  lemma DecisionsAgree(sa: seq<Scored>, sb: seq<Scored>)
    requires multiset(sa) == multiset(sb) && |sa| == |sb|
    requires forall i :: 0 <= i < |sa| ==> sa[i].score == sb[i].score
    requires S.IsSorted(sa, NotBelow) && S.IsSorted(sb, NotBelow)
    ensures Decided(sa).(candidates := []) == Decided(sb).(candidates := [])
    ensures |Decided(sa).candidates| == |Decided(sb).candidates|
    ensures forall i :: 0 <= i < |Decided(sa).candidates| ==>
              Decided(sa).candidates[i].thousandths == Decided(sb).candidates[i].thousandths
  {
    ShownScoresAgree(sa, sb);
    if Decided(sa).fiasId.Some? {
      assert sa[0] in multiset(sb);
      var j :| 0 <= j < |sb| && sb[j] == sa[0];
      if j > 0 {
        SecondIsNext(sb, j);
      }
    }
  }
}
