// Picking one candidate: the scans over candidate maps give one answer whatever order the map is walked in, and pick
// only a candidate that stands alone by the required margin. Weights and scores come from elsewhere.

module Matching {
  import opened Common

  datatype Pick<K> = Picked(key: K) | Ambiguous | NoCandidate

  // ----- fuzzy author names: one point of evidence -----

  const AUTO_WEIGHT: real := 5.0
  const TIE_MARGIN: real := 1.0

  /** The best evidence of one author, and whether only an alias gave it. */
  datatype Evidence = Evidence(weight: real, fromAlias: bool)

  /** k is strong enough, and a full point ahead of every other author. */
  ghost predicate StandsAlone<K(!new)>(best: map<K, Evidence>, k: K) {
    && k in best && best[k].weight >= AUTO_WEIGHT
    && forall j :: j in best && j != k ==> best[k].weight - best[j].weight >= TIE_MARGIN
  }

  /** Scan for the two largest weights, walking the map in any order. */
  method PickAuthor<K(!new,==)>(best: map<K, Evidence>) returns (answer: Pick<K>)
    ensures forall k :: answer == Picked(k) <==> StandsAlone(best, k)
    ensures answer.NoCandidate? <==> best == map[]
  {
    if best == map[] { return NoCandidate; }
    var pending := best.Keys;
    var top: Option<K>, second := None, 0.0;
    while pending != {}
      invariant pending <= best.Keys
      invariant top.None? ==> pending == best.Keys
      invariant top.Some? ==> top.value in best && top.value !in pending
      invariant top.Some? ==> forall j :: j in best && j !in pending ==> best[j].weight <= best[top.value].weight
      invariant top.Some? ==> forall j :: j in best && j !in pending && j != top.value ==> best[j].weight <= second
      invariant second == 0.0 || exists j :: j in best && j !in pending && top != Some(j) && best[j].weight == second
      decreases |pending|
    {
      var k :| k in pending;
      if top.None? || best[k].weight > best[top.value].weight {
        if top.Some? { second := best[top.value].weight; }
        top := Some(k);
      } else if best[k].weight > second {
        second := best[k].weight;
      }
      pending := pending - {k};
    }
    if best[top.value].weight >= AUTO_WEIGHT && !(|best| > 1 && best[top.value].weight - second < TIE_MARGIN) {
      OthersExist(best, top.value);
      return Picked(top.value);
    }
    answer := Ambiguous;
    OthersExist(best, top.value);
  }

  lemma OthersExist<K(!new)>(best: map<K, Evidence>, k: K)
    requires k in best
    ensures |best| > 1 <==> exists j :: j in best && j != k
  {
    if forall j :: j in best ==> j == k {
      assert best.Keys == {k};
    } else {
      var j :| j in best && j != k;
      assert {j, k} <= best.Keys;
      CardinalityMonotone({j, k}, best.Keys);
    }
    assert |best.Keys| == |best|;
  }

  // ----- exact author names: a dominant work count -----

  /**
   * Ahead of every rival with a count by ten works and by a factor of two; rivals with a negative count do not count.
   */
  ghost predicate Dominates<K(!new)>(counts: map<K, int>, k: K) {
    && k in counts && counts[k] > 0
    && forall j :: j in counts && j != k && counts[j] >= 0 ==> counts[k] - counts[j] >= 10 && counts[k] >= 2 * counts[j]
  }

  method DominantExactMatch<K(!new,==)>(counts: map<K, int>) returns (answer: Option<K>)
    ensures forall k :: answer == Some(k) <==> Dominates(counts, k)
  {
    var pending := counts.Keys;
    var best: Option<K>, bestCount, secondCount := None, -1, -1;
    while pending != {}
      invariant pending <= counts.Keys && bestCount >= secondCount >= -1
      invariant best.None? ==> bestCount == -1 && secondCount == -1
      invariant best.None? ==> forall j :: j in counts && j !in pending ==> counts[j] < 0
      invariant best.Some? ==> best.value in counts && best.value !in pending && counts[best.value] == bestCount >= 0
      invariant best.Some? ==> forall j :: j in counts && j !in pending && j != best.value ==>
                 counts[j] <= secondCount || counts[j] < 0
      invariant || secondCount == -1
                || exists j :: j in counts && j !in pending && best != Some(j) && counts[j] == secondCount
    {
      var k :| k in pending;
      var count := counts[k];
      if count > bestCount {
        secondCount := bestCount;
        best, bestCount := Some(k), count;
      } else if count > secondCount {
        secondCount := count;
      }
      pending := pending - {k};
    }
    if bestCount <= 0 { return None; }
    if secondCount < 0 { return best; }
    if bestCount - secondCount < 10 { return None; }
    if secondCount > 0 && bestCount < secondCount * 2 { return None; }
    answer := best;
  }

  // ----- series candidates: ten score points -----

  predicate LessText(a: string, b: string) {
    if b == "" then false
    else if a == "" then true
    else a[0] < b[0] || (a[0] == b[0] && LessText(a[1..], b[1..]))
  }

  datatype Scored = Scored(seriesId: string, score: int)

  predicate Before(a: Scored, b: Scored) {
    if a.score == b.score then LessText(a.seriesId, b.seriesId) else a.score > b.score
  }

  predicate ByScore(s: seq<Scored>) { forall i, j :: 0 <= i < j < |s| ==> s[i].score >= s[j].score }

  /** Put c where it belongs, after those that are not behind it. */
  function Insert(s: seq<Scored>, c: Scored): seq<Scored> {
    if s == [] || !Before(c, s[|s| - 1]) then s + [c] else Insert(s[..|s| - 1], c) + [s[|s| - 1]]
  }

  lemma {:induction false} InsertKeeps(s: seq<Scored>, c: Scored)
    requires ByScore(s)
    ensures ByScore(Insert(s, c))
    ensures forall x :: x in Insert(s, c) <==> x in s || x == c
    ensures |Insert(s, c)| == |s| + 1 && multiset(Insert(s, c)) == multiset(s) + multiset{c}
  {
    InsertHolds(s, c);
    if s != [] && Before(c, s[|s| - 1]) {
      InsertKeeps(s[..|s| - 1], c);
      LastIsLowest(s, c);
    }
  }

  lemma {:induction false} InsertHolds(s: seq<Scored>, c: Scored)
    ensures |Insert(s, c)| == |s| + 1 && multiset(Insert(s, c)) == multiset(s) + multiset{c}
    ensures forall x :: x in Insert(s, c) <==> x in s || x == c
  {
    if s != [] && Before(c, s[|s| - 1]) {
      assert s == s[..|s| - 1] + [s[|s| - 1]];
      InsertHolds(s[..|s| - 1], c);
    }
  }

  lemma LastIsLowest(s: seq<Scored>, c: Scored)
    requires s != [] && ByScore(s) && Before(c, s[|s| - 1])
    ensures forall x :: x in Insert(s[..|s| - 1], c) ==> x.score >= s[|s| - 1].score
  {
    var front, last := s[..|s| - 1], s[|s| - 1];
    InsertHolds(front, c);
    forall x | x in front ensures x.score >= last.score {
      var n :| 0 <= n < |front| && front[n] == x;
    }
  }

  /** Ten points ahead of every other candidate. */
  ghost predicate Leads(scores: map<string, int>, k: string) {
    k in scores && forall j :: j in scores && j != k ==> scores[k] - scores[j] >= 10
  }

  /** Sort the candidates, taken from the map in any order, and compare the first two. */
  method SelectSeries(scores: map<string, int>) returns (answer: Pick<string>)
    ensures forall k :: answer == Picked(k) <==> Leads(scores, k)
    ensures answer.NoCandidate? <==> scores == map[]
  {
    if scores == map[] { return NoCandidate; }
    var ordered: seq<Scored> := [];
    var pending := scores.Keys;
    while pending != {}
      invariant pending <= scores.Keys && ByScore(ordered) && |ordered| + |pending| == |scores.Keys|
      invariant forall x :: x in ordered ==>
                  x.seriesId in scores && x.seriesId !in pending && scores[x.seriesId] == x.score
      invariant forall k :: k in scores && k !in pending ==> Scored(k, scores[k]) in ordered
      invariant forall x :: x in ordered ==> multiset(ordered)[x] == 1
    {
      var k :| k in pending;
      var c := Scored(k, scores[k]);
      assert c !in ordered;
      InsertKeeps(ordered, c);
      ordered, pending := Insert(ordered, c), pending - {k};
    }
    FirstLeads(scores, ordered);
    if |ordered| > 1 && ordered[0].score - ordered[1].score < 10 { return Ambiguous; }
    answer := Picked(ordered[0].seriesId);
  }

  lemma FirstLeads(scores: map<string, int>, ordered: seq<Scored>)
    requires ordered != [] && ByScore(ordered)
    requires forall x :: x in ordered ==> x.seriesId in scores && scores[x.seriesId] == x.score
    requires forall k :: k in scores ==> Scored(k, scores[k]) in ordered
    requires forall x :: x in ordered ==> multiset(ordered)[x] == 1
    ensures forall k :: Leads(scores, k) <==>
                        k == ordered[0].seriesId && (|ordered| > 1 ==> ordered[0].score - ordered[1].score >= 10)
  {
    var first := ordered[0];
    assert first in ordered;
    forall k
      ensures Leads(scores, k) <==> k == first.seriesId && (|ordered| > 1 ==> first.score - ordered[1].score >= 10)
    {
      if k in scores {
        var i :| 0 <= i < |ordered| && ordered[i] == Scored(k, scores[k]);
        if |ordered| > 1 {
          assert ordered[1] in ordered;
          DifferentPlaces(ordered, 0, 1);
        }
        if k == first.seriesId {
          forall j | j in scores && j != k ensures |ordered| > 1 && scores[j] <= ordered[1].score {
            var n :| 0 <= n < |ordered| && ordered[n] == Scored(j, scores[j]);
            assert n != 0;
          }
        }
      }
    }
  }

  lemma DifferentPlaces(s: seq<Scored>, i: nat, j: nat)
    requires i < j < |s| && multiset(s)[s[i]] == 1
    ensures s[i] != s[j]
  {
    assert s == s[..i] + [s[i]] + s[i + 1..];
    assert multiset(s) == multiset(s[..i]) + multiset{s[i]} + multiset(s[i + 1..]);
    assert s[i + 1..][j - i - 1] == s[j];
    assert s[j] in multiset(s[i + 1..]);
  }

  // ----- catalog books: a single maximum -----

  /** A catalog volume as an item's scorer sees it. */
  datatype Volume = Volume(atPosition: bool, otherVolume: bool, score: int)

  /** With a sequence only volumes at that position count; without one, volumes numbered otherwise do not. */
  predicate Eligible(hasSequence: bool, v: Volume) {
    if hasSequence then v.atPosition && v.score >= 70 else !v.otherVolume && v.score >= 88
  }

  ghost predicate SoleBest(hasSequence: bool, books: seq<Volume>, i: nat) {
    && i < |books| && Eligible(hasSequence, books[i])
    && forall j :: 0 <= j < |books| && j != i && Eligible(hasSequence, books[j]) ==> books[j].score < books[i].score
  }

  method MatchCatalogBook(hasSequence: bool, books: seq<Volume>) returns (answer: Option<nat>)
    ensures forall i: nat :: answer == Some(i) <==> SoleBest(hasSequence, books, i)
  {
    var bestScore, best, matches: nat := 0, 0, 0;
    for n := 0 to |books|
      invariant bestScore >= 0 && (matches == 0 <==> bestScore == 0)
      invariant matches > 0 ==> best < n && Eligible(hasSequence, books[best]) && books[best].score == bestScore
      invariant forall j :: 0 <= j < n && Eligible(hasSequence, books[j]) ==> books[j].score <= bestScore
      invariant matches == 1 ==> forall j :: 0 <= j < n && j != best && Eligible(hasSequence, books[j]) ==>
                 books[j].score < bestScore
      invariant matches > 1 ==>
                  exists j :: 0 <= j < n && j != best && Eligible(hasSequence, books[j]) && books[j].score == bestScore
    {
      var book := books[n];
      var positionMatched := hasSequence && book.atPosition;
      if hasSequence && !positionMatched { continue; }
      if !hasSequence && book.otherVolume { continue; }
      var threshold := if positionMatched then 70 else 88;
      if book.score < threshold { continue; }
      if book.score > bestScore {
        bestScore, best, matches := book.score, n, 1;
        continue;
      }
      if book.score == bestScore { matches := matches + 1; }
    }
    if matches == 1 { return Some(best); }
    answer := None;
  }
}
