/**
 * Ranking of the matching screens: every pre-selected offer (or candidate) is
 * scored in a loop that appends to `match_results`, the results are sorted by
 * descending score, and the first five are shown as cards.
 */
module MatchRanking {
  import opened Seqs
  import opened Sorting
  import opened Scoring

  /** One entry of `match_results`: the row that was scored and its score. */
  datatype Scored<T> = Scored(item: T, score: int)

  /** Scores never increase along the list. */
  predicate NonIncreasing<T>(s: seq<Scored<T>>)
  {
    forall i, j :: 0 <= i < j < |s| ==> s[i].score >= s[j].score
  }

  /** Every offer of the list paired with its match score for `y`, in list order. */
  function OfferScores(y: YoungPerson, offers: seq<JobOffer>): seq<Scored<JobOffer>>
  {
    seq(|offers|, i requires 0 <= i < |offers| => Scored(offers[i], MatchScore(y, offers[i])))
  }

  /** Every candidate of the list paired with their match score for `o`, in list order. */
  function CandidateScores(o: JobOffer, people: seq<YoungPerson>): seq<Scored<YoungPerson>>
  {
    seq(|people|, i requires 0 <= i < |people| => Scored(people[i], MatchScore(people[i], o)))
  }

  /** The sort key of `sort_values('match_score', ascending=False)`. */
  function DescendingScore<T>(r: Scored<T>): int
  {
    -r.score
  }

  /** `sort_values('match_score', ascending=False)`: highest scores first. */
  function ByDescendingScore<T(==)>(results: seq<Scored<T>>): (ranked: seq<Scored<T>>)
    ensures NonIncreasing(ranked)
    ensures multiset(ranked) == multiset(results)
  {
    var ranked := SortByKey(results, DescendingScore);
    assert forall i, j :: 0 <= i < j < |ranked| ==> DescendingScore(ranked[i]) <= DescendingScore(ranked[j]);
    ranked
  }

  /**
   * The first matching tab and the offer screen's candidate search: score
   * every offer for one person in a loop, then rank. The ranking holds each
   * scored pair exactly once, best first.
   */
  method RankOffers(y: YoungPerson, offers: seq<JobOffer>) returns (ranked: seq<Scored<JobOffer>>)
    ensures multiset(ranked) == multiset(OfferScores(y, offers))
    ensures NonIncreasing(ranked)
    ensures forall r :: r in ranked ==> r.item in offers && r.score == MatchScore(y, r.item) && 0 <= r.score <= 100
  {
    var results: seq<Scored<JobOffer>> := [];
    for i := 0 to |offers|
      invariant |results| == i
      invariant forall k :: 0 <= k < i ==> results[k] == Scored(offers[k], MatchScore(y, offers[k]))
    {
      results := results + [Scored(offers[i], MatchScore(y, offers[i]))];
    }
    assert results == OfferScores(y, offers);
    ranked := ByDescendingScore(results);
    RankedOffers(y, offers, ranked);
  }

  /** The second matching tab: score every candidate for one offer in a loop, then rank. */
  method RankCandidates(o: JobOffer, people: seq<YoungPerson>) returns (ranked: seq<Scored<YoungPerson>>)
    ensures multiset(ranked) == multiset(CandidateScores(o, people))
    ensures NonIncreasing(ranked)
    ensures forall r :: r in ranked ==> r.item in people && r.score == MatchScore(r.item, o) && 0 <= r.score <= 100
  {
    var results: seq<Scored<YoungPerson>> := [];
    for i := 0 to |people|
      invariant |results| == i
      invariant forall k :: 0 <= k < i ==> results[k] == Scored(people[k], MatchScore(people[k], o))
    {
      results := results + [Scored(people[i], MatchScore(people[i], o))];
    }
    assert results == CandidateScores(o, people);
    ranked := ByDescendingScore(results);
    RankedCandidates(o, people, ranked);
  }

  /** Every entry of a ranking of `OfferScores` is an offer of the list with its own score. */
  lemma RankedOffers(y: YoungPerson, offers: seq<JobOffer>, ranked: seq<Scored<JobOffer>>)
    requires multiset(ranked) == multiset(OfferScores(y, offers))
    ensures forall r :: r in ranked ==> r.item in offers && r.score == MatchScore(y, r.item)
  {
    var results := OfferScores(y, offers);
    RankingKeepsEntries(results, ranked);
    forall r | r in results ensures r.item in offers && r.score == MatchScore(y, r.item) {
      var k :| 0 <= k < |results| && results[k] == r;
    }
  }

  /** Every entry of a ranking of `CandidateScores` is a person of the list with their own score. */
  lemma RankedCandidates(o: JobOffer, people: seq<YoungPerson>, ranked: seq<Scored<YoungPerson>>)
    requires multiset(ranked) == multiset(CandidateScores(o, people))
    ensures forall r :: r in ranked ==> r.item in people && r.score == MatchScore(r.item, o)
  {
    var results := CandidateScores(o, people);
    RankingKeepsEntries(results, ranked);
    forall r | r in results ensures r.item in people && r.score == MatchScore(r.item, o) {
      var k :| 0 <= k < |results| && results[k] == r;
    }
  }

  /** Reordering neither adds nor drops an entry. */
  lemma RankingKeepsEntries<T>(results: seq<Scored<T>>, ranked: seq<Scored<T>>)
    requires multiset(ranked) == multiset(results)
    ensures forall r :: r in ranked <==> r in results
  {
    forall r ensures r in ranked <==> r in results {
      assert r in ranked <==> r in multiset(ranked);
      assert r in results <==> r in multiset(results);
    }
  }

  /** `head(n)`: the first `n` entries, or all of them when there are fewer. */
  function Top<T>(ranked: seq<Scored<T>>, n: nat): (top: seq<Scored<T>>)
    ensures |top| == Min(n, |ranked|)
  {
    ranked[..Min(n, |ranked|)]
  }

  /**
   * The head of a ranking holds the best entries: each of them scores at
   * least as much as every entry left out, and they are themselves in
   * ranking order.
   */
  lemma TopHoldsTheBest<T>(ranked: seq<Scored<T>>, n: nat)
    requires NonIncreasing(ranked)
    ensures NonIncreasing(Top(ranked, n))
    ensures forall i, j :: 0 <= i < |Top(ranked, n)| <= j < |ranked| ==> Top(ranked, n)[i].score >= ranked[j].score
    ensures forall i :: 0 <= i < |Top(ranked, n)| ==> Top(ranked, n)[i] == ranked[i]
    ensures n >= |ranked| ==> Top(ranked, n) == ranked
  {
  }

  /** The five cards shown and the ten bars of the chart. */
  const CardsShown: nat := 5
  const ChartBars: nat := 10

  /**
   * The cards are the best five of the ten entries the chart draws, and
   * every entry the chart leaves out scores no more than any bar.
   */
  lemma CardsLeadTheChart<T>(ranked: seq<Scored<T>>)
    requires NonIncreasing(ranked)
    ensures Top(Top(ranked, ChartBars), CardsShown) == Top(ranked, CardsShown)
    ensures forall i, j :: 0 <= i < |Top(ranked, ChartBars)| <= j < |ranked| ==>
      Top(ranked, ChartBars)[i].score >= ranked[j].score
  {
    TopHoldsTheBest(ranked, ChartBars);
  }
}
