/**
 * The follow-up screen of the employment-matching app: the list of
 * introductions between a young person and an offer, filtered by status,
 * period and a search text, and summed up in four counters.
 */
module FollowUp {
  import opened Seqs
  import opened Text
  import opened Dates

  /** One introduction of a young person to an offer, and where it stands. */
  datatype Introduction = Introduction(
    id: string,
    youngId: string,
    youngName: string,
    offerId: string,
    offerTitle: string,
    companyName: string,
    matchDate: Date,
    status: string,
    lastUpdate: Date,
    notes: string)

  /** The six stages an introduction goes through. */
  const Statuses: seq<string> := ["Proposé", "Entretien programmé", "Entretien réalisé", "Embauche", "Refus employeur", "Refus candidat"]

  const Hired: string := "Embauche"
  const Ongoing: seq<string> := ["Proposé", "Entretien programmé", "Entretien réalisé"]
  const Rejected: seq<string> := ["Refus employeur", "Refus candidat"]

  /**
   * The period filter applies only when the date picker returned both ends;
   * both ends are included.
   */
  predicate InPeriod(m: Introduction, period: seq<Date>)
  {
    |period| != 2 || (DateLe(period[0], m.matchDate) && DateLe(m.matchDate, period[1]))
  }

  /** `text.str.contains(term, case=False)`, the term read as plain text. */
  predicate ContainsIgnoringCase(text: string, term: string)
  {
    Contains(Lower(term), Lower(text))
  }

  /** An empty search keeps everything; otherwise the person's name, the company or the offer title must contain it. */
  predicate MatchesSearch(m: Introduction, term: string)
  {
    term == ""
    || ContainsIgnoringCase(m.youngName, term)
    || ContainsIgnoringCase(m.companyName, term)
    || ContainsIgnoringCase(m.offerTitle, term)
  }

  /** The status, period and search filters, one after the other. */
  function FilterIntroductions(all: seq<Introduction>, statuses: seq<string>, period: seq<Date>, term: string): (r: seq<Introduction>)
    ensures forall m :: m in r <==>
      m in all && Selected(statuses, m.status) && InPeriod(m, period) && MatchesSearch(m, term)
    ensures IsSubsequence(r, all)
  {
    var byStatus := KeepIfSelected(all, statuses, (m: Introduction) => m.status);
    var byPeriod := Filter(byStatus, (m: Introduction) => InPeriod(m, period));
    var r := if term == "" then byPeriod else Filter(byPeriod, (m: Introduction) => MatchesSearch(m, term));
    SubsequenceReflexive(byPeriod);
    KeepIfSelectedMembers(all, statuses, (m: Introduction) => m.status);
    SubsequenceMembers(byPeriod, byStatus);
    SubsequenceMembers(r, byPeriod);
    SubsequenceTransitive(byPeriod, byStatus, all);
    SubsequenceTransitive(r, byPeriod, all);
    r
  }

  /** A search for a name finds every introduction of a person with exactly that name. */
  lemma SearchFindsOwnName(m: Introduction)
    ensures MatchesSearch(m, m.youngName)
  {
    ContainsTrivial(Lower(m.youngName));
  }

  /** The four counters above the list. */
  datatype Summary = Summary(total: nat, hired: nat, ongoing: nat, rejected: nat)

  predicate IsHired(m: Introduction) { m.status == Hired }
  predicate IsOngoing(m: Introduction) { m.status in Ongoing }
  predicate IsRejected(m: Introduction) { m.status in Rejected }

  /** `len` of the shown list and of its hired, ongoing and rejected rows; no row is counted twice. */
  function Summarize(shown: seq<Introduction>): (s: Summary)
    ensures s.total == |shown|
    ensures s.hired == Count(shown, IsHired)
    ensures s.ongoing == Count(shown, IsOngoing)
    ensures s.rejected == Count(shown, IsRejected)
    ensures s.hired + s.ongoing + s.rejected <= s.total
  {
    CountDisjointBound(shown, IsHired, IsOngoing, IsRejected);
    Summary(|shown|, Count(shown, IsHired), Count(shown, IsOngoing), Count(shown, IsRejected))
  }

  /**
   * When every status is one of the six stages, each introduction is counted
   * exactly once: hired, ongoing and rejected add up to the total.
   */
  lemma SummaryPartitions(shown: seq<Introduction>)
    requires forall m :: m in shown ==> m.status in Statuses
    ensures Summarize(shown).hired + Summarize(shown).ongoing + Summarize(shown).rejected == Summarize(shown).total
  {
    forall m | m in shown ensures IsHired(m) || IsOngoing(m) || IsRejected(m) {
      assert m.status in Statuses;
    }
    CountPartition(shown, IsHired, IsOngoing, IsRejected);
  }
}
