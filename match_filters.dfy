/**
 * The list filters of the employment-matching app: the young-people search,
 * the job-offer search and the pre-selection of the two matching tabs. Each
 * screen applies its multi-select filters one after the other; a filter whose
 * selection is empty lets everything through.
 */
module MatchFilters {
  import opened Seqs
  import opened Scoring

  /** The status of a young person who is actively looking for a job. */
  const ActivelySearching: string := "En recherche active"

  /** The status of an offer that is still open. */
  const ActiveOffer: string := "Active"

  /** The choices made on the young-people search screen (the status list comes from the sidebar). */
  datatype PeopleCriteria = PeopleCriteria(
    statuses: seq<string>,
    ageMin: int,
    ageMax: int,
    qualifications: seq<string>,
    sectors: seq<string>)

  /** The person names at least one of the chosen sectors among their preferred sectors. */
  predicate PrefersOneOf(y: YoungPerson, sectors: seq<string>)
  {
    exists k :: 0 <= k < |y.preferredSectors| && y.preferredSectors[k] in sectors
  }

  /** A person the search screen shows: every criterion holds at once. */
  predicate PersonWanted(c: PeopleCriteria, y: YoungPerson)
  {
    Selected(c.statuses, y.status)
    && c.ageMin <= y.age <= c.ageMax
    && Selected(c.qualifications, y.qualification)
    && (c.sectors == [] || PrefersOneOf(y, c.sectors))
  }

  /**
   * The young-people search: status, then age range, then qualification,
   * then preferred sectors, applied one after the other. A person is shown
   * iff every criterion holds, and the shown people keep the list's order.
   */
  function SearchYoungPeople(people: seq<YoungPerson>, c: PeopleCriteria): (r: seq<YoungPerson>)
    ensures forall y :: y in r <==> y in people && PersonWanted(c, y)
    ensures IsSubsequence(r, people)
  {
    var byStatus := KeepIfSelected(people, c.statuses, (y: YoungPerson) => y.status);
    var byAge := Filter(byStatus, (y: YoungPerson) => c.ageMin <= y.age <= c.ageMax);
    var byQualification := KeepIfSelected(byAge, c.qualifications, (y: YoungPerson) => y.qualification);
    var r := if c.sectors == [] then byQualification else Filter(byQualification, (y: YoungPerson) => PrefersOneOf(y, c.sectors));
    SubsequenceReflexive(byQualification);
    SubsequenceTransitive(byAge, byStatus, people);
    SubsequenceTransitive(byQualification, byAge, people);
    SubsequenceTransitive(r, byQualification, people);
    SubsequenceMembers(byStatus, people);
    SubsequenceMembers(byAge, byStatus);
    SubsequenceMembers(byQualification, byAge);
    SubsequenceMembers(r, byQualification);
    r
  }

  /** The choices made on the job-offer screen (sector and contract come from the sidebar). */
  datatype OfferCriteria = OfferCriteria(
    statuses: seq<string>,
    sectors: seq<string>,
    contracts: seq<string>,
    locations: seq<string>,
    qualifications: seq<string>)

  predicate OfferWanted(c: OfferCriteria, o: JobOffer)
  {
    Selected(c.statuses, o.status)
    && Selected(c.sectors, o.sector)
    && Selected(c.contracts, o.contractType)
    && Selected(c.locations, o.location)
    && Selected(c.qualifications, o.requiredQualification)
  }

  /** The job-offer search: five multi-select filters in a row; an offer is shown iff it passes all of them. */
  function SearchJobOffers(offers: seq<JobOffer>, c: OfferCriteria): (r: seq<JobOffer>)
    ensures forall o :: o in r <==> o in offers && OfferWanted(c, o)
    ensures IsSubsequence(r, offers)
  {
    var r1 := KeepIfSelected(offers, c.statuses, (o: JobOffer) => o.status);
    var r2 := KeepIfSelected(r1, c.sectors, (o: JobOffer) => o.sector);
    var r3 := KeepIfSelected(r2, c.contracts, (o: JobOffer) => o.contractType);
    var r4 := KeepIfSelected(r3, c.locations, (o: JobOffer) => o.location);
    var r5 := KeepIfSelected(r4, c.qualifications, (o: JobOffer) => o.requiredQualification);
    SubsequenceTransitive(r2, r1, offers);
    SubsequenceTransitive(r3, r2, offers);
    SubsequenceTransitive(r4, r3, offers);
    SubsequenceTransitive(r5, r4, offers);
    KeepIfSelectedMembers(offers, c.statuses, (o: JobOffer) => o.status);
    KeepIfSelectedMembers(r1, c.sectors, (o: JobOffer) => o.sector);
    KeepIfSelectedMembers(r2, c.contracts, (o: JobOffer) => o.contractType);
    KeepIfSelectedMembers(r3, c.locations, (o: JobOffer) => o.location);
    KeepIfSelectedMembers(r4, c.qualifications, (o: JobOffer) => o.requiredQualification);
    r5
  }

  /**
   * The offers proposed to one person on the first matching tab: open offers
   * only, then the sidebar's sector and contract filters.
   */
  function OffersToScore(offers: seq<JobOffer>, sectors: seq<string>, contracts: seq<string>): (r: seq<JobOffer>)
    ensures forall o :: o in r <==>
      o in offers && o.status == ActiveOffer && Selected(sectors, o.sector) && Selected(contracts, o.contractType)
    ensures IsSubsequence(r, offers)
  {
    var active := Filter(offers, (o: JobOffer) => o.status == ActiveOffer);
    var r1 := KeepIfSelected(active, sectors, (o: JobOffer) => o.sector);
    var r := KeepIfSelected(r1, contracts, (o: JobOffer) => o.contractType);
    SubsequenceTransitive(r1, active, offers);
    SubsequenceTransitive(r, r1, offers);
    SubsequenceMembers(r, r1);
    SubsequenceMembers(r1, active);
    r
  }

  /**
   * The offers listed on the second matching tab: when at least one offer is
   * open only the open ones are kept, otherwise all of them; then the
   * sector and contract filters.
   */
  function OffersToChooseFrom(offers: seq<JobOffer>, sectors: seq<string>, contracts: seq<string>): (r: seq<JobOffer>)
    ensures (exists k :: 0 <= k < |offers| && offers[k].status == ActiveOffer) ==>
      forall o :: o in r ==> o.status == ActiveOffer
    ensures forall o :: o in r ==> o in offers && Selected(sectors, o.sector) && Selected(contracts, o.contractType)
    ensures forall o ::
              (o in offers && Selected(sectors, o.sector) && Selected(contracts, o.contractType) &&
               (o.status == ActiveOffer || forall k :: 0 <= k < |offers| ==> offers[k].status != ActiveOffer))
              ==> o in r
    ensures IsSubsequence(r, offers)
  {
    var anyActive := exists k :: 0 <= k < |offers| && offers[k].status == ActiveOffer;
    var open := if anyActive then Filter(offers, (o: JobOffer) => o.status == ActiveOffer) else offers;
    SubsequenceReflexive(offers);
    var r1 := KeepIfSelected(open, sectors, (o: JobOffer) => o.sector);
    var r := KeepIfSelected(r1, contracts, (o: JobOffer) => o.contractType);
    SubsequenceTransitive(r1, open, offers);
    SubsequenceTransitive(r, r1, offers);
    SubsequenceMembers(r, r1);
    SubsequenceMembers(r1, open);
    r
  }

  /**
   * The candidates scored against one offer on the second matching tab:
   * actively searching people, further narrowed by the sidebar's status list.
   * The offer screen's "propose candidates" button uses the same rule with an
   * empty status list.
   */
  function CandidatesToScore(people: seq<YoungPerson>, statuses: seq<string>): (r: seq<YoungPerson>)
    ensures forall y :: y in r <==> y in people && y.status == ActivelySearching && Selected(statuses, y.status)
    ensures IsSubsequence(r, people)
  {
    var searching := Filter(people, (y: YoungPerson) => y.status == ActivelySearching);
    var r := KeepIfSelected(searching, statuses, (y: YoungPerson) => y.status);
    SubsequenceTransitive(r, searching, people);
    SubsequenceMembers(r, searching);
    r
  }
}
