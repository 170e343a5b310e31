/**
 * `calculate_stats`: the dashboard's figures over the four CRM tables. The
 * conversion rate is the share of active partners among prospects and
 * active partners, in percent, and 0 when there are neither.
 */
module CrmStats {
  import opened Seqs
  import opened Text
  import opened CrmRecords

  const ActivePartner: string := "Partenaire actif"
  const Prospect: string := "Prospect"

  /** `active / (prospects + active) * 100`, guarded against an empty denominator. */
  function ConversionRate(active: nat, prospects: nat): (r: real)
    ensures prospects + active == 0 ==> r == 0.0
    ensures 0.0 <= r <= 100.0
    ensures prospects + active > 0 ==> (r == 100.0 <==> prospects == 0)
    ensures r == 0.0 <==> active == 0
    ensures r * (prospects + active) as real == active as real * 100.0
  {
    if prospects + active > 0 then active as real / (prospects + active) as real * 100.0 else 0.0
  }

  /** Comparing two ratios by cross-multiplying. */
  lemma RatioLe(x: real, y: real, u: real, v: real)
    requires y > 0.0 && v > 0.0
    requires x * v <= u * y
    ensures x / y <= u / v
  {
    var q1, q2 := x / y, u / v;
    assert q1 * y == x;
    assert q2 * v == u;
    assert q1 * (y * v) <= q2 * (y * v) by {
      assert q1 * (y * v) == x * v;
      assert q2 * (y * v) == u * y;
    }
  }

  /** More active partners, with the others unchanged, never lower the rate; more prospects never raise it. */
  lemma ConversionRateMonotone(active: nat, prospects: nat)
    ensures ConversionRate(active, prospects) <= ConversionRate(active + 1, prospects)
    ensures ConversionRate(active, prospects + 1) <= ConversionRate(active, prospects)
  {
    var a, p := active as real, prospects as real;
    if p + a > 0.0 {
      assert a * (p + a + 1.0) <= (a + 1.0) * (p + a);
      RatioLe(a, p + a, a + 1.0, p + a + 1.0);
      assert a * (p + a) <= a * (p + 1.0 + a);
      RatioLe(a, p + 1.0 + a, a, p + a);
    }
  }

  /** How many times `v` occurs in `values`. */
  function Occurrences(values: seq<string>, v: string): (n: nat)
    ensures n <= |values|
    ensures n > 0 <==> v in values
  {
    if values == [] then 0
    else (if values[0] == v then 1 else 0) + Occurrences(values[1..], v)
  }

  /** `value_counts().to_dict()`: each value present, with its number of occurrences. */
  function ValueCounts(values: seq<string>): (m: map<string, nat>)
    ensures forall v :: v in m <==> v in values
    ensures forall v :: v in m ==> 1 <= m[v] <= |values|
  {
    map v | v in SetOf(values) :: Occurrences(values, v)
  }

  lemma {:induction false} OccurrencesAppend(values: seq<string>, x: string, v: string)
    ensures Occurrences(values + [x], v) == Occurrences(values, v) + (if x == v then 1 else 0)
  {
    if values != [] {
      assert (values + [x])[1..] == values[1..] + [x];
      OccurrencesAppend(values[1..], x, v);
    }
  }

  /** One more row adds one to its own value's count and leaves the others. */
  lemma ValueCountsAppend(values: seq<string>, x: string)
    ensures ValueCounts(values + [x])[x] == (if x in values then ValueCounts(values)[x] + 1 else 1)
    ensures forall v :: v in values && v != x ==> ValueCounts(values + [x])[v] == ValueCounts(values)[v]
  {
    OccurrencesAppend(values, x, x);
    forall v | v in values && v != x ensures ValueCounts(values + [x])[v] == ValueCounts(values)[v] {
      OccurrencesAppend(values, x, v);
    }
  }

  datatype Stats = Stats(
    totalCompanies: nat, activePartners: nat, prospects: nat, totalInteractions: nat, totalEvents: nat,
    totalOffers: nat, jobOffers: nat, internships: nat, apprenticeships: nat, conversionRate: real,
    recentInteractions: nat, interactionsByType: map<string, nat>, companiesBySector: map<string, nat>)

  function CompanySector(c: Company): string { c.sector }
  function InteractionKind(i: Interaction): string { i.kind }

  predicate IsActivePartner(c: Company) { c.status == ActivePartner }
  predicate IsProspect(c: Company) { c.status == Prospect }
  predicate IsJob(o: Offer) { o.kind == "Emploi" }
  predicate IsInternship(o: Offer) { o.kind == "Stage" }
  predicate IsApprenticeship(o: Offer) { o.kind == "Alternance" }
  predicate IsNever<R>(r: R) { false }

  /** `df["date"] >= thirty_days_ago`, compared as text. */
  function RecentSince(since: string): Interaction -> bool
  {
    (i: Interaction) => LexLe(since, i.date)
  }

  /**
   * The dashboard figures. `since` is the date thirty days before today; an
   * interaction is recent when its stored date text is not before it.
   * Each count is the number of rows of its kind, the rate is the conversion
   * rate of those counts, and the two breakdowns are the value counts of a
   * column. Active partners and prospects are disjoint among the companies,
   * and the three offer types among the offers.
   */
  function CalculateStats(companies: seq<Company>, interactions: seq<Interaction>, events: seq<Event>,
                          offers: seq<Offer>, since: string): (s: Stats)
    ensures s.totalCompanies == |companies| && s.totalOffers == |offers| && s.totalInteractions == |interactions|
    ensures s.totalEvents == |events|
    ensures s.activePartners == Count(companies, IsActivePartner) && s.prospects == Count(companies, IsProspect)
    ensures s.jobOffers == Count(offers, IsJob) && s.internships == Count(offers, IsInternship)
    ensures s.apprenticeships == Count(offers, IsApprenticeship)
    ensures s.recentInteractions == Count(interactions, RecentSince(since))
    ensures s.conversionRate == ConversionRate(s.activePartners, s.prospects)
    ensures s.interactionsByType == ValueCounts(Column(interactions, InteractionKind))
    ensures s.companiesBySector == ValueCounts(Column(companies, CompanySector))
    ensures s.activePartners + s.prospects <= s.totalCompanies
    ensures s.jobOffers + s.internships + s.apprenticeships <= s.totalOffers
    ensures s.recentInteractions <= s.totalInteractions
    ensures 0.0 <= s.conversionRate <= 100.0
    ensures s.activePartners + s.prospects == 0 ==> s.conversionRate == 0.0
    ensures forall t :: t in s.interactionsByType <==> exists k :: 0 <= k < |interactions| && interactions[k].kind == t
    ensures forall t :: t in s.companiesBySector <==> exists k :: 0 <= k < |companies| && companies[k].sector == t
  {
    var active := Count(companies, IsActivePartner);
    var prospects := Count(companies, IsProspect);
    CountDisjointBound(companies, IsActivePartner, IsProspect, IsNever);
    assert Count(companies, IsNever) == 0 by {
      CountIsFilterLength(companies, IsNever);
    }
    CountDisjointBound(offers, IsJob, IsInternship, IsApprenticeship);
    var kinds := Column(interactions, InteractionKind);
    var sectors := Column(companies, CompanySector);
    Stats(|companies|, active, prospects, |interactions|, |events|, |offers|, Count(offers, IsJob),
          Count(offers, IsInternship), Count(offers, IsApprenticeship), ConversionRate(active, prospects),
          Count(interactions, RecentSince(since)), ValueCounts(kinds), ValueCounts(sectors))
  }
}
