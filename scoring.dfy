/**
 * The youth-to-job match scorer of the employment-matching app: six criteria
 * with fixed weights add up to a raw score, which is turned into a percentage
 * of the total weight and rounded the way Python's `round` rounds (half to
 * even). Arithmetic is on exact reals; the float round-off of the source is
 * not modelled.
 */
module Scoring {
  import opened Seqs

  /** A young person followed by the mission (one row of the young-people table). */
  datatype YoungPerson = YoungPerson(
    id: string,
    name: string,
    age: int,
    qualification: string,
    skills: seq<string>,
    preferredSectors: seq<string>,
    preferredContracts: seq<string>,
    mobility: int,
    preferredLocation: string,
    experienceYears: int,
    status: string)

  /** A job offer published by a partner company. */
  datatype JobOffer = JobOffer(
    id: string,
    companyId: string,
    companyName: string,
    title: string,
    sector: string,
    contractType: string,
    requiredQualification: string,
    requiredSkills: seq<string>,
    requiredExperience: int,
    location: string,
    status: string)

  const SkillWeight: real := 40.0
  const SectorWeight: real := 20.0
  const ContractWeight: real := 15.0
  const QualificationWeight: real := 10.0
  const ExperienceWeight: real := 10.0
  const LocationWeight: real := 5.0

  /** The sum of the weights, accumulated by the scorer as `max_score`. */
  const MaxScore: real := SkillWeight + SectorWeight + ContractWeight + QualificationWeight + ExperienceWeight + LocationWeight

  /** The qualification labels from lowest to highest. */
  const QualificationLevels: seq<string> := ["Sans diplôme", "CAP/BEP", "Bac", "Bac+2", "Bac+3 et plus"]

  /**
   * `qualification_levels.get(name, 0)`: the name's position in the ladder,
   * and 0 for a name the ladder does not know.
   */
  function QualificationRank(name: string): (r: nat)
    ensures r < |QualificationLevels|
    ensures forall i :: 0 <= i < |QualificationLevels| && QualificationLevels[i] == name ==> r == i
    ensures name !in QualificationLevels ==> r == 0
  {
    var levels := map["Sans diplôme" := 0, "CAP/BEP" := 1, "Bac" := 2, "Bac+2" := 3, "Bac+3 et plus" := 4];
    if name in levels then levels[name] else 0
  }

  /** `set(skills) & set(required_skills)`. */
  function SkillOverlap(y: YoungPerson, o: JobOffer): set<string>
  {
    SetOf(y.skills) * SetOf(o.requiredSkills)
  }

  /**
   * The skill criterion: 40 times the share of required skills the person has,
   * over the length of the required list (at least 1, so an offer without
   * required skills gives no credit instead of failing).
   */
  function SkillCredit(y: YoungPerson, o: JobOffer): (c: real)
    ensures 0.0 <= c <= SkillWeight
  {
    OverlapBound(y, o);
    var overlap, required := |SkillOverlap(y, o)| as real, Max(|o.requiredSkills|, 1) as real;
    ShareBound(overlap, required);
    overlap / required * SkillWeight
  }

  /** A part of a positive whole is a share between 0 and 1. */
  lemma ShareBound(part: real, whole: real)
    requires 0.0 <= part <= whole && whole > 0.0
    ensures 0.0 <= part / whole <= 1.0
  {
    DivideMonotone(0.0, part, whole);
    DivideMonotone(part, whole, whole);
  }

  lemma OverlapBound(y: YoungPerson, o: JobOffer)
    ensures |SkillOverlap(y, o)| <= |o.requiredSkills|
  {
    SubsetCardinality(SkillOverlap(y, o), SetOf(o.requiredSkills));
    SetOfCardinality(o.requiredSkills);
  }

  predicate SectorMatch(y: YoungPerson, o: JobOffer) { o.sector in y.preferredSectors }

  predicate ContractMatch(y: YoungPerson, o: JobOffer) { o.contractType in y.preferredContracts }

  /** The person's qualification is at least the required one (a higher one is fine). */
  predicate QualificationMatch(y: YoungPerson, o: JobOffer)
  {
    QualificationRank(y.qualification) >= QualificationRank(o.requiredQualification)
  }

  predicate ExperienceMatch(y: YoungPerson, o: JobOffer) { y.experienceYears >= o.requiredExperience }

  predicate LocationMatch(y: YoungPerson, o: JobOffer) { y.preferredLocation == o.location }

  function Credit(met: bool, weight: real): real
  {
    if met then weight else 0.0
  }

  /** The accumulated `score` before it is divided by `max_score`. */
  function RawScore(y: YoungPerson, o: JobOffer): (s: real)
    ensures 0.0 <= s <= MaxScore
  {
    SkillCredit(y, o)
    + Credit(SectorMatch(y, o), SectorWeight)
    + Credit(ContractMatch(y, o), ContractWeight)
    + Credit(QualificationMatch(y, o), QualificationWeight)
    + Credit(ExperienceMatch(y, o), ExperienceWeight)
    + Credit(LocationMatch(y, o), LocationWeight)
  }

  /** `(score / max_score) * 100 if max_score > 0 else 0`. */
  function MatchPercentage(y: YoungPerson, o: JobOffer): real
  {
    if MaxScore > 0.0 then RawScore(y, o) / MaxScore * 100.0 else 0.0
  }

  /** The weights add up to 100, so the percentage is the raw score itself. */
  lemma PercentageIsRawScore(y: YoungPerson, o: JobOffer)
    ensures MaxScore == 100.0
    ensures MatchPercentage(y, o) == RawScore(y, o)
    ensures 0.0 <= MatchPercentage(y, o) <= 100.0
  {
  }

  /**
   * Python's `round(x)`: the nearest integer, and on a tie the even one.
   * The two `ensures` determine the result uniquely.
   */
  function RoundHalfEven(x: real): (r: int)
    ensures -0.5 <= r as real - x <= 0.5
    ensures (r as real - x == 0.5 || x - r as real == 0.5) ==> r % 2 == 0
  {
    var f := x.Floor;
    var d := x - f as real;
    if d < 0.5 then f
    else if d > 0.5 then f + 1
    else if f % 2 == 0 then f
    else f + 1
  }

  /** Rounding never reverses the order of two numbers. */
  lemma RoundHalfEvenMonotone(x: real, y: real)
    requires x <= y
    ensures RoundHalfEven(x) <= RoundHalfEven(y)
  {
    if x == y {
    } else {
      var rx, ry := RoundHalfEven(x), RoundHalfEven(y);
      assert rx as real <= x + 0.5 && y - 0.5 <= ry as real;
      assert rx as real - ry as real < 1.0;
    }
  }

  /** Rounding a whole number gives it back. */
  lemma RoundHalfEvenInteger(n: int)
    ensures RoundHalfEven(n as real) == n
  {
  }

  /** `calculate_match_score`: the rounded percentage, a whole number from 0 to 100. */
  function MatchScore(y: YoungPerson, o: JobOffer): (score: int)
    ensures 0 <= score <= 100
    ensures -0.5 <= score as real - RawScore(y, o) <= 0.5
  {
    PercentageIsRawScore(y, o);
    RoundHalfEven(MatchPercentage(y, o))
  }

  /**
   * A person who has every required skill (required skills listed once each,
   * at least one) and meets the five other criteria scores 100.
   */
  lemma PerfectMatch(y: YoungPerson, o: JobOffer)
    requires 0 < |o.requiredSkills| && NoDuplicates(o.requiredSkills)
    requires forall k :: 0 <= k < |o.requiredSkills| ==> o.requiredSkills[k] in y.skills
    requires SectorMatch(y, o) && ContractMatch(y, o) && QualificationMatch(y, o)
    requires ExperienceMatch(y, o) && LocationMatch(y, o)
    ensures MatchScore(y, o) == 100
  {
    assert SkillOverlap(y, o) == SetOf(o.requiredSkills);
    SetOfCardinality(o.requiredSkills);
    var n := |o.requiredSkills| as real;
    assert |SkillOverlap(y, o)| as real == n && Max(|o.requiredSkills|, 1) as real == n;
    assert n / n == 1.0;
    assert SkillCredit(y, o) == SkillWeight;
    PercentageIsRawScore(y, o);
    RoundHalfEvenInteger(100);
  }

  /** A person with none of the required skills who fails every other criterion scores 0. */
  lemma TotalMismatch(y: YoungPerson, o: JobOffer)
    requires forall k :: 0 <= k < |o.requiredSkills| ==> o.requiredSkills[k] !in y.skills
    requires !SectorMatch(y, o) && !ContractMatch(y, o) && !QualificationMatch(y, o)
    requires !ExperienceMatch(y, o) && !LocationMatch(y, o)
    ensures MatchScore(y, o) == 0
  {
    assert SkillOverlap(y, o) == {};
    PercentageIsRawScore(y, o);
    RoundHalfEvenInteger(0);
  }

  /**
   * An offer without required skills gives no skill credit at all (not the
   * full 40), so its score is at most 60.
   */
  lemma EmptyRequiredSkills(y: YoungPerson, o: JobOffer)
    requires o.requiredSkills == []
    ensures SkillCredit(y, o) == 0.0
    ensures MatchScore(y, o) <= 60
  {
    assert SetOf(o.requiredSkills) == {};
    assert SkillOverlap(y, o) == {};
  }

  /**
   * The qualification criterion compares positions on the ladder, equal
   * positions count, and a name outside the ladder stands at the bottom.
   */
  lemma QualificationCredit(y: YoungPerson, o: JobOffer)
    ensures forall i, j ::
              (0 <= i < |QualificationLevels| && 0 <= j < |QualificationLevels| &&
               y.qualification == QualificationLevels[i] && o.requiredQualification == QualificationLevels[j])
              ==> (QualificationMatch(y, o) <==> i >= j)
    ensures y.qualification !in QualificationLevels ==>
      (QualificationMatch(y, o) <==> o.requiredQualification !in QualificationLevels[1..])
    ensures o.requiredQualification !in QualificationLevels ==> QualificationMatch(y, o)
  {
    if y.qualification !in QualificationLevels {
      if o.requiredQualification in QualificationLevels[1..] {
        var j :| 0 <= j < |QualificationLevels[1..]| && QualificationLevels[1..][j] == o.requiredQualification;
        assert QualificationLevels[j + 1] == o.requiredQualification;
      } else if o.requiredQualification == QualificationLevels[0] {
        assert QualificationRank(o.requiredQualification) == 0;
      }
    }
  }

  /** `y2` has every skill `y1` has, and agrees with `y1` on everything else. */
  predicate MoreSkilled(y1: YoungPerson, y2: YoungPerson)
  {
    SetOf(y1.skills) <= SetOf(y2.skills) && y2 == y1.(skills := y2.skills)
  }

  /** More skills never give less skill credit. */
  lemma SkillCreditMonotone(y1: YoungPerson, y2: YoungPerson, o: JobOffer)
    requires SetOf(y1.skills) <= SetOf(y2.skills)
    ensures SkillCredit(y1, o) <= SkillCredit(y2, o)
  {
    SubsetCardinality(SkillOverlap(y1, o), SkillOverlap(y2, o));
    var d := Max(|o.requiredSkills|, 1) as real;
    var a, b := |SkillOverlap(y1, o)| as real, |SkillOverlap(y2, o)| as real;
    assert a <= b;
    DivideMonotone(a, b, d);
  }

  /** Dividing by the same positive number keeps the order. */
  lemma DivideMonotone(a: real, b: real, d: real)
    requires a <= b && d > 0.0
    ensures a / d <= b / d
  {
    assert b / d - a / d == (b - a) / d;
  }

  /** Adding skills to a person (without removing any) never lowers a match score. */
  lemma AddingSkillsNeverLowersScore(y1: YoungPerson, y2: YoungPerson, o: JobOffer)
    requires MoreSkilled(y1, y2)
    ensures MatchScore(y1, o) <= MatchScore(y2, o)
  {
    SkillCreditMonotone(y1, y2, o);
    assert RawScore(y1, o) - SkillCredit(y1, o) == RawScore(y2, o) - SkillCredit(y2, o);
    PercentageIsRawScore(y1, o);
    PercentageIsRawScore(y2, o);
    RoundHalfEvenMonotone(MatchPercentage(y1, o), MatchPercentage(y2, o));
  }

  /** The colour class a score is shown with. */
  datatype Band = MatchHigh | MatchMedium | MatchLow
  {
    /** The CSS class name the apps print. */
    function CssClass(): string
    {
      match this
      case MatchHigh => "match-high"
      case MatchMedium => "match-medium"
      case MatchLow => "match-low"
    }

    /** Position of the band, low to high. */
    function Rank(): nat
    {
      match this
      case MatchLow => 0
      case MatchMedium => 1
      case MatchHigh => 2
    }
  }

  /** `"match-high" if score >= 70 else "match-medium" if score >= 40 else "match-low"`. */
  function BandOf(score: int): Band
  {
    if score >= 70 then MatchHigh else if score >= 40 then MatchMedium else MatchLow
  }

  /**
   * The bands cut the scores into three intervals: below 40, 40 up to 69, and
   * 70 and more; a higher score never falls into a lower band.
   */
  lemma BandThresholds(s: int, t: int)
    ensures BandOf(s) == MatchHigh <==> 70 <= s
    ensures BandOf(s) == MatchMedium <==> 40 <= s < 70
    ensures BandOf(s) == MatchLow <==> s < 40
    ensures s <= t ==> BandOf(s).Rank() <= BandOf(t).Rank()
    ensures BandOf(s).CssClass() == (if s >= 70 then "match-high" else if s >= 40 then "match-medium" else "match-low")
  {
  }
}
