/**
 * The skills tracked by the job-search journal. Each of the seven job-search
 * skills has a level from 0 to 5 in steps of 0.5 and a log of what moved it.
 * Levels are kept here in half-units (0 to 10), so 0.5 is one unit.
 */
module JournalSkills {
  import opened Text

  /** The seven skills, named after their keys in the skills file. */
  datatype SkillKey = Cv | CoverLetter | OfferSearch | Networking | InterviewPrep | Communication | TechnicalSkills

  /** The keys in the order the keyword table lists them. */
  const SkillOrder: seq<SkillKey> := [Cv, CoverLetter, OfferSearch, Networking, InterviewPrep, Communication, TechnicalSkills]

  /** The highest level, 5, in half-units. */
  const MaxHalfLevel: nat := 10

  /** One line of a skill's history: when, and why. */
  datatype LogEntry = LogEntry(date: string, note: string)

  /** A skill's level in half-units and its history. */
  datatype Skill = Skill(halfLevel: nat, log: seq<LogEntry>)

  /** What a missing skill is created as: level 0, empty history. */
  const NewSkill: Skill := Skill(0, [])

  /** The lower-case words whose presence in what was learnt raises a skill. */
  function Keywords(k: SkillKey): seq<string>
  {
    match k
    case Cv => ["cv", "curriculum", "resume", "profil"]
    case CoverLetter => ["lettre", "motivation", "candidature"]
    case OfferSearch => ["recherche", "offre", "annonce", "veille"]
    case Networking => ["réseau", "networking", "contact", "linkedin"]
    case InterviewPrep => ["entretien", "interview", "recruteur", "question"]
    case Communication => ["communiquer", "présentation", "expression", "pitch"]
    case TechnicalSkills => ["technique", "logiciel", "programmation", "outil"]
  }

  /** Every skill appears exactly once in the keyword table's order. */
  lemma SkillOrderListsEachSkillOnce()
    ensures forall k: SkillKey :: k in SkillOrder
    ensures forall i, j :: 0 <= i < j < |SkillOrder| ==> SkillOrder[i] != SkillOrder[j]
  {
    forall k: SkillKey ensures k in SkillOrder {
      match k
      case Cv => assert SkillOrder[0] == k;
      case CoverLetter => assert SkillOrder[1] == k;
      case OfferSearch => assert SkillOrder[2] == k;
      case Networking => assert SkillOrder[3] == k;
      case InterviewPrep => assert SkillOrder[4] == k;
      case Communication => assert SkillOrder[5] == k;
      case TechnicalSkills => assert SkillOrder[6] == k;
    }
  }

  /** `any(word in learnings.lower() for word in words)`. */
  predicate KeywordHit(k: SkillKey, learnings: string)
  {
    exists w :: 0 <= w < |Keywords(k)| && Contains(Keywords(k)[w], Lower(learnings))
  }

  /** `min(5, level + 0.5)`: one half-unit up, capped at the top level. */
  function Bump(halfLevel: nat): (r: nat)
    ensures r <= MaxHalfLevel
    ensures halfLevel < MaxHalfLevel ==> r == halfLevel + 1
    ensures halfLevel >= MaxHalfLevel ==> r == MaxHalfLevel
    ensures halfLevel <= MaxHalfLevel ==> halfLevel <= r
  {
    if halfLevel + 1 < MaxHalfLevel then halfLevel + 1 else MaxHalfLevel
  }

  /** The log line written for a journal entry that raised a skill. */
  function ProgressNote(title: string): string
  {
    "Progression depuis l'entrée: '" + title + "'"
  }

  /** One skill after a journal entry whose learnings are `learnings`. */
  function Learn(s: Skill, k: SkillKey, learnings: string, date: string, title: string): Skill
  {
    if KeywordHit(k, learnings) then Skill(Bump(s.halfLevel), s.log + [LogEntry(date, ProgressNote(title))])
    else s
  }

  /** All skills after a journal entry: the ones whose keywords appear move up, the others stay. */
  function AfterLearning(skills: map<SkillKey, Skill>, learnings: string, date: string, title: string): map<SkillKey, Skill>
  {
    map k | k in skills :: Learn(skills[k], k, learnings, date, title)
  }

  /**
   * The keyword loop run when an entry is saved: the skills are visited in the
   * order of the keyword table and each one with a hit moves up and logs a line.
   */
  method LearnFromEntry(skills: map<SkillKey, Skill>, learnings: string, date: string, title: string)
    returns (updated: map<SkillKey, Skill>)
    requires forall k: SkillKey :: k in skills
    ensures updated == AfterLearning(skills, learnings, date, title)
  {
    SkillOrderListsEachSkillOnce();
    updated := skills;
    for i := 0 to |SkillOrder|
      invariant updated.Keys == skills.Keys
      invariant forall j :: 0 <= j < i ==>
        updated[SkillOrder[j]] == Learn(skills[SkillOrder[j]], SkillOrder[j], learnings, date, title)
      invariant forall j :: i <= j < |SkillOrder| ==> updated[SkillOrder[j]] == skills[SkillOrder[j]]
    {
      var k := SkillOrder[i];
      if KeywordHit(k, learnings) {
        var s := updated[k];
        updated := updated[k := Skill(Bump(s.halfLevel), s.log + [LogEntry(date, ProgressNote(title))])];
      }
    }
    forall k: SkillKey ensures updated[k] == Learn(skills[k], k, learnings, date, title) {
      assert k in SkillOrder;
      var j :| 0 <= j < |SkillOrder| && SkillOrder[j] == k;
    }
  }

  /**
   * A skill hit by a keyword goes up by half a point, or stays at 5, and gets
   * exactly one new log line; a skill without a hit does not change; no level
   * goes above 5 or down.
   */
  lemma LearningEffect(skills: map<SkillKey, Skill>, learnings: string, date: string, title: string, k: SkillKey)
    requires k in skills
    ensures var after := AfterLearning(skills, learnings, date, title);
      k in after &&
      (KeywordHit(k, learnings) ==>
        after[k].halfLevel == Bump(skills[k].halfLevel) &&
        after[k].log == skills[k].log + [LogEntry(date, ProgressNote(title))]) &&
      (!KeywordHit(k, learnings) ==> after[k] == skills[k]) &&
      (skills[k].halfLevel <= MaxHalfLevel ==> skills[k].halfLevel <= after[k].halfLevel <= MaxHalfLevel)
  {
  }

  /** Half-units as Python prints the float level: "2.5", "3.0". */
  function LevelText(halfLevel: nat): string
  {
    NatToString(halfLevel / 2) + (if halfLevel % 2 == 0 then ".0" else ".5")
  }

  /** The log line written when a level is saved without a note. */
  function LevelNote(before: nat, after: nat): string
  {
    "Niveau mis à jour: " + LevelText(before) + " → " + LevelText(after)
  }

  /**
   * The "Enregistrer" button of the self-assessment, as written: the new
   * level is stored first and `current_level` is read afterwards, so it
   * always equals the new level.
   */
  function SaveSkillAsWritten(s: Skill, newHalfLevel: nat, note: string, today: string): Skill
  {
    var stored := s.(halfLevel := newHalfLevel);
    var current := stored.halfLevel;
    if newHalfLevel != current || note != "" then
      stored.(log := stored.log + [LogEntry(today, if note != "" then note else LevelNote(current, newHalfLevel))])
    else stored
  }

  /** As written, a log line is added iff a note was typed: a level change alone leaves no trace. */
  lemma SaveSkillAsWrittenLogsOnlyNotes(s: Skill, newHalfLevel: nat, note: string, today: string)
    ensures var after := SaveSkillAsWritten(s, newHalfLevel, note, today);
      after.halfLevel == newHalfLevel &&
      (note != "" ==> after.log == s.log + [LogEntry(today, note)]) &&
      (note == "" ==> after.log == s.log)
  {
  }

  /** Raising a level from 0 to 2.5 without a note adds nothing to the history. */
  lemma SaveSkillAsWrittenMissesLevelChange()
    ensures SaveSkillAsWritten(NewSkill, 5, "", "01/01/2025").log == []
    ensures SaveSkillAsWritten(NewSkill, 5, "", "01/01/2025").halfLevel != NewSkill.halfLevel
  {
  }

  /**
   * The rule the button states, with the level read before it is replaced:
   * a log line is added when the level changed or a note was typed.
   */
  function SaveSkill(s: Skill, newHalfLevel: nat, note: string, today: string): (r: Skill)
    ensures r.halfLevel == newHalfLevel
    ensures (newHalfLevel != s.halfLevel || note != "") ==>
      r.log == s.log + [LogEntry(today, if note != "" then note else LevelNote(s.halfLevel, newHalfLevel))]
    ensures (newHalfLevel == s.halfLevel && note == "") ==> r.log == s.log
  {
    var current := s.halfLevel;
    var stored := s.(halfLevel := newHalfLevel);
    if newHalfLevel != current || note != "" then
      stored.(log := stored.log + [LogEntry(today, if note != "" then note else LevelNote(current, newHalfLevel))])
    else stored
  }

  /** The log line written on a skill when an objective linked to it is created. */
  function ObjectiveNote(title: string): string
  {
    "Nouvel objectif associé: '" + title + "'"
  }
}
