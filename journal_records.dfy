/**
 * The records of the job-search journal and the rules that build, filter,
 * sort and summarise them: journal entries, job applications with their
 * status history, and objectives with their action steps.
 */
module JournalRecords {
  import opened Maybe
  import opened Seqs
  import opened Text
  import opened Sorting
  import opened JournalSkills

  /** One entry of the learning journal. */
  datatype JournalEntry = JournalEntry(
    date: string,
    title: string,
    category: string,
    content: string,
    learnings: string,
    questions: string,
    resources: string,
    actions: string,
    emotions: int)

  /** An entry is saved only with a title and a content; `None` is the error message case. */
  function NewEntry(date: string, title: string, category: string, content: string, learnings: string,
                    questions: string, resources: string, actions: string, emotions: int): (r: Option<JournalEntry>)
    ensures r.Some? <==> title != "" && content != ""
    ensures r.Some? ==> r.value.title == title && r.value.content == content && r.value.learnings == learnings
  {
    if title != "" && content != "" then
      Some(JournalEntry(date, title, category, content, learnings, questions, resources, actions, emotions))
    else None
  }

  /** How an entry's feeling score (1 to 10) is shown. */
  datatype Mood = Negative | Mixed | Positive

  /** Red up to 3, yellow up to 7, green above. */
  function MoodOf(emotions: int): Mood
  {
    if emotions <= 3 then Negative else if emotions <= 7 then Mixed else Positive
  }

  function MoodRank(m: Mood): nat
  {
    match m
    case Negative => 0
    case Mixed => 1
    case Positive => 2
  }

  /** The three colours cut the scale at 3 and 7, and a higher score never shows a worse colour. */
  lemma MoodThresholds(e: int, f: int)
    ensures MoodOf(e) == Negative <==> e <= 3
    ensures MoodOf(e) == Mixed <==> 3 < e <= 7
    ensures MoodOf(e) == Positive <==> 7 < e
    ensures e <= f ==> MoodRank(MoodOf(e)) <= MoodRank(MoodOf(f))
  {
  }

  /** One line of an application's history. */
  datatype HistoryEvent = HistoryEvent(date: string, status: string, comment: string)

  /**
   * A job application. The status and the history are optional because an
   * application read back from the file may lack them.
   */
  datatype Application = Application(
    company: string,
    position: string,
    appliedOn: string,
    place: string,
    contractType: string,
    source: string,
    link: string,
    contactName: string,
    contactEmail: string,
    status: Option<string>,
    salary: string,
    notes: string,
    history: Option<seq<HistoryEvent>>)

  /** The status choices, in the order of the form and of the status sort. */
  const ApplicationStatuses: seq<string> := ["Préparation", "Envoyée", "Relance", "Entretien planifié", "En attente", "Offre reçue", "Refusé", "Abandonné"]

  /**
   * A new application needs a company and a position; it keeps every field of
   * the form, and its history starts with one event carrying the chosen status.
   */
  function NewApplication(company: string, position: string, appliedOn: string, place: string, contractType: string,
                          source: string, link: string, contactName: string, contactEmail: string,
                          status: string, salary: string, notes: string): (r: Option<Application>)
    ensures r.Some? <==> company != "" && position != ""
    ensures r.Some? ==>
      r.value.company == company && r.value.position == position && r.value.status == Some(status) &&
      r.value.history.Some? && |r.value.history.value| == 1 &&
      r.value.history.value[0].status == status && r.value.history.value[0].date == appliedOn &&
      r.value.history.value[0].comment == "Candidature " + Lower(status)
    ensures r.Some? ==>
      r.value.appliedOn == appliedOn && r.value.place == place && r.value.contractType == contractType &&
      r.value.source == source && r.value.link == link && r.value.contactName == contactName &&
      r.value.contactEmail == contactEmail && r.value.salary == salary && r.value.notes == notes
  {
    if company != "" && position != "" then
      Some(Application(company, position, appliedOn, place, contractType, source, link, contactName, contactEmail,
                       Some(status), salary, notes,
                       Some([HistoryEvent(appliedOn, status, "Candidature " + Lower(status))])))
    else None
  }

  /** Still running: neither refused nor abandoned (an application without status counts as running). */
  predicate IsActive(a: Application)
  {
    a.status != Some("Refusé") && a.status != Some("Abandonné")
  }

  /** The home page's count of running applications. */
  function ActiveCount(apps: seq<Application>): (n: nat)
    ensures n <= |apps|
    ensures n == |Filter(apps, IsActive)|
  {
    CountIsFilterLength(apps, IsActive);
    Count(apps, IsActive)
  }

  /** Applications that are refused or abandoned make up the rest of the total. */
  lemma ActiveCountComplement(apps: seq<Application>)
    ensures ActiveCount(apps) + Count(apps, (a: Application) => !IsActive(a)) == |apps|
  {
    CountComplement(apps, IsActive, (a: Application) => !IsActive(a));
  }

  /** The status filter keeps an application whose status is one of the chosen ones. */
  predicate StatusChosen(a: Application, statuses: seq<string>)
  {
    a.status.Some? && a.status.value in statuses
  }

  /** The search term, lower-cased, occurs in the lower-cased company or position. */
  predicate SearchHit(a: Application, term: string)
  {
    Contains(Lower(term), Lower(a.company)) || Contains(Lower(term), Lower(a.position))
  }

  /**
   * The list's status and search filters: an application is shown iff its
   * status is chosen (when some are) and the term occurs in its company or
   * position (when there is a term), in the list's order.
   */
  function FilterApplications(apps: seq<Application>, statuses: seq<string>, term: string): (r: seq<Application>)
    ensures forall a :: a in r <==>
      a in apps && (statuses == [] || StatusChosen(a, statuses)) && (term == "" || SearchHit(a, term))
    ensures IsSubsequence(r, apps)
  {
    var byStatus := if statuses == [] then apps else Filter(apps, (a: Application) => StatusChosen(a, statuses));
    var r := if term == "" then byStatus else Filter(byStatus, (a: Application) => SearchHit(a, term));
    SubsequenceReflexive(apps);
    SubsequenceReflexive(byStatus);
    SubsequenceTransitive(r, byStatus, apps);
    SubsequenceMembers(r, byStatus);
    SubsequenceMembers(byStatus, apps);
    r
  }

  /** A search term found in the company name, whatever its case, keeps the application. */
  lemma SearchIgnoresCase(a: Application)
    ensures SearchHit(a, a.company)
    ensures SearchHit(a, Lower(a.company))
  {
    ContainsTrivial(Lower(a.company));
    LowerIdempotent(a.company);
  }

  /** `status_order.get(statut, 99)`: the position in the status list, 99 for anything else. */
  function StatusRank(a: Application): (r: int)
    ensures 0 <= r < |ApplicationStatuses| || r == 99
    ensures forall i :: 0 <= i < |ApplicationStatuses| && a.status == Some(ApplicationStatuses[i]) ==> r == i
    ensures r == 99 <==> a.status.None? || a.status.value !in ApplicationStatuses
  {
    var order := map["Préparation" := 0, "Envoyée" := 1, "Relance" := 2, "Entretien planifié" := 3,
                     "En attente" := 4, "Offre reçue" := 5, "Refusé" := 6, "Abandonné" := 7];
    if a.status.Some? && a.status.value in order then order[a.status.value] else 99
  }

  /** An application whose status is one of the eight known ones. */
  predicate KnownStatus(a: Application)
  {
    a.status.Some? && a.status.value in ApplicationStatuses
  }

  /**
   * The "Statut" sort: by rank, preparation first and abandoned last, with
   * unknown statuses after all known ones; ties keep their order.
   */
  function SortByStatus(apps: seq<Application>): (r: seq<Application>)
    ensures SortedBy(r, StatusRank)
    ensures multiset(r) == multiset(apps)
    ensures forall i, j :: 0 <= i < j < |r| && KnownStatus(r[j]) ==> KnownStatus(r[i])
  {
    var r := SortByKey(apps, StatusRank);
    forall i, j | 0 <= i < j < |r| && KnownStatus(r[j]) ensures KnownStatus(r[i]) {
      assert StatusRank(r[i]) <= StatusRank(r[j]) < 99;
    }
    r
  }

  /** Applications with the same status keep the order they had before the sort. */
  lemma SortByStatusIsStable(apps: seq<Application>, rank: int)
    ensures WithKey(SortByStatus(apps), StatusRank, rank) == WithKey(apps, StatusRank, rank)
  {
    SortIsStable(apps, StatusRank, rank);
  }

  /** The history comment of a status update: the typed one, or a default naming the new status. */
  function UpdateComment(status: string, comment: string): string
  {
    if comment != "" then comment else "Statut mis à jour à '" + status + "'"
  }

  /**
   * "Mettre à jour": the status becomes the new one and the history, created
   * empty if missing, gets one event with that status; nothing else changes.
   */
  function WithStatus(a: Application, status: string, comment: string, today: string): (r: Application)
    ensures r.status == Some(status)
    ensures r.history.Some?
    ensures r.history.value == a.history.GetOr([]) + [HistoryEvent(today, status, UpdateComment(status, comment))]
    ensures r == a.(status := r.status, history := r.history)
  {
    var past := if a.history.None? then [] else a.history.value;
    a.(status := Some(status), history := Some(past + [HistoryEvent(today, status, UpdateComment(status, comment))]))
  }

  /** Every status update lengthens the history by exactly one event, whose status is the current one. */
  lemma WithStatusGrowsHistory(a: Application, status: string, comment: string, today: string)
    ensures var r := WithStatus(a, status, comment, today);
      |r.history.value| == |a.history.GetOr([])| + 1 &&
      r.history.value[|r.history.value| - 1].status == r.status.value &&
      r.history.value[..|r.history.value| - 1] == a.history.GetOr([])
  {
    var r := WithStatus(a, status, comment, today);
    assert r.history.value[..|r.history.value| - 1] == a.history.GetOr([]);
  }

  /** One step of an objective's action plan. */
  datatype Step = Step(description: string, done: bool)

  /** An objective and its plan. */
  datatype Objective = Objective(
    title: string,
    description: string,
    category: string,
    deadline: string,
    priority: string,
    status: string,
    linkedSkills: seq<SkillKey>,
    steps: seq<Step>,
    resources: string,
    createdOn: string)

  function Descriptions(steps: seq<Step>): seq<string>
  {
    if steps == [] then [] else [steps[0].description] + Descriptions(steps[1..])
  }

  predicate NonEmpty(f: string) { f != "" }

  /**
   * The five step fields of the form, read in a loop: every filled field
   * becomes a step that is not done yet, in field order.
   */
  method CollectSteps(fields: seq<string>) returns (steps: seq<Step>)
    ensures Descriptions(steps) == Filter(fields, NonEmpty)
    ensures forall k :: 0 <= k < |steps| ==> !steps[k].done && steps[k].description != ""
  {
    steps := [];
    for i := 0 to |fields|
      invariant Descriptions(steps) == Filter(fields[..i], NonEmpty)
      invariant forall k :: 0 <= k < |steps| ==> !steps[k].done && steps[k].description != ""
    {
      assert fields[..i + 1] == fields[..i] + [fields[i]];
      FilterAppend(fields[..i], fields[i], NonEmpty);
      if NonEmpty(fields[i]) {
        var step := Step(fields[i], false);
        DescriptionsAppend(steps, step);
        steps := steps + [step];
      }
    }
    assert fields[..|fields|] == fields;
  }

  lemma {:induction false} DescriptionsAppend(steps: seq<Step>, s: Step)
    ensures Descriptions(steps + [s]) == Descriptions(steps) + [s.description]
  {
    if steps != [] {
      assert (steps + [s])[1..] == steps[1..] + [s];
      DescriptionsAppend(steps[1..], s);
    }
  }

  lemma {:induction false} FilterAppend<T>(s: seq<T>, x: T, p: T -> bool)
    ensures Filter(s + [x], p) == Filter(s, p) + (if p(x) then [x] else [])
  {
    if s != [] {
      assert (s + [x])[1..] == s[1..] + [x];
      FilterAppend(s[1..], x, p);
    }
  }

  /** A new objective needs a title, a description and at least one step; it starts "En cours". */
  function NewObjective(title: string, description: string, category: string, deadline: string, priority: string,
                        linkedSkills: seq<SkillKey>, steps: seq<Step>, resources: string, today: string): (r: Option<Objective>)
    ensures r.Some? <==> title != "" && description != "" && steps != []
    ensures r.Some? ==> r.value.status == "En cours" && r.value.steps == steps && r.value.linkedSkills == linkedSkills
    ensures r.Some? ==> r.value.title == title && r.value.description == description && r.value.category == category &&
                        r.value.deadline == deadline && r.value.priority == priority &&
                        r.value.resources == resources && r.value.createdOn == today
  {
    if title != "" && description != "" && steps != [] then
      Some(Objective(title, description, category, deadline, priority, "En cours", linkedSkills, steps, resources, today))
    else None
  }

  predicate StepDone(s: Step) { s.done }

  /** Number of finished steps. */
  function Completed(steps: seq<Step>): (n: nat)
    ensures n <= |steps|
  {
    Count(steps, StepDone)
  }

  lemma {:induction false} CompletedAll(steps: seq<Step>)
    ensures Completed(steps) == |steps| <==> forall k :: 0 <= k < |steps| ==> steps[k].done
    ensures Completed(steps) == 0 <==> forall k :: 0 <= k < |steps| ==> !steps[k].done
  {
    if steps != [] {
      CompletedAll(steps[1..]);
      assert forall k :: 1 <= k < |steps| ==> steps[k] == steps[1..][k - 1];
    }
  }

  /** Ticking a step that was not done adds one finished step; unticking a done one removes one. */
  lemma {:induction false} CompletedAfterToggle(steps: seq<Step>, j: nat, done: bool)
    requires j < |steps|
    ensures !steps[j].done && done ==> Completed(steps[j := steps[j].(done := done)]) == Completed(steps) + 1
    ensures steps[j].done && !done ==> Completed(steps[j := steps[j].(done := done)]) + 1 == Completed(steps)
    ensures steps[j].done == done ==> Completed(steps[j := steps[j].(done := done)]) == Completed(steps)
  {
    var after := steps[j := steps[j].(done := done)];
    if j > 0 {
      assert after[1..] == steps[1..][j - 1 := steps[j].(done := done)];
      CompletedAfterToggle(steps[1..], j - 1, done);
    } else {
      assert after[1..] == steps[1..];
    }
  }

  /** `completed / len(steps)`, and 0 for an objective without steps. */
  function Progress(steps: seq<Step>): (p: real)
    ensures 0.0 <= p <= 1.0
    ensures p == 1.0 <==> steps != [] && forall k :: 0 <= k < |steps| ==> steps[k].done
    ensures p == 0.0 <==> forall k :: 0 <= k < |steps| ==> !steps[k].done
  {
    CompletedAll(steps);
    if steps == [] then 0.0 else (Completed(steps) as real) / (|steps| as real)
  }

  /** `int(progression * 100)`: the percentage shown, cut down to a whole number. */
  function ProgressPercent(steps: seq<Step>): (pc: int)
    ensures 0 <= pc <= 100
    ensures pc == 100 <==> steps != [] && forall k :: 0 <= k < |steps| ==> steps[k].done
    ensures (pc as real) <= Progress(steps) * 100.0 < (pc + 1) as real
  {
    CompletedAll(steps);
    PercentBelowFullUnlessDone(steps);
    (Progress(steps) * 100.0).Floor
  }

  lemma PercentBelowFullUnlessDone(steps: seq<Step>)
    ensures Progress(steps) < 1.0 ==> Progress(steps) * 100.0 < 100.0
  {
  }
}
