/**
 * The job-search journal's state and the buttons that change it: the list of
 * journal entries, of applications and of objectives, the skills dictionary,
 * and the two "click again to confirm" markers of the delete buttons.
 */
module JournalState {
  import opened Maybe
  import opened Seqs
  import opened JournalSkills
  import opened JournalRecords

  /** `s.pop(i)`: element `i` is gone and the others keep their order. */
  function RemoveAt<T>(s: seq<T>, i: nat): (r: seq<T>)
    requires i < |s|
    ensures |r| == |s| - 1
    ensures forall k :: 0 <= k < i ==> r[k] == s[k]
    ensures forall k :: i <= k < |r| ==> r[k] == s[k + 1]
    ensures multiset(r) + multiset{s[i]} == multiset(s)
  {
    assert s == s[..i] + [s[i]] + s[i + 1..];
    s[..i] + s[i + 1..]
  }

  /** A list with a two-click delete button on each item, and the item waiting for its second click. */
  datatype DeleteState<T> = DeleteState(items: seq<T>, pending: Option<nat>)

  /**
   * A click on the delete button of item `i`, as written: when `i` is waiting
   * for confirmation the item is removed, otherwise `i` starts waiting. The
   * marker is left as it is after a removal.
   */
  function ClickDeleteAsWritten<T>(st: DeleteState<T>, i: nat): DeleteState<T>
    requires i < |st.items|
  {
    if st.pending == Some(i) then DeleteState(RemoveAt(st.items, i), st.pending)
    else DeleteState(st.items, Some(i))
  }

  /**
   * As written, after one confirmed removal the item that moved into the
   * same place is removed by a single click: of `[1, 2, 3]`, three clicks on
   * the first place remove both 1 and 2.
   */
  lemma ClickDeleteAsWrittenSkipsConfirmation()
    ensures var s1 := ClickDeleteAsWritten(DeleteState([1, 2, 3], None), 0);
      var s2 := ClickDeleteAsWritten(s1, 0);
      var s3 := ClickDeleteAsWritten(s2, 0);
      s2.items == [2, 3] && s3.items == [3]
  {
    var s1 := ClickDeleteAsWritten(DeleteState([1, 2, 3], None), 0);
    assert s1 == DeleteState([1, 2, 3], Some(0));
    var s2 := ClickDeleteAsWritten(s1, 0);
    assert s2.items == [2, 3];
    var s3 := ClickDeleteAsWritten(s2, 0);
    assert s3.items == [3];
  }

  /** The delete button with the marker cleared once the removal is done. */
  function ClickDelete<T>(st: DeleteState<T>, i: nat): (r: DeleteState<T>)
    requires i < |st.items|
    ensures st.pending == Some(i) ==> r == DeleteState(RemoveAt(st.items, i), None)
    ensures st.pending != Some(i) ==> r == DeleteState(st.items, Some(i))
  {
    if st.pending == Some(i) then DeleteState(RemoveAt(st.items, i), None)
    else DeleteState(st.items, Some(i))
  }

  /**
   * Every removal takes two clicks on the same item: a click that is not the
   * confirmation removes nothing, and right after a removal no item is
   * waiting, so the next click on any item removes nothing either.
   */
  lemma ClickDeleteNeedsTwoClicks<T>(st: DeleteState<T>, i: nat, j: nat)
    requires i < |st.items|
    ensures st.pending != Some(i) ==> ClickDelete(st, i).items == st.items
    ensures st.pending == Some(i) ==>
      var after := ClickDelete(st, i);
      j < |after.items| ==> ClickDelete(after, j).items == after.items
  {
  }

  /** Objective creation writes one line on each linked skill that exists, in the order of the links. */
  function LogLinked(skills: map<SkillKey, Skill>, linked: seq<SkillKey>, e: LogEntry): (r: map<SkillKey, Skill>)
    ensures r.Keys == skills.Keys
  {
    if linked == [] then skills
    else
      var m := LogLinked(skills, linked[..|linked| - 1], e);
      var k := linked[|linked| - 1];
      if k in m then m[k := m[k].(log := m[k].log + [e])] else m
  }

  /** The loop over the linked skills run when an objective is saved. */
  method LogLinkedSkills(skills: map<SkillKey, Skill>, linked: seq<SkillKey>, e: LogEntry)
    returns (updated: map<SkillKey, Skill>)
    ensures updated == LogLinked(skills, linked, e)
  {
    updated := skills;
    for i := 0 to |linked|
      invariant updated == LogLinked(skills, linked[..i], e)
    {
      assert linked[..i + 1][..i] == linked[..i];
      var k := linked[i];
      if k in updated {
        updated := updated[k := updated[k].(log := updated[k].log + [e])];
      }
    }
    assert linked[..|linked|] == linked;
  }

  /**
   * Linking an objective changes no level; a skill that is not linked keeps
   * its history, and a skill linked once gets exactly one new line.
   */
  lemma {:induction false} LogLinkedEffect(skills: map<SkillKey, Skill>, linked: seq<SkillKey>, e: LogEntry, k: SkillKey)
    requires k in skills
    ensures LogLinked(skills, linked, e)[k].halfLevel == skills[k].halfLevel
    ensures k !in linked ==> LogLinked(skills, linked, e)[k] == skills[k]
    ensures multiset(linked)[k] == 1 ==> LogLinked(skills, linked, e)[k].log == skills[k].log + [e]
  {
    if linked != [] {
      var init := linked[..|linked| - 1];
      var last := linked[|linked| - 1];
      assert linked == init + [last];
      LogLinkedEffect(skills, init, e, k);
      if k != last {
        assert k !in linked ==> k !in init;
      } else {
        assert multiset(linked)[k] == multiset(init)[k] + 1;
      }
    }
  }

  class Journal {
    var entries: seq<JournalEntry>
    var applications: seq<Application>
    var objectives: seq<Objective>
    var skills: map<SkillKey, Skill>
    /** `confirm_delete`: the journal entry waiting for its second click. */
    var confirmDelete: Option<nat>
    /** `confirm_delete_app`: the application waiting for its second click. */
    var confirmDeleteApp: Option<nat>
    /** `confirm_delete_obj`: the objective waiting for its second click. */
    var confirmDeleteObj: Option<nat>

    /** All seven skills exist and no level is above 5. */
    ghost predicate Valid()
      reads this
    {
      (forall k: SkillKey :: k in skills) &&
      (forall k | k in skills :: skills[k].halfLevel <= MaxHalfLevel)
    }

    /** A first start: nothing recorded, every skill at level 0 with an empty history. */
    constructor ()
      ensures Valid()
      ensures entries == [] && applications == [] && objectives == []
      ensures forall k: SkillKey :: skills[k] == NewSkill
      ensures confirmDelete == None && confirmDeleteApp == None && confirmDeleteObj == None
    {
      SkillOrderListsEachSkillOnce();
      entries := [];
      applications := [];
      objectives := [];
      skills := map k: SkillKey | k in SkillOrder :: NewSkill;
      confirmDelete := None;
      confirmDeleteApp := None;
      confirmDeleteObj := None;
    }

    /**
     * "Enregistrer cette entrée": with a title and a content the entry is
     * appended and every skill whose keywords occur in what was learnt moves
     * up; otherwise nothing changes.
     */
    method SubmitEntry(date: string, title: string, category: string, content: string, learnings: string,
                       questions: string, resources: string, actions: string, emotions: int) returns (saved: bool)
      requires Valid()
      modifies this
      ensures Valid()
      ensures saved <==> title != "" && content != ""
      ensures saved ==>
        entries == old(entries) + [JournalEntry(date, title, category, content, learnings, questions, resources, actions, emotions)] &&
        skills == AfterLearning(old(skills), learnings, date, title)
      ensures !saved ==> entries == old(entries) && skills == old(skills)
      ensures applications == old(applications) && objectives == old(objectives)
      ensures confirmDelete == old(confirmDelete) && confirmDeleteApp == old(confirmDeleteApp)
      ensures confirmDeleteObj == old(confirmDeleteObj)
    {
      var e := NewEntry(date, title, category, content, learnings, questions, resources, actions, emotions);
      if e.None? {
        return false;
      }
      entries := entries + [e.value];
      var updated := LearnFromEntry(skills, learnings, date, title);
      forall k | k in updated ensures updated[k].halfLevel <= MaxHalfLevel {
        LearningEffect(skills, learnings, date, title, k);
      }
      skills := updated;
      return true;
    }

    /** "Enregistrer cette candidature": appended when a company and a position are given. */
    method SubmitApplication(company: string, position: string, appliedOn: string, place: string, contractType: string,
                             source: string, link: string, contactName: string, contactEmail: string,
                             status: string, salary: string, notes: string) returns (saved: bool)
      requires Valid()
      modifies this
      ensures Valid()
      ensures saved <==> company != "" && position != ""
      ensures saved ==> (applications == old(applications) +
        [NewApplication(company, position, appliedOn, place, contractType, source, link, contactName, contactEmail, status, salary, notes).value])
      ensures !saved ==> applications == old(applications)
      ensures entries == old(entries) && objectives == old(objectives) && skills == old(skills)
      ensures confirmDelete == old(confirmDelete) && confirmDeleteApp == old(confirmDeleteApp)
      ensures confirmDeleteObj == old(confirmDeleteObj)
    {
      var a := NewApplication(company, position, appliedOn, place, contractType, source, link, contactName, contactEmail, status, salary, notes);
      if a.None? {
        return false;
      }
      applications := applications + [a.value];
      return true;
    }

    /** "Mettre à jour" on application `i`: only that application changes. */
    method UpdateStatus(i: nat, status: string, comment: string, today: string)
      requires Valid()
      requires i < |applications|
      modifies this
      ensures Valid()
      ensures applications == old(applications)[i := WithStatus(old(applications)[i], status, comment, today)]
      ensures entries == old(entries) && objectives == old(objectives) && skills == old(skills)
      ensures confirmDelete == old(confirmDelete) && confirmDeleteApp == old(confirmDeleteApp)
      ensures confirmDeleteObj == old(confirmDeleteObj)
    {
      applications := applications[i := WithStatus(applications[i], status, comment, today)];
    }

    /** The delete button of journal entry `i`. */
    method ClickDeleteEntry(i: nat)
      requires Valid()
      requires i < |entries|
      modifies this
      ensures Valid()
      ensures DeleteState(entries, confirmDelete) == ClickDelete(DeleteState(old(entries), old(confirmDelete)), i)
      ensures applications == old(applications) && objectives == old(objectives) && skills == old(skills)
      ensures confirmDeleteApp == old(confirmDeleteApp) && confirmDeleteObj == old(confirmDeleteObj)
    {
      if confirmDelete == Some(i) {
        entries := RemoveAt(entries, i);
        confirmDelete := None;
      } else {
        confirmDelete := Some(i);
      }
    }

    /** The delete button of application `i`. */
    method ClickDeleteApplication(i: nat)
      requires Valid()
      requires i < |applications|
      modifies this
      ensures Valid()
      ensures DeleteState(applications, confirmDeleteApp) == ClickDelete(DeleteState(old(applications), old(confirmDeleteApp)), i)
      ensures entries == old(entries) && objectives == old(objectives) && skills == old(skills)
      ensures confirmDelete == old(confirmDelete) && confirmDeleteObj == old(confirmDeleteObj)
    {
      if confirmDeleteApp == Some(i) {
        applications := RemoveAt(applications, i);
        confirmDeleteApp := None;
      } else {
        confirmDeleteApp := Some(i);
      }
    }

    /** The self-assessment's "Enregistrer" on skill `k`; the slider only offers levels 0 to 5. */
    method SaveSkillLevel(k: SkillKey, newHalfLevel: nat, note: string, today: string)
      requires Valid()
      requires newHalfLevel <= MaxHalfLevel
      modifies this
      ensures Valid()
      ensures skills == old(skills)[k := SaveSkill(old(skills)[k], newHalfLevel, note, today)]
      ensures entries == old(entries) && applications == old(applications) && objectives == old(objectives)
      ensures confirmDelete == old(confirmDelete) && confirmDeleteApp == old(confirmDeleteApp)
      ensures confirmDeleteObj == old(confirmDeleteObj)
    {
      var s := if k in skills then skills[k] else NewSkill;
      skills := skills[k := SaveSkill(s, newHalfLevel, note, today)];
    }

    /**
     * "Enregistrer cet objectif": the filled step fields become the plan; with
     * a title, a description and a step the objective is appended and each
     * linked skill gets one line in its history.
     */
    method SubmitObjective(title: string, description: string, category: string, deadline: string, priority: string,
                           linked: seq<SkillKey>, stepFields: seq<string>, resources: string, today: string)
      returns (saved: bool)
      requires Valid()
      modifies this
      ensures Valid()
      ensures saved <==> title != "" && description != "" && Filter(stepFields, NonEmpty) != []
      ensures saved ==> (|objectives| == |old(objectives)| + 1 && objectives[..|old(objectives)|] == old(objectives) &&
        skills == LogLinked(old(skills), linked, LogEntry(today, ObjectiveNote(title))))
      ensures saved ==> (
        var o := objectives[|objectives| - 1];
        o.title == title && o.description == description && o.category == category && o.deadline == deadline &&
        o.priority == priority && o.status == "En cours" && o.linkedSkills == linked &&
        o.resources == resources && o.createdOn == today &&
        Descriptions(o.steps) == Filter(stepFields, NonEmpty) &&
        forall k :: 0 <= k < |o.steps| ==> !o.steps[k].done)
      ensures !saved ==> objectives == old(objectives) && skills == old(skills)
      ensures entries == old(entries) && applications == old(applications)
      ensures confirmDelete == old(confirmDelete) && confirmDeleteApp == old(confirmDeleteApp)
      ensures confirmDeleteObj == old(confirmDeleteObj)
    {
      var steps := CollectSteps(stepFields);
      var o := NewObjective(title, description, category, deadline, priority, linked, steps, resources, today);
      if o.None? {
        assert steps == [] ==> Descriptions(steps) == [];
        if steps != [] {
          assert Descriptions(steps) != [];
        }
        return false;
      }
      objectives := objectives + [o.value];
      var e := LogEntry(today, ObjectiveNote(title));
      var updated := LogLinkedSkills(skills, linked, e);
      forall k | k in updated ensures updated[k].halfLevel <= MaxHalfLevel {
        LogLinkedEffect(skills, linked, e, k);
      }
      skills := updated;
      assert steps != [] by {
        assert Descriptions(steps) == Filter(stepFields, NonEmpty);
      }
      return true;
    }

    /** The checkbox of step `j` of objective `i`: that step's flag only. */
    method ToggleStep(i: nat, j: nat, done: bool)
      requires Valid()
      requires i < |objectives| && j < |objectives[i].steps|
      modifies this
      ensures Valid()
      ensures objectives == old(objectives)[i := old(objectives)[i].(steps := old(objectives)[i].steps[j := old(objectives)[i].steps[j].(done := done)])]
      ensures entries == old(entries) && applications == old(applications) && skills == old(skills)
      ensures confirmDelete == old(confirmDelete) && confirmDeleteApp == old(confirmDeleteApp)
      ensures confirmDeleteObj == old(confirmDeleteObj)
    {
      var o := objectives[i];
      objectives := objectives[i := o.(steps := o.steps[j := o.steps[j].(done := done)])];
    }

    /** "Mettre à jour" on objective `i`: its status only. */
    method UpdateObjectiveStatus(i: nat, status: string)
      requires Valid()
      requires i < |objectives|
      modifies this
      ensures Valid()
      ensures objectives == old(objectives)[i := old(objectives)[i].(status := status)]
      ensures entries == old(entries) && applications == old(applications) && skills == old(skills)
      ensures confirmDelete == old(confirmDelete) && confirmDeleteApp == old(confirmDeleteApp)
      ensures confirmDeleteObj == old(confirmDeleteObj)
    {
      objectives := objectives[i := objectives[i].(status := status)];
    }

    /** The delete button of objective `i`. */
    method ClickDeleteObjective(i: nat)
      requires Valid()
      requires i < |objectives|
      modifies this
      ensures Valid()
      ensures DeleteState(objectives, confirmDeleteObj) == ClickDelete(DeleteState(old(objectives), old(confirmDeleteObj)), i)
      ensures entries == old(entries) && applications == old(applications) && skills == old(skills)
      ensures confirmDelete == old(confirmDelete) && confirmDeleteApp == old(confirmDeleteApp)
    {
      if confirmDeleteObj == Some(i) {
        objectives := RemoveAt(objectives, i);
        confirmDeleteObj := None;
      } else {
        confirmDeleteObj := Some(i);
      }
    }
  }
}
