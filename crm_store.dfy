/**
 * The partner CRM's four tables as the pages change them: forms that add a
 * row under a fresh id once their required fields are filled, and edits
 * that rewrite the row with the selected id in place.
 */
module CrmStore {
  import opened Maybe
  import opened Seqs
  import opened CrmRecords

  /** Some row of `companies` has id `cid`. */
  predicate HasCompany(companies: seq<Company>, cid: int)
  {
    exists k :: 0 <= k < |companies| && companies[k].id == cid
  }

  class Crm {
    var companies: seq<Company>
    var interactions: seq<Interaction>
    var events: seq<Event>
    var offers: seq<Offer>

    /** No two rows of a table share an id. */
    ghost predicate Valid()
      reads this
    {
      NoDuplicates(Column(companies, CompanyId)) &&
      NoDuplicates(Column(interactions, InteractionId)) &&
      NoDuplicates(Column(events, EventId)) &&
      NoDuplicates(Column(offers, OfferId))
    }

    constructor (companies: seq<Company>, interactions: seq<Interaction>, events: seq<Event>, offers: seq<Offer>)
      requires NoDuplicates(Column(companies, CompanyId))
      requires NoDuplicates(Column(interactions, InteractionId))
      requires NoDuplicates(Column(events, EventId))
      requires NoDuplicates(Column(offers, OfferId))
      ensures Valid()
      ensures this.companies == companies && this.interactions == interactions
      ensures this.events == events && this.offers == offers
    {
      this.companies := companies;
      this.interactions := interactions;
      this.events := events;
      this.offers := offers;
    }

    /**
     * "Ajouter l'entreprise": with a name, a city, a contact and an email the
     * company is appended under a new id, its last contact being its first
     * contact; otherwise nothing changes.
     */
    method AddCompany(name: string, sector: string, size: string, address: string, city: string, postalCode: string,
                      mainContact: string, email: string, phone: string, firstContact: string, status: string,
                      engagement: int, yearlyJobs: int, yearlyInternships: int, yearlyApprenticeships: int,
                      notes: string) returns (saved: bool)
      requires Valid()
      modifies this
      ensures Valid()
      ensures saved <==> name != "" && city != "" && mainContact != "" && email != ""
      ensures saved ==> companies == old(companies) + [Company(NewId(Column(old(companies), CompanyId)), name, sector, size,
        address, city, postalCode, mainContact, email, phone, firstContact, status, engagement, yearlyJobs,
        yearlyInternships, yearlyApprenticeships, firstContact, notes)]
      ensures !saved ==> companies == old(companies)
      ensures interactions == old(interactions) && events == old(events) && offers == old(offers)
    {
      if name == "" || city == "" || mainContact == "" || email == "" {
        return false;
      }
      var ids := Column(companies, CompanyId);
      var c := Company(NewId(ids), name, sector, size, address, city, postalCode, mainContact, email, phone,
                       firstContact, status, engagement, yearlyJobs, yearlyInternships, yearlyApprenticeships,
                       firstContact, notes);
      NewIdKeepsIdsDistinct(ids);
      ColumnAppend(companies, c, CompanyId);
      companies := companies + [c];
      return true;
    }

    /**
     * "Enregistrer les modifications": with the required fields filled, the
     * row with the selected id takes the sixteen edited columns and every
     * other row is left alone.
     */
    method EditCompany(selected: int, edit: CompanyEdit) returns (saved: bool)
      requires Valid()
      modifies this
      ensures Valid()
      ensures saved <==> edit.name != "" && edit.city != "" && edit.mainContact != "" && edit.email != ""
      ensures |companies| == |old(companies)|
      ensures forall k :: 0 <= k < |companies| ==>
        companies[k] == (if saved && old(companies)[k].id == selected then ApplyEdit(edit, old(companies)[k]) else old(companies)[k])
      ensures interactions == old(interactions) && events == old(events) && offers == old(offers)
    {
      if edit.name == "" || edit.city == "" || edit.mainContact == "" || edit.email == "" {
        return false;
      }
      var updated := UpdateWhere(companies, CompanyId, selected, (c: Company) => ApplyEdit(edit, c));
      assert Column(updated, CompanyId) == Column(companies, CompanyId);
      companies := updated;
      return true;
    }

    /**
     * "Enregistrer l'interaction": with a company chosen and a description,
     * the interaction is appended under a new id with the company's name, and
     * that company's last contact becomes the interaction's date.
     */
    method RecordInteraction(companyId: Option<int>, date: string, kind: string, subject: string, outcome: string,
                             description: string, followUp: bool, followUpDate: string) returns (saved: bool)
      requires Valid()
      requires companyId.Some? ==> HasCompany(companies, companyId.value)
      modifies this
      ensures Valid()
      ensures saved <==> companyId.Some? && companyId.value != 0 && description != ""
      ensures saved ==> interactions == old(interactions) + [Interaction(NewId(Column(old(interactions), InteractionId)),
        companyId.value, CompanyName(old(companies), companyId.value), date, kind, subject, description, outcome,
        followUp, if followUp then followUpDate else "")]
      ensures !saved ==> interactions == old(interactions)
      ensures |companies| == |old(companies)|
      ensures forall k :: 0 <= k < |companies| ==>
        companies[k] == (if saved && old(companies)[k].id == companyId.value then old(companies)[k].(lastContact := date)
                         else old(companies)[k])
      ensures events == old(events) && offers == old(offers)
    {
      if companyId.None? || companyId.value == 0 || description == "" {
        return false;
      }
      var cid := companyId.value;
      var ids := Column(interactions, InteractionId);
      var interaction := Interaction(NewId(ids), cid, CompanyName(companies, cid), date, kind, subject, description,
                                     outcome, followUp, if followUp then followUpDate else "");
      NewIdKeepsIdsDistinct(ids);
      ColumnAppend(interactions, interaction, InteractionId);
      interactions := interactions + [interaction];
      companies := TouchLastContact(companies, cid, date);
      return true;
    }

    /**
     * "Planifier l'événement": with a name and a description the event is
     * appended under a new id, its participants stored as text and counted.
     */
    method PlanEvent(name: string, kind: string, date: string, place: string, status: string, description: string,
                     participants: seq<nat>) returns (saved: bool)
      requires Valid()
      modifies this
      ensures Valid()
      ensures saved <==> name != "" && description != ""
      ensures saved ==> (events == old(events) +
        [NewEvent(NewId(Column(old(events), EventId)), name, kind, date, place, description, participants, status)])
      ensures !saved ==> events == old(events)
      ensures companies == old(companies) && interactions == old(interactions) && offers == old(offers)
    {
      if name == "" || description == "" {
        return false;
      }
      var ids := Column(events, EventId);
      var e := NewEvent(NewId(ids), name, kind, date, place, description, participants, status);
      NewIdKeepsIdsDistinct(ids);
      ColumnAppend(events, e, EventId);
      events := events + [e];
      return true;
    }

    /**
     * "Enregistrer le bilan", offered only for a finished event without a
     * report: a non-empty report is written on the selected event only.
     */
    method RecordReport(selected: int, report: string) returns (saved: bool)
      requires Valid()
      requires exists k :: 0 <= k < |events| && events[k].id == selected && events[k].status == "Terminé" &&
                           events[k].report == ""
      modifies this
      ensures Valid()
      ensures saved <==> report != ""
      ensures |events| == |old(events)|
      ensures forall k :: 0 <= k < |events| ==>
        events[k] == (if saved && old(events)[k].id == selected then old(events)[k].(report := report) else old(events)[k])
      ensures companies == old(companies) && interactions == old(interactions) && offers == old(offers)
    {
      if report == "" {
        return false;
      }
      var updated := UpdateWhere(events, EventId, selected, (e: Event) => e.(report := report));
      assert Column(updated, EventId) == Column(events, EventId);
      events := updated;
      return true;
    }

    /**
     * "Ajouter l'offre": with a title, a location, the skills and a
     * description the offer is appended under a new id, with no application
     * yet.
     */
    method AddOffer(companyId: int, title: string, kind: string, published: string, expires: string, location: string,
                    skills: string, status: string, description: string) returns (saved: bool)
      requires Valid()
      requires HasCompany(companies, companyId)
      modifies this
      ensures Valid()
      ensures saved <==> title != "" && location != "" && skills != "" && description != ""
      ensures saved ==> offers == old(offers) + [Offer(NewId(Column(old(offers), OfferId)), companyId,
        CompanyName(old(companies), companyId), title, kind, published, expires, description, skills, location, status, 0, 0)]
      ensures !saved ==> offers == old(offers)
      ensures companies == old(companies) && interactions == old(interactions) && events == old(events)
    {
      if title == "" || location == "" || skills == "" || description == "" {
        return false;
      }
      var ids := Column(offers, OfferId);
      var o := Offer(NewId(ids), companyId, CompanyName(companies, companyId), title, kind, published, expires,
                     description, skills, location, status, 0, 0);
      NewIdKeepsIdsDistinct(ids);
      ColumnAppend(offers, o, OfferId);
      offers := offers + [o];
      return true;
    }

    /** "Mettre à jour" on an offer: status and application counts of the selected offer only. */
    method UpdateOffer(selected: int, status: string, applications: nat, retained: nat)
      requires Valid()
      requires retained <= applications
      modifies this
      ensures Valid()
      ensures |offers| == |old(offers)|
      ensures forall k :: 0 <= k < |offers| ==>
        offers[k] == (if old(offers)[k].id == selected
                      then old(offers)[k].(status := status, applications := applications, retained := retained)
                      else old(offers)[k])
      ensures companies == old(companies) && interactions == old(interactions) && events == old(events)
    {
      var updated := UpdateWhere(offers, OfferId, selected,
        (o: Offer) => o.(status := status, applications := applications, retained := retained));
      assert Column(updated, OfferId) == Column(offers, OfferId);
      offers := updated;
    }
  }
}
