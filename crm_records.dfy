/**
 * The four tables of the partner CRM (companies, interactions, events, job
 * offers), the rule that numbers new rows, the comma-separated list of the
 * companies taking part in an event, the column check of a CSV import, and
 * the in-place edits of rows selected by their id.
 */
module CrmRecords {
  import opened Maybe
  import opened Seqs
  import opened Text

  datatype Company = Company(
    id: int, name: string, sector: string, size: string, address: string, city: string,
    postalCode: string, mainContact: string, email: string, phone: string, firstContact: string,
    status: string, engagement: int, yearlyJobs: int, yearlyInternships: int,
    yearlyApprenticeships: int, lastContact: string, notes: string)

  datatype Interaction = Interaction(
    id: int, companyId: int, companyName: string, date: string, kind: string, subject: string,
    description: string, outcome: string, followUp: bool, followUpDate: string)

  datatype Event = Event(
    id: int, name: string, kind: string, date: string, place: string, description: string,
    participants: string, participantCount: nat, status: string, report: string)

  datatype Offer = Offer(
    id: int, companyId: int, companyName: string, title: string, kind: string, published: string,
    expires: string, description: string, skills: string, location: string, status: string,
    applications: int, retained: int)

  /** The largest of a non-empty list of ids (`df["id"].max()`). */
  function MaxId(ids: seq<int>): (m: int)
    requires ids != []
    ensures m in ids
    ensures forall k :: 0 <= k < |ids| ==> ids[k] <= m
  {
    if |ids| == 1 then ids[0] else Max(ids[0], MaxId(ids[1..]))
  }

  /**
   * The id of a new row: one more than the largest id, or 1 for an empty
   * table. It is larger than, so different from, every id already used.
   */
  function NewId(ids: seq<int>): (r: int)
    ensures forall k :: 0 <= k < |ids| ==> ids[k] < r
    ensures ids == [] ==> r == 1
    ensures ids != [] ==> r - 1 in ids
  {
    if |ids| > 0 then MaxId(ids) + 1 else 1
  }

  /** Numbering new rows keeps the ids of a table distinct. */
  lemma NewIdKeepsIdsDistinct(ids: seq<int>)
    requires NoDuplicates(ids)
    ensures NoDuplicates(ids + [NewId(ids)])
    ensures NewId(ids) !in ids
  {
  }

  /** A table whose ids are all positive gets a positive id. */
  lemma NewIdPositive(ids: seq<int>)
    requires forall k :: 0 <= k < |ids| ==> ids[k] >= 1
    ensures NewId(ids) >= 1
  {
    if ids != [] {
      assert ids[0] <= NewId(ids) - 1;
    }
  }

  /** One column of a table (`df[field]`), row by row. */
  function Column<R, V>(rows: seq<R>, field: R -> V): (r: seq<V>)
    ensures |r| == |rows|
    ensures forall k :: 0 <= k < |rows| ==> r[k] == field(rows[k])
  {
    seq(|rows|, k requires 0 <= k < |rows| => field(rows[k]))
  }

  /** Appending a row appends its value to the column. */
  lemma ColumnAppend<R, V>(rows: seq<R>, x: R, field: R -> V)
    ensures Column(rows + [x], field) == Column(rows, field) + [field(x)]
  {
  }

  /** `map(str, ids)`. */
  function Texts(ids: seq<nat>): (r: seq<string>)
    ensures |r| == |ids|
    ensures forall k :: 0 <= k < |ids| ==> r[k] == NatToString(ids[k])
  {
    seq(|ids|, k requires 0 <= k < |ids| => NatToString(ids[k]))
  }

  /** `",".join(map(str, ids)) if ids else ""`: how an event stores its participating companies. */
  function EncodeParticipants(ids: seq<nat>): (s: string)
    ensures s == "" <==> ids == []
  {
    if ids == [] then "" else Join(Texts(ids), ',')
  }

  /** `[int(p) for p in parts]`; `None` stands for the ValueError of a part that is not a number. */
  function ParseAll(parts: seq<string>): (r: Option<seq<nat>>)
    ensures r.Some? ==> |r.value| == |parts|
    ensures r.Some? <==> forall k :: 0 <= k < |parts| ==> ParseNat(parts[k]).Some?
  {
    if parts == [] then Some([])
    else
      var head, rest := ParseNat(parts[0]), ParseAll(parts[1..]);
      if head.Some? && rest.Some? then Some([head.value] + rest.value)
      else
        assert head.None? || exists k :: 0 <= k < |parts[1..]| && ParseNat(parts[1..][k]).None?;
        None
  }

  /**
   * The event screen's reading of the participants: nothing for an empty
   * text, otherwise the numbers between the commas.
   */
  function DecodeParticipants(s: string): (r: Option<seq<nat>>)
    ensures s == "" ==> r == Some([])
    ensures s != "" ==> r == ParseAll(Split(s, ','))
  {
    if s == "" then Some([]) else ParseAll(Split(s, ','))
  }

  lemma {:induction false} ParseAllTexts(ids: seq<nat>)
    ensures ParseAll(Texts(ids)) == Some(ids)
  {
    if ids != [] {
      assert Texts(ids)[1..] == Texts(ids[1..]);
      ParseAllTexts(ids[1..]);
      ParseNatToString(ids[0]);
      assert [ids[0]] + ids[1..] == ids;
    }
  }

  lemma NoCommaInNumber(n: nat)
    ensures ',' !in NatToString(n)
  {
    var s := NatToString(n);
    forall i | 0 <= i < |s| ensures s[i] != ',' {
      assert IsDigit(s[i]);
    }
  }

  /** Reading back what an event stored gives the companies that were chosen, in the same order. */
  lemma DecodeEncodeParticipants(ids: seq<nat>)
    ensures DecodeParticipants(EncodeParticipants(ids)) == Some(ids)
  {
    if ids != [] {
      var parts := Texts(ids);
      forall k | 0 <= k < |parts| ensures ',' !in parts[k] {
        NoCommaInNumber(ids[k]);
      }
      SplitJoin(parts, ',');
      ParseAllTexts(ids);
    }
  }

  /** A new event: the participants as stored text, and their number. */
  function NewEvent(id: int, name: string, kind: string, date: string, place: string, description: string,
                    participants: seq<nat>, status: string): (e: Event)
    ensures DecodeParticipants(e.participants) == Some(participants)
    ensures e.participantCount == |participants|
    ensures e.report == ""
  {
    DecodeEncodeParticipants(participants);
    Event(id, name, kind, date, place, description, EncodeParticipants(participants), |participants|, status, "")
  }

  /** The four kinds of file the settings page imports. */
  datatype DataKind = Companies | Interactions | Events | Offers

  function RequiredColumns(kind: DataKind): seq<string>
  {
    match kind
    case Companies => ["nom", "secteur", "statut"]
    case Interactions => ["entreprise_id", "date", "type", "sujet"]
    case Events => ["nom", "type", "date", "statut"]
    case Offers => ["entreprise_id", "titre", "type", "date_publication"]
  }

  /** `all(col in imported.columns for col in required_columns)`: the file is written only then. */
  predicate ImportAccepted(kind: DataKind, header: seq<string>)
  {
    forall k :: 0 <= k < |RequiredColumns(kind)| ==> RequiredColumns(kind)[k] in header
  }

  /**
   * The column check depends only on which columns are present: extra
   * columns and their order do not matter, and dropping a required one
   * refuses the file.
   */
  lemma ImportCheckIsAboutPresence(kind: DataKind, header: seq<string>, other: seq<string>)
    requires forall c :: c in RequiredColumns(kind) ==> (c in header ==> c in other)
    ensures ImportAccepted(kind, header) ==> ImportAccepted(kind, other)
    ensures ImportAccepted(kind, RequiredColumns(kind))
    ensures forall c :: c in RequiredColumns(kind) && c !in header ==> !ImportAccepted(kind, header)
  {
  }

  /** A file exported with the companies' own columns is accepted back. */
  lemma CompanyExportReimports()
    ensures ImportAccepted(Companies, ["id", "nom", "secteur", "taille", "adresse", "ville", "code_postal",
      "contact_principal", "email", "telephone", "date_premier_contact", "statut", "niveau_engagement",
      "offres_emploi_annuelles", "stages_annuels", "alternances_annuelles", "dernier_contact", "notes"])
    ensures !ImportAccepted(Offers, ["entreprise_id", "titre", "type"])
  {
    var offers := ["entreprise_id", "titre", "type"];
    assert RequiredColumns(Offers)[3] !in offers;
  }

  /** An imported CSV file: its header and its rows. */
  datatype CsvFile = CsvFile(header: seq<string>, rows: seq<seq<string>>)

  /**
   * "Importer les données": the stored file of that kind is replaced by the
   * imported one when its header has every required column, and kept
   * otherwise.
   */
  function Import(kind: DataKind, imported: CsvFile, stored: CsvFile): (written: CsvFile)
    ensures ImportAccepted(kind, imported.header) ==> written == imported
    ensures !ImportAccepted(kind, imported.header) ==> written == stored
  {
    if ImportAccepted(kind, imported.header) then imported else stored
  }

  /**
   * `df.loc[df["id"] == selected, ...] = ...`: every row with the selected id
   * is replaced by `edit` of it, every other row is left as it was, and the
   * table keeps its length and order.
   */
  function UpdateWhere<R>(rows: seq<R>, id: R -> int, selected: int, edit: R -> R): (r: seq<R>)
    ensures |r| == |rows|
    ensures forall k :: 0 <= k < |rows| ==> r[k] == (if id(rows[k]) == selected then edit(rows[k]) else rows[k])
  {
    seq(|rows|, k requires 0 <= k < |rows| => if id(rows[k]) == selected then edit(rows[k]) else rows[k])
  }

  /** Recording an interaction sets the last contact of the company it is about, and of no other. */
  function TouchLastContact(companies: seq<Company>, cid: int, date: string): (r: seq<Company>)
    ensures |r| == |companies|
    ensures forall k :: 0 <= k < |companies| ==>
      r[k] == (if companies[k].id == cid then companies[k].(lastContact := date) else companies[k])
    ensures Column(r, CompanyId) == Column(companies, CompanyId)
  {
    var r := UpdateWhere(companies, CompanyId, cid, (c: Company) => c.(lastContact := date));
    assert Column(r, CompanyId) == Column(companies, CompanyId);
    r
  }

  /** An update by id touches no row whose id differs, and one whose id is absent changes nothing. */
  lemma UpdateWhereLocal<R>(rows: seq<R>, id: R -> int, selected: int, edit: R -> R)
    ensures forall k :: 0 <= k < |rows| && id(rows[k]) != selected ==> UpdateWhere(rows, id, selected, edit)[k] == rows[k]
    ensures (forall k :: 0 <= k < |rows| ==> id(rows[k]) != selected) ==> UpdateWhere(rows, id, selected, edit) == rows
  {
  }

  /** The sixteen columns the company edit form writes; the id and the last contact are kept. */
  datatype CompanyEdit = CompanyEdit(
    name: string, sector: string, size: string, address: string, city: string, postalCode: string,
    mainContact: string, email: string, phone: string, firstContact: string, status: string,
    engagement: int, yearlyJobs: int, yearlyInternships: int, yearlyApprenticeships: int, notes: string)

  function ApplyEdit(e: CompanyEdit, c: Company): (r: Company)
    ensures r == Company(c.id, e.name, e.sector, e.size, e.address, e.city, e.postalCode, e.mainContact, e.email,
                         e.phone, e.firstContact, e.status, e.engagement, e.yearlyJobs, e.yearlyInternships,
                         e.yearlyApprenticeships, c.lastContact, e.notes)
  {
    c.(name := e.name, sector := e.sector, size := e.size, address := e.address, city := e.city,
       postalCode := e.postalCode, mainContact := e.mainContact, email := e.email, phone := e.phone,
       firstContact := e.firstContact, status := e.status, engagement := e.engagement,
       yearlyJobs := e.yearlyJobs, yearlyInternships := e.yearlyInternships,
       yearlyApprenticeships := e.yearlyApprenticeships, notes := e.notes)
  }

  function CompanyId(c: Company): int { c.id }
  function EventId(e: Event): int { e.id }
  function OfferId(o: Offer): int { o.id }
  function InteractionId(i: Interaction): int { i.id }

  /** The name of the company with id `cid`: the first such row (`.iloc[0]`). */
  function CompanyName(companies: seq<Company>, cid: int): (name: string)
    requires exists k :: 0 <= k < |companies| && companies[k].id == cid
    ensures exists k :: 0 <= k < |companies| && companies[k].id == cid && companies[k].name == name &&
                        forall j :: 0 <= j < k ==> companies[j].id != cid
  {
    if companies[0].id == cid then companies[0].name
    else
      assert exists k :: 0 <= k < |companies[1..]| && companies[1..][k].id == cid by {
        var k :| 0 <= k < |companies| && companies[k].id == cid;
        assert companies[1..][k - 1].id == cid;
      }
      CompanyName(companies[1..], cid)
  }
}
