/** What stands in the way of restoring a community: issued records it would take back, and meters now owned elsewhere. */
module ZevConflicts {
  import opened Outcomes
  import opened Registry
  import opened Tables
  import opened Sections
  import opened Archive
  import opened Loader
  import opened InstanceRestore
  import opened Accounts
  import opened Logins
  import opened ZevClear
  import opened ZevRestore
  import opened ZevLaws
  import opened ZevUndo

  /** What the plan needs to know of the archive. */
  datatype Facts = Facts(
    invoices: map<Pk, string>, contracts: set<Pk>, documents: set<Pk>, meters: set<string>, sources: set<Pk>)

  /** The price sources a row names: rows of the instance, which a restore must find already there. */
  function SourceIds(r: Row): set<Pk> {
    if r.model == Tariff && DynamicSource in r.refs then {r.refs[DynamicSource]}
    else if r.model == InvoiceDynamicSourceEvidence && Source in r.refs then {r.refs[Source]}
    else {}
  }

  /** The meter ids a metering point answers to. */
  function MeterIds(r: Row): set<string> {
    (if Field(r, "meter_id") != "" then {Field(r, "meter_id")} else {}) +
    (if Field(r, "secondary_meter_id") != "" then {Field(r, "secondary_meter_id")} else {})
  }

  ghost predicate InvoiceFact(rows: seq<Row>, p: Pk, status: string) {
    exists r :: r in rows && KeyOf(r) == Key(Invoice, p) && Field(r, "status") == status
  }

  ghost predicate Held(rows: seq<Row>, m: Model, p: Pk) {
    exists r :: r in rows && KeyOf(r) == Key(m, p)
  }

  ghost predicate MeterHeld(rows: seq<Row>, id: string) {
    exists r :: r in rows && r.model == MeteringPoint && id in MeterIds(r)
  }

  ghost predicate SourceHeld(rows: seq<Row>, p: Pk) {
    exists r :: r in rows && p in SourceIds(r)
  }

  /** The facts are those of the rows, nothing missing and nothing added. */
  ghost predicate FactsOf(rows: seq<Row>, facts: Facts) {
    && (forall p :: p in facts.invoices <==> Held(rows, Invoice, p))
    && (forall p | p in facts.invoices :: InvoiceFact(rows, p, facts.invoices[p]))
    && (forall p :: p in facts.contracts <==> Held(rows, ContractIssue, p))
    && (forall p :: p in facts.documents <==> Held(rows, DeliveredDocument, p))
    && (forall id :: id in facts.meters <==> MeterHeld(rows, id))
    && (forall p :: p in facts.sources <==> SourceHeld(rows, p))
  }

  function NoteInvoice(invoices: map<Pk, string>, r: Row): map<Pk, string> {
    if r.model == Invoice then invoices[r.pk := Field(r, "status")] else invoices
  }

  function NotePk(pks: set<Pk>, m: Model, r: Row): set<Pk> {
    if r.model == m then pks + {r.pk} else pks
  }

  function NoteMeters(meters: set<string>, r: Row): set<string> {
    if r.model == MeteringPoint then meters + MeterIds(r) else meters
  }

  /** The facts after one more record. */
  function Noted(facts: Facts, r: Row): Facts {
    Facts(
      NoteInvoice(facts.invoices, r),
      NotePk(facts.contracts, ContractIssue, r),
      NotePk(facts.documents, DeliveredDocument, r),
      NoteMeters(facts.meters, r),
      facts.sources + SourceIds(r))
  }

  lemma HeldStep(rows: seq<Row>, r: Row, m: Model, p: Pk)
    ensures Held(rows + [r], m, p) <==> Held(rows, m, p) || KeyOf(r) == Key(m, p)
  {
    assert forall x :: x in rows + [r] <==> x in rows || x == r;
  }

  lemma MeterHeldStep(rows: seq<Row>, r: Row, id: string)
    ensures MeterHeld(rows + [r], id) <==> MeterHeld(rows, id) || (r.model == MeteringPoint && id in MeterIds(r))
  {
    assert forall x :: x in rows + [r] <==> x in rows || x == r;
  }

  lemma SourceHeldStep(rows: seq<Row>, r: Row, p: Pk)
    ensures SourceHeld(rows + [r], p) <==> SourceHeld(rows, p) || p in SourceIds(r)
  {
    assert forall x :: x in rows + [r] <==> x in rows || x == r;
  }

  lemma InvoiceFactStep(rows: seq<Row>, r: Row, p: Pk, status: string)
    requires InvoiceFact(rows, p, status) || (KeyOf(r) == Key(Invoice, p) && Field(r, "status") == status)
    ensures InvoiceFact(rows + [r], p, status)
  {
    assert forall x :: x in rows + [r] <==> x in rows || x == r;
  }

  method ReadFacts(rows: seq<Row>) returns (facts: Facts)
    ensures FactsOf(rows, facts)
  {
    assert rows[..|rows|] == rows;
    facts := Facts(map[], {}, {}, {}, {});
    for i := 0 to |rows|
      invariant FactsOf(rows[..i], facts)
    {
      TakeStep(rows, i);
      NotedStep(rows[..i], facts, rows[i]);
      facts := Noted(facts, rows[i]);
    }
  }

  lemma PksNoted(rows: seq<Row>, pks: set<Pk>, m: Model, r: Row)
    requires forall p :: p in pks <==> Held(rows, m, p)
    ensures forall p :: p in NotePk(pks, m, r) <==> Held(rows + [r], m, p)
  {
    forall p ensures p in NotePk(pks, m, r) <==> Held(rows + [r], m, p) {
      HeldStep(rows, r, m, p);
    }
  }

  lemma InvoicesNoted(rows: seq<Row>, invoices: map<Pk, string>, r: Row)
    requires forall p :: p in invoices <==> Held(rows, Invoice, p)
    requires forall p | p in invoices :: InvoiceFact(rows, p, invoices[p])
    ensures forall p :: p in NoteInvoice(invoices, r) <==> Held(rows + [r], Invoice, p)
    ensures forall p | p in NoteInvoice(invoices, r) :: InvoiceFact(rows + [r], p, NoteInvoice(invoices, r)[p])
  {
    var noted := NoteInvoice(invoices, r);
    forall p ensures p in noted <==> Held(rows + [r], Invoice, p) {
      HeldStep(rows, r, Invoice, p);
    }
    forall p | p in noted ensures InvoiceFact(rows + [r], p, noted[p]) {
      InvoiceFactStep(rows, r, p, noted[p]);
    }
  }

  lemma NotedStep(rows: seq<Row>, facts: Facts, r: Row)
    requires FactsOf(rows, facts)
    ensures FactsOf(rows + [r], Noted(facts, r))
  {
    InvoicesNoted(rows, facts.invoices, r);
    PksNoted(rows, facts.contracts, ContractIssue, r);
    PksNoted(rows, facts.documents, DeliveredDocument, r);
    forall id ensures id in NoteMeters(facts.meters, r) <==> MeterHeld(rows + [r], id) {
      MeterHeldStep(rows, r, id);
    }
    forall p ensures p in facts.sources + SourceIds(r) <==> SourceHeld(rows + [r], p) {
      SourceHeldStep(rows, r, p);
    }
  }

  // ---- Conflicts ----

  datatype Conflict =
    | SentInvoiceDeleted(pk: Pk) | SentInvoiceReverted(pk: Pk) | ContractIssueDeleted(pk: Pk)
    | DeliveredDocumentDeleted(pk: Pk) | MeterOwnedElsewhere(pk: Pk) | ReferencedRowMissing(pk: Pk)
    | ExportInProgress(pk: Pk) | RestoreInProgress(pk: Pk)

  /** Only what was issued to someone may be taken back by force. */
  predicate Overridable(c: Conflict) {
    c.SentInvoiceDeleted? || c.SentInvoiceReverted? || c.ContractIssueDeleted? || c.DeliveredDocumentDeleted?
  }

  predicate UnderWay(r: Row) {
    Field(r, "status") == "queued" || Field(r, "status") == "running"
  }

  predicate Locked(r: Row) {
    Field(r, "status") == "sent" || Field(r, "status") == "paid"
  }

  /** Something issued to someone that the archive does not hold, or holds in another status. */
  function TakenBack(r: Row, z: Pk, facts: Facts, k: Key): Option<Conflict> {
    if r.zev != Some(z) then None
    else if k.model == Invoice && Locked(r) then
      if k.pk !in facts.invoices then Some(SentInvoiceDeleted(k.pk))
      else if facts.invoices[k.pk] != Field(r, "status") then Some(SentInvoiceReverted(k.pk))
      else None
    else if k.model == ContractIssue && k.pk !in facts.contracts then Some(ContractIssueDeleted(k.pk))
    else if k.model == DeliveredDocument && k.pk !in facts.documents then Some(DeliveredDocumentDeleted(k.pk))
    else None
  }

  /** Something else that a restore would corrupt or run into; `job` is the restore that is asking. */
  function InTheWay(r: Row, z: Pk, job: Option<Pk>, facts: Facts, k: Key): Option<Conflict> {
    if k.model == MeteringPoint && r.zev != Some(z) && MeterIds(r) * facts.meters != {} then Some(MeterOwnedElsewhere(k.pk))
    else if k.model == ExportJob && r.zev == Some(z) && UnderWay(r) then Some(ExportInProgress(k.pk))
    else if k.model == RestoreJob && Field(r, "target_zev_id") == z && UnderWay(r) && Some(k.pk) != job
    then Some(RestoreInProgress(k.pk))
    else None
  }

  /** The conflict a row of today's tables raises, if any. */
  function ConflictAt(t: Rows, z: Pk, job: Option<Pk>, facts: Facts, k: Key): Option<Conflict>
    requires k in t
  {
    if TakenBack(t[k], z, facts, k).Some? then TakenBack(t[k], z, facts, k) else InTheWay(t[k], z, job, facts, k)
  }

  /** A price source the archive names and the instance does not have. */
  predicate SourceMissing(t: Rows, facts: Facts, p: Pk) {
    p in facts.sources && Key(DynamicTariffSource, p) !in t
  }

  ghost predicate Raised(t: Rows, z: Pk, job: Option<Pk>, facts: Facts, c: Conflict) {
    || (exists k :: k in t && ConflictAt(t, z, job, facts, k) == Some(c))
    || (c.ReferencedRowMissing? && SourceMissing(t, facts, c.pk))
  }

  /** No conflict of this severity is raised. */
  ghost predicate NoConflict(t: Rows, z: Pk, job: Option<Pk>, facts: Facts, overridable: bool) {
    forall c | Raised(t, z, job, facts, c) :: Overridable(c) != overridable
  }

  method RowConflicts(t: Rows, z: Pk, job: Option<Pk>, facts: Facts) returns (conflicts: seq<Conflict>)
    ensures forall c :: c in conflicts <==> exists k :: k in t && ConflictAt(t, z, job, facts, k) == Some(c)
  {
    conflicts := [];
    var rest := t.Keys;
    while rest != {}
      invariant rest <= t.Keys
      invariant forall c :: c in conflicts <==> exists k :: k in t && k !in rest && ConflictAt(t, z, job, facts, k) == Some(c)
      decreases rest
    {
      var k :| k in rest;
      rest := rest - {k};
      var c := ConflictAt(t, z, job, facts, k);
      if c.Some? {
        conflicts := conflicts + [c.value];
      }
    }
  }

  method SourceConflicts(t: Rows, facts: Facts) returns (conflicts: seq<Conflict>)
    ensures forall c :: c in conflicts <==> c.ReferencedRowMissing? && SourceMissing(t, facts, c.pk)
  {
    conflicts := [];
    var rest := facts.sources;
    while rest != {}
      invariant rest <= facts.sources
      invariant forall c :: c in conflicts <==> c.ReferencedRowMissing? && SourceMissing(t, facts, c.pk) && c.pk !in rest
      decreases rest
    {
      var p :| p in rest;
      rest := rest - {p};
      if Key(DynamicTariffSource, p) !in t {
        conflicts := conflicts + [ReferencedRowMissing(p)];
      }
    }
  }

  /** Whether a list holds a conflict of a severity. */
  method AnyOf(conflicts: seq<Conflict>, overridable: bool) returns (found: bool)
    ensures found <==> exists c :: c in conflicts && Overridable(c) == overridable
  {
    for i := 0 to |conflicts|
      invariant forall j | 0 <= j < i :: Overridable(conflicts[j]) != overridable
    {
      if Overridable(conflicts[i]) == overridable {
        assert conflicts[i] in conflicts;
        return true;
      }
    }
    found := false;
  }

  /** Collect the conflicts and decide. `login` says whether a managing account has no login to protect. */
  method Evaluate(t: Rows, z: Pk, job: Option<Pk>, facts: Facts, force: bool, login: bool)
    returns (conflicts: seq<Conflict>, blocked: bool)
    ensures blocked <==> login || !NoConflict(t, z, job, facts, false) || (!force && !NoConflict(t, z, job, facts, true))
    ensures forall c :: c in conflicts <==> Raised(t, z, job, facts, c)
  {
    var rows := RowConflicts(t, z, job, facts);
    var sources := SourceConflicts(t, facts);
    conflicts := rows + sources;
    var hardFound := AnyOf(conflicts, false);
    var softFound := AnyOf(conflicts, true);
    blocked := login || hardFound || (!force && softFound);
  }

  // ---- What an unblocked restore cannot take back ----

  /** The rows loaded under a restore are found under their keys, apart from account links, before logins are protected. */
  lemma LoadedIsThere(
      site: Site, f: Format, a: Archive, t: Rows, z: Pk, mapping: map<Pk, Option<Pk>>, w: Rows, us: seq<Pk>,
      counts: map<Model, nat>, v: Rows, r: Row)
    requires Sound(site) && Keyed(t) && ZevRestored(site, f, a, t, z, Relink(mapping), w, us, counts, v)
    requires r in RestRows(site.reg, f, a, z, Same)
    ensures KeyOf(r) in w && w[KeyOf(r)] == Relink(mapping)(r)
  {
    RelinkOnlyLinks(mapping);
    RestoredIsReplaced(site, f, a, t, z, Relink(mapping), w, us, counts, v);
    StreamMapped(AllRest(site.reg, z), f, a.files, Relink(mapping));
    SurvivorsStay(
      site.reg, site.schema, t, z, Contracts(site.reg, f, a, z), Relink(mapping)(ZevRow(f, a, z)),
      RestRows(site.reg, f, a, z, Relink(mapping)), w);
    MappedHas(Relink(mapping), RestRows(site.reg, f, a, z, Same), r);
    assert KeyOf(Relink(mapping)(r)) == KeyOf(r);
  }

  /** Issued to someone: a sent or paid invoice, a contract, a delivered document. */
  predicate Issued(t: Rows, z: Pk, k: Key)
    requires k in t
  {
    && t[k].zev == Some(z)
    && ((k.model == Invoice && Locked(t[k])) || k.model == ContractIssue || k.model == DeliveredDocument)
  }

  lemma IssuedIff(t: Rows, z: Pk, k: Key)
    requires k in t
    ensures Issued(t, z, k) <==>
            && t[k].zev == Some(z)
            && ((k.model == Invoice && (Field(t[k], "status") == "sent" || Field(t[k], "status") == "paid"))
                || k.model == ContractIssue || k.model == DeliveredDocument)
  {
  }

  /** Without force, everything the community issued is still there afterwards, and no sent or paid invoice changed status. */
  lemma IssuedRecordsSurvive(
      site: Site, f: Format, a: Archive, t: Rows, z: Pk, mapping: map<Pk, Option<Pk>>, w: Rows, us: seq<Pk>,
      counts: map<Model, nat>, v: Rows, facts: Facts, job: Option<Pk>, k: Key)
    requires Sound(site) && Keyed(t) && ZevRestored(site, f, a, t, z, Relink(mapping), w, us, counts, v)
    requires FactsOf(RestRows(site.reg, f, a, z, Same), facts) && NoConflict(t, z, job, facts, true)
    requires k in t && t[k].zev == Some(z)
    requires
      || (k.model == Invoice && (Field(t[k], "status") == "sent" || Field(t[k], "status") == "paid"))
      || k.model == ContractIssue || k.model == DeliveredDocument
    ensures k in v && (k.model == Invoice ==> Field(v[k], "status") == Field(t[k], "status"))
  {
    IssuedIff(t, z, k);
    forall r | r in RestRows(site.reg, f, a, z, Same) ensures KeyOf(r) in w && w[KeyOf(r)] == Relink(mapping)(r) {
      LoadedIsThere(site, f, a, t, z, mapping, w, us, counts, v, r);
    }
    CopiesSurvive(RestRows(site.reg, f, a, z, Same), mapping, w, facts, job, t, z, k);
    ProtectionSparesIssued(site.login, w, us, k);
  }

  /** Protecting logins writes no invoice, contract or document. */
  lemma ProtectionSparesIssued(login: Login, w: Rows, us: seq<Pk>, k: Key)
    requires LoginLaw(login) && ProtectAll(login, w, us).Some?
    requires k.model == Invoice || k.model == ContractIssue || k.model == DeliveredDocument
    ensures SameAt(w, ProtectAll(login, w, us).value, k)
  {
    IssuedIsNoAccountRow(w, us, k);
    ProtectAllFrame(login, w, us);
  }

  lemma IssuedIsNoAccountRow(w: Rows, us: seq<Pk>, k: Key)
    requires k.model == Invoice || k.model == ContractIssue || k.model == DeliveredDocument
    ensures !OfAccounts(w, us, k)
  {
  }

  lemma CopiesSurvive(rows: seq<Row>, mapping: map<Pk, Option<Pk>>, v: Rows, facts: Facts, job: Option<Pk>, t: Rows, z: Pk, k: Key)
    requires forall r | r in rows :: KeyOf(r) in v && v[KeyOf(r)] == Relink(mapping)(r)
    requires FactsOf(rows, facts) && NoConflict(t, z, job, facts, true) && k in t && Issued(t, z, k)
    ensures k in v && (k.model == Invoice ==> Field(v[k], "status") == Field(t[k], "status"))
  {
    var r := SurvivingCopy(rows, facts, job, t, z, k);
  }

  lemma NotRaised(t: Rows, z: Pk, job: Option<Pk>, facts: Facts, k: Key, overridable: bool)
    requires k in t && NoConflict(t, z, job, facts, overridable)
    ensures ConflictAt(t, z, job, facts, k).Some? ==> Overridable(ConflictAt(t, z, job, facts, k).value) != overridable
  {
    var c := ConflictAt(t, z, job, facts, k);
    if c.Some? { assert Raised(t, z, job, facts, c.value); }
  }

  lemma SurvivingCopy(rows: seq<Row>, facts: Facts, job: Option<Pk>, t: Rows, z: Pk, k: Key) returns (r: Row)
    requires FactsOf(rows, facts) && k in t && Issued(t, z, k) && NoConflict(t, z, job, facts, true)
    ensures r in rows && KeyOf(r) == k && (k.model == Invoice ==> Field(r, "status") == Field(t[k], "status"))
  {
    NotRaised(t, z, job, facts, k, true);
    if k.model == Invoice {
      assert InvoiceFact(rows, k.pk, facts.invoices[k.pk]);
      r :| r in rows && KeyOf(r) == Key(Invoice, k.pk) && Field(r, "status") == facts.invoices[k.pk];
    } else {
      assert Held(rows, k.model, k.pk);
      r :| r in rows && KeyOf(r) == Key(k.model, k.pk);
    }
  }

  lemma DisjointVia(a: set<string>, b: set<string>, c: set<string>)
    requires a <= c && b * c == {}
    ensures a !! b
  {
    forall x | x in b ensures x !in c {
      assert x in c ==> x in b * c;
    }
  }

  /** No restored metering point takes a meter id that another community's point answers to. */
  lemma MetersStayApart(t: Rows, z: Pk, job: Option<Pk>, rows: seq<Row>, facts: Facts, r: Row, k: Key)
    requires FactsOf(rows, facts) && NoConflict(t, z, job, facts, false)
    requires r in rows && r.model == MeteringPoint && k in t && k.model == MeteringPoint && t[k].zev != Some(z)
    ensures MeterIds(r) !! MeterIds(t[k])
    ensures forall c, e | MeterColumn(c) && MeterColumn(e) && Field(r, c) != "" :: Field(r, c) != Field(t[k], e)
  {
    NotRaised(t, z, job, facts, k, false);
    assert MeterIds(t[k]) * facts.meters == {};
    forall id | id in MeterIds(r) ensures id in facts.meters {
      assert MeterHeld(rows, id);
    }
    DisjointVia(MeterIds(r), MeterIds(t[k]), facts.meters);
    forall c, e | MeterColumn(c) && MeterColumn(e) && Field(r, c) != "" ensures Field(r, c) != Field(t[k], e) {
      MeterIdIn(r, c);
      MeterIdIn(t[k], e);
    }
  }

  predicate MeterColumn(c: string) {
    c == "meter_id" || c == "secondary_meter_id"
  }

  lemma MeterIdIn(r: Row, c: string)
    requires MeterColumn(c)
    ensures Field(r, c) != "" ==> Field(r, c) in MeterIds(r)
  {
  }

  /** What a plan without hard conflicts says of the tables and of the archive's rows, column by column. */
  lemma PermittedMeans(t: Rows, z: Pk, job: Option<Pk>, rows: seq<Row>, facts: Facts, k: Key, r: Row)
    requires FactsOf(rows, facts) && NoConflict(t, z, job, facts, false)
    ensures k in t && (Field(t[k], "status") == "queued" || Field(t[k], "status") == "running") ==>
              && !(k.model == ExportJob && t[k].zev == Some(z))
              && !(k.model == RestoreJob && Field(t[k], "target_zev_id") == z && Some(k.pk) != job)
    ensures r in rows && r.model == Tariff && DynamicSource in r.refs ==> Key(DynamicTariffSource, r.refs[DynamicSource]) in t
    ensures r in rows && r.model == InvoiceDynamicSourceEvidence && Source in r.refs ==>
              Key(DynamicTariffSource, r.refs[Source]) in t
  {
    if k in t { NotRaised(t, z, job, facts, k, false); }
    if r in rows {
      forall p | p in SourceIds(r) ensures Key(DynamicTariffSource, p) in t {
        assert SourceHeld(rows, p);
        assert SourceMissing(t, facts, p) ==> Raised(t, z, job, facts, ReferencedRowMissing(p));
      }
    }
  }
}
