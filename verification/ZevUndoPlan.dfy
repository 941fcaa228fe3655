/** Whether the restore of the safety backup is permitted, and passes the checks on its result. */
module ZevUndoPlan {
  import opened Outcomes
  import opened Registry
  import opened Tables
  import opened References
  import opened ForeignKeys
  import opened Sections
  import opened Archive
  import opened Dump
  import opened Build
  import opened Verify
  import opened Loader
  import opened InstanceRestore
  import opened Accounts
  import opened Logins
  import opened ZevClear
  import opened ZevRestore
  import opened ZevLaws
  import opened ZevUndo
  import opened ZevRoundTrip
  import opened ZevConflicts
  import opened ZevService

  // ---- The facts of the community's own backup ----

  lemma OwnHeld(reg: Registry, t0: Rows, z: Pk, rows: seq<Row>, m: Model, p: Pk)
    requires Keyed(t0) && ListsOurs(reg, t0, z, rows)
    ensures Held(rows, m, p) <==> Ours(reg, t0, z, Key(m, p))
  {
    if Ours(reg, t0, z, Key(m, p)) {
      assert t0[Key(m, p)] in rows;
    }
  }

  lemma OwnStatus(reg: Registry, t0: Rows, z: Pk, rows: seq<Row>, facts: Facts, p: Pk)
    requires Keyed(t0) && ListsOurs(reg, t0, z, rows) && FactsOf(rows, facts) && p in facts.invoices
    ensures Ours(reg, t0, z, Key(Invoice, p)) && facts.invoices[p] == Field(t0[Key(Invoice, p)], "status")
  {
    OwnHeld(reg, t0, z, rows, Invoice, p);
    assert InvoiceFact(rows, p, facts.invoices[p]);
  }

  // ---- Conflicts that force overrides ----

  /** The original tables hold the record, with the same status if it is an invoice. */
  ghost predicate Kept(reg: Registry, t0: Rows, z: Pk, t1: Rows, k: Key)
    requires k in t1
  {
    Ours(reg, t0, z, k) && (k.model == Invoice ==> Field(t0[k], "status") == Field(t1[k], "status"))
  }

  ghost predicate SoftAt(t: Rows, z: Pk, job: Option<Pk>, facts: Facts, k: Key) {
    k in t && ConflictAt(t, z, job, facts, k).Some? && Overridable(ConflictAt(t, z, job, facts, k).value)
  }

  ghost predicate HardAt(t: Rows, z: Pk, job: Option<Pk>, facts: Facts, k: Key) {
    k in t && ConflictAt(t, z, job, facts, k).Some? && !Overridable(ConflictAt(t, z, job, facts, k).value)
  }

  lemma SoftIff(reg: Registry, t0: Rows, z: Pk, rows: seq<Row>, facts: Facts, t1: Rows, job: Option<Pk>, k: Key)
    requires Keyed(t0) && ListsOurs(reg, t0, z, rows) && FactsOf(rows, facts) && k in t1
    ensures SoftAt(t1, z, job, facts, k) <==> Issued(t1, z, k) && !Kept(reg, t0, z, t1, k)
  {
    OwnHeld(reg, t0, z, rows, k.model, k.pk);
    if k.model == Invoice && k.pk in facts.invoices { OwnStatus(reg, t0, z, rows, facts, k.pk); }
    assert Key(k.model, k.pk) == k;
  }

  lemma NoSoftIff(t: Rows, z: Pk, job: Option<Pk>, facts: Facts)
    ensures NoConflict(t, z, job, facts, true) <==> forall k :: !SoftAt(t, z, job, facts, k)
  {
    if NoConflict(t, z, job, facts, true) {
      forall k ensures !SoftAt(t, z, job, facts, k) {
        if k in t { NotRaised(t, z, job, facts, k, true); }
      }
    }
    if forall k :: !SoftAt(t, z, job, facts, k) {
      forall c | Raised(t, z, job, facts, c) ensures !Overridable(c) {
        if k :| k in t && ConflictAt(t, z, job, facts, k) == Some(c) { assert !SoftAt(t, z, job, facts, k); }
      }
    }
  }

  ghost predicate HasSources(t: Rows, facts: Facts) {
    forall p :: !SourceMissing(t, facts, p)
  }

  /** Every row that raises a hard conflict is in the set. */
  ghost predicate HardWithin(t: Rows, z: Pk, job: Option<Pk>, facts: Facts, keys: set<Key>) {
    forall k | HardAt(t, z, job, facts, k) :: k in keys
  }

  lemma NoHardIff(t: Rows, z: Pk, job: Option<Pk>, facts: Facts)
    ensures NoConflict(t, z, job, facts, false) <==> HardWithin(t, z, job, facts, {}) && HasSources(t, facts)
  {
    if NoConflict(t, z, job, facts, false) {
      forall k ensures !HardAt(t, z, job, facts, k) {
        if k in t { NotRaised(t, z, job, facts, k, false); }
      }
      forall p ensures !SourceMissing(t, facts, p) {
        if SourceMissing(t, facts, p) { assert Raised(t, z, job, facts, ReferencedRowMissing(p)); }
      }
    }
    if HardWithin(t, z, job, facts, {}) && HasSources(t, facts) {
      forall c | Raised(t, z, job, facts, c) ensures Overridable(c) {
        assert !(c.ReferencedRowMissing? && SourceMissing(t, facts, c.pk));
        var k :| k in t && ConflictAt(t, z, job, facts, k) == Some(c);
        assert !HardAt(t, z, job, facts, k);
      }
    }
  }

  // ---- Rows outside the community after the first restore ----

  /** Models whose rows neither a restore of another community's rows nor the protection of logins writes to. */
  predicate Watched(m: Model) {
    m == MeteringPoint || m == ExportJob || m == RestoreJob
  }

  lemma WatchedIsNoAccountRow(w: Rows, us: seq<Pk>, k: Key)
    requires Watched(k.model)
    ensures !OfAccounts(w, us, k) && !Credential(k.model)
  {
  }

  ghost predicate SameColumns(r: Row, r': Row) {
    r'.model == r.model && r'.pk == r.pk && r'.zev == r.zev && r'.fields == r.fields
  }

  /** Outside the community, watched rows are those of before that were not lost, column for column. */
  ghost predicate WatchedStays(reg: Registry, t0: Rows, t1: Rows, z: Pk, lost: set<Key>, k: Key) {
    && (k in t1 && !Ours(reg, t1, z, k) <==> k in t0 && !Ours(reg, t0, z, k) && k !in lost)
    && (k in t1 && !Ours(reg, t1, z, k) ==> k in t0 && SameColumns(t0[k], t1[k]))
  }

  lemma LeftKeepsColumns(reg: Registry, s: Schema, t: Rows, z: Pk, contracts: set<Pk>, k: Key)
    requires Suits(reg, s) && Keyed(t) && k in ClearedZev(reg, s, t, z, contracts)
    ensures k in t && SameColumns(t[k], ClearedZev(reg, s, t, z, contracts)[k])
  {
    var lost := ZevLost(reg, s, t, z, contracts);
    ZevTargetsDoNotStay(reg, s, t, z, contracts);
    LostDoNotStay(reg, s, t, Targets(reg, t, z, contracts));
    assert CoherentAt(s, t[k], lost);
  }

  lemma WatchedAfterRestore(
      site: Site, t: Rows, z: Pk, contracts: set<Pk>, zev: Row, rest: seq<Row>, w: Rows, us: seq<Pk>, t1: Rows, k: Key)
    requires Sound(site) && Keyed(t) && Keyed(w) && Whole(site.schema, t) && Replaced(site.reg, site.schema, t, z, contracts, zev, rest, w)
    requires ProtectAll(site.login, w, us) == Some(t1) && Watched(k.model)
    ensures WatchedStays(site.reg, t, t1, z, ZevLost(site.reg, site.schema, t, z, contracts), k)
  {
    ProtectAllFrame(site.login, w, us);
    SettledAfterRestore(site.reg, site.schema, t, z, contracts, zev, rest, w, t1);
    WatchedIsNoAccountRow(w, us, k);
    if k in t1 && !Ours(site.reg, t1, z, k) {
      OursKept(site.reg, site.schema, w, t1, z, k);
      OutsideIsLeft(site.reg, site.schema, t, z, contracts, zev, rest, w, k);
      LeftKeepsColumns(site.reg, site.schema, t, z, contracts, k);
      assert SameAt(w, t1, k);
    }
  }

  // ---- Hard conflicts ----

  /** Kept by a community restore, and no credential. */
  ghost predicate StaysApart(reg: Registry, m: Model) {
    Stays(reg, m) && !Credential(m)
  }

  /** What the plan relies on: how points name their community, and that jobs and price sources are not a community's. */
  ghost predicate PlanFits(reg: Registry, s: Schema) {
    && reg.lookup(MeteringPoint) == Own && !Restored(reg, ExportJob) && !Restored(reg, RestoreJob)
    && StaysApart(reg, DynamicTariffSource)
    && (forall r, p | p in SourceIds(r) :: Key(DynamicTariffSource, p) in Refs(s, r))
  }

  lemma SourceIsReferred(r: Row, p: Pk)
    requires p in SourceIds(r)
    ensures Key(DynamicTariffSource, p) in Refs(SCHEMA, r)
  {
    var c := if r.model == Tariff then DynamicSource else Source;
    assert OtherColumns(r.model)(c) == Some(Column(DynamicTariffSource, Guard));
    assert Refers(OtherColumns(r.model), c, Guard) && Target(OtherColumns(r.model), c, r.refs[c]) == Key(DynamicTariffSource, p);
    assert Key(DynamicTariffSource, p) in OtherRefs(OtherColumns(r.model), r.refs, Guard);
  }

  /** The shipped registry and foreign keys are such. */
  lemma ShippedPlanFits()
    ensures PlanFits(REGISTRY, SCHEMA)
  {
    PlacesDecide(ExportJob);
    PlacesDecide(RestoreJob);
    StaysIff(DynamicTariffSource);
    forall r, p | p in SourceIds(r) ensures Key(DynamicTariffSource, p) in Refs(SCHEMA, r) {
      SourceIsReferred(r, p);
    }
  }

  lemma HardIsOutside(reg: Registry, s: Schema, t: Rows, z: Pk, job: Option<Pk>, facts: Facts, k: Key)
    requires PlanFits(reg, s) && Keyed(t) && HardAt(t, z, job, facts, k)
    ensures Watched(k.model) && !Ours(reg, t, z, k)
  {
  }

  lemma HardByColumns(t0: Rows, t1: Rows, z: Pk, job: Option<Pk>, facts: Facts, k: Key)
    requires k in t0 && k in t1 && SameColumns(t0[k], t1[k]) && Watched(k.model)
    ensures HardAt(t1, z, job, facts, k) <==> HardAt(t0, z, job, facts, k)
  {
  }

  /** A row raises a hard conflict after the first restore exactly when it did before, and was not lost. */
  lemma HardStays(reg: Registry, s: Schema, t0: Rows, t1: Rows, z: Pk, job: Option<Pk>, facts: Facts, lost: set<Key>, k: Key)
    requires PlanFits(reg, s) && Keyed(t0) && Keyed(t1) && (Watched(k.model) ==> WatchedStays(reg, t0, t1, z, lost, k))
    ensures HardSame(t0, t1, z, job, facts, lost, k)
  {
    if HardAt(t1, z, job, facts, k) {
      HardIsOutside(reg, s, t1, z, job, facts, k);
      HardByColumns(t0, t1, z, job, facts, k);
    }
    if HardAt(t0, z, job, facts, k) && k !in lost {
      HardIsOutside(reg, s, t0, z, job, facts, k);
      HardByColumns(t0, t1, z, job, facts, k);
    }
  }

  /** Every price source the community's rows name is there. */
  lemma SourcesAreThere(reg: Registry, s: Schema, t0: Rows, z: Pk, rows: seq<Row>, facts: Facts, p: Pk)
    requires PlanFits(reg, s) && Whole(s, t0) && ListsOurs(reg, t0, z, rows) && FactsOf(rows, facts)
    ensures !SourceMissing(t0, facts, p)
  {
    if p in facts.sources {
      assert SourceHeld(rows, p);
      var r :| r in rows && p in SourceIds(r);
      assert Refs(s, t0[KeyOf(r)]) <= t0.Keys;
    }
  }

  ghost predicate HasAll(t: Rows, t1: Rows, m: Model) {
    forall k | k in t && k.model == m :: k in t1
  }

  /** Rows of a model that stays are all there after a restore, unless they are credentials. */
  lemma ModelIsThere(site: Site, t: Rows, z: Pk, contracts: set<Pk>, zev: Row, rest: seq<Row>, w: Rows, us: seq<Pk>, t1: Rows, m: Model)
    requires Sound(site) && StaysApart(site.reg, m) && Keyed(t)
    requires Replaced(site.reg, site.schema, t, z, contracts, zev, rest, w) && ProtectAll(site.login, w, us) == Some(t1)
    ensures HasAll(t, t1, m)
  {
    ProtectAllFrame(site.login, w, us);
    forall k | k in t && k.model == m ensures k in t1 {
      NotLost(site.reg, site.schema, t, z, contracts, k);
      LeftIsThere(site.reg, site.schema, t, z, contracts, zev, rest, w, t1, k);
    }
  }

  lemma NoneMissing(reg: Registry, s: Schema, t0: Rows, z: Pk, rows: seq<Row>, facts: Facts, t1: Rows)
    requires PlanFits(reg, s) && Whole(s, t0) && ListsOurs(reg, t0, z, rows) && FactsOf(rows, facts)
    requires HasAll(t0, t1, DynamicTariffSource)
    ensures HasSources(t1, facts)
  {
    forall p ensures !SourceMissing(t1, facts, p) {
      SourcesAreThere(reg, s, t0, z, rows, facts, p);
    }
  }

  lemma NotLost(reg: Registry, s: Schema, t: Rows, z: Pk, contracts: set<Pk>, k: Key)
    requires Suits(reg, s) && Keyed(t) && Stays(reg, k.model)
    ensures k !in ZevLost(reg, s, t, z, contracts)
  {
    ZevTargetsDoNotStay(reg, s, t, z, contracts);
    LostDoNotStay(reg, s, t, Targets(reg, t, z, contracts));
  }

  // ---- The second plan ----

  lemma HardAfterRestore(
      site: Site, t0: Rows, z: Pk, contracts: set<Pk>, zev: Row, rest: seq<Row>, w: Rows, us: seq<Pk>, t1: Rows,
      facts: Facts, job: Option<Pk>, k: Key)
    requires Sound(site) && PlanFits(site.reg, site.schema) && Keyed(t0) && Keyed(w) && Keyed(t1) && Whole(site.schema, t0)
    requires Replaced(site.reg, site.schema, t0, z, contracts, zev, rest, w) && ProtectAll(site.login, w, us) == Some(t1)
    ensures HardSame(t0, t1, z, job, facts, ZevLost(site.reg, site.schema, t0, z, contracts), k)
  {
    if Watched(k.model) { WatchedAfterRestore(site, t0, z, contracts, zev, rest, w, us, t1, k); }
    HardStays(site.reg, site.schema, t0, t1, z, job, facts, ZevLost(site.reg, site.schema, t0, z, contracts), k);
  }

  /** The second plan's hard conflicts are those of the original tables, at rows that were not lost. */
  lemma SecondHard(
      site: Site, t0: Rows, z: Pk, contracts: set<Pk>, zev: Row, rest: seq<Row>, w: Rows, us: seq<Pk>, t1: Rows,
      facts: Facts, job: Option<Pk>)
    requires Sound(site) && PlanFits(site.reg, site.schema) && Keyed(t0) && Keyed(w) && Keyed(t1) && Whole(site.schema, t0)
    requires Replaced(site.reg, site.schema, t0, z, contracts, zev, rest, w) && ProtectAll(site.login, w, us) == Some(t1)
    ensures HardWithin(t1, z, job, facts, {}) <==> HardWithin(t0, z, job, facts, ZevLost(site.reg, site.schema, t0, z, contracts))
  {
    forall k ensures HardSame(t0, t1, z, job, facts, ZevLost(site.reg, site.schema, t0, z, contracts), k) {
      HardAfterRestore(site, t0, z, contracts, zev, rest, w, us, t1, facts, job, k);
    }
    HardWithinIff(t0, t1, z, job, facts, ZevLost(site.reg, site.schema, t0, z, contracts));
  }

  ghost predicate HardSame(t0: Rows, t1: Rows, z: Pk, job: Option<Pk>, facts: Facts, lost: set<Key>, k: Key) {
    HardAt(t1, z, job, facts, k) <==> HardAt(t0, z, job, facts, k) && k !in lost
  }

  lemma HardWithinIff(t0: Rows, t1: Rows, z: Pk, job: Option<Pk>, facts: Facts, lost: set<Key>)
    requires forall k :: HardSame(t0, t1, z, job, facts, lost, k)
    ensures HardWithin(t1, z, job, facts, {}) <==> HardWithin(t0, z, job, facts, lost)
  {
    forall k ensures HardAt(t1, z, job, facts, k) <==> HardAt(t0, z, job, facts, k) && k !in lost {
      assert HardSame(t0, t1, z, job, facts, lost, k);
    }
  }

  /** The conflicts force overrides are the issued records of the tables now that the original ones lack or hold otherwise. */
  lemma SecondSoft(reg: Registry, t0: Rows, z: Pk, rows: seq<Row>, facts: Facts, t1: Rows, job: Option<Pk>)
    requires Keyed(t0) && ListsOurs(reg, t0, z, rows) && FactsOf(rows, facts)
    ensures NoConflict(t1, z, job, facts, true) <==> forall k | k in t1 && Issued(t1, z, k) :: Kept(reg, t0, z, t1, k)
  {
    forall k | k in t1 ensures SoftAt(t1, z, job, facts, k) <==> Issued(t1, z, k) && !Kept(reg, t0, z, t1, k) {
      SoftIff(reg, t0, z, rows, facts, t1, job, k);
    }
    NoSoftIff(t1, z, job, facts);
  }

  /** A point of another community answers to a meter id of the community's. */
  ghost predicate Clashes(reg: Registry, t: Rows, z: Pk, k: Key) {
    && k in t && k.model == MeteringPoint && t[k].zev != Some(z)
    && exists l :: Ours(reg, t, z, l) && l.model == MeteringPoint && MeterIds(t[k]) * MeterIds(t[l]) != {}
  }

  /** An export of the community or another restore of it, queued or running. */
  ghost predicate Runs(t: Rows, z: Pk, job: Option<Pk>, k: Key) {
    && k in t && (Field(t[k], "status") == "queued" || Field(t[k], "status") == "running")
    && ((k.model == ExportJob && t[k].zev == Some(z)) ||
        (k.model == RestoreJob && Field(t[k], "target_zev_id") == z && Some(k.pk) != job))
  }

  lemma SharesIds(reg: Registry, t: Rows, z: Pk, rows: seq<Row>, facts: Facts, ids: set<string>)
    requires Keyed(t) && ListsOurs(reg, t, z, rows) && FactsOf(rows, facts)
    ensures ids * facts.meters != {} <==> exists l :: Ours(reg, t, z, l) && l.model == MeteringPoint && ids * MeterIds(t[l]) != {}
  {
    if id :| id in ids * facts.meters {
      assert MeterHeld(rows, id);
      var r :| r in rows && r.model == MeteringPoint && id in MeterIds(r);
      assert Ours(reg, t, z, KeyOf(r)) && id in ids * MeterIds(t[KeyOf(r)]);
    }
    if l :| Ours(reg, t, z, l) && l.model == MeteringPoint && ids * MeterIds(t[l]) != {} {
      var id :| id in ids * MeterIds(t[l]);
      assert t[l] in rows;
      assert MeterHeld(rows, id);
      assert id in ids * facts.meters;
    }
  }

  /** Over its own tables, the community's own backup meets a hard conflict exactly where a meter clashes or something runs. */
  lemma OwnHardIff(reg: Registry, t: Rows, z: Pk, rows: seq<Row>, facts: Facts, job: Option<Pk>, k: Key)
    requires Keyed(t) && ListsOurs(reg, t, z, rows) && FactsOf(rows, facts)
    ensures HardAt(t, z, job, facts, k) <==> Clashes(reg, t, z, k) || Runs(t, z, job, k)
  {
    HardAtIff(t, z, job, facts, k);
    if k in t { SharesIds(reg, t, z, rows, facts, MeterIds(t[k])); }
  }

  lemma HardAtIff(t: Rows, z: Pk, job: Option<Pk>, facts: Facts, k: Key)
    ensures HardAt(t, z, job, facts, k) <==>
            || (k in t && k.model == MeteringPoint && t[k].zev != Some(z) && MeterIds(t[k]) * facts.meters != {})
            || Runs(t, z, job, k)
  {
  }

  lemma NoOwnHard(reg: Registry, t: Rows, z: Pk, rows: seq<Row>, facts: Facts, job: Option<Pk>)
    requires Keyed(t) && ListsOurs(reg, t, z, rows) && FactsOf(rows, facts) && Quiet(reg, t, z, job)
    ensures forall keys :: HardWithin(t, z, job, facts, keys)
  {
    forall k ensures !HardAt(t, z, job, facts, k) {
      OwnHardIff(reg, t, z, rows, facts, job, k);
    }
  }

  /** Tables over which the community's own backup could be restored: no meter clashes and nothing runs. */
  ghost predicate Quiet(reg: Registry, t: Rows, z: Pk, job: Option<Pk>) {
    forall k :: !Clashes(reg, t, z, k) && !Runs(t, z, job, k)
  }

  /**
   * The plan of the second restore, from tables in which no meter clashed and nothing ran: with force it is permitted; without
   * force exactly when every record issued in the tables the first restore left is in the original ones too, an invoice with
   * the same status.
   */
  lemma UndoIsPermitted(
      site: Site, f: Format, t0: Rows, storage: Storage, z: Pk, fold: string -> string,
      a: Archive, mapping: map<Pk, Option<Pk>>, w: Rows, us: seq<Pk>, counts: map<Model, nat>, t1: Rows,
      b: Archive, facts: Facts, job: Option<Pk>)
    requires Sound(site) && PlanFits(site.reg, site.schema) && InOrder(site, t0, z, fold) && Quiet(site.reg, t0, z, job)
    requires ZevRestored(site, f, a, t0, z, Relink(mapping), w, us, counts, t1)
    requires Faithful(f) && Built(site.reg, f, t0, storage, b) && z in b.manifest.zevs
    requires FactsOf(RestRows(site.reg, f, b, z, Same), facts)
    ensures Permitted(site.reg, f, b, t1, z, job, facts, true)
    ensures Permitted(site.reg, f, b, t1, z, job, facts, false) <==>
            forall k | k in t1 && Issued(t1, z, k) :: Kept(site.reg, t0, z, t1, k)
  {
    BackupRest(site.reg, f, t0, storage, b, z);
    BuiltPasses(site.reg, f, t0, storage, b);
    var rows := RestRows(site.reg, f, b, z, Same);
    NoOwnHard(site.reg, t0, z, rows, facts, job);
    SecondHardOf(site, f, t0, z, a, mapping, w, us, counts, t1, facts, job);
    SecondSources(site, f, t0, z, a, mapping, w, us, counts, t1, rows, facts);
    NoHardIff(t1, z, job, facts);
    SecondSoft(site.reg, t0, z, RestRows(site.reg, f, b, z, Same), facts, t1, job);
  }

  lemma SecondHardOf(
      site: Site, f: Format, t0: Rows, z: Pk, a: Archive, mapping: map<Pk, Option<Pk>>, w: Rows, us: seq<Pk>,
      counts: map<Model, nat>, t1: Rows, facts: Facts, job: Option<Pk>)
    requires Sound(site) && PlanFits(site.reg, site.schema) && Keyed(t0) && Whole(site.schema, t0)
    requires ZevRestored(site, f, a, t0, z, Relink(mapping), w, us, counts, t1)
    ensures HardWithin(t1, z, job, facts, {}) <==>
            HardWithin(t0, z, job, facts, ZevLost(site.reg, site.schema, t0, z, Contracts(site.reg, f, a, z)))
  {
    RelinkOnlyLinks(mapping);
    RestoredIsReplaced(site, f, a, t0, z, Relink(mapping), w, us, counts, t1);
    ProtectAllFrame(site.login, w, us);
    FrameIsKeyed(w, t1);
    SecondHard(
      site, t0, z, Contracts(site.reg, f, a, z), Relink(mapping)(ZevRow(f, a, z)), RestRows(site.reg, f, a, z, Relink(mapping)),
      w, us, t1, facts, job);
  }

  lemma SecondSources(
      site: Site, f: Format, t0: Rows, z: Pk, a: Archive, mapping: map<Pk, Option<Pk>>, w: Rows, us: seq<Pk>,
      counts: map<Model, nat>, t1: Rows, rows: seq<Row>, facts: Facts)
    requires Sound(site) && PlanFits(site.reg, site.schema) && Keyed(t0) && Whole(site.schema, t0)
    requires ZevRestored(site, f, a, t0, z, Relink(mapping), w, us, counts, t1)
    requires ListsOurs(site.reg, t0, z, rows) && FactsOf(rows, facts)
    ensures HasSources(t1, facts)
  {
    ModelIsThereOf(site, f, t0, z, a, mapping, w, us, counts, t1, DynamicTariffSource);
    NoneMissing(site.reg, site.schema, t0, z, rows, facts, t1);
  }

  lemma ModelIsThereOf(
      site: Site, f: Format, t0: Rows, z: Pk, a: Archive, mapping: map<Pk, Option<Pk>>, w: Rows, us: seq<Pk>,
      counts: map<Model, nat>, t1: Rows, m: Model)
    requires Sound(site) && StaysApart(site.reg, m) && Keyed(t0)
    requires ZevRestored(site, f, a, t0, z, Relink(mapping), w, us, counts, t1)
    ensures HasAll(t0, t1, m)
  {
    RelinkOnlyLinks(mapping);
    RestoredIsReplaced(site, f, a, t0, z, Relink(mapping), w, us, counts, t1);
    ModelIsThere(
      site, t0, z, Contracts(site.reg, f, a, z), Relink(mapping)(ZevRow(f, a, z)), RestRows(site.reg, f, a, z, Relink(mapping)),
      w, us, t1, m);
  }
}
