/** The checks at the end of the second restore: foreign keys and meter identities. */
module ZevUndoChecks {
  import opened Outcomes
  import opened Registry
  import opened Tables
  import opened References
  import opened ForeignKeys
  import opened Sections
  import opened Archive
  import opened Dump
  import opened Loader
  import opened InstanceRestore
  import opened Accounts
  import opened Logins
  import opened ZevClear
  import opened ZevRestore
  import opened ZevLaws
  import opened ZevUndo
  import opened ZevRoundTrip
  import opened ZevUndoPlan

  // ---- Foreign keys ----

  /** No foreign key names a credential, so deleting one leaves none dangling. */
  ghost predicate NamesNoCredential(s: Schema) {
    forall r, k | k in Refs(s, r) :: !Credential(k.model)
  }

  /** A row of before that was not lost is there after the undo. */
  lemma LeftIsUndone(reg: Registry, s: Schema, t0: Rows, t1: Rows, z: Pk, lost: set<Key>, l: Key)
    requires WellFormed(reg) && Key(Zev, z) in t0 && Settled(reg, s, t0, t1, z, lost)
    requires l in t0 && l !in lost && !Credential(l.model)
    ensures l in Undone(reg, t0, t1, z)
  {
    UndoneAt(reg, t0, t1, z, l);
  }

  /** A lost row that was not the community's is gone. */
  lemma LostStaysLost(reg: Registry, s: Schema, t0: Rows, t1: Rows, z: Pk, lost: set<Key>, l: Key)
    requires WellFormed(reg) && Key(Zev, z) in t0 && Settled(reg, s, t0, t1, z, lost)
    requires l in lost && l.model != Zev && !Ours(reg, t0, z, l)
    ensures l !in Undone(reg, t0, t1, z)
  {
    UndoneAt(reg, t0, t1, z, l);
  }

  ghost predicate RefsHold(s: Schema, t: Rows, r: Row) {
    Refs(s, r) <= t.Keys
  }

  lemma OutsideRefsHold(reg: Registry, s: Schema, t0: Rows, t1: Rows, z: Pk, lost: set<Key>, k: Key)
    requires WellFormed(reg) && NamesNoCredential(s) && Key(Zev, z) in t0 && Settled(reg, s, t0, t1, z, lost)
    requires k in t1 && !Ours(reg, t1, z, k) && k.model != Zev
    ensures RefsHold(s, Undone(reg, t0, t1, z), t1[k])
  {
    forall l | l in Refs(s, t1[k]) ensures l in Undone(reg, t0, t1, z) {
      LeftIsUndone(reg, s, t0, t1, z, lost, l);
    }
  }

  lemma OwnRowRefsHold(reg: Registry, s: Schema, t0: Rows, t1: Rows, z: Pk, lost: set<Key>, k: Key)
    requires Suits(reg, s) && NamesNoCredential(s) && Keyed(t0) && Whole(s, t0) && Key(Zev, z) in t0 && Settled(reg, s, t0, t1, z, lost)
    requires (forall l | l in lost :: !Stays(reg, l.model)) && k in t0 && k.model == Zev
    ensures RefsHold(s, Undone(reg, t0, t1, z), t0[k])
  {
    assert FitsAt(reg, s, t0[k]);
    forall l | l in Refs(s, t0[k]) ensures l in Undone(reg, t0, t1, z) {
      assert RefFits(reg, Zev, l.model);
      LeftIsUndone(reg, s, t0, t1, z, lost, l);
    }
  }

  /** Among what it refers to, a row of the community names nothing lost from outside it. */
  ghost predicate NamesNothingLost(reg: Registry, s: Schema, t0: Rows, z: Pk, lost: set<Key>, k: Key)
    requires k in t0
  {
    forall l | l in Refs(s, t0[k]) && l in lost :: Ours(reg, t0, z, l)
  }

  lemma OurRefsHoldIff(reg: Registry, s: Schema, t0: Rows, t1: Rows, z: Pk, lost: set<Key>, k: Key)
    requires Suits(reg, s) && NamesNoCredential(s) && Whole(s, t0) && Key(Zev, z) in t0 && Settled(reg, s, t0, t1, z, lost)
    requires NoModel(lost, Zev) && Ours(reg, t0, z, k)
    ensures RefsHold(s, Undone(reg, t0, t1, z), t0[k]) <==> NamesNothingLost(reg, s, t0, z, lost, k)
  {
    forall l | l in Refs(s, t0[k]) ensures l in Undone(reg, t0, t1, z) <==> l !in lost || Ours(reg, t0, z, l) {
      if l !in lost {
        LeftIsUndone(reg, s, t0, t1, z, lost, l);
      } else if Ours(reg, t0, z, l) {
        UndoneAt(reg, t0, t1, z, l);
      } else {
        LostStaysLost(reg, s, t0, t1, z, lost, l);
      }
    }
  }

  /** Other communities' own rows are as they were. */
  ghost predicate OwnRowsSame(t0: Rows, t1: Rows, z: Pk) {
    forall k | k in t1 && k.model == Zev && k.pk != z :: k in t0 && t1[k] == t0[k]
  }

  ghost predicate NoneNamesLost(reg: Registry, s: Schema, t0: Rows, z: Pk, lost: set<Key>) {
    forall k | Ours(reg, t0, z, k) :: NamesNothingLost(reg, s, t0, z, lost, k)
  }

  lemma UndoneRefsHold(reg: Registry, s: Schema, t0: Rows, t1: Rows, z: Pk, lost: set<Key>, k: Key)
    requires Suits(reg, s) && NamesNoCredential(s) && Keyed(t0) && Keyed(t1) && Whole(s, t0) && Key(Zev, z) in t0
    requires Settled(reg, s, t0, t1, z, lost) && OwnRowsSame(t0, t1, z) && forall l | l in lost :: !Stays(reg, l.model)
    requires k in Undone(reg, t0, t1, z) && !Ours(reg, t0, z, k)
    ensures RefsHold(s, Undone(reg, t0, t1, z), Undone(reg, t0, t1, z)[k])
  {
    UndoneAt(reg, t0, t1, z, k);
    if k.model == Zev {
      OwnRowRefsHold(reg, s, t0, t1, z, lost, k);
    } else {
      OutsideRefsHold(reg, s, t0, t1, z, lost, k);
    }
  }

  /** Foreign keys hold in the undone tables exactly when no row of the community named something lost from outside it. */
  lemma UndoneIsWholeIff(reg: Registry, s: Schema, t0: Rows, t1: Rows, z: Pk, lost: set<Key>)
    requires Suits(reg, s) && NamesNoCredential(s) && Keyed(t0) && Keyed(t1) && Whole(s, t0) && Key(Zev, z) in t0
    requires Settled(reg, s, t0, t1, z, lost) && OwnRowsSame(t0, t1, z) && forall l | l in lost :: !Stays(reg, l.model)
    ensures Whole(s, Undone(reg, t0, t1, z)) <==> NoneNamesLost(reg, s, t0, z, lost)
  {
    var undone := Undone(reg, t0, t1, z);
    forall k | k in undone && !Ours(reg, t0, z, k) ensures RefsHold(s, undone, undone[k]) {
      UndoneRefsHold(reg, s, t0, t1, z, lost, k);
    }
    forall k | Ours(reg, t0, z, k)
      ensures k in undone && (RefsHold(s, undone, undone[k]) <==> NamesNothingLost(reg, s, t0, z, lost, k))
    {
      UndoneAt(reg, t0, t1, z, k);
      OurRefsHoldIff(reg, s, t0, t1, z, lost, k);
    }
    assert Whole(s, undone) <==> forall k | k in undone :: RefsHold(s, undone, undone[k]);
  }

  /** Protecting logins leaves no foreign key dangling. */
  lemma FrameKeepsWhole(s: Schema, w: Rows, v: Rows)
    requires Coherent(s) && NamesNoCredential(s) && Whole(s, w) && Frame(w, v)
    ensures Whole(s, v)
  {
    forall k | k in v ensures Refs(s, v[k]) <= v.Keys {
      assert OnlyFields(w[k], v[k]);
      assert SameRefs(s, w[k], v[k]);
    }
  }

  // ---- Meter identities ----

  /** What a point answers to, as the identity check reads it: an empty primary id counts, an empty secondary does not. */
  function Identities(r: Row): set<string> {
    {Field(r, "meter_id")} + if Field(r, "secondary_meter_id") != "" then {Field(r, "secondary_meter_id")} else {}
  }

  /** The point's ids differ from each other and from those of every other point. */
  ghost predicate IdentityFits(t: Rows, k: Key)
    requires k in t
  {
    && (Field(t[k], "secondary_meter_id") != "" ==> Field(t[k], "secondary_meter_id") != Field(t[k], "meter_id"))
    && forall l | l in t && l.model == MeteringPoint && l != k :: Identities(t[k]) !! Identities(t[l])
  }

  /** The identity check over the community's points. */
  ghost predicate IdentitiesFit(t: Rows, z: Pk) {
    forall k | k in t && k.model == MeteringPoint && t[k].zev == Some(z) :: IdentityFits(t, k)
  }

  /** Every point of the undone tables is one of before, column for column. */
  ghost predicate PointsAreOld(t0: Rows, v: Rows) {
    forall k | k in v && k.model == MeteringPoint :: k in t0 && SameColumns(t0[k], v[k])
  }

  lemma OldPointsFit(t0: Rows, v: Rows, z: Pk)
    requires PointsAreOld(t0, v) && IdentitiesFit(t0, z)
    ensures IdentitiesFit(v, z)
  {
    forall k | k in v && k.model == MeteringPoint && v[k].zev == Some(z) ensures IdentityFits(v, k) {
      assert IdentityFits(t0, k);
      forall l | l in v && l.model == MeteringPoint && l != k ensures Identities(v[k]) !! Identities(v[l]) {
        assert Identities(v[k]) == Identities(t0[k]) && Identities(v[l]) == Identities(t0[l]);
      }
    }
  }

  lemma UndonePointsAreOld(reg: Registry, t0: Rows, t1: Rows, z: Pk, lost: set<Key>, login: Login, us: seq<Pk>, v: Rows)
    requires WellFormed(reg) && Key(Zev, z) in t0 && LoginLaw(login)
    requires forall k: Key | k.model == MeteringPoint :: WatchedStays(reg, t0, t1, z, lost, k)
    requires ProtectAll(login, Undone(reg, t0, t1, z), us) == Some(v)
    ensures PointsAreOld(t0, v)
  {
    var undone := Undone(reg, t0, t1, z);
    ProtectAllFrame(login, undone, us);
    forall k | k in v && k.model == MeteringPoint ensures k in t0 && SameColumns(t0[k], v[k]) {
      WatchedIsNoAccountRow(undone, us, k);
      assert SameAt(undone, v, k);
      UndoneAt(reg, t0, t1, z, k);
      assert WatchedStays(reg, t0, t1, z, lost, k);
    }
  }

  // ---- After the second restore ----

  lemma FitKeepsOwnRows(
      site: Site, t: Rows, z: Pk, contracts: set<Pk>, zev: Row, rest: seq<Row>, w: Rows, us: seq<Pk>, t1: Rows)
    requires Sound(site) && Keyed(t) && Keyed(w) && Whole(site.schema, t) && OwnRowFits(t, z, zev)
    requires Replaced(site.reg, site.schema, t, z, contracts, zev, rest, w) && ProtectAll(site.login, w, us) == Some(t1)
    ensures OwnRowsSame(t, t1, z)
  {
    ReplacedIsIsolatedIff(site.reg, site.schema, t, z, contracts, zev, rest, w);
    ProtectAllFrame(site.login, w, us);
    forall k | k in t1 && k.model == Zev && k.pk != z ensures k in t && t1[k] == t[k] {
      OwnRowIsNoAccountRow(w, us, k);
      StayingRowsAreUntouched(site.reg, site.schema, t, w, z, contracts, k);
      assert SameAt(w, t1, k);
    }
  }

  lemma OwnRowIsNoAccountRow(w: Rows, us: seq<Pk>, k: Key)
    requires k.model == Zev
    ensures !OfAccounts(w, us, k)
  {
  }

  /** What the second restore relies on, of the tables before the first one and of the first one. */
  ghost predicate Prepared(
      site: Site, t: Rows, z: Pk, contracts: set<Pk>, zev: Row, rest: seq<Row>, w: Rows, us: seq<Pk>, t1: Rows)
  {
    && Keyed(t) && Keyed(w) && Keyed(t1) && Whole(site.schema, t) && Key(Zev, z) in t && OwnRowFits(t, z, zev)
    && Replaced(site.reg, site.schema, t, z, contracts, zev, rest, w) && ProtectAll(site.login, w, us) == Some(t1)
  }

  lemma PreparedIsWholeIff(
      site: Site, t: Rows, z: Pk, contracts: set<Pk>, zev: Row, rest: seq<Row>, w: Rows, us: seq<Pk>, t1: Rows)
    requires Sound(site) && NamesNoCredential(site.schema) && Prepared(site, t, z, contracts, zev, rest, w, us, t1)
    ensures Whole(site.schema, Undone(site.reg, t, t1, z)) <==>
            NoneNamesLost(site.reg, site.schema, t, z, ZevLost(site.reg, site.schema, t, z, contracts))
  {
    ProtectAllFrame(site.login, w, us);
    SettledAfterRestore(site.reg, site.schema, t, z, contracts, zev, rest, w, t1);
    FitKeepsOwnRows(site, t, z, contracts, zev, rest, w, us, t1);
    ZevTargetsDoNotStay(site.reg, site.schema, t, z, contracts);
    LostDoNotStay(site.reg, site.schema, t, Targets(site.reg, t, z, contracts));
    UndoneIsWholeIff(site.reg, site.schema, t, t1, z, ZevLost(site.reg, site.schema, t, z, contracts));
  }

  /** Protection decides nothing: foreign keys hold after it exactly when they held before. */
  lemma WholeThroughFrame(reg: Registry, s: Schema, t0: Rows, t1: Rows, z: Pk, v: Rows)
    requires Suits(reg, s) && NamesNoCredential(s) && Key(Zev, z) in t0 && Frame(Undone(reg, t0, t1, z), v)
    requires forall k | k in Undone(reg, t0, t1, z) && !RefsHold(s, Undone(reg, t0, t1, z), Undone(reg, t0, t1, z)[k]) :: !Credential(k.model)
    ensures Whole(s, v) <==> Whole(s, Undone(reg, t0, t1, z))
  {
    var undone := Undone(reg, t0, t1, z);
    if Whole(s, undone) {
      FrameKeepsWhole(s, undone, v);
    } else {
      var k :| k in undone && !RefsHold(s, undone, undone[k]);
      assert OnlyFields(undone[k], v[k]);
      assert SameRefs(s, undone[k], v[k]);
      assert v.Keys <= undone.Keys;
    }
  }

  lemma OnlyOursDangle(
      site: Site, t: Rows, z: Pk, contracts: set<Pk>, zev: Row, rest: seq<Row>, w: Rows, us: seq<Pk>, t1: Rows, k: Key)
    requires Sound(site) && NamesNoCredential(site.schema) && Prepared(site, t, z, contracts, zev, rest, w, us, t1)
    requires k in Undone(site.reg, t, t1, z)
    requires !RefsHold(site.schema, Undone(site.reg, t, t1, z), Undone(site.reg, t, t1, z)[k])
    ensures !Credential(k.model)
  {
    ProtectAllFrame(site.login, w, us);
    SettledAfterRestore(site.reg, site.schema, t, z, contracts, zev, rest, w, t1);
    FitKeepsOwnRows(site, t, z, contracts, zev, rest, w, us, t1);
    ZevTargetsDoNotStay(site.reg, site.schema, t, z, contracts);
    LostDoNotStay(site.reg, site.schema, t, Targets(site.reg, t, z, contracts));
    if !Ours(site.reg, t, z, k) {
      UndoneRefsHold(site.reg, site.schema, t, t1, z, ZevLost(site.reg, site.schema, t, z, contracts), k);
    }
  }

  lemma PreparedPasses(
      site: Site, t: Rows, z: Pk, contracts: set<Pk>, zev: Row, rest: seq<Row>, w: Rows, us: seq<Pk>, t1: Rows, us': seq<Pk>, v: Rows)
    requires Sound(site) && NamesNoCredential(site.schema) && Prepared(site, t, z, contracts, zev, rest, w, us, t1)
    requires UndoProtected(site, t, t1, z, us', v)
    ensures Whole(site.schema, v) <==>
            NoneNamesLost(site.reg, site.schema, t, z, ZevLost(site.reg, site.schema, t, z, contracts))
    ensures IdentitiesFit(t, z) ==> IdentitiesFit(v, z)
  {
    PreparedIsWholeIff(site, t, z, contracts, zev, rest, w, us, t1);
    ProtectAllFrame(site.login, Undone(site.reg, t, t1, z), us');
    forall k | k in Undone(site.reg, t, t1, z) && !RefsHold(site.schema, Undone(site.reg, t, t1, z), Undone(site.reg, t, t1, z)[k])
      ensures !Credential(k.model)
    {
      OnlyOursDangle(site, t, z, contracts, zev, rest, w, us, t1, k);
    }
    WholeThroughFrame(site.reg, site.schema, t, t1, z, v);
    PreparedIdentities(site, t, z, contracts, zev, rest, w, us, t1, us', v);
  }

  lemma PreparedIdentities(
      site: Site, t: Rows, z: Pk, contracts: set<Pk>, zev: Row, rest: seq<Row>, w: Rows, us: seq<Pk>, t1: Rows, us': seq<Pk>, v: Rows)
    requires Sound(site) && Prepared(site, t, z, contracts, zev, rest, w, us, t1) && UndoProtected(site, t, t1, z, us', v)
    ensures IdentitiesFit(t, z) ==> IdentitiesFit(v, z)
  {
    var lost := ZevLost(site.reg, site.schema, t, z, contracts);
    forall k: Key | k.model == MeteringPoint ensures WatchedStays(site.reg, t, t1, z, lost, k) {
      WatchedAfterRestore(site, t, z, contracts, zev, rest, w, us, t1, k);
    }
    UndonePointsAreOld(site.reg, t, t1, z, lost, site.login, us', v);
    if IdentitiesFit(t, z) { OldPointsFit(t, v, z); }
  }

  lemma RestoredIsPrepared(
      site: Site, f: Format, t0: Rows, z: Pk, a: Archive, mapping: map<Pk, Option<Pk>>, w: Rows, us: seq<Pk>,
      counts: map<Model, nat>, t1: Rows)
    requires Sound(site) && Keyed(t0) && Whole(site.schema, t0) && Key(Zev, z) in t0
    requires ZevRestored(site, f, a, t0, z, Relink(mapping), w, us, counts, t1)
    requires OwnRowFits(t0, z, Relink(mapping)(ZevRow(f, a, z)))
    ensures Prepared(
              site, t0, z, Contracts(site.reg, f, a, z), Relink(mapping)(ZevRow(f, a, z)), RestRows(site.reg, f, a, z, Relink(mapping)),
              w, us, t1)
  {
    RelinkOnlyLinks(mapping);
    RestoredIsReplaced(site, f, a, t0, z, Relink(mapping), w, us, counts, t1);
    ProtectedIsKeyed(site.login, w, us, t1);
  }

  lemma ProtectedIsKeyed(login: Login, w: Rows, us: seq<Pk>, t1: Rows)
    requires LoginLaw(login) && Keyed(w) && ProtectAll(login, w, us) == Some(t1)
    ensures Keyed(t1)
  {
    ProtectAllFrame(login, w, us);
    FrameIsKeyed(w, t1);
  }

  /**
   * After any archive whose own-row record fits and then the safety backup: foreign keys hold if and only if no row of the
   * community named a row that the first restore took from outside it, and its meter identities are as sound as before.
   */
  lemma UndoPassesChecks(
      site: Site, f: Format, t0: Rows, z: Pk, fold: string -> string,
      a: Archive, mapping: map<Pk, Option<Pk>>, w: Rows, us: seq<Pk>, counts: map<Model, nat>, t1: Rows, us': seq<Pk>, v: Rows)
    requires Sound(site) && NamesNoCredential(site.schema) && InOrder(site, t0, z, fold)
    requires ZevRestored(site, f, a, t0, z, Relink(mapping), w, us, counts, t1) && UndoProtected(site, t0, t1, z, us', v)
    requires OwnRowFits(t0, z, Relink(mapping)(ZevRow(f, a, z)))
    ensures Whole(site.schema, v) <==>
            NoneNamesLost(site.reg, site.schema, t0, z, ZevLost(site.reg, site.schema, t0, z, Contracts(site.reg, f, a, z)))
    ensures IdentitiesFit(t0, z) ==> IdentitiesFit(v, z)
  {
    RestoredIsPrepared(site, f, t0, z, a, mapping, w, us, counts, t1);
    PreparedPasses(
      site, t0, z, Contracts(site.reg, f, a, z), Relink(mapping)(ZevRow(f, a, z)), RestRows(site.reg, f, a, z, Relink(mapping)),
      w, us, t1, us', v);
  }

  // ---- The shipped schema ----

  lemma OtherTargetIsNoCredential(m: Model, ref: Reference)
    ensures OtherColumn(m, ref).Some? ==> !Credential(OtherColumn(m, ref).value.target)
  {
    EarlyTargetIsNoCredential(m, ref);
    InvoiceTargetIsNoCredential(m, ref);
    ExcludedTargetIsNoCredential(m, ref);
  }

  lemma EarlyTargetIsNoCredential(m: Model, ref: Reference)
    ensures ParticipantColumn(m, ref).Some? ==> !Credential(ParticipantColumn(m, ref).value.target)
    ensures MeterColumn(m, ref).Some? ==> !Credential(MeterColumn(m, ref).value.target)
  {
  }

  lemma InvoiceTargetIsNoCredential(m: Model, ref: Reference)
    ensures InvoiceColumn(m, ref).Some? ==> !Credential(InvoiceColumn(m, ref).value.target)
  {
  }

  lemma ExcludedTargetIsNoCredential(m: Model, ref: Reference)
    ensures ExcludedColumn(m, ref).Some? ==> !Credential(ExcludedColumn(m, ref).value.target)
  {
  }

  lemma RefIsNoCredential(r: Row, a: Action, k: Key)
    requires k in RefsBy(r, a)
    ensures !Credential(k.model)
  {
    if k in OtherRefs(OtherColumns(r.model), r.refs, a) {
      var c :| c in r.refs.Keys && Refers(OtherColumns(r.model), c, a) && Target(OtherColumns(r.model), c, r.refs[c]) == k;
      OtherTargetIsNoCredential(r.model, c);
    } else {
      assert k in ParentRefs(r, a) ==> LookupOf(r.model).Through?;
    }
  }

  lemma ShippedNamesNoCredential()
    ensures NamesNoCredential(SCHEMA)
  {
    forall r, k | k in Refs(SCHEMA, r) ensures !Credential(k.model) {
      if k in RefsBy(r, Cascade) {
        RefIsNoCredential(r, Cascade, k);
      } else if k in RefsBy(r, Guard) {
        RefIsNoCredential(r, Guard, k);
      } else {
        RefIsNoCredential(r, SetNull, k);
      }
    }
  }
}
