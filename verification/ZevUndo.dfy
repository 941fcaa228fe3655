/** Restoring the safety backup gives the community back. */
module ZevUndo {
  import opened Outcomes
  import opened Lines
  import opened Registry
  import opened Tables
  import opened References
  import opened ForeignKeys
  import opened Sections
  import opened Archive
  import opened Dump
  import opened Build
  import opened Verify
  import opened Loader
  import opened InstanceRestore
  import opened InstanceLaws
  import opened Accounts
  import opened Logins
  import opened ZevClear
  import opened ZevRestore
  import opened ZevLaws

  /** Exactly the community's restored rows, each once. */
  ghost predicate ListsOurs(reg: Registry, t: Rows, z: Pk, rest: seq<Row>) {
    && DistinctKeys(rest)
    && (forall r :: r in rest <==> Ours(reg, t, z, KeyOf(r)) && t[KeyOf(r)] == r)
  }

  // ---- What the safety backup holds ----

  lemma OwnRowAlone(reg: Registry, t: Rows, z: Pk, rows: seq<Row>)
    requires WellFormed(reg) && Keyed(t) && Key(Zev, z) in t && Lists(rows, SectionRows(reg, t, ZevSection(z, 0)))
    ensures rows == [t[Key(Zev, z)]]
  {
    var s, own := ZevSection(z, 0), t[Key(Zev, z)];
    assert own in SectionRows(reg, t, s);
    forall r | r in rows ensures r == own {
      assert r in SectionRows(reg, t, s);
    }
    assert own in rows;
    if |rows| > 1 { SecondRow(rows, own); }
  }

  lemma SecondRow(rows: seq<Row>, own: Row)
    requires |rows| > 1 && forall i, j | 0 <= i < j < |rows| :: rows[i] != rows[j]
    ensures exists r :: r in rows && r != own
  {
    assert rows[0] in rows && rows[1] in rows;
    assert rows[0] != rows[1];
  }

  lemma SingleRecord(f: Format, b: Archive, z: Pk, own: Row)
    requires Readable(f, b.files, ZevSection(z, 0)) && Content(f, b.files, ZevSection(z, 0)) == [own] && own.model == Zev
    ensures OneZev(f, b, z) && ZevRow(f, b, z) == own
  {
    assert Records(f.rows, SectionBytes(b.files, ZevSection(z, 0)))[0] == Some(own);
  }

  lemma BackupZevRow(reg: Registry, f: Format, t: Rows, storage: Storage, b: Archive, z: Pk)
    requires WellFormed(reg) && Keyed(t) && Built(reg, f, t, storage, b) && z in b.manifest.zevs && Key(Zev, z) in t
    ensures OneZev(f, b, z) && ZevRow(f, b, z) == t[Key(Zev, z)]
  {
    PlannedIsWritten(reg, f, t, storage, b, ZevSection(z, 0));
    OwnRowAlone(reg, t, z, Content(f, b.files, ZevSection(z, 0)));
    SingleRecord(f, b, z, t[Key(Zev, z)]);
  }

  lemma BackupSection(reg: Registry, f: Format, t: Rows, storage: Storage, b: Archive, z: Pk, s: Section)
    requires WellFormed(reg) && Built(reg, f, t, storage, b) && z in b.manifest.zevs && s in AllRest(reg, z)
    ensures InRange(reg, s) && SectionAcceptable(reg, f, b, s)
    ensures Lists(Reader(f, b.files, Same)(s), SectionRows(reg, t, s))
  {
    RestPlanLists(reg, z, |reg.zev|);
    PlannedIsWritten(reg, f, t, storage, b, s);
    WrittenIsAcceptable(reg, f, t, b, s);
    MappedSame(Content(f, b.files, s));
  }

  lemma OursHasSection(reg: Registry, t: Rows, z: Pk, r: Row) returns (s: Section)
    requires WellFormed(reg) && Keyed(t) && Ours(reg, t, z, KeyOf(r)) && t[KeyOf(r)] == r
    ensures s in AllRest(reg, z) && InRange(reg, s) && r in SectionRows(reg, t, s)
  {
    RestPlanLists(reg, z, |reg.zev|);
    var i: nat, a: nat :| At(reg.zev, i, a, r.model) && i !in reg.kept;
    s := ZevSection(z, i);
  }

  /** A row is in some restored section of the community exactly when it is one of its restored rows. */
  lemma OursIsPlanned(reg: Registry, t: Rows, z: Pk, r: Row)
    requires WellFormed(reg) && Keyed(t)
    ensures (exists s :: s in AllRest(reg, z) && InRange(reg, s) && r in SectionRows(reg, t, s)) <==>
            Ours(reg, t, z, KeyOf(r)) && t[KeyOf(r)] == r
  {
    if Ours(reg, t, z, KeyOf(r)) && t[KeyOf(r)] == r {
      var s := OursHasSection(reg, t, z, r);
    }
    forall s | s in AllRest(reg, z) && InRange(reg, s) && r in SectionRows(reg, t, s)
      ensures Ours(reg, t, z, KeyOf(r)) && t[KeyOf(r)] == r
    {
      RestPlanLists(reg, z, |reg.zev|);
      SectionIsRestored(reg, z, s, r.model);
    }
  }

  lemma BackupRest(reg: Registry, f: Format, t: Rows, storage: Storage, b: Archive, z: Pk)
    requires WellFormed(reg) && Keyed(t) && Built(reg, f, t, storage, b) && z in b.manifest.zevs
    ensures AllAcceptable(reg, f, b, AllRest(reg, z))
    ensures ListsOurs(reg, t, z, RestRows(reg, f, b, z, Same))
  {
    var plan, content := AllRest(reg, z), Reader(f, b.files, Same);
    RestPlanLists(reg, z, |reg.zev|);
    forall s | s in plan
      ensures InRange(reg, s) && SectionAcceptable(reg, f, b, s) && Lists(content(s), SectionRows(reg, t, s))
    {
      BackupSection(reg, f, t, storage, b, z, s);
    }
    StreamLists(reg, t, plan, content);
    ListedOurs(reg, t, z, Stream(plan, content));
  }

  lemma ListedOurs(reg: Registry, t: Rows, z: Pk, rest: seq<Row>)
    requires WellFormed(reg) && Keyed(t) && forall s | s in AllRest(reg, z) :: InRange(reg, s)
    requires Lists(rest, PlannedRows(reg, t, AllRest(reg, z)))
    ensures ListsOurs(reg, t, z, rest)
  {
    forall r ensures r in rest <==> Ours(reg, t, z, KeyOf(r)) && t[KeyOf(r)] == r {
      PlannedRowsIff(reg, t, AllRest(reg, z), r);
      OursIsPlanned(reg, t, z, r);
    }
    forall i, j | 0 <= i < j < |rest| ensures KeyOf(rest[i]) != KeyOf(rest[j]) {
      assert rest[i] in rest && rest[j] in rest;
    }
  }

  lemma MappedAppend(transform: Row -> Row, a: seq<Row>, b: seq<Row>)
    ensures Mapped(transform, a + b) == Mapped(transform, a) + Mapped(transform, b)
  {
  }

  lemma {:induction false} StreamMapped(plan: seq<Section>, f: Format, files: Files, transform: Row -> Row)
    ensures Stream(plan, Reader(f, files, transform)) == Mapped(transform, Stream(plan, Reader(f, files, Same)))
    decreases |plan|
  {
    if plan != [] {
      var n := |plan| - 1;
      StreamMapped(plan[..n], f, files, transform);
      MappedSame(Content(f, files, plan[n]));
      MappedAppend(transform, Stream(plan[..n], Reader(f, files, Same)), Content(f, files, plan[n]));
    }
  }

  // ---- What comes back ----

  /** A later restore of these rows over any tables brings back exactly these rows, relinked. */
  lemma ComesBack(
      reg: Registry, s: Schema, t0: Rows, rest: seq<Row>, transform: Row -> Row, t1: Rows, z: Pk, contracts: set<Pk>, zev: Row,
      w: Rows, k: Key)
    requires Suits(reg, s) && Keyed(t0) && Keyed(t1) && Whole(s, t1) && OnlyLinks(transform) && ListsOurs(reg, t0, z, rest)
    requires Replaced(reg, s, t1, z, contracts, zev, Mapped(transform, rest), w)
    ensures BackAt(reg, t0, w, z, transform, k)
  {
    SurvivorsStay(reg, s, t1, z, contracts, zev, Mapped(transform, rest), w);
    if Ours(reg, w, z, k) {
      OursAreInserted(reg, s, t1, z, contracts, zev, Mapped(transform, rest), w, k);
      var x := MappedElement(transform, rest, w[k]);
      assert KeyOf(x) == k;
    }
    if Ours(reg, t0, z, k) {
      OursComesBack(reg, s, t0, rest, transform, t1, z, contracts, zev, w, k);
    }
  }

  lemma OursComesBack(
      reg: Registry, s: Schema, t0: Rows, rest: seq<Row>, transform: Row -> Row, t1: Rows, z: Pk, contracts: set<Pk>, zev: Row,
      w: Rows, k: Key)
    requires Suits(reg, s) && Keyed(t0) && Keyed(t1) && Whole(s, t1) && OnlyLinks(transform) && ListsOurs(reg, t0, z, rest)
    requires Replaced(reg, s, t1, z, contracts, zev, Mapped(transform, rest), w) && Ours(reg, t0, z, k)
    ensures Ours(reg, w, z, k) && w[k] == transform(t0[k])
  {
    SurvivorsStay(reg, s, t1, z, contracts, zev, Mapped(transform, rest), w);
    assert t0[k] in rest;
    MappedHas(transform, rest, t0[k]);
    assert KeyOf(transform(t0[k])) == k;
    LoadedRowsBelong(reg, s, t1, z, contracts, zev, Mapped(transform, rest), w, k);
  }

  lemma MappedHas(transform: Row -> Row, rs: seq<Row>, r: Row)
    requires r in rs
    ensures transform(r) in Mapped(transform, rs)
  {
    var i :| 0 <= i < |rs| && rs[i] == r;
    assert Mapped(transform, rs)[i] == transform(r);
  }

  /** The community is as it was: its own row and every restored row. */
  ghost predicate SameCommunity(reg: Registry, t0: Rows, v: Rows, z: Pk) {
    && Key(Zev, z) in t0 && SameAt(t0, v, Key(Zev, z))
    && (forall k :: Ours(reg, v, z, k) <==> Ours(reg, t0, z, k))
    && (forall k | Ours(reg, t0, z, k) && k in v :: v[k] == t0[k])
  }

  /** A row whose links matter: restored with the community. */
  ghost predicate Returned(reg: Registry, t: Rows, z: Pk, k: Key) {
    k in t && (Ours(reg, t, z, k) || k == Key(Zev, z))
  }

  /** The community comes back as it was exactly when relinking leaves each of its rows alone. */
  lemma GivenBackIff(
      site: Site, f: Format, t0: Rows, storage: Storage, b: Archive, t1: Rows, z: Pk, mapping: map<Pk, Option<Pk>>, w: Rows,
      us: seq<Pk>, counts: map<Model, nat>, v: Rows)
    requires Sound(site) && Keyed(t0) && Built(site.reg, f, t0, storage, b) && z in b.manifest.zevs && Key(Zev, z) in t0
    requires Keyed(t1) && Whole(site.schema, t1) && ZevRestored(site, f, b, t1, z, Relink(mapping), w, us, counts, v)
    ensures SameCommunity(site.reg, t0, w, z) <==> forall k | Returned(site.reg, t0, z, k) :: FixesLinks(mapping, t0[k])
  {
    var rest := RestRows(site.reg, f, b, z, Same);
    RelinkOnlyLinks(mapping);
    BackupZevRow(site.reg, f, t0, storage, b, z);
    BackupRest(site.reg, f, t0, storage, b, z);
    StreamMapped(AllRest(site.reg, z), f, b.files, Relink(mapping));
    RestoredIsReplaced(site, f, b, t1, z, Relink(mapping), w, us, counts, v);
    ReplacedGivesBackIff(site.reg, site.schema, t0, rest, mapping, t1, z, Contracts(site.reg, f, b, z), w);
  }

  lemma ReplacedGivesBackIff(
      reg: Registry, s: Schema, t0: Rows, rest: seq<Row>, mapping: map<Pk, Option<Pk>>, t1: Rows, z: Pk, contracts: set<Pk>,
      w: Rows)
    requires Suits(reg, s) && Keyed(t0) && Key(Zev, z) in t0 && Keyed(t1) && Whole(s, t1) && ListsOurs(reg, t0, z, rest)
    requires Replaced(reg, s, t1, z, contracts, Relink(mapping)(t0[Key(Zev, z)]), Mapped(Relink(mapping), rest), w)
    ensures SameCommunity(reg, t0, w, z) <==> forall k | Returned(reg, t0, z, k) :: FixesLinks(mapping, t0[k])
  {
    var own := Key(Zev, z);
    RelinkOnlyLinks(mapping);
    SurvivorsStay(reg, s, t1, z, contracts, Relink(mapping)(t0[own]), Mapped(Relink(mapping), rest), w);
    forall k ensures BackAt(reg, t0, w, z, Relink(mapping), k) {
      ComesBack(reg, s, t0, rest, Relink(mapping), t1, z, contracts, Relink(mapping)(t0[own]), w, k);
    }
    BackIff(reg, t0, w, z, mapping);
  }

  ghost predicate BackAt(reg: Registry, t0: Rows, v: Rows, z: Pk, transform: Row -> Row, k: Key) {
    (Ours(reg, v, z, k) <==> Ours(reg, t0, z, k)) && (Ours(reg, t0, z, k) ==> k in v && v[k] == transform(t0[k]))
  }

  lemma BackIff(reg: Registry, t0: Rows, v: Rows, z: Pk, mapping: map<Pk, Option<Pk>>)
    requires Key(Zev, z) in t0 && Key(Zev, z) in v && v[Key(Zev, z)] == Relink(mapping)(t0[Key(Zev, z)])
    requires forall k :: BackAt(reg, t0, v, z, Relink(mapping), k)
    ensures SameCommunity(reg, t0, v, z) <==> forall k | Returned(reg, t0, z, k) :: FixesLinks(mapping, t0[k])
  {
    forall k | Returned(reg, t0, z, k) ensures k in v && (v[k] == t0[k] <==> FixesLinks(mapping, t0[k])) {
      assert BackAt(reg, t0, v, z, Relink(mapping), k);
      RelinkIsIdentityIff(mapping, t0[k]);
    }
    forall k ensures Ours(reg, v, z, k) <==> Ours(reg, t0, z, k) {
      assert BackAt(reg, t0, v, z, Relink(mapping), k);
    }
    if SameCommunity(reg, t0, v, z) {
      forall k | Returned(reg, t0, z, k) ensures FixesLinks(mapping, t0[k]) {}
    } else {
      assert SameAt(t0, v, Key(Zev, z)) <==> v[Key(Zev, z)] == t0[Key(Zev, z)];
      assert Returned(reg, t0, z, Key(Zev, z));
    }
  }

  // ---- Which accounts keep their links ----

  lemma NamedIsReferenced(reg: Registry, t: Rows, z: Pk, k: Key, u: Pk)
    requires WellFormed(reg) && Keyed(t) && Returned(reg, t, z, k) && u in Linked(t[k].users)
    ensures u in ReferencedIds(reg, t, z)
  {
    var plan := ZevPlan(reg, z, |reg.zev|);
    ZevPlanSections(reg, z);
    assert Restored(reg, k.model) by { assert At(reg.zev, 0, 0, Zev); }
    var i: nat, a: nat :| At(reg.zev, i, a, k.model) && i !in reg.kept;
    var s := ZevSection(z, i);
    assert s in plan && t[k] in SectionRows(reg, t, s);
    PlannedRowsIff(reg, t, plan, t[k]);
  }

  /** The account was there when the backup was taken, and still answers to the reference taken of it. */
  ghost predicate Answers(t0: Rows, t1: Rows, fold: string -> string, u: Pk) {
    Key(User, u) in t0 && StillAnswers(RefTo(t0[Key(User, u)]), t1, fold, u)
  }

  /** A referenced account is linked to itself exactly when it was there and still answers to its reference. */
  lemma LinkKeptIff(
      t0: Rows, ids: set<Pk>, refs: seq<AccountRef>, t1: Rows, fold: string -> string, mapping: map<Pk, Option<Pk>>, u: Pk)
    requires Keyed(t0) && u in ids && RefsOf(t0, ids, refs) && IsMapping(refs, t1, fold, mapping)
    requires AccountsUnique(t1, fold) && FoldKeepsEmpty(fold)
    ensures Fixed(mapping, u) <==> Answers(t0, t1, fold, u)
  {
    if Key(User, u) in t0 {
      var ref := RefTo(t0[Key(User, u)]);
      assert IsRef(t0, ids, ref);
      var i: nat :| i < |refs| && refs[i] == ref;
      assert Decides(refs, i);
      assert Resolves(ref, t1, fold, mapping[u]);
      ResolvesIff(ref, t1, fold, u);
      SingletonSize(u);
    }
    if u in mapping {
      MappedExisted(t0, ids, refs, t1, fold, mapping, u);
    }
  }

  lemma MappedExisted(
      t0: Rows, ids: set<Pk>, refs: seq<AccountRef>, t1: Rows, fold: string -> string, mapping: map<Pk, Option<Pk>>, u: Pk)
    requires RefsOf(t0, ids, refs) && IsMapping(refs, t1, fold, mapping) && u in mapping
    ensures Key(User, u) in t0
  {
    var i :| 0 <= i < |refs| && refs[i].id == u;
    assert refs[i] in refs;
    assert IsRef(t0, ids, refs[i]);
  }

  lemma SingletonSize(u: Pk)
    ensures |{u}| == 1
  {
  }

  /** Every account the community's restored rows name still answers to the reference the backup took of it. */
  ghost predicate AccountsAnswer(reg: Registry, t0: Rows, t1: Rows, z: Pk, fold: string -> string) {
    forall k, u | Returned(reg, t0, z, k) && u in Linked(t0[k].users) :: Answers(t0, t1, fold, u)
  }

  /**
   * Restoring the safety backup, over whatever the tables have become, gives the community back as it was exactly when
   * every account it names still answers to its email, or to its username if nobody has that email. Protecting logins
   * afterwards writes rows of the accounts it made managers only; without such accounts nothing is written.
   */
  lemma SafetyBackupGivesBack(
      site: Site, f: Format, t0: Rows, storage: Storage, b: Archive, t1: Rows, z: Pk, fold: string -> string,
      mapping: map<Pk, Option<Pk>>, w: Rows, us: seq<Pk>, counts: map<Model, nat>, v: Rows)
    requires Sound(site) && Keyed(t0) && Built(site.reg, f, t0, storage, b) && z in b.manifest.zevs && Key(Zev, z) in t0
    requires Keyed(t1) && Whole(site.schema, t1) && AccountsUnique(t1, fold) && FoldKeepsEmpty(fold)
    requires Resolved(f, b, t1, z, fold, mapping) && ZevRestored(site, f, b, t1, z, Relink(mapping), w, us, counts, v)
    ensures SameCommunity(site.reg, t0, w, z) <==> AccountsAnswer(site.reg, t0, t1, z, fold)
    ensures forall k | !OfAccounts(w, us, k) :: SameAt(w, v, k)
    ensures v == w <==> NewlyManaging(w, z) == {}
  {
    GivenBackIff(site, f, t0, storage, b, t1, z, mapping, w, us, counts, v);
    assert HoldsZev(site.reg, f, t0, storage, b.files, b.manifest.members, b.manifest.counts, z);
    FixesIff(site.reg, f, t0, b.files, t1, z, fold, mapping);
    ProtectAllFrame(site.login, w, us);
    NothingWrittenIff(site.login, w, z, us);
  }

  lemma LinkFixedIff(
      reg: Registry, f: Format, t0: Rows, files: Files, t1: Rows, z: Pk, fold: string -> string,
      mapping: map<Pk, Option<Pk>>, k: Key, u: Pk)
    requires WellFormed(reg) && Keyed(t0) && HoldsRefs(reg, f, t0, files, z)
    requires AccountsUnique(t1, fold) && FoldKeepsEmpty(fold)
    requires IsMapping(f.refs.decode(files[AccountRefs(z)]).value, t1, fold, mapping)
    requires Returned(reg, t0, z, k) && u in Linked(t0[k].users)
    ensures Fixed(mapping, u) <==> Answers(t0, t1, fold, u)
  {
    NamedIsReferenced(reg, t0, z, k, u);
    LinkKeptIff(t0, ReferencedIds(reg, t0, z), f.refs.decode(files[AccountRefs(z)]).value, t1, fold, mapping, u);
  }

  lemma FixesIff(
      reg: Registry, f: Format, t0: Rows, files: Files, t1: Rows, z: Pk, fold: string -> string,
      mapping: map<Pk, Option<Pk>>)
    requires WellFormed(reg) && Keyed(t0) && HoldsRefs(reg, f, t0, files, z)
    requires AccountsUnique(t1, fold) && FoldKeepsEmpty(fold)
    requires IsMapping(f.refs.decode(files[AccountRefs(z)]).value, t1, fold, mapping)
    ensures (forall k | Returned(reg, t0, z, k) :: FixesLinks(mapping, t0[k])) <==> AccountsAnswer(reg, t0, t1, z, fold)
  {
    forall k, u | Returned(reg, t0, z, k) && u in Linked(t0[k].users)
      ensures Fixed(mapping, u) <==> Answers(t0, t1, fold, u)
    {
      LinkFixedIff(reg, f, t0, files, t1, z, fold, mapping, k, u);
    }
    RestateLinks(reg, t0, t1, z, fold, mapping);
  }

  lemma RestateLinks(reg: Registry, t0: Rows, t1: Rows, z: Pk, fold: string -> string, mapping: map<Pk, Option<Pk>>)
    requires forall k, u | Returned(reg, t0, z, k) && u in Linked(t0[k].users) :: Fixed(mapping, u) <==> Answers(t0, t1, fold, u)
    ensures (forall k | Returned(reg, t0, z, k) :: FixesLinks(mapping, t0[k])) <==> AccountsAnswer(reg, t0, t1, z, fold)
  {
    if forall k | Returned(reg, t0, z, k) :: FixesLinks(mapping, t0[k]) {
      forall k, u | Returned(reg, t0, z, k) && u in Linked(t0[k].users) ensures Answers(t0, t1, fold, u) {
        assert FixesLinks(mapping, t0[k]);
      }
    }
  }
}
