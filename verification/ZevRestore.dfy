/** Restoring one community into a running instance, as one transaction. */
module ZevRestore {
  import opened Outcomes
  import opened Lines
  import opened Registry
  import opened Tables
  import opened References
  import opened ForeignKeys
  import opened Sections
  import opened Archive
  import opened Dump
  import opened Build
  import opened Loader
  import opened InstanceRestore
  import opened Accounts
  import opened Logins
  import opened ZevClear

  /** What a running instance brings along: its registry, its schema, and how logins are protected. */
  datatype Site = Site(reg: Registry, schema: Schema, login: Login)

  ghost predicate Sound(site: Site) {
    Suits(site.reg, site.schema) && LoginLaw(site.login)
  }

  // ---- What is loaded ----

  /** The restored sections after the community's own row, in load order. */
  function RestPlan(reg: Registry, z: Pk, n: nat): seq<Section> {
    if n <= 1 then []
    else RestPlan(reg, z, n - 1) + if n - 1 in reg.kept then [] else [ZevSection(z, n - 1)]
  }

  lemma {:induction false} RestPlanLists(reg: Registry, z: Pk, n: nat)
    ensures forall s :: s in RestPlan(reg, z, n) <==> s.ZevSection? && s.zev == z && 1 <= s.i < n && s.i !in reg.kept
    ensures Distinct(RestPlan(reg, z, n))
    decreases n
  {
    if n > 1 {
      RestPlanLists(reg, z, n - 1);
    }
  }

  function AllRest(reg: Registry, z: Pk): seq<Section> {
    RestPlan(reg, z, |reg.zev|)
  }

  /** Everything loaded after the community's own row. */
  function RestRows(reg: Registry, f: Format, a: Archive, z: Pk, transform: Row -> Row): seq<Row> {
    Stream(AllRest(reg, z), Reader(f, a.files, transform))
  }

  /** The issued contracts the backup holds. */
  function Contracts(reg: Registry, f: Format, a: Archive, z: Pk): set<Pk> {
    set r | r in RestRows(reg, f, a, z, Same) && r.model == ContractIssue :: r.pk
  }

  /** The community's section holds one row, of its own model. */
  ghost predicate OneZev(f: Format, a: Archive, z: Pk) {
    var records := Records(f.rows, SectionBytes(a.files, ZevSection(z, 0)));
    |records| == 1 && records[0].Some? && records[0].value.model == Zev
  }

  lemma OneZevContent(f: Format, a: Archive, z: Pk)
    requires OneZev(f, a, z)
    ensures |Content(f, a.files, ZevSection(z, 0))| == 1
    ensures Records(f.rows, SectionBytes(a.files, ZevSection(z, 0))) == [Some(ZevRow(f, a, z))]
  {
    var records := Records(f.rows, SectionBytes(a.files, ZevSection(z, 0)));
    assert records[..0] == [];
    assert Values(records) == Values(records[..0]) + [records[0].value];
  }

  function ZevRow(f: Format, a: Archive, z: Pk): Row {
    var rows := Content(f, a.files, ZevSection(z, 0));
    if rows == [] then Row(Zev, z, None, None, [], map[], map[]) else rows[0]
  }

  /** The tables once the community's own row is written in place and everything else is inserted. */
  function Loading(t: Rows, zev: Row, rest: seq<Row>): Option<Rows> {
    InsertAll(t[KeyOf(zev) := zev], rest)
  }

  function ZevOutcome(site: Site, f: Format, a: Archive, t: Rows, z: Pk, transform: Row -> Row): Option<Rows> {
    Loading(
      ClearedZev(site.reg, site.schema, t, z, Contracts(site.reg, f, a, z)), transform(ZevRow(f, a, z)),
      RestRows(site.reg, f, a, z, transform))
  }

  // ---- Counting the community's rows ----

  /** Every restored model holds as many of the community's rows as were loaded. */
  ghost predicate ZevCountsAgree(reg: Registry, t: Rows, z: Pk, counts: map<Model, nat>) {
    forall m | Restored(reg, m) :: |ScopedKeys(reg, t, z, m)| == Get(counts, m)
  }

  method VerifyCounts(reg: Registry, t: Rows, z: Pk, counts: map<Model, nat>) returns (ok: bool)
    ensures ok <==> ZevCountsAgree(reg, t, z, counts)
  {
    for i := 0 to |reg.zev|
      invariant forall j: nat, b: nat, m | At(reg.zev, j, b, m) && j < i && j !in reg.kept ::
                  |ScopedKeys(reg, t, z, m)| == Get(counts, m)
    {
      if i in reg.kept {
        continue;
      }
      for a := 0 to |reg.zev[i]|
        invariant forall b: nat, m | At(reg.zev, i, b, m) && b < a :: |ScopedKeys(reg, t, z, m)| == Get(counts, m)
      {
        var m := reg.zev[i][a];
        if |ScopedKeys(reg, t, z, m)| != Get(counts, m) {
          assert At(reg.zev, i, a, m);
          return false;
        }
      }
    }
    ok := true;
  }

  // ---- Loading ----

  /** Replace the community's own row in place: update it if it exists, insert it if not. */
  method LoadZevRow(db: Database, records: seq<Option<Row>>, transform: Row -> Row) returns (error: Option<RestoreError>)
    modifies db
    ensures error.None? <==> |records| == 1 && records[0].Some? && records[0].value.model == Zev
    ensures error.None? ==>
              db.rows == old(db.rows)[KeyOf(transform(records[0].value)) := transform(records[0].value)]
  {
    for i := 0 to |records|
      invariant forall j | 0 <= j < i :: records[j].Some? && records[j].value.model == Zev
      invariant i == 0 ==> db.rows == old(db.rows)
      invariant i == 1 ==> db.rows == old(db.rows)[KeyOf(transform(records[0].value)) := transform(records[0].value)]
    {
      if records[i].None? {
        return Some(Unreadable);
      }
      if records[i].value.model != Zev {
        return Some(Misplaced);
      }
      var row := transform(records[i].value);
      db.rows := db.rows[KeyOf(row) := row];
    }
    error := if |records| == 1 then None else Some(CountMismatch);
  }

  /** The community's own row, then every other restored section, with accounts relinked. */
  method Apply(db: Database, reg: Registry, f: Format, a: Archive, z: Pk, transform: Row -> Row)
    returns (r: Result<map<Model, nat>, RestoreError>, referenced: set<string>)
    requires forall s | s in AllRest(reg, z) :: InRange(reg, s) && SectionFile(s) in a.manifest.members
    requires KeepsModel(transform)
    modifies db
    ensures r.Ok? <==> && OneZev(f, a, z) && AllAcceptable(reg, f, a, AllRest(reg, z))
                       && Loading(old(db.rows), transform(ZevRow(f, a, z)), RestRows(reg, f, a, z, transform)).Some?
    ensures r.Ok? ==> Loading(old(db.rows), transform(ZevRow(f, a, z)), RestRows(reg, f, a, z, transform)) == Some(db.rows)
    ensures r.Ok? ==> forall m ::
              Get(r.value, m) == if m == Zev then 1 else Get(Tally(RestRows(reg, f, a, z, transform)), m)
    ensures r.Ok? ==> referenced == MediaNames(RestRows(reg, f, a, z, transform))
  {
    referenced := {};
    var error := LoadZevRow(db, Records(f.rows, SectionBytes(a.files, ZevSection(z, 0))), transform);
    if error.Some? {
      return Err(error.value), referenced;
    }
    OneZevContent(f, a, z);
    r, referenced := LoadAll(db, reg, f, a, AllRest(reg, z), true, transform);
    if r.Ok? {
      r := Ok(r.value[Zev := 1]);
    }
  }

  // ---- One transaction ----

  /** A row of an account is the same in both. */
  ghost predicate SameUsers(t: Rows, v: Rows) {
    forall k: Key | k.model == User :: (k in t <==> k in v) && (k in t ==> t[k] == v[k])
  }

  lemma SameCandidates(ref: AccountRef, t: Rows, v: Rows, fold: string -> string)
    requires SameUsers(t, v)
    ensures Candidates(ref, t, fold) == Candidates(ref, v, fold)
  {
    assert ByEmail(t, fold, ref.email) == ByEmail(v, fold, ref.email);
    assert ByUsername(t, ref.username) == ByUsername(v, ref.username);
  }

  lemma SameMapping(refs: seq<AccountRef>, t: Rows, v: Rows, fold: string -> string, mapping: map<Pk, Option<Pk>>)
    requires SameUsers(t, v) && IsMapping(refs, t, fold, mapping)
    ensures IsMapping(refs, v, fold, mapping)
  {
    forall i: nat | Decides(refs, i) && refs[i].id in mapping ensures Resolves(refs[i], v, fold, mapping[refs[i].id]) {
      SameCandidates(refs[i], t, v, fold);
    }
  }

  lemma ClearingKeepsUsers(reg: Registry, s: Schema, t: Rows, z: Pk, contracts: set<Pk>)
    requires Suits(reg, s) && Keyed(t)
    ensures SameUsers(t, ClearedZev(reg, s, t, z, contracts))
  {
    forall k | k in Targets(reg, t, z, contracts) ensures !Stays(reg, k.model) {
      TargetsDoNotStay(reg, s, t, z, contracts, k);
    }
    UserStays(reg);
    forall k: Key | k.model == User ensures SameAt(t, ClearedZev(reg, s, t, z, contracts), k) {
      StayingIsUntouched(reg, s, t, Targets(reg, t, z, contracts), k);
    }
  }

  ghost predicate LoadedCount(counts: map<Model, nat>, rest: seq<Row>) {
    forall m :: Get(counts, m) == if m == Zev then 1 else Get(Tally(rest), m)
  }

  /** The archive's account list reads, and every reference in it is resolved among today's accounts. */
  ghost predicate Resolved(f: Format, a: Archive, t: Rows, z: Pk, fold: string -> string, mapping: map<Pk, Option<Pk>>) {
    && AccountRefs(z) in a.files && f.refs.decode(a.files[AccountRefs(z)]).Some?
    && IsMapping(f.refs.decode(a.files[AccountRefs(z)]).value, t, fold, mapping)
  }

  /** The community is cleared and loaded from tables `t`, which gives `w`. */
  ghost predicate ZevLoaded(site: Site, f: Format, a: Archive, t: Rows, z: Pk, transform: Row -> Row, w: Rows) {
    && OneZev(f, a, z) && AllAcceptable(site.reg, f, a, AllRest(site.reg, z))
    && ZevClearAllowed(site.reg, site.schema, t, z, Contracts(site.reg, f, a, z))
    && ZevOutcome(site, f, a, t, z, transform) == Some(w)
  }

  /**
   * A restore of a community that went through: loaded from tables `t` into `w`, the logins of the accounts it made
   * managers protected, which gives `v`, and its rows counted there.
   */
  ghost predicate ZevRestored(
      site: Site, f: Format, a: Archive, t: Rows, z: Pk, transform: Row -> Row, w: Rows, us: seq<Pk>, counts: map<Model, nat>, v: Rows)
  {
    && ZevLoaded(site, f, a, t, z, transform, w)
    && Managers(w, z, us) && ProtectAll(site.login, w, us) == Some(v)
    && LoadedCount(counts, RestRows(site.reg, f, a, z, transform)) && ZevCountsAgree(site.reg, v, z, counts)
  }

  /** Clear the community, resolve the accounts, and load. */
  method Replace(db: Database, site: Site, f: Format, a: Archive, z: Pk, fold: string -> string, refs: seq<AccountRef>)
    returns (r: Result<map<Model, nat>, RestoreError>, referenced: set<string>, mapping: map<Pk, Option<Pk>>)
    requires Sound(site) && Keyed(db.rows)
    requires forall s | s in AllRest(site.reg, z) :: InRange(site.reg, s) && SectionFile(s) in a.manifest.members
    modifies db
    ensures r.Ok? ==> IsMapping(refs, old(db.rows), fold, mapping)
    ensures r.Ok? ==> ZevLoaded(site, f, a, old(db.rows), z, Relink(mapping), db.rows)
    ensures r.Ok? ==> LoadedCount(r.value, RestRows(site.reg, f, a, z, Relink(mapping)))
    ensures r.Ok? ==> referenced == MediaNames(RestRows(site.reg, f, a, z, Relink(mapping)))
    ensures r.Err? ==>
              || !ZevClearAllowed(site.reg, site.schema, old(db.rows), z, Contracts(site.reg, f, a, z))
              || (IsMapping(refs, old(db.rows), fold, mapping) &&
                  !exists w :: ZevLoaded(site, f, a, old(db.rows), z, Relink(mapping), w))
  {
    ghost var before := db.rows;
    mapping, referenced := map[], {};
    var cleared := ClearZev(db, site.reg, site.schema, z, Contracts(site.reg, f, a, z));
    if !cleared {
      return Err(Rejected), referenced, mapping;
    }
    ClearingKeepsUsers(site.reg, site.schema, before, z, Contracts(site.reg, f, a, z));
    var missing;
    mapping, missing := ResolveAccounts(refs, db.rows, fold);
    SameMapping(refs, db.rows, before, fold, mapping);
    r, referenced := Apply(db, site.reg, f, a, z, Relink(mapping));
  }

  /** Protect the logins of the accounts the restore made managers. */
  method ProtectAccounts(db: Database, login: Login, z: Pk) returns (ok: bool, us: seq<Pk>)
    modifies db
    ensures Managers(old(db.rows), z, us)
    ensures ok <==> ProtectAll(login, old(db.rows), us).Some?
    ensures ok ==> ProtectAll(login, old(db.rows), us) == Some(db.rows)
  {
    us := ListAccountIds(NewlyManaging(db.rows, z));
    assert us[..|us|] == us;
    for i := 0 to |us|
      invariant ProtectAll(login, old(db.rows), us[..i]) == Some(db.rows)
    {
      TakeStep(us, i);
      var after := login.protect(db.rows, us[i]);
      if after.None? {
        ProtectionFails(login, old(db.rows), us, i + 1);
        return false, us;
      }
      db.rows := after.value;
    }
    ok := true;
  }

  lemma {:induction false} ProtectionFails(login: Login, t: Rows, us: seq<Pk>, n: nat)
    requires n <= |us| && ProtectAll(login, t, us[..n]).None?
    ensures ProtectAll(login, t, us).None?
    decreases |us|
  {
    if n < |us| {
      var k := |us| - 1;
      assert us[..k][..n] == us[..n];
      ProtectionFails(login, t, us[..k], n);
    } else {
      assert us[..n] == us;
    }
  }

  /** Protect the logins, then check the tables that result. */
  method ProtectAndCheck(
      db: Database, site: Site, z: Pk, counts: map<Model, nat>, admissible: Rows -> bool)
    returns (error: Option<RestoreError>, us: seq<Pk>)
    modifies db
    ensures error.None? ==> Managers(old(db.rows), z, us) && ProtectAll(site.login, old(db.rows), us) == Some(db.rows)
    ensures error.None? ==> ZevCountsAgree(site.reg, db.rows, z, counts) && admissible(db.rows)
  {
    var ok;
    ok, us := ProtectAccounts(db, site.login, z);
    if !ok {
      return Some(Rejected), us;
    }
    var agree := VerifyCounts(site.reg, db.rows, z, counts);
    error := if !agree then Some(CountMismatch) else if !admissible(db.rows) then Some(Rejected) else None;
  }

  method ReplaceAndProtect(
      db: Database, site: Site, f: Format, a: Archive, z: Pk, fold: string -> string, refs: seq<AccountRef>,
      admissible: Rows -> bool)
    returns (r: Result<map<Model, nat>, RestoreError>, referenced: set<string>, mapping: map<Pk, Option<Pk>>, ghost w: Rows, us: seq<Pk>)
    requires Sound(site) && Keyed(db.rows)
    requires forall s | s in AllRest(site.reg, z) :: InRange(site.reg, s) && SectionFile(s) in a.manifest.members
    modifies db
    ensures r.Ok? ==> IsMapping(refs, old(db.rows), fold, mapping) && admissible(db.rows)
    ensures r.Ok? ==> ZevRestored(site, f, a, old(db.rows), z, Relink(mapping), w, us, r.value, db.rows)
    ensures r.Ok? ==> referenced == MediaNames(RestRows(site.reg, f, a, z, Relink(mapping)))
  {
    us := [];
    r, referenced, mapping := Replace(db, site, f, a, z, fold, refs);
    w := db.rows;
    if r.Ok? {
      var error;
      error, us := ProtectAndCheck(db, site, z, r.value, admissible);
      if error.Some? {
        r := Err(error.value);
      }
    }
  }

  /** A restore of a community that went through, with the accounts its backup names resolved among today's. */
  ghost predicate Committed(
      site: Site, f: Format, a: Archive, t: Rows, z: Pk, fold: string -> string, admissible: Rows -> bool,
      mapping: map<Pk, Option<Pk>>, w: Rows, us: seq<Pk>, counts: map<Model, nat>, v: Rows)
  {
    && Resolved(f, a, t, z, fold, mapping) && admissible(v)
    && ZevRestored(site, f, a, t, z, Relink(mapping), w, us, counts, v)
  }

  /**
   * Restore a community in one transaction. `admissible` stands for the checks on the resulting tables that are not
   * modelled: meter identities and database constraints.
   */
  method RestoreZevRows(db: Database, site: Site, f: Format, a: Archive, z: Pk, fold: string -> string, admissible: Rows -> bool)
    returns (r: Result<map<Model, nat>, RestoreError>, referenced: set<string>, mapping: map<Pk, Option<Pk>>, ghost w: Rows, us: seq<Pk>)
    requires Sound(site) && Keyed(db.rows)
    requires forall s | s in AllRest(site.reg, z) :: InRange(site.reg, s) && SectionFile(s) in a.manifest.members
    requires AccountRefs(z) in a.files
    modifies db
    ensures r.Err? ==> db.rows == old(db.rows)
    ensures r.Ok? ==> Committed(site, f, a, old(db.rows), z, fold, admissible, mapping, w, us, r.value, db.rows)
    ensures r.Ok? ==> referenced == MediaNames(RestRows(site.reg, f, a, z, Relink(mapping)))
  {
    var before := db.rows;
    w, mapping, referenced, us := db.rows, map[], {}, [];
    var refs := f.refs.decode(a.files[AccountRefs(z)]);
    if refs.None? {
      r := Err(Unreadable);
      return;
    }
    r, referenced, mapping, w, us := ReplaceAndProtect(db, site, f, a, z, fold, refs.value, admissible);
    if r.Err? {
      db.rows := before;
    }
  }
}
