/** Removing one community's rows, dependants first, without its own row, its audit trail or its access grants. */
module ZevClear {
  import opened Outcomes
  import opened Registry
  import opened Tables
  import opened References
  import opened ForeignKeys
  import opened Sections
  import opened Loader
  import opened InstanceRestore

  // ---- The order of clearing ----

  /** The sections a per-community restore replaces, the community's own row apart. */
  function RestoredSections(reg: Registry): seq<seq<Model>> {
    seq(|reg.zev|, (i: nat) requires i < |reg.zev| => if i == 0 || i in reg.kept then [] else reg.zev[i])
  }

  /** Their models, last to first. */
  function ZevOrder(reg: Registry): seq<Model> {
    Reversed(Concat(RestoredSections(reg)))
  }

  lemma RestoredAt(reg: Registry, i: nat, a: nat, m: Model)
    requires WellFormed(reg)
    ensures At(RestoredSections(reg), i, a, m) <==> At(reg.zev, i, a, m) && i != 0 && i !in reg.kept
  {
  }

  lemma RestoredListed(reg: Registry, m: Model)
    requires WellFormed(reg)
    ensures Listed(RestoredSections(reg), m) <==> Restored(reg, m) && m != Zev
  {
    if Listed(RestoredSections(reg), m) {
      var i: nat, a: nat :| At(RestoredSections(reg), i, a, m);
      RestoredAt(reg, i, a, m);
      assert At(reg.zev, 0, 0, Zev);
    }
    if Restored(reg, m) && m != Zev {
      var i: nat, a: nat :| At(reg.zev, i, a, m) && i !in reg.kept;
      RestoredAt(reg, i, a, m);
      assert At(RestoredSections(reg), i, a, m);
    }
  }

  lemma RestoredOneHome(reg: Registry)
    requires WellFormed(reg)
    ensures OneHome(RestoredSections(reg))
  {
    forall i: nat, a: nat, j: nat, b: nat, m | At(RestoredSections(reg), i, a, m) && At(RestoredSections(reg), j, b, m)
      ensures i == j && a == b
    {
      RestoredAt(reg, i, a, m);
      RestoredAt(reg, j, b, m);
    }
  }

  lemma {:induction false} ConcatDistinct(sections: seq<seq<Model>>)
    requires OneHome(sections)
    ensures NoDuplicates(Concat(sections))
    decreases |sections|
  {
    if sections != [] {
      var n := |sections| - 1;
      var init, last := sections[..n], sections[n];
      forall i: nat, a: nat, j: nat, b: nat, m | At(init, i, a, m) && At(init, j, b, m) ensures i == j && a == b {
        assert At(sections, i, a, m) && At(sections, j, b, m);
      }
      ConcatDistinct(init);
      forall a: nat, b: nat | a < b < |last| ensures last[a] != last[b] {
        assert At(sections, n, a, last[a]) && At(sections, n, b, last[b]);
      }
      forall a: nat | a < |last| ensures last[a] !in Concat(init) {
        NotEarlier(sections, n, a, last[a]);
        assert sections[..n] == init;
      }
    }
  }

  lemma ReversedLists(ms: seq<Model>)
    requires NoDuplicates(ms)
    ensures NoDuplicates(Reversed(ms)) && forall m :: m in Reversed(ms) <==> m in ms
  {
    forall m | m in ms ensures m in Reversed(ms) {
      var i :| 0 <= i < |ms| && ms[i] == m;
      assert Reversed(ms)[|ms| - 1 - i] == m;
    }
  }

  /** The order names every restored model but the community's own, once. */
  lemma ZevOrderLists(reg: Registry)
    requires WellFormed(reg)
    ensures NoDuplicates(ZevOrder(reg))
    ensures forall m :: m in ZevOrder(reg) <==> Restored(reg, m) && m != Zev
  {
    RestoredOneHome(reg);
    ConcatDistinct(RestoredSections(reg));
    ReversedLists(Concat(RestoredSections(reg)));
    forall m ensures m in Concat(RestoredSections(reg)) <==> Restored(reg, m) && m != Zev {
      ConcatIff(RestoredSections(reg), m);
      RestoredListed(reg, m);
    }
  }

  /** What is loaded later is cleared earlier. */
  lemma ZevDependantsFirst(reg: Registry, p: Model, m: Model)
    requires WellFormed(reg) && Precedes(reg, p, m) && Restored(reg, p) && p != Zev && Restored(reg, m) && m != Zev
    ensures Before(ZevOrder(reg), m, p)
  {
    var sections := RestoredSections(reg);
    assert Listed(reg.zev, p) && Listed(reg.zev, m);
    NotInstances(reg, p, m);
    var i: nat, a: nat, j: nat, b: nat :| At(reg.zev, i, a, p) && At(reg.zev, j, b, m) && (i < j || (i == j && a < b));
    RestoredHere(reg, i, a, p);
    RestoredHere(reg, j, b, m);
    var n := ConcatAt(sections, j, b, m);
    Earlier(sections, j, b, i, a, p);
    var k :| 0 <= k < n && Concat(sections)[..n][k] == p;
    assert Concat(sections)[k] == p && Concat(sections)[n] == m;
    ReversedBefore(Concat(sections), p, m);
  }

  lemma NotInstances(reg: Registry, p: Model, m: Model)
    requires WellFormed(reg) && Precedes(reg, p, m) && Listed(reg.zev, p) && Listed(reg.zev, m)
    ensures exists i: nat, a: nat, j: nat, b: nat :: At(reg.zev, i, a, p) && At(reg.zev, j, b, m) && (i < j || (i == j && a < b))
  {
    assert !Listed(reg.instance, p);
  }

  lemma RestoredHere(reg: Registry, i: nat, a: nat, m: Model)
    requires WellFormed(reg) && At(reg.zev, i, a, m) && Restored(reg, m) && m != Zev
    ensures At(RestoredSections(reg), i, a, m)
  {
    var j: nat, b: nat :| At(reg.zev, j, b, m) && j !in reg.kept;
    RestoredAt(reg, i, a, m);
  }

  // ---- What is removed ----

  /** A restored row of the community, its own row apart. */
  ghost predicate Ours(reg: Registry, t: Rows, z: Pk, k: Key) {
    k in t && Restored(reg, k.model) && k.model != Zev && Community(reg, t, t[k]) == Some(z)
  }

  function OurKeys(reg: Registry, t: Rows, z: Pk): set<Key> {
    set k | k in t.Keys && k.model in ZevOrder(reg) && Community(reg, t, t[k]) == Some(z)
  }

  lemma OurKeysIff(reg: Registry, t: Rows, z: Pk, k: Key)
    requires WellFormed(reg)
    ensures k in OurKeys(reg, t, z) <==> Ours(reg, t, z, k)
  {
    ZevOrderLists(reg);
  }

  /** An issued contract without a community that the backup also holds. */
  predicate Orphan(t: Rows, contracts: set<Pk>, k: Key) {
    k in t && k.model == ContractIssue && t[k].zev.None? && k.pk in contracts
  }

  function OrphanKeys(t: Rows, contracts: set<Pk>): set<Key> {
    set k | k in t.Keys && Orphan(t, contracts, k)
  }

  /** The deletions in order: orphaned contracts, then the community's rows model by model. */
  function ZevTargets(reg: Registry, t: Rows, z: Pk, contracts: set<Pk>): seq<set<Key>> {
    [OrphanKeys(t, contracts)] + ByModel(OurKeys(reg, t, z), ZevOrder(reg))
  }

  function Targets(reg: Registry, t: Rows, z: Pk, contracts: set<Pk>): set<Key> {
    OrphanKeys(t, contracts) + OurKeys(reg, t, z)
  }

  lemma {:induction false} UnionCons(a: set<Key>, targets: seq<set<Key>>)
    ensures Union([a] + targets) == a + Union(targets)
    decreases |targets|
  {
    if targets == [] {
      assert [a] + targets == [a];
      assert [a][..0] == [];
    } else {
      var n := |targets| - 1;
      UnionCons(a, targets[..n]);
      assert ([a] + targets)[..n + 1] == [a] + targets[..n];
    }
  }

  lemma ZevTargetsUnion(reg: Registry, t: Rows, z: Pk, contracts: set<Pk>)
    ensures Union(ZevTargets(reg, t, z, contracts)) == Targets(reg, t, z, contracts)
  {
    UnionCons(OrphanKeys(t, contracts), ByModel(OurKeys(reg, t, z), ZevOrder(reg)));
    ByModelUnion(OurKeys(reg, t, z), ZevOrder(reg));
  }

  /** What a community restore loses: its targets and whatever cascades to them. */
  function ZevLost(reg: Registry, s: Schema, t: Rows, z: Pk, contracts: set<Pk>): set<Key> {
    Lost(s, t, Targets(reg, t, z, contracts))
  }

  function ClearedZev(reg: Registry, s: Schema, t: Rows, z: Pk, contracts: set<Pk>): Rows {
    Removal(s, t, Targets(reg, t, z, contracts))
  }

  ghost predicate ZevClearAllowed(reg: Registry, s: Schema, t: Rows, z: Pk, contracts: set<Pk>) {
    DeleteSeq(s, t, ZevTargets(reg, t, z, contracts)).Some?
  }

  /** The registry restores issued contracts with their community and keeps those without one apart. */
  ghost predicate Suits(reg: Registry, s: Schema) {
    && WellFormed(reg) && Fits(reg, s) && Listed(reg.instance, User)
    && ContractIssue in reg.unscoped && Restored(reg, ContractIssue)
    && !BackedUp(reg, ExportJob) && (forall m | Credential(m) :: !Restored(reg, m))
  }

  ghost function Loose(reg: Registry, t: Rows): set<Key> {
    set k | k in t.Keys && !Stays(reg, k.model)
  }

  lemma LooseIsClosed(reg: Registry, s: Schema, t: Rows)
    requires Fits(reg, s) && Keyed(t)
    ensures ClosedSet(s, t, Loose(reg, t))
  {
    forall k | k in t && k !in Loose(reg, t) ensures s.cascade(t[k]) !! Loose(reg, t) {
      assert FitsAt(reg, s, t[k]);
    }
  }

  lemma UserStays(reg: Registry)
    requires WellFormed(reg) && Listed(reg.instance, User)
    ensures Stays(reg, User)
  {
    assert Restored(reg, User) ==> Listed(reg.zev, User);
  }

  /** Only rows that do not stay are ever lost: no community, no account, no audit event, no access grant. */
  lemma LostDoNotStay(reg: Registry, s: Schema, t: Rows, ds: set<Key>)
    requires Suits(reg, s) && Keyed(t) && forall k | k in ds :: !Stays(reg, k.model)
    ensures forall k | k in Lost(s, t, ds) :: !Stays(reg, k.model)
    ensures NoModel(Lost(s, t, ds), Zev) && NoModel(Lost(s, t, ds), User)
  {
    LooseIsClosed(reg, s, t);
    CollectLeast(s, t, ds * t.Keys, Loose(reg, t));
    UserStays(reg);
  }

  lemma TargetsDoNotStay(reg: Registry, s: Schema, t: Rows, z: Pk, contracts: set<Pk>, k: Key)
    requires Suits(reg, s) && k in Targets(reg, t, z, contracts)
    ensures !Stays(reg, k.model)
  {
    ZevOrderLists(reg);
    assert Restored(reg, k.model) ==> Listed(reg.zev, k.model);
  }

  /** A row that stays is not written either: it refers to nothing that is lost. */
  lemma StayingIsUntouched(reg: Registry, s: Schema, t: Rows, ds: set<Key>, k: Key)
    requires Suits(reg, s) && Keyed(t) && Stays(reg, k.model) && forall l | l in ds :: !Stays(reg, l.model)
    ensures SameAt(t, Removal(s, t, ds), k)
  {
    LostDoNotStay(reg, s, t, ds);
    if k in t {
      RefersToStaying(reg, s, t[k], Lost(s, t, ds));
    }
  }

  lemma RefersToStaying(reg: Registry, s: Schema, r: Row, lost: set<Key>)
    requires Suits(reg, s) && Stays(reg, r.model) && forall l | l in lost :: !Stays(reg, l.model)
    ensures KeyOf(r) !in lost && s.nulled(r, lost) == r
  {
    assert FitsAt(reg, s, r) && CoherentAt(s, r, lost);
  }

  // ---- Communities while rows are deleted ----

  /** The row a row belongs to. */
  predicate BelongsTo(reg: Registry, r: Row, parent: Key) {
    reg.lookup(r.model).Through? && r.parent == Some(parent.pk) && reg.lookup(r.model).parent == parent.model
  }

  /** The row a left row belongs to is left too: the row would have gone with it, or insisted on it. */
  lemma ParentLeft(reg: Registry, s: Schema, t: Rows, lost: set<Key>, k: Key, parent: Key)
    requires Fits(reg, s) && k in t && k !in lost && ClosedSet(s, t, lost) && s.guard(t[k]) !! lost
    requires BelongsTo(reg, t[k], parent)
    ensures parent !in lost
  {
    assert FitsAt(reg, s, t[k]);
  }

  /** Rows with the same community column or owner, in tables with the same owner, have the same community. */
  lemma SameCommunityOf(reg: Registry, t: Rows, u: Rows, r: Row, r': Row)
    requires r'.model == r.model && r'.pk == r.pk && r'.zev == r.zev && r'.parent == r.parent
    requires forall p | BelongsTo(reg, r, p) :: (p in u <==> p in t) && (p in t ==> u[p].zev == t[p].zev)
    ensures Community(reg, u, r') == Community(reg, t, r)
  {
    if reg.lookup(r.model).Through? && r.parent.Some? {
      assert BelongsTo(reg, r, Key(reg.lookup(r.model).parent, r.parent.value));
    }
  }

  /** A row that is left keeps its community. */
  lemma CommunityStable(reg: Registry, s: Schema, t: Rows, targets: seq<set<Key>>, k: Key)
    requires Suits(reg, s) && Keyed(t) && DeleteSeq(s, t, targets).Some? && k in DeleteSeq(s, t, targets).value
    requires forall l | l in Union(targets) :: !Stays(reg, l.model)
    ensures k in t && Community(reg, DeleteSeq(s, t, targets).value, DeleteSeq(s, t, targets).value[k]) == Community(reg, t, t[k])
  {
    DeleteSeqIs(s, t, targets);
    GuardsStand(s, t, targets, k);
    LeftCommunity(reg, s, t, Union(targets), k);
  }

  lemma LeftCommunity(reg: Registry, s: Schema, t: Rows, ds: set<Key>, k: Key)
    requires Suits(reg, s) && Keyed(t) && k in t && k !in Lost(s, t, ds) && s.guard(t[k]) !! Lost(s, t, ds)
    requires forall l | l in ds :: !Stays(reg, l.model)
    ensures Community(reg, Removal(s, t, ds), Removal(s, t, ds)[k]) == Community(reg, t, t[k])
  {
    var u, lost := Removal(s, t, ds), Lost(s, t, ds);
    LostDoNotStay(reg, s, t, ds);
    LostWithin(s, t, ds);
    assert CoherentAt(s, t[k], lost);
    forall p | BelongsTo(reg, t[k], p) ensures (p in u <==> p in t) && (p in t ==> u[p].zev == t[p].zev) {
      ParentLeft(reg, s, t, lost, k, p);
      if p in t { assert CoherentAt(s, t[p], lost); }
    }
    SameCommunityOf(reg, t, u, t[k], u[k]);
  }

  lemma QueryIs(reg: Registry, s: Schema, t: Rows, targets: seq<set<Key>>, z: Pk, m: Model)
    requires Suits(reg, s) && Keyed(t) && DeleteSeq(s, t, targets).Some? && m in ZevOrder(reg)
    requires forall l | l in Union(targets) :: !Stays(reg, l.model)
    ensures
      var u := DeleteSeq(s, t, targets).value;
      ScopedKeys(reg, u, z, m) * u.Keys == OfModel(OurKeys(reg, t, z), m) * u.Keys
  {
    var u := DeleteSeq(s, t, targets).value;
    forall k | k in u ensures k in ScopedKeys(reg, u, z, m) <==> k in OfModel(OurKeys(reg, t, z), m) {
      CommunityStable(reg, s, t, targets, k);
    }
  }

  /** The community's rows of a model. */
  function ScopedKeys(reg: Registry, t: Rows, z: Pk, m: Model): set<Key> {
    set k | k in t.Keys && k.model == m && Community(reg, t, t[k]) == Some(z)
  }

  lemma {:induction false} PrefixTargets(reg: Registry, s: Schema, t: Rows, z: Pk, contracts: set<Pk>, n: nat, k: Key)
    requires Suits(reg, s) && n <= |ZevTargets(reg, t, z, contracts)| && k in Union(ZevTargets(reg, t, z, contracts)[..n])
    ensures !Stays(reg, k.model)
    decreases n
  {
    var targets := ZevTargets(reg, t, z, contracts);
    if n > 0 {
      assert targets[..n][..n - 1] == targets[..n - 1];
      if k in targets[n - 1] {
        TargetsDoNotStay(reg, s, t, z, contracts, k);
      } else {
        PrefixTargets(reg, s, t, z, contracts, n - 1, k);
      }
    }
  }

  /** One DELETE of the community's rows of a model, found through the tables as they are. */
  method ClearModel(db: Database, reg: Registry, s: Schema, z: Pk, contracts: set<Pk>, i: nat, ghost t: Rows) returns (ok: bool)
    requires Suits(reg, s) && Keyed(t) && i < |ZevOrder(reg)|
    requires DeleteSeq(s, t, ZevTargets(reg, t, z, contracts)[..i + 1]) == Some(db.rows)
    modifies db
    ensures ok ==> DeleteSeq(s, t, ZevTargets(reg, t, z, contracts)[..i + 2]) == Some(db.rows)
    ensures !ok ==> !ZevClearAllowed(reg, s, t, z, contracts)
  {
    ghost var targets := ZevTargets(reg, t, z, contracts);
    TakeStep(targets, i + 1);
    forall k | k in Union(targets[..i + 1]) ensures !Stays(reg, k.model) {
      PrefixTargets(reg, s, t, z, contracts, i + 1, k);
    }
    var m := ZevOrder(reg)[i];
    QueryIs(reg, s, t, targets[..i + 1], z, m);
    var rows := ScopedKeys(reg, db.rows, z, m);
    DeletePresent(s, db.rows, rows, targets[i + 1]);
    var after := Delete(s, db.rows, rows);
    ok := after.Some?;
    if ok {
      db.rows := after.value;
    } else {
      RefusedStays(s, t, targets, i + 2);
    }
  }

  lemma FirstDeletion(reg: Registry, s: Schema, t: Rows, z: Pk, contracts: set<Pk>)
    ensures
      var targets := ZevTargets(reg, t, z, contracts);
      && |targets| == |ZevOrder(reg)| + 1 && targets[..|targets|] == targets
      && DeleteSeq(s, t, targets[..1]) == Delete(s, t, OrphanKeys(t, contracts))
  {
    var targets := ZevTargets(reg, t, z, contracts);
    assert targets[..|targets|] == targets && targets[..1] == [OrphanKeys(t, contracts)] && targets[..1][..0] == [];
  }

  /** Clear a community: exactly its restored rows and the orphaned contracts are deleted, with what cascades to them. */
  method ClearZev(db: Database, reg: Registry, s: Schema, z: Pk, contracts: set<Pk>) returns (ok: bool)
    requires Suits(reg, s) && Keyed(db.rows)
    modifies db
    ensures ok <==> ZevClearAllowed(reg, s, old(db.rows), z, contracts)
    ensures ok ==> db.rows == ClearedZev(reg, s, old(db.rows), z, contracts)
  {
    ghost var t, targets := db.rows, ZevTargets(reg, db.rows, z, contracts);
    var n := |ZevOrder(reg)|;
    FirstDeletion(reg, s, t, z, contracts);
    var after := Delete(s, db.rows, OrphanKeys(db.rows, contracts));
    if after.None? {
      RefusedStays(s, t, targets, 1);
      return false;
    }
    db.rows := after.value;
    for i := 0 to n
      invariant DeleteSeq(s, t, targets[..i + 1]) == Some(db.rows)
    {
      ok := ClearModel(db, reg, s, z, contracts, i, t);
      if !ok {
        return;
      }
    }
    DeleteSeqIs(s, t, targets);
    ZevTargetsUnion(reg, t, z, contracts);
    ok := true;
  }

  lemma CredentialsAreNotRestored()
    ensures forall m | Credential(m) :: !Restored(REGISTRY, m)
  {
    forall m | Credential(m) ensures !Restored(REGISTRY, m) {
      PlacesDecide(m);
    }
  }

  lemma ContractsAndAccountsHaveTheirPlace()
    ensures Listed(INSTANCE_SECTIONS, User) && Restored(REGISTRY, ContractIssue) && ContractIssue in REGISTRY.unscoped
    ensures !BackedUp(REGISTRY, ExportJob)
  {
    PlacesDecide(User);
    PlacesDecide(ContractIssue);
    PlacesDecide(ExportJob);
  }

  /** The shipped registry and schema meet every requirement. */
  lemma ShippedSuits()
    ensures Suits(REGISTRY, SCHEMA)
  {
    RegistryIsWellFormed();
    SchemaFits();
    ContractsAndAccountsHaveTheirPlace();
    CredentialsAreNotRestored();
  }
}
