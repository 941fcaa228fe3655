/** A per-community restore leaves everything outside the community alone. */
module ZevLaws {
  import opened Outcomes
  import opened Lines
  import opened Registry
  import opened Tables
  import opened References
  import opened ForeignKeys
  import opened Sections
  import opened Archive
  import opened Dump
  import opened Loader
  import opened InstanceRestore
  import opened Accounts
  import opened Logins
  import opened ZevClear
  import opened ZevRestore

  /** A transformation that changes nothing but account links. */
  ghost predicate OnlyLinks(transform: Row -> Row) {
    forall x :: transform(x) == x.(users := transform(x).users)
  }

  lemma RelinkOnlyLinks(mapping: map<Pk, Option<Pk>>)
    ensures OnlyLinks(Relink(mapping))
  {
  }

  // ---- What is loaded ----

  lemma {:induction false} StreamElement(plan: seq<Section>, content: Section -> seq<Row>, r: Row)
    ensures r in Stream(plan, content) <==> exists s :: s in plan && r in content(s)
    decreases |plan|
  {
    if plan != [] {
      var n := |plan| - 1;
      StreamElement(plan[..n], content, r);
      assert plan == plan[..n] + [plan[n]];
    }
  }

  lemma {:induction false} ValuesElement(records: seq<Option<Row>>, r: Row)
    ensures r in Values(records) <==> exists i :: 0 <= i < |records| && records[i] == Some(r)
    decreases |records|
  {
    if records != [] {
      var n := |records| - 1;
      ValuesElement(records[..n], r);
      assert records[n] == Some(r) || records[n] != Some(r);
      if r in Values(records[..n]) {
        var i :| 0 <= i < n && records[..n][i] == Some(r);
        assert records[i] == Some(r);
      }
      if i :| 0 <= i < |records| && records[i] == Some(r) && i < n {
        assert records[..n][i] == Some(r);
      }
    }
  }

  lemma MappedElement(transform: Row -> Row, rs: seq<Row>, r: Row) returns (x: Row)
    requires r in Mapped(transform, rs)
    ensures x in rs && r == transform(x)
  {
    var i :| 0 <= i < |rs| && Mapped(transform, rs)[i] == r;
    x := rs[i];
  }

  lemma ContentModels(reg: Registry, f: Format, a: Archive, s: Section, x: Row)
    requires SectionAcceptable(reg, f, a, s) && x in Content(f, a.files, s)
    ensures x.model in Models(reg, s)
  {
    ValuesElement(Records(f.rows, SectionBytes(a.files, s)), x);
  }

  lemma SectionIsRestored(reg: Registry, z: Pk, s: Section, m: Model)
    requires WellFormed(reg) && s in AllRest(reg, z) && InRange(reg, s) && m in Models(reg, s)
    ensures Restored(reg, m) && m != Zev
  {
    RestPlanLists(reg, z, |reg.zev|);
    var b := ListedAt(reg.zev, s.i, m);
    assert At(reg.zev, 0, 0, Zev);
  }

  /** The allow-lists admit only restored models, and never the community's own. */
  lemma RestModels(reg: Registry, f: Format, a: Archive, z: Pk, transform: Row -> Row, r: Row)
    requires WellFormed(reg) && OnlyLinks(transform) && AllAcceptable(reg, f, a, AllRest(reg, z))
    requires r in RestRows(reg, f, a, z, transform)
    ensures Restored(reg, r.model) && r.model != Zev
  {
    StreamElement(AllRest(reg, z), Reader(f, a.files, transform), r);
    var s :| s in AllRest(reg, z) && r in Reader(f, a.files, transform)(s);
    assert SectionAcceptable(reg, f, a, s);
    var x := MappedElement(transform, Content(f, a.files, s), r);
    ContentModels(reg, f, a, s, x);
    SectionIsRestored(reg, z, s, x.model);
  }

  // ---- A restore, seen from the tables ----

  /** The tables before the inserts: the community cleared and the own-row record written under its own key. */
  ghost function Base(reg: Registry, s: Schema, t: Rows, z: Pk, contracts: set<Pk>, zev: Row): Rows {
    ClearedZev(reg, s, t, z, contracts)[KeyOf(zev) := zev]
  }

  /** From `t` to `w`: the own-row record is written, the rest inserted, and the community's rows counted. */
  ghost predicate Replaced(reg: Registry, s: Schema, t: Rows, z: Pk, contracts: set<Pk>, zev: Row, rest: seq<Row>, w: Rows) {
    && zev.model == Zev
    && (forall r | r in rest :: Restored(reg, r.model) && r.model != Zev)
    && ZevClearAllowed(reg, s, t, z, contracts)
    && InsertAll(Base(reg, s, t, z, contracts, zev), rest) == Some(w)
    && Counted(reg, z, rest, w)
  }

  ghost predicate Counted(reg: Registry, z: Pk, rest: seq<Row>, w: Rows) {
    forall m | Restored(reg, m) :: |ScopedKeys(reg, w, z, m)| == if m == Zev then 1 else Get(Tally(rest), m)
  }

  /** Protecting logins moves no restored row to another community. */
  lemma FrameKeepsCommunity(reg: Registry, s: Schema, w: Rows, v: Rows, k: Key)
    requires Suits(reg, s) && Keyed(w) && Frame(w, v) && Restored(reg, k.model) && k in w
    ensures k in v && v[k].zev == w[k].zev && Community(reg, v, v[k]) == Community(reg, w, w[k])
  {
    assert OnlyFields(w[k], v[k]);
    forall p | BelongsTo(reg, w[k], p) ensures (p in v <==> p in w) && (p in w ==> v[p].zev == w[p].zev) {
      var i: nat, a: nat :| At(reg.zev, i, a, k.model) && i !in reg.kept;
      assert ParentFirst(reg, i, a, p.model);
      assert Restored(reg, p.model);
      if p in w { assert OnlyFields(w[p], v[p]); }
    }
    SameCommunityOf(reg, w, v, w[k], v[k]);
  }

  lemma FrameKeepsCounts(reg: Registry, s: Schema, w: Rows, v: Rows, z: Pk, m: Model)
    requires Suits(reg, s) && Keyed(w) && Frame(w, v) && Restored(reg, m)
    ensures ScopedKeys(reg, v, z, m) == ScopedKeys(reg, w, z, m)
  {
    forall k ensures k in ScopedKeys(reg, v, z, m) <==> k in ScopedKeys(reg, w, z, m) {
      if k in w && k.model == m { FrameKeepsCommunity(reg, s, w, v, k); }
    }
  }

  lemma LoadedIsKeyed(reg: Registry, s: Schema, t: Rows, z: Pk, contracts: set<Pk>, zev: Row, rest: seq<Row>, w: Rows)
    requires Coherent(s) && Keyed(t) && InsertAll(Base(reg, s, t, z, contracts, zev), rest) == Some(w)
    ensures Keyed(w)
  {
    var base := Base(reg, s, t, z, contracts, zev);
    InsertAllIff(base, rest);
    forall k | k in w ensures KeyOf(w[k]) == k {
      if k in base && k != KeyOf(zev) {
        assert CoherentAt(s, t[k], ZevLost(reg, s, t, z, contracts));
      }
    }
  }

  lemma RestoredIsReplaced(
      site: Site, f: Format, a: Archive, t: Rows, z: Pk, transform: Row -> Row, w: Rows, us: seq<Pk>, counts: map<Model, nat>, v: Rows)
    requires Sound(site) && Keyed(t) && OnlyLinks(transform) && ZevRestored(site, f, a, t, z, transform, w, us, counts, v)
    ensures Replaced(
              site.reg, site.schema, t, z, Contracts(site.reg, f, a, z), transform(ZevRow(f, a, z)),
              RestRows(site.reg, f, a, z, transform), w)
    ensures Keyed(w)
  {
    OneZevContent(f, a, z);
    var rest := RestRows(site.reg, f, a, z, transform);
    forall r | r in rest ensures Restored(site.reg, r.model) && r.model != Zev {
      RestModels(site.reg, f, a, z, transform, r);
    }
    assert ZevRow(f, a, z).model == Zev;
    LoadedIsKeyed(site.reg, site.schema, t, z, Contracts(site.reg, f, a, z), transform(ZevRow(f, a, z)), rest, w);
    ProtectAllFrame(site.login, w, us);
    forall m | Restored(site.reg, m)
      ensures |ScopedKeys(site.reg, w, z, m)| == if m == Zev then 1 else Get(Tally(rest), m)
    {
      FrameKeepsCounts(site.reg, site.schema, w, v, z, m);
    }
  }

  // ---- Survivors ----

  /** What the clearing left is still there; every new row was loaded. */
  lemma SurvivorsStay(reg: Registry, s: Schema, t: Rows, z: Pk, contracts: set<Pk>, zev: Row, rest: seq<Row>, w: Rows)
    requires Replaced(reg, s, t, z, contracts, zev, rest, w)
    ensures
      var cleared := ClearedZev(reg, s, t, z, contracts);
      && (forall l | l in cleared && l != KeyOf(zev) :: l in w && w[l] == cleared[l])
      && (forall l | l in w && l !in cleared && l != KeyOf(zev) :: w[l] in rest && KeyOf(w[l]) == l)
    ensures forall r | r in rest :: KeyOf(r) !in Base(reg, s, t, z, contracts, zev) && KeyOf(r) in w && w[KeyOf(r)] == r
    ensures KeyOf(zev) in w && w[KeyOf(zev)] == zev
  {
    InsertAllIff(Base(reg, s, t, z, contracts, zev), rest);
  }

  lemma ZevTargetsDoNotStay(reg: Registry, s: Schema, t: Rows, z: Pk, contracts: set<Pk>)
    requires Suits(reg, s)
    ensures forall k | k in Targets(reg, t, z, contracts) :: !Stays(reg, k.model)
  {
    forall k | k in Targets(reg, t, z, contracts) ensures !Stays(reg, k.model) {
      TargetsDoNotStay(reg, s, t, z, contracts, k);
    }
  }

  /** A row that is left after a clearing has lost nothing it insists on, and was not the community's. */
  lemma LeftRow(reg: Registry, s: Schema, t: Rows, z: Pk, contracts: set<Pk>, k: Key)
    requires Suits(reg, s) && Keyed(t) && ZevClearAllowed(reg, s, t, z, contracts) && k in ClearedZev(reg, s, t, z, contracts)
    ensures k in t && k !in ZevLost(reg, s, t, z, contracts) && s.guard(t[k]) !! ZevLost(reg, s, t, z, contracts)
    ensures !Ours(reg, t, z, k)
  {
    ZevTargetsUnion(reg, t, z, contracts);
    DeleteSeqIs(s, t, ZevTargets(reg, t, z, contracts));
    GuardsStand(s, t, ZevTargets(reg, t, z, contracts), k);
    LostWithin(s, t, Targets(reg, t, z, contracts));
    OurKeysIff(reg, t, z, k);
  }

  /** A surviving row of a restored model keeps its community: the row it belongs to survives with it. */
  lemma SurvivorKeepsCommunity(reg: Registry, s: Schema, t: Rows, z: Pk, contracts: set<Pk>, w: Rows, k: Key)
    requires Suits(reg, s) && Keyed(t) && Whole(s, t) && ZevClearAllowed(reg, s, t, z, contracts)
    requires k in ClearedZev(reg, s, t, z, contracts) && Restored(reg, k.model) && k.model != Zev
    requires
      var cleared := ClearedZev(reg, s, t, z, contracts);
      forall l | l in cleared && l.model != Zev :: l in w && w[l] == cleared[l]
    ensures k in t && Community(reg, w, w[k]) == Community(reg, t, t[k]) != Some(z)
  {
    var lost := ZevLost(reg, s, t, z, contracts);
    LeftRow(reg, s, t, z, contracts, k);
    ZevTargetsDoNotStay(reg, s, t, z, contracts);
    LostDoNotStay(reg, s, t, Targets(reg, t, z, contracts));
    LostWithin(s, t, Targets(reg, t, z, contracts));
    assert CoherentAt(s, t[k], lost);
    forall p | BelongsTo(reg, t[k], p) ensures p in t && p in w && w[p].zev == t[p].zev {
      ParentSurvives(reg, s, t, z, contracts, w, k, p);
    }
    SameCommunityOf(reg, t, w, t[k], w[k]);
  }

  lemma ParentSurvives(reg: Registry, s: Schema, t: Rows, z: Pk, contracts: set<Pk>, w: Rows, k: Key, p: Key)
    requires Suits(reg, s) && Keyed(t) && Whole(s, t) && Restored(reg, k.model)
    requires k in t && k !in ZevLost(reg, s, t, z, contracts) && s.guard(t[k]) !! ZevLost(reg, s, t, z, contracts)
    requires ClosedSet(s, t, ZevLost(reg, s, t, z, contracts)) && NoModel(ZevLost(reg, s, t, z, contracts), Zev)
    requires BelongsTo(reg, t[k], p)
    requires
      var cleared := ClearedZev(reg, s, t, z, contracts);
      forall l | l in cleared && l.model != Zev :: l in w && w[l] == cleared[l]
    ensures p in t && p in w && w[p].zev == t[p].zev
  {
    var lost := ZevLost(reg, s, t, z, contracts);
    ParentLeft(reg, s, t, lost, k, p);
    assert FitsAt(reg, s, t[k]);
    var i: nat, a: nat :| At(reg.zev, i, a, k.model) && i !in reg.kept;
    assert ParentFirst(reg, i, a, p.model);
    assert CoherentAt(s, t[p], lost);
  }

  // ---- The count check catches strays ----

  /** Subsets of equal size are equal. */
  lemma SameSize(a: set<Key>, b: set<Key>)
    requires a <= b && |a| == |b|
    ensures a == b
  {
    assert |b - a| == |b| - |a|;
    assert b == a + (b - a);
  }

  function Inserted(before: set<Key>, after: set<Key>, m: Model): set<Key> {
    OfModel(after, m) - OfModel(before, m)
  }

  lemma InsertedIff(before: set<Key>, after: set<Key>, m: Model, k: Key)
    ensures k in Inserted(before, after, m) <==> k in after && k !in before && k.model == m
  {
  }

  /** The keys inserted for a model: as many as rows of it were loaded. */
  lemma InsertedKeys(base: Rows, rest: seq<Row>, w: Rows, m: Model)
    requires InsertAll(base, rest) == Some(w)
    ensures |Inserted(base.Keys, w.Keys, m)| == Get(Tally(rest), m)
  {
    CountAfter(base, rest, m);
    InsertAllIff(base, rest);
    assert OfModel(base.Keys, m) <= OfModel(w.Keys, m);
  }

  /** No row that survived the clearing counts as the community's afterwards. */
  lemma OursAreInserted(reg: Registry, s: Schema, t: Rows, z: Pk, contracts: set<Pk>, zev: Row, rest: seq<Row>, w: Rows, l: Key)
    requires Suits(reg, s) && Keyed(t) && Whole(s, t) && Replaced(reg, s, t, z, contracts, zev, rest, w)
    requires Ours(reg, w, z, l)
    ensures l !in Base(reg, s, t, z, contracts, zev)
  {
    SurvivorsStay(reg, s, t, z, contracts, zev, rest, w);
    if l in ClearedZev(reg, s, t, z, contracts) {
      SurvivorKeepsCommunity(reg, s, t, z, contracts, w, l);
    }
  }

  lemma OursWithinInserted(reg: Registry, s: Schema, t: Rows, z: Pk, contracts: set<Pk>, zev: Row, rest: seq<Row>, w: Rows, m: Model)
    requires Suits(reg, s) && Keyed(t) && Whole(s, t) && Replaced(reg, s, t, z, contracts, zev, rest, w)
    requires Restored(reg, m) && m != Zev
    ensures ScopedKeys(reg, w, z, m) <= Inserted(Base(reg, s, t, z, contracts, zev).Keys, w.Keys, m)
  {
    var before := Base(reg, s, t, z, contracts, zev).Keys;
    forall l | l in ScopedKeys(reg, w, z, m) ensures l in Inserted(before, w.Keys, m) {
      OursAreInserted(reg, s, t, z, contracts, zev, rest, w, l);
      InsertedIff(before, w.Keys, m, l);
    }
  }

  /** Because the community's rows are counted after loading, every row loaded belongs to it. */
  lemma LoadedRowsBelong(reg: Registry, s: Schema, t: Rows, z: Pk, contracts: set<Pk>, zev: Row, rest: seq<Row>, w: Rows, k: Key)
    requires Suits(reg, s) && Keyed(t) && Whole(s, t) && Replaced(reg, s, t, z, contracts, zev, rest, w)
    requires k in w && Restored(reg, k.model) && k.model != Zev && k !in ClearedZev(reg, s, t, z, contracts)
    ensures Ours(reg, w, z, k)
  {
    var before, m := Base(reg, s, t, z, contracts, zev).Keys, k.model;
    InsertedKeys(Base(reg, s, t, z, contracts, zev), rest, w, m);
    OursWithinInserted(reg, s, t, z, contracts, zev, rest, w, m);
    SameSize(ScopedKeys(reg, w, z, m), Inserted(before, w.Keys, m));
    InsertedIff(before, w.Keys, m, k);
  }

  /** The community's own row is there afterwards, whatever record was written. */
  lemma OwnRowIsThere(reg: Registry, s: Schema, z: Pk, rest: seq<Row>, w: Rows)
    requires Suits(reg, s) && Keyed(w) && Counted(reg, z, rest, w)
    ensures Key(Zev, z) in w
  {
    assert At(reg.zev, 0, 0, Zev);
    assert Restored(reg, Zev);
    assert ScopedKeys(reg, w, z, Zev) != {};
    var k :| k in ScopedKeys(reg, w, z, Zev);
    assert k == Key(Zev, z);
  }

  // ---- Isolation ----

  /** A row of a restored model that is not the community's. */
  ghost predicate Elsewhere(reg: Registry, t: Rows, z: Pk, k: Key) {
    k in t && Restored(reg, k.model) && k.model != Zev && Community(reg, t, t[k]) != Some(z)
  }

  /** As the deletions leave it: gone if it cascades to a deleted row, else with references to those emptied. */
  ghost predicate AsDeleted(s: Schema, t: Rows, w: Rows, lost: set<Key>, k: Key) {
    (k in w <==> k in t && k !in lost) && (k in w ==> w[k] == s.nulled(t[k], lost))
  }

  /** Outside the community, loading changes nothing beyond what deleting its rows does. */
  ghost predicate Isolated(reg: Registry, s: Schema, t: Rows, w: Rows, z: Pk, contracts: set<Pk>) {
    var lost := ZevLost(reg, s, t, z, contracts);
    && (forall k: Key | !Restored(reg, k.model) || (k.model == Zev && k.pk != z) :: AsDeleted(s, t, w, lost, k))
    && Key(Zev, z) in w
    && (forall k :: ElsewhereAt(reg, s, t, w, z, lost, k))
  }

  ghost predicate ElsewhereAt(reg: Registry, s: Schema, t: Rows, w: Rows, z: Pk, lost: set<Key>, k: Key) {
    && (Elsewhere(reg, w, z, k) <==> Elsewhere(reg, t, z, k) && k !in lost)
    && (Elsewhere(reg, w, z, k) ==> w[k] == s.nulled(t[k], lost))
  }

  lemma ElsewhereStays(reg: Registry, s: Schema, t: Rows, z: Pk, contracts: set<Pk>, zev: Row, rest: seq<Row>, w: Rows, k: Key)
    requires Suits(reg, s) && Keyed(t) && Whole(s, t) && Replaced(reg, s, t, z, contracts, zev, rest, w)
    ensures ElsewhereAt(reg, s, t, w, z, ZevLost(reg, s, t, z, contracts), k)
  {
    SurvivorsStay(reg, s, t, z, contracts, zev, rest, w);
    if Restored(reg, k.model) && k.model != Zev {
      if k in ClearedZev(reg, s, t, z, contracts) {
        SurvivorKeepsCommunity(reg, s, t, z, contracts, w, k);
      } else if k in w {
        LoadedRowsBelong(reg, s, t, z, contracts, zev, rest, w, k);
      }
    }
  }

  lemma UnrestoredStays(reg: Registry, s: Schema, t: Rows, z: Pk, contracts: set<Pk>, zev: Row, rest: seq<Row>, w: Rows, k: Key)
    requires Suits(reg, s) && Replaced(reg, s, t, z, contracts, zev, rest, w)
    requires (!Restored(reg, k.model) || k.model == Zev) && k != KeyOf(zev)
    ensures AsDeleted(s, t, w, ZevLost(reg, s, t, z, contracts), k)
  {
    SurvivorsStay(reg, s, t, z, contracts, zev, rest, w);
  }

  /** The record written over a community's own row is that community's, or changes nothing there. */
  ghost predicate OwnRowFits(t: Rows, z: Pk, zev: Row) {
    zev.pk == z || (KeyOf(zev) in t && t[KeyOf(zev)] == zev)
  }

  lemma ForeignRowIff(reg: Registry, s: Schema, t: Rows, z: Pk, contracts: set<Pk>, zev: Row, rest: seq<Row>, w: Rows)
    requires Suits(reg, s) && Keyed(t) && Replaced(reg, s, t, z, contracts, zev, rest, w) && zev.pk != z
    ensures AsDeleted(s, t, w, ZevLost(reg, s, t, z, contracts), KeyOf(zev)) <==> OwnRowFits(t, z, zev)
  {
    SurvivorsStay(reg, s, t, z, contracts, zev, rest, w);
    ZevTargetsDoNotStay(reg, s, t, z, contracts);
    StayingIsUntouched(reg, s, t, Targets(reg, t, z, contracts), KeyOf(zev));
  }

  lemma ReplacedIsIsolatedIff(reg: Registry, s: Schema, t: Rows, z: Pk, contracts: set<Pk>, zev: Row, rest: seq<Row>, w: Rows)
    requires Suits(reg, s) && Keyed(t) && Keyed(w) && Whole(s, t) && Replaced(reg, s, t, z, contracts, zev, rest, w)
    ensures Isolated(reg, s, t, w, z, contracts) <==> OwnRowFits(t, z, zev)
  {
    var lost := ZevLost(reg, s, t, z, contracts);
    OwnRowIsThere(reg, s, z, rest, w);
    forall k: Key | (!Restored(reg, k.model) || k.model == Zev) && k != KeyOf(zev) ensures AsDeleted(s, t, w, lost, k) {
      UnrestoredStays(reg, s, t, z, contracts, zev, rest, w, k);
    }
    if zev.pk != z { ForeignRowIff(reg, s, t, z, contracts, zev, rest, w); }
    forall k ensures ElsewhereAt(reg, s, t, w, z, lost, k) {
      ElsewhereStays(reg, s, t, z, contracts, zev, rest, w, k);
    }
    assert Restored(reg, Zev) by { assert At(reg.zev, 0, 0, Zev); }
    IsolatedFrom(reg, s, t, w, z, contracts, zev);
  }

  lemma IsolatedFrom(reg: Registry, s: Schema, t: Rows, w: Rows, z: Pk, contracts: set<Pk>, zev: Row)
    requires zev.model == Zev && Key(Zev, z) in w && Restored(reg, Zev)
    requires
      var lost := ZevLost(reg, s, t, z, contracts);
      && (forall k: Key | (!Restored(reg, k.model) || k.model == Zev) && k != KeyOf(zev) :: AsDeleted(s, t, w, lost, k))
      && (zev.pk != z ==> (AsDeleted(s, t, w, lost, KeyOf(zev)) <==> OwnRowFits(t, z, zev)))
      && (forall k :: ElsewhereAt(reg, s, t, w, z, lost, k))
    ensures Isolated(reg, s, t, w, z, contracts) <==> OwnRowFits(t, z, zev)
  {
    if Isolated(reg, s, t, w, z, contracts) && zev.pk != z {
      assert AsDeleted(s, t, w, ZevLost(reg, s, t, z, contracts), KeyOf(zev));
    }
  }

  /**
   * Whatever the archive holds, a restore that goes through changes nothing outside the community beyond what deleting its
   * rows does, if and only if the own-row record is the community's or was already there. Afterwards the logins of accounts
   * it made managers are protected, which writes rows of those accounts only, and nothing exactly when there are none.
   */
  lemma RestoreIsIsolated(
      site: Site, f: Format, a: Archive, t: Rows, z: Pk, mapping: map<Pk, Option<Pk>>, w: Rows, us: seq<Pk>,
      counts: map<Model, nat>, v: Rows)
    requires Sound(site) && Keyed(t) && Whole(site.schema, t)
    requires ZevRestored(site, f, a, t, z, Relink(mapping), w, us, counts, v)
    ensures Isolated(site.reg, site.schema, t, w, z, Contracts(site.reg, f, a, z)) <==>
            OwnRowFits(t, z, Relink(mapping)(ZevRow(f, a, z)))
    ensures Frame(w, v) && forall k | !OfAccounts(w, us, k) :: SameAt(w, v, k)
    ensures v == w <==> NewlyManaging(w, z) == {}
  {
    RelinkOnlyLinks(mapping);
    RestoredIsReplaced(site, f, a, t, z, Relink(mapping), w, us, counts, v);
    ReplacedIsIsolatedIff(
      site.reg, site.schema, t, z, Contracts(site.reg, f, a, z), Relink(mapping)(ZevRow(f, a, z)),
      RestRows(site.reg, f, a, z, Relink(mapping)), w);
    ProtectAllFrame(site.login, w, us);
    NothingWrittenIff(site.login, w, z, us);
  }

  /** Accounts, credentials, audit events, access grants and instance data: loading leaves every one as it was. */
  lemma StayingRowsAreUntouched(reg: Registry, s: Schema, t: Rows, w: Rows, z: Pk, contracts: set<Pk>, k: Key)
    requires Suits(reg, s) && Keyed(t) && Isolated(reg, s, t, w, z, contracts) && Stays(reg, k.model) && k != Key(Zev, z)
    ensures SameAt(t, w, k)
  {
    ZevTargetsDoNotStay(reg, s, t, z, contracts);
    StayingIsUntouched(reg, s, t, Targets(reg, t, z, contracts), k);
    assert AsDeleted(s, t, w, ZevLost(reg, s, t, z, contracts), k);
  }

  /**
   * A row outside the community is as it was, and still outside, exactly when no cascade leads it to a deleted row and it
   * names none.
   */
  lemma OutsideRowUnchangedIff(reg: Registry, s: Schema, t: Rows, w: Rows, z: Pk, contracts: set<Pk>, k: Key)
    requires Suits(reg, s) && Keyed(t) && Isolated(reg, s, t, w, z, contracts) && k in t
    requires !Restored(reg, k.model) || Elsewhere(reg, t, z, k)
    ensures (k in w && w[k] == t[k] && !Ours(reg, w, z, k)) <==>
            && !Leads(s, t, Targets(reg, t, z, contracts) * t.Keys, k)
            && s.setNull(t[k]) !! ZevLost(reg, s, t, z, contracts)
  {
    CollectIff(s, t, Targets(reg, t, z, contracts) * t.Keys, k);
    assert CoherentAt(s, t[k], ZevLost(reg, s, t, z, contracts));
    if !Restored(reg, k.model) {
      assert AsDeleted(s, t, w, ZevLost(reg, s, t, z, contracts), k);
    } else {
      assert ElsewhereAt(reg, s, t, w, z, ZevLost(reg, s, t, z, contracts), k);
      assert Elsewhere(reg, w, z, k) <==> k in w && !Ours(reg, w, z, k);
    }
  }

  // ---- A record of another community ----

  lemma NothingToClear(reg: Registry, s: Schema, t: Rows, z: Pk, contracts: set<Pk>)
    requires Suits(reg, s) && forall k | k in t :: k.model != ContractIssue && !Ours(reg, t, z, k)
    ensures ZevClearAllowed(reg, s, t, z, contracts) && ClearedZev(reg, s, t, z, contracts) == t
  {
    ZevOrderLists(reg);
    forall k | k in t ensures k !in OurKeys(reg, t, z) { OurKeysIff(reg, t, z, k); }
    var targets := ZevTargets(reg, t, z, contracts);
    assert OrphanKeys(t, contracts) == {} && OurKeys(reg, t, z) == {};
    forall i | 0 <= i < |targets| ensures targets[i] == {} {}
    EmptyDeletions(s, t, targets);
    ZevTargetsUnion(reg, t, z, contracts);
    NothingRemoved(s, t);
  }

  lemma OnlyOwnRowsCount(reg: Registry, w: Rows, z: Pk, counts: map<Model, nat>)
    requires WellFormed(reg) && Keyed(w) && Key(Zev, z) in w && (forall k | k in w :: k.model == Zev) && counts == map[Zev := 1]
    ensures ZevCountsAgree(reg, w, z, counts)
  {
    forall m | Restored(reg, m) ensures |ScopedKeys(reg, w, z, m)| == Get(counts, m) {
      if m == Zev {
        assert ScopedKeys(reg, w, z, m) == {Key(Zev, z)};
      } else {
        assert ScopedKeys(reg, w, z, m) == {};
      }
    }
  }

  /** An archive whose own-row record is written over tables of communities only, and that holds nothing else. */
  lemma LoneRecordLoads(site: Site, f: Format, a: Archive, t: Rows, z: Pk, transform: Row -> Row)
    requires Sound(site) && forall k | k in t :: k.model == Zev
    requires OneZev(f, a, z) && AllAcceptable(site.reg, f, a, AllRest(site.reg, z)) && RestRows(site.reg, f, a, z, transform) == []
    ensures ZevLoaded(site, f, a, t, z, transform, t[KeyOf(transform(ZevRow(f, a, z))) := transform(ZevRow(f, a, z))])
  {
    NothingToClear(site.reg, site.schema, t, z, Contracts(site.reg, f, a, z));
  }

  lemma LoneRecordGoesThrough(site: Site, f: Format, a: Archive, t: Rows, z: Pk, transform: Row -> Row, w: Rows)
    requires Sound(site) && ZevLoaded(site, f, a, t, z, transform, w) && RestRows(site.reg, f, a, z, transform) == []
    requires Keyed(w) && Key(Zev, z) in w && forall k | k in w :: k.model == Zev
    ensures ZevRestored(site, f, a, t, z, transform, w, [], map[Zev := 1], w)
  {
    OnlyOwnRowsCount(site.reg, w, z, map[Zev := 1]);
    assert NewlyManaging(w, z) == {};
  }

  lemma ForeignRowGoesThrough(site: Site, f: Format, a: Archive, t: Rows, z: Pk, transform: Row -> Row, zev: Row)
    requires Sound(site) && Keyed(t) && Key(Zev, z) in t && forall k | k in t :: k.model == Zev
    requires OneZev(f, a, z) && AllAcceptable(site.reg, f, a, AllRest(site.reg, z))
    requires RestRows(site.reg, f, a, z, transform) == [] && zev == transform(ZevRow(f, a, z)) && zev.model == Zev
    ensures ZevRestored(site, f, a, t, z, transform, t[KeyOf(zev) := zev], [], map[Zev := 1], t[KeyOf(zev) := zev])
  {
    var w := t[KeyOf(zev) := zev];
    LoneRecordLoads(site, f, a, t, z, transform);
    assert Keyed(w);
    LoneRecordGoesThrough(site, f, a, t, z, transform, w);
  }

  /**
   * An archive whose section for one community holds another one's row overwrites that row and goes through: the record's
   * key is not compared with the community's, and the count looks for the community's own row, which is still there.
   */
  lemma ForeignRowOverwrites(
      site: Site, f: Format, a: Archive, t: Rows, z: Pk, transform: Row -> Row, zev: Row)
    requires Sound(site) && Keyed(t) && Key(Zev, z) in t && forall k | k in t :: k.model == Zev
    requires OneZev(f, a, z) && AllAcceptable(site.reg, f, a, AllRest(site.reg, z))
    requires RestRows(site.reg, f, a, z, transform) == [] && zev == transform(ZevRow(f, a, z))
    requires zev.model == Zev && zev.pk != z && KeyOf(zev) in t && t[KeyOf(zev)] != zev
    ensures ZevRestored(site, f, a, t, z, transform, t[KeyOf(zev) := zev], [], map[Zev := 1], t[KeyOf(zev) := zev])
    ensures !Isolated(site.reg, site.schema, t, t[KeyOf(zev) := zev], z, Contracts(site.reg, f, a, z))
  {
    ForeignRowGoesThrough(site, f, a, t, z, transform, zev);
    OverwrittenIsNotIsolated(site.reg, site.schema, t, t[KeyOf(zev) := zev], z, Contracts(site.reg, f, a, z), KeyOf(zev));
  }

  lemma OverwrittenIsNotIsolated(reg: Registry, s: Schema, t: Rows, w: Rows, z: Pk, contracts: set<Pk>, k: Key)
    requires Suits(reg, s) && Keyed(t) && k.model == Zev && k.pk != z && k in t && k in w && w[k] != t[k]
    ensures !Isolated(reg, s, t, w, z, contracts)
  {
    if Isolated(reg, s, t, w, z, contracts) {
      StayingRowsAreUntouched(reg, s, t, w, z, contracts, k);
    }
  }

  // ---- Contracts that outlive their community ----

  lemma TargetIff(reg: Registry, t: Rows, z: Pk, contracts: set<Pk>, k: Key)
    requires WellFormed(reg)
    ensures k in Targets(reg, t, z, contracts) <==>
            || Ours(reg, t, z, k)
            || (k in t && k.model == ContractIssue && t[k].zev.None? && k.pk in contracts)
  {
    OurKeysIff(reg, t, z, k);
  }

  /** A row that cascades to nothing and is no target is not lost. */
  lemma NoCascadeNotLost(s: Schema, t: Rows, ds: set<Key>, k: Key)
    requires k in t && k !in ds && s.cascade(t[k]) == {}
    ensures k !in Lost(s, t, ds)
  {
    CollectIff(s, t, ds * t.Keys, k);
    forall n: nat ensures !Reaches(s, t, ds * t.Keys, k, n) {
      assert s.cascade(t[k]) == {};
    }
  }

  /**
   * An issued contract without a community, of which the archive has no record, is there afterwards, column for column.
   */
  lemma OrphanedContract(
      site: Site, f: Format, a: Archive, t: Rows, z: Pk, mapping: map<Pk, Option<Pk>>, w: Rows, us: seq<Pk>,
      counts: map<Model, nat>, v: Rows, k: Key)
    requires Sound(site) && Keyed(t) && ZevRestored(site, f, a, t, z, Relink(mapping), w, us, counts, v)
    requires OrphanAt(site.schema, t, k) && NoRecord(site.reg, f, a, z, k)
    ensures k in w && w[k].zev.None? && w[k].fields == t[k].fields
  {
    RelinkOnlyLinks(mapping);
    RestoredIsReplaced(site, f, a, t, z, Relink(mapping), w, us, counts, v);
    NotHeld(site.reg, f, a, z, k);
    UnheldOrphanStays(
      site, t, z, Contracts(site.reg, f, a, z), Relink(mapping)(ZevRow(f, a, z)), RestRows(site.reg, f, a, z, Relink(mapping)), w, k);
  }

  /** An issued contract that has lost its community and goes with nothing. */
  ghost predicate OrphanAt(s: Schema, t: Rows, k: Key) {
    k in t && k.model == ContractIssue && t[k].zev.None? && s.cascade(t[k]) == {}
  }

  ghost predicate NoRecord(reg: Registry, f: Format, a: Archive, z: Pk, k: Key) {
    forall r | r in RestRows(reg, f, a, z, Same) :: KeyOf(r) != k
  }

  lemma NotHeld(reg: Registry, f: Format, a: Archive, z: Pk, k: Key)
    requires k.model == ContractIssue && NoRecord(reg, f, a, z, k)
    ensures k.pk !in Contracts(reg, f, a, z)
  {
  }

  lemma UnheldOrphanStays(site: Site, t: Rows, z: Pk, contracts: set<Pk>, zev: Row, rest: seq<Row>, w: Rows, k: Key)
    requires Sound(site) && Keyed(t) && Replaced(site.reg, site.schema, t, z, contracts, zev, rest, w)
    requires OrphanAt(site.schema, t, k) && k.pk !in contracts
    ensures k in w && w[k].zev.None? && w[k].fields == t[k].fields
  {
    UnheldOrphanIsLeft(site, t, z, contracts, k);
    SurvivorsStay(site.reg, site.schema, t, z, contracts, zev, rest, w);
  }

  lemma UnheldOrphanIsLeft(site: Site, t: Rows, z: Pk, contracts: set<Pk>, k: Key)
    requires Sound(site) && Keyed(t) && OrphanAt(site.schema, t, k) && k.pk !in contracts
    ensures
      var cleared := ClearedZev(site.reg, site.schema, t, z, contracts);
      k in cleared && cleared[k].zev.None? && cleared[k].fields == t[k].fields
  {
    var lost := ZevLost(site.reg, site.schema, t, z, contracts);
    TargetIff(site.reg, t, z, contracts, k);
    assert site.reg.lookup(ContractIssue) == Own;
    NoCascadeNotLost(site.schema, t, Targets(site.reg, t, z, contracts), k);
    ZevTargetsDoNotStay(site.reg, site.schema, t, z, contracts);
    LostDoNotStay(site.reg, site.schema, t, Targets(site.reg, t, z, contracts));
    assert CoherentAt(site.schema, t[k], lost);
  }
}
