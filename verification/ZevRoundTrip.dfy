/** Restore a community, then restore its safety backup: what the database is afterwards. */
module ZevRoundTrip {
  import opened Outcomes
  import opened Registry
  import opened Tables
  import opened References
  import opened ForeignKeys
  import opened Sections
  import opened Archive
  import opened Dump
  import opened Build
  import opened Loader
  import opened InstanceRestore
  import opened Accounts
  import opened Logins
  import opened ZevClear
  import opened ZevRestore
  import opened ZevLaws
  import opened ZevUndo

  // ---- The tables a first restore leaves ----

  /**
   * What a restore of the community made of tables `t0`: its rows are new, everything else is what the deletions left and
   * refers to nothing that was lost.
   */
  ghost predicate Settled(reg: Registry, s: Schema, t0: Rows, t1: Rows, z: Pk, lost: set<Key>) {
    && (forall k | Ours(reg, t1, z, k) :: k !in t0 || k in lost)
    && (forall k | k in t1 && !Ours(reg, t1, z, k) && k.model != Zev :: k in t0 && k !in lost && Refs(s, t1[k]) <= t0.Keys - lost)
    && (forall k | k in t0 && k !in lost && !Credential(k.model) :: k in t1)
    && (forall k | Ours(reg, t0, z, k) :: k in lost)
  }

  /** A row that is left refers to rows that are left. */
  lemma LeftRefs(reg: Registry, s: Schema, t: Rows, z: Pk, contracts: set<Pk>, k: Key)
    requires Suits(reg, s) && Keyed(t) && Whole(s, t) && ZevClearAllowed(reg, s, t, z, contracts)
    requires k in ClearedZev(reg, s, t, z, contracts)
    ensures Refs(s, ClearedZev(reg, s, t, z, contracts)[k]) <= t.Keys - ZevLost(reg, s, t, z, contracts)
  {
    LeftRow(reg, s, t, z, contracts, k);
    LostWithin(s, t, Targets(reg, t, z, contracts));
    NulledRefs(s, t[k], t.Keys, ZevLost(reg, s, t, z, contracts));
  }

  lemma OutsideIsLeft(
      reg: Registry, s: Schema, t: Rows, z: Pk, contracts: set<Pk>, zev: Row, rest: seq<Row>, w: Rows, k: Key)
    requires Suits(reg, s) && Keyed(t) && Whole(s, t) && Replaced(reg, s, t, z, contracts, zev, rest, w)
    requires k in w && !Ours(reg, w, z, k) && k.model != Zev
    ensures k in ClearedZev(reg, s, t, z, contracts) && w[k] == ClearedZev(reg, s, t, z, contracts)[k]
  {
    SurvivorsStay(reg, s, t, z, contracts, zev, rest, w);
    if k !in ClearedZev(reg, s, t, z, contracts) {
      assert w[k] in rest && KeyOf(w[k]) == k;
      LoadedRowsBelong(reg, s, t, z, contracts, zev, rest, w, k);
    }
  }

  lemma OursKept(reg: Registry, s: Schema, w: Rows, v: Rows, z: Pk, k: Key)
    requires Suits(reg, s) && Keyed(w) && Frame(w, v)
    ensures Ours(reg, v, z, k) <==> Ours(reg, w, z, k)
  {
    if k in w && Restored(reg, k.model) { FrameKeepsCommunity(reg, s, w, v, k); }
  }

  lemma NewlyOurs(
      reg: Registry, s: Schema, t: Rows, z: Pk, contracts: set<Pk>, zev: Row, rest: seq<Row>, w: Rows, v: Rows, k: Key)
    requires Suits(reg, s) && Keyed(t) && Keyed(w) && Whole(s, t) && Replaced(reg, s, t, z, contracts, zev, rest, w) && Frame(w, v)
    requires Ours(reg, v, z, k)
    ensures k !in t || k in ZevLost(reg, s, t, z, contracts)
  {
    OursKept(reg, s, w, v, z, k);
    OursAreInserted(reg, s, t, z, contracts, zev, rest, w, k);
    assert k !in ClearedZev(reg, s, t, z, contracts);
  }

  lemma OldOutside(
      reg: Registry, s: Schema, t: Rows, z: Pk, contracts: set<Pk>, zev: Row, rest: seq<Row>, w: Rows, v: Rows, k: Key)
    requires Suits(reg, s) && Keyed(t) && Keyed(w) && Whole(s, t) && Replaced(reg, s, t, z, contracts, zev, rest, w) && Frame(w, v)
    requires k in v && !Ours(reg, v, z, k) && k.model != Zev
    ensures k in t && k !in ZevLost(reg, s, t, z, contracts)
    ensures Refs(s, v[k]) <= t.Keys - ZevLost(reg, s, t, z, contracts)
  {
    OursKept(reg, s, w, v, z, k);
    OutsideIsLeft(reg, s, t, z, contracts, zev, rest, w, k);
    LeftRefs(reg, s, t, z, contracts, k);
    assert OnlyFields(w[k], v[k]);
    assert SameRefs(s, w[k], v[k]);
  }

  lemma LeftIsThere(
      reg: Registry, s: Schema, t: Rows, z: Pk, contracts: set<Pk>, zev: Row, rest: seq<Row>, w: Rows, v: Rows, k: Key)
    requires Replaced(reg, s, t, z, contracts, zev, rest, w) && Frame(w, v)
    requires k in t && k !in ZevLost(reg, s, t, z, contracts) && !Credential(k.model)
    ensures k in v
  {
    SurvivorsStay(reg, s, t, z, contracts, zev, rest, w);
    assert k in ClearedZev(reg, s, t, z, contracts);
  }

  lemma OursIsLost(reg: Registry, s: Schema, t: Rows, z: Pk, contracts: set<Pk>, k: Key)
    requires WellFormed(reg) && Ours(reg, t, z, k)
    ensures k in ZevLost(reg, s, t, z, contracts)
  {
    OurKeysIff(reg, t, z, k);
    LostWithin(s, t, Targets(reg, t, z, contracts));
  }

  lemma SettledAfterRestore(
      reg: Registry, s: Schema, t: Rows, z: Pk, contracts: set<Pk>, zev: Row, rest: seq<Row>, w: Rows, v: Rows)
    requires Suits(reg, s) && Keyed(t) && Keyed(w) && Whole(s, t) && Replaced(reg, s, t, z, contracts, zev, rest, w) && Frame(w, v)
    ensures Settled(reg, s, t, v, z, ZevLost(reg, s, t, z, contracts))
  {
    var lost := ZevLost(reg, s, t, z, contracts);
    forall k | Ours(reg, v, z, k) ensures k !in t || k in lost {
      NewlyOurs(reg, s, t, z, contracts, zev, rest, w, v, k);
    }
    forall k | k in v && !Ours(reg, v, z, k) && k.model != Zev ensures k in t && k !in lost && Refs(s, v[k]) <= t.Keys - lost {
      OldOutside(reg, s, t, z, contracts, zev, rest, w, v, k);
    }
    forall k | k in t && k !in lost && !Credential(k.model) ensures k in v {
      LeftIsThere(reg, s, t, z, contracts, zev, rest, w, v, k);
    }
    forall k | Ours(reg, t, z, k) ensures k in lost {
      OursIsLost(reg, s, t, z, contracts, k);
    }
  }

  // ---- Clearing a second time ----

  lemma OursAreNew(reg: Registry, s: Schema, t0: Rows, t1: Rows, z: Pk, lost: set<Key>)
    requires WellFormed(reg) && Settled(reg, s, t0, t1, z, lost)
    ensures OurKeys(reg, t1, z) !! t0.Keys - lost
  {
    forall k | k in OurKeys(reg, t1, z) ensures k !in t0.Keys - lost {
      OurKeysIff(reg, t1, z, k);
    }
  }

  lemma ZevRefersElsewhere(reg: Registry, s: Schema, t1: Rows, z: Pk, r: Row)
    requires WellFormed(reg) && FitsAt(reg, s, r) && r.model == Zev
    ensures Refs(s, r) !! OurKeys(reg, t1, z)
  {
    ZevOrderLists(reg);
    forall l | l in Refs(s, r) ensures l !in OurKeys(reg, t1, z) {
      assert RefFits(reg, r.model, l.model);
    }
  }

  /** Nothing outside the community refers into it. */
  lemma OutsideRefersElsewhere(reg: Registry, s: Schema, t0: Rows, t1: Rows, z: Pk, lost: set<Key>, k: Key)
    requires Suits(reg, s) && Keyed(t1) && Settled(reg, s, t0, t1, z, lost) && k in t1 && !Ours(reg, t1, z, k)
    ensures Refs(s, t1[k]) !! OurKeys(reg, t1, z)
  {
    OursAreNew(reg, s, t0, t1, z, lost);
    if k.model == Zev {
      assert FitsAt(reg, s, t1[k]);
      ZevRefersElsewhere(reg, s, t1, z, t1[k]);
    }
  }

  /** Within the community, rows refer to rows that are cleared later. */
  lemma OursRefersBackwards(reg: Registry, s: Schema, t1: Rows, z: Pk, r: Row, l: Key)
    requires WellFormed(reg) && !BackedUp(reg, ExportJob) && FitsAt(reg, s, r)
    requires Restored(reg, r.model) && r.model != Zev && Restored(reg, l.model) && l.model != Zev
    ensures l in s.guard(r) ==> Before(ZevOrder(reg), r.model, l.model)
    ensures l in s.cascade(r) ==> r.model == l.model || Before(ZevOrder(reg), r.model, l.model)
  {
    assert Listed(reg.zev, r.model);
    if Precedes(reg, l.model, r.model) { ZevDependantsFirst(reg, l.model, r.model); }
  }

  lemma SecondClearOrdered(reg: Registry, s: Schema, t0: Rows, t1: Rows, z: Pk, lost: set<Key>, k: Key)
    requires Suits(reg, s) && Keyed(t1) && Settled(reg, s, t0, t1, z, lost) && k in t1
    ensures OrderedAt(s, t1, ZevOrder(reg), OurKeys(reg, t1, z), {}, k)
  {
    var x := OurKeys(reg, t1, z);
    OurKeysIff(reg, t1, z, k);
    if !Ours(reg, t1, z, k) {
      OutsideRefersElsewhere(reg, s, t0, t1, z, lost, k);
    } else {
      assert FitsAt(reg, s, t1[k]);
      forall l | l in x
        ensures l in s.guard(t1[k]) ==> Before(ZevOrder(reg), k.model, l.model)
        ensures l in s.cascade(t1[k]) ==> k.model == l.model || Before(ZevOrder(reg), k.model, l.model)
      {
        OurKeysIff(reg, t1, z, l);
        OursRefersBackwards(reg, s, t1, z, t1[k], l);
      }
    }
  }

  /** The contracts of the safety backup were the community's, so none of them has lost its community since. */
  lemma NoOrphansNow(reg: Registry, s: Schema, t0: Rows, t1: Rows, z: Pk, lost: set<Key>, contracts: set<Pk>)
    requires Suits(reg, s) && Keyed(t1) && Settled(reg, s, t0, t1, z, lost)
    requires forall p | p in contracts :: Ours(reg, t0, z, Key(ContractIssue, p))
    ensures OrphanKeys(t1, contracts) == {}
  {
    forall k ensures k !in OrphanKeys(t1, contracts) {
      if k in t1 && k.model == ContractIssue && k.pk in contracts {
        assert k == Key(ContractIssue, k.pk);
        assert reg.lookup(ContractIssue) == Own;
        assert Ours(reg, t1, z, k);
      }
    }
  }

  lemma ConsTake<T>(x: T, xs: seq<T>)
    requires xs != []
    ensures ([x] + xs)[..|xs|] == [x] + xs[..|xs| - 1] && ([x] + xs)[|xs|] == xs[|xs| - 1]
  {
  }

  lemma {:induction false} EmptyFirst(s: Schema, t: Rows, targets: seq<set<Key>>)
    requires Coherent(s)
    ensures DeleteSeq(s, t, [{}] + targets) == DeleteSeq(s, t, targets)
    decreases |targets|
  {
    if targets == [] {
      assert [{}] + targets == [{}];
      EmptyDeletions(s, t, [{}]);
    } else {
      var n := |targets| - 1;
      ConsTake({}, targets);
      EmptyFirst(s, t, targets[..n]);
    }
  }

  /** Clearing the community again is not refused and takes exactly its rows. */
  lemma SecondClear(reg: Registry, s: Schema, t0: Rows, t1: Rows, z: Pk, lost: set<Key>, contracts: set<Pk>)
    requires Suits(reg, s) && Keyed(t1) && Settled(reg, s, t0, t1, z, lost)
    requires forall p | p in contracts :: Ours(reg, t0, z, Key(ContractIssue, p))
    ensures ZevClearAllowed(reg, s, t1, z, contracts)
    ensures ClearedZev(reg, s, t1, z, contracts) == t1 - OurKeys(reg, t1, z)
  {
    var order, x := ZevOrder(reg), OurKeys(reg, t1, z);
    ZevOrderLists(reg);
    forall k | k in t1 ensures OrderedAt(s, t1, order, x, {}, k) {
      SecondClearOrdered(reg, s, t0, t1, z, lost, k);
    }
    OrderedDeletions(s, t1, order, x, {}, |order|);
    assert ByModel(x, order)[..|order|] == ByModel(x, order);
    ByModelUnion(x, order);
    NoOrphansNow(reg, s, t0, t1, z, lost, contracts);
    EmptyFirst(s, t1, ByModel(x, order));
    SecondRemoval(reg, s, t0, t1, z, lost, contracts);
  }

  lemma SecondRemoval(reg: Registry, s: Schema, t0: Rows, t1: Rows, z: Pk, lost: set<Key>, contracts: set<Pk>)
    requires Suits(reg, s) && Keyed(t1) && Settled(reg, s, t0, t1, z, lost) && OrphanKeys(t1, contracts) == {}
    requires Lost(s, t1, OurKeys(reg, t1, z)) <= OurKeys(reg, t1, z)
    ensures ClearedZev(reg, s, t1, z, contracts) == t1 - OurKeys(reg, t1, z)
  {
    var x := OurKeys(reg, t1, z);
    assert Targets(reg, t1, z, contracts) == x;
    LostWithin(s, t1, x);
    assert x * t1.Keys == x;
    forall k | k in t1 && k !in x ensures s.nulled(t1[k], x) == t1[k] {
      NothingEmptied(reg, s, t0, t1, z, lost, k);
    }
    RemovedExactly(s, t1, x);
  }

  lemma NothingEmptied(reg: Registry, s: Schema, t0: Rows, t1: Rows, z: Pk, lost: set<Key>, k: Key)
    requires Suits(reg, s) && Keyed(t1) && Settled(reg, s, t0, t1, z, lost) && k in t1 && k !in OurKeys(reg, t1, z)
    ensures s.nulled(t1[k], OurKeys(reg, t1, z)) == t1[k]
  {
    OurKeysIff(reg, t1, z, k);
    OutsideRefersElsewhere(reg, s, t0, t1, z, lost, k);
    assert CoherentAt(s, t1[k], OurKeys(reg, t1, z));
  }

  lemma RemovedExactly(s: Schema, t: Rows, x: set<Key>)
    requires Lost(s, t, x) == x && forall k | k in t && k !in x :: s.nulled(t[k], x) == t[k]
    ensures Removal(s, t, x) == t - x
  {
  }

  // ---- Loading the original rows again ----

  /** The tables with the community's rows, and its own row, as they originally were. */
  ghost function Undone(reg: Registry, t0: Rows, t1: Rows, z: Pk): Rows {
    map k | k in (t1.Keys - OurKeys(reg, t1, z)) + OurKeys(reg, t0, z) + {Key(Zev, z)} && (k in t1 || k in t0) ::
      if k in t0 && (k in OurKeys(reg, t0, z) || k == Key(Zev, z) || k !in t1) then t0[k] else t1[k]
  }

  lemma UndoneAt(reg: Registry, t0: Rows, t1: Rows, z: Pk, k: Key)
    requires WellFormed(reg) && Key(Zev, z) in t0
    ensures k in Undone(reg, t0, t1, z) <==> Ours(reg, t0, z, k) || k == Key(Zev, z) || (k in t1 && !Ours(reg, t1, z, k))
    ensures k in Undone(reg, t0, t1, z) ==>
              Undone(reg, t0, t1, z)[k] == if Ours(reg, t0, z, k) || k == Key(Zev, z) then t0[k] else t1[k]
  {
    OurKeysIff(reg, t0, z, k);
    OurKeysIff(reg, t1, z, k);
  }

  /** Of the original rows of the community, none is there before they are loaded. */
  lemma OriginalIsGone(reg: Registry, s: Schema, t0: Rows, t1: Rows, z: Pk, lost: set<Key>, k: Key)
    requires WellFormed(reg) && Settled(reg, s, t0, t1, z, lost) && Ours(reg, t0, z, k)
    ensures k !in t1 || Ours(reg, t1, z, k)
  {
  }

  lemma UndoTables(reg: Registry, s: Schema, t0: Rows, t1: Rows, z: Pk, lost: set<Key>, rest: seq<Row>)
    requires WellFormed(reg) && Keyed(t0) && Key(Zev, z) in t0 && Settled(reg, s, t0, t1, z, lost) && ListsOurs(reg, t0, z, rest)
    ensures InsertAll(UndoBase(reg, t0, t1, z), rest) == Some(Undone(reg, t0, t1, z))
  {
    var base, w := UndoBase(reg, t0, t1, z), Undone(reg, t0, t1, z);
    forall k ensures k in base <==> k == Key(Zev, z) || (k in t1 && !Ours(reg, t1, z, k)) {
      UndoBaseAt(reg, t0, t1, z, k);
    }
    forall r | r in rest ensures KeyOf(r) !in base && KeyOf(r) in w && w[KeyOf(r)] == r {
      OriginalIsGone(reg, s, t0, t1, z, lost, KeyOf(r));
      UndoneAt(reg, t0, t1, z, KeyOf(r));
    }
    forall k | k in base ensures k in w && w[k] == base[k] {
      UndoneAt(reg, t0, t1, z, k);
      if Ours(reg, t0, z, k) { OriginalIsGone(reg, s, t0, t1, z, lost, k); }
    }
    forall k | k in w && k !in base ensures w[k] in rest && KeyOf(w[k]) == k {
      UndoneAt(reg, t0, t1, z, k);
    }
    InsertAllIff(base, rest);
    ExtendsUnique(base, rest, w, InsertAll(base, rest).value);
  }

  // ---- The counts agree again ----

  /** The row one of the community's rows belongs to is one of them. */
  lemma ParentIsOurs(reg: Registry, t0: Rows, z: Pk, k: Key, p: Key)
    requires WellFormed(reg) && Keyed(t0) && Ours(reg, t0, z, k) && BelongsTo(reg, t0[k], p)
    ensures Ours(reg, t0, z, p) && t0[p].zev == Some(z)
  {
    var i: nat, a: nat :| At(reg.zev, i, a, k.model) && i !in reg.kept;
    assert ParentFirst(reg, i, a, p.model);
    assert Restored(reg, p.model);
    assert p == Key(reg.lookup(t0[k].model).parent, t0[k].parent.value);
  }

  lemma OriginalsCount(reg: Registry, t0: Rows, t1: Rows, z: Pk, k: Key)
    requires WellFormed(reg) && Keyed(t0) && Key(Zev, z) in t0 && Ours(reg, t0, z, k)
    ensures k in Undone(reg, t0, t1, z) && Community(reg, Undone(reg, t0, t1, z), Undone(reg, t0, t1, z)[k]) == Some(z)
  {
    UndoneAt(reg, t0, t1, z, k);
    forall p | BelongsTo(reg, t0[k], p)
      ensures p in t0 && p in Undone(reg, t0, t1, z) && Undone(reg, t0, t1, z)[p].zev == t0[p].zev
    {
      ParentIsOurs(reg, t0, z, k, p);
      UndoneAt(reg, t0, t1, z, p);
    }
    SameCommunityOf(reg, t0, Undone(reg, t0, t1, z), t0[k], t0[k]);
  }

  lemma ParentOutside(reg: Registry, s: Schema, t0: Rows, t1: Rows, z: Pk, lost: set<Key>, k: Key, p: Key)
    requires Suits(reg, s) && Keyed(t1) && Settled(reg, s, t0, t1, z, lost) && Key(Zev, z) in t0
    requires k in t1 && !Ours(reg, t1, z, k) && Restored(reg, k.model) && k.model != Zev && BelongsTo(reg, t1[k], p)
    ensures p in t1 && p in Undone(reg, t0, t1, z) && Undone(reg, t0, t1, z)[p].zev == t1[p].zev
  {
    var i: nat, a: nat :| At(reg.zev, i, a, k.model) && i !in reg.kept;
    assert ParentFirst(reg, i, a, p.model);
    assert Restored(reg, p.model);
    assert FitsAt(reg, s, t1[k]);
    assert p in Refs(s, t1[k]);
    UndoneAt(reg, t0, t1, z, p);
  }

  lemma OthersDoNotCount(reg: Registry, s: Schema, t0: Rows, t1: Rows, z: Pk, lost: set<Key>, k: Key)
    requires Suits(reg, s) && Keyed(t0) && Keyed(t1) && Settled(reg, s, t0, t1, z, lost) && Key(Zev, z) in t0
    requires k in t1 && !Ours(reg, t1, z, k) && !Ours(reg, t0, z, k) && Restored(reg, k.model) && k.model != Zev
    ensures k in Undone(reg, t0, t1, z) && Community(reg, Undone(reg, t0, t1, z), Undone(reg, t0, t1, z)[k]) != Some(z)
  {
    UndoneAt(reg, t0, t1, z, k);
    forall p | BelongsTo(reg, t1[k], p)
      ensures (p in Undone(reg, t0, t1, z) <==> p in t1) && (p in t1 ==> Undone(reg, t0, t1, z)[p].zev == t1[p].zev)
    {
      ParentOutside(reg, s, t0, t1, z, lost, k, p);
    }
    SameCommunityOf(reg, t1, Undone(reg, t0, t1, z), t1[k], t1[k]);
  }

  lemma ScopedIsOriginal(reg: Registry, s: Schema, t0: Rows, t1: Rows, z: Pk, lost: set<Key>, m: Model, k: Key)
    requires Suits(reg, s) && Keyed(t0) && Keyed(t1) && Settled(reg, s, t0, t1, z, lost) && Key(Zev, z) in t0
    requires Restored(reg, m) && m != Zev
    ensures k in ScopedKeys(reg, Undone(reg, t0, t1, z), z, m) <==> Ours(reg, t0, z, k) && k.model == m
  {
    UndoneAt(reg, t0, t1, z, k);
    if k.model == m {
      if Ours(reg, t0, z, k) {
        OriginalsCount(reg, t0, t1, z, k);
      } else if k in t1 && !Ours(reg, t1, z, k) {
        OthersDoNotCount(reg, s, t0, t1, z, lost, k);
      }
    }
  }

  /** The tables the original rows are loaded into. */
  ghost function UndoBase(reg: Registry, t0: Rows, t1: Rows, z: Pk): Rows
    requires Key(Zev, z) in t0
  {
    (t1 - OurKeys(reg, t1, z))[Key(Zev, z) := t0[Key(Zev, z)]]
  }

  lemma UndoBaseAt(reg: Registry, t0: Rows, t1: Rows, z: Pk, k: Key)
    requires WellFormed(reg) && Key(Zev, z) in t0
    ensures k in UndoBase(reg, t0, t1, z) <==> k == Key(Zev, z) || (k in t1 && !Ours(reg, t1, z, k))
  {
    OurKeysIff(reg, t1, z, k);
  }

  /** What is inserted are the community's original rows. */
  lemma InsertedIsOriginal(reg: Registry, s: Schema, t0: Rows, t1: Rows, z: Pk, lost: set<Key>, m: Model, k: Key)
    requires WellFormed(reg) && Settled(reg, s, t0, t1, z, lost) && Key(Zev, z) in t0 && m != Zev
    ensures k in Inserted(UndoBase(reg, t0, t1, z).Keys, Undone(reg, t0, t1, z).Keys, m) <==> Ours(reg, t0, z, k) && k.model == m
  {
    InsertedIff(UndoBase(reg, t0, t1, z).Keys, Undone(reg, t0, t1, z).Keys, m, k);
    UndoneAt(reg, t0, t1, z, k);
    UndoBaseAt(reg, t0, t1, z, k);
    if Ours(reg, t0, z, k) { OriginalIsGone(reg, s, t0, t1, z, lost, k); }
  }

  lemma UndoCounts(reg: Registry, s: Schema, t0: Rows, t1: Rows, z: Pk, lost: set<Key>, rest: seq<Row>, m: Model)
    requires Suits(reg, s) && Keyed(t0) && Keyed(t1) && Settled(reg, s, t0, t1, z, lost) && Key(Zev, z) in t0
    requires ListsOurs(reg, t0, z, rest) && Restored(reg, m) && m != Zev
    ensures |ScopedKeys(reg, Undone(reg, t0, t1, z), z, m)| == Get(Tally(rest), m)
  {
    UndoTables(reg, s, t0, t1, z, lost, rest);
    InsertedKeys(UndoBase(reg, t0, t1, z), rest, Undone(reg, t0, t1, z), m);
    ScopedIsInserted(reg, s, t0, t1, z, lost, m);
  }

  lemma ScopedIsInserted(reg: Registry, s: Schema, t0: Rows, t1: Rows, z: Pk, lost: set<Key>, m: Model)
    requires Suits(reg, s) && Keyed(t0) && Keyed(t1) && Settled(reg, s, t0, t1, z, lost) && Key(Zev, z) in t0
    requires Restored(reg, m) && m != Zev
    ensures
      var w := Undone(reg, t0, t1, z);
      Inserted(UndoBase(reg, t0, t1, z).Keys, w.Keys, m) == ScopedKeys(reg, w, z, m)
  {
    var a, b := Inserted(UndoBase(reg, t0, t1, z).Keys, Undone(reg, t0, t1, z).Keys, m), ScopedKeys(reg, Undone(reg, t0, t1, z), z, m);
    forall k ensures k in a <==> k in b {
      InsertedIsOriginal(reg, s, t0, t1, z, lost, m, k);
      ScopedIsOriginal(reg, s, t0, t1, z, lost, m, k);
    }
    SameSet(a, b);
  }

  lemma SameSet(a: set<Key>, b: set<Key>)
    requires forall k :: k in a <==> k in b
    ensures a == b
  {
  }

  lemma UndoneIsKeyed(reg: Registry, t0: Rows, t1: Rows, z: Pk)
    requires WellFormed(reg) && Keyed(t0) && Keyed(t1) && Key(Zev, z) in t0
    ensures Keyed(Undone(reg, t0, t1, z))
  {
    forall k | k in Undone(reg, t0, t1, z) ensures KeyOf(Undone(reg, t0, t1, z)[k]) == k {
      UndoneAt(reg, t0, t1, z, k);
    }
  }

  lemma OwnCount(reg: Registry, t0: Rows, t1: Rows, z: Pk)
    requires WellFormed(reg) && Keyed(t0) && Keyed(t1) && Key(Zev, z) in t0
    ensures |ScopedKeys(reg, Undone(reg, t0, t1, z), z, Zev)| == 1
  {
    UndoneIsKeyed(reg, t0, t1, z);
    UndoneAt(reg, t0, t1, z, Key(Zev, z));
    assert ScopedKeys(reg, Undone(reg, t0, t1, z), z, Zev) == {Key(Zev, z)};
  }

  lemma UndoCountsAgree(
      reg: Registry, s: Schema, t0: Rows, t1: Rows, z: Pk, lost: set<Key>, rest: seq<Row>, counts: map<Model, nat>, v: Rows)
    requires Suits(reg, s) && Keyed(t0) && Keyed(t1) && Settled(reg, s, t0, t1, z, lost) && Key(Zev, z) in t0
    requires ListsOurs(reg, t0, z, rest) && LoadedCount(counts, rest) && Frame(Undone(reg, t0, t1, z), v)
    ensures ZevCountsAgree(reg, v, z, counts)
  {
    UndoneIsKeyed(reg, t0, t1, z);
    forall m | Restored(reg, m) ensures |ScopedKeys(reg, v, z, m)| == Get(counts, m) {
      FrameKeepsCounts(reg, s, Undone(reg, t0, t1, z), v, z, m);
      if m == Zev {
        OwnCount(reg, t0, t1, z);
      } else {
        UndoCounts(reg, s, t0, t1, z, lost, rest, m);
      }
    }
  }

  // ---- Accounts did not change ----

  /** Every link of the community's restored rows names an account, and every account has a username. */
  ghost predicate LinksHold(reg: Registry, t: Rows, z: Pk) {
    && (forall k, u | Returned(reg, t, z, k) && u in Linked(t[k].users) :: Key(User, u) in t)
    && (forall k | k in t && k.model == User :: Field(t[k], "username") != "")
  }

  /** The same accounts, recognised by the same email and username, with a version that has not gone back. */
  ghost predicate SameAccounts(login: Login, t0: Rows, t1: Rows) {
    (forall k: Key | k.model == User :: k in t0 <==> k in t1) && SameIdentities(login, t0, t1)
  }

  lemma SameAccountsAnswer(login: Login, reg: Registry, t0: Rows, t1: Rows, z: Pk, fold: string -> string)
    requires Keyed(t0) && SameAccounts(login, t0, t1) && LinksHold(reg, t0, z) && AccountsUnique(t0, fold)
    ensures AccountsUnique(t1, fold) && AccountsAnswer(reg, t0, t1, z, fold)
  {
    forall k, u | Returned(reg, t0, z, k) && u in Linked(t0[k].users) ensures Answers(t0, t1, fold, u) {
      var user := Key(User, u);
      assert user in t0 && user in t1;
      UnchangedAnswers(t0[user], t1, fold, u);
    }
    forall k, l | k in t1 && l in t1 && k.model == User && l.model == User && k != l
      ensures Field(t1[k], "username") != Field(t1[l], "username")
      ensures Field(t1[k], "email") != "" && Field(t1[l], "email") != "" ==> fold(Field(t1[k], "email")) != fold(Field(t1[l], "email"))
    {
      assert k in t0 && l in t0;
    }
  }

  /** A restore leaves the accounts recognisable. */
  lemma RestoreKeepsAccounts(
      site: Site, t: Rows, z: Pk, contracts: set<Pk>, zev: Row, rest: seq<Row>, w: Rows, v: Rows)
    requires Sound(site) && Keyed(t) && Replaced(site.reg, site.schema, t, z, contracts, zev, rest, w)
    requires Frame(w, v) && SameIdentities(site.login, w, v)
    ensures SameAccounts(site.login, t, v)
    ensures forall k: Key | k.model == User :: SameAt(t, w, k)
  {
    forall k: Key | k.model == User ensures SameAt(t, w, k) {
      UserUntouched(site.reg, site.schema, t, z, contracts, zev, rest, w, k);
    }
    AccountsThroughFrame(site.login, t, w, v);
  }

  lemma AccountsThroughFrame(login: Login, t: Rows, w: Rows, v: Rows)
    requires (forall k: Key | k.model == User :: SameAt(t, w, k)) && Frame(w, v) && SameIdentities(login, w, v)
    ensures SameAccounts(login, t, v)
  {
    forall k: Key | k.model == User ensures k in t <==> k in v {
      assert SameAt(t, w, k);
    }
    forall k | k in t && k in v && k.model == User
      ensures Field(v[k], "email") == Field(t[k], "email") && Field(v[k], "username") == Field(t[k], "username")
      ensures login.version(v[k]) >= login.version(t[k])
    {
      assert SameAt(t, w, k);
    }
  }

  lemma UserUntouched(
      reg: Registry, s: Schema, t: Rows, z: Pk, contracts: set<Pk>, zev: Row, rest: seq<Row>, w: Rows, k: Key)
    requires Suits(reg, s) && Keyed(t) && Replaced(reg, s, t, z, contracts, zev, rest, w) && k.model == User
    ensures SameAt(t, w, k)
  {
    UserStays(reg);
    SurvivorsStay(reg, s, t, z, contracts, zev, rest, w);
    ZevTargetsDoNotStay(reg, s, t, z, contracts);
    StayingIsUntouched(reg, s, t, Targets(reg, t, z, contracts), k);
  }

  /** With every link fixed, what is loaded is what was saved. */
  lemma RelinkedRestIsRest(reg: Registry, t0: Rows, z: Pk, mapping: map<Pk, Option<Pk>>, rest: seq<Row>)
    requires ListsOurs(reg, t0, z, rest) && forall k | Returned(reg, t0, z, k) :: FixesLinks(mapping, t0[k])
    ensures Mapped(Relink(mapping), rest) == rest
  {
    forall i | 0 <= i < |rest| ensures Relink(mapping)(rest[i]) == rest[i] {
      assert rest[i] in rest;
      assert Returned(reg, t0, z, KeyOf(rest[i]));
      RelinkIsIdentityIff(mapping, rest[i]);
    }
  }

  // ---- The second restore ----

  lemma BackupContracts(reg: Registry, f: Format, t0: Rows, b: Archive, z: Pk)
    requires ListsOurs(reg, t0, z, RestRows(reg, f, b, z, Same))
    ensures forall p | p in Contracts(reg, f, b, z) :: Ours(reg, t0, z, Key(ContractIssue, p))
  {
  }

  /** Every account the community names is relinked to itself. */
  lemma UndoFixesLinks(
      login: Login, reg: Registry, f: Format, t0: Rows, storage: Storage, b: Archive, t1: Rows, z: Pk, fold: string -> string,
      mapping: map<Pk, Option<Pk>>)
    requires WellFormed(reg) && Keyed(t0) && Built(reg, f, t0, storage, b) && z in b.manifest.zevs
    requires SameAccounts(login, t0, t1) && LinksHold(reg, t0, z) && AccountsUnique(t0, fold) && FoldKeepsEmpty(fold)
    requires Resolved(f, b, t1, z, fold, mapping)
    ensures forall k | Returned(reg, t0, z, k) :: FixesLinks(mapping, t0[k])
  {
    SameAccountsAnswer(login, reg, t0, t1, z, fold);
    assert HoldsZev(reg, f, t0, storage, b.files, b.manifest.members, b.manifest.counts, z);
    FixesIff(reg, f, t0, b.files, t1, z, fold, mapping);
  }

  /** The safety backup loads over the tables a restore left, and gives the community back as it was. */
  lemma UndoLoads(
      site: Site, f: Format, t0: Rows, storage: Storage, b: Archive, t1: Rows, z: Pk, lost: set<Key>,
      mapping: map<Pk, Option<Pk>>)
    requires Sound(site) && Keyed(t0) && Keyed(t1) && Key(Zev, z) in t0 && Settled(site.reg, site.schema, t0, t1, z, lost)
    requires Built(site.reg, f, t0, storage, b) && z in b.manifest.zevs
    requires forall k | Returned(site.reg, t0, z, k) :: FixesLinks(mapping, t0[k])
    ensures ZevLoaded(site, f, b, t1, z, Relink(mapping), Undone(site.reg, t0, t1, z))
    ensures ListsOurs(site.reg, t0, z, RestRows(site.reg, f, b, z, Relink(mapping)))
  {
    var reg, rest, contracts := site.reg, RestRows(site.reg, f, b, z, Same), Contracts(site.reg, f, b, z);
    BackupZevRow(reg, f, t0, storage, b, z);
    BackupRest(reg, f, t0, storage, b, z);
    BackupContracts(reg, f, t0, b, z);
    StreamMapped(AllRest(reg, z), f, b.files, Relink(mapping));
    RelinkedRestIsRest(reg, t0, z, mapping, rest);
    assert Returned(reg, t0, z, Key(Zev, z));
    RelinkIsIdentityIff(mapping, t0[Key(Zev, z)]);
    SecondClear(reg, site.schema, t0, t1, z, lost, contracts);
    UndoTables(reg, site.schema, t0, t1, z, lost, rest);
  }

  // ---- Exactly as before ----

  /** No row outside the community is lost with it, and none refers to a row that is: no orphaned contract is replaced, either. */
  ghost predicate NothingElse(reg: Registry, s: Schema, t: Rows, z: Pk, lost: set<Key>) {
    forall k | k in t && !Ours(reg, t, z, k) :: k !in lost && s.setNull(t[k]) !! lost
  }

  lemma LeftAloneAt(
      reg: Registry, s: Schema, t: Rows, z: Pk, contracts: set<Pk>, zev: Row, rest: seq<Row>, w: Rows, k: Key)
    requires Suits(reg, s) && Keyed(t) && Whole(s, t) && Replaced(reg, s, t, z, contracts, zev, rest, w)
    requires k.model != Zev && !Ours(reg, t, z, k)
    ensures
      var lost := ZevLost(reg, s, t, z, contracts);
      (k in t && k !in lost && s.setNull(t[k]) !! lost ==> SameAt(t, w, k)) &&
      (k in t && SameAt(t, w, k) && !Ours(reg, w, z, k) ==> k !in lost && s.setNull(t[k]) !! lost) &&
      (k !in t && k in w ==> Ours(reg, w, z, k))
  {
    var lost := ZevLost(reg, s, t, z, contracts);
    if k in t { assert CoherentAt(s, t[k], lost); }
    if Restored(reg, k.model) {
      ElsewhereStays(reg, s, t, z, contracts, zev, rest, w, k);
    } else {
      UnrestoredStays(reg, s, t, z, contracts, zev, rest, w, k);
    }
  }

  /** A community's own row is not lost and refers to nothing that is. */
  lemma OwnRowsStay(reg: Registry, s: Schema, t: Rows, z: Pk, contracts: set<Pk>, k: Key)
    requires Suits(reg, s) && Keyed(t) && k in t && k.model == Zev
    ensures k !in ZevLost(reg, s, t, z, contracts) && s.setNull(t[k]) !! ZevLost(reg, s, t, z, contracts)
  {
    ZevTargetsDoNotStay(reg, s, t, z, contracts);
    LostDoNotStay(reg, s, t, Targets(reg, t, z, contracts));
    assert FitsAt(reg, s, t[k]);
  }

  /** Another community's own row is as it was, unless the own-row record was written over it. */
  lemma OtherOwnRow(reg: Registry, s: Schema, t: Rows, z: Pk, contracts: set<Pk>, zev: Row, rest: seq<Row>, w: Rows, k: Key)
    requires Suits(reg, s) && Keyed(t) && Replaced(reg, s, t, z, contracts, zev, rest, w) && k.model == Zev && k != KeyOf(zev)
    ensures SameAt(t, w, k)
  {
    UnrestoredStays(reg, s, t, z, contracts, zev, rest, w, k);
    if k in t {
      OwnRowsStay(reg, s, t, z, contracts, k);
      assert CoherentAt(s, t[k], ZevLost(reg, s, t, z, contracts));
    }
  }

  lemma LeftIsNotOurs(
      reg: Registry, s: Schema, t: Rows, z: Pk, contracts: set<Pk>, zev: Row, rest: seq<Row>, w: Rows, k: Key)
    requires Suits(reg, s) && Keyed(t) && Whole(s, t) && Replaced(reg, s, t, z, contracts, zev, rest, w)
    requires k in t && k !in ZevLost(reg, s, t, z, contracts)
    ensures !Ours(reg, w, z, k)
  {
    if Ours(reg, w, z, k) {
      OursAreInserted(reg, s, t, z, contracts, zev, rest, w, k);
    }
  }

  /** With nothing else lost and a fitting own-row record, undoing gives back the original at every key. */
  lemma UndoneSameAt(
      reg: Registry, s: Schema, t: Rows, z: Pk, contracts: set<Pk>, zev: Row, rest: seq<Row>, w: Rows, k: Key)
    requires Suits(reg, s) && Keyed(t) && Whole(s, t) && Replaced(reg, s, t, z, contracts, zev, rest, w) && Key(Zev, z) in t
    requires OwnRowFits(t, z, zev) && NothingElse(reg, s, t, z, ZevLost(reg, s, t, z, contracts))
    ensures SameAt(t, Undone(reg, t, w, z), k)
  {
    UndoneAt(reg, t, w, z, k);
    SurvivorsStay(reg, s, t, z, contracts, zev, rest, w);
    if k.model == Zev {
      if k != KeyOf(zev) { OtherOwnRow(reg, s, t, z, contracts, zev, rest, w, k); }
    } else if !Ours(reg, t, z, k) {
      LeftAloneAt(reg, s, t, z, contracts, zev, rest, w, k);
      if k in t { LeftIsNotOurs(reg, s, t, z, contracts, zev, rest, w, k); }
    }
  }

  /** If undoing gives back the original, nothing else was lost. */
  lemma SameMeansNothingElse(
      reg: Registry, s: Schema, t: Rows, z: Pk, contracts: set<Pk>, zev: Row, rest: seq<Row>, w: Rows, k: Key)
    requires Suits(reg, s) && Keyed(t) && Whole(s, t) && Replaced(reg, s, t, z, contracts, zev, rest, w) && Key(Zev, z) in t
    requires Undone(reg, t, w, z) == t && k in t && !Ours(reg, t, z, k)
    ensures k !in ZevLost(reg, s, t, z, contracts) && s.setNull(t[k]) !! ZevLost(reg, s, t, z, contracts)
  {
    UndoneAt(reg, t, w, z, k);
    if k.model == Zev {
      OwnRowsStay(reg, s, t, z, contracts, k);
    } else {
      LeftAloneAt(reg, s, t, z, contracts, zev, rest, w, k);
    }
  }

  lemma UndoneIsOriginalIff(reg: Registry, s: Schema, t: Rows, z: Pk, contracts: set<Pk>, zev: Row, rest: seq<Row>, w: Rows)
    requires Suits(reg, s) && Keyed(t) && Whole(s, t) && Replaced(reg, s, t, z, contracts, zev, rest, w) && Key(Zev, z) in t
    ensures Undone(reg, t, w, z) == t <==> OwnRowFits(t, z, zev) && NothingElse(reg, s, t, z, ZevLost(reg, s, t, z, contracts))
  {
    if OwnRowFits(t, z, zev) && NothingElse(reg, s, t, z, ZevLost(reg, s, t, z, contracts)) {
      forall k ensures SameAt(t, Undone(reg, t, w, z), k) {
        UndoneSameAt(reg, s, t, z, contracts, zev, rest, w, k);
      }
      SameEverywhere(t, Undone(reg, t, w, z));
    }
    if Undone(reg, t, w, z) == t {
      forall k | k in t && !Ours(reg, t, z, k)
        ensures k !in ZevLost(reg, s, t, z, contracts) && s.setNull(t[k]) !! ZevLost(reg, s, t, z, contracts)
      {
        SameMeansNothingElse(reg, s, t, z, contracts, zev, rest, w, k);
      }
      SurvivorsStay(reg, s, t, z, contracts, zev, rest, w);
      UndoneAt(reg, t, w, z, KeyOf(zev));
    }
  }

  lemma SameEverywhere(t: Rows, v: Rows)
    requires forall k :: SameAt(t, v, k)
    ensures t == v
  {
    forall k ensures k in t <==> k in v {
      assert SameAt(t, v, k);
    }
    forall k | k in t ensures t[k] == v[k] {
      assert SameAt(t, v, k);
    }
  }

  // ---- Signed out for good ----

  /** An account that was signed out by either restore shows it. */
  lemma SignedOutShows(
      site: Site, t: Rows, z: Pk, contracts: set<Pk>, zev: Row, rest: seq<Row>, w: Rows, us: seq<Pk>, t1: Rows, us': seq<Pk>, v: Rows)
    requires Sound(site) && Keyed(t) && Replaced(site.reg, site.schema, t, z, contracts, zev, rest, w) && Key(Zev, z) in t
    requires Managers(w, z, us) && ProtectAll(site.login, w, us) == Some(t1)
    requires Managers(Undone(site.reg, t, t1, z), z, us') && ProtectAll(site.login, Undone(site.reg, t, t1, z), us') == Some(v)
    requires us != [] || us' != []
    ensures v != t
  {
    var undone := Undone(site.reg, t, t1, z);
    ProtectAllFrame(site.login, w, us);
    ProtectAllFrame(site.login, undone, us');
    RestoreKeepsAccounts(site, t, z, contracts, zev, rest, w, t1);
    if us != [] {
      var user := Key(User, us[0]);
      assert us[0] in us;
      NewlyManagingIff(w, z, us[0]);
      ProtectAllSignsOut(site.login, w, us, us[0]);
      UserInUndone(site.reg, t, t1, z, user);
      VersionShows(site.login, t, w, t1, undone, v, user);
    } else {
      var user := Key(User, us'[0]);
      assert us'[0] in us';
      NewlyManagingIff(undone, z, us'[0]);
      ProtectAllSignsOut(site.login, undone, us', us'[0]);
      UserInUndone(site.reg, t, t1, z, user);
    }
  }

  lemma UserInUndone(reg: Registry, t0: Rows, t1: Rows, z: Pk, k: Key)
    requires WellFormed(reg) && Key(Zev, z) in t0 && k.model == User
    ensures SameAt(t1, Undone(reg, t0, t1, z), k)
  {
    assert Restored(reg, User) ==> Listed(reg.zev, User);
    UndoneAt(reg, t0, t1, z, k);
  }

  lemma VersionShows(login: Login, t: Rows, w: Rows, t1: Rows, undone: Rows, v: Rows, user: Key)
    requires user.model == User && SameAt(t, w, user) && user in w && user in t1 && SameAt(t1, undone, user)
    requires login.version(t1[user]) > login.version(w[user]) && Frame(undone, v) && SameIdentities(login, undone, v)
    ensures v != t
  {
    assert user in v;
  }

  // ---- The round trip ----

  /** Tables in order before the first restore: keys, references and accounts hold, and the community exists. */
  ghost predicate InOrder(site: Site, t: Rows, z: Pk, fold: string -> string) {
    && Keyed(t) && Whole(site.schema, t) && Key(Zev, z) in t
    && LinksHold(site.reg, t, z) && AccountsUnique(t, fold) && FoldKeepsEmpty(fold)
  }

  /** A backup of the community as it is in `t0`, its accounts resolved among those of `t1`. */
  ghost predicate IsBackup(
      site: Site, f: Format, t0: Rows, storage: Storage, z: Pk, b: Archive, t1: Rows, fold: string -> string, mapping: map<Pk, Option<Pk>>)
  {
    Built(site.reg, f, t0, storage, b) && z in b.manifest.zevs && Resolved(f, b, t1, z, fold, mapping)
  }

  /** The logins the undone tables call for are protected, which gives `v`. */
  ghost predicate UndoProtected(site: Site, t0: Rows, t1: Rows, z: Pk, us: seq<Pk>, v: Rows) {
    Managers(Undone(site.reg, t0, t1, z), z, us) && ProtectAll(site.login, Undone(site.reg, t0, t1, z), us) == Some(v)
  }

  lemma UndoIsExactIff(
      site: Site, t: Rows, z: Pk, contracts: set<Pk>, zev: Row, rest: seq<Row>, w: Rows, us: seq<Pk>, t1: Rows, us': seq<Pk>, v: Rows)
    requires Sound(site) && Keyed(t) && Whole(site.schema, t) && Key(Zev, z) in t
    requires Replaced(site.reg, site.schema, t, z, contracts, zev, rest, w)
    requires Managers(w, z, us) && ProtectAll(site.login, w, us) == Some(t1) && UndoProtected(site, t, t1, z, us', v)
    ensures v == t <==>
            && us == [] && us' == [] && OwnRowFits(t, z, zev)
            && NothingElse(site.reg, site.schema, t, z, ZevLost(site.reg, site.schema, t, z, contracts))
  {
    if us != [] || us' != [] {
      SignedOutShows(site, t, z, contracts, zev, rest, w, us, t1, us', v);
    } else {
      UndoneIsOriginalIff(site.reg, site.schema, t, z, contracts, zev, rest, w);
    }
  }

  lemma FrameIsKeyed(w: Rows, v: Rows)
    requires Keyed(w) && Frame(w, v)
    ensures Keyed(v)
  {
    forall k | k in v ensures KeyOf(v[k]) == k {
      assert OnlyFields(w[k], v[k]);
    }
  }

  lemma UndoGoesThrough(
      site: Site, f: Format, t0: Rows, storage: Storage, z: Pk, fold: string -> string,
      contracts: set<Pk>, zev: Row, rest: seq<Row>, w: Rows, us: seq<Pk>, t1: Rows,
      b: Archive, mapping: map<Pk, Option<Pk>>, us': seq<Pk>, counts: map<Model, nat>, v: Rows)
    requires Sound(site) && InOrder(site, t0, z, fold) && Keyed(w)
    requires Replaced(site.reg, site.schema, t0, z, contracts, zev, rest, w) && ProtectAll(site.login, w, us) == Some(t1)
    requires IsBackup(site, f, t0, storage, z, b, t1, fold, mapping) && UndoProtected(site, t0, t1, z, us', v)
    requires LoadedCount(counts, RestRows(site.reg, f, b, z, Relink(mapping)))
    ensures ZevRestored(site, f, b, t1, z, Relink(mapping), Undone(site.reg, t0, t1, z), us', counts, v)
  {
    var lost := ZevLost(site.reg, site.schema, t0, z, contracts);
    ProtectAllFrame(site.login, w, us);
    FrameIsKeyed(w, t1);
    SettledAfterRestore(site.reg, site.schema, t0, z, contracts, zev, rest, w, t1);
    RestoreKeepsAccounts(site, t0, z, contracts, zev, rest, w, t1);
    UndoFixesLinks(site.login, site.reg, f, t0, storage, b, t1, z, fold, mapping);
    UndoLoads(site, f, t0, storage, b, t1, z, lost, mapping);
    ProtectAllFrame(site.login, Undone(site.reg, t0, t1, z), us');
    UndoCountsAgree(site.reg, site.schema, t0, t1, z, lost, RestRows(site.reg, f, b, z, Relink(mapping)), counts, v);
  }

  /** What an archive's restore of the community takes from outside it, and what it writes there: nothing. */
  ghost predicate TakesNothingElse(site: Site, f: Format, a: Archive, t: Rows, z: Pk, mapping: map<Pk, Option<Pk>>) {
    && OwnRowFits(t, z, Relink(mapping)(ZevRow(f, a, z)))
    && NothingElse(site.reg, site.schema, t, z, ZevLost(site.reg, site.schema, t, z, Contracts(site.reg, f, a, z)))
  }

  /**
   * Restore a community from any archive, then restore the safety backup taken just before. The second restore is not
   * refused, loads without a clash and passes its count; it gives the tables the first one left with the community as it
   * originally was.
   */
  lemma UndoSucceeds(
      site: Site, f: Format, t0: Rows, storage: Storage, z: Pk, fold: string -> string,
      a: Archive, mapping: map<Pk, Option<Pk>>, w: Rows, us: seq<Pk>, counts: map<Model, nat>, t1: Rows,
      b: Archive, mapping': map<Pk, Option<Pk>>, us': seq<Pk>, counts': map<Model, nat>, v: Rows)
    requires Sound(site) && InOrder(site, t0, z, fold)
    requires ZevRestored(site, f, a, t0, z, Relink(mapping), w, us, counts, t1)
    requires IsBackup(site, f, t0, storage, z, b, t1, fold, mapping') && UndoProtected(site, t0, t1, z, us', v)
    requires LoadedCount(counts', RestRows(site.reg, f, b, z, Relink(mapping')))
    ensures ZevRestored(site, f, b, t1, z, Relink(mapping'), Undone(site.reg, t0, t1, z), us', counts', v)
  {
    RelinkOnlyLinks(mapping);
    RestoredIsReplaced(site, f, a, t0, z, Relink(mapping), w, us, counts, t1);
    UndoGoesThrough(
      site, f, t0, storage, z, fold, Contracts(site.reg, f, a, z), Relink(mapping)(ZevRow(f, a, z)),
      RestRows(site.reg, f, a, z, Relink(mapping)), w, us, t1, b, mapping', us', counts', v);
  }

  /**
   * After that round trip the whole database is as it was at first if and only if neither restore made an account a manager
   * without a protected login, the archive's own-row record was the community's or changed nothing, and nothing outside the
   * community was lost with it: no row that cascades to it, no reference to it, no orphaned contract the archive held.
   */
  lemma UndoIsExact(
      site: Site, f: Format, t0: Rows, z: Pk, fold: string -> string,
      a: Archive, mapping: map<Pk, Option<Pk>>, w: Rows, us: seq<Pk>, counts: map<Model, nat>, t1: Rows, us': seq<Pk>, v: Rows)
    requires Sound(site) && InOrder(site, t0, z, fold)
    requires ZevRestored(site, f, a, t0, z, Relink(mapping), w, us, counts, t1) && UndoProtected(site, t0, t1, z, us', v)
    ensures v == t0 <==> us == [] && us' == [] && TakesNothingElse(site, f, a, t0, z, mapping)
  {
    RelinkOnlyLinks(mapping);
    RestoredIsReplaced(site, f, a, t0, z, Relink(mapping), w, us, counts, t1);
    UndoIsExactIff(
      site, t0, z, Contracts(site.reg, f, a, z), Relink(mapping)(ZevRow(f, a, z)), RestRows(site.reg, f, a, z, Relink(mapping)),
      w, us, t1, us', v);
  }

  // ---- The same backup over its own tables ----

  /** A community brought back as it was over its own tables. */
  lemma BroughtBackIff(
      site: Site, t: Rows, z: Pk, contracts: set<Pk>, zev: Row, rest: seq<Row>, w: Rows, us: seq<Pk>, v: Rows)
    requires Sound(site) && Keyed(t) && Whole(site.schema, t) && zev.pk == z
    requires Replaced(site.reg, site.schema, t, z, contracts, zev, rest, w) && SameCommunity(site.reg, t, w, z)
    requires Managers(w, z, us) && ProtectAll(site.login, w, us) == Some(v)
    ensures v == t <==> us == [] && NothingElse(site.reg, site.schema, t, z, ZevLost(site.reg, site.schema, t, z, contracts))
  {
    if us != [] {
      OnceSignedOut(site, t, z, contracts, zev, rest, w, us, v);
    } else {
      BroughtBackIsUndone(site.reg, t, z, w);
      UndoneIsOriginalIff(site.reg, site.schema, t, z, contracts, zev, rest, w);
    }
  }

  lemma BroughtBackIsUndone(reg: Registry, t: Rows, z: Pk, w: Rows)
    requires WellFormed(reg) && SameCommunity(reg, t, w, z)
    ensures Undone(reg, t, w, z) == w
  {
    forall k ensures SameAt(w, Undone(reg, t, w, z), k) {
      UndoneAt(reg, t, w, z, k);
    }
    SameEverywhere(w, Undone(reg, t, w, z));
  }

  lemma OnceSignedOut(site: Site, t: Rows, z: Pk, contracts: set<Pk>, zev: Row, rest: seq<Row>, w: Rows, us: seq<Pk>, v: Rows)
    requires Sound(site) && Keyed(t) && Replaced(site.reg, site.schema, t, z, contracts, zev, rest, w)
    requires Managers(w, z, us) && ProtectAll(site.login, w, us) == Some(v) && us != []
    ensures v != t
  {
    assert us[0] in us;
    NewlyManagingIff(w, z, us[0]);
    ProtectAllSignsOut(site.login, w, us, us[0]);
    UserUntouched(site.reg, site.schema, t, z, contracts, zev, rest, w, Key(User, us[0]));
  }

  lemma OwnBackupGivesBack(
      site: Site, f: Format, t0: Rows, storage: Storage, z: Pk, fold: string -> string, b: Archive,
      mapping: map<Pk, Option<Pk>>, w: Rows, us: seq<Pk>, counts: map<Model, nat>, v: Rows)
    requires Sound(site) && InOrder(site, t0, z, fold) && IsBackup(site, f, t0, storage, z, b, t0, fold, mapping)
    requires ZevRestored(site, f, b, t0, z, Relink(mapping), w, us, counts, v)
    ensures SameCommunity(site.reg, t0, w, z) && ZevRow(f, b, z).pk == z
  {
    OwnLinksFixed(site, f, t0, storage, z, fold, b, mapping);
    GivenBackIff(site, f, t0, storage, b, t0, z, mapping, w, us, counts, v);
    BackupZevRow(site.reg, f, t0, storage, b, z);
  }

  lemma OwnLinksFixed(
      site: Site, f: Format, t0: Rows, storage: Storage, z: Pk, fold: string -> string, b: Archive, mapping: map<Pk, Option<Pk>>)
    requires Sound(site) && InOrder(site, t0, z, fold) && IsBackup(site, f, t0, storage, z, b, t0, fold, mapping)
    ensures forall k | Returned(site.reg, t0, z, k) :: FixesLinks(mapping, t0[k])
  {
    SameAccountsSelf(site.login, t0);
    UndoFixesLinks(site.login, site.reg, f, t0, storage, b, t0, z, fold, mapping);
  }

  lemma SameAccountsSelf(login: Login, t: Rows)
    ensures SameAccounts(login, t, t)
  {
  }

  lemma GivenBackChangesNothingIff(
      site: Site, f: Format, t0: Rows, z: Pk, b: Archive, mapping: map<Pk, Option<Pk>>, w: Rows, us: seq<Pk>,
      counts: map<Model, nat>, v: Rows)
    requires Sound(site) && Keyed(t0) && Whole(site.schema, t0)
    requires ZevRestored(site, f, b, t0, z, Relink(mapping), w, us, counts, v)
    requires SameCommunity(site.reg, t0, w, z) && ZevRow(f, b, z).pk == z
    ensures v == t0 <==>
            us == [] &&
            NothingElse(site.reg, site.schema, t0, z, ZevLost(site.reg, site.schema, t0, z, Contracts(site.reg, f, b, z)))
  {
    RelinkOnlyLinks(mapping);
    RestoredIsReplaced(site, f, b, t0, z, Relink(mapping), w, us, counts, v);
    BroughtBackIff(
      site, t0, z, Contracts(site.reg, f, b, z), Relink(mapping)(ZevRow(f, b, z)), RestRows(site.reg, f, b, z, Relink(mapping)),
      w, us, v);
  }

  /**
   * Restoring a community's backup over the tables it was taken from changes nothing at all if and only if it makes no
   * account a manager without a protected login and nothing outside the community is lost with its rows.
   */
  lemma OwnBackupChangesNothingIff(
      site: Site, f: Format, t0: Rows, storage: Storage, z: Pk, fold: string -> string, b: Archive,
      mapping: map<Pk, Option<Pk>>, w: Rows, us: seq<Pk>, counts: map<Model, nat>, v: Rows)
    requires Sound(site) && InOrder(site, t0, z, fold) && IsBackup(site, f, t0, storage, z, b, t0, fold, mapping)
    requires ZevRestored(site, f, b, t0, z, Relink(mapping), w, us, counts, v)
    ensures v == t0 <==>
            us == [] &&
            NothingElse(site.reg, site.schema, t0, z, ZevLost(site.reg, site.schema, t0, z, Contracts(site.reg, f, b, z)))
  {
    OwnBackupGivesBack(site, f, t0, storage, z, fold, b, mapping, w, us, counts, v);
    GivenBackChangesNothingIff(site, f, t0, z, b, mapping, w, us, counts, v);
  }
}
