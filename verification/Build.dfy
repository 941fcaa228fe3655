/** Building a whole archive with its manifest, for the instance or for one community. */
module Build {
  import opened Outcomes
  import opened Bytes
  import opened Lines
  import opened Registry
  import opened Tables
  import opened Sections
  import opened Archive
  import opened Dump

  type Storage = map<string, Bytes>

  /** The community whose directory a file is in. */
  function Owner(n: Name): Option<Pk> {
    match n
    case SectionFile(s) => if s.ZevSection? then Some(s.zev) else None
    case AccountRefs(z) => Some(z)
    case MediaFile(z, _) => Some(z)
    case Stray(_) => None
  }

  /** Nothing outside the community's directory differs. */
  ghost predicate OutsideZev(z: Pk, files: Files, members: map<Name, Entry>, files': Files, members': map<Name, Entry>) {
    forall n | Owner(n) != Some(z) :: Agree(n, files, members, files', members')
  }

  /** One community is backed up in full: sections, account references and media. */
  ghost predicate HoldsZev(
      reg: Registry, f: Format, t: Rows, storage: Storage, files: Files, members: map<Name, Entry>,
      counts: map<Section, nat>, z: Pk)
  {
    && (forall i: nat | i < |reg.zev| :: Written(reg, f, t, files, members, counts, ZevSection(z, i)))
    && HoldsRefs(reg, f, t, files, z)
    && HoldsMedia(files, z, MediaPaths(f, t, z), storage)
  }

  lemma HoldsZevFrame(
      reg: Registry, f: Format, t: Rows, storage: Storage, z: Pk, counts: map<Section, nat>, counts': map<Section, nat>,
      files: Files, members: map<Name, Entry>, files': Files, members': map<Name, Entry>)
    requires HoldsZev(reg, f, t, storage, files, members, counts, z)
    requires forall n | Owner(n) == Some(z) :: Agree(n, files, members, files', members')
    requires forall s: Section | s.ZevSection? && s.zev == z && s in counts :: s in counts' && counts'[s] == counts[s]
    ensures HoldsZev(reg, f, t, storage, files', members', counts', z)
  {
    forall i: nat | i < |reg.zev| ensures Written(reg, f, t, files', members', counts', ZevSection(z, i)) {
      var s := ZevSection(z, i);
      assert Owner(SectionFile(s)) == Some(z);
      assert Agree(SectionFile(s), files, members, files', members');
      WrittenFrame(reg, f, t, s, counts, counts', files, members, files', members');
    }
    assert Owner(AccountRefs(z)) == Some(z);
    assert Agree(AccountRefs(z), files, members, files', members');
    forall p ensures Agree(MediaFile(z, p), files, members, files', members') {
      assert Owner(MediaFile(z, p)) == Some(z);
    }
  }

  lemma ZevPlanSections(reg: Registry, z: Pk)
    ensures Distinct(ZevPlan(reg, z, |reg.zev|))
    ensures forall s :: s in ZevPlan(reg, z, |reg.zev|) <==> s.ZevSection? && s.zev == z && s.i < |reg.zev|
  {
    var plan := ZevPlan(reg, z, |reg.zev|);
    forall s: Section | s.ZevSection? && s.zev == z && s.i < |reg.zev| ensures s in plan {
      assert plan[s.i] == s;
    }
  }

  /** Writing the account list and then the media leaves every other name alone. */
  lemma LaterWritesAgree(
      f: Format, z: Pk, data: Bytes, n: Name, f1: Files, m1: map<Name, Entry>, f2: Files, m2: map<Name, Entry>, f3: Files,
      m3: map<Name, Entry>)
    requires f2 == f1[AccountRefs(z) := data] && m2 == m1[AccountRefs(z) := PlainEntry(f, data)]
    requires OutsideMedia(z, f2, m2, f3, m3) && n != AccountRefs(z) && !(n.MediaFile? && n.zev == z)
    ensures Agree(n, f1, m1, f3, m3)
  {
    assert Agree(n, f2, m2, f3, m3);
  }

  lemma ZevSectionsStay(
      reg: Registry, f: Format, t: Rows, z: Pk, counts: map<Section, nat>, data: Bytes,
      f1: Files, m1: map<Name, Entry>, f2: Files, m2: map<Name, Entry>, f3: Files, m3: map<Name, Entry>)
    requires AllWritten(reg, f, t, f1, m1, counts, ZevPlan(reg, z, |reg.zev|))
    requires f2 == f1[AccountRefs(z) := data] && m2 == m1[AccountRefs(z) := PlainEntry(f, data)]
    requires OutsideMedia(z, f2, m2, f3, m3)
    ensures forall i: nat | i < |reg.zev| :: Written(reg, f, t, f3, m3, counts, ZevSection(z, i))
  {
    forall i: nat | i < |reg.zev| ensures Written(reg, f, t, f3, m3, counts, ZevSection(z, i)) {
      var s := ZevPlan(reg, z, |reg.zev|)[i];
      LaterWritesAgree(f, z, data, SectionFile(s), f1, m1, f2, m2, f3, m3);
      WrittenFrame(reg, f, t, s, counts, counts, f1, m1, f3, m3);
    }
  }

  lemma ZevWritesStayInside(
      reg: Registry, f: Format, z: Pk, data: Bytes, f0: Files, m0: map<Name, Entry>,
      f1: Files, m1: map<Name, Entry>, f2: Files, m2: map<Name, Entry>, f3: Files, m3: map<Name, Entry>)
    requires Outside(ZevPlan(reg, z, |reg.zev|), f0, m0, f1, m1)
    requires f2 == f1[AccountRefs(z) := data] && m2 == m1[AccountRefs(z) := PlainEntry(f, data)]
    requires OutsideMedia(z, f2, m2, f3, m3)
    ensures OutsideZev(z, f0, m0, f3, m3)
  {
    ZevPlanSections(reg, z);
    forall n | Owner(n) != Some(z) ensures Agree(n, f0, m0, f3, m3) {
      assert Agree(n, f0, m0, f1, m1);
      LaterWritesAgree(f, z, data, n, f1, m1, f2, m2, f3, m3);
    }
  }

  /** Write one community's directory. */
  method WriteZev(w: Writer, reg: Registry, t: Rows, z: Pk, storage: Storage) returns (counts: map<Section, nat>)
    requires w.Valid() && Faithful(w.format) && WellFormed(reg) && Keyed(t)
    requires forall n | n in w.files :: Owner(n) != Some(z)
    modifies w
    ensures w.Valid()
    ensures HoldsZev(reg, w.format, t, storage, w.files, w.members, counts, z)
    ensures forall s :: s in counts <==> s.ZevSection? && s.zev == z && s.i < |reg.zev|
    ensures OutsideZev(z, old(w.files), old(w.members), w.files, w.members)
  {
    var plan := ZevPlan(reg, z, |reg.zev|);
    ZevPlanSections(reg, z);
    ghost var f0, m0 := w.files, w.members;
    counts := WriteSections(w, reg, t, plan);
    ghost var f1, m1 := w.files, w.members;
    var ids := CollectIds(reg, t, z);
    var refs := ListAccounts(t, ids);
    w.JsonMember(AccountRefs(z), w.format.refs.encode(refs));
    ghost var f2, m2 := w.files, w.members;
    forall p ensures MediaFile(z, p) !in f2 {
      assert Owner(MediaFile(z, p)) == Some(z);
      assert Agree(MediaFile(z, p), f0, m0, f1, m1);
    }
    WriteMedia(w, t, z, storage);
    ghost var data := w.format.refs.encode(refs);
    ZevSectionsStay(reg, w.format, t, z, counts, data, f1, m1, f2, m2, w.files, w.members);
    ZevWritesStayInside(reg, w.format, z, data, f0, m0, f1, m1, f2, m2, w.files, w.members);
    assert Agree(AccountRefs(z), f2, m2, w.files, w.members);
  }

  // ---- The whole archive ----

  /** The sections a backup of this scope carries. */
  predicate Planned(reg: Registry, scope: Scope, zevs: seq<Pk>, s: Section) {
    InPlan(reg, zevs, s) && (scope.ZevScope? ==> s.ZevSection?)
  }

  ghost predicate HoldsInstance(
      reg: Registry, f: Format, t: Rows, files: Files, members: map<Name, Entry>, counts: map<Section, nat>)
  {
    forall s: Section | !s.ZevSection? && InRange(reg, s) :: Written(reg, f, t, files, members, counts, s)
  }

  /** An archive of the database: complete for its scope, and vouched for member by member. */
  ghost predicate Built(reg: Registry, f: Format, t: Rows, storage: Storage, a: Archive) {
    var m := a.manifest;
    && a.files.Keys == m.members.Keys
    && (forall n | n in a.files :: Vouches(f, m.members[n], a.files[n]))
    && Distinct(m.zevs)
    && (forall s :: s in m.counts <==> Planned(reg, m.scope, m.zevs, s))
    && (m.scope.InstanceScope? ==> HoldsInstance(reg, f, t, a.files, m.members, m.counts))
    && (forall z | z in m.zevs :: HoldsZev(reg, f, t, storage, a.files, m.members, m.counts, z))
  }

  function InstancePlan(reg: Registry): seq<Section> {
    seq(|reg.instance|, (i: nat) => InstanceSection(i)) + seq(|reg.unscoped|, (i: nat) => UnscopedSection(i))
  }

  lemma InstancePlanSections(reg: Registry)
    ensures Distinct(InstancePlan(reg))
    ensures forall s :: s in InstancePlan(reg) <==> !s.ZevSection? && InRange(reg, s)
  {
    var plan := InstancePlan(reg);
    forall s: Section | !s.ZevSection? && InRange(reg, s) ensures s in plan {
      if s.InstanceSection? {
        assert plan[s.i] == s;
      } else {
        assert plan[|reg.instance| + s.i] == s;
      }
    }
  }

  /** Every instance section and every section of rows without a community. */
  method WriteInstance(w: Writer, reg: Registry, t: Rows) returns (counts: map<Section, nat>)
    requires w.Valid() && Exact(w.format.rows) && WellFormed(reg)
    modifies w
    ensures w.Valid() && HoldsInstance(reg, w.format, t, w.files, w.members, counts)
    ensures forall s :: s in counts <==> !s.ZevSection? && InRange(reg, s)
    ensures forall n | Owner(n) != None :: Agree(n, old(w.files), old(w.members), w.files, w.members)
  {
    InstancePlanSections(reg);
    counts := WriteSections(w, reg, t, InstancePlan(reg));
    forall s: Section | !s.ZevSection? && InRange(reg, s) ensures Written(reg, w.format, t, w.files, w.members, counts, s) {
      var j :| 0 <= j < |InstancePlan(reg)| && InstancePlan(reg)[j] == s;
    }
  }

  lemma HoldsInstanceFrame(
      reg: Registry, f: Format, t: Rows, z: Pk, counts: map<Section, nat>, counts': map<Section, nat>,
      files: Files, members: map<Name, Entry>, files': Files, members': map<Name, Entry>)
    requires HoldsInstance(reg, f, t, files, members, counts) && OutsideZev(z, files, members, files', members')
    requires forall s: Section | !s.ZevSection? && s in counts :: s in counts' && counts'[s] == counts[s]
    ensures HoldsInstance(reg, f, t, files', members', counts')
  {
    forall s: Section | !s.ZevSection? && InRange(reg, s) ensures Written(reg, f, t, files', members', counts', s) {
      assert Agree(SectionFile(s), files, members, files', members');
      WrittenFrame(reg, f, t, s, counts, counts', files, members, files', members');
    }
  }

  /** What holds once the first communities are written. */
  ghost predicate Progress(
      reg: Registry, f: Format, t: Rows, storage: Storage, scope: Scope, zevs: seq<Pk>, files: Files,
      members: map<Name, Entry>, counts: map<Section, nat>)
  {
    && (forall s :: s in counts <==> Planned(reg, scope, zevs, s))
    && (scope.InstanceScope? ==> HoldsInstance(reg, f, t, files, members, counts))
    && (forall z | z in zevs :: HoldsZev(reg, f, t, storage, files, members, counts, z))
    && (forall n | n in files && Owner(n).Some? :: Owner(n).value in zevs)
  }

  lemma EarlierZevStays(
      reg: Registry, f: Format, t: Rows, storage: Storage, y: Pk, z: Pk, counts: map<Section, nat>, more: map<Section, nat>,
      files: Files, members: map<Name, Entry>, files': Files, members': map<Name, Entry>)
    requires HoldsZev(reg, f, t, storage, files, members, counts, y) && y != z
    requires OutsideZev(z, files, members, files', members') && forall s | s in more :: s.ZevSection? && s.zev == z
    ensures HoldsZev(reg, f, t, storage, files', members', counts + more, y)
  {
    HoldsZevFrame(reg, f, t, storage, y, counts, counts + more, files, members, files', members');
  }

  lemma PlannedStep(
      reg: Registry, scope: Scope, zevs: seq<Pk>, z: Pk, counts: map<Section, nat>, more: map<Section, nat>)
    requires forall s :: s in counts <==> Planned(reg, scope, zevs, s)
    requires forall s :: s in more <==> s.ZevSection? && s.zev == z && s.i < |reg.zev|
    ensures forall s :: s in counts + more <==> Planned(reg, scope, zevs + [z], s)
  {
    forall s ensures s in counts + more <==> Planned(reg, scope, zevs + [z], s) {
      assert s.ZevSection? ==> (s.zev in zevs + [z] <==> s.zev in zevs || s.zev == z);
    }
  }

  lemma OwnersStep(
      zevs: seq<Pk>, z: Pk, files: Files, members: map<Name, Entry>, files': Files, members': map<Name, Entry>)
    requires OutsideZev(z, files, members, files', members')
    requires forall n | n in files && Owner(n).Some? :: Owner(n).value in zevs
    ensures forall n | n in files' && Owner(n).Some? :: Owner(n).value in zevs + [z]
  {
    forall n | n in files' && Owner(n).Some? ensures Owner(n).value in zevs + [z] {
      if Owner(n) != Some(z) { assert Agree(n, files, members, files', members'); }
    }
  }

  lemma ProgressStep(
      reg: Registry, f: Format, t: Rows, storage: Storage, scope: Scope, zevs: seq<Pk>, z: Pk,
      counts: map<Section, nat>, more: map<Section, nat>,
      files: Files, members: map<Name, Entry>, files': Files, members': map<Name, Entry>)
    requires Progress(reg, f, t, storage, scope, zevs, files, members, counts) && z !in zevs
    requires HoldsZev(reg, f, t, storage, files', members', more, z) && OutsideZev(z, files, members, files', members')
    requires forall s :: s in more <==> s.ZevSection? && s.zev == z && s.i < |reg.zev|
    ensures Progress(reg, f, t, storage, scope, zevs + [z], files', members', counts + more)
  {
    var counts' := counts + more;
    if scope.InstanceScope? {
      HoldsInstanceFrame(reg, f, t, z, counts, counts', files, members, files', members');
    }
    PlannedStep(reg, scope, zevs, z, counts, more);
    HoldsZevFrame(reg, f, t, storage, z, more, counts', files', members', files', members');
    forall y | y in zevs ensures HoldsZev(reg, f, t, storage, files', members', counts', y) {
      EarlierZevStays(reg, f, t, storage, y, z, counts, more, files, members, files', members');
    }
    OwnersStep(zevs, z, files, members, files', members');
  }

  function ZevRows(t: Rows): set<Row> {
    set k | k in t.Keys && k.model == Zev :: t[k]
  }

  method ListZevs(t: Rows) returns (zevs: seq<Pk>)
    requires Keyed(t)
    ensures Distinct(zevs) && forall z :: z in zevs <==> Key(Zev, z) in t
  {
    var rows := Iterate(ZevRows(t));
    zevs := seq(|rows|, i requires 0 <= i < |rows| => rows[i].pk);
    forall i | 0 <= i < |rows| ensures Key(Zev, zevs[i]) in t && t[Key(Zev, zevs[i])] == rows[i] {
      assert rows[i] in ZevRows(t);
    }
    forall z | Key(Zev, z) in t ensures z in zevs {
      var r := t[Key(Zev, z)];
      assert r in ZevRows(t);
      var i :| 0 <= i < |rows| && rows[i] == r;
      assert zevs[i] == z;
    }
  }

  /** Write a backup of the instance, or of one community, and its manifest. */
  method BuildArchive(reg: Registry, f: Format, t: Rows, storage: Storage, scope: Scope, zev: Option<Pk>)
    returns (r: Result<Archive, string>)
    requires Faithful(f) && WellFormed(reg) && Keyed(t)
    ensures r.Ok? <==> (scope.ZevScope? <==> zev.Some?)
    ensures r.Ok? ==> Built(reg, f, t, storage, r.value) && r.value.manifest.scope == scope
    ensures r.Ok? && scope.InstanceScope? ==> forall z :: z in r.value.manifest.zevs <==> Key(Zev, z) in t
    ensures r.Ok? && scope.ZevScope? ==> r.value.manifest.zevs == [zev.value]
  {
    if scope.ZevScope? && zev.None? {
      return Err("A ZEV-scoped backup needs a ZEV.");
    }
    if scope.InstanceScope? && zev.Some? {
      return Err("An instance backup does not take a ZEV.");
    }
    var zevs: seq<Pk> := [];
    if scope.ZevScope? {
      zevs := [zev.value];
    } else {
      zevs := ListZevs(t);
    }
    var w := new Writer(f);
    var counts: map<Section, nat> := map[];
    if scope.InstanceScope? {
      counts := WriteInstance(w, reg, t);
    }
    for i := 0 to |zevs|
      invariant fresh(w) && w.Valid() && w.format == f
      invariant Progress(reg, f, t, storage, scope, zevs[..i], w.files, w.members, counts)
    {
      TakeStep(zevs, i);
      ghost var files, members := w.files, w.members;
      var more := WriteZev(w, reg, t, zevs[i], storage);
      ProgressStep(reg, f, t, storage, scope, zevs[..i], zevs[i], counts, more, files, members, w.files, w.members);
      counts := counts + more;
    }
    assert zevs[..|zevs|] == zevs;
    r := Ok(Archive(Manifest(scope, zevs, w.members, counts), w.files));
  }
}
