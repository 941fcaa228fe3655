/** Writing a backup: instance sections, each community's sections, its account references and its media files. */
module Dump {
  import opened Outcomes
  import opened Bytes
  import opened Lines
  import opened Registry
  import opened Tables
  import opened Sections
  import opened Archive

  /** A name stands for the same file and entry before and after. */
  ghost predicate Agree(n: Name, files: Files, members: map<Name, Entry>, files': Files, members': map<Name, Entry>) {
    && (n in files <==> n in files') && (n in files ==> files[n] == files'[n])
    && (n in members <==> n in members') && (n in members ==> members[n] == members'[n])
  }

  lemma HoldsFrame(
      reg: Registry, f: Format, t: Rows, s: Section,
      files: Files, members: map<Name, Entry>, files': Files, members': map<Name, Entry>)
    requires InRange(reg, s) && Holds(reg, f, t, files, members, s)
    requires Agree(SectionFile(s), files, members, files', members')
    ensures Holds(reg, f, t, files', members', s) && Content(f, files', s) == Content(f, files, s)
  {
    assert SectionBytes(files', s) == SectionBytes(files, s);
  }

  /** Nothing but the files of these sections differs. */
  ghost predicate Outside(
      plan: seq<Section>, files: Files, members: map<Name, Entry>, files': Files, members': map<Name, Entry>)
  {
    forall n: Name | !(n.SectionFile? && n.section in plan) :: Agree(n, files, members, files', members')
  }

  lemma OutsideStep(
      plan: seq<Section>, s: Section, f0: Files, m0: map<Name, Entry>, f1: Files, m1: map<Name, Entry>, f2: Files,
      m2: map<Name, Entry>)
    requires s in plan && Outside(plan, f0, m0, f1, m1) && Outside([s], f1, m1, f2, m2)
    ensures Outside(plan, f0, m0, f2, m2)
  {
    forall n: Name | !(n.SectionFile? && n.section in plan) ensures Agree(n, f0, m0, f2, m2) {
      assert Agree(n, f0, m0, f1, m1) && Agree(n, f1, m1, f2, m2);
    }
  }

  // ---- One section ----

  ghost predicate PartOf(reg: Registry, t: Rows, s: Section, p: Part) {
    Lists(p.rows, PartRows(reg, t, s, p.model))
  }

  function RowsOfModels(reg: Registry, t: Rows, s: Section, ms: seq<Model>): set<Row> {
    set k | k in t.Keys && t[k].model in ms && InScope(reg, t, s, t[k]) :: t[k]
  }

  lemma {:induction false} PartsList(reg: Registry, t: Rows, s: Section, parts: seq<Part>, ms: seq<Model>)
    requires |parts| == |ms| && NoDuplicates(ms)
    requires forall a | 0 <= a < |ms| :: parts[a].model == ms[a] && PartOf(reg, t, s, parts[a])
    ensures Lists(Flat(parts), RowsOfModels(reg, t, s, ms))
    decreases |ms|
  {
    if ms != [] {
      var n := |ms| - 1;
      var x, y := RowsOfModels(reg, t, s, ms[..n]), PartRows(reg, t, s, ms[n]);
      PartsList(reg, t, s, parts[..n], ms[..n]);
      assert ms == ms[..n] + [ms[n]];
      assert RowsOfModels(reg, t, s, ms) == x + y;
      ListsAppend(Flat(parts[..n]), x, parts[n].rows, y);
    }
  }

  lemma ModelsDistinct(reg: Registry, s: Section)
    requires WellFormed(reg) && InRange(reg, s)
    ensures NoDuplicates(Models(reg, s))
  {
    var ms := Models(reg, s);
    forall a, b | 0 <= a < b < |ms| ensures ms[a] != ms[b] {
      match s
      case InstanceSection(i) => assert At(reg.instance, i, a, ms[a]) && At(reg.instance, i, b, ms[b]);
      case ZevSection(_, i) => assert At(reg.zev, i, a, ms[a]) && At(reg.zev, i, b, ms[b]);
    }
  }

  /** One query per model, in the registry's order. */
  method SectionParts(reg: Registry, t: Rows, s: Section) returns (parts: seq<Part>)
    requires WellFormed(reg) && InRange(reg, s)
    ensures Sorted(parts) && Lists(Flat(parts), SectionRows(reg, t, s))
  {
    var ms := Models(reg, s);
    parts := [];
    for a := 0 to |ms|
      invariant |parts| == a
      invariant forall b | 0 <= b < a :: parts[b].model == ms[b] && PartOf(reg, t, s, parts[b])
    {
      var rows := Iterate(PartRows(reg, t, s, ms[a]));
      parts := parts + [Part(ms[a], rows)];
    }
    ModelsDistinct(reg, s);
    PartsList(reg, t, s, parts, ms);
    assert RowsOfModels(reg, t, s, ms) == SectionRows(reg, t, s);
  }

  method WriteSection(w: Writer, reg: Registry, t: Rows, s: Section) returns (records: nat)
    requires w.Valid() && Exact(w.format.rows) && WellFormed(reg) && InRange(reg, s)
    modifies w
    ensures w.Valid() && Holds(reg, w.format, t, w.files, w.members, s)
    ensures records == |Content(w.format, w.files, s)|
    ensures Outside([s], old(w.files), old(w.members), w.files, w.members)
  {
    var parts := SectionParts(reg, t, s);
    records := w.JsonlMember(s, parts);
    WrittenDescribes(w.format, w.files, w.members, s, parts);
  }

  /** The section is in the archive with exactly its rows, and counted. */
  ghost predicate Written(
      reg: Registry, f: Format, t: Rows, files: Files, members: map<Name, Entry>, counts: map<Section, nat>, s: Section)
  {
    && InRange(reg, s) && Holds(reg, f, t, files, members, s)
    && s in counts && counts[s] == |Content(f, files, s)|
  }

  lemma WrittenFrame(
      reg: Registry, f: Format, t: Rows, s: Section, counts: map<Section, nat>, counts': map<Section, nat>,
      files: Files, members: map<Name, Entry>, files': Files, members': map<Name, Entry>)
    requires Written(reg, f, t, files, members, counts, s)
    requires Agree(SectionFile(s), files, members, files', members') && s in counts' && counts'[s] == counts[s]
    ensures Written(reg, f, t, files', members', counts', s)
  {
    HoldsFrame(reg, f, t, s, files, members, files', members');
  }

  ghost predicate AllWritten(
      reg: Registry, f: Format, t: Rows, files: Files, members: map<Name, Entry>, counts: map<Section, nat>,
      plan: seq<Section>)
  {
    && (forall j | 0 <= j < |plan| :: Written(reg, f, t, files, members, counts, plan[j]))
    && (forall s :: s in counts <==> s in plan)
  }

  lemma AllWrittenStep(
      reg: Registry, f: Format, t: Rows, plan: seq<Section>, s: Section, counts: map<Section, nat>,
      files: Files, members: map<Name, Entry>, files': Files, members': map<Name, Entry>)
    requires AllWritten(reg, f, t, files, members, counts, plan) && s !in plan && InRange(reg, s)
    requires Outside([s], files, members, files', members') && Holds(reg, f, t, files', members', s)
    ensures AllWritten(reg, f, t, files', members', counts[s := |Content(f, files', s)|], plan + [s])
  {
    var counts' := counts[s := |Content(f, files', s)|];
    forall j | 0 <= j < |plan| ensures Written(reg, f, t, files', members', counts', plan[j]) {
      assert plan[j] in plan;
      assert Agree(SectionFile(plan[j]), files, members, files', members');
      WrittenFrame(reg, f, t, plan[j], counts, counts', files, members, files', members');
    }
  }

  /** Write a list of sections one after the other, with a count for each. */
  method WriteSections(w: Writer, reg: Registry, t: Rows, plan: seq<Section>) returns (counts: map<Section, nat>)
    requires w.Valid() && Exact(w.format.rows) && WellFormed(reg)
    requires Distinct(plan) && forall s | s in plan :: InRange(reg, s)
    modifies w
    ensures w.Valid()
    ensures AllWritten(reg, w.format, t, w.files, w.members, counts, plan)
    ensures Outside(plan, old(w.files), old(w.members), w.files, w.members)
  {
    counts := map[];
    for i := 0 to |plan|
      invariant w.Valid()
      invariant AllWritten(reg, w.format, t, w.files, w.members, counts, plan[..i])
      invariant Outside(plan, old(w.files), old(w.members), w.files, w.members)
    {
      TakeStep(plan, i);
      ghost var files, members := w.files, w.members;
      var n := WriteSection(w, reg, t, plan[i]);
      AllWrittenStep(reg, w.format, t, plan[..i], plan[i], counts, files, members, w.files, w.members);
      OutsideStep(plan, plan[i], old(w.files), old(w.members), files, members, w.files, w.members);
      counts := counts[plan[i] := n];
    }
    assert plan[..|plan|] == plan;
  }

  // ---- Account references ----

  function Linked(users: seq<Option<Pk>>): set<Pk> {
    set o | o in users && o.Some? :: o.value
  }

  /** The accounts that rows point at, through any link. */
  function Ids(rs: set<Row>): set<Pk> {
    set r, u | r in rs && u in Linked(r.users) :: u
  }

  function RefTo(u: Row): AccountRef {
    AccountRef(u.pk, Field(u, "username"), Field(u, "email"))
  }

  function UserRows(t: Rows, ids: set<Pk>): set<Row> {
    set k | k in t.Keys && k.model == User && k.pk in ids :: t[k]
  }

  /** One reference to each account among `ids` that exists, as it is now. */
  ghost predicate RefsOf(t: Rows, ids: set<Pk>, refs: seq<AccountRef>) {
    && (forall i, j | 0 <= i < j < |refs| :: refs[i].id != refs[j].id)
    && (forall ref :: ref in refs <==> IsRef(t, ids, ref))
  }

  ghost predicate IsRef(t: Rows, ids: set<Pk>, ref: AccountRef) {
    ref.id in ids && Key(User, ref.id) in t && ref == RefTo(t[Key(User, ref.id)])
  }

  method ListAccounts(t: Rows, ids: set<Pk>) returns (refs: seq<AccountRef>)
    requires Keyed(t)
    ensures RefsOf(t, ids, refs)
  {
    var rows := Iterate(UserRows(t, ids));
    refs := [];
    for i := 0 to |rows|
      invariant |refs| == i && forall j | 0 <= j < i :: refs[j] == RefTo(rows[j])
    {
      refs := refs + [RefTo(rows[i])];
    }
    RefsOfRows(t, ids, rows, refs);
  }

  lemma RefsOfRows(t: Rows, ids: set<Pk>, rows: seq<Row>, refs: seq<AccountRef>)
    requires Keyed(t) && Lists(rows, UserRows(t, ids)) && |refs| == |rows| && forall j | 0 <= j < |rows| :: refs[j] == RefTo(rows[j])
    ensures RefsOf(t, ids, refs)
  {
    forall i | 0 <= i < |rows| ensures IsRef(t, ids, refs[i]) && t[Key(User, refs[i].id)] == rows[i] {
      assert rows[i] in UserRows(t, ids);
    }
    forall ref | IsRef(t, ids, ref) ensures ref in refs {
      var u := t[Key(User, ref.id)];
      assert u in UserRows(t, ids);
      var i :| 0 <= i < |rows| && rows[i] == u;
      assert refs[i] == ref;
    }
  }

  function ReferencedIds(reg: Registry, t: Rows, z: Pk): set<Pk> {
    Ids(PlannedRows(reg, t, ZevPlan(reg, z, |reg.zev|)))
  }

  method CollectIds(reg: Registry, t: Rows, z: Pk) returns (ids: set<Pk>)
    ensures ids == ReferencedIds(reg, t, z)
  {
    ids := {};
    for i := 0 to |reg.zev|
      invariant ids == Ids(PlannedRows(reg, t, ZevPlan(reg, z, i)))
    {
      ids := ids + Ids(SectionRows(reg, t, ZevSection(z, i)));
      assert ZevPlan(reg, z, i + 1)[..i] == ZevPlan(reg, z, i);
    }
  }

  ghost predicate HoldsRefs(reg: Registry, f: Format, t: Rows, files: Files, z: Pk) {
    && AccountRefs(z) in files
    && f.refs.decode(files[AccountRefs(z)]).Some?
    && RefsOf(t, ReferencedIds(reg, t, z), f.refs.decode(files[AccountRefs(z)]).value)
  }

  // ---- Media ----

  const MEDIA_MODELS: seq<Model> := [Invoice, Credit, DeliveredDocument]

  /** The storage name a row refers to; empty when it refers to none. */
  function MediaName(r: Row): string {
    match r.model
    case Invoice => Field(r, "pdf_file")
    case Credit => Field(r, "pdf_file")
    case DeliveredDocument => Field(r, "file")
    case _ => ""
  }

  /** The normalised names that rows refer to. */
  function Paths(f: Format, rows: seq<Row>): set<string> {
    set r | r in rows && MediaName(r) != "" && f.safe(MediaName(r)).Some? :: f.safe(MediaName(r)).value
  }

  function MediaRows(t: Rows, z: Pk): set<Row> {
    set k | k in t.Keys && t[k].model in MEDIA_MODELS && t[k].zev == Some(z) && MediaName(t[k]) != "" :: t[k]
  }

  function MediaPaths(f: Format, t: Rows, z: Pk): set<string> {
    set r | r in MediaRows(t, z) && f.safe(MediaName(r)).Some? :: f.safe(MediaName(r)).value
  }

  /** The media of a community are the stored files that its rows refer to, byte for byte. */
  ghost predicate HoldsMedia(files: Files, z: Pk, paths: set<string>, storage: map<string, Bytes>) {
    && (forall p :: MediaFile(z, p) in files <==> p in paths && p in storage)
    && (forall p | MediaFile(z, p) in files :: p in storage && files[MediaFile(z, p)] == storage[p])
  }

  /** Nothing but the media of this community differs. */
  ghost predicate OutsideMedia(z: Pk, files: Files, members: map<Name, Entry>, files': Files, members': map<Name, Entry>) {
    forall n: Name | !(n.MediaFile? && n.zev == z) :: Agree(n, files, members, files', members')
  }

  method WriteFile(w: Writer, z: Pk, row: Row, storage: map<string, Bytes>, ghost rows: seq<Row>)
    requires w.Valid() && HoldsMedia(w.files, z, Paths(w.format, rows), storage) && MediaName(row) != ""
    modifies w
    ensures w.Valid() && HoldsMedia(w.files, z, Paths(w.format, rows + [row]), storage)
    ensures OutsideMedia(z, old(w.files), old(w.members), w.files, w.members)
  {
    var safe := w.format.safe(MediaName(row));
    assert Paths(w.format, rows + [row]) == Paths(w.format, rows) + (if safe.Some? then {safe.value} else {});
    if safe.Some? {
      var size := w.MediaMember(z, safe.value, storage);
    }
  }

  /** Copy every file the rows refer to; one that storage no longer has, or whose name is unsafe, is skipped. */
  method WriteMedia(w: Writer, t: Rows, z: Pk, storage: map<string, Bytes>)
    requires w.Valid() && forall p :: MediaFile(z, p) !in w.files
    modifies w
    ensures w.Valid() && HoldsMedia(w.files, z, MediaPaths(w.format, t, z), storage)
    ensures OutsideMedia(z, old(w.files), old(w.members), w.files, w.members)
  {
    var all := Iterate(MediaRows(t, z));
    for i := 0 to |all|
      invariant w.Valid() && HoldsMedia(w.files, z, Paths(w.format, all[..i]), storage)
      invariant OutsideMedia(z, old(w.files), old(w.members), w.files, w.members)
    {
      assert all[i] in MediaRows(t, z);
      ghost var files, members := w.files, w.members;
      WriteFile(w, z, all[i], storage, all[..i]);
      assert all[..i + 1] == all[..i] + [all[i]];
      forall n: Name | !(n.MediaFile? && n.zev == z) ensures Agree(n, old(w.files), old(w.members), w.files, w.members) {
        assert Agree(n, files, members, w.files, w.members);
      }
    }
    assert all[..|all|] == all;
    assert Paths(w.format, all) == MediaPaths(w.format, t, z);
  }

  /** A row of a community's sections names the account, in any link. */
  ghost predicate NamesAccount(reg: Registry, t: Rows, z: Pk, k: Key, u: Pk) {
    k in t && Listed(reg.zev, t[k].model) && Community(reg, t, t[k]) == Some(z) && Some(u) in t[k].users
  }

  lemma SectionNames(reg: Registry, t: Rows, z: Pk, i: nat, r: Row, u: Pk) returns (k: Key)
    requires i < |reg.zev| && r in SectionRows(reg, t, ZevSection(z, i)) && u in Linked(r.users)
    ensures NamesAccount(reg, t, z, k, u)
  {
    k :| k in t.Keys && Selects(reg, t, ZevSection(z, i), t[k]) && t[k] == r;
    var a := ListedAt(reg.zev, i, r.model);
    var o :| o in r.users && o.Some? && o.value == u;
  }

  lemma NamedInSection(reg: Registry, t: Rows, z: Pk, k: Key, u: Pk) returns (i: nat)
    requires NamesAccount(reg, t, z, k, u)
    ensures i < |reg.zev| && t[k] in SectionRows(reg, t, ZevSection(z, i)) && u in Linked(t[k].users)
  {
    var a: nat;
    i, a :| At(reg.zev, i, a, t[k].model);
    assert k in t.Keys && Selects(reg, t, ZevSection(z, i), t[k]);
    assert Some(u).value == u;
  }

  /** The accounts a backup of a community refers to are exactly those its rows name. */
  lemma ReferencedIff(reg: Registry, t: Rows, z: Pk, u: Pk)
    ensures u in ReferencedIds(reg, t, z) <==> exists k :: NamesAccount(reg, t, z, k, u)
  {
    var plan := ZevPlan(reg, z, |reg.zev|);
    if u in ReferencedIds(reg, t, z) {
      var r :| r in PlannedRows(reg, t, plan) && u in Linked(r.users);
      PlannedRowsIff(reg, t, plan, r);
      var s :| s in plan && r in SectionRows(reg, t, s);
      var k := SectionNames(reg, t, z, s.i, r, u);
    }
    if k :| NamesAccount(reg, t, z, k, u) {
      var i := NamedInSection(reg, t, z, k, u);
      assert plan[i] == ZevSection(z, i);
      PlannedRowsIff(reg, t, plan, t[k]);
    }
  }
}
