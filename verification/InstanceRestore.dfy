/** Restoring a whole instance: clear the backed-up tables, load every section, check, or change nothing. */
module InstanceRestore {
  import opened Outcomes
  import opened Lines
  import opened Registry
  import opened Tables
  import opened References
  import opened ForeignKeys
  import opened Sections
  import opened Archive
  import opened Dump
  import opened Build
  import opened Verify
  import opened Loader

  // ---- Clearing ----

  function Concat(sections: seq<seq<Model>>): seq<Model> {
    if sections == [] then [] else Concat(sections[..|sections| - 1]) + sections[|sections| - 1]
  }

  /** The first occurrence of each model. */
  function Unique(ms: seq<Model>): seq<Model> {
    if ms == [] then []
    else
      var before := Unique(ms[..|ms| - 1]);
      if ms[|ms| - 1] in before then before else before + [ms[|ms| - 1]]
  }

  function Reversed(ms: seq<Model>): seq<Model> {
    seq(|ms|, i requires 0 <= i < |ms| => ms[|ms| - 1 - i])
  }

  /** Every backed-up model, dependants before what they point at. */
  function ClearOrder(reg: Registry): seq<Model> {
    Reversed(Unique(Concat(reg.instance) + Concat(reg.zev) + reg.unscoped))
  }

  lemma {:induction false} ConcatIff(sections: seq<seq<Model>>, m: Model)
    ensures m in Concat(sections) <==> Listed(sections, m)
    decreases |sections|
  {
    if sections != [] {
      var n := |sections| - 1;
      ConcatIff(sections[..n], m);
      if Listed(sections[..n], m) {
        var i: nat, a: nat :| At(sections[..n], i, a, m);
        assert At(sections, i, a, m);
      }
      if m in sections[n] {
        var a := ListedAt(sections, n, m);
      }
      if Listed(sections, m) {
        var i: nat, a: nat :| At(sections, i, a, m);
        if i < n { assert At(sections[..n], i, a, m); }
      }
    }
  }

  lemma {:induction false} UniqueLists(ms: seq<Model>)
    ensures NoDuplicates(Unique(ms)) && forall m :: m in Unique(ms) <==> m in ms
    decreases |ms|
  {
    if ms != [] {
      var n := |ms| - 1;
      UniqueLists(ms[..n]);
      assert ms == ms[..n] + [ms[n]];
    }
  }

  /** The order of clearing names every backed-up model once. */
  lemma ClearOrderLists(reg: Registry)
    requires WellFormed(reg)
    ensures NoDuplicates(ClearOrder(reg))
    ensures forall m :: m in ClearOrder(reg) <==> BackedUp(reg, m)
  {
    var all := Concat(reg.instance) + Concat(reg.zev) + reg.unscoped;
    UniqueLists(all);
    var u := Unique(all);
    forall m ensures m in Reversed(u) <==> m in u {
      if m in u {
        var i :| 0 <= i < |u| && u[i] == m;
        assert Reversed(u)[|u| - 1 - i] == m;
      }
    }
    forall m ensures m in all <==> BackedUp(reg, m) {
      ConcatIff(reg.instance, m);
      ConcatIff(reg.zev, m);
    }
  }

  // ---- Dependants first ----

  lemma {:induction false} UniqueGrows(ms: seq<Model>, n: nat)
    requires n <= |ms|
    ensures Unique(ms[..n]) <= Unique(ms)
    decreases |ms|
  {
    if n < |ms| {
      var k := |ms| - 1;
      assert ms[..k][..n] == ms[..n];
      UniqueGrows(ms[..k], n);
    } else {
      assert ms[..n] == ms;
    }
  }

  lemma PrefixBefore(u: seq<Model>, y: Model, whole: seq<Model>, x: Model)
    requires u + [y] <= whole && x in u
    ensures Before(whole, x, y)
  {
    var i :| 0 <= i < |u| && u[i] == x;
    assert (u + [y])[i] == whole[i] && (u + [y])[|u|] == whole[|u|];
  }

  /** What first occurs earlier stays earlier. */
  lemma FirstOccurrences(ms: seq<Model>, l: nat, x: Model)
    requires l < |ms| && x in ms[..l] && ms[l] !in ms[..l]
    ensures Before(Unique(ms), x, ms[l])
  {
    TakeStep(ms, l);
    var u := Unique(ms[..l]);
    UniqueLists(ms[..l]);
    assert Unique(ms[..l + 1]) == u + [ms[l]];
    UniqueGrows(ms, l + 1);
    PrefixBefore(u, ms[l], Unique(ms), x);
  }

  lemma {:induction false} ConcatPrefix(sections: seq<seq<Model>>, i: nat)
    requires i <= |sections|
    ensures Concat(sections[..i]) <= Concat(sections)
    decreases |sections|
  {
    if i < |sections| {
      var n := |sections| - 1;
      assert sections[..n][..i] == sections[..i];
      ConcatPrefix(sections[..n], i);
    } else {
      assert sections[..i] == sections;
    }
  }

  /** The models that come before a position. */
  lemma ConcatAt(sections: seq<seq<Model>>, i: nat, a: nat, m: Model) returns (n: nat)
    requires At(sections, i, a, m)
    ensures n < |Concat(sections)| && Concat(sections)[n] == m
    ensures Concat(sections)[..n] == Concat(sections[..i]) + sections[i][..a]
  {
    TakeStep(sections, i);
    ConcatPrefix(sections, i + 1);
    n := |Concat(sections[..i])| + a;
    var whole := Concat(sections[..i]) + sections[i];
    assert Concat(sections[..i + 1]) == whole;
    assert Concat(sections)[n] == whole[n];
    assert Concat(sections)[..n] == whole[..n];
  }

  /** A model occurs once in a registry that lists it once. */
  lemma NotEarlier(sections: seq<seq<Model>>, i: nat, a: nat, m: Model)
    requires OneHome(sections) && At(sections, i, a, m)
    ensures m !in Concat(sections[..i]) + sections[i][..a]
  {
    ConcatIff(sections[..i], m);
    if Listed(sections[..i], m) {
      var j: nat, b: nat :| At(sections[..i], j, b, m);
      assert At(sections, j, b, m);
    }
    forall b: nat | b < a ensures sections[i][b] != m {
      assert At(sections, i, b, sections[i][b]);
    }
  }

  lemma Earlier(sections: seq<seq<Model>>, i: nat, a: nat, j: nat, b: nat, p: Model)
    requires i < |sections| && a <= |sections[i]| && At(sections, j, b, p) && (j < i || (j == i && b < a))
    ensures p in Concat(sections[..i]) + sections[i][..a]
  {
    if j < i {
      ConcatIff(sections[..i], p);
      assert At(sections[..i], j, b, p);
    } else {
      assert sections[i][..a][b] == p;
    }
  }

  lemma ReversedBefore(ms: seq<Model>, x: Model, y: Model)
    requires Before(ms, x, y)
    ensures Before(Reversed(ms), y, x)
  {
    var i, j :| 0 <= i < j < |ms| && ms[i] == x && ms[j] == y;
    var n := |ms| - 1;
    assert Reversed(ms)[n - j] == y && Reversed(ms)[n - i] == x;
  }

  lemma OrderedInAll(x: seq<Model>, y: seq<Model>, z: seq<Model>, n: nat, p: Model)
    requires n < |y| && y[n] !in x && y[n] !in y[..n] && p in y[..n]
    ensures Before(Unique(x + y + z), p, y[n])
  {
    var all, l := x + y + z, |x| + n;
    assert all[..l] == x + y[..n] && all[l] == y[n];
    FirstOccurrences(all, l, p);
  }

  lemma FirstInstances(reg: Registry, i: nat, a: nat, p: Model, j: nat, b: nat, m: Model)
    requires WellFormed(reg) && At(reg.instance, i, a, p) && At(reg.instance, j, b, m) && (i < j || (i == j && a < b))
    ensures Before(Unique(Concat(reg.instance) + Concat(reg.zev) + reg.unscoped), p, m)
  {
    var n := ConcatAt(reg.instance, j, b, m);
    NotEarlier(reg.instance, j, b, m);
    Earlier(reg.instance, j, b, i, a, p);
    OrderedInAll([], Concat(reg.instance), Concat(reg.zev) + reg.unscoped, n, p);
    assert [] + Concat(reg.instance) + (Concat(reg.zev) + reg.unscoped) == Concat(reg.instance) + Concat(reg.zev) + reg.unscoped;
  }

  lemma InstanceThenZev(reg: Registry, p: Model, m: Model)
    requires WellFormed(reg) && Listed(reg.instance, p) && Listed(reg.zev, m)
    ensures Before(Unique(Concat(reg.instance) + Concat(reg.zev) + reg.unscoped), p, m)
  {
    ConcatIff(reg.instance, p);
    ConcatIff(reg.instance, m);
    var i: nat, a: nat :| At(reg.zev, i, a, m);
    var n := ConcatAt(reg.zev, i, a, m);
    NotEarlier(reg.zev, i, a, m);
    var x, y := Concat(reg.instance), Concat(reg.zev);
    assert (x + y)[..|x| + n] == x + y[..n];
    OrderedInAll([], x + y, reg.unscoped, |x| + n, p);
    assert [] + (x + y) + reg.unscoped == x + y + reg.unscoped;
  }

  lemma FirstZevs(reg: Registry, i: nat, a: nat, p: Model, j: nat, b: nat, m: Model)
    requires WellFormed(reg) && At(reg.zev, i, a, p) && At(reg.zev, j, b, m) && (i < j || (i == j && a < b))
    ensures Before(Unique(Concat(reg.instance) + Concat(reg.zev) + reg.unscoped), p, m)
  {
    var n := ConcatAt(reg.zev, j, b, m);
    NotEarlier(reg.zev, j, b, m);
    Earlier(reg.zev, j, b, i, a, p);
    ConcatIff(reg.instance, m);
    OrderedInAll(Concat(reg.instance), Concat(reg.zev), reg.unscoped, n, p);
  }

  /** What is loaded later is cleared earlier. */
  lemma DependantsFirst(reg: Registry, p: Model, m: Model)
    requires WellFormed(reg) && Precedes(reg, p, m)
    ensures Before(ClearOrder(reg), m, p)
  {
    if i: nat, a: nat, j: nat, b: nat :|
        At(reg.instance, i, a, p) && At(reg.instance, j, b, m) && (i < j || (i == j && a < b))
    {
      FirstInstances(reg, i, a, p, j, b, m);
    } else if Listed(reg.instance, p) && Listed(reg.zev, m) {
      InstanceThenZev(reg, p, m);
    } else {
      var i: nat, a: nat, j: nat, b: nat :| At(reg.zev, i, a, p) && At(reg.zev, j, b, m) && (i < j || (i == j && a < b));
      FirstZevs(reg, i, a, p, j, b, m);
    }
    ReversedBefore(Unique(Concat(reg.instance) + Concat(reg.zev) + reg.unscoped), p, m);
  }

  // ---- The deletions ----

  /** Export jobs, which insist on their community, then every backed-up model. */
  function FullOrder(reg: Registry): seq<Model> {
    [ExportJob] + ClearOrder(reg)
  }

  function ClearTargets(reg: Registry, t: Rows): set<Key> {
    set k | k in t.Keys && k.model in FullOrder(reg)
  }

  /** What clearing leaves: no target and nothing that cascades to one, references to those emptied. */
  function Cleared(reg: Registry, s: Schema, t: Rows): Rows {
    Removal(s, t, ClearTargets(reg, t))
  }

  ghost predicate ClearAllowed(reg: Registry, s: Schema, t: Rows) {
    DeleteSeq(s, t, ByModel(ClearTargets(reg, t), FullOrder(reg))).Some?
  }

  /** A deletion only looks at rows that are there. */
  lemma DeletePresent(s: Schema, u: Rows, a: set<Key>, b: set<Key>)
    requires a * u.Keys == b * u.Keys
    ensures Delete(s, u, a) == Delete(s, u, b)
  {
  }

  lemma ByModelUnion(x: set<Key>, order: seq<Model>)
    requires forall k | k in x :: k.model in order
    ensures Union(ByModel(x, order)) == x
  {
    assert ByModel(x, order)[..|order|] == ByModel(x, order) && order[..|order|] == order;
    forall k ensures k in Union(ByModel(x, order)) <==> k in x {
      UnionOfModels(x, order, |order|, k);
    }
  }

  lemma DeleteSeqShrinks(s: Schema, t: Rows, targets: seq<set<Key>>)
    requires Coherent(s) && DeleteSeq(s, t, targets).Some?
    ensures DeleteSeq(s, t, targets).value.Keys <= t.Keys
  {
    DeleteSeqIs(s, t, targets);
  }

  /** Delete export jobs and then every backed-up table, dependants first. */
  method Clear(db: Database, reg: Registry, s: Schema) returns (ok: bool)
    requires Coherent(s)
    modifies db
    ensures ok <==> ClearAllowed(reg, s, old(db.rows))
    ensures ok ==> db.rows == Cleared(reg, s, old(db.rows))
  {
    var order := FullOrder(reg);
    ghost var t, x := db.rows, ClearTargets(reg, db.rows);
    ghost var targets := ByModel(x, order);
    assert targets[..|order|] == targets;
    for i := 0 to |order|
      invariant DeleteSeq(s, t, targets[..i]) == Some(db.rows)
    {
      TakeStep(targets, i);
      DeleteSeqShrinks(s, t, targets[..i]);
      var rows := OfModel(db.rows.Keys, order[i]);
      DeletePresent(s, db.rows, rows, targets[i]);
      var after := Delete(s, db.rows, rows);
      if after.None? {
        RefusedStays(s, t, targets, i + 1);
        return false;
      }
      db.rows := after.value;
    }
    DeleteSeqIs(s, t, targets);
    ByModelUnion(x, order);
    ok := true;
  }

  lemma {:induction false} RefusedStays(s: Schema, t: Rows, targets: seq<set<Key>>, n: nat)
    requires n <= |targets| && DeleteSeq(s, t, targets[..n]).None?
    ensures DeleteSeq(s, t, targets).None?
    decreases |targets|
  {
    if n < |targets| {
      var k := |targets| - 1;
      assert targets[..k][..n] == targets[..n];
      RefusedStays(s, t, targets[..k], n);
    } else {
      assert targets[..n] == targets;
    }
  }

  lemma BeforeLater(m: Model, order: seq<Model>, x: Model, y: Model)
    requires Before(order, x, y)
    ensures Before([m] + order, x, y)
  {
    var i, j :| 0 <= i < j < |order| && order[i] == x && order[j] == y;
    assert ([m] + order)[i + 1] == x && ([m] + order)[j + 1] == y;
  }

  lemma BeforeFirst(m: Model, order: seq<Model>, y: Model)
    requires y in order
    ensures Before([m] + order, m, y)
  {
    var j :| 0 <= j < |order| && order[j] == y;
    assert ([m] + order)[0] == m && ([m] + order)[j + 1] == y;
  }

  lemma ClearedInOrder(reg: Registry, s: Schema, t: Rows, k: Key)
    requires WellFormed(reg) && Fits(reg, s) && Keyed(t) && !BackedUp(reg, ExportJob) && k in t
    ensures OrderedAt(s, t, FullOrder(reg), ClearTargets(reg, t), t.Keys - ClearTargets(reg, t), k)
  {
    var m := k.model;
    ClearOrderLists(reg);
    assert FitsAt(reg, s, t[k]);
    forall l | l in s.guard(t[k]) ensures m in FullOrder(reg) && Before(FullOrder(reg), m, l.model) && l.model in FullOrder(reg) {
      if m == ExportJob {
        BeforeFirst(ExportJob, ClearOrder(reg), l.model);
      } else {
        DependantsFirst(reg, l.model, m);
        BeforeLater(ExportJob, ClearOrder(reg), m, l.model);
      }
    }
    forall l | l in s.cascade(t[k]) && m in FullOrder(reg)
      ensures l.model in FullOrder(reg) && (m == l.model || Before(FullOrder(reg), m, l.model))
    {
      if m != l.model {
        DependantsFirst(reg, l.model, m);
        BeforeLater(ExportJob, ClearOrder(reg), m, l.model);
      }
    }
  }

  /** No deletion of the clearing is refused, whatever the tables hold. */
  lemma ClearIsNeverRefused(reg: Registry, s: Schema, t: Rows)
    requires WellFormed(reg) && Fits(reg, s) && Keyed(t) && !BackedUp(reg, ExportJob)
    ensures ClearAllowed(reg, s, t)
  {
    var order, x := FullOrder(reg), ClearTargets(reg, t);
    var outer := t.Keys - x;
    ClearOrderLists(reg);
    forall k | k in t ensures OrderedAt(s, t, order, x, outer, k) {
      ClearedInOrder(reg, s, t, k);
    }
    OrderedDeletions(s, t, order, x, outer, |order|);
    assert ByModel(x, order)[..|order|] == ByModel(x, order);
  }

  // ---- Loading every section ----

  /** What a section contributes: its records, each transformed. */
  function Reader(f: Format, files: Files, transform: Row -> Row): Section -> seq<Row> {
    (s: Section) => Mapped(transform, Content(f, files, s))
  }

  ghost predicate KeepsModel(transform: Row -> Row) {
    forall x :: transform(x).model == x.model
  }

  function Same(r: Row): Row {
    r
  }

  lemma MappedSame(rs: seq<Row>)
    ensures Mapped(Same, rs) == rs
  {
  }

  lemma {:induction false} TallyMapped(transform: Row -> Row, rs: seq<Row>)
    requires KeepsModel(transform)
    ensures Tally(Mapped(transform, rs)) == Tally(rs)
    decreases |rs|
  {
    if rs != [] {
      var n := |rs| - 1;
      TallyMapped(transform, rs[..n]);
      assert Mapped(transform, rs)[..n] == Mapped(transform, rs[..n]);
    }
  }

  ghost predicate SectionAcceptable(reg: Registry, f: Format, a: Archive, s: Section) {
    && InRange(reg, s) && SectionFile(s) in a.manifest.members
    && Acceptable(Records(f.rows, SectionBytes(a.files, s)), Models(reg, s), a.manifest.members[SectionFile(s)].models)
  }

  ghost predicate AllAcceptable(reg: Registry, f: Format, a: Archive, plan: seq<Section>) {
    forall s | s in plan :: SectionAcceptable(reg, f, a, s)
  }

  lemma AllAcceptableStep(reg: Registry, f: Format, a: Archive, plan: seq<Section>, s: Section)
    requires AllAcceptable(reg, f, a, plan) && SectionAcceptable(reg, f, a, s)
    ensures AllAcceptable(reg, f, a, plan + [s])
  {
  }

  lemma {:induction false} StreamPrefix(plan: seq<Section>, content: Section -> seq<Row>, i: nat)
    requires i <= |plan|
    ensures |Stream(plan[..i], content)| <= |Stream(plan, content)|
    ensures Stream(plan[..i], content) == Stream(plan, content)[..|Stream(plan[..i], content)|]
    decreases |plan|
  {
    if i < |plan| {
      var n := |plan| - 1;
      StreamPrefix(plan[..n], content, i);
      assert plan[..n][..i] == plan[..i];
    } else {
      assert plan[..i] == plan;
    }
  }

  function Plus(a: map<Model, nat>, b: map<Model, nat>): map<Model, nat> {
    map m | m in a.Keys + b.Keys :: Get(a, m) + Get(b, m)
  }

  /** The tables after the first sections, with their counts and media names. */
  ghost predicate Progressed(
      before: Rows, now: Rows, write: bool, loaded: seq<Row>, counts: map<Model, nat>, referenced: set<string>)
  {
    && (if write then InsertAll(before, loaded) == Some(now) else now == before)
    && (forall m :: Get(counts, m) == Get(Tally(loaded), m))
    && referenced == MediaNames(loaded)
  }

  lemma ProgressedStep(
      before: Rows, mid: Rows, now: Rows, write: bool, loaded: seq<Row>, counts: map<Model, nat>, referenced: set<string>,
      more: seq<Row>)
    requires Progressed(before, mid, write, loaded, counts, referenced)
    requires if write then InsertAll(mid, more) == Some(now) else now == mid
    ensures Progressed(before, now, write, loaded + more, Plus(counts, Tally(more)), referenced + MediaNames(more))
  {
    if write { InsertAppend(before, loaded, more); }
    forall m ensures Get(Plus(counts, Tally(more)), m) == Get(Tally(loaded + more), m) {
      TallyAppend(loaded, more, m);
    }
    assert MediaNames(loaded + more) == MediaNames(loaded) + MediaNames(more);
  }

  /** A clash in one section clashes in the whole stream. */
  lemma SectionClash(before: Rows, mid: Rows, plan: seq<Section>, content: Section -> seq<Row>, i: nat)
    requires i < |plan| && InsertAll(before, Stream(plan[..i], content)) == Some(mid) && InsertAll(mid, content(plan[i])).None?
    ensures InsertAll(before, Stream(plan, content)).None?
  {
    TakeStep(plan, i);
    InsertAppend(before, Stream(plan[..i], content), content(plan[i]));
    StreamPrefix(plan, content, i + 1);
    ClashStays(before, Stream(plan[..i + 1], content), Stream(plan, content));
  }

  /** A section that cannot be loaded refuses the whole plan. */
  lemma SectionFails(
      reg: Registry, f: Format, a: Archive, plan: seq<Section>, i: nat, before: Rows, mid: Rows, write: bool,
      content: Section -> seq<Row>)
    requires i < |plan| && (write ==> InsertAll(before, Stream(plan[..i], content)) == Some(mid))
    requires !(SectionAcceptable(reg, f, a, plan[i]) && (write ==> InsertAll(mid, content(plan[i])).Some?))
    ensures !(AllAcceptable(reg, f, a, plan) && (write ==> InsertAll(before, Stream(plan, content)).Some?))
  {
    if SectionAcceptable(reg, f, a, plan[i]) {
      SectionClash(before, mid, plan, content, i);
    } else {
      assert plan[i] in plan;
    }
  }

  method LoadSection(db: Database, reg: Registry, f: Format, a: Archive, s: Section, write: bool, transform: Row -> Row)
    returns (r: Result<map<Model, nat>, RestoreError>, referenced: set<string>)
    requires InRange(reg, s) && SectionFile(s) in a.manifest.members && KeepsModel(transform)
    modifies db
    ensures r.Ok? <==> SectionAcceptable(reg, f, a, s) &&
                       (write ==> InsertAll(old(db.rows), Reader(f, a.files, transform)(s)).Some?)
    ensures r.Ok? ==> r.value == Tally(Reader(f, a.files, transform)(s)) && referenced == MediaNames(Reader(f, a.files, transform)(s))
    ensures r.Ok? && write ==> InsertAll(old(db.rows), Reader(f, a.files, transform)(s)) == Some(db.rows)
    ensures !write ==> db.rows == old(db.rows)
  {
    TallyMapped(transform, Content(f, a.files, s));
    ghost var batches;
    r, referenced, batches := db.LoadMember(
      Records(f.rows, SectionBytes(a.files, s)), Models(reg, s), a.manifest.members[SectionFile(s)].models, write, transform);
  }

  /** Load the planned sections in order. */
  method LoadAll(
      db: Database, reg: Registry, f: Format, a: Archive, plan: seq<Section>, write: bool, transform: Row -> Row)
    returns (r: Result<map<Model, nat>, RestoreError>, referenced: set<string>)
    requires forall s | s in plan :: InRange(reg, s) && SectionFile(s) in a.manifest.members
    requires KeepsModel(transform)
    modifies db
    ensures r.Ok? <==> AllAcceptable(reg, f, a, plan) &&
                       (write ==> InsertAll(old(db.rows), Stream(plan, Reader(f, a.files, transform))).Some?)
    ensures r.Ok? ==>
              Progressed(old(db.rows), db.rows, write, Stream(plan, Reader(f, a.files, transform)), r.value, referenced)
    ensures !write ==> db.rows == old(db.rows)
  {
    assert plan[..|plan|] == plan;
    var counts: map<Model, nat> := map[];
    ghost var content := Reader(f, a.files, transform);
    referenced := {};
    for i := 0 to |plan|
      invariant AllAcceptable(reg, f, a, plan[..i])
      invariant Progressed(old(db.rows), db.rows, write, Stream(plan[..i], content), counts, referenced)
    {
      var s := plan[i];
      TakeStep(plan, i);
      ghost var mid, loaded := db.rows, Stream(plan[..i], content);
      var one, names := LoadSection(db, reg, f, a, s, write, transform);
      if one.Err? {
        SectionFails(reg, f, a, plan, i, old(db.rows), mid, write, content);
        return Err(one.error), referenced;
      }
      AllAcceptableStep(reg, f, a, plan[..i], s);
      ProgressedStep(old(db.rows), mid, db.rows, write, loaded, counts, referenced, content(s));
      counts := Plus(counts, one.value);
      referenced := referenced + names;
    }
    r := Ok(counts);
  }
}
