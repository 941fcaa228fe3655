/** The sections of a backup: which rows each one holds, the order they are loaded in, and that every row has one home. */
module Sections {
  import opened Outcomes
  import opened Registry
  import opened Tables

  /** The community a row belongs to, following the registry's path as an inner join does. */
  function Community(reg: Registry, t: Rows, r: Row): Option<Pk> {
    match reg.lookup(r.model)
    case Self => Some(r.pk)
    case Own => r.zev
    case Through(p) =>
      if r.parent.Some? && Key(p, r.parent.value) in t then t[Key(p, r.parent.value)].zev else None
  }

  datatype Section = InstanceSection(i: nat) | UnscopedSection(i: nat) | ZevSection(zev: Pk, i: nat)

  predicate InRange(reg: Registry, s: Section) {
    match s
    case InstanceSection(i) => i < |reg.instance|
    case UnscopedSection(i) => i < |reg.unscoped|
    case ZevSection(_, i) => i < |reg.zev|
  }

  function Models(reg: Registry, s: Section): seq<Model>
    requires InRange(reg, s)
  {
    match s
    case InstanceSection(i) => reg.instance[i]
    case UnscopedSection(i) => [reg.unscoped[i]]
    case ZevSection(_, i) => reg.zev[i]
  }

  /** The filter of a section's queries. */
  predicate InScope(reg: Registry, t: Rows, s: Section, r: Row) {
    match s
    case InstanceSection(_) => true
    case UnscopedSection(_) => r.zev.None?
    case ZevSection(z, _) => Community(reg, t, r) == Some(z)
  }

  predicate Selects(reg: Registry, t: Rows, s: Section, r: Row)
    requires InRange(reg, s)
  {
    r.model in Models(reg, s) && InScope(reg, t, s, r)
  }

  function PartRows(reg: Registry, t: Rows, s: Section, m: Model): set<Row> {
    set k | k in t.Keys && t[k].model == m && InScope(reg, t, s, t[k]) :: t[k]
  }

  function SectionRows(reg: Registry, t: Rows, s: Section): set<Row>
    requires InRange(reg, s)
  {
    set k | k in t.Keys && Selects(reg, t, s, t[k]) :: t[k]
  }

  // ---- One home ----

  lemma ListedAt(sections: seq<seq<Model>>, i: nat, m: Model) returns (a: nat)
    requires i < |sections| && m in sections[i]
    ensures At(sections, i, a, m) && Listed(sections, m)
  {
    a :| 0 <= a < |sections[i]| && sections[i][a] == m;
    assert At(sections, i, a, m);
  }

  /** No row is written to two sections. */
  lemma OneSectionPerRow(reg: Registry, t: Rows, r: Row, s: Section, s': Section)
    requires WellFormed(reg) && InRange(reg, s) && InRange(reg, s')
    requires Selects(reg, t, s, r) && Selects(reg, t, s', r)
    ensures s == s'
    decreases s'.InstanceSection?
  {
    var m := r.model;
    if s.InstanceSection? {
      var a := ListedAt(reg.instance, s.i, m);
      if s'.InstanceSection? {
        var b := ListedAt(reg.instance, s'.i, m);
      } else if s'.ZevSection? {
        var b := ListedAt(reg.zev, s'.i, m);
        assert false;
      }
    } else if s'.InstanceSection? {
      OneSectionPerRow(reg, t, r, s', s);
    } else if s.ZevSection? && s'.ZevSection? {
      var a := ListedAt(reg.zev, s.i, m);
      var b := ListedAt(reg.zev, s'.i, m);
    } else if s.UnscopedSection? && s'.UnscopedSection? {
      assert reg.unscoped[s.i] == m == reg.unscoped[s'.i];
    }
  }

  /** What gives a row a home: an instance model, a community that is backed up, or none and a model kept without one. */
  ghost predicate HasHome(reg: Registry, t: Rows, zevs: seq<Pk>, r: Row) {
    || Listed(reg.instance, r.model)
    || (Listed(reg.zev, r.model) && Community(reg, t, r).Some? && Community(reg, t, r).value in zevs)
    || (r.model in reg.unscoped && r.zev.None?)
  }

  predicate InPlan(reg: Registry, zevs: seq<Pk>, s: Section) {
    InRange(reg, s) && (s.ZevSection? ==> s.zev in zevs)
  }

  /** A row has a home exactly when some section of the plan selects it. */
  lemma HomeIff(reg: Registry, t: Rows, zevs: seq<Pk>, r: Row)
    ensures HasHome(reg, t, zevs, r) <==> exists s :: InPlan(reg, zevs, s) && Selects(reg, t, s, r)
  {
    if Listed(reg.instance, r.model) {
      var i: nat, a: nat :| At(reg.instance, i, a, r.model);
      assert InPlan(reg, zevs, InstanceSection(i)) && Selects(reg, t, InstanceSection(i), r);
    } else if Listed(reg.zev, r.model) && Community(reg, t, r).Some? && Community(reg, t, r).value in zevs {
      var i: nat, a: nat :| At(reg.zev, i, a, r.model);
      var s := ZevSection(Community(reg, t, r).value, i);
      assert InPlan(reg, zevs, s) && Selects(reg, t, s, r);
    } else if r.model in reg.unscoped && r.zev.None? {
      var i: nat :| i < |reg.unscoped| && reg.unscoped[i] == r.model;
      assert InPlan(reg, zevs, UnscopedSection(i)) && Selects(reg, t, UnscopedSection(i), r);
    }
    forall s | InPlan(reg, zevs, s) && Selects(reg, t, s, r) ensures HasHome(reg, t, zevs, r) {
      SelectedHasHome(reg, t, zevs, r, s);
    }
  }

  lemma SelectedHasHome(reg: Registry, t: Rows, zevs: seq<Pk>, r: Row, s: Section)
    requires InPlan(reg, zevs, s) && Selects(reg, t, s, r)
    ensures HasHome(reg, t, zevs, r)
  {
    match s
    case InstanceSection(i) => var a := ListedAt(reg.instance, i, r.model);
    case ZevSection(_, i) => var a := ListedAt(reg.zev, i, r.model);
    case UnscopedSection(i) =>
  }

  // ---- The load plan ----

  function ZevPlan(reg: Registry, z: Pk, n: nat): seq<Section>
    requires n <= |reg.zev|
  {
    seq(n, (i: nat) => ZevSection(z, i))
  }

  function ZevPlans(reg: Registry, zevs: seq<Pk>): seq<Section> {
    if zevs == [] then []
    else ZevPlans(reg, zevs[..|zevs| - 1]) + ZevPlan(reg, zevs[|zevs| - 1], |reg.zev|)
  }

  /** Instance sections, then every community's, then the rows without a community. */
  function LoadPlan(reg: Registry, zevs: seq<Pk>): seq<Section> {
    seq(|reg.instance|, (i: nat) => InstanceSection(i)) + ZevPlans(reg, zevs) + seq(|reg.unscoped|, (i: nat) => UnscopedSection(i))
  }

  lemma TakeStep<T>(xs: seq<T>, i: nat)
    requires i < |xs|
    ensures xs[..i + 1] == xs[..i] + [xs[i]] && xs[..i + 1][..i] == xs[..i]
  {
  }

  ghost predicate Distinct<T>(xs: seq<T>) {
    forall i, j | 0 <= i < j < |xs| :: xs[i] != xs[j]
  }

  lemma {:induction false} ZevPlansList(reg: Registry, zevs: seq<Pk>)
    ensures forall s :: s in ZevPlans(reg, zevs) <==> s.ZevSection? && s.zev in zevs && s.i < |reg.zev|
    ensures Distinct(zevs) ==> Distinct(ZevPlans(reg, zevs))
    decreases |zevs|
  {
    if zevs != [] {
      var n := |zevs| - 1;
      ZevPlansList(reg, zevs[..n]);
      assert zevs == zevs[..n] + [zevs[n]];
      var last := ZevPlan(reg, zevs[n], |reg.zev|);
      forall s ensures s in last <==> s.ZevSection? && s.zev == zevs[n] && s.i < |reg.zev| {
        if s.ZevSection? && s.zev == zevs[n] && s.i < |reg.zev| {
          assert last[s.i] == s;
        }
      }
    }
  }

  /** The plan names every section of the backup once. */
  lemma PlanLists(reg: Registry, zevs: seq<Pk>)
    ensures Distinct(zevs) ==> Distinct(LoadPlan(reg, zevs))
    ensures forall s :: s in LoadPlan(reg, zevs) <==> InPlan(reg, zevs, s)
  {
    ZevPlansList(reg, zevs);
    var a := seq(|reg.instance|, (i: nat) => InstanceSection(i));
    var b := ZevPlans(reg, zevs);
    var c := seq(|reg.unscoped|, (i: nat) => UnscopedSection(i));
    forall s ensures s in a <==> s.InstanceSection? && s.i < |reg.instance| {
      if s.InstanceSection? && s.i < |reg.instance| { assert a[s.i] == s; }
    }
    forall s ensures s in c <==> s.UnscopedSection? && s.i < |reg.unscoped| {
      if s.UnscopedSection? && s.i < |reg.unscoped| { assert c[s.i] == s; }
    }
    assert LoadPlan(reg, zevs) == a + b + c;
    forall s ensures s in a + b + c <==> InPlan(reg, zevs, s) {
      assert s in a + b + c <==> s in a || s in b || s in c;
    }
    assert forall i | 0 <= i < |b| :: b[i] in b;
  }

  // ---- The stream of all rows ----

  /** Every record of the planned sections, in load order. */
  function Stream(plan: seq<Section>, content: Section -> seq<Row>): seq<Row> {
    if plan == [] then [] else Stream(plan[..|plan| - 1], content) + content(plan[|plan| - 1])
  }

  function PlannedRows(reg: Registry, t: Rows, plan: seq<Section>): set<Row>
    requires forall s | s in plan :: InRange(reg, s)
  {
    if plan == [] then {}
    else PlannedRows(reg, t, plan[..|plan| - 1]) + SectionRows(reg, t, plan[|plan| - 1])
  }

  lemma {:induction false} PlannedRowsIff(reg: Registry, t: Rows, plan: seq<Section>, r: Row)
    requires forall s | s in plan :: InRange(reg, s)
    ensures r in PlannedRows(reg, t, plan) <==> exists s :: s in plan && r in SectionRows(reg, t, s)
    decreases |plan|
  {
    if plan != [] {
      var n := |plan| - 1;
      PlannedRowsIff(reg, t, plan[..n], r);
      assert plan == plan[..n] + [plan[n]];
    }
  }

  /** The stream holds every selected row exactly once. */
  lemma {:induction false} StreamLists(reg: Registry, t: Rows, plan: seq<Section>, content: Section -> seq<Row>)
    requires WellFormed(reg) && Distinct(plan)
    requires forall s | s in plan :: InRange(reg, s) && Lists(content(s), SectionRows(reg, t, s))
    ensures Lists(Stream(plan, content), PlannedRows(reg, t, plan))
    decreases |plan|
  {
    if plan != [] {
      var n := |plan| - 1;
      var init, last := plan[..n], plan[n];
      StreamLists(reg, t, init, content);
      forall r | r in PlannedRows(reg, t, init) ensures r !in SectionRows(reg, t, last) {
        PlannedRowsIff(reg, t, init, r);
        var s :| s in init && r in SectionRows(reg, t, s);
        if r in SectionRows(reg, t, last) {
          OneSectionPerRow(reg, t, r, s, last);
          assert false;
        }
      }
      ListsAppend(Stream(init, content), PlannedRows(reg, t, init), content(last), SectionRows(reg, t, last));
    }
  }

  /** The stream of a complete backup is exactly the rows that have a home. */
  lemma StreamIsHomedRows(reg: Registry, t: Rows, zevs: seq<Pk>, content: Section -> seq<Row>)
    requires WellFormed(reg) && Distinct(zevs)
    requires forall s | InPlan(reg, zevs, s) :: Lists(content(s), SectionRows(reg, t, s))
    ensures Distinct(Stream(LoadPlan(reg, zevs), content))
    ensures forall r :: r in Stream(LoadPlan(reg, zevs), content) <==> r in t.Values && HasHome(reg, t, zevs, r)
  {
    var plan := LoadPlan(reg, zevs);
    PlanLists(reg, zevs);
    StreamLists(reg, t, plan, content);
    forall r ensures r in Stream(plan, content) <==> r in t.Values && HasHome(reg, t, zevs, r) {
      PlannedRowsIff(reg, t, plan, r);
      HomeIff(reg, t, zevs, r);
    }
  }
}
