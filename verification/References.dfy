/** Foreign keys, and what deleting rows does to the rows that refer to them. */
module References {
  import opened Outcomes
  import opened Registry
  import opened Tables

  /**
   * The references of a row by what they do when their target is deleted: the row goes too, the deletion is refused, or
   * the reference is emptied; and the row with its references into a set of deleted rows emptied.
   */
  datatype Schema = Schema(
    cascade: Row -> set<Key>,
    guard: Row -> set<Key>,
    setNull: Row -> set<Key>,
    nulled: (Row, set<Key>) -> Row)

  ghost predicate NoModel(ds: set<Key>, m: Model) {
    forall k | k in ds :: k.model != m
  }

  /** Emptying references changes only those, and changes a row exactly when it has some. */
  ghost predicate CoherentAt(s: Schema, r: Row, ds: set<Key>) {
    var n := s.nulled(r, ds);
    && n.model == r.model && n.pk == r.pk && n.parent == r.parent && n.fields == r.fields
    && (n == r <==> s.setNull(r) !! ds)
    && s.cascade(n) == s.cascade(r) && s.guard(n) == s.guard(r) && s.setNull(n) == s.setNull(r) - ds
    && (NoModel(ds, Zev) ==> n.zev == r.zev)
    && (NoModel(ds, User) ==> n.users == r.users)
  }

  ghost predicate Coherent(s: Schema) {
    && (forall r, ds :: CoherentAt(s, r, ds))
    && (forall r, a, b :: s.nulled(s.nulled(r, a), b) == s.nulled(r, a + b))
    && (forall r: Row, r': Row | OnlyFields(r, r') :: SameRefs(s, r, r'))
  }

  ghost predicate OnlyFields(r: Row, r': Row) {
    r' == r.(fields := r'.fields)
  }

  ghost predicate SameRefs(s: Schema, r: Row, r': Row) {
    s.cascade(r') == s.cascade(r) && s.guard(r') == s.guard(r) && s.setNull(r') == s.setNull(r)
  }

  function Refs(s: Schema, r: Row): set<Key> {
    s.cascade(r) + s.guard(r) + s.setNull(r)
  }

  /** Foreign keys hold: every reference names a row that exists. */
  ghost predicate Whole(s: Schema, t: Rows) {
    forall k | k in t :: Refs(s, t[k]) <= t.Keys
  }

  /** A row that neither cascades to nor insists on a lost row refers, once emptied, to rows that are left. */
  lemma NulledRefs(s: Schema, r: Row, keys: set<Key>, lost: set<Key>)
    requires CoherentAt(s, r, lost) && Refs(s, r) <= keys && s.cascade(r) !! lost && s.guard(r) !! lost
    ensures Refs(s, s.nulled(r, lost)) <= keys - lost
  {
  }

  // ---- What a deletion takes along ----

  function Dependants(s: Schema, t: Rows, ds: set<Key>): set<Key> {
    set k | k in t.Keys && k !in ds && s.cascade(t[k]) * ds != {}
  }

  lemma Shrinks(all: set<Key>, ds: set<Key>, more: set<Key>)
    requires more <= all && more !! ds && more != {}
    ensures |all - (ds + more)| < |all - ds|
  {
    assert all - ds == (all - (ds + more)) + more;
    assert |all - ds| == |all - (ds + more)| + |more|;
  }

  /** The rows to delete, with everything that refers to them through a cascading reference, and so on. */
  function Collect(s: Schema, t: Rows, ds: set<Key>): set<Key>
    decreases |t.Keys - ds|
  {
    var more := Dependants(s, t, ds);
    if more == {} then ds
    else
      Shrinks(t.Keys, ds, more);
      Collect(s, t, ds + more)
  }

  /** Nothing outside refers into the set through a cascading reference. */
  ghost predicate ClosedSet(s: Schema, t: Rows, e: set<Key>) {
    forall k | k in t && k !in e :: s.cascade(t[k]) !! e
  }

  lemma {:induction false} CollectHolds(s: Schema, t: Rows, ds: set<Key>)
    ensures ds <= Collect(s, t, ds) && ClosedSet(s, t, Collect(s, t, ds))
    ensures Collect(s, t, ds) <= ds + t.Keys
    decreases |t.Keys - ds|
  {
    var more := Dependants(s, t, ds);
    if more == {} {
      forall k | k in t && k !in ds ensures s.cascade(t[k]) !! ds {
        assert k !in more;
        EmptyMeetsNothing(s.cascade(t[k]), ds);
      }
    } else {
      Shrinks(t.Keys, ds, more);
      CollectHolds(s, t, ds + more);
    }
  }

  lemma EmptyMeetsNothing(a: set<Key>, b: set<Key>)
    requires a * b == {}
    ensures a !! b
  {
    forall k | k in a ensures k !in b {
      assert k in b ==> k in a * b;
    }
  }

  /** Nothing more is collected than needed. */
  lemma {:induction false} CollectLeast(s: Schema, t: Rows, ds: set<Key>, e: set<Key>)
    requires ds <= e && ClosedSet(s, t, e)
    ensures Collect(s, t, ds) <= e
    decreases |t.Keys - ds|
  {
    var more := Dependants(s, t, ds);
    if more != {} {
      Shrinks(t.Keys, ds, more);
      forall k | k in more ensures k in e {
        assert s.cascade(t[k]) * ds <= s.cascade(t[k]) * e;
      }
      CollectLeast(s, t, ds + more, e);
    }
  }

  /** A chain of cascading references from a row to one that is deleted. */
  ghost predicate Reaches(s: Schema, t: Rows, ds: set<Key>, k: Key, n: nat)
    decreases n
  {
    k in ds || (n > 0 && k in t && exists l :: l in s.cascade(t[k]) && Reaches(s, t, ds, l, n - 1))
  }

  ghost predicate Leads(s: Schema, t: Rows, ds: set<Key>, k: Key) {
    exists n: nat :: Reaches(s, t, ds, k, n)
  }

  lemma {:induction false} ReachesIsClosed(s: Schema, t: Rows, ds: set<Key>, k: Key, n: nat, e: set<Key>)
    requires Reaches(s, t, ds, k, n) && ds <= e && ClosedSet(s, t, e)
    ensures k in e
    decreases n
  {
    if k !in ds {
      var l :| l in s.cascade(t[k]) && Reaches(s, t, ds, l, n - 1);
      ReachesIsClosed(s, t, ds, l, n - 1, e);
    }
  }

  lemma {:induction false} CollectedReaches(s: Schema, t: Rows, ds: set<Key>, k: Key) returns (n: nat)
    requires k in Collect(s, t, ds)
    ensures Reaches(s, t, ds, k, n)
    decreases |t.Keys - ds|
  {
    n := 0;
    var more := Dependants(s, t, ds);
    if more != {} {
      Shrinks(t.Keys, ds, more);
      n := CollectedReaches(s, t, ds + more, k);
      ReachesOneFurther(s, t, ds, more, k, n);
      n := n + 1;
    }
  }

  lemma {:induction false} ReachesOneFurther(s: Schema, t: Rows, ds: set<Key>, more: set<Key>, k: Key, n: nat)
    requires more == Dependants(s, t, ds) && Reaches(s, t, ds + more, k, n)
    ensures Reaches(s, t, ds, k, n + 1)
    decreases n
  {
    if k in more {
      var l :| l in s.cascade(t[k]) * ds;
      assert Reaches(s, t, ds, l, n);
    } else if k !in ds {
      var l :| l in s.cascade(t[k]) && Reaches(s, t, ds + more, l, n - 1);
      ReachesOneFurther(s, t, ds, more, l, n - 1);
    }
  }

  /** Collected are exactly the rows from which cascading references lead to a deleted one. */
  lemma CollectIff(s: Schema, t: Rows, ds: set<Key>, k: Key)
    ensures k in Collect(s, t, ds) <==> Leads(s, t, ds, k)
  {
    CollectHolds(s, t, ds);
    if k in Collect(s, t, ds) {
      var n := CollectedReaches(s, t, ds, k);
      assert Reaches(s, t, ds, k, n);
    }
    if Leads(s, t, ds, k) {
      var n: nat :| Reaches(s, t, ds, k, n);
      ReachesIsClosed(s, t, ds, k, n, Collect(s, t, ds));
    }
  }

  // ---- Deleting ----

  function Lost(s: Schema, t: Rows, ds: set<Key>): set<Key> {
    Collect(s, t, ds * t.Keys)
  }

  /** The tables without the collected rows, references to them emptied. */
  function Removal(s: Schema, t: Rows, ds: set<Key>): Rows {
    var lost := Lost(s, t, ds);
    map k | k in t.Keys && k !in lost :: s.nulled(t[k], lost)
  }

  predicate Refuses(s: Schema, t: Rows, lost: set<Key>) {
    exists k :: k in t.Keys && s.guard(t[k]) * lost != {}
  }

  /** DELETE: refused when a row that may not lose its target refers to a collected one. */
  function Delete(s: Schema, t: Rows, ds: set<Key>): Option<Rows> {
    if Refuses(s, t, Lost(s, t, ds)) then None else Some(Removal(s, t, ds))
  }

  lemma LostWithin(s: Schema, t: Rows, ds: set<Key>)
    ensures Lost(s, t, ds) <= t.Keys && ds * t.Keys <= Lost(s, t, ds) && ClosedSet(s, t, Lost(s, t, ds))
  {
    CollectHolds(s, t, ds * t.Keys);
  }

  /** Deleting twice loses what deleting both at once does. */
  lemma LostTwice(s: Schema, t: Rows, a: set<Key>, b: set<Key>)
    requires Coherent(s)
    ensures Lost(s, t, a + b) == Lost(s, t, a) + Lost(s, Removal(s, t, a), b)
  {
    var c, d, u := Lost(s, t, a), Lost(s, t, a + b), Removal(s, t, a);
    var e := Lost(s, u, b);
    LostWithin(s, t, a);
    LostWithin(s, t, a + b);
    LostWithin(s, u, b);
    forall k | k in u ensures s.cascade(u[k]) == s.cascade(t[k]) {
      assert CoherentAt(s, t[k], c);
    }
    assert ClosedSet(s, t, c + e) by {
      forall k | k in t && k !in c + e ensures s.cascade(t[k]) !! c + e {
        assert k in u;
      }
    }
    CollectLeast(s, t, (a + b) * t.Keys, c + e);
    CollectLeast(s, t, a * t.Keys, d);
    CollectLeast(s, u, b * u.Keys, d);
  }

  lemma RemovalTwice(s: Schema, t: Rows, a: set<Key>, b: set<Key>)
    requires Coherent(s)
    ensures Removal(s, Removal(s, t, a), b) == Removal(s, t, a + b)
  {
    LostTwice(s, t, a, b);
    var c, u := Lost(s, t, a), Removal(s, t, a);
    var e := Lost(s, u, b);
    forall k | k in t && k !in c && k !in e ensures s.nulled(s.nulled(t[k], c), e) == s.nulled(t[k], c + e) {}
  }

  // ---- One deletion after the other ----

  /** A sequence of deletions, each of the rows of its set that are still there. */
  function DeleteSeq(s: Schema, t: Rows, targets: seq<set<Key>>): Option<Rows> {
    if targets == [] then Some(t)
    else
      var before := DeleteSeq(s, t, targets[..|targets| - 1]);
      if before.None? then None else Delete(s, before.value, targets[|targets| - 1])
  }

  function Union(targets: seq<set<Key>>): set<Key> {
    if targets == [] then {} else Union(targets[..|targets| - 1]) + targets[|targets| - 1]
  }

  /** A sequence of deletions that is not refused deletes what one deletion of all would. */
  lemma {:induction false} DeleteSeqIs(s: Schema, t: Rows, targets: seq<set<Key>>)
    requires Coherent(s) && DeleteSeq(s, t, targets).Some?
    ensures DeleteSeq(s, t, targets).value == Removal(s, t, Union(targets))
    decreases |targets|
  {
    if targets == [] {
      NothingRemoved(s, t);
    } else {
      var n := |targets| - 1;
      DeleteSeqIs(s, t, targets[..n]);
      RemovalTwice(s, t, Union(targets[..n]), targets[n]);
    }
  }

  lemma NothingRemoved(s: Schema, t: Rows)
    requires Coherent(s)
    ensures Lost(s, t, {}) == {} && Removal(s, t, {}) == t
  {
    assert {} * t.Keys == {};
    CollectLeast(s, t, {}, {});
    forall k | k in t ensures s.nulled(t[k], {}) == t[k] {
      assert CoherentAt(s, t[k], {});
    }
  }

  lemma {:induction false} EmptyDeletions(s: Schema, t: Rows, targets: seq<set<Key>>)
    requires Coherent(s) && forall i | 0 <= i < |targets| :: targets[i] == {}
    ensures DeleteSeq(s, t, targets) == Some(t) && Union(targets) == {}
    decreases |targets|
  {
    if targets != [] {
      EmptyDeletions(s, t, targets[..|targets| - 1]);
      NothingRemoved(s, t);
      assert forall k | k in t :: s.guard(t[k]) * {} == {};
    }
  }

  /** Rows that are left have not lost a target they insist on. */
  lemma {:induction false} GuardsStand(s: Schema, t: Rows, targets: seq<set<Key>>, k: Key)
    requires Coherent(s) && DeleteSeq(s, t, targets).Some? && k in DeleteSeq(s, t, targets).value
    ensures k in t && k !in Lost(s, t, Union(targets)) && s.guard(t[k]) !! Lost(s, t, Union(targets))
    decreases |targets|
  {
    if targets == [] {
      NothingRemoved(s, t);
    } else {
      var n := |targets| - 1;
      var u := DeleteSeq(s, t, targets[..n]).value;
      GuardsStand(s, t, targets[..n], k);
      DeleteSeqIs(s, t, targets[..n]);
      LostTwice(s, t, Union(targets[..n]), targets[n]);
      assert CoherentAt(s, t[k], Lost(s, t, Union(targets[..n])));
      assert s.guard(u[k]) * Lost(s, u, targets[n]) == {};
      EmptyMeetsNothing(s.guard(u[k]), Lost(s, u, targets[n]));
    }
  }

  // ---- Deleting dependants first ----

  /** Both are listed, the first one earlier. */
  ghost predicate Before(ms: seq<Model>, x: Model, y: Model) {
    exists i, j :: 0 <= i < j < |ms| && ms[i] == x && ms[j] == y
  }

  /**
   * Rows to delete model by model: those that refer to others of them come earlier. Of the rows outside, `outer` are the
   * ones a cascade takes along.
   */
  ghost predicate Ordered(s: Schema, t: Rows, order: seq<Model>, x: set<Key>, outer: set<Key>) {
    && NoDuplicates(order) && x <= t.Keys && outer !! x
    && (forall k | k in x :: k.model in order)
    && (forall k | k in t :: OrderedAt(s, t, order, x, outer, k))
  }

  ghost predicate OrderedAt(s: Schema, t: Rows, order: seq<Model>, x: set<Key>, outer: set<Key>, k: Key)
    requires k in t
  {
    && s.guard(t[k]) !! outer
    && (k !in x ==> s.guard(t[k]) !! x)
    && (k in x ==> s.cascade(t[k]) !! outer)
    && (k !in x && k !in outer ==> s.cascade(t[k]) !! x + outer)
    && (k in x ==> forall l | l in s.guard(t[k]) && l in x :: Before(order, k.model, l.model))
    && (k in x ==> forall l | l in s.cascade(t[k]) && l in x :: k.model == l.model || Before(order, k.model, l.model))
  }

  function ByModel(x: set<Key>, order: seq<Model>): seq<set<Key>> {
    seq(|order|, i requires 0 <= i < |order| => OfModel(x, order[i]))
  }

  lemma {:induction false} UnionOfModels(x: set<Key>, order: seq<Model>, n: nat, k: Key)
    requires n <= |order|
    ensures k in Union(ByModel(x, order)[..n]) <==> k in x && k.model in order[..n]
    decreases n
  {
    var targets := ByModel(x, order);
    if n > 0 {
      assert targets[..n][..n - 1] == targets[..n - 1] && order[..n] == order[..n - 1] + [order[n - 1]];
      UnionOfModels(x, order, n - 1, k);
    }
  }

  lemma IndexOfEarlier(order: seq<Model>, n: nat, m: Model)
    requires NoDuplicates(order) && n < |order| && Before(order, m, order[n])
    ensures m in order[..n]
  {
    var i, j :| 0 <= i < j < |order| && order[i] == m && order[j] == order[n];
    assert j == n;
    assert order[..n][i] == m;
  }

  /** While one model is deleted, only its rows and outer ones go. */
  lemma StepLoses(s: Schema, t: Rows, order: seq<Model>, x: set<Key>, outer: set<Key>, n: nat, u: Rows)
    requires Coherent(s) && Ordered(s, t, order, x, outer) && n < |order|
    requires u == Removal(s, t, Union(ByModel(x, order)[..n]))
    ensures Lost(s, u, OfModel(x, order[n])) <= OfModel(x, order[n]) + outer
    ensures !Refuses(s, u, Lost(s, u, OfModel(x, order[n])))
  {
    var done, now := Union(ByModel(x, order)[..n]), OfModel(x, order[n]);
    LostWithin(s, t, done);
    forall k | k in u
      ensures s.cascade(u[k]) == s.cascade(t[k]) && s.guard(u[k]) == s.guard(t[k])
      ensures k in t && OrderedAt(s, t, order, x, outer, k)
    {
      assert CoherentAt(s, t[k], Lost(s, t, done));
    }
    forall k | k in u && k in x && Before(order, k.model, order[n]) ensures false {
      IndexOfEarlier(order, n, k.model);
      UnionOfModels(x, order, n, k);
    }
    assert ClosedSet(s, u, now + outer) by {
      forall k | k in u && k !in now + outer ensures s.cascade(u[k]) !! now + outer {
      }
    }
    CollectLeast(s, u, now * u.Keys, now + outer);
    forall k | k in u ensures s.guard(u[k]) * Lost(s, u, now) == {} {
    }
  }

  /** Dependants first: no deletion is refused, and only the rows and outer ones are lost. */
  lemma {:induction false} OrderedDeletions(s: Schema, t: Rows, order: seq<Model>, x: set<Key>, outer: set<Key>, n: nat)
    requires Coherent(s) && Ordered(s, t, order, x, outer) && n <= |order|
    ensures DeleteSeq(s, t, ByModel(x, order)[..n]).Some?
    ensures Lost(s, t, Union(ByModel(x, order)[..n])) <= Union(ByModel(x, order)[..n]) + outer
    decreases n
  {
    var targets := ByModel(x, order);
    if n == 0 {
      NothingRemoved(s, t);
    } else {
      assert targets[..n][..n - 1] == targets[..n - 1];
      OrderedDeletions(s, t, order, x, outer, n - 1);
      DeleteSeqIs(s, t, targets[..n - 1]);
      var u := DeleteSeq(s, t, targets[..n - 1]).value;
      StepLoses(s, t, order, x, outer, n - 1, u);
      LostTwice(s, t, Union(targets[..n - 1]), targets[n - 1]);
    }
  }
}
