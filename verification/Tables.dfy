/** Database rows with their primary keys: reading them in some order, inserting them, counting them. */
module Tables {
  import opened Outcomes
  import opened Registry

  type Pk = string

  /** A row: its community column, the row it belongs to, its links to accounts, its other references, and its other columns. */
  datatype Row = Row(
    model: Model,
    pk: Pk,
    zev: Option<Pk>,
    parent: Option<Pk>,
    users: seq<Option<Pk>>,
    refs: map<Reference, Pk>,
    fields: map<string, string>)

  /** The references other than to a community, an owner row or an account. */
  datatype Reference =
    | PreferredZev | Provider | Source | PartyRef | BuildingRef | ParticipantRef | MeteringPointRef | DynamicSource
    | InvoiceRef | SourceInvoice | ImportLogRef | ContractRef | SupersededBy | Destination | SourceBackup | SafetyBackup
    | SafetyDestination

  datatype Key = Key(model: Model, pk: Pk)

  type Rows = map<Key, Row>

  function KeyOf(r: Row): Key {
    Key(r.model, r.pk)
  }

  ghost predicate Keyed(t: Rows) {
    forall k | k in t :: KeyOf(t[k]) == k
  }

  ghost predicate SameAt(t: Rows, v: Rows, k: Key) {
    (k in t <==> k in v) && (k in t ==> v[k] == t[k])
  }

  /** The value of a column; a missing one reads as the empty string. */
  function Field(r: Row, name: string): string {
    if name in r.fields then r.fields[name] else ""
  }

  // ---- Reading a set of rows in some order ----

  /** Each row of the set once, and nothing else. */
  ghost predicate Lists(s: seq<Row>, rs: set<Row>) {
    && (forall i, j | 0 <= i < j < |s| :: s[i] != s[j])
    && (forall r :: r in s <==> r in rs)
  }

  /** A query's rows, in an order the database chooses. */
  method Iterate(rs: set<Row>) returns (s: seq<Row>)
    ensures Lists(s, rs)
  {
    s := [];
    var rest := rs;
    while rest != {}
      invariant forall i, j | 0 <= i < j < |s| :: s[i] != s[j]
      invariant forall r :: r in s <==> r in rs && r !in rest
      decreases rest
    {
      var r :| r in rest;
      s, rest := s + [r], rest - {r};
    }
  }

  lemma ListsAppend(a: seq<Row>, x: set<Row>, b: seq<Row>, y: set<Row>)
    requires Lists(a, x) && Lists(b, y) && x !! y
    ensures Lists(a + b, x + y)
  {
    var s := a + b;
    forall i, j | 0 <= i < j < |s| ensures s[i] != s[j] {
      if i < |a| <= j {
        assert s[i] in a && s[j] in b;
      }
    }
  }

  // ---- Inserting ----

  /** INSERT of a sequence of rows: a taken key is an integrity error. */
  function InsertAll(t: Rows, rs: seq<Row>): Option<Rows> {
    if rs == [] then Some(t)
    else
      var before := InsertAll(t, rs[..|rs| - 1]);
      var r := rs[|rs| - 1];
      if before.None? || KeyOf(r) in before.value then None else Some(before.value[KeyOf(r) := r])
  }

  lemma {:induction false} InsertAppend(t: Rows, a: seq<Row>, b: seq<Row>)
    ensures InsertAll(t, a + b) == if InsertAll(t, a).None? then None else InsertAll(InsertAll(t, a).value, b)
    decreases |b|
  {
    if b == [] {
      assert a + b == a;
    } else {
      var n := |b| - 1;
      assert (a + b)[..|a + b| - 1] == a + b[..n];
      InsertAppend(t, a, b[..n]);
    }
  }

  ghost predicate DistinctKeys(rs: seq<Row>) {
    forall i, j | 0 <= i < j < |rs| :: KeyOf(rs[i]) != KeyOf(rs[j])
  }

  ghost predicate FreeKeys(t: Rows, rs: seq<Row>) {
    forall r | r in rs :: KeyOf(r) !in t
  }

  /** The old rows and the new ones, each under its key, and nothing else. */
  ghost predicate Extends(t: Rows, rs: seq<Row>, v: Rows) {
    && (forall k | k in t :: k in v && v[k] == t[k])
    && (forall r | r in rs :: KeyOf(r) in v && v[KeyOf(r)] == r)
    && (forall k | k in v && k !in t :: v[k] in rs && KeyOf(v[k]) == k)
  }

  /** Rows can be inserted exactly when their keys are distinct and free; the table then holds old and new rows. */
  lemma {:induction false} InsertAllIff(t: Rows, rs: seq<Row>)
    ensures InsertAll(t, rs).Some? <==> DistinctKeys(rs) && FreeKeys(t, rs)
    ensures InsertAll(t, rs).Some? ==> Extends(t, rs, InsertAll(t, rs).value)
    decreases |rs|
  {
    if rs != [] {
      var n := |rs| - 1;
      var init, r := rs[..n], rs[n];
      assert rs == init + [r];
      InsertAllIff(t, init);
      assert DistinctKeys(rs) ==> DistinctKeys(init);
      if InsertAll(t, init).Some? {
        var v := InsertAll(t, init).value;
        assert KeyOf(r) in v <==> KeyOf(r) in t || exists i :: 0 <= i < n && KeyOf(init[i]) == KeyOf(r);
        if KeyOf(r) !in v {
          assert DistinctKeys(rs) && FreeKeys(t, rs);
        } else if KeyOf(r) in t {
          assert !FreeKeys(t, rs);
        } else {
          var i :| 0 <= i < n && KeyOf(init[i]) == KeyOf(r);
          assert KeyOf(rs[i]) == KeyOf(rs[n]);
          assert !DistinctKeys(rs);
        }
      } else if !FreeKeys(t, init) {
        assert !FreeKeys(t, rs);
      }
    }
  }

  lemma ExtendsUnique(t: Rows, rs: seq<Row>, v: Rows, w: Rows)
    requires Extends(t, rs, v) && Extends(t, rs, w)
    ensures v == w
  {
    forall k ensures k in v <==> k in w {
      if k in v && k !in t { assert KeyOf(v[k]) in w; }
      if k in w && k !in t { assert KeyOf(w[k]) in v; }
    }
    forall k | k in v ensures v[k] == w[k] {
      if k !in t { assert w[KeyOf(v[k])] == v[k]; }
    }
  }

  // ---- Counting ----

  function Get(m: map<Model, nat>, x: Model): nat {
    if x in m then m[x] else 0
  }

  /** Rows per model, models without rows left out. */
  function Tally(rs: seq<Row>): map<Model, nat> {
    if rs == [] then map[]
    else
      var before := Tally(rs[..|rs| - 1]);
      var m := rs[|rs| - 1].model;
      before[m := Get(before, m) + 1]
  }

  function NonZero(m: map<Model, nat>): map<Model, nat> {
    map x | x in m && m[x] > 0 :: m[x]
  }

  lemma {:induction false} TallyAppend(a: seq<Row>, b: seq<Row>, m: Model)
    ensures Get(Tally(a + b), m) == Get(Tally(a), m) + Get(Tally(b), m)
    decreases |b|
  {
    if b == [] {
      assert a + b == a;
    } else {
      var n := |b| - 1;
      assert (a + b)[..|a + b| - 1] == a + b[..n];
      TallyAppend(a, b[..n], m);
    }
  }

  lemma {:induction false} TallyKeys(rs: seq<Row>)
    ensures forall m | m in Tally(rs) :: Tally(rs)[m] > 0 && exists r :: r in rs && r.model == m
    ensures forall r | r in rs :: r.model in Tally(rs)
    decreases |rs|
  {
    if rs != [] {
      var n := |rs| - 1;
      assert rs == rs[..n] + [rs[n]];
      TallyKeys(rs[..n]);
    }
  }

  function OfModel(keys: set<Key>, m: Model): set<Key> {
    set k | k in keys && k.model == m
  }

  function Count(t: Rows, m: Model): nat {
    |OfModel(t.Keys, m)|
  }

  lemma OfModelAdd(keys: set<Key>, key: Key, m: Model)
    requires key !in keys
    ensures |OfModel(keys + {key}, m)| == |OfModel(keys, m)| + if key.model == m then 1 else 0
  {
    var before, after := OfModel(keys, m), OfModel(keys + {key}, m);
    if key.model == m {
      forall k ensures k in after <==> k in before + {key} {}
      assert after == before + {key};
    } else {
      forall k ensures k in after <==> k in before {}
      assert after == before;
    }
  }

  lemma CountInsert(t: Rows, r: Row, m: Model)
    requires KeyOf(r) !in t
    ensures Count(t[KeyOf(r) := r], m) == Count(t, m) + if r.model == m then 1 else 0
  {
    OfModelAdd(t.Keys, KeyOf(r), m);
    assert t[KeyOf(r) := r].Keys == t.Keys + {KeyOf(r)};
  }

  /** A table grows by exactly the rows of its model that were inserted. */
  lemma {:induction false} CountAfter(t: Rows, rs: seq<Row>, m: Model)
    requires InsertAll(t, rs).Some?
    ensures Count(InsertAll(t, rs).value, m) == Count(t, m) + Get(Tally(rs), m)
    decreases |rs|
  {
    if rs != [] {
      var n := |rs| - 1;
      CountAfter(t, rs[..n], m);
      CountInsert(InsertAll(t, rs[..n]).value, rs[n], m);
    }
  }
}
