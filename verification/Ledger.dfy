/** Accumulating energy cells into a keyed dictionary, and sums over dictionaries, sets and postings. */
module Ledger {
  /** The three accumulated kWh figures of a row: total, local, and grid draw or feed-in. */
  datatype Cell = Cell(total: real, local: real, other: real)

  const ZERO: Cell := Cell(0.0, 0.0, 0.0)

  function Add(a: Cell, b: Cell): Cell {
    Cell(a.total + b.total, a.local + b.local, a.other + b.other)
  }

  /** One call of `_accumulate`: a cell posted under a key. */
  datatype Posting<K> = Posting(key: K, cell: Cell)

  function Post<K>(acc: map<K, Cell>, p: Posting<K>): map<K, Cell> {
    acc[p.key := if p.key in acc then Add(acc[p.key], p.cell) else p.cell]
  }

  function PostAll<K>(ps: seq<Posting<K>>): map<K, Cell> {
    if ps == [] then map[] else Post(PostAll(ps[..|ps| - 1]), ps[|ps| - 1])
  }

  /** A missing cell counts as zero. */
  function Get<K>(acc: map<K, Cell>, key: K): Cell {
    if key in acc then acc[key] else ZERO
  }

  /** The sum of the postings whose key is selected. */
  ghost function Total<K(!new)>(ps: seq<Posting<K>>, selected: K -> bool): Cell {
    if ps == [] then ZERO
    else
      var p := ps[|ps| - 1];
      Add(Total(ps[..|ps| - 1], selected), if selected(p.key) then p.cell else ZERO)
  }

  ghost function SumSet<K(!new)>(s: set<K>, f: K -> Cell): Cell
  {
    if s == {} then ZERO else var k :| k in s; Add(f(k), SumSet(s - {k}, f))
  }

  ghost function Selected<K(!new)>(acc: map<K, Cell>, selected: K -> bool): set<K> {
    set k | k in acc && selected(k)
  }

  ghost function Cells<K(!new)>(acc: map<K, Cell>): K -> Cell {
    k => Get(acc, k)
  }

  /** The sum of the dictionary's cells whose key is selected. */
  ghost function MapTotal<K(!new)>(acc: map<K, Cell>, selected: K -> bool): Cell {
    SumSet(Selected(acc, selected), Cells(acc))
  }

  lemma AnyMember(s: set<int>)
    requires s != {}
    ensures exists x :: x in s
  {
    if !exists x: int :: x in s {
      assert false;
    }
  }

  lemma AddSwap(a: Cell, b: Cell, c: Cell)
    ensures Add(a, Add(b, c)) == Add(b, Add(a, c))
    ensures Add(a, b) == Add(b, a)
    ensures Add(Add(a, b), c) == Add(a, Add(b, c))
    ensures Add(a, ZERO) == a
  {
  }

  lemma {:induction false} SumSetRemove<K(!new)>(s: set<K>, f: K -> Cell, k: K)
    requires k in s
    ensures SumSet(s, f) == Add(f(k), SumSet(s - {k}, f))
    decreases |s|
  {
    var x :| x in s && SumSet(s, f) == Add(f(x), SumSet(s - {x}, f));
    if x != k {
      SumSetRemove(s - {x}, f, k);
      SumSetRemove(s - {k}, f, x);
      assert s - {x} - {k} == s - {k} - {x};
      AddSwap(f(x), f(k), SumSet(s - {x} - {k}, f));
    }
  }

  lemma SumSetAdd<K(!new)>(s: set<K>, f: K -> Cell, k: K)
    requires k !in s
    ensures SumSet(s + {k}, f) == Add(f(k), SumSet(s, f))
  {
    SumSetRemove(s + {k}, f, k);
    assert s + {k} - {k} == s;
  }

  lemma {:induction false} SumSetSame<K(!new)>(s: set<K>, f: K -> Cell, g: K -> Cell)
    requires forall k | k in s :: f(k) == g(k)
    ensures SumSet(s, f) == SumSet(s, g)
    decreases |s|
  {
    if s != {} {
      var k :| k in s;
      SumSetRemove(s, f, k);
      SumSetRemove(s, g, k);
      SumSetSame(s - {k}, f, g);
    }
  }

  /** Keys whose cell is zero can be left out of a sum. */
  lemma {:induction false} SumSetZeros<K(!new)>(s: set<K>, t: set<K>, f: K -> Cell)
    requires s <= t && forall k | k in t && k !in s :: f(k) == ZERO
    ensures SumSet(s, f) == SumSet(t, f)
    decreases |t - s|
  {
    if s != t {
      var k :| k in t && k !in s;
      SumSetAdd(s, f, k);
      assert t - s == (t - (s + {k})) + {k};
      SumSetZeros(s + {k}, t, f);
    } else {
      assert s == t;
    }
  }

  /** The selected cells outside the posted key are untouched. */
  lemma PostElsewhere<K(!new)>(acc: map<K, Cell>, p: Posting<K>, selected: K -> bool)
    ensures Selected(Post(acc, p), selected) - {p.key} == Selected(acc, selected) - {p.key}
    ensures SumSet(Selected(acc, selected) - {p.key}, Cells(Post(acc, p))) ==
            SumSet(Selected(acc, selected) - {p.key}, Cells(acc))
  {
    SumSetSame(Selected(acc, selected) - {p.key}, Cells(Post(acc, p)), Cells(acc));
  }

  lemma PostTotal<K(!new)>(acc: map<K, Cell>, p: Posting<K>, selected: K -> bool)
    ensures MapTotal(Post(acc, p), selected) == Add(MapTotal(acc, selected), if selected(p.key) then p.cell else ZERO)
  {
    var after := Post(acc, p);
    var s, t := Selected(acc, selected), Selected(after, selected);
    var rest := SumSet(s - {p.key}, Cells(acc));
    PostElsewhere(acc, p, selected);
    if selected(p.key) {
      SumSetRemove(t, Cells(after), p.key);
      if p.key in s {
        SumSetRemove(s, Cells(acc), p.key);
        AddSwap(acc[p.key], p.cell, rest);
        AddSwap(p.cell, MapTotal(acc, selected), ZERO);
      } else {
        assert s - {p.key} == s;
        AddSwap(p.cell, rest, ZERO);
      }
    } else {
      assert s - {p.key} == s && t - {p.key} == t;
      AddSwap(rest, ZERO, ZERO);
    }
  }

  /** However postings are merged by key, the dictionary's selected cells add up to the selected postings. */
  lemma {:induction false} PostAllTotal<K(!new)>(ps: seq<Posting<K>>, selected: K -> bool)
    ensures MapTotal(PostAll(ps), selected) == Total(ps, selected)
  {
    if ps == [] {
      assert Selected(PostAll(ps), selected) == {};
    } else {
      var n := |ps| - 1;
      PostAllTotal(ps[..n], selected);
      PostTotal(PostAll(ps[..n]), ps[n], selected);
    }
  }

  ghost function Only<K(!new)>(key: K): K -> bool {
    k => k == key
  }

  /** Each cell of the dictionary is the sum of the postings under its key. */
  lemma {:induction false} PostAllCell<K(!new)>(ps: seq<Posting<K>>, key: K)
    ensures Get(PostAll(ps), key) == Total(ps, Only(key))
  {
    if ps != [] {
      var n := |ps| - 1;
      PostAllCell(ps[..n], key);
      AddSwap(Total(ps[..n], Only(key)), ps[n].cell, ZERO);
      AddSwap(ZERO, ps[n].cell, ZERO);
    }
  }

  lemma {:induction false} PostAllKeys<K(!new)>(ps: seq<Posting<K>>, key: K)
    ensures key in PostAll(ps) <==> exists i :: 0 <= i < |ps| && ps[i].key == key
  {
    if ps != [] {
      var n := |ps| - 1;
      PostAllKeys(ps[..n], key);
      assert forall i | 0 <= i < n :: ps[..n][i] == ps[i];
    }
  }

  lemma {:induction false} TotalSplit<K(!new)>(a: seq<Posting<K>>, b: seq<Posting<K>>, selected: K -> bool)
    ensures Total(a + b, selected) == Add(Total(a, selected), Total(b, selected))
  {
    if b == [] {
      assert a + b == a;
    } else {
      var n := |b| - 1;
      assert (a + b)[..|a + b| - 1] == a + b[..n];
      TotalSplit(a, b[..n], selected);
    }
  }

  lemma TotalSnoc<K(!new)>(ps: seq<Posting<K>>, p: Posting<K>, selected: K -> bool)
    ensures Total(ps + [p], selected) == Add(Total(ps, selected), if selected(p.key) then p.cell else ZERO)
  {
    assert (ps + [p])[..|ps|] == ps;
  }

  lemma {:induction false} TotalSame<K(!new)>(ps: seq<Posting<K>>, f: K -> bool, g: K -> bool)
    requires forall i | 0 <= i < |ps| :: f(ps[i].key) == g(ps[i].key)
    ensures Total(ps, f) == Total(ps, g)
  {
    if ps != [] {
      TotalSame(ps[..|ps| - 1], f, g);
    }
  }

  // ---- Sums over groups ----

  ghost function Fibre<T(!new), K(!new)>(s: set<T>, g: T -> K, k: K): set<T> {
    set x | x in s && g(x) == k
  }

  lemma {:induction false} SumSetUnion<T(!new)>(a: set<T>, b: set<T>, f: T -> Cell)
    requires a !! b
    ensures SumSet(a + b, f) == Add(SumSet(a, f), SumSet(b, f))
    decreases |b|
  {
    if b == {} {
      assert a + b == a;
      AddSwap(SumSet(a, f), ZERO, ZERO);
    } else {
      var x :| x in b;
      SumSetUnion(a, b - {x}, f);
      SumSetRemove(b, f, x);
      SumSetAdd(a + (b - {x}), f, x);
      assert a + (b - {x}) + {x} == a + b;
      AddSwap(f(x), SumSet(a, f), SumSet(b - {x}, f));
    }
  }

  ghost function FibreSums<T(!new), K(!new)>(s: set<T>, f: T -> Cell, g: T -> K): K -> Cell {
    k => SumSet(Fibre(s, g, k), f)
  }

  lemma OtherFibres<T(!new), K(!new)>(s: set<T>, f: T -> Cell, g: T -> K, k: K, ks: set<K>)
    requires k !in ks
    ensures SumSet(ks, FibreSums(s - Fibre(s, g, k), f, g)) == SumSet(ks, FibreSums(s, f, g))
  {
    var rest := s - Fibre(s, g, k);
    forall j | j in ks ensures FibreSums(rest, f, g)(j) == FibreSums(s, f, g)(j) {
      assert Fibre(rest, g, j) == Fibre(s, g, j);
    }
    SumSetSame(ks, FibreSums(rest, f, g), FibreSums(s, f, g));
  }

  /** A sum is the sum of the sums of its groups. */
  lemma {:induction false} SumByGroups<T(!new), K(!new)>(s: set<T>, f: T -> Cell, g: T -> K, ks: set<K>)
    requires forall x | x in s :: g(x) in ks
    ensures SumSet(s, f) == SumSet(ks, FibreSums(s, f, g))
    decreases |ks|
  {
    if ks == {} {
      assert s == {};
    } else {
      var k :| k in ks;
      var one := Fibre(s, g, k);
      var rest := s - one;
      SumByGroups(rest, f, g, ks - {k});
      assert one + rest == s;
      SumSetUnion(one, rest, f);
      SumSetRemove(ks, FibreSums(s, f, g), k);
      OtherFibres(s, f, g, k, ks - {k});
    }
  }

  ghost predicate FallsIn<T(!new), K(!new)>(s: set<T>, g: T -> K, ks: set<K>) {
    forall x | x in s :: g(x) in ks
  }

  ghost predicate Sums<T(!new), K(!new)>(s: set<T>, f: T -> Cell, g: T -> K, ks: set<K>, h: K -> Cell) {
    forall k | k in ks :: SumSet(Fibre(s, g, k), f) == h(k)
  }

  lemma SumByKeys<T(!new), K(!new)>(s: set<T>, f: T -> Cell, g: T -> K, ks: set<K>, h: K -> Cell)
    requires FallsIn(s, g, ks) && Sums(s, f, g, ks, h)
    ensures SumSet(s, f) == SumSet(ks, h)
  {
    SumByGroups(s, f, g, ks);
    SumSetSame(ks, FibreSums(s, f, g), h);
  }
}
