/** Names in ascending order, by code points. */
module Names {
  predicate Less(a: string, b: string) {
    b != [] && (a == [] || a[0] < b[0] || (a[0] == b[0] && Less(a[1..], b[1..])))
  }

  lemma {:induction false} LessTotal(a: string, b: string)
    ensures a == b || Less(a, b) || Less(b, a)
  {
    if a != [] && b != [] && a[0] == b[0] {
      LessTotal(a[1..], b[1..]);
      assert a == [a[0]] + a[1..] && b == [b[0]] + b[1..];
    }
  }

  lemma {:induction false} LessTransitive(a: string, b: string, c: string)
    requires Less(a, b) && Less(b, c)
    ensures Less(a, c)
  {
    if a != [] && a[0] == b[0] && b[0] == c[0] {
      LessTransitive(a[1..], b[1..], c[1..]);
    }
  }

  lemma {:induction false} LessIrreflexive(a: string)
    ensures !Less(a, a)
  {
    if a != [] {
      LessIrreflexive(a[1..]);
    }
  }

  ghost predicate Ascending(ps: seq<string>) {
    forall i, j | 0 <= i < j < |ps| :: Less(ps[i], ps[j])
  }

  function Insert(ps: seq<string>, p: string): (r: seq<string>)
    ensures forall x :: x in r <==> x in ps || x == p
  {
    if ps == [] || Less(p, ps[0]) then [p] + ps
    else
      assert ps == [ps[0]] + ps[1..];
      [ps[0]] + Insert(ps[1..], p)
  }

  lemma {:induction false} InsertAscends(ps: seq<string>, p: string)
    requires Ascending(ps) && p !in ps
    ensures Ascending(Insert(ps, p))
  {
    if ps == [] {
    } else if Less(p, ps[0]) {
      forall j | 1 <= j < |ps| ensures Less(p, ps[j]) {
        LessTransitive(p, ps[0], ps[j]);
      }
    } else {
      LessTotal(p, ps[0]);
      InsertAscends(ps[1..], p);
      var rest := Insert(ps[1..], p);
      forall j | 0 <= j < |rest| ensures Less(ps[0], rest[j]) {
        assert rest[j] in rest;
        if rest[j] != p {
          var k :| 0 <= k < |ps[1..]| && ps[1..][k] == rest[j];
          assert ps[k + 1] == rest[j];
        }
      }
    }
  }

  /** The names of a set in ascending order. */
  ghost function Sorted(s: set<string>): (ps: seq<string>)
    ensures Ascending(ps) && forall p :: p in ps <==> p in s
  {
    if s == {} then []
    else
      var p :| p in s;
      InsertAscends(Sorted(s - {p}), p);
      Insert(Sorted(s - {p}), p)
  }

  lemma HeadIsLeast(ps: seq<string>, qs: seq<string>)
    requires Ascending(ps) && Ascending(qs) && ps != [] && qs != [] && ps[0] in qs && qs[0] in ps
    ensures ps[0] == qs[0]
  {
    if ps[0] != qs[0] {
      LessTransitive(ps[0], qs[0], ps[0]);
      LessIrreflexive(ps[0]);
      assert false;
    }
  }

  lemma TailElements(ps: seq<string>, p: string)
    requires Ascending(ps) && ps != []
    ensures p in ps[1..] <==> p in ps && p != ps[0]
  {
    LessIrreflexive(ps[0]);
    assert ps == [ps[0]] + ps[1..];
  }

  /** There is one ascending list of a set. */
  lemma {:induction false} AscendingIsUnique(ps: seq<string>, qs: seq<string>)
    requires Ascending(ps) && Ascending(qs) && forall p :: p in ps <==> p in qs
    ensures ps == qs
  {
    assert ps != [] ==> ps[0] in ps;
    assert qs != [] ==> qs[0] in qs;
    if ps != [] {
      HeadIsLeast(ps, qs);
      forall p ensures p in ps[1..] <==> p in qs[1..] {
        TailElements(ps, p);
        TailElements(qs, p);
      }
      AscendingIsUnique(ps[1..], qs[1..]);
    }
  }

  method Sort(s: set<string>) returns (ps: seq<string>)
    ensures ps == Sorted(s)
  {
    ps := [];
    var rest := s;
    while rest != {}
      invariant rest <= s && Ascending(ps) && forall p :: p in ps <==> p in s && p !in rest
      decreases rest
    {
      var p :| p in rest;
      InsertAscends(ps, p);
      ps, rest := Insert(ps, p), rest - {p};
    }
    AscendingIsUnique(ps, Sorted(s));
  }

  /** A name is less than another exactly when they agree up to a place where it ends first or has the smaller character. */
  lemma {:induction false} LessIff(a: string, b: string)
    ensures Less(a, b) <==> exists i: nat :: Differ(a, b, i)
  {
    forall i: nat | Differ(a, b, i) && i > 0 ensures a != [] && a[0] == b[0] {
      assert a[..i][0] == b[..i][0];
    }
    if a != [] && b != [] && a[0] == b[0] {
      LessIff(a[1..], b[1..]);
      if Less(a, b) {
        var i: nat :| Differ(a[1..], b[1..], i);
        assert a[..i + 1] == [a[0]] + a[1..][..i] && b[..i + 1] == [b[0]] + b[1..][..i];
        assert Differ(a, b, i + 1);
      }
      if i: nat :| Differ(a, b, i) {
        assert i > 0 && a[1..][..i - 1] == a[..i][1..] && b[1..][..i - 1] == b[..i][1..];
        assert Differ(a[1..], b[1..], i - 1);
      }
    } else if Less(a, b) {
      assert Differ(a, b, 0);
    }
  }

  /** Equal up to place i, where the first ends or has the smaller character. */
  ghost predicate Differ(a: string, b: string, i: nat) {
    i <= |a| && i < |b| && a[..i] == b[..i] && (i == |a| || a[i] < b[i])
  }
}
