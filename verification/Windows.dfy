/** The in-memory index over dated metering-point assignments, and the lookup of the assignment on a day. */
module Windows {
  import opened Outcomes
  import opened CivilTime

  type Id = nat

  datatype Mode = Personal | Community

  /** An assignment window: date-granular, inclusive at both ends, open-ended without `until`. */
  datatype Window = Window(from: int, until: Option<int>, participant: Id, mode: Mode, assignment: Id)

  datatype Row = Row(meter: Id, window: Window)

  type Index = map<Id, seq<Window>>

  datatype Overlap = Overlap(meter: Id)

  predicate Covers(w: Window, day: int) {
    w.from <= day && (w.until.None? || w.until.value >= day)
  }

  /** The negation of the constructor's overlap test for neighbours. */
  predicate EndsBefore(a: Window, b: Window) {
    a.until.Some? && a.until.value < b.from
  }

  // ---- Sorting by valid_from, stably ----

  ghost predicate Sorted(s: seq<Window>) {
    forall i, j | 0 <= i < j < |s| :: s[i].from <= s[j].from
  }

  function Insert(s: seq<Window>, w: Window): (r: seq<Window>)
    ensures forall x :: x in r <==> x in s || x == w
    ensures |r| == |s| + 1
  {
    if s == [] || s[|s| - 1].from <= w.from then s + [w]
    else
      var n := |s| - 1;
      assert s == s[..n] + [s[n]];
      Insert(s[..n], w) + [s[n]]
  }

  lemma SortedSnoc(s: seq<Window>, w: Window)
    requires Sorted(s) && forall x | x in s :: x.from <= w.from
    ensures Sorted(s + [w])
  {
  }

  lemma SortedLast(s: seq<Window>)
    requires Sorted(s) && s != []
    ensures forall x | x in s :: x.from <= s[|s| - 1].from
  {
    forall x | x in s ensures x.from <= s[|s| - 1].from {
      var i :| 0 <= i < |s| && s[i] == x;
      assert i < |s| - 1 ==> s[i].from <= s[|s| - 1].from;
    }
  }

  lemma {:induction false} InsertSorted(s: seq<Window>, w: Window)
    requires Sorted(s)
    ensures Sorted(Insert(s, w))
  {
    if s != [] {
      SortedLast(s);
      if s[|s| - 1].from <= w.from {
        SortedSnoc(s, w);
      } else {
        var n := |s| - 1;
        InsertSorted(s[..n], w);
        SortedSnoc(Insert(s[..n], w), s[n]);
      }
    }
  }

  function Sort(s: seq<Window>): (r: seq<Window>)
    ensures Sorted(r)
    ensures forall x :: x in r <==> x in s
  {
    if s == [] then []
    else
      var n := |s| - 1;
      assert s == s[..n] + [s[n]];
      InsertSorted(Sort(s[..n]), s[n]);
      Insert(Sort(s[..n]), s[n])
  }

  // ---- Building the index ----

  /** The windows of one meter in row order. */
  function WindowsOf(rows: seq<Row>, meter: Id): seq<Window> {
    if rows == [] then []
    else
      var n := |rows| - 1;
      WindowsOf(rows[..n], meter) + if rows[n].meter == meter then [rows[n].window] else []
  }

  lemma {:induction false} WindowsOfRows(rows: seq<Row>, meter: Id)
    ensures forall w :: w in WindowsOf(rows, meter) <==> Row(meter, w) in rows
  {
    if rows != [] {
      var n := |rows| - 1;
      assert rows == rows[..n] + [rows[n]];
      WindowsOfRows(rows[..n], meter);
    }
  }

  predicate NeighboursApart(s: seq<Window>) {
    forall i | 0 <= i < |s| - 1 :: EndsBefore(s[i], s[i + 1])
  }

  /** What the constructor accepts: every meter's sorted windows pass the neighbour test. */
  ghost predicate Accepts(rows: seq<Row>) {
    forall m :: NeighboursApart(Sort(WindowsOf(rows, m)))
  }

  method CheckNeighbours(s: seq<Window>) returns (apart: bool)
    ensures apart == NeighboursApart(s)
  {
    for i := 0 to |s|
      invariant forall k | 0 <= k < i && k < |s| - 1 :: EndsBefore(s[k], s[k + 1])
    {
      if i < |s| - 1 && (s[i].until.None? || s[i + 1].from <= s[i].until.value) {
        assert !EndsBefore(s[i], s[i + 1]);
        return false;
      }
    }
    return true;
  }

  /** The windows an index holds for a meter: none for one it does not know. */
  function At(index: Index, meter: Id): seq<Window> {
    if meter in index then index[meter] else []
  }

  method Group(rows: seq<Row>) returns (windows: Index)
    ensures forall m :: At(windows, m) == WindowsOf(rows, m)
  {
    assert rows[..|rows|] == rows;
    windows := map[];
    for i := 0 to |rows|
      invariant forall m :: At(windows, m) == WindowsOf(rows[..i], m)
    {
      assert rows[..i + 1][..i] == rows[..i];
      var row := rows[i];
      ghost var before := windows;
      windows := windows[row.meter := At(windows, row.meter) + [row.window]];
      forall m ensures At(windows, m) == WindowsOf(rows[..i + 1], m) {
        assert At(before, m) == WindowsOf(rows[..i], m);
      }
    }
  }

  /** The constructor: group the rows by meter, sort each group, refuse a group with overlapping neighbours. */
  method Build(rows: seq<Row>) returns (r: Result<Index, Overlap>)
    ensures r.Ok? <==> Accepts(rows)
    ensures r.Ok? ==> forall m :: At(r.value, m) == Sort(WindowsOf(rows, m))
    ensures r.Err? ==> !NeighboursApart(Sort(WindowsOf(rows, r.error.meter)))
  {
    var windows := Group(rows);
    var todo := windows.Keys;
    assert Sort([]) == [];
    while todo != {}
      invariant todo <= windows.Keys
      invariant forall m :: At(windows, m) == if m in todo then WindowsOf(rows, m) else Sort(WindowsOf(rows, m))
      invariant forall m | m !in todo :: NeighboursApart(At(windows, m))
      decreases todo
    {
      var m :| m in todo;
      assert At(windows, m) == WindowsOf(rows, m);
      windows := windows[m := Sort(windows[m])];
      var apart := CheckNeighbours(windows[m]);
      if !apart {
        return Err(Overlap(m));
      }
      todo := todo - {m};
    }
    return Ok(windows);
  }

  function FirstCovering(s: seq<Window>, day: int): (r: Option<Window>)
    ensures r.None? <==> forall w | w in s :: !Covers(w, day)
    ensures r.Some? ==> r.value in s && Covers(r.value, day)
  {
    if s == [] then None
    else if Covers(s[0], day) then Some(s[0])
    else FirstCovering(s[1..], day)
  }

  /** The window covering a meter on a day, found by scanning the meter's windows in order. */
  method WindowOn(index: Index, meter: Id, day: int) returns (r: Option<Window>)
    ensures r == FirstCovering(At(index, meter), day)
  {
    var windows := At(index, meter);
    for i := 0 to |windows|
      invariant FirstCovering(windows, day) == FirstCovering(windows[i..], day)
    {
      if Covers(windows[i], day) {
        return Some(windows[i]);
      }
    }
    return None;
  }

  /** The lookup on the index built from `rows`. */
  function Lookup(rows: seq<Row>, meter: Id, day: int): Option<Window> {
    FirstCovering(Sort(WindowsOf(rows, meter)), day)
  }

  /** The assignment covering a meter at an instant: matched on the instant's civil date. */
  function AssignmentAt(z: Zone, rows: seq<Row>, meter: Id, ts: int): Option<Window> {
    Lookup(rows, meter, CivilDate(z, ts))
  }

  // ---- Neighbours decide for all pairs ----

  /** Whichever starts first ends before the other starts; with equal starts, the one listed first. */
  predicate Compatible(a: Window, b: Window) {
    if a.from <= b.from then EndsBefore(a, b) else EndsBefore(b, a)
  }

  ghost predicate AllApart(s: seq<Window>) {
    forall i, j | 0 <= i < j < |s| :: EndsBefore(s[i], s[j])
  }

  lemma NeighboursDecide(s: seq<Window>)
    requires Sorted(s)
    ensures NeighboursApart(s) <==> AllApart(s)
  {
    if NeighboursApart(s) {
      forall i, j | 0 <= i < j < |s| ensures EndsBefore(s[i], s[j]) {
        assert EndsBefore(s[i], s[i + 1]);
        assert s[i + 1].from <= s[j].from;
      }
    }
  }

  lemma {:induction false} InsertApart(s: seq<Window>, w: Window)
    requires Sorted(s)
    ensures AllApart(Insert(s, w)) <==> AllApart(s) && AllFit(s, w)
  {
    if s == [] {
    } else if s[|s| - 1].from <= w.from {
      ApartSnoc(s, w);
      SortedLast(s);
    } else {
      var n := |s| - 1;
      assert s == s[..n] + [s[n]];
      assert forall x :: x in s <==> x in s[..n] || x == s[n];
      InsertApart(s[..n], w);
      ApartSnoc(s[..n], s[n]);
      ApartSnoc(Insert(s[..n], w), s[n]);
      assert Compatible(s[n], w) == EndsBefore(w, s[n]);
      assert Insert(s, w) == Insert(s[..n], w) + [s[n]];
    }
  }

  lemma ApartSnoc(s: seq<Window>, w: Window)
    ensures AllApart(s + [w]) <==> AllApart(s) && forall x | x in s :: EndsBefore(x, w)
  {
    var t := s + [w];
    if AllApart(t) {
      forall i, j | 0 <= i < j < |s| ensures EndsBefore(s[i], s[j]) {
        assert EndsBefore(t[i], t[j]);
      }
      forall x | x in s ensures EndsBefore(x, w) {
        var i :| 0 <= i < |s| && s[i] == x;
        assert EndsBefore(t[i], t[|s|]);
      }
    }
  }

  ghost predicate PairwiseCompatible(s: seq<Window>) {
    forall i, j | 0 <= i < j < |s| :: Compatible(s[i], s[j])
  }

  lemma PairwiseSnoc(s: seq<Window>, w: Window)
    ensures PairwiseCompatible(s + [w]) <==> PairwiseCompatible(s) && AllFit(s, w)
  {
    var t := s + [w];
    if PairwiseCompatible(t) {
      forall i, j | 0 <= i < j < |s| ensures Compatible(s[i], s[j]) {
        assert Compatible(t[i], t[j]);
      }
      forall x | x in s ensures Compatible(x, w) {
        var i :| 0 <= i < |s| && s[i] == x;
        assert Compatible(t[i], t[|s|]);
      }
    }
  }

  /** Comparing sorted neighbours only is the same as comparing every pair. */
  lemma {:induction false} SortedNeighboursDecide(s: seq<Window>)
    ensures NeighboursApart(Sort(s)) <==> PairwiseCompatible(s)
  {
    NeighboursDecide(Sort(s));
    if s != [] {
      var n := |s| - 1;
      assert s == s[..n] + [s[n]];
      SortedNeighboursDecide(s[..n]);
      NeighboursDecide(Sort(s[..n]));
      InsertApart(Sort(s[..n]), s[n]);
      PairwiseSnoc(s[..n], s[n]);
    }
  }

  ghost predicate RowsCompatible(rows: seq<Row>) {
    forall i, j | 0 <= i < j < |rows| && rows[i].meter == rows[j].meter :: Compatible(rows[i].window, rows[j].window)
  }

  ghost predicate MeterCompatible(rows: seq<Row>, m: Id) {
    forall i, j | 0 <= i < j < |rows| && rows[i].meter == m == rows[j].meter :: Compatible(rows[i].window, rows[j].window)
  }

  ghost predicate RowsFit(rows: seq<Row>, w: Window, m: Id) {
    forall x | x in rows && x.meter == m :: Compatible(x.window, w)
  }

  ghost predicate AllFit(s: seq<Window>, w: Window) {
    forall x | x in s :: Compatible(x, w)
  }

  lemma MeterSnoc(rows: seq<Row>, r: Row, m: Id)
    ensures MeterCompatible(rows + [r], m) <==>
            MeterCompatible(rows, m) && (r.meter == m ==> RowsFit(rows, r.window, m))
  {
    var t := rows + [r];
    if MeterCompatible(t, m) {
      forall i, j | 0 <= i < j < |rows| && rows[i].meter == m == rows[j].meter
        ensures Compatible(rows[i].window, rows[j].window)
      {
        assert t[i].meter == m == t[j].meter;
      }
      if r.meter == m {
        forall x | x in rows && x.meter == m ensures Compatible(x.window, r.window) {
          var i :| 0 <= i < |rows| && rows[i] == x;
          assert t[i].meter == m == t[|rows|].meter;
        }
      }
    }
  }

  lemma FitsEither(rows: seq<Row>, w: Window, m: Id)
    ensures RowsFit(rows, w, m) <==> AllFit(WindowsOf(rows, m), w)
  {
    WindowsOfRows(rows, m);
    if RowsFit(rows, w, m) {
      forall v | v in WindowsOf(rows, m) ensures Compatible(v, w) {
        assert Row(m, v) in rows;
      }
    }
    if AllFit(WindowsOf(rows, m), w) {
      forall x | x in rows && x.meter == m ensures Compatible(x.window, w) {
        assert Row(m, x.window) == x;
      }
    }
  }

  lemma {:induction false} MeterwiseCompatible(rows: seq<Row>, m: Id)
    ensures MeterCompatible(rows, m) <==> PairwiseCompatible(WindowsOf(rows, m))
  {
    if rows != [] {
      var n := |rows| - 1;
      var init, r := rows[..n], rows[n];
      assert rows == init + [r];
      MeterwiseCompatible(init, m);
      MeterSnoc(init, r, m);
      if r.meter == m {
        FitsEither(init, r.window, m);
        PairwiseSnoc(WindowsOf(init, m), r.window);
        assert WindowsOf(rows, m) == WindowsOf(init, m) + [r.window];
      } else {
        assert WindowsOf(rows, m) == WindowsOf(init, m);
      }
    }
  }

  /** The constructor accepts exactly the rows in which every two windows of a meter are compatible. */
  lemma AcceptsIffCompatible(rows: seq<Row>)
    ensures Accepts(rows) <==> RowsCompatible(rows)
  {
    forall m ensures NeighboursApart(Sort(WindowsOf(rows, m))) <==> MeterCompatible(rows, m) {
      SortedNeighboursDecide(WindowsOf(rows, m));
      MeterwiseCompatible(rows, m);
    }
    if Accepts(rows) {
      forall i, j | 0 <= i < j < |rows| && rows[i].meter == rows[j].meter
        ensures Compatible(rows[i].window, rows[j].window)
      {
        assert MeterCompatible(rows, rows[i].meter);
      }
    }
    if RowsCompatible(rows) {
      forall m ensures MeterCompatible(rows, m) {
      }
    }
  }

  // ---- Days ----

  predicate WellFormed(w: Window) {
    w.until.None? || w.from <= w.until.value
  }

  ghost predicate ShareADay(a: Window, b: Window) {
    exists day :: Covers(a, day) && Covers(b, day)
  }

  lemma CompatibleWindowsShareNothing(a: Window, b: Window)
    ensures Compatible(a, b) ==> !ShareADay(a, b)
    ensures WellFormed(a) && WellFormed(b) && !ShareADay(a, b) ==> Compatible(a, b)
  {
    if WellFormed(a) && WellFormed(b) && !ShareADay(a, b) {
      var later := if a.from <= b.from then b.from else a.from;
      assert !(Covers(a, later) && Covers(b, later));
    }
  }

  ghost predicate NoSharedDay(rows: seq<Row>) {
    forall i, j | 0 <= i < j < |rows| && rows[i].meter == rows[j].meter :: !ShareADay(rows[i].window, rows[j].window)
  }

  /** The constructor accepts well-formed rows exactly when no two windows of one meter share a day. */
  lemma AcceptsIffDisjoint(rows: seq<Row>)
    requires forall r | r in rows :: WellFormed(r.window)
    ensures Accepts(rows) <==> NoSharedDay(rows)
  {
    AcceptsIffCompatible(rows);
    forall i, j | 0 <= i < j < |rows|
      ensures Compatible(rows[i].window, rows[j].window) <==> !ShareADay(rows[i].window, rows[j].window)
    {
      CompatibleWindowsShareNothing(rows[i].window, rows[j].window);
    }
  }

  /** Without well-formedness the test is only sound: an inverted window covers no day and can still be refused. */
  lemma InvertedWindowRefused(w: Window)
    requires w.until.Some? && w.until.value < w.from
    ensures
      var host := w.(from := w.from - 1, until := Some(w.from));
      NoSharedDay([Row(0, host), Row(0, w)]) && !Accepts([Row(0, host), Row(0, w)])
  {
    var rows := [Row(0, w.(from := w.from - 1, until := Some(w.from))), Row(0, w)];
    AcceptsIffCompatible(rows);
    assert !Compatible(rows[0].window, rows[1].window);
  }

  // ---- The lookup is the naive one ----

  lemma AtMostOneCovers(rows: seq<Row>, meter: Id, day: int)
    requires Accepts(rows)
    ensures forall i, j | 0 <= i < j < |rows| && rows[i].meter == rows[j].meter == meter ::
              !(Covers(rows[i].window, day) && Covers(rows[j].window, day))
  {
    AcceptsIffCompatible(rows);
    forall i, j | 0 <= i < j < |rows| && rows[i].meter == rows[j].meter == meter
      ensures !(Covers(rows[i].window, day) && Covers(rows[j].window, day))
    {
      CompatibleWindowsShareNothing(rows[i].window, rows[j].window);
    }
  }

  /** On accepted rows at most one row covers a meter on a day, and the lookup is that row. */
  lemma LookupIsTheCoveringRow(rows: seq<Row>, meter: Id, day: int, w: Window)
    requires Accepts(rows)
    ensures Lookup(rows, meter, day) == Some(w) <==> Row(meter, w) in rows && Covers(w, day)
    ensures forall i, j | 0 <= i < j < |rows| && rows[i].meter == rows[j].meter == meter ::
              !(Covers(rows[i].window, day) && Covers(rows[j].window, day))
  {
    AtMostOneCovers(rows, meter, day);
    WindowsOfRows(rows, meter);
    if Row(meter, w) in rows && Covers(w, day) {
      var found := Lookup(rows, meter, day);
      assert w in Sort(WindowsOf(rows, meter));
      assert Row(meter, found.value) in rows;
    }
  }

  /** Rows outside the period do not matter inside it, whether or not they would be accepted. */
  function Overlapping(rows: seq<Row>, start: int, end: int): (r: seq<Row>)
    ensures forall x :: x in r <==> x in rows && x.window.from <= end && (x.window.until.None? || x.window.until.value >= start)
  {
    if rows == [] then []
    else
      var n := |rows| - 1;
      var w := rows[n].window;
      assert rows == rows[..n] + [rows[n]];
      Overlapping(rows[..n], start, end)
      + if w.from <= end && (w.until.None? || w.until.value >= start) then [rows[n]] else []
  }

  lemma {:induction false} OverlappingCompatible(rows: seq<Row>, start: int, end: int, m: Id)
    requires MeterCompatible(rows, m)
    ensures MeterCompatible(Overlapping(rows, start, end), m)
  {
    if rows != [] {
      var n := |rows| - 1;
      var init, r := rows[..n], rows[n];
      assert rows == init + [r];
      MeterSnoc(init, r, m);
      OverlappingCompatible(init, start, end, m);
      MeterSnoc(Overlapping(init, start, end), r, m);
    }
  }

  /** Fetching only the assignments that overlap a period gives the same answer on every day of it. */
  lemma PrefilterIsHarmless(rows: seq<Row>, start: int, end: int, meter: Id, day: int)
    requires Accepts(rows) && start <= day <= end
    ensures Accepts(Overlapping(rows, start, end))
    ensures Lookup(Overlapping(rows, start, end), meter, day) == Lookup(rows, meter, day)
  {
    var part := Overlapping(rows, start, end);
    AcceptsIffCompatible(rows);
    forall m ensures MeterCompatible(part, m) {
      OverlappingCompatible(rows, start, end, m);
    }
    assert RowsCompatible(part) by {
      forall i, j | 0 <= i < j < |part| && part[i].meter == part[j].meter
        ensures Compatible(part[i].window, part[j].window)
      {
        assert MeterCompatible(part, part[i].meter);
      }
    }
    AcceptsIffCompatible(part);
    SameCoversSameLookup(rows, part, meter, day);
  }

  lemma SameCoversSameLookup(rows: seq<Row>, other: seq<Row>, meter: Id, day: int)
    requires Accepts(rows) && Accepts(other)
    requires forall w | Covers(w, day) :: Row(meter, w) in rows <==> Row(meter, w) in other
    ensures Lookup(rows, meter, day) == Lookup(other, meter, day)
  {
    var a, b := Lookup(rows, meter, day), Lookup(other, meter, day);
    if a.Some? {
      LookupIsTheCoveringRow(rows, meter, day, a.value);
      LookupIsTheCoveringRow(other, meter, day, a.value);
    } else if b.Some? {
      LookupIsTheCoveringRow(rows, meter, day, b.value);
      LookupIsTheCoveringRow(other, meter, day, b.value);
    }
  }

  // ---- Row order is irrelevant ----

  ghost predicate BagDisjoint(bag: multiset<Row>) {
    forall a, b | a in bag && b in bag && a.meter == b.meter && (a != b || bag[a] >= 2) :: !ShareADay(a.window, b.window)
  }

  lemma {:induction false} TwoIndices(rows: seq<Row>, a: Row) returns (i: nat, j: nat)
    requires multiset(rows)[a] >= 2
    ensures i < j < |rows| && rows[i] == rows[j] == a
  {
    assert rows == [rows[0]] + rows[1..];
    if rows[0] == a {
      assert a in multiset(rows[1..]);
      var k :| 0 <= k < |rows[1..]| && rows[1..][k] == a;
      i, j := 0, k + 1;
    } else {
      i, j := TwoIndices(rows[1..], a);
      i, j := i + 1, j + 1;
    }
  }

  lemma OneIndexPerPair(rows: seq<Row>, i: nat, j: nat)
    requires i < j < |rows| && rows[i] == rows[j]
    ensures multiset(rows)[rows[i]] >= 2
  {
    assert rows == rows[..j] + [rows[j]] + rows[j + 1..];
    assert rows[i] in rows[..j];
  }

  lemma DisjointIsABagProperty(rows: seq<Row>)
    ensures NoSharedDay(rows) <==> BagDisjoint(multiset(rows))
  {
    if NoSharedDay(rows) {
      forall a, b | a in multiset(rows) && b in multiset(rows) && a.meter == b.meter && (a != b || multiset(rows)[a] >= 2)
        ensures !ShareADay(a.window, b.window)
      {
        if a == b {
          var i, j := TwoIndices(rows, a);
        } else {
          var i :| 0 <= i < |rows| && rows[i] == a;
          var j :| 0 <= j < |rows| && rows[j] == b;
        }
      }
    }
    if BagDisjoint(multiset(rows)) {
      forall i, j | 0 <= i < j < |rows| && rows[i].meter == rows[j].meter
        ensures !ShareADay(rows[i].window, rows[j].window)
      {
        if rows[i] == rows[j] { OneIndexPerPair(rows, i, j); }
      }
    }
  }

  /** Acceptance and every lookup are independent of the order in which the rows arrive. */
  lemma RowOrderIsIrrelevant(rows: seq<Row>, other: seq<Row>, meter: Id, day: int)
    requires multiset(rows) == multiset(other)
    requires forall r | r in rows :: WellFormed(r.window)
    ensures Accepts(rows) <==> Accepts(other)
    ensures Accepts(rows) ==> Lookup(rows, meter, day) == Lookup(other, meter, day)
  {
    forall x ensures x in rows <==> x in other {
      assert x in rows <==> x in multiset(rows);
    }
    DisjointIsABagProperty(rows);
    DisjointIsABagProperty(other);
    AcceptsIffDisjoint(rows);
    AcceptsIffDisjoint(other);
    if Accepts(rows) { SameCoversSameLookup(rows, other, meter, day); }
  }
}
