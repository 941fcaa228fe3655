/** Retention and expiry of stored backups: what a sweep deletes and what it always leaves. */
module Retention {
  import opened Outcomes

  type Id = nat

  /** What retention counts separately: the whole instance, or one community. */
  datatype Kind = Instance | Community(zev: Option<Id>)

  datatype Status = Queued | Running | Completed | Failed

  /** A backup row; `safety` is the pre-restore trigger. */
  datatype Backup = Backup(
    pk: Id, destination: Option<Id>, kind: Kind, safety: bool, status: Status,
    completedAt: int, createdAt: int, expires: Option<int>, deleted: bool)

  // ---- Expiry ----

  /** Only a safety backup written to a saved destination expires, and only when a number of days is configured. */
  function ExpiryFor(safety: bool, destination: Option<Id>, days: int, now: int): Option<int> {
    if safety && destination.Some? && days > 0 then Some(now + days) else None
  }

  predicate IsExpired(b: Backup, now: int, inUse: set<Id>) {
    && b.status == Completed && !b.deleted && b.destination.Some?
    && b.expires.Some? && b.expires.value <= now && b.pk !in inUse
  }

  function ExpiredPks(jobs: seq<Backup>, now: int, inUse: set<Id>): (r: seq<Id>)
    ensures forall pk :: pk in r <==> exists b :: b in jobs && b.pk == pk && IsExpired(b, now, inUse)
  {
    if jobs == [] then []
    else
      assert jobs == [jobs[0]] + jobs[1..];
      (if IsExpired(jobs[0], now, inUse) then [jobs[0].pk] else []) + ExpiredPks(jobs[1..], now, inUse)
  }

  // ---- Newest first ----

  predicate Newer(a: Backup, b: Backup) {
    a.completedAt > b.completedAt || (a.completedAt == b.completedAt && a.createdAt > b.createdAt)
  }

  ghost predicate NewestFirst(s: seq<Backup>) {
    forall i, j | 0 <= i < j < |s| :: !Newer(s[j], s[i])
  }

  function Insert(s: seq<Backup>, b: Backup): (r: seq<Backup>)
    ensures forall x :: x in r <==> x in s || x == b
  {
    if s == [] then [b]
    else if Newer(b, s[0]) then [b] + s
    else
      assert s == [s[0]] + s[1..];
      [s[0]] + Insert(s[1..], b)
  }

  lemma {:induction false} InsertOrdered(s: seq<Backup>, b: Backup)
    requires NewestFirst(s)
    ensures NewestFirst(Insert(s, b))
  {
    if s != [] && !Newer(b, s[0]) {
      InsertOrdered(s[1..], b);
      var t := Insert(s[1..], b);
      forall i, j | 0 <= i < j < |t| + 1 ensures !Newer(([s[0]] + t)[j], ([s[0]] + t)[i]) {
        if i == 0 {
          var x := t[j - 1];
          assert x in t;
          if x != b {
            var k :| 0 <= k < |s[1..]| && s[1..][k] == x;
            assert !Newer(s[k + 1], s[0]);
          }
        }
      }
    }
  }

  function Sort(s: seq<Backup>): (r: seq<Backup>)
    ensures NewestFirst(r)
    ensures forall x :: x in r <==> x in s
  {
    if s == [] then []
    else
      assert s == [s[0]] + s[1..];
      InsertOrdered(Sort(s[1..]), s[0]);
      Insert(Sort(s[1..]), s[0])
  }

  /** Routine backups of a destination that still have their file. */
  predicate IsCandidate(b: Backup, destination: Id) {
    b.destination == Some(destination) && b.status == Completed && !b.deleted && !b.safety
  }

  function Select(jobs: seq<Backup>, destination: Id): (r: seq<Backup>)
    ensures forall b :: b in r <==> b in jobs && IsCandidate(b, destination)
  {
    if jobs == [] then []
    else
      assert jobs == [jobs[0]] + jobs[1..];
      (if IsCandidate(jobs[0], destination) then [jobs[0]] else []) + Select(jobs[1..], destination)
  }

  function Candidates(jobs: seq<Backup>, destination: Id): (r: seq<Backup>)
    ensures NewestFirst(r)
    ensures forall b :: b in r <==> b in jobs && IsCandidate(b, destination)
  {
    Sort(Select(jobs, destination))
  }

  // ---- Beyond retention ----

  function KindCount(s: seq<Backup>, kind: Kind): nat {
    if s == [] then 0 else KindCount(s[..|s| - 1], kind) + if s[|s| - 1].kind == kind then 1 else 0
  }

  /** Position i of a newest-first list is doomed: enough newer ones of its kind come before it and nothing reads it. */
  predicate DoomedAt(s: seq<Backup>, keep: nat, inUse: set<Id>, i: nat)
    requires i < |s|
  {
    KindCount(s[..i], s[i].kind) >= keep && s[i].pk !in inUse
  }

  function DoomedPks(s: seq<Backup>, keep: nat, inUse: set<Id>, n: nat): (r: seq<Id>)
    requires n <= |s|
    ensures forall pk :: pk in r <==> exists i: nat :: i < n && s[i].pk == pk && DoomedAt(s, keep, inUse, i)
  {
    if n == 0 then []
    else DoomedPks(s, keep, inUse, n - 1) + if DoomedAt(s, keep, inUse, n - 1) then [s[n - 1].pk] else []
  }

  /** One destination's list, counting each kind as it goes. */
  method ScanDestination(s: seq<Backup>, keep: nat, inUse: set<Id>) returns (doomed: seq<Id>)
    ensures doomed == DoomedPks(s, keep, inUse, |s|)
  {
    doomed := [];
    var kept: map<Kind, nat> := map[];
    for i := 0 to |s|
      invariant doomed == DoomedPks(s, keep, inUse, i)
      invariant forall k :: (if k in kept then kept[k] else 0) == KindCount(s[..i], k)
    {
      var key := s[i].kind;
      assert s[..i + 1][..i] == s[..i];
      kept := kept[key := (if key in kept then kept[key] else 0) + 1];
      if kept[key] > keep && s[i].pk !in inUse {
        doomed := doomed + [s[i].pk];
      }
    }
  }

  type Destinations = map<Id, nat>

  /** A retention count of zero keeps everything. */
  predicate DoomedAtDestination(jobs: seq<Backup>, destinations: Destinations, inUse: set<Id>, d: Id, pk: Id) {
    && d in destinations && destinations[d] > 0
    && pk in DoomedPks(Candidates(jobs, d), destinations[d], inUse, |Candidates(jobs, d)|)
  }

  ghost predicate BeyondRetention(jobs: seq<Backup>, destinations: Destinations, inUse: set<Id>, pk: Id) {
    exists d :: DoomedAtDestination(jobs, destinations, inUse, d, pk)
  }

  method FindBeyondRetention(jobs: seq<Backup>, destinations: Destinations, inUse: set<Id>) returns (doomed: seq<Id>)
    ensures forall pk :: pk in doomed <==> BeyondRetention(jobs, destinations, inUse, pk)
  {
    doomed := [];
    var todo := destinations.Keys;
    while todo != {}
      invariant todo <= destinations.Keys
      invariant forall pk :: pk in doomed <==> exists d :: d !in todo && DoomedAtDestination(jobs, destinations, inUse, d, pk)
      decreases todo
    {
      var d :| d in todo;
      var more: seq<Id> := [];
      if destinations[d] > 0 {
        more := ScanDestination(Candidates(jobs, d), destinations[d], inUse);
      }
      assert forall pk :: pk in more <==> DoomedAtDestination(jobs, destinations, inUse, d, pk);
      doomed := doomed + more;
      todo := todo - {d};
    }
  }

  // ---- The sweep ----

  function MarkDeleted(jobs: seq<Backup>, pks: set<Id>): (r: seq<Backup>)
    ensures |r| == |jobs|
    ensures forall i | 0 <= i < |jobs| :: r[i] == jobs[i].(deleted := jobs[i].deleted || jobs[i].pk in pks)
  {
    if jobs == [] then []
    else [jobs[0].(deleted := jobs[0].deleted || jobs[0].pk in pks)] + MarkDeleted(jobs[1..], pks)
  }

  /** The listed files that can be reached. */
  ghost function Reached(pks: seq<Id>, failing: set<Id>): set<Id> {
    set pk | pk in pks && pk !in failing
  }

  ghost function AfterExpiry(jobs: seq<Backup>, now: int, inUse: set<Id>, failing: set<Id>): seq<Backup> {
    MarkDeleted(jobs, Reached(ExpiredPks(jobs, now, inUse), failing))
  }

  ghost function DoomedSet(jobs: seq<Backup>, destinations: Destinations, inUse: set<Id>, failing: set<Id>): set<Id> {
    set b | b in jobs && BeyondRetention(jobs, destinations, inUse, b.pk) && b.pk !in failing :: b.pk
  }

  /**
   * A whole sweep: expiry first, then retention on what is left. `inUse` is the snapshot of protected backups read at
   * the start; the files in `failing` are at a destination that cannot be reached.
   */
  ghost function Swept(
    jobs: seq<Backup>, destinations: Destinations, now: int, inUse: set<Id>, failing: set<Id>): seq<Backup>
  {
    var left := AfterExpiry(jobs, now, inUse, failing);
    MarkDeleted(left, DoomedSet(left, destinations, inUse, failing))
  }

  class BackupTable {
    var jobs: seq<Backup>

    constructor (initial: seq<Backup>)
      ensures jobs == initial
    {
      jobs := initial;
    }

    /** Delete the listed files one by one; a file that cannot be reached is counted and left for the next sweep. */
    method DeleteEach(pks: seq<Id>, failing: set<Id>) returns (errors: nat)
      modifies this
      ensures jobs == MarkDeleted(old(jobs), Reached(pks, failing))
      ensures errors <= |pks|
    {
      errors := 0;
      ghost var before := jobs;
      assert jobs == MarkDeleted(before, Reached(pks[..0], failing));
      for i := 0 to |pks|
        invariant jobs == MarkDeleted(before, Reached(pks[..i], failing))
        invariant errors <= i
      {
        assert pks[..i + 1] == pks[..i] + [pks[i]];
        if pks[i] in failing {
          errors := errors + 1;
          assert Reached(pks[..i + 1], failing) == Reached(pks[..i], failing);
        } else {
          MarkTwice(before, Reached(pks[..i], failing), {pks[i]});
          assert Reached(pks[..i + 1], failing) == Reached(pks[..i], failing) + {pks[i]};
          jobs := MarkDeleted(jobs, {pks[i]});
        }
      }
      assert pks[..|pks|] == pks;
    }

    method Sweep(destinations: Destinations, now: int, inUse: set<Id>, failing: set<Id>) returns (errors: nat)
      modifies this
      ensures jobs == Swept(old(jobs), destinations, now, inUse, failing)
    {
      errors := DeleteEach(ExpiredPks(jobs, now, inUse), failing);
      ghost var left := jobs;
      var doomed := FindBeyondRetention(jobs, destinations, inUse);
      var more := DeleteEach(doomed, failing);
      errors := errors + more;
      MarkSame(left, Reached(doomed, failing), DoomedSet(left, destinations, inUse, failing));
    }
  }

  lemma MarkTwice(jobs: seq<Backup>, a: set<Id>, b: set<Id>)
    ensures MarkDeleted(MarkDeleted(jobs, a), b) == MarkDeleted(jobs, a + b)
  {
  }

  lemma MarkSame(jobs: seq<Backup>, a: set<Id>, b: set<Id>)
    requires forall x | x in jobs :: x.pk in a <==> x.pk in b
    ensures MarkDeleted(jobs, a) == MarkDeleted(jobs, b)
  {
    forall i | 0 <= i < |jobs| ensures MarkDeleted(jobs, a)[i] == MarkDeleted(jobs, b)[i] {
      assert jobs[i] in jobs;
    }
  }

  // ---- What a sweep deletes ----

  ghost predicate DistinctPks(jobs: seq<Backup>) {
    forall i, j | 0 <= i < j < |jobs| :: jobs[i].pk != jobs[j].pk
  }

  ghost predicate OnlySafetyExpires(jobs: seq<Backup>) {
    forall b | b in jobs :: b.expires.Some? ==> b.safety
  }

  lemma SamePkSameBackup(jobs: seq<Backup>, a: Backup, b: Backup)
    requires DistinctPks(jobs) && a in jobs && b in jobs && a.pk == b.pk
    ensures a == b
  {
    var i :| 0 <= i < |jobs| && jobs[i] == a;
    var j :| 0 <= j < |jobs| && jobs[j] == b;
  }

  /** The same backups of a kind that are newer than one. */
  function NewerCount(s: seq<Backup>, b: Backup): nat {
    if s == [] then 0 else NewerCount(s[1..], b) + if s[0].kind == b.kind && Newer(s[0], b) then 1 else 0
  }

  lemma {:induction false} NewerCountInsert(s: seq<Backup>, x: Backup, b: Backup)
    ensures NewerCount(Insert(s, x), b) == NewerCount(s, b) + if x.kind == b.kind && Newer(x, b) then 1 else 0
  {
    if s == [] {
      assert [x][1..] == [];
    } else if Newer(x, s[0]) {
      assert ([x] + s)[1..] == s;
    } else {
      NewerCountInsert(s[1..], x, b);
      assert ([s[0]] + Insert(s[1..], x))[1..] == Insert(s[1..], x);
    }
  }

  lemma {:induction false} NewerCountSort(s: seq<Backup>, b: Backup)
    ensures NewerCount(Sort(s), b) == NewerCount(s, b)
  {
    if s != [] {
      NewerCountSort(s[1..], b);
      NewerCountInsert(Sort(s[1..]), s[0], b);
    }
  }

  lemma {:induction false} NewerCountSnoc(s: seq<Backup>, x: Backup, b: Backup)
    ensures NewerCount(s + [x], b) == NewerCount(s, b) + if x.kind == b.kind && Newer(x, b) then 1 else 0
  {
    if s == [] {
      assert [] + [x] == [x] && [x][1..] == [];
    } else {
      NewerCountSnoc(s[1..], x, b);
      assert (s + [x])[1..] == s[1..] + [x];
    }
  }

  /** Backups of one kind and destination never share both timestamps. */
  ghost predicate NoTies(s: seq<Backup>) {
    forall a, b | a in s && b in s && a.pk != b.pk && a.kind == b.kind :: Newer(a, b) || Newer(b, a)
  }

  /** In a newest-first list without ties, the ones of a kind before a backup are exactly the newer ones. */
  lemma {:induction false} RankIsNewerCount(s: seq<Backup>, i: nat, n: nat)
    requires i < |s| && n <= |s| && NewestFirst(s) && NoTies(s) && DistinctPks(s)
    ensures NewerCount(s[..n], s[i]) == if n <= i then KindCount(s[..n], s[i].kind) else KindCount(s[..i], s[i].kind)
  {
    if n > 0 {
      RankIsNewerCount(s, i, n - 1);
      assert s[..n] == s[..n - 1] + [s[n - 1]] && s[..n][..n - 1] == s[..n - 1];
      NewerCountSnoc(s[..n - 1], s[n - 1], s[i]);
      if s[n - 1].kind == s[i].kind { NewerByPlace(s, i, n - 1); }
    }
  }

  lemma NewerByPlace(s: seq<Backup>, i: nat, j: nat)
    requires i < |s| && j < |s| && NewestFirst(s) && NoTies(s) && DistinctPks(s) && s[j].kind == s[i].kind
    ensures Newer(s[j], s[i]) <==> j < i
  {
    assert s[i] in s && s[j] in s;
  }

  lemma {:induction false} InsertDistinct(s: seq<Backup>, b: Backup)
    requires DistinctPks(s) && forall x | x in s :: x.pk != b.pk
    ensures DistinctPks(Insert(s, b))
  {
    if s != [] && !Newer(b, s[0]) {
      InsertDistinct(s[1..], b);
      var t := Insert(s[1..], b);
      forall x | x in t ensures x.pk != s[0].pk {
        if x != b {
          var k :| 0 <= k < |s[1..]| && s[1..][k] == x;
          assert s[k + 1] == x;
        }
      }
    }
  }

  lemma {:induction false} SortDistinct(s: seq<Backup>)
    requires DistinctPks(s)
    ensures DistinctPks(Sort(s))
  {
    if s != [] {
      SortDistinct(s[1..]);
      forall x | x in Sort(s[1..]) ensures x.pk != s[0].pk {
        var k :| 0 <= k < |s[1..]| && s[1..][k] == x;
        assert s[k + 1] == x;
      }
      InsertDistinct(Sort(s[1..]), s[0]);
    }
  }

  lemma {:induction false} SelectDistinct(jobs: seq<Backup>, d: Id)
    requires DistinctPks(jobs)
    ensures DistinctPks(Select(jobs, d))
  {
    if jobs != [] {
      SelectDistinct(jobs[1..], d);
      forall x | x in Select(jobs[1..], d) ensures x.pk != jobs[0].pk {
        var k :| 0 <= k < |jobs[1..]| && jobs[1..][k] == x;
        assert jobs[k + 1] == x;
      }
    }
  }

  /** A routine backup is beyond retention exactly when its destination keeps fewer than the newer ones of its kind. */
  lemma BeyondRetentionIff(jobs: seq<Backup>, destinations: Destinations, inUse: set<Id>, d: Id, b: Backup)
    requires DistinctPks(jobs) && b in jobs && IsCandidate(b, d) && NoTies(Select(jobs, d))
    ensures BeyondRetention(jobs, destinations, inUse, b.pk) <==>
            && d in destinations && destinations[d] > 0
            && NewerCount(Select(jobs, d), b) >= destinations[d] && b.pk !in inUse
  {
    var s := Candidates(jobs, d);
    SelectDistinct(jobs, d);
    SortDistinct(Select(jobs, d));
    NewerCountSort(Select(jobs, d), b);
    var i :| 0 <= i < |s| && s[i] == b;
    RankIsNewerCount(s, i, |s|);
    assert s[..|s|] == s;
    forall e | DoomedAtDestination(jobs, destinations, inUse, e, b.pk) ensures e == d {
      var k: nat :| k < |Candidates(jobs, e)| && Candidates(jobs, e)[k].pk == b.pk;
      assert Candidates(jobs, e)[k] in Candidates(jobs, e);
      SamePkSameBackup(jobs, Candidates(jobs, e)[k], b);
    }
    if d in destinations && destinations[d] > 0 {
      if pk: Id :| pk == b.pk && pk in DoomedPks(s, destinations[d], inUse, |s|) {
        var k: nat :| k < |s| && s[k].pk == b.pk && DoomedAt(s, destinations[d], inUse, k);
        assert k == i;
      }
      if NewerCount(Select(jobs, d), b) >= destinations[d] && b.pk !in inUse {
        assert DoomedAt(s, destinations[d], inUse, i);
        assert DoomedAtDestination(jobs, destinations, inUse, d, b.pk);
      }
    }
  }

  // ---- Ties ----

  /** The same backups of a kind that are not older than one, itself aside. */
  function NotOlderCount(s: seq<Backup>, b: Backup): nat {
    if s == [] then 0
    else NotOlderCount(s[1..], b) + if s[0].kind == b.kind && s[0].pk != b.pk && !Newer(b, s[0]) then 1 else 0
  }

  lemma {:induction false} NotOlderInsert(s: seq<Backup>, x: Backup, b: Backup)
    ensures NotOlderCount(Insert(s, x), b) == NotOlderCount(s, b) + if x.kind == b.kind && x.pk != b.pk && !Newer(b, x) then 1 else 0
  {
    if s == [] {
      assert [x][1..] == [];
    } else if Newer(x, s[0]) {
      assert ([x] + s)[1..] == s;
    } else {
      NotOlderInsert(s[1..], x, b);
      assert ([s[0]] + Insert(s[1..], x))[1..] == Insert(s[1..], x);
    }
  }

  lemma {:induction false} NotOlderSort(s: seq<Backup>, b: Backup)
    ensures NotOlderCount(Sort(s), b) == NotOlderCount(s, b)
  {
    if s != [] {
      NotOlderSort(s[1..], b);
      NotOlderInsert(Sort(s[1..]), s[0], b);
    }
  }

  lemma {:induction false} NotOlderSnoc(s: seq<Backup>, x: Backup, b: Backup)
    ensures NotOlderCount(s + [x], b) == NotOlderCount(s, b) + if x.kind == b.kind && x.pk != b.pk && !Newer(b, x) then 1 else 0
  {
    if s == [] {
      assert [] + [x] == [x] && [x][1..] == [];
    } else {
      NotOlderSnoc(s[1..], x, b);
      assert (s + [x])[1..] == s[1..] + [x];
    }
  }

  /** In a newest-first list, the ones of a kind before a backup are at least the newer ones and at most those not older. */
  lemma {:induction false} RankBounds(s: seq<Backup>, i: nat, n: nat)
    requires i < |s| && n <= |s| && NewestFirst(s) && DistinctPks(s)
    ensures
      var rank := if n <= i then KindCount(s[..n], s[i].kind) else KindCount(s[..i], s[i].kind);
      NewerCount(s[..n], s[i]) <= rank <= NotOlderCount(s[..n], s[i])
  {
    if n > 0 {
      RankBounds(s, i, n - 1);
      assert s[..n] == s[..n - 1] + [s[n - 1]] && s[..n][..n - 1] == s[..n - 1];
      NewerCountSnoc(s[..n - 1], s[n - 1], s[i]);
      NotOlderSnoc(s[..n - 1], s[n - 1], s[i]);
    }
  }

  /** Where one backup stands in the newest-first list of its destination. */
  lemma PlaceOf(jobs: seq<Backup>, d: Id, b: Backup) returns (i: nat)
    requires DistinctPks(jobs) && b in jobs && IsCandidate(b, d)
    ensures i < |Candidates(jobs, d)| && Candidates(jobs, d)[i] == b && DistinctPks(Candidates(jobs, d))
    ensures NewerCount(Select(jobs, d), b) <= KindCount(Candidates(jobs, d)[..i], b.kind) <= NotOlderCount(Select(jobs, d), b)
  {
    var s := Candidates(jobs, d);
    SelectDistinct(jobs, d);
    SortDistinct(Select(jobs, d));
    NewerCountSort(Select(jobs, d), b);
    NotOlderSort(Select(jobs, d), b);
    i :| 0 <= i < |s| && s[i] == b;
    RankBounds(s, i, |s|);
    assert s[..|s|] == s;
  }

  /**
   * With ties, whose order is the database's: a backup is beyond retention if as many newer ones of its kind exist as are
   * kept, and only if as many exist that are not older.
   */
  lemma BeyondRetentionBounds(jobs: seq<Backup>, destinations: Destinations, inUse: set<Id>, d: Id, b: Backup)
    requires DistinctPks(jobs) && b in jobs && IsCandidate(b, d)
    ensures d in destinations && destinations[d] > 0 && NewerCount(Select(jobs, d), b) >= destinations[d] && b.pk !in inUse ==>
              BeyondRetention(jobs, destinations, inUse, b.pk)
    ensures BeyondRetention(jobs, destinations, inUse, b.pk) ==>
              && d in destinations && destinations[d] > 0
              && NotOlderCount(Select(jobs, d), b) >= destinations[d] && b.pk !in inUse
  {
    var s := Candidates(jobs, d);
    var i := PlaceOf(jobs, d, b);
    if d in destinations && destinations[d] > 0 && NewerCount(Select(jobs, d), b) >= destinations[d] && b.pk !in inUse {
      assert DoomedAt(s, destinations[d], inUse, i);
      assert DoomedAtDestination(jobs, destinations, inUse, d, b.pk);
    }
    if BeyondRetention(jobs, destinations, inUse, b.pk) {
      var e :| DoomedAtDestination(jobs, destinations, inUse, e, b.pk);
      var k: nat :| k < |Candidates(jobs, e)| && Candidates(jobs, e)[k].pk == b.pk && DoomedAt(Candidates(jobs, e), destinations[e], inUse, k);
      assert Candidates(jobs, e)[k] in Candidates(jobs, e);
      SamePkSameBackup(jobs, Candidates(jobs, e)[k], b);
      assert e == d && k == i;
    }
  }
}
