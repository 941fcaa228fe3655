/** The whole-instance restore as one transaction, and what restoring a backup gives. */
module InstanceLaws {
  import opened Outcomes
  import opened Bytes
  import opened Lines
  import opened Registry
  import opened Tables
  import opened References
  import opened ForeignKeys
  import opened Sections
  import opened Archive
  import opened Dump
  import opened Build
  import opened Verify
  import opened Loader
  import opened InstanceRestore
  import Media
  import Names

  // ---- The count check ----

  ghost predicate CountsAgree(reg: Registry, t: Rows, counts: map<Model, nat>) {
    forall m | m in ClearOrder(reg) :: Count(t, m) == Get(counts, m)
  }

  method VerifyDatabaseCounts(db: Database, reg: Registry, counts: map<Model, nat>) returns (ok: bool)
    ensures ok <==> CountsAgree(reg, db.rows, counts)
  {
    var order := ClearOrder(reg);
    for i := 0 to |order|
      invariant forall j | 0 <= j < i :: Count(db.rows, order[j]) == Get(counts, order[j])
    {
      if Count(db.rows, order[i]) != Get(counts, order[i]) {
        return false;
      }
    }
    ok := true;
  }

  lemma NothingBackedUpLeft(reg: Registry, s: Schema, t: Rows, k: Key)
    requires k in Cleared(reg, s, t)
    ensures k in t && k.model !in FullOrder(reg) && k !in Lost(s, t, ClearTargets(reg, t))
  {
    LostWithin(s, t, ClearTargets(reg, t));
  }

  /** After clearing and loading, every table holds exactly what was loaded into it: the check cannot fail. */
  lemma CountsMustAgree(reg: Registry, s: Schema, t: Rows, loaded: seq<Row>, now: Rows, counts: map<Model, nat>)
    requires InsertAll(Cleared(reg, s, t), loaded) == Some(now) && forall m :: Get(counts, m) == Get(Tally(loaded), m)
    ensures CountsAgree(reg, now, counts)
  {
    forall m | m in ClearOrder(reg) ensures Count(now, m) == Get(counts, m) {
      CountAfter(Cleared(reg, s, t), loaded, m);
      forall k | k in Cleared(reg, s, t) ensures k.model != m {
        NothingBackedUpLeft(reg, s, t, k);
      }
      assert OfModel(Cleared(reg, s, t).Keys, m) == {};
    }
  }

  // ---- One transaction ----

  /** What loading the archive over a database gives, if it can be loaded. */
  function Outcome(reg: Registry, s: Schema, f: Format, a: Archive, t: Rows): Option<Rows> {
    InsertAll(Cleared(reg, s, t), Stream(LoadPlan(reg, a.manifest.zevs), Reader(f, a.files, Same)))
  }

  ghost predicate Restorable(reg: Registry, s: Schema, f: Format, a: Archive, t: Rows, consistent: Rows -> bool) {
    && ClearAllowed(reg, s, t)
    && AllAcceptable(reg, f, a, LoadPlan(reg, a.manifest.zevs))
    && Outcome(reg, s, f, a, t).Some? && consistent(Outcome(reg, s, f, a, t).value)
  }

  /** Clear, load, check counts and constraints; on any failure the transaction is rolled back. */
  method RestoreDatabase(db: Database, reg: Registry, s: Schema, f: Format, a: Archive, consistent: Rows -> bool)
    returns (r: Result<map<Model, nat>, RestoreError>, referenced: set<string>)
    requires Coherent(s)
    requires forall x | x in LoadPlan(reg, a.manifest.zevs) :: InRange(reg, x) && SectionFile(x) in a.manifest.members
    modifies db
    ensures r.Ok? <==> Restorable(reg, s, f, a, old(db.rows), consistent)
    ensures r.Ok? ==> Some(db.rows) == Outcome(reg, s, f, a, old(db.rows))
    ensures r.Ok? ==> referenced == MediaNames(Stream(LoadPlan(reg, a.manifest.zevs), Reader(f, a.files, Same)))
    ensures r.Err? ==> db.rows == old(db.rows)
  {
    var before := db.rows;
    var cleared := Clear(db, reg, s);
    if !cleared {
      db.rows := before;
      return Err(Rejected), {};
    }
    r, referenced := LoadAll(db, reg, f, a, LoadPlan(reg, a.manifest.zevs), true, Same);
    if r.Ok? {
      CountsMustAgree(reg, s, before, Stream(LoadPlan(reg, a.manifest.zevs), Reader(f, a.files, Same)), db.rows, r.value);
      var agree := VerifyDatabaseCounts(db, reg, r.value);
      if !agree {
        r := Err(CountMismatch);
      } else if !consistent(db.rows) {
        r := Err(Rejected);
      }
    }
    if r.Err? {
      db.rows := before;
    }
  }

  // ---- What a restored backup is ----

  ghost predicate SameTables(reg: Registry, t: Rows, v: Rows) {
    forall k: Key | BackedUp(reg, k.model) :: (k in v <==> k in t) && (k in t ==> v[k] == t[k])
  }

  /** Every backed-up row has a home in the backup. */
  ghost predicate Closed(reg: Registry, t: Rows, zevs: seq<Pk>) {
    forall k | k in t && BackedUp(reg, k.model) :: HasHome(reg, t, zevs, t[k])
  }

  /** What an instance restore loses: the cleared rows and whatever cascades to them. */
  function LostByClearing(reg: Registry, s: Schema, now: Rows): set<Key> {
    Lost(s, now, ClearTargets(reg, now))
  }

  /** Tables that are not backed up keep exactly the rows that do not cascade to a cleared one, references to those emptied. */
  ghost predicate OthersAsDeleted(reg: Registry, s: Schema, now: Rows, v: Rows) {
    forall k: Key | !BackedUp(reg, k.model) ::
      && (k in v <==> k in now && k !in LostByClearing(reg, s, now))
      && (k in v ==> v[k] == s.nulled(now[k], LostByClearing(reg, s, now)))
  }

  lemma HomedIsBackedUp(reg: Registry, t: Rows, zevs: seq<Pk>, r: Row)
    requires WellFormed(reg) && HasHome(reg, t, zevs, r)
    ensures BackedUp(reg, r.model)
  {
  }

  /** The rows with a home load into cleared tables, whatever the tables held, and nothing else is there afterwards. */
  lemma StreamLoads(reg: Registry, s: Schema, t: Rows, zevs: seq<Pk>, content: Section -> seq<Row>, now: Rows)
    requires WellFormed(reg) && Keyed(t) && Distinct(zevs)
    requires forall x | InPlan(reg, zevs, x) :: Lists(content(x), SectionRows(reg, t, x))
    ensures
      var out := InsertAll(Cleared(reg, s, now), Stream(LoadPlan(reg, zevs), content));
      out.Some? && Extends(Cleared(reg, s, now), Stream(LoadPlan(reg, zevs), content), out.value)
  {
    var stream := Stream(LoadPlan(reg, zevs), content);
    StreamIsHomedRows(reg, t, zevs, content);
    ClearOrderLists(reg);
    InsertAllIff(Cleared(reg, s, now), stream);
    forall i, j | 0 <= i < j < |stream| ensures KeyOf(stream[i]) != KeyOf(stream[j]) {
      assert stream[i] in stream && stream[j] in stream;
      assert t[KeyOf(stream[i])] == stream[i] && t[KeyOf(stream[j])] == stream[j];
    }
    forall r | r in stream ensures KeyOf(r) !in Cleared(reg, s, now) {
      HomedIsBackedUp(reg, t, zevs, r);
      if KeyOf(r) in Cleared(reg, s, now) { NothingBackedUpLeft(reg, s, now, KeyOf(r)); }
    }
  }

  lemma StreamGives(reg: Registry, s: Schema, t: Rows, zevs: seq<Pk>, content: Section -> seq<Row>, now: Rows, v: Rows)
    requires WellFormed(reg) && Keyed(t) && Distinct(zevs)
    requires forall x | InPlan(reg, zevs, x) :: Lists(content(x), SectionRows(reg, t, x))
    requires Extends(Cleared(reg, s, now), Stream(LoadPlan(reg, zevs), content), v)
    ensures OthersAsDeleted(reg, s, now, v)
    ensures forall k: Key | BackedUp(reg, k.model) ::
              (k in v <==> k in t && HasHome(reg, t, zevs, t[k])) && (k in v ==> v[k] == t[k])
  {
    var stream := Stream(LoadPlan(reg, zevs), content);
    StreamIsHomedRows(reg, t, zevs, content);
    ClearOrderLists(reg);
    LostWithin(s, now, ClearTargets(reg, now));
    forall k: Key | BackedUp(reg, k.model)
      ensures (k in v <==> k in t && HasHome(reg, t, zevs, t[k])) && (k in v ==> v[k] == t[k])
    {
      if k in v {
        assert k !in Cleared(reg, s, now);
        assert v[k] in stream && KeyOf(v[k]) == k;
        assert t[KeyOf(v[k])] == v[k];
      }
      if k in t && HasHome(reg, t, zevs, t[k]) {
        assert t[k] in t.Values;
        assert t[k] in stream;
      }
    }
    forall k: Key | !BackedUp(reg, k.model)
      ensures k in v <==> k in now && k !in LostByClearing(reg, s, now)
      ensures k in v ==> v[k] == s.nulled(now[k], LostByClearing(reg, s, now))
    {
      OtherRowsWereThere(reg, s, t, zevs, content, now, v, k);
    }
  }

  lemma OtherRowsWereThere(
      reg: Registry, s: Schema, t: Rows, zevs: seq<Pk>, content: Section -> seq<Row>, now: Rows, v: Rows, k: Key)
    requires WellFormed(reg) && Keyed(t) && !BackedUp(reg, k.model)
    requires forall r :: r in Stream(LoadPlan(reg, zevs), content) <==> r in t.Values && HasHome(reg, t, zevs, r)
    requires Extends(Cleared(reg, s, now), Stream(LoadPlan(reg, zevs), content), v)
    ensures k in v ==> k in Cleared(reg, s, now)
  {
    if k in v && k !in Cleared(reg, s, now) {
      HomedIsBackedUp(reg, t, zevs, v[k]);
    }
  }

  lemma WrittenIsAcceptable(
      reg: Registry, f: Format, t: Rows, a: Archive, s: Section)
    requires Written(reg, f, t, a.files, a.manifest.members, a.manifest.counts, s)
    ensures SectionAcceptable(reg, f, a, s)
  {
    var rows := Content(f, a.files, s);
    var records := Records(f.rows, SectionBytes(a.files, s));
    assert records == Somes(rows);
    forall i | 0 <= i < |records| ensures records[i].Some? && records[i].value.model in Models(reg, s) {
      assert rows[i] in rows;
      assert rows[i] in SectionRows(reg, t, s);
    }
  }

  // ---- Foreign keys afterwards ----

  lemma OnlyExportsInsist(reg: Registry, m: Model, target: Model)
    requires !BackedUp(reg, m) && GuardFits(reg, m, target)
    ensures m == ExportJob
  {
  }

  /** Whatever insists on its target is cleared with it. */
  lemma GuardsAreCleared(reg: Registry, s: Schema, now: Rows, k: Key)
    requires WellFormed(reg) && Fits(reg, s) && Keyed(now) && k in now && !BackedUp(reg, k.model) && k !in LostByClearing(reg, s, now)
    ensures s.guard(now[k]) == {}
  {
    LostWithin(s, now, ClearTargets(reg, now));
    assert k.model != ExportJob;
    assert FitsAt(reg, s, now[k]);
    forall l ensures l !in s.guard(now[k]) {
      if GuardFits(reg, k.model, l.model) { OnlyExportsInsist(reg, k.model, l.model); }
    }
  }

  lemma BackedUpIsLost(reg: Registry, s: Schema, now: Rows, l: Key)
    requires WellFormed(reg) && BackedUp(reg, l.model) && l in now
    ensures l in LostByClearing(reg, s, now)
  {
    ClearOrderLists(reg);
    LostWithin(s, now, ClearTargets(reg, now));
    assert l in ClearTargets(reg, now);
  }

  lemma OtherRowRefers(reg: Registry, s: Schema, now: Rows, v: Rows, k: Key)
    requires WellFormed(reg) && Fits(reg, s) && Keyed(now) && Whole(s, now) && OthersAsDeleted(reg, s, now, v)
    requires k in v && !BackedUp(reg, k.model)
    ensures Refs(s, v[k]) <= v.Keys
  {
    var lost := LostByClearing(reg, s, now);
    GuardsAreCleared(reg, s, now, k);
    LostWithin(s, now, ClearTargets(reg, now));
    NulledRefs(s, now[k], now.Keys, lost);
    forall l | l in now && l !in lost ensures l in v {
      if BackedUp(reg, l.model) { BackedUpIsLost(reg, s, now, l); }
    }
  }

  /** A backup of tables whose foreign keys hold gives tables whose foreign keys hold. */
  lemma RestoredIsWhole(reg: Registry, s: Schema, t: Rows, now: Rows, v: Rows)
    requires WellFormed(reg) && Fits(reg, s) && Keyed(t) && Keyed(now) && Whole(s, t) && Whole(s, now)
    requires SameTables(reg, t, v) && OthersAsDeleted(reg, s, now, v)
    ensures Whole(s, v)
  {
    forall k | k in v ensures Refs(s, v[k]) <= v.Keys {
      if BackedUp(reg, k.model) {
        assert FitsAt(reg, s, t[k]);
        forall l | l in Refs(s, t[k]) ensures l in v {
          assert RefFits(reg, k.model, l.model);
        }
      } else {
        OtherRowRefers(reg, s, now, v, k);
      }
    }
  }

  /**
   * Restoring an instance backup into any database is accepted and reproduces every backed-up table exactly, original keys
   * included, if and only if every backed-up row had a home when the backup was taken. Every other table keeps exactly the
   * rows that do not cascade to a cleared one.
   */
  lemma BackupRestoresExactly(reg: Registry, s: Schema, f: Format, t: Rows, storage: Storage, a: Archive, now: Rows)
    requires WellFormed(reg) && Fits(reg, s) && !BackedUp(reg, ExportJob) && Keyed(t) && Keyed(now)
    requires Built(reg, f, t, storage, a) && a.manifest.scope.InstanceScope?
    ensures ClearAllowed(reg, s, now)
    ensures AllAcceptable(reg, f, a, LoadPlan(reg, a.manifest.zevs))
    ensures Outcome(reg, s, f, a, now).Some?
    ensures OthersAsDeleted(reg, s, now, Outcome(reg, s, f, a, now).value)
    ensures SameTables(reg, t, Outcome(reg, s, f, a, now).value) <==> Closed(reg, t, a.manifest.zevs)
  {
    var zevs, content := a.manifest.zevs, Reader(f, a.files, Same);
    ClearIsNeverRefused(reg, s, now);
    PlanLists(reg, zevs);
    forall x | InPlan(reg, zevs, x)
      ensures SectionAcceptable(reg, f, a, x) && Lists(content(x), SectionRows(reg, t, x))
    {
      PlannedIsWritten(reg, f, t, storage, a, x);
      WrittenIsAcceptable(reg, f, t, a, x);
      MappedSame(Content(f, a.files, x));
    }
    StreamLoads(reg, s, t, zevs, content, now);
    StreamGives(reg, s, t, zevs, content, now, Outcome(reg, s, f, a, now).value);
  }

  /** And the check of the foreign keys at the end passes, if they held when the backup was taken and hold now. */
  lemma BackupRestoresWhole(reg: Registry, s: Schema, f: Format, t: Rows, storage: Storage, a: Archive, now: Rows)
    requires WellFormed(reg) && Fits(reg, s) && !BackedUp(reg, ExportJob) && Keyed(t) && Keyed(now)
    requires Built(reg, f, t, storage, a) && a.manifest.scope.InstanceScope? && Closed(reg, t, a.manifest.zevs)
    requires Whole(s, t) && Whole(s, now)
    ensures Outcome(reg, s, f, a, now).Some? && Whole(s, Outcome(reg, s, f, a, now).value)
  {
    BackupRestoresExactly(reg, s, f, t, storage, a, now);
    RestoredIsWhole(reg, s, t, now, Outcome(reg, s, f, a, now).value);
  }

  /** A row of another table is as it was exactly when no chain of cascades leads it to a cleared row and it names none. */
  lemma OtherRowUnchangedIff(reg: Registry, s: Schema, now: Rows, v: Rows, k: Key)
    requires Coherent(s) && OthersAsDeleted(reg, s, now, v) && !BackedUp(reg, k.model) && k in now
    ensures (k in v && v[k] == now[k]) <==>
            && !Leads(s, now, ClearTargets(reg, now) * now.Keys, k)
            && s.setNull(now[k]) !! LostByClearing(reg, s, now)
  {
    CollectIff(s, now, ClearTargets(reg, now) * now.Keys, k);
    assert CoherentAt(s, now[k], LostByClearing(reg, s, now));
  }

  /** For one: an instance restore loses every notification, whose recipient is an account. */
  lemma NotificationsAreLost(now: Rows, v: Rows, k: Key)
    requires OthersAsDeleted(REGISTRY, SCHEMA, now, v) && k in now && Keyed(now) && k.model == Notification
    requires |now[k].users| > 0 && now[k].users[0].Some? && Key(User, now[k].users[0].value) in now
    ensures k !in v
  {
    var user := Key(User, now[k].users[0].value);
    StaysIff(User);
    StaysIff(Notification);
    RegistryIsWellFormed();
    ClearOrderLists(REGISTRY);
    LostWithin(SCHEMA, now, ClearTargets(REGISTRY, now));
    assert user in ClearTargets(REGISTRY, now);
    assert UserColumns(Notification)(0) == Cascade;
    assert user in UserRefs(UserColumns(now[k].model), now[k].users, Cascade);
    assert user in SCHEMA.cascade(now[k]);
  }

  // ---- The whole restore ----

  datatype InstanceError =
    | NotVerified(failures: seq<Failure>) | NotAnInstanceBackup | SchemaDiffers | HasData | NotLoaded(error: RestoreError) | MediaFailed

  function MediaPathsOf(a: Archive, z: Pk): set<string> {
    set n | n in a.files.Keys && n.MediaFile? && n.zev == z :: n.path
  }

  lemma MediaPathsIff(a: Archive, z: Pk, p: string)
    ensures p in MediaPathsOf(a, z) <==> MediaFile(z, p) in a.files
  {
    if MediaFile(z, p) in a.files {
      assert MediaFile(z, p) in a.files.Keys && MediaFile(z, p).path == p;
    }
  }

  /** The media members at the given paths, in that order. */
  function ItemsAt(f: Format, a: Archive, z: Pk, paths: seq<string>): (items: seq<Media.Item>)
    requires forall p | p in paths :: MediaFile(z, p) in a.files
    ensures |items| == |paths|
    ensures forall i | 0 <= i < |paths| :: items[i] == Media.Item(f.safe(paths[i]), a.files[MediaFile(z, paths[i])], true)
  {
    if paths == [] then []
    else
      var n := |paths| - 1;
      assert paths[n] in paths;
      ItemsAt(f, a, z, paths[..n]) + [Media.Item(f.safe(paths[n]), a.files[MediaFile(z, paths[n])], true)]
  }

  /** The media members of a community, by ascending path. */
  ghost function MediaOf(f: Format, a: Archive, z: Pk): seq<Media.Item> {
    var paths := Names.Sorted(MediaPathsOf(a, z));
    assert forall p | p in paths :: MediaFile(z, p) in a.files by {
      forall p | p in paths ensures MediaFile(z, p) in a.files { MediaPathsIff(a, z, p); }
    }
    ItemsAt(f, a, z, paths)
  }

  /** The media members of a list of communities, community by community. */
  ghost function AllMedia(f: Format, a: Archive, zevs: seq<Pk>): seq<Media.Item> {
    if zevs == [] then [] else AllMedia(f, a, zevs[..|zevs| - 1]) + MediaOf(f, a, zevs[|zevs| - 1])
  }

  /** The media members of every community in the manifest, community by community. */
  method ListMedia(f: Format, a: Archive) returns (items: seq<Media.Item>)
    ensures items == AllMedia(f, a, a.manifest.zevs)
  {
    var zevs := a.manifest.zevs;
    assert zevs[..|zevs|] == zevs;
    items := [];
    for i := 0 to |zevs|
      invariant items == AllMedia(f, a, zevs[..i])
    {
      assert zevs[..i + 1][..i] == zevs[..i];
      var one := ListMediaOf(f, a, zevs[i]);
      items := items + one;
    }
  }

  method ListMediaOf(f: Format, a: Archive, z: Pk) returns (items: seq<Media.Item>)
    ensures items == MediaOf(f, a, z)
  {
    var paths := Names.Sort(MediaPathsOf(a, z));
    forall p | p in paths ensures MediaFile(z, p) in a.files {
      MediaPathsIff(a, z, p);
    }
    items := ItemsAt(f, a, z, paths);
  }

  /**
   * Verify, check, load and restore media. Whatever fails, the database is as it was; storage is too, exactly when the
   * undo log could be exact at the point of the failure.
   */
  method RestoreInstance(
      db: Database, storage: Media.Storage, reg: Registry, s: Schema, f: Format, a: Archive, consistent: Rows -> bool,
      schemaMatches: bool, empty: bool, force: bool, dryRun: bool)
    returns (
      r: Result<map<Model, nat>, InstanceError>, ghost items: seq<Media.Item>, ghost referenced: set<string>, ghost at: nat,
      ghost point: Media.Point)
    requires Coherent(s)
    modifies db, storage
    ensures r.Err? || dryRun ==> db.rows == old(db.rows)
    ensures r.Ok? ==> Passes(reg, f, a) && a.manifest.scope.InstanceScope? && schemaMatches && (empty || force)
    ensures r.Ok? && !dryRun ==> Some(db.rows) == Outcome(reg, s, f, a, old(db.rows)) && consistent(db.rows)
    ensures r.Ok? && !dryRun ==> referenced == MediaNames(Stream(LoadPlan(reg, a.manifest.zevs), Reader(f, a.files, Same)))
    ensures r.Ok? && !dryRun ==> items == AllMedia(f, a, a.manifest.zevs)
    ensures r.Ok? && !dryRun ==> MediaRestored(old(storage.files), items, referenced, storage.files)
    ensures dryRun || (r.Err? && !r.error.MediaFailed?) ==> storage.files == old(storage.files)
    ensures r.Err? && r.error.MediaFailed? ==>
              at <= |items| && (storage.files == old(storage.files) <==> UndoneExactly(old(storage.files), items, referenced, at, point))
  {
    items, referenced, at, point := [], {}, 0, Media.BeforeExists;
    var before := db.rows;
    var verified := VerifyOpenArchive(reg, f, a);
    if verified.Err? {
      r := Err(NotVerified(verified.error));
      return;
    }
    if !a.manifest.scope.InstanceScope? {
      r := Err(NotAnInstanceBackup);
      return;
    }
    if !schemaMatches {
      r := Err(SchemaDiffers);
      return;
    }
    if !empty && !force {
      r := Err(HasData);
      return;
    }
    PlanLists(reg, a.manifest.zevs);
    assert forall x | x in LoadPlan(reg, a.manifest.zevs) :: Expected(reg, a.manifest, SectionFile(x));
    var loaded, names;
    if dryRun {
      loaded, names := LoadAll(db, reg, f, a, LoadPlan(reg, a.manifest.zevs), false, Same);
      r := if loaded.Ok? then Ok(loaded.value) else Err(NotLoaded(loaded.error));
      return;
    }
    loaded, names := RestoreDatabase(db, reg, s, f, a, consistent);
    if loaded.Err? {
      r := Err(NotLoaded(loaded.error));
      return;
    }
    referenced := names;
    var list := ListMedia(f, a);
    items := list;
    var ok;
    ok, at, point := RestoreFiles(storage, list, names);
    if !ok {
      db.rows := before;
      r := Err(MediaFailed);
      return;
    }
    r := Ok(loaded.value);
  }

  /** Each referenced name holds the bytes of the last member written under it, every other name what it held. */
  ghost predicate MediaRestored(before: map<string, Bytes>, items: seq<Media.Item>, referenced: set<string>, after: map<string, Bytes>) {
    forall name :: Media.At(after, name) == Media.Found(Media.State(before, [], map[]), items, referenced, |items|, name)
  }

  ghost predicate UndoneExactly(before: map<string, Bytes>, items: seq<Media.Item>, referenced: set<string>, at: nat, point: Media.Point)
    requires at <= |items|
  {
    Media.UndoExact(Media.State(before, [], map[]), items, referenced, at, point)
  }

  /**
   * The media step with its undo log. After the last file the sequences are reconciled and the transaction commits; a
   * failure there, at |items|, rolls back as well.
   */
  method RestoreFiles(storage: Media.Storage, items: seq<Media.Item>, referenced: set<string>)
    returns (ok: bool, ghost at: nat, ghost point: Media.Point)
    modifies storage
    ensures ok ==> MediaRestored(old(storage.files), items, referenced, storage.files)
    ensures !ok ==> at <= |items| &&
                    (storage.files == old(storage.files) <==> UndoneExactly(old(storage.files), items, referenced, at, point))
  {
    var undo := new Media.MediaUndo();
    ghost var s := Media.View(storage, undo);
    var skipped;
    ok, skipped, at, point := Media.RestoreMedia(storage, undo, items, referenced);
    if ok {
      if * {
        ok, at, point := false, |items|, Media.BeforeExists;
      }
    }
    if ok {
      forall name ensures Media.At(storage.files, name) == Media.Found(s, items, referenced, |items|, name) {
        Media.RestoredFiles(s, items, referenced, name);
      }
    } else {
      Media.RollbackRestores(s, items, referenced, at, point);
      undo.Rollback(storage);
    }
  }
}
