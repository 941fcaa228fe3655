/** The restore of one community from end to end: verify, plan, back up, replace, restore media. */
module ZevService {
  import opened Outcomes
  import opened Bytes
  import opened Registry
  import opened Tables
  import opened Sections
  import opened Archive
  import opened Build
  import opened Dump
  import opened Verify
  import opened Loader
  import opened InstanceRestore
  import opened InstanceLaws
  import opened Accounts
  import opened Logins
  import opened ZevClear
  import opened ZevRestore
  import opened ZevLaws
  import opened ZevConflicts
  import Media

  datatype ZevError =
    | Damaged(failures: seq<Failure>) | NotInBackup | OtherSchema | Refused(conflicts: seq<Conflict>)
    | NotReplaced(error: RestoreError) | MediaNotRestored

  /** The plan passes: a sound archive of this community, and no conflict that is not overridden. */
  ghost predicate Permitted(reg: Registry, f: Format, a: Archive, t: Rows, z: Pk, job: Option<Pk>, facts: Facts, force: bool) {
    && Passes(reg, f, a) && z in a.manifest.zevs
    && FactsOf(RestRows(reg, f, a, z, Same), facts)
    && NoConflict(t, z, job, facts, false) && (force || NoConflict(t, z, job, facts, true))
  }

  method Plan(reg: Registry, f: Format, a: Archive, t: Rows, z: Pk, job: Option<Pk>, schemaMatches: bool, login: bool, force: bool)
    returns (error: Option<ZevError>, facts: Facts)
    ensures error.None? <==> schemaMatches && !login && Permitted(reg, f, a, t, z, job, facts, force)
    ensures error.Some? ==> !error.value.MediaNotRestored?
  {
    error, facts := None, Facts(map[], {}, {}, {}, {});
    var verified := VerifyOpenArchive(reg, f, a);
    if verified.Err? {
      error := Some(Damaged(verified.error));
    } else if z !in a.manifest.zevs {
      error := Some(NotInBackup);
    } else if !schemaMatches {
      error := Some(OtherSchema);
    } else {
      facts := ReadFacts(RestRows(reg, f, a, z, Same));
      var conflicts, blocked := Evaluate(t, z, job, facts, force, login);
      if blocked {
        error := Some(Refused(conflicts));
      }
    }
  }

  /** The community as it is now, if it exists. */
  ghost predicate IsSafety(reg: Registry, f: Format, t: Rows, files: Build.Storage, z: Pk, safety: Option<Archive>) {
    && (safety.Some? <==> Key(Zev, z) in t)
    && (safety.Some? ==> Built(reg, f, t, files, safety.value) && safety.value.manifest.zevs == [z])
  }

  method TakeSafetyBackup(reg: Registry, f: Format, t: Rows, files: Build.Storage, z: Pk) returns (safety: Option<Archive>)
    requires WellFormed(reg) && Faithful(f) && Keyed(t)
    ensures IsSafety(reg, f, t, files, z, safety)
  {
    safety := None;
    if Key(Zev, z) in t {
      var built := BuildArchive(reg, f, t, files, ZevScope, Some(z));
      safety := Some(built.value);
    }
  }

  /** The rows replaced, from an archive that passed; else nothing changed. */
  method ReplaceRows(
      db: Database, site: Site, f: Format, a: Archive, z: Pk, fold: string -> string, admissible: Rows -> bool)
    returns (r: Result<map<Model, nat>, ZevError>, mapping: map<Pk, Option<Pk>>, ghost w: Rows, us: seq<Pk>, referenced: set<string>)
    requires Sound(site) && Keyed(db.rows) && Passes(site.reg, f, a) && z in a.manifest.zevs
    modifies db
    ensures RowsAfter(site, f, a, old(db.rows), z, fold, admissible, r, mapping, w, us, referenced, db.rows)
    ensures r.Err? ==> !r.error.MediaNotRestored?
  {
    SectionsAreThere(site.reg, f, a, z);
    var loaded;
    loaded, referenced, mapping, w, us := RestoreZevRows(db, site, f, a, z, fold, admissible);
    r := if loaded.Ok? then Ok(loaded.value) else Err(NotReplaced(loaded.error));
  }

  /** The community's media in archive order, and where a failing media step stopped. */
  datatype MediaStep = MediaStep(items: seq<Media.Item>, at: nat, point: Media.Point)

  /** The media step of a community went through, or was undone as far as the undo log goes. */
  ghost predicate MediaDone(
      f: Format, a: Archive, z: Pk, referenced: set<string>, before: map<string, Bytes>, ok: bool, step: MediaStep,
      after: map<string, Bytes>)
  {
    && step.items == MediaOf(f, a, z)
    && (ok ==> MediaRestored(before, step.items, referenced, after))
    && (!ok ==> step.at <= |step.items| &&
                (after == before <==> UndoneExactly(before, step.items, referenced, step.at, step.point)))
  }

  method RestoreZevMedia(storage: Media.Storage, f: Format, a: Archive, z: Pk, referenced: set<string>)
    returns (ok: bool, ghost step: MediaStep)
    modifies storage
    ensures MediaDone(f, a, z, referenced, old(storage.files), ok, step, storage.files)
  {
    var items := ListMediaOf(f, a, z);
    ghost var at, point;
    ok, at, point := RestoreFiles(storage, items, referenced);
    step := MediaStep(items, at, point);
  }

  /** What became of the files: nothing without a media step. */
  ghost predicate FilesAfter(
      f: Format, a: Archive, z: Pk, referenced: set<string>, before: map<string, Bytes>,
      r: Result<map<Model, nat>, ZevError>, step: MediaStep, after: map<string, Bytes>)
  {
    if r.Err? && !r.error.MediaNotRestored? then after == before
    else MediaDone(f, a, z, referenced, before, r.Ok?, step, after)
  }

  /** The media step after the rows were replaced; if it fails, the rows are put back. */
  method FinishOrRollBack(
      db: Database, storage: Media.Storage, f: Format, a: Archive, z: Pk, referenced: set<string>, before: Rows, counts: map<Model, nat>)
    returns (r: Result<map<Model, nat>, ZevError>, ghost step: MediaStep)
    modifies db, storage
    ensures r.Ok? ==> r.value == counts && db.rows == old(db.rows)
    ensures r.Err? ==> r.error == MediaNotRestored && db.rows == before
    ensures FilesAfter(f, a, z, referenced, old(storage.files), r, step, storage.files)
  {
    var ok;
    ok, step := RestoreZevMedia(storage, f, a, z, referenced);
    r := if ok then Ok(counts) else Err(MediaNotRestored);
    if !ok {
      db.rows := before;
    }
  }

  /** What became of the rows: the community replaced from the archive, or nothing. */
  ghost predicate RowsAfter(
      site: Site, f: Format, a: Archive, t: Rows, z: Pk, fold: string -> string, admissible: Rows -> bool,
      r: Result<map<Model, nat>, ZevError>, mapping: map<Pk, Option<Pk>>, w: Rows, us: seq<Pk>, referenced: set<string>, v: Rows)
  {
    && (r.Err? ==> v == t)
    && (r.Ok? ==> Committed(site, f, a, t, z, fold, admissible, mapping, w, us, r.value, v))
    && (r.Ok? ==> referenced == MediaNames(RestRows(site.reg, f, a, z, Relink(mapping))))
  }

  /** Replace the rows and restore the media, or change no row. */
  method Commit(
      db: Database, storage: Media.Storage, site: Site, f: Format, a: Archive, z: Pk, fold: string -> string,
      admissible: Rows -> bool)
    returns (
      r: Result<map<Model, nat>, ZevError>, mapping: map<Pk, Option<Pk>>, ghost w: Rows, us: seq<Pk>, referenced: set<string>,
      ghost step: MediaStep)
    requires Sound(site) && Keyed(db.rows) && Passes(site.reg, f, a) && z in a.manifest.zevs
    modifies db, storage
    ensures RowsAfter(site, f, a, old(db.rows), z, fold, admissible, r, mapping, w, us, referenced, db.rows)
    ensures FilesAfter(f, a, z, referenced, old(storage.files), r, step, storage.files)
  {
    step := MediaStep([], 0, Media.BeforeExists);
    var before := db.rows;
    r, mapping, w, us, referenced := ReplaceRows(db, site, f, a, z, fold, admissible);
    if r.Err? {
      FilesUntouched(f, a, z, referenced, storage.files, r, step);
      return;
    }
    r, step := FinishRestore(db, storage, site, f, a, z, fold, admissible, mapping, w, us, referenced, before, r.value);
  }

  /** The media step of a restore whose rows were replaced. */
  method FinishRestore(
      db: Database, storage: Media.Storage, ghost site: Site, f: Format, a: Archive, z: Pk, ghost fold: string -> string,
      ghost admissible: Rows -> bool, ghost mapping: map<Pk, Option<Pk>>, ghost w: Rows, ghost us: seq<Pk>, referenced: set<string>,
      before: Rows, counts: map<Model, nat>)
    returns (r: Result<map<Model, nat>, ZevError>, ghost step: MediaStep)
    requires RowsAfter(site, f, a, before, z, fold, admissible, Ok(counts), mapping, w, us, referenced, db.rows)
    modifies db, storage
    ensures RowsAfter(site, f, a, before, z, fold, admissible, r, mapping, w, us, referenced, db.rows)
    ensures FilesAfter(f, a, z, referenced, old(storage.files), r, step, storage.files)
  {
    r, step := FinishOrRollBack(db, storage, f, a, z, referenced, before, counts);
    RowsFinished(site, f, a, before, z, fold, admissible, Ok(counts), mapping, w, us, referenced, old(db.rows), r, db.rows);
  }

  lemma FilesUntouched(
      f: Format, a: Archive, z: Pk, referenced: set<string>, files: map<string, Bytes>, r: Result<map<Model, nat>, ZevError>,
      step: MediaStep)
    requires r.Err? && !r.error.MediaNotRestored?
    ensures FilesAfter(f, a, z, referenced, files, r, step, files)
  {
  }

  lemma RowsFinished(
      site: Site, f: Format, a: Archive, t: Rows, z: Pk, fold: string -> string, admissible: Rows -> bool,
      r: Result<map<Model, nat>, ZevError>, mapping: map<Pk, Option<Pk>>, w: Rows, us: seq<Pk>, referenced: set<string>, v: Rows,
      r': Result<map<Model, nat>, ZevError>, v': Rows)
    requires RowsAfter(site, f, a, t, z, fold, admissible, r, mapping, w, us, referenced, v) && r.Ok?
    requires if r'.Ok? then r' == r && v' == v else v' == t
    ensures RowsAfter(site, f, a, t, z, fold, admissible, r', mapping, w, us, referenced, v')
  {
  }

  /**
   * Restore a community. The safety backup is taken after the plan passes and before the first write, and only of a
   * community that exists. Whatever fails, the database is as it was.
   */
  method RestoreZev(
      db: Database, storage: Media.Storage, site: Site, f: Format, a: Archive, z: Pk, fold: string -> string,
      admissible: Rows -> bool, job: Option<Pk>, schemaMatches: bool, login: bool, force: bool)
    returns (
      r: Result<map<Model, nat>, ZevError>, safety: Option<Archive>, facts: Facts, mapping: map<Pk, Option<Pk>>, ghost w: Rows,
      us: seq<Pk>, referenced: set<string>, ghost step: MediaStep)
    requires Sound(site) && Faithful(f) && Keyed(db.rows)
    modifies db, storage
    ensures r.Ok? ==> schemaMatches && !login && Permitted(site.reg, f, a, old(db.rows), z, job, facts, force)
    ensures r.Ok? ==> IsSafety(site.reg, f, old(db.rows), old(storage.files), z, safety)
    ensures RowsAfter(site, f, a, old(db.rows), z, fold, admissible, r, mapping, w, us, referenced, db.rows)
    ensures FilesAfter(f, a, z, referenced, old(storage.files), r, step, storage.files)
  {
    safety, mapping, w, us, referenced := None, map[], db.rows, [], {};
    step := MediaStep([], 0, Media.BeforeExists);
    var refusal;
    refusal, facts := Plan(site.reg, f, a, db.rows, z, job, schemaMatches, login, force);
    if refusal.Some? {
      r := Err(refusal.value);
      return;
    }
    safety := TakeSafetyBackup(site.reg, f, db.rows, storage.files, z);
    r, mapping, w, us, referenced, step := Commit(db, storage, site, f, a, z, fold, admissible);
  }

  /** An archive that passes and names the community has all its sections and its account list. */
  lemma SectionsAreThere(reg: Registry, f: Format, a: Archive, z: Pk)
    requires WellFormed(reg) && Passes(reg, f, a) && z in a.manifest.zevs
    ensures forall s | s in AllRest(reg, z) :: InRange(reg, s) && SectionFile(s) in a.manifest.members
    ensures AccountRefs(z) in a.files
  {
    RestPlanLists(reg, z, |reg.zev|);
    forall s | s in AllRest(reg, z) ensures InRange(reg, s) && SectionFile(s) in a.manifest.members {
      assert Expected(reg, a.manifest, SectionFile(s));
    }
    assert Expected(reg, a.manifest, AccountRefs(z));
    assert Intact(f, a, AccountRefs(z));
  }
}
