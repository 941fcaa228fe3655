/** What the restore of one community does to the files of the others. */
module ZevFiles {
  import opened Outcomes
  import opened Bytes
  import opened Registry
  import opened Tables
  import opened References
  import opened Sections
  import opened Archive
  import opened Dump
  import opened Build
  import opened Loader
  import opened InstanceRestore
  import opened InstanceLaws
  import opened Accounts
  import opened Logins
  import opened ZevClear
  import opened ZevRestore
  import opened ZevLaws
  import opened ZevUndo
  import opened ZevService
  import Media
  import Names

  type Files = map<string, Bytes>

  // ---- Name by name ----

  /** What the media step writes under a name last, if anything. */
  function LastBytes(items: seq<Media.Item>, referenced: set<string>, name: string): Option<Bytes> {
    var p := Media.Last(items, referenced, |items|, name);
    if p.Some? then Some(items[p.value].content) else None
  }

  /** Nothing is written under the name, or finally the bytes it had. */
  ghost predicate NameFits(before: Files, items: seq<Media.Item>, referenced: set<string>, name: string) {
    LastBytes(items, referenced, name).None? || LastBytes(items, referenced, name) == Media.At(before, name)
  }

  lemma NameKeptIff(before: Files, items: seq<Media.Item>, referenced: set<string>, after: Files, name: string)
    requires MediaRestored(before, items, referenced, after)
    ensures Media.At(after, name) == Media.At(before, name) <==> NameFits(before, items, referenced, name)
    ensures Media.At(after, name) ==
            if LastBytes(items, referenced, name).Some? then LastBytes(items, referenced, name) else Media.At(before, name)
  {
    assert Media.At(after, name) == Media.Found(Media.State(before, [], map[]), items, referenced, |items|, name);
  }

  // ---- Isolation, files included ----

  /** A row outside the community holds the name. */
  ghost predicate HeldOutside(reg: Registry, t: Rows, z: Pk, name: string) {
    name != "" && exists k :: k in t && !Ours(reg, t, z, k) && MediaName(t[k]) == name
  }

  /** The files of rows outside the community are as they were. */
  ghost predicate FilesIsolated(reg: Registry, t: Rows, z: Pk, before: Files, after: Files) {
    forall name | HeldOutside(reg, t, z, name) :: Media.At(after, name) == Media.At(before, name)
  }

  ghost predicate FilesFit(reg: Registry, t: Rows, z: Pk, items: seq<Media.Item>, referenced: set<string>, before: Files) {
    forall name | HeldOutside(reg, t, z, name) :: NameFits(before, items, referenced, name)
  }

  lemma FilesIsolatedIff(
      reg: Registry, t: Rows, z: Pk, items: seq<Media.Item>, referenced: set<string>, before: Files, after: Files)
    requires MediaRestored(before, items, referenced, after)
    ensures FilesIsolated(reg, t, z, before, after) <==> FilesFit(reg, t, z, items, referenced, before)
  {
    forall name ensures Media.At(after, name) == Media.At(before, name) <==> NameFits(before, items, referenced, name) {
      NameKeptIff(before, items, referenced, after, name);
    }
  }

  /** Names that no restored row shares with a row outside the community always fit. */
  lemma UnsharedNamesFit(reg: Registry, t: Rows, z: Pk, items: seq<Media.Item>, referenced: set<string>, before: Files)
    requires forall name | HeldOutside(reg, t, z, name) :: name !in referenced
    ensures FilesFit(reg, t, z, items, referenced, before)
  {
  }

  /**
   * A restore that went through leaves rows and files outside the community alone, beyond what deleting its rows does, if
   * and only if the own-row record fits and no file that a row outside holds is written with other bytes.
   */
  lemma RowsAndFilesIsolatedIff(
      site: Site, f: Format, a: Archive, t: Rows, z: Pk, fold: string -> string, admissible: Rows -> bool,
      r: Result<map<Model, nat>, ZevError>, mapping: map<Pk, Option<Pk>>, w: Rows, us: seq<Pk>, referenced: set<string>, v: Rows,
      step: MediaStep, before: Files, after: Files)
    requires Sound(site) && Keyed(t) && Whole(site.schema, t) && r.Ok?
    requires RowsAfter(site, f, a, t, z, fold, admissible, r, mapping, w, us, referenced, v)
    requires FilesAfter(f, a, z, referenced, before, r, step, after)
    ensures (Isolated(site.reg, site.schema, t, w, z, Contracts(site.reg, f, a, z)) && FilesIsolated(site.reg, t, z, before, after)) <==>
            && OwnRowFits(t, z, Relink(mapping)(ZevRow(f, a, z)))
            && FilesFit(site.reg, t, z, MediaOf(f, a, z), referenced, before)
  {
    RestoreIsIsolated(site, f, a, t, z, mapping, w, us, r.value, v);
    FilesIsolatedIff(site.reg, t, z, MediaOf(f, a, z), referenced, before, after);
  }

  // ---- A genuine backup ----

  /** A normalised name is its own. */
  ghost predicate Normalises(f: Format) {
    forall p, q :: f.safe(p) == Some(q) ==> f.safe(q) == Some(q)
  }

  /** Rows with files name their community by a column, and are restored with it. */
  ghost predicate MediaScoped(reg: Registry) {
    forall m | m in MEDIA_MODELS :: Restored(reg, m) && m != Zev && reg.lookup(m) == Own
  }

  lemma ShippedMediaScoped()
    ensures MediaScoped(REGISTRY)
  {
    forall m | m in MEDIA_MODELS ensures Restored(REGISTRY, m) && m != Zev && REGISTRY.lookup(m) == Own {
      assert m == Invoice || m == Credit || m == DeliveredDocument;
      PlacesDecide(m);
    }
  }

  /** A name under which a backup of the community holds a file: one its rows refer to, normalised, and stored. */
  ghost predicate BackedUpName(f: Format, t: Rows, z: Pk, storage: Files, name: string) {
    name in storage && f.safe(name) == Some(name) && exists r :: r in MediaRows(t, z) && MediaName(r) == name
  }

  lemma MediaRowIsOurs(reg: Registry, t: Rows, z: Pk, r: Row)
    requires MediaScoped(reg) && Keyed(t)
    ensures r in MediaRows(t, z) <==> Ours(reg, t, z, KeyOf(r)) && t[KeyOf(r)] == r && MediaName(r) != ""
  {
    if r in MediaRows(t, z) {
      var k :| k in t.Keys && t[k].model in MEDIA_MODELS && t[k].zev == Some(z) && MediaName(t[k]) != "" && t[k] == r;
      assert KeyOf(r) == k;
    }
    if Ours(reg, t, z, KeyOf(r)) && t[KeyOf(r)] == r && MediaName(r) != "" {
      assert r.model in MEDIA_MODELS;
      assert reg.lookup(r.model) == Own;
      assert KeyOf(r) in t.Keys;
    }
  }

  lemma RelinkKeepsName(mapping: map<Pk, Option<Pk>>, r: Row)
    ensures MediaName(Relink(mapping)(r)) == MediaName(r)
  {
    RelinkOnlyLinks(mapping);
    assert Relink(mapping)(r) == r.(users := Relink(mapping)(r).users);
  }

  /** The names the restored rows of a backup refer to are those its rows with files refer to. */
  lemma BackupNames(
      reg: Registry, f: Format, t: Rows, storage: Files, b: Archive, z: Pk, mapping: map<Pk, Option<Pk>>, name: string)
    requires WellFormed(reg) && MediaScoped(reg) && Keyed(t) && Built(reg, f, t, storage, b) && z in b.manifest.zevs
    ensures name in MediaNames(RestRows(reg, f, b, z, Relink(mapping))) <==> exists r :: r in MediaRows(t, z) && MediaName(r) == name
  {
    var rest := RestRows(reg, f, b, z, Same);
    BackupRest(reg, f, t, storage, b, z);
    StreamMapped(AllRest(reg, z), f, b.files, Relink(mapping));
    if name in MediaNames(Mapped(Relink(mapping), rest)) {
      var x :| x in Mapped(Relink(mapping), rest) && MediaName(x) != "" && MediaName(x) == name;
      var r := MappedElement(Relink(mapping), rest, x);
      RelinkKeepsName(mapping, r);
      MediaRowIsOurs(reg, t, z, r);
    }
    if r :| r in MediaRows(t, z) && MediaName(r) == name {
      MediaRowIsOurs(reg, t, z, r);
      MappedHas(Relink(mapping), rest, r);
      RelinkKeepsName(mapping, r);
    }
  }

  lemma MediaItem(f: Format, a: Archive, z: Pk, i: nat) returns (p: string)
    requires i < |MediaOf(f, a, z)|
    ensures MediaFile(z, p) in a.files && MediaOf(f, a, z)[i] == Media.Item(f.safe(p), a.files[MediaFile(z, p)], true)
  {
    var paths := Names.Sorted(MediaPathsOf(a, z));
    p := paths[i];
    assert p in paths;
    MediaPathsIff(a, z, p);
  }

  lemma HasItem(f: Format, a: Archive, z: Pk, p: string) returns (i: nat)
    requires MediaFile(z, p) in a.files
    ensures i < |MediaOf(f, a, z)| && MediaOf(f, a, z)[i] == Media.Item(f.safe(p), a.files[MediaFile(z, p)], true)
  {
    var paths := Names.Sorted(MediaPathsOf(a, z));
    MediaPathsIff(a, z, p);
    assert p in paths;
    i :| 0 <= i < |paths| && paths[i] == p;
  }

  /** A member that a backup of the community stands under a name for holds the bytes stored under it. */
  lemma BackupItem(f: Format, t: Rows, z: Pk, storage: Files, b: Archive, i: nat, name: string)
    requires Normalises(f) && HoldsMedia(b.files, z, MediaPaths(f, t, z), storage)
    requires i < |MediaOf(f, b, z)| && MediaOf(f, b, z)[i].name == Some(name)
    ensures name in storage && MediaOf(f, b, z)[i].content == storage[name] && f.safe(name) == Some(name)
  {
    var p := MediaItem(f, b, z, i);
    assert p in MediaPaths(f, t, z);
    var r :| r in MediaRows(t, z) && f.safe(MediaName(r)).Some? && f.safe(MediaName(r)).value == p;
    assert f.safe(p) == Some(p);
  }

  /** What restoring a genuine backup writes: under each name it holds a file for, the bytes it was taken with. */
  lemma GenuineBytes(
      reg: Registry, f: Format, t: Rows, storage: Files, b: Archive, z: Pk, mapping: map<Pk, Option<Pk>>, name: string)
    requires WellFormed(reg) && MediaScoped(reg) && Normalises(f) && Keyed(t) && Built(reg, f, t, storage, b) && z in b.manifest.zevs
    ensures
      var last := LastBytes(MediaOf(f, b, z), MediaNames(RestRows(reg, f, b, z, Relink(mapping))), name);
      && (last.Some? <==> BackedUpName(f, t, z, storage, name))
      && (last.Some? ==> last == Media.At(storage, name))
  {
    var items, referenced := MediaOf(f, b, z), MediaNames(RestRows(reg, f, b, z, Relink(mapping)));
    assert HoldsZev(reg, f, t, storage, b.files, b.manifest.members, b.manifest.counts, z);
    BackupNames(reg, f, t, storage, b, z, mapping, name);
    var p := Media.Last(items, referenced, |items|, name);
    if p.Some? {
      BackupItem(f, t, z, storage, b, p.value, name);
    }
    if BackedUpName(f, t, z, storage, name) {
      var r :| r in MediaRows(t, z) && MediaName(r) == name;
      assert name in MediaPaths(f, t, z);
      var i := HasItem(f, b, z, name);
      assert Media.Wanted(items[i], referenced);
    }
  }

  /**
   * So a backup of a community that is gone, restored where another community has taken one of its file names meanwhile,
   * overwrites that file: the row outside then holds the community's bytes.
   */
  lemma GenuineBackupOverwrites(
      reg: Registry, f: Format, t0: Rows, storage: Files, b: Archive, z: Pk, mapping: map<Pk, Option<Pk>>,
      t: Rows, before: Files, after: Files, name: string)
    requires WellFormed(reg) && MediaScoped(reg) && Normalises(f) && Keyed(t0) && Built(reg, f, t0, storage, b) && z in b.manifest.zevs
    requires MediaRestored(before, MediaOf(f, b, z), MediaNames(RestRows(reg, f, b, z, Relink(mapping))), after)
    requires BackedUpName(f, t0, z, storage, name) && HeldOutside(reg, t, z, name) && Media.At(before, name) != Some(storage[name])
    ensures Media.At(after, name) == Some(storage[name]) && !FilesIsolated(reg, t, z, before, after)
  {
    GenuineBytes(reg, f, t0, storage, b, z, mapping, name);
    NameKeptIff(before, MediaOf(f, b, z), MediaNames(RestRows(reg, f, b, z, Relink(mapping))), after, name);
  }

  // ---- The whole run ----

  /** Tables of other communities: their own rows and invoices. */
  ghost predicate OtherInvoices(t: Rows, z: Pk) {
    Keyed(t) && forall k | k in t :: (k.model == Zev && k.pk != z) || (k.model == Invoice && t[k].zev != Some(z))
  }

  /** Those tables with a community's own row and one invoice of it. */
  function WithInvoice(t: Rows, zev: Row, r: Row): Rows {
    t[KeyOf(zev) := zev][KeyOf(r) := r]
  }

  function OneInvoice(m: Model): nat {
    if m == Zev || m == Invoice then 1 else 0
  }

  /** Communities and invoices are told by key and by column. */
  ghost predicate Plain(reg: Registry) {
    reg.lookup(Zev) == Self && reg.lookup(Invoice) == Own
  }

  lemma LoneCommunity(reg: Registry, t: Rows, z: Pk, zev: Row, r: Row, k: Key)
    requires Plain(reg) && OtherInvoices(t, z) && KeyOf(zev) == Key(Zev, z) && r.model == Invoice && r.zev == Some(z)
    requires k in WithInvoice(t, zev, r)
    ensures Community(reg, WithInvoice(t, zev, r), WithInvoice(t, zev, r)[k]) == Some(z) <==> k == KeyOf(zev) || k == KeyOf(r)
  {
  }

  lemma ScopedLoneIff(reg: Registry, t: Rows, z: Pk, zev: Row, r: Row, m: Model, k: Key)
    requires Plain(reg) && OtherInvoices(t, z) && KeyOf(zev) == Key(Zev, z) && r.model == Invoice && r.zev == Some(z)
    ensures k in ScopedKeys(reg, WithInvoice(t, zev, r), z, m) <==> k.model == m && (k == KeyOf(zev) || k == KeyOf(r))
  {
    if k in WithInvoice(t, zev, r) { LoneCommunity(reg, t, z, zev, r, k); }
  }

  lemma OneOrNone(keys: set<Key>, a: Key, b: Key, m: Model)
    requires a.model != b.model && forall k :: k in keys <==> k.model == m && (k == a || k == b)
    ensures |keys| == if m == a.model || m == b.model then 1 else 0
  {
    if m == a.model {
      assert keys == {a};
    } else if m == b.model {
      assert keys == {b};
    } else {
      assert keys == {};
    }
  }

  lemma ScopedLone(reg: Registry, t: Rows, z: Pk, zev: Row, r: Row, m: Model)
    requires Plain(reg) && OtherInvoices(t, z) && KeyOf(zev) == Key(Zev, z) && r.model == Invoice && r.zev == Some(z)
    ensures |ScopedKeys(reg, WithInvoice(t, zev, r), z, m)| == OneInvoice(m)
  {
    forall k ensures k in ScopedKeys(reg, WithInvoice(t, zev, r), z, m) <==> k.model == m && (k == KeyOf(zev) || k == KeyOf(r)) {
      ScopedLoneIff(reg, t, z, zev, r, m, k);
    }
    OneOrNone(ScopedKeys(reg, WithInvoice(t, zev, r), z, m), KeyOf(zev), KeyOf(r), m);
  }

  /** An archive of a community that is gone: its own row and one invoice, under a free key. */
  ghost predicate LoneInvoice(site: Site, f: Format, a: Archive, t: Rows, z: Pk, transform: Row -> Row, zev: Row, r: Row) {
    && Plain(site.reg) && OtherInvoices(t, z)
    && OneZev(f, a, z) && AllAcceptable(site.reg, f, a, AllRest(site.reg, z))
    && zev == transform(ZevRow(f, a, z)) && KeyOf(zev) == Key(Zev, z)
    && RestRows(site.reg, f, a, z, transform) == [r] && r.model == Invoice && r.zev == Some(z) && KeyOf(r) !in t
  }

  lemma OneInsert(base: Rows, r: Row)
    requires KeyOf(r) !in base
    ensures InsertAll(base, [r]) == Some(base[KeyOf(r) := r])
  {
    assert [r][..0] == [];
    assert InsertAll(base, [r][..0]) == Some(base);
  }

  lemma OneTally(r: Row)
    ensures forall m :: Get(Tally([r]), m) == if m == r.model then 1 else 0
  {
    assert [r][..0] == [];
    assert Tally([r][..0]) == map[];
  }

  lemma NoneIsOurs(reg: Registry, t: Rows, z: Pk)
    requires Plain(reg) && OtherInvoices(t, z)
    ensures forall k | k in t :: k.model != ContractIssue && !Ours(reg, t, z, k)
  {
  }

  lemma LoneInvoiceLoads(site: Site, f: Format, a: Archive, t: Rows, z: Pk, transform: Row -> Row, zev: Row, r: Row)
    requires Sound(site) && LoneInvoice(site, f, a, t, z, transform, zev, r)
    ensures ZevLoaded(site, f, a, t, z, transform, WithInvoice(t, zev, r))
  {
    NoneIsOurs(site.reg, t, z);
    NothingToClear(site.reg, site.schema, t, z, Contracts(site.reg, f, a, z));
    OneInsert(t[KeyOf(zev) := zev], r);
  }

  lemma NobodyManages(t: Rows, z: Pk, zev: Row, r: Row)
    requires OtherInvoices(t, z) && zev.model == Zev && r.model == Invoice
    ensures Managers(WithInvoice(t, zev, r), z, [])
  {
    NoAccounts(t, zev, r);
    NobodyToManage(WithInvoice(t, zev, r), z);
  }

  lemma NoAccounts(t: Rows, zev: Row, r: Row)
    requires (forall k | k in t :: k.model == Zev || k.model == Invoice) && zev.model == Zev && r.model == Invoice
    ensures forall k | k in WithInvoice(t, zev, r) :: k.model != User
  {
  }

  lemma NobodyToManage(w: Rows, z: Pk)
    requires forall k | k in w :: k.model != User
    ensures Managers(w, z, [])
  {
    assert NewlyManaging(w, z) == {};
  }

  lemma LoneInvoiceGoesThrough(
      site: Site, f: Format, a: Archive, t: Rows, z: Pk, transform: Row -> Row, zev: Row, r: Row, counts: map<Model, nat>)
    requires Sound(site) && LoneInvoice(site, f, a, t, z, transform, zev, r) && forall m :: Get(counts, m) == OneInvoice(m)
    ensures ZevRestored(site, f, a, t, z, transform, WithInvoice(t, zev, r), [], counts, WithInvoice(t, zev, r))
  {
    LoneInvoiceLoads(site, f, a, t, z, transform, zev, r);
    NobodyManages(t, z, zev, r);
    LoneInvoiceCounts(site.reg, t, z, zev, r, counts);
  }

  lemma LoneInvoiceCounts(reg: Registry, t: Rows, z: Pk, zev: Row, r: Row, counts: map<Model, nat>)
    requires Plain(reg) && OtherInvoices(t, z) && KeyOf(zev) == Key(Zev, z)
    requires r.model == Invoice && r.zev == Some(z) && forall m :: Get(counts, m) == OneInvoice(m)
    ensures LoadedCount(counts, [r]) && ZevCountsAgree(reg, WithInvoice(t, zev, r), z, counts)
  {
    OneTally(r);
    forall m | Restored(reg, m) ensures |ScopedKeys(reg, WithInvoice(t, zev, r), z, m)| == Get(counts, m) {
      ScopedLone(reg, t, z, zev, r, m);
    }
  }

  /** One member under a name that a row outside holds. */
  lemma OneFileOverwritten(reg: Registry, t: Rows, z: Pk, r: Row, k: Key, content: Bytes, before: Files, after: Files)
    requires k in t && !Ours(reg, t, z, k) && MediaName(r) != "" && MediaName(t[k]) == MediaName(r)
    requires MediaRestored(before, [Media.Item(Some(MediaName(r)), content, true)], MediaNames([r]), after)
    requires Media.At(before, MediaName(r)) != Some(content)
    ensures !FilesIsolated(reg, t, z, before, after) && Media.At(after, MediaName(t[k])) == Some(content)
  {
    var items, referenced, name := [Media.Item(Some(MediaName(r)), content, true)], MediaNames([r]), MediaName(r);
    assert r in [r];
    assert Media.Wanted(items[0], referenced);
    NameKeptIff(before, items, referenced, after, name);
    assert LastBytes(items, referenced, name) == Some(content);
    assert HeldOutside(reg, t, z, name);
  }

  /**
   * The failing input: a community that is not there any more, an archive of it with one invoice, and another community's
   * invoice that now holds its file name. The restore goes through, its own-row record fits, and the other community's file
   * is replaced.
   */
  lemma SharedNameOverwrites(
      site: Site, f: Format, a: Archive, t: Rows, z: Pk, mapping: map<Pk, Option<Pk>>, zev: Row, r: Row, k: Key,
      counts: map<Model, nat>, content: Bytes, before: Files, after: Files)
    requires forall m :: Get(counts, m) == OneInvoice(m)
    requires Sound(site) && LoneInvoice(site, f, a, t, z, Relink(mapping), zev, r)
    requires k in t && MediaName(r) != "" && MediaName(t[k]) == MediaName(r)
    requires MediaOf(f, a, z) == [Media.Item(Some(MediaName(r)), content, true)] && Media.At(before, MediaName(r)) != Some(content)
    requires MediaRestored(before, MediaOf(f, a, z), MediaNames([r]), after)
    ensures ZevRestored(site, f, a, t, z, Relink(mapping), WithInvoice(t, zev, r), [], counts, WithInvoice(t, zev, r))
    ensures OwnRowFits(t, z, zev)
    ensures !FilesIsolated(site.reg, t, z, before, after) && Media.At(after, MediaName(t[k])) == Some(content)
  {
    LoneInvoiceGoesThrough(site, f, a, t, z, Relink(mapping), zev, r, counts);
    OneFileOverwritten(site.reg, t, z, r, k, content, before, after);
  }

  // ---- Undoing, files included ----

  /**
   * Restore any archive, then the safety backup taken just before: storage is as it was if and only if every name the first
   * restore changed is one the safety backup holds a file for.
   */
  lemma FilesUndoneIff(
      reg: Registry, f: Format, t0: Rows, z: Pk, before: Files, items: seq<Media.Item>, referenced: set<string>, mid: Files,
      b: Archive, mapping: map<Pk, Option<Pk>>, after: Files)
    requires WellFormed(reg) && MediaScoped(reg) && Normalises(f) && Keyed(t0) && Built(reg, f, t0, before, b) && z in b.manifest.zevs
    requires MediaRestored(before, items, referenced, mid)
    requires MediaRestored(mid, MediaOf(f, b, z), MediaNames(RestRows(reg, f, b, z, Relink(mapping))), after)
    ensures after == before <==>
            forall name :: NameFits(before, items, referenced, name) || BackedUpName(f, t0, z, before, name)
  {
    Media.SameEverywhere(after, before);
    forall name
      ensures Media.At(after, name) == Media.At(before, name) <==>
              NameFits(before, items, referenced, name) || BackedUpName(f, t0, z, before, name)
    {
      NameKeptIff(before, items, referenced, mid, name);
      NameKeptIff(mid, MediaOf(f, b, z), MediaNames(RestRows(reg, f, b, z, Relink(mapping))), after, name);
      GenuineBytes(reg, f, t0, before, b, z, mapping, name);
    }
  }

  // ---- On the rows' columns ----

  /** A row of the community holds the name, in the column of its model. */
  ghost predicate NamedBy(t: Rows, z: Pk, k: Key, name: string) {
    && k in t && t[k].zev == Some(z) && name != ""
    && if k.model == DeliveredDocument then Field(t[k], "file") == name
       else (k.model == Invoice || k.model == Credit) && Field(t[k], "pdf_file") == name
  }

  /** A backup holds a file for exactly the normalised, stored names in the file columns of the community's rows. */
  lemma BackedUpNameIff(f: Format, t: Rows, z: Pk, storage: Files, name: string)
    requires Keyed(t)
    ensures BackedUpName(f, t, z, storage, name) <==>
            name in storage && f.safe(name) == Some(name) && exists k :: NamedBy(t, z, k, name)
  {
    if r :| r in MediaRows(t, z) && MediaName(r) == name {
      var k :| k in t.Keys && t[k].model in MEDIA_MODELS && t[k].zev == Some(z) && MediaName(t[k]) != "" && t[k] == r;
      MediaColumn(t[k], name);
      assert NamedBy(t, z, k, name);
    }
    if k :| NamedBy(t, z, k, name) {
      MediaColumn(t[k], name);
      assert k in t.Keys;
      assert t[k] in MediaRows(t, z);
    }
  }

  lemma MediaColumn(r: Row, name: string)
    requires name != ""
    ensures MediaName(r) == name <==>
            if r.model == DeliveredDocument then Field(r, "file") == name
            else (r.model == Invoice || r.model == Credit) && Field(r, "pdf_file") == name
    ensures MediaName(r) == name ==> r.model in MEDIA_MODELS
  {
    assert MEDIA_MODELS[0] == Invoice && MEDIA_MODELS[1] == Credit && MEDIA_MODELS[2] == DeliveredDocument;
  }
}
