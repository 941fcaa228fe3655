/** The backup archive: its writer and its manifest. */
module Archive {
  import opened Outcomes
  import opened Bytes
  import opened Lines
  import opened Registry
  import opened Tables
  import opened Sections

  /** Who a referenced account was when the backup was taken. */
  datatype AccountRef = AccountRef(id: Pk, username: string, email: string)

  /** The foreign formats: digest, record serializer, account list, and the normaliser of storage names. */
  datatype Format = Format(
    digest: Bytes -> string,
    rows: Codec<Row>,
    refs: Codec<seq<AccountRef>>,
    safe: string -> Option<string>)

  ghost predicate Faithful(f: Format) {
    Exact(f.rows) && Exact(f.refs)
  }

  datatype Name = SectionFile(section: Section) | AccountRefs(zev: Pk) | MediaFile(zev: Pk, path: string) | Stray(name: string)

  datatype Entry = Entry(sha256: string, size: nat, records: Option<nat>, models: map<Model, nat>)

  datatype Scope = InstanceScope | ZevScope

  datatype Manifest = Manifest(scope: Scope, zevs: seq<Pk>, members: map<Name, Entry>, counts: map<Section, nat>)

  type Files = map<Name, Bytes>

  datatype Archive = Archive(manifest: Manifest, files: Files)

  const COPY_BLOCK: nat := 1024 * 1024

  /** What a manifest entry vouches for. */
  ghost predicate Vouches(f: Format, e: Entry, b: Bytes) {
    && e.sha256 == f.digest(b) && e.size == |b|
    && (e.records.Some? ==> e.records.value == Newlines(b))
  }

  // ---- What a section file says ----

  function Values<R>(os: seq<Option<R>>): seq<R> {
    if os == [] then []
    else Values(os[..|os| - 1]) + if os[|os| - 1].Some? then [os[|os| - 1].value] else []
  }

  lemma {:induction false} ValuesOfSomes<R>(rs: seq<R>)
    ensures Values(Somes(rs)) == rs
    decreases |rs|
  {
    if rs != [] {
      var n := |rs| - 1;
      assert Somes(rs)[..n] == Somes(rs[..n]);
      ValuesOfSomes(rs[..n]);
    }
  }

  function SectionBytes(files: Files, s: Section): Bytes {
    if SectionFile(s) in files then files[SectionFile(s)] else []
  }

  /** The records of a section file. */
  function Content(f: Format, files: Files, s: Section): seq<Row> {
    Values(Records(f.rows, SectionBytes(files, s)))
  }

  ghost predicate Readable(f: Format, files: Files, s: Section) {
    Records(f.rows, SectionBytes(files, s)) == Somes(Content(f, files, s))
  }

  /** A section file whose lines all read, described by its entry. */
  ghost predicate Describes(f: Format, files: Files, members: map<Name, Entry>, s: Section) {
    && SectionFile(s) in files && SectionFile(s) in members
    && Readable(f, files, s)
    && members[SectionFile(s)].records == Some(|Content(f, files, s)|)
    && NonZero(members[SectionFile(s)].models) == Tally(Content(f, files, s))
  }

  /** The section's rows of the database, each once. */
  ghost predicate Holds(reg: Registry, f: Format, t: Rows, files: Files, members: map<Name, Entry>, s: Section)
    requires InRange(reg, s)
  {
    Describes(f, files, members, s) && Lists(Content(f, files, s), SectionRows(reg, t, s))
  }

  // ---- Parts of a section ----

  datatype Part = Part(model: Model, rows: seq<Row>)

  function Flat(parts: seq<Part>): seq<Row> {
    if parts == [] then [] else Flat(parts[..|parts| - 1]) + parts[|parts| - 1].rows
  }

  function PerModel(parts: seq<Part>): map<Model, nat> {
    if parts == [] then map[]
    else PerModel(parts[..|parts| - 1])[parts[|parts| - 1].model := |parts[|parts| - 1].rows|]
  }

  function SectionEntry(f: Format, parts: seq<Part>): Entry {
    var text := Text(f.rows, Flat(parts));
    Entry(f.digest(text), |text|, Some(|Flat(parts)|), PerModel(parts))
  }

  function PlainEntry(f: Format, b: Bytes): Entry {
    Entry(f.digest(b), |b|, None, map[])
  }

  /** Each part holds rows of its own model only, and no two parts share one. */
  ghost predicate Sorted(parts: seq<Part>) {
    && (forall i, j | 0 <= i < j < |parts| :: parts[i].model != parts[j].model)
    && (forall i | 0 <= i < |parts| :: OfOneModel(parts[i]))
  }

  ghost predicate OfOneModel(p: Part) {
    forall r | r in p.rows :: r.model == p.model
  }

  lemma {:induction false} TallyOfPart(rs: seq<Row>, m: Model)
    requires forall r | r in rs :: r.model == m
    ensures Tally(rs) == if rs == [] then map[] else map[m := |rs|]
    decreases |rs|
  {
    if rs != [] {
      assert rs[|rs| - 1] in rs;
      TallyOfPart(rs[..|rs| - 1], m);
    }
  }

  lemma {:induction false} PerModelCounts(parts: seq<Part>, m: Model)
    requires Sorted(parts)
    ensures Get(PerModel(parts), m) == Get(Tally(Flat(parts)), m)
    ensures m in PerModel(parts) ==> exists i :: 0 <= i < |parts| && parts[i].model == m
    decreases |parts|
  {
    if parts != [] {
      var n := |parts| - 1;
      var init, last := parts[..n], parts[n];
      PerModelCounts(init, m);
      TallyAppend(Flat(init), last.rows, m);
      TallyOfPart(last.rows, last.model);
    }
  }

  /** The writer's per-model counts are those of the rows it wrote, apart from models without rows. */
  lemma PerModelIsTally(parts: seq<Part>)
    requires Sorted(parts)
    ensures NonZero(PerModel(parts)) == Tally(Flat(parts))
  {
    var x, y := NonZero(PerModel(parts)), Tally(Flat(parts));
    TallyKeys(Flat(parts));
    forall m ensures m in x <==> m in y {
      PerModelCounts(parts, m);
    }
    forall m | m in x ensures x[m] == y[m] {
      PerModelCounts(parts, m);
    }
  }

  /** What is written is what is described. */
  lemma WrittenDescribes(f: Format, files: Files, members: map<Name, Entry>, s: Section, parts: seq<Part>)
    requires Exact(f.rows) && Sorted(parts) && SectionFile(s) in files && SectionFile(s) in members
    requires files[SectionFile(s)] == Text(f.rows, Flat(parts))
    requires members[SectionFile(s)] == SectionEntry(f, parts)
    ensures Describes(f, files, members, s) && Content(f, files, s) == Flat(parts)
  {
    RecordsRoundTrip(f.rows, Flat(parts));
    ValuesOfSomes(Flat(parts));
    PerModelIsTally(parts);
  }

  // ---- Writing ----

  /** Forwards what it is given while digesting and measuring it. */
  class HashingWriter {
    const digest: Bytes -> string
    var target: Bytes
    var fed: Bytes
    var size: nat

    constructor (digest: Bytes -> string)
      ensures this.digest == digest && target == [] && Valid()
    {
      this.digest := digest;
      target, fed, size := [], [], 0;
    }

    ghost predicate Valid()
      reads this
    {
      fed == target && size == |target|
    }

    method Write(data: Bytes)
      requires Valid()
      modifies this
      ensures Valid() && target == old(target) + data
    {
      fed := fed + data;
      size := size + |data|;
      target := target + data;
    }

    /** Everything left in a stream, block by block. */
    method CopyFrom(source: ByteStream)
      requires Valid() && source.Valid()
      modifies this, source`position
      ensures Valid() && target == old(target) + old(source.Rest())
    {
      var block := source.Read(COPY_BLOCK);
      while block != []
        invariant source.Valid() && Valid()
        invariant target + (block + source.Rest()) == old(target) + old(source.Rest())
        invariant block == [] ==> source.Rest() == []
        decreases |block| + |source.Rest()|
      {
        ghost var before, rest := target, source.Rest();
        Write(block);
        assert before + (block + rest) == target + rest;
        block := source.Read(COPY_BLOCK);
        assert block + source.Rest() == rest;
      }
    }

    method HexDigest() returns (d: string)
      requires Valid()
      ensures d == digest(target)
    {
      d := digest(fed);
    }
  }

  class Writer {
    const format: Format
    var files: Files
    var members: map<Name, Entry>

    constructor (format: Format)
      ensures this.format == format && files == map[] && members == map[] && Valid()
    {
      this.format := format;
      files, members := map[], map[];
    }

    /** Every file has an entry that vouches for it. */
    ghost predicate Valid()
      reads this
    {
      files.Keys == members.Keys && forall n | n in files :: Vouches(format, members[n], files[n])
    }

    method JsonMember(name: Name, data: Bytes)
      requires Valid()
      modifies this
      ensures Valid() && files == old(files)[name := data]
      ensures members == old(members)[name := PlainEntry(format, data)]
    {
      files := files[name := data];
      members := members[name := Entry(format.digest(data), |data|, None, map[])];
    }

    /** Serialize rows, one line each. */
    method WriteRows(hasher: HashingWriter, rows: seq<Row>, ghost done: seq<Row>)
      requires hasher.Valid() && hasher.target == Text(format.rows, done)
      modifies hasher
      ensures hasher.Valid() && hasher.target == Text(format.rows, done + rows)
    {
      assert done + rows[..0] == done;
      for j := 0 to |rows|
        invariant hasher.Valid()
        invariant hasher.target == Text(format.rows, done + rows[..j])
      {
        hasher.Write(format.rows.encode(rows[j]) + [NEWLINE]);
        ghost var all := done + rows[..j + 1];
        assert all[..|all| - 1] == done + rows[..j];
      }
      assert rows[..|rows|] == rows;
    }

    /** Stream the parts' rows into one member, counting them per model. */
    method JsonlMember(s: Section, parts: seq<Part>) returns (records: nat)
      requires Valid() && Exact(format.rows)
      modifies this
      ensures Valid() && records == |Flat(parts)|
      ensures files == old(files)[SectionFile(s) := Text(format.rows, Flat(parts))]
      ensures members == old(members)[SectionFile(s) := SectionEntry(format, parts)]
    {
      assert parts[..|parts|] == parts;
      NewlinesAreRecords(format.rows, Flat(parts));
      var hasher := new HashingWriter(format.digest);
      var perModel: map<Model, nat> := map[];
      records := 0;
      for i := 0 to |parts|
        invariant hasher.Valid() && fresh(hasher) && hasher.digest == format.digest
        invariant files == old(files) && members == old(members)
        invariant hasher.target == Text(format.rows, Flat(parts[..i]))
        invariant perModel == PerModel(parts[..i]) && records == |Flat(parts[..i])|
      {
        TakeStep(parts, i);
        WriteRows(hasher, parts[i].rows, Flat(parts[..i]));
        perModel := perModel[parts[i].model := |parts[i].rows|];
        records := records + |parts[i].rows|;
      }
      var digest := hasher.HexDigest();
      files := files[SectionFile(s) := hasher.target];
      members := members[SectionFile(s) := Entry(digest, hasher.size, Some(records), perModel)];
    }

    /** Copy one stored file in, unless it is there already; `None` when storage does not have it. */
    method MediaMember(zev: Pk, path: string, storage: map<string, Bytes>) returns (size: Option<nat>)
      requires Valid()
      modifies this
      ensures Valid() && (size.None? <==> MediaFile(zev, path) !in old(files) && path !in storage)
      ensures MediaFile(zev, path) in old(files) || path !in storage ==> files == old(files) && members == old(members)
      ensures MediaFile(zev, path) !in old(files) && path in storage ==>
                && files == old(files)[MediaFile(zev, path) := storage[path]]
                && members == old(members)[MediaFile(zev, path) := PlainEntry(format, storage[path])]
    {
      var name := MediaFile(zev, path);
      if name in members {
        return Some(members[name].size);
      }
      if path !in storage {
        return None;
      }
      var source := new ByteStream(storage[path]);
      var hasher := new HashingWriter(format.digest);
      assert source.Rest() == storage[path];
      hasher.CopyFrom(source);
      assert hasher.target == storage[path];
      var digest := hasher.HexDigest();
      files := files[name := hasher.target];
      members := members[name := Entry(digest, hasher.size, None, map[])];
      size := Some(hasher.size);
    }
  }
}
