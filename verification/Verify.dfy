/** Verifying an archive against its manifest, block by block. */
module Verify {
  import opened Outcomes
  import opened Bytes
  import opened Lines
  import opened Registry
  import opened Tables
  import opened Sections
  import opened Archive
  import opened Dump
  import opened Build

  datatype Failure =
    | Unlisted(name: Name) | Required(name: Name) | Missing(name: Name) | Checksum(name: Name) | Size(name: Name)
    | RecordCount(name: Name, found: nat) | NoMember(section: Section) | SectionCount(section: Section)

  /** Every member a complete backup of the manifest's scope must carry. */
  ghost predicate Expected(reg: Registry, m: Manifest, n: Name) {
    match n
    case SectionFile(s) => Planned(reg, m.scope, m.zevs, s)
    case AccountRefs(z) => z in m.zevs
    case _ => false
  }

  /** What verification promises of an archive it accepts. */
  ghost predicate Passes(reg: Registry, f: Format, a: Archive) {
    var m := a.manifest;
    && (forall n | n in a.files :: n in m.members)
    && (forall n | Expected(reg, m, n) :: n in m.members)
    && (forall n | n in m.members :: Intact(f, a, n))
    && (forall s | s in m.counts :: CountAgrees(m, s))
  }

  ghost predicate Intact(f: Format, a: Archive, n: Name)
    requires n in a.manifest.members
  {
    n in a.files && Vouches(f, a.manifest.members[n], a.files[n])
  }

  predicate CountAgrees(m: Manifest, s: Section)
    requires s in m.counts
  {
    SectionFile(s) in m.members && m.members[SectionFile(s)].records == Some(m.counts[s])
  }

  // ---- The names that must be there ----

  function ZevNames(reg: Registry, zevs: seq<Pk>): seq<Name> {
    if zevs == [] then []
    else
      var z := zevs[|zevs| - 1];
      ZevNames(reg, zevs[..|zevs| - 1]) + SectionFiles(ZevPlan(reg, z, |reg.zev|)) + [AccountRefs(z)]
  }

  function SectionFiles(plan: seq<Section>): seq<Name> {
    seq(|plan|, i requires 0 <= i < |plan| => SectionFile(plan[i]))
  }

  function ExpectedSections(reg: Registry, m: Manifest): seq<Name> {
    (if m.scope.InstanceScope? then SectionFiles(InstancePlan(reg)) else []) + ZevNames(reg, m.zevs)
  }

  lemma SectionFilesIff(plan: seq<Section>, n: Name)
    ensures n in SectionFiles(plan) <==> n.SectionFile? && n.section in plan
  {
    if n.SectionFile? && n.section in plan {
      var i :| 0 <= i < |plan| && plan[i] == n.section;
      assert SectionFiles(plan)[i] == n;
    }
  }

  lemma {:induction false} ZevNamesIff(reg: Registry, zevs: seq<Pk>, n: Name)
    ensures n in ZevNames(reg, zevs) <==>
            || (n.SectionFile? && n.section.ZevSection? && n.section.zev in zevs && n.section.i < |reg.zev|)
            || (n.AccountRefs? && n.zev in zevs)
    decreases |zevs|
  {
    if zevs != [] {
      var k := |zevs| - 1;
      ZevNamesIff(reg, zevs[..k], n);
      ZevPlanSections(reg, zevs[k]);
      SectionFilesIff(ZevPlan(reg, zevs[k], |reg.zev|), n);
      assert zevs == zevs[..k] + [zevs[k]];
    }
  }

  /** The list of names to look for is complete and has nothing else. */
  lemma ExpectedIff(reg: Registry, m: Manifest, n: Name)
    ensures n in ExpectedSections(reg, m) <==> Expected(reg, m, n)
  {
    ZevNamesIff(reg, m.zevs, n);
    InstancePlanSections(reg);
    SectionFilesIff(InstancePlan(reg), n);
  }

  // ---- Reading members ----

  lemma Regroup(a: Bytes, b: Bytes, c: Bytes)
    ensures a + (b + c) == a + b + c
  {
  }

  method NextBlock(source: ByteStream) returns (block: Bytes)
    requires source.Valid()
    modifies source`position
    ensures source.Valid() && block + source.Rest() == old(source.Rest())
    ensures block == [] ==> old(source.Rest()) == []
  {
    block := source.Read(COPY_BLOCK);
  }

  /** Digest, size and newlines of a member, read block by block, are those of the whole member. */
  method Measure(f: Format, content: Bytes, counted: bool) returns (digest: string, size: nat, lines: nat)
    ensures digest == f.digest(content) && size == |content|
    ensures lines == if counted then Newlines(content) else 0
  {
    var source := new ByteStream(content);
    assert source.Rest() == content;
    var fed: Bytes := [];
    size, lines := 0, 0;
    var block := NextBlock(source);
    while block != []
      invariant source.Valid() && fresh(source)
      invariant fed + (block + source.Rest()) == content && size == |fed|
      invariant lines == if counted then Newlines(fed) else 0
      invariant block == [] ==> source.Rest() == []
      decreases |block| + |source.Rest()|
    {
      ghost var rest := source.Rest();
      NewlinesAppend(fed, block);
      Regroup(fed, block, rest);
      if counted {
        lines := lines + CountNewlines(block);
      }
      fed, size := fed + block, size + |block|;
      block := NextBlock(source);
    }
    assert block + source.Rest() == [];
    assert fed + [] == fed;
    assert fed == content;
    digest := f.digest(fed);
  }

  function CountNewlines(b: Bytes): (n: nat)
    ensures n == Newlines(b)
  {
    if b == [] then 0
    else
      NewlinesAppend(b[..1], b[1..]);
      assert b == b[..1] + b[1..] && b[..1] == [b[0]];
      assert Newlines([b[0]]) == Newlines([]) + if b[0] == NEWLINE then 1 else 0;
      (if b[0] == NEWLINE then 1 else 0) + CountNewlines(b[1..])
  }

  method VerifyMember(f: Format, a: Archive, n: Name) returns (failures: seq<Failure>)
    requires n in a.manifest.members
    ensures failures == [] <==> Intact(f, a, n)
  {
    var expected := a.manifest.members[n];
    if n !in a.files {
      return [Missing(n)];
    }
    var digest, size, lines := Measure(f, a.files[n], expected.records.Some?);
    failures := [];
    if digest != expected.sha256 {
      failures := [Checksum(n)];
    } else if size != expected.size {
      failures := [Size(n)];
    }
    if expected.records.Some? && lines != expected.records.value {
      failures := failures + [RecordCount(n, lines)];
    }
  }

  method VerifyMembers(f: Format, a: Archive) returns (failures: seq<Failure>)
    ensures failures == [] <==> forall n | n in a.manifest.members :: Intact(f, a, n)
  {
    failures := [];
    var rest := a.manifest.members.Keys;
    while rest != {}
      invariant rest <= a.manifest.members.Keys
      invariant failures == [] <==> forall n | n in a.manifest.members && n !in rest :: Intact(f, a, n)
      decreases rest
    {
      var n :| n in rest;
      var found := VerifyMember(f, a, n);
      failures, rest := failures + found, rest - {n};
    }
  }

  method VerifyNames(reg: Registry, a: Archive) returns (failures: seq<Failure>)
    ensures failures == [] <==>
            && (forall n | n in a.files :: n in a.manifest.members)
            && (forall n | Expected(reg, a.manifest, n) :: n in a.manifest.members)
  {
    failures := [];
    var rest := a.files.Keys;
    while rest != {}
      invariant rest <= a.files.Keys
      invariant failures == [] <==> forall n | n in a.files && n !in rest :: n in a.manifest.members
      decreases rest
    {
      var n :| n in rest;
      rest := rest - {n};
      if n !in a.manifest.members {
        failures := failures + [Unlisted(n)];
      }
    }
    var names := ExpectedSections(reg, a.manifest);
    ghost var strays := failures;
    for i := 0 to |names|
      invariant failures == [] <==> strays == [] && forall j | 0 <= j < i :: names[j] in a.manifest.members
    {
      if names[i] !in a.manifest.members {
        failures := failures + [Required(names[i])];
      }
    }
    forall n ensures n in names <==> Expected(reg, a.manifest, n) {
      ExpectedIff(reg, a.manifest, n);
    }
  }

  method VerifyCounts(m: Manifest) returns (failures: seq<Failure>)
    ensures failures == [] <==> forall s | s in m.counts :: CountAgrees(m, s)
  {
    failures := [];
    var rest := m.counts.Keys;
    while rest != {}
      invariant rest <= m.counts.Keys
      invariant failures == [] <==> forall s | s in m.counts && s !in rest :: CountAgrees(m, s)
      decreases rest
    {
      var s :| s in rest;
      rest := rest - {s};
      if SectionFile(s) !in m.members {
        failures := failures + [NoMember(s)];
      } else if m.members[SectionFile(s)].records != Some(m.counts[s]) {
        failures := failures + [SectionCount(s)];
      }
    }
  }

  /** Verification of an open archive accepts exactly what passes. */
  method VerifyOpenArchive(reg: Registry, f: Format, a: Archive) returns (r: Result<nat, seq<Failure>>)
    ensures r.Ok? <==> Passes(reg, f, a)
    ensures r.Ok? ==> r.value == |a.manifest.members|
    ensures r.Err? ==> r.error != []
  {
    var names := VerifyNames(reg, a);
    var members := VerifyMembers(f, a);
    var counts := VerifyCounts(a.manifest);
    var failures := names + members + counts;
    r := if failures == [] then Ok(|a.manifest.members|) else Err(failures);
  }

  // ---- What passing means ----

  /** Every archive the writer builds passes. */
  lemma BuiltPasses(reg: Registry, f: Format, t: Rows, storage: Storage, a: Archive)
    requires Built(reg, f, t, storage, a)
    ensures Passes(reg, f, a)
  {
    var m := a.manifest;
    forall s | Planned(reg, m.scope, m.zevs, s) ensures Written(reg, f, t, a.files, m.members, m.counts, s) {
      PlannedIsWritten(reg, f, t, storage, a, s);
    }
  }

  lemma PlannedIsWritten(reg: Registry, f: Format, t: Rows, storage: Storage, a: Archive, s: Section)
    requires Built(reg, f, t, storage, a) && Planned(reg, a.manifest.scope, a.manifest.zevs, s)
    ensures Written(reg, f, t, a.files, a.manifest.members, a.manifest.counts, s)
  {
    if s.ZevSection? {
      assert HoldsZev(reg, f, t, storage, a.files, a.manifest.members, a.manifest.counts, s.zev);
    }
  }

  ghost predicate Injective(f: Format) {
    forall a, b | f.digest(a) == f.digest(b) :: a == b
  }

  /** Against the manifest of a built archive, exactly the built members with the built bytes pass. */
  lemma OnlyTheBuiltFilesPass(reg: Registry, f: Format, t: Rows, storage: Storage, a: Archive, files: Files)
    requires Built(reg, f, t, storage, a) && Injective(f)
    ensures Passes(reg, f, Archive(a.manifest, files)) <==> files == a.files
  {
    BuiltPasses(reg, f, t, storage, a);
    var b := Archive(a.manifest, files);
    if Passes(reg, f, b) {
      forall n ensures n in files <==> n in a.files {
        if n in a.manifest.members { assert Intact(f, b, n); }
      }
      forall n | n in files ensures files[n] == a.files[n] {
        assert Intact(f, b, n) && Vouches(f, a.manifest.members[n], a.files[n]);
      }
    }
  }

  /**
   * What an accepted archive is, member by member: every file is listed and every listed file is there with the digest and the
   * size recorded for it, and where records are counted it has as many lines; every section count is its file's.
   */
  lemma PassingMeans(reg: Registry, f: Format, a: Archive, n: Name, s: Section)
    requires Passes(reg, f, a)
    ensures n in a.files <==> n in a.manifest.members
    ensures n in a.files ==> a.manifest.members[n].sha256 == f.digest(a.files[n]) && a.manifest.members[n].size == |a.files[n]|
    ensures n in a.files && a.manifest.members[n].records.Some? ==> a.manifest.members[n].records.value == Newlines(a.files[n])
    ensures s in a.manifest.counts ==> SectionFile(s) in a.files && a.manifest.counts[s] == Newlines(a.files[SectionFile(s)])
    ensures Planned(reg, a.manifest.scope, a.manifest.zevs, s) ==> SectionFile(s) in a.files
    ensures forall z | z in a.manifest.zevs :: AccountRefs(z) in a.files
  {
    var m := a.manifest;
    if n in m.members { assert Intact(f, a, n); }
    if s in m.counts {
      assert CountAgrees(m, s);
      assert Intact(f, a, SectionFile(s));
    }
    if Planned(reg, m.scope, m.zevs, s) {
      assert Expected(reg, m, SectionFile(s));
      assert Intact(f, a, SectionFile(s));
    }
    forall z | z in m.zevs ensures AccountRefs(z) in a.files {
      assert Expected(reg, m, AccountRefs(z));
      assert Intact(f, a, AccountRefs(z));
    }
  }
}
