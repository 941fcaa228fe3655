/** Which accounts the rows of a restored community are linked to. */
module ZevLinks {
  import opened Outcomes
  import opened Registry
  import opened Tables
  import opened Sections
  import opened Archive
  import opened Dump
  import opened Loader
  import opened InstanceRestore
  import opened Accounts
  import opened Logins
  import opened ZevClear
  import opened ZevRestore
  import opened ZevLaws
  import opened ZevUndo

  /** The account, and no other, answers to the reference. */
  ghost predicate OneAnswers(ref: AccountRef, t: Rows, fold: string -> string, u: Pk) {
    StillAnswers(ref, t, fold, u) && forall w | StillAnswers(ref, t, fold, w) :: w == u
  }

  lemma EmailHolderIff(t: Rows, fold: string -> string, email: string, u: Pk)
    ensures u in ByEmail(t, fold, email) <==> Key(User, u) in t && fold(Field(t[Key(User, u)], "email")) == fold(email)
  {
    if u in ByEmail(t, fold, email) {
      HolderKey(t, fold, email, u);
    }
    if Key(User, u) in t && fold(Field(t[Key(User, u)], "email")) == fold(email) {
      assert Key(User, u) in t.Keys && Key(User, u).pk == u;
    }
  }

  lemma UsernameHolderIff(t: Rows, username: string, u: Pk)
    ensures u in ByUsername(t, username) <==> Key(User, u) in t && Field(t[Key(User, u)], "username") == username
  {
    if u in ByUsername(t, username) {
      var k :| k in t.Keys && k.model == User && Field(t[k], "username") == username && k.pk == u;
      assert k == Key(User, u);
    }
    if Key(User, u) in t && Field(t[Key(User, u)], "username") == username {
      assert Key(User, u) in t.Keys && Key(User, u).pk == u;
    }
  }

  lemma EmailTakenIff(t: Rows, fold: string -> string, email: string)
    ensures EmailTaken(t, fold, email) <==> ByEmail(t, fold, email) != {}
  {
    if EmailTaken(t, fold, email) {
      var k :| k in t && k.model == User && fold(Field(t[k], "email")) == fold(email);
      assert k.pk in ByEmail(t, fold, email);
    }
    if u :| u in ByEmail(t, fold, email) {
      EmailHolderIff(t, fold, email, u);
    }
  }

  /** The candidates of a reference are the accounts that answer to it. */
  lemma CandidateIff(ref: AccountRef, t: Rows, fold: string -> string, u: Pk)
    ensures u in Candidates(ref, t, fold) <==> StillAnswers(ref, t, fold, u)
  {
    EmailTakenIff(t, fold, ref.email);
    EmailHolderIff(t, fold, ref.email, u);
    UsernameHolderIff(t, ref.username, u);
  }

  lemma OneCandidateIff(ref: AccountRef, t: Rows, fold: string -> string, u: Pk)
    ensures Candidates(ref, t, fold) == {u} <==> OneAnswers(ref, t, fold, u)
  {
    forall w ensures w in Candidates(ref, t, fold) <==> StillAnswers(ref, t, fold, w) {
      CandidateIff(ref, t, fold, w);
    }
  }

  lemma SizeOne(s: set<Pk>)
    ensures |s| == 1 <==> exists u :: s == {u}
  {
    if |s| == 1 {
      var u :| u in s;
      SingletonHas(s, u);
    }
  }

  lemma ResolvedTo(ref: AccountRef, t: Rows, fold: string -> string, to: Option<Pk>, u: Pk)
    requires Resolves(ref, t, fold, to)
    ensures to == Some(u) <==> OneAnswers(ref, t, fold, u)
  {
    OneCandidateIff(ref, t, fold, u);
    SizeOne(Candidates(ref, t, fold));
  }

  /** The archive's reference to an id, the last one if there are several, is answered by the account and no other. */
  ghost predicate Means(refs: seq<AccountRef>, t: Rows, fold: string -> string, id: Pk, u: Pk) {
    exists i: nat :: Decides(refs, i) && refs[i].id == id && OneAnswers(refs[i], t, fold, u)
  }

  lemma {:induction false} LastDecides(refs: seq<AccountRef>, id: Pk, n: nat) returns (i: nat)
    requires n <= |refs| && (forall j | n <= j < |refs| :: refs[j].id != id) && exists j :: 0 <= j < n && refs[j].id == id
    ensures Decides(refs, i) && refs[i].id == id
    decreases n
  {
    if refs[n - 1].id == id {
      i := n - 1;
    } else {
      i := LastDecides(refs, id, n - 1);
    }
  }

  /** What the mapping says of an id. */
  lemma MappedIff(refs: seq<AccountRef>, t: Rows, fold: string -> string, mapping: map<Pk, Option<Pk>>, id: Pk, u: Pk)
    requires IsMapping(refs, t, fold, mapping)
    ensures id in mapping && mapping[id] == Some(u) <==> Means(refs, t, fold, id, u)
  {
    forall i: nat | Decides(refs, i) && refs[i].id == id
      ensures id in mapping && (mapping[id] == Some(u) <==> OneAnswers(refs[i], t, fold, u))
    {
      assert Resolves(refs[i], t, fold, mapping[refs[i].id]);
      ResolvedTo(refs[i], t, fold, mapping[id], u);
    }
    if id in mapping {
      var i := LastDecides(refs, id, |refs|);
    }
  }

  /**
   * A restored row against the archive's record of it: an empty link stays empty, any other is to the one account that
   * answers today to the archive's reference with its id, and empty if there is no such account or reference; nothing else
   * in the row differs.
   */
  ghost predicate LinkedToday(refs: seq<AccountRef>, t: Rows, fold: string -> string, record: Row, row: Row) {
    && row == record.(users := row.users) && |row.users| == |record.users|
    && forall i | 0 <= i < |record.users| :: LinkedAt(refs, t, fold, record.users[i], row.users[i])
  }

  ghost predicate LinkedAt(refs: seq<AccountRef>, t: Rows, fold: string -> string, id: Option<Pk>, now: Option<Pk>) {
    && (id.None? ==> now.None?)
    && (id.Some? ==> forall u :: now == Some(u) <==> Means(refs, t, fold, id.value, u))
  }

  lemma RelinkLinksToday(refs: seq<AccountRef>, t: Rows, fold: string -> string, mapping: map<Pk, Option<Pk>>, record: Row)
    requires IsMapping(refs, t, fold, mapping)
    ensures LinkedToday(refs, t, fold, record, Relink(mapping)(record))
  {
    var row := Relink(mapping)(record);
    forall i | 0 <= i < |record.users| ensures LinkedAt(refs, t, fold, record.users[i], row.users[i]) {
      RelinkedAt(refs, t, fold, mapping, record.users[i]);
    }
  }

  lemma RelinkedIff(mapping: map<Pk, Option<Pk>>, link: Option<Pk>, u: Pk)
    ensures Relinked(mapping, link) == Some(u) <==> link.Some? && link.value in mapping && mapping[link.value] == Some(u)
  {
  }

  lemma RelinkedAt(refs: seq<AccountRef>, t: Rows, fold: string -> string, mapping: map<Pk, Option<Pk>>, link: Option<Pk>)
    requires IsMapping(refs, t, fold, mapping)
    ensures LinkedAt(refs, t, fold, link, Relinked(mapping, link))
  {
    forall u ensures Relinked(mapping, link) == Some(u) <==> link.Some? && link.value in mapping && mapping[link.value] == Some(u) {
      RelinkedIff(mapping, link, u);
    }
    if link.Some? {
      forall u ensures link.value in mapping && mapping[link.value] == Some(u) <==> Means(refs, t, fold, link.value, u) {
        MappedIff(refs, t, fold, mapping, link.value, u);
      }
    }
  }

  /** Every record of the archive is in the tables a restore loads, linked to today's accounts. */
  ghost predicate AllLinkedToday(
      site: Site, f: Format, a: Archive, refs: seq<AccountRef>, t: Rows, z: Pk, fold: string -> string, w: Rows)
  {
    forall record | record in RestRows(site.reg, f, a, z, Same) || record == ZevRow(f, a, z) ::
      KeyOf(record) in w && LinkedToday(refs, t, fold, record, w[KeyOf(record)])
  }

  lemma RecordIsLoaded(
      site: Site, f: Format, a: Archive, t: Rows, z: Pk, mapping: map<Pk, Option<Pk>>, w: Rows, us: seq<Pk>,
      counts: map<Model, nat>, v: Rows, record: Row)
    requires Sound(site) && Keyed(t) && ZevRestored(site, f, a, t, z, Relink(mapping), w, us, counts, v)
    requires record in RestRows(site.reg, f, a, z, Same) || record == ZevRow(f, a, z)
    ensures KeyOf(record) in w && w[KeyOf(record)] == Relink(mapping)(record)
  {
    RelinkOnlyLinks(mapping);
    RestoredIsReplaced(site, f, a, t, z, Relink(mapping), w, us, counts, v);
    StreamMapped(AllRest(site.reg, z), f, a.files, Relink(mapping));
    SurvivorsStay(
      site.reg, site.schema, t, z, Contracts(site.reg, f, a, z), Relink(mapping)(ZevRow(f, a, z)),
      RestRows(site.reg, f, a, z, Relink(mapping)), w);
    if record in RestRows(site.reg, f, a, z, Same) { MappedHas(Relink(mapping), RestRows(site.reg, f, a, z, Same), record); }
    assert KeyOf(Relink(mapping)(record)) == KeyOf(record);
  }

  /** After every restore that goes through, each record's links are to the accounts its references mean today. */
  lemma RestoredLinks(
      site: Site, f: Format, a: Archive, t: Rows, z: Pk, fold: string -> string, admissible: Rows -> bool,
      mapping: map<Pk, Option<Pk>>, w: Rows, us: seq<Pk>, counts: map<Model, nat>, v: Rows)
    requires Sound(site) && Keyed(t) && Committed(site, f, a, t, z, fold, admissible, mapping, w, us, counts, v)
    ensures AccountRefs(z) in a.files && f.refs.decode(a.files[AccountRefs(z)]).Some?
    ensures AllLinkedToday(site, f, a, f.refs.decode(a.files[AccountRefs(z)]).value, t, z, fold, w)
  {
    var refs := f.refs.decode(a.files[AccountRefs(z)]).value;
    forall record | record in RestRows(site.reg, f, a, z, Same) || record == ZevRow(f, a, z)
      ensures KeyOf(record) in w && LinkedToday(refs, t, fold, record, w[KeyOf(record)])
    {
      RecordIsLoaded(site, f, a, t, z, mapping, w, us, counts, v, record);
      RelinkLinksToday(refs, t, fold, mapping, record);
    }
  }
}
