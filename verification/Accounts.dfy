/** Relinking the accounts a backup refers to: by email, else by username, never by id. */
module Accounts {
  import opened Outcomes
  import opened Registry
  import opened Tables
  import opened Archive
  import opened Dump

  /** `fold` maps an email to its case-insensitive form. */
  function ByEmail(t: Rows, fold: string -> string, email: string): set<Pk> {
    set k | k in t.Keys && k.model == User && fold(Field(t[k], "email")) == fold(email) :: k.pk
  }

  function ByUsername(t: Rows, username: string): set<Pk> {
    set k | k in t.Keys && k.model == User && Field(t[k], "username") == username :: k.pk
  }

  /** The accounts a reference may mean now: those with its email, or failing that those with its username. */
  function Candidates(ref: AccountRef, t: Rows, fold: string -> string): set<Pk> {
    var found := if ref.email != "" then ByEmail(t, fold, ref.email) else {};
    if found == {} && ref.username != "" then ByUsername(t, ref.username) else found
  }

  /** One candidate is the account; none, or several, leave the link empty. */
  ghost predicate Resolves(ref: AccountRef, t: Rows, fold: string -> string, to: Option<Pk>) {
    match to
    case Some(u) => Candidates(ref, t, fold) == {u}
    case None => |Candidates(ref, t, fold)| != 1
  }

  /** The last reference to an id decides. */
  predicate Decides(refs: seq<AccountRef>, i: nat) {
    i < |refs| && forall j | i < j < |refs| :: refs[j].id != refs[i].id
  }

  /** The outcome for every reference, ambiguous and unmatched ones included. */
  ghost predicate IsMapping(refs: seq<AccountRef>, t: Rows, fold: string -> string, mapping: map<Pk, Option<Pk>>) {
    && (forall i: nat | i < |refs| :: refs[i].id in mapping)
    && (forall i: nat | Decides(refs, i) && refs[i].id in mapping :: Resolves(refs[i], t, fold, mapping[refs[i].id]))
    && (forall u | u in mapping :: exists i :: 0 <= i < |refs| && refs[i].id == u)
  }

  lemma MappingStep(
      refs: seq<AccountRef>, t: Rows, fold: string -> string, mapping: map<Pk, Option<Pk>>, ref: AccountRef, to: Option<Pk>)
    requires IsMapping(refs, t, fold, mapping) && Resolves(ref, t, fold, to)
    ensures IsMapping(refs + [ref], t, fold, mapping[ref.id := to])
  {
    var all, mapping' := refs + [ref], mapping[ref.id := to];
    forall i: nat | Decides(all, i) && all[i].id in mapping' ensures Resolves(all[i], t, fold, mapping'[all[i].id]) {
      if i < |refs| {
        assert all[|refs|].id != all[i].id;
        assert forall j | i < j < |refs| :: refs[j] == all[j];
        assert Decides(refs, i);
      }
    }
    forall u | u in mapping' ensures exists i :: 0 <= i < |all| && all[i].id == u {
      if u == ref.id {
        assert all[|refs|].id == u;
      } else {
        var i :| 0 <= i < |refs| && refs[i].id == u;
        assert all[i].id == u;
      }
    }
  }

  lemma SingletonHas(s: set<Pk>, u: Pk)
    requires |s| == 1 && u in s
    ensures s == {u}
  {
    assert |s - {u}| == 0;
  }

  method ResolveOne(ref: AccountRef, t: Rows, fold: string -> string) returns (to: Option<Pk>)
    ensures Resolves(ref, t, fold, to)
  {
    var found := Candidates(ref, t, fold);
    to := None;
    if |found| == 1 {
      var u :| u in found;
      SingletonHas(found, u);
      to := Some(u);
    }
  }

  method ResolveAccounts(refs: seq<AccountRef>, t: Rows, fold: string -> string)
    returns (mapping: map<Pk, Option<Pk>>, missing: seq<AccountRef>)
    ensures IsMapping(refs, t, fold, mapping)
    ensures forall ref | ref in missing :: ref in refs && |Candidates(ref, t, fold)| != 1
    ensures forall i | 0 <= i < |refs| && |Candidates(refs[i], t, fold)| != 1 :: refs[i] in missing
  {
    assert refs[..|refs|] == refs;
    mapping, missing := map[], [];
    for i := 0 to |refs|
      invariant IsMapping(refs[..i], t, fold, mapping)
      invariant forall ref | ref in missing :: ref in refs && |Candidates(ref, t, fold)| != 1
      invariant forall j | 0 <= j < i && |Candidates(refs[j], t, fold)| != 1 :: refs[j] in missing
    {
      assert refs[..i + 1] == refs[..i] + [refs[i]];
      var to := ResolveOne(refs[i], t, fold);
      MappingStep(refs[..i], t, fold, mapping, refs[i], to);
      mapping := mapping[refs[i].id := to];
      if to.None? {
        missing := missing + [refs[i]];
      }
    }
  }

  // ---- When relinking is the identity ----

  /** No two accounts share a username, nor an email up to case. */
  ghost predicate AccountsUnique(t: Rows, fold: string -> string) {
    forall k, l | k in t && l in t && k.model == User && l.model == User && k != l ::
      && Field(t[k], "username") != Field(t[l], "username")
      && (Field(t[k], "email") != "" && Field(t[l], "email") != "" ==> fold(Field(t[k], "email")) != fold(Field(t[l], "email")))
  }

  /** Only the empty email folds to the empty form. */
  ghost predicate FoldKeepsEmpty(fold: string -> string) {
    forall e :: fold(e) == fold("") <==> e == ""
  }

  ghost predicate EmailTaken(t: Rows, fold: string -> string, email: string) {
    exists k :: k in t && k.model == User && fold(Field(t[k], "email")) == fold(email)
  }

  /** The account still answers to the reference: it has the email, or nobody has it and it has the username. */
  ghost predicate StillAnswers(ref: AccountRef, t: Rows, fold: string -> string, u: Pk) {
    && Key(User, u) in t
    && (if ref.email != "" && EmailTaken(t, fold, ref.email) then fold(Field(t[Key(User, u)], "email")) == fold(ref.email)
        else ref.username != "" && Field(t[Key(User, u)], "username") == ref.username)
  }

  /** With unique accounts, a reference resolves to an account exactly when that account still answers to it. */
  lemma ResolvesIff(ref: AccountRef, t: Rows, fold: string -> string, u: Pk)
    requires AccountsUnique(t, fold) && FoldKeepsEmpty(fold)
    ensures Candidates(ref, t, fold) == {u} <==> StillAnswers(ref, t, fold, u)
  {
    var found := ByEmail(t, fold, ref.email);
    if ref.email != "" && EmailTaken(t, fold, ref.email) {
      var k :| k in t && k.model == User && fold(Field(t[k], "email")) == fold(ref.email);
      assert k.pk in found;
      assert Candidates(ref, t, fold) == found;
      EmailHolders(t, fold, ref.email, k.pk);
    } else {
      if ref.email != "" {
        assert found == {} by {
          if v :| v in found {
            HolderKey(t, fold, ref.email, v);
          }
        }
      }
      UsernameHolders(t, fold, ref.username, u);
    }
  }

  lemma EmailHolders(t: Rows, fold: string -> string, email: string, u: Pk)
    requires AccountsUnique(t, fold) && FoldKeepsEmpty(fold) && email != "" && u in ByEmail(t, fold, email)
    ensures ByEmail(t, fold, email) == {u} && Key(User, u) in t && fold(Field(t[Key(User, u)], "email")) == fold(email)
    ensures forall v | Key(User, v) in t && fold(Field(t[Key(User, v)], "email")) == fold(email) :: v == u
  {
    HolderKey(t, fold, email, u);
    forall v | v in ByEmail(t, fold, email) ensures v == u {
      HolderKey(t, fold, email, v);
    }
  }

  lemma HolderKey(t: Rows, fold: string -> string, email: string, u: Pk)
    requires u in ByEmail(t, fold, email)
    ensures Key(User, u) in t && fold(Field(t[Key(User, u)], "email")) == fold(email)
  {
    var k :| k in t.Keys && k.model == User && fold(Field(t[k], "email")) == fold(email) && k.pk == u;
    assert k == Key(User, u);
  }

  lemma UsernameHolders(t: Rows, fold: string -> string, username: string, u: Pk)
    requires AccountsUnique(t, fold)
    ensures ByUsername(t, username) == {u} <==> Key(User, u) in t && Field(t[Key(User, u)], "username") == username
  {
    var s := ByUsername(t, username);
    forall v ensures v in s <==> Key(User, v) in t && Field(t[Key(User, v)], "username") == username {
      if v in s {
        var k :| k in t.Keys && k.model == User && Field(t[k], "username") == username && k.pk == v;
        assert k == Key(User, v);
      }
    }
  }

  /** An account whose email and username did not change answers to the reference taken of it. */
  lemma UnchangedAnswers(before: Row, t: Rows, fold: string -> string, u: Pk)
    requires before.pk == u && Key(User, u) in t && Field(before, "username") != ""
    requires Field(t[Key(User, u)], "username") == Field(before, "username")
    requires Field(t[Key(User, u)], "email") == Field(before, "email")
    ensures StillAnswers(RefTo(before), t, fold, u)
  {
  }

  /** An account that gave its email to another one is relinked to the other. */
  lemma EmailMovedRelinks(fold: string -> string)
    requires FoldKeepsEmpty(fold)
    ensures
      var ref := AccountRef("1", "ann", "ann@zev.ch");
      var ann := Row(User, "1", None, None, [], map[], map["username" := "ann", "email" := ""]);
      var ben := Row(User, "2", None, None, [], map[], map["username" := "ben", "email" := "ann@zev.ch"]);
      var t: Rows := map[Key(User, "1") := ann, Key(User, "2") := ben];
      Candidates(ref, t, fold) == {"2"}
  {
    var ref := AccountRef("1", "ann", "ann@zev.ch");
    var ann := Row(User, "1", None, None, [], map[], map["username" := "ann", "email" := ""]);
    var ben := Row(User, "2", None, None, [], map[], map["username" := "ben", "email" := "ann@zev.ch"]);
    var t: Rows := map[Key(User, "1") := ann, Key(User, "2") := ben];
    var found := ByEmail(t, fold, ref.email);
    assert Key(User, "2") in t.Keys && fold(Field(t[Key(User, "2")], "email")) == fold(ref.email);
    assert "2" in found;
    assert fold("ann@zev.ch") != fold("");
    assert found == {"2"};
  }

  // ---- Rewriting links ----

  /** A link to an account the mapping does not resolve is cleared. */
  function Relinked(mapping: map<Pk, Option<Pk>>, o: Option<Pk>): Option<Pk> {
    if o.Some? && o.value in mapping then mapping[o.value] else None
  }

  /** Point a row's links at today's accounts. */
  function Relink(mapping: map<Pk, Option<Pk>>): Row -> Row {
    (r: Row) => r.(users := seq(|r.users|, i requires 0 <= i < |r.users| => Relinked(mapping, r.users[i])))
  }

  predicate Fixed(mapping: map<Pk, Option<Pk>>, u: Pk) {
    u in mapping && mapping[u] == Some(u)
  }

  ghost predicate FixesLinks(mapping: map<Pk, Option<Pk>>, r: Row) {
    forall u | u in Linked(r.users) :: Fixed(mapping, u)
  }

  /** A row survives relinking exactly when each account it names is linked to itself. */
  lemma RelinkIsIdentityIff(mapping: map<Pk, Option<Pk>>, r: Row)
    ensures Relink(mapping)(r) == r <==> FixesLinks(mapping, r)
  {
    var r' := Relink(mapping)(r);
    if FixesLinks(mapping, r) {
      forall i | 0 <= i < |r.users| ensures r'.users[i] == r.users[i] {
        if r.users[i].Some? {
          assert r.users[i] in r.users;
          assert r.users[i].value in Linked(r.users);
        }
      }
    }
    if r' == r {
      forall u | u in Linked(r.users) ensures Fixed(mapping, u) {
        var i :| 0 <= i < |r.users| && r.users[i] == Some(u);
        assert r'.users[i] == r.users[i];
      }
    }
  }
}
