/** Protecting the logins of accounts that a restore makes managers, as a write with a frame. */
module Logins {
  import opened Outcomes
  import opened Registry
  import opened Tables
  import opened References
  import opened Sections
  import opened Dump

  /** The protection of one account, which may refuse, and the session version of an account row. */
  datatype Login = Login(protect: (Rows, Pk) -> Option<Rows>, version: Row -> nat)

  /** Managing access is not yet tied to a login of the account's own. */
  predicate Unprotected(r: Row) {
    Field(r, "independent_login_required") != "True"
  }

  /** The rows protection may write: the account, its credentials and codes, the onboarding links of its participations. */
  predicate OfAccount(t: Rows, u: Pk, k: Key) {
    || k == Key(User, u)
    || ((Credential(k.model) || k.model == ApiKey || k.model == MagicLinkToken) && k in t && u in Linked(t[k].users))
    || OnboardingOf(t, u, k)
  }

  /** An onboarding link of a participation of the account, in whatever community. */
  predicate OnboardingOf(t: Rows, u: Pk, k: Key) {
    && k.model == ParticipantOnboardingToken && k in t && t[k].parent.Some?
    && Key(Participant, t[k].parent.value) in t && u in Linked(t[Key(Participant, t[k].parent.value)].users)
  }

  predicate Revoked(t: Rows, k: Key) {
    k in t && Field(t[k], "revoked_at") != ""
  }

  /** No row is created, only columns that are no references change, and only credentials are deleted. */
  ghost predicate Frame(t: Rows, v: Rows) {
    && (forall k | k in v :: k in t && OnlyFields(t[k], v[k]))
    && (forall k | k in t && !Credential(k.model) :: k in v)
  }

  /** Accounts keep the columns they are recognised by, and their version does not go back. */
  ghost predicate SameIdentities(login: Login, t: Rows, v: Rows) {
    forall k | k in t && k in v && k.model == User ::
      && Field(v[k], "email") == Field(t[k], "email") && Field(v[k], "username") == Field(t[k], "username")
      && login.version(v[k]) >= login.version(t[k])
  }

  /** Onboarding links once revoked stay so. */
  ghost predicate KeepsRevoked(t: Rows, v: Rows) {
    forall k: Key | k.model == ParticipantOnboardingToken && Revoked(t, k) :: Revoked(v, k)
  }

  /**
   * Protecting an account writes its own rows only. If it was not protected before, its sessions are signed out and the
   * onboarding links of all its participations are revoked.
   */
  ghost predicate Protects(login: Login, t: Rows, u: Pk, v: Rows) {
    && (forall k | !OfAccount(t, u, k) :: SameAt(t, v, k))
    && Frame(t, v) && SameIdentities(login, t, v) && KeepsRevoked(t, v)
    && (Key(User, u) in t && Unprotected(t[Key(User, u)]) ==>
          && Key(User, u) in v && login.version(v[Key(User, u)]) > login.version(t[Key(User, u)])
          && forall k | OnboardingOf(t, u, k) :: Revoked(v, k))
  }

  ghost predicate LoginLaw(login: Login) {
    forall t, u | login.protect(t, u).Some? :: Protects(login, t, u, login.protect(t, u).value)
  }

  // ---- Which accounts ----

  /** A managing role in the community, held by a party. */
  predicate ManagingRole(t: Rows, z: Pk, k: Key, party: Pk) {
    && k in t && k.model == ZevPartyRole && t[k].zev == Some(z) && Field(t[k], "role") in {"issuer", "representative"}
    && PartyRef in t[k].refs && t[k].refs[PartyRef] == party
  }

  /** The party is the account's, or a participation of the account is the party's. */
  predicate PartyOf(t: Rows, u: Pk, k: Key, party: Pk) {
    && k in t && u in Linked(t[k].users)
    && ((k.model == Party && k.pk == party) || (k.model == Participant && PartyRef in t[k].refs && t[k].refs[PartyRef] == party))
  }

  predicate Manages(t: Rows, z: Pk, u: Pk) {
    exists r :: r in t.Keys && PartyRef in t[r].refs && ManagingRole(t, z, r, t[r].refs[PartyRef]) &&
                exists k :: k in t.Keys && PartyOf(t, u, k, t[r].refs[PartyRef])
  }

  /** The accounts a restore makes managers without a protected login. */
  function NewlyManaging(t: Rows, z: Pk): set<Pk> {
    set k | k in t.Keys && k.model == User && Unprotected(t[k]) && Manages(t, z, k.pk) :: k.pk
  }

  lemma NewlyManagingIff(t: Rows, z: Pk, u: Pk)
    ensures u in NewlyManaging(t, z) <==> Key(User, u) in t && Unprotected(t[Key(User, u)]) && Manages(t, z, u)
    ensures u in NewlyManaging(t, z) <==>
            && Key(User, u) in t && Field(t[Key(User, u)], "independent_login_required") != "True"
            && exists role, k :: ManagesBy(t, z, u, role, k)
  {
    ManagesIff(t, z, u);
    if Key(User, u) in t && Unprotected(t[Key(User, u)]) && Manages(t, z, u) {
      assert Key(User, u) in t.Keys && Key(User, u).pk == u;
    }
    if u in NewlyManaging(t, z) {
      var k :| k in t.Keys && k.model == User && Unprotected(t[k]) && Manages(t, z, k.pk) && k.pk == u;
      assert k == Key(User, u);
    }
  }

  /**
   * A role of issuer or representative in the community is held by a party that is the account's, or that a participation of
   * the account belongs to.
   */
  ghost predicate ManagesBy(t: Rows, z: Pk, u: Pk, role: Key, k: Key) {
    && role in t && role.model == ZevPartyRole && t[role].zev == Some(z) && PartyRef in t[role].refs
    && (Field(t[role], "role") == "issuer" || Field(t[role], "role") == "representative")
    && k in t && Some(u) in t[k].users
    && (k == Key(Party, t[role].refs[PartyRef]) ||
        (k.model == Participant && PartyRef in t[k].refs && t[k].refs[PartyRef] == t[role].refs[PartyRef]))
  }

  lemma LinkedIff(users: seq<Option<Pk>>, u: Pk)
    ensures u in Linked(users) <==> Some(u) in users
  {
    if Some(u) in users {
      assert Some(u).value == u;
    }
  }

  lemma ManagesByIff(t: Rows, z: Pk, u: Pk, role: Key, k: Key)
    ensures ManagesBy(t, z, u, role, k) <==>
            && role in t && PartyRef in t[role].refs && ManagingRole(t, z, role, t[role].refs[PartyRef])
            && k in t && PartyOf(t, u, k, t[role].refs[PartyRef])
  {
    if k in t { LinkedIff(t[k].users, u); }
  }

  lemma ManagesIff(t: Rows, z: Pk, u: Pk)
    ensures Manages(t, z, u) <==> exists role, k :: ManagesBy(t, z, u, role, k)
  {
    if Manages(t, z, u) {
      var role :| role in t.Keys && PartyRef in t[role].refs && ManagingRole(t, z, role, t[role].refs[PartyRef]) &&
                  exists k :: k in t.Keys && PartyOf(t, u, k, t[role].refs[PartyRef]);
      var k :| k in t.Keys && PartyOf(t, u, k, t[role].refs[PartyRef]);
      ManagesByIff(t, z, u, role, k);
    }
    if role, k :| ManagesBy(t, z, u, role, k) {
      ManagesByIff(t, z, u, role, k);
      assert role in t.Keys && k in t.Keys;
    }
  }

  /** The accounts in some order. */
  ghost predicate Managers(t: Rows, z: Pk, us: seq<Pk>) {
    forall u :: u in us <==> u in NewlyManaging(t, z)
  }

  // ---- One after the other ----

  function ProtectAll(login: Login, t: Rows, us: seq<Pk>): Option<Rows> {
    if us == [] then Some(t)
    else
      var before := ProtectAll(login, t, us[..|us| - 1]);
      if before.None? then None else login.protect(before.value, us[|us| - 1])
  }

  predicate OfAccounts(t: Rows, us: seq<Pk>, k: Key) {
    exists u :: u in us && OfAccount(t, u, k)
  }

  /** A row of an account after earlier writes was one before. */
  lemma OfAccountStays(t: Rows, v: Rows, u: Pk, k: Key)
    requires Frame(t, v) && OfAccount(v, u, k)
    ensures OfAccount(t, u, k)
  {
  }

  lemma FrameCompose(login: Login, t: Rows, v: Rows, w: Rows)
    requires Frame(t, v) && Frame(v, w) && SameIdentities(login, t, v) && SameIdentities(login, v, w)
    ensures Frame(t, w) && SameIdentities(login, t, w)
  {
    forall k | k in t && k in w && k.model == User
      ensures Field(w[k], "email") == Field(t[k], "email") && Field(w[k], "username") == Field(t[k], "username")
      ensures login.version(w[k]) >= login.version(t[k])
    {
      assert k in v;
    }
  }

  /** Protecting accounts writes their rows only. */
  lemma {:induction false} ProtectAllFrame(login: Login, t: Rows, us: seq<Pk>)
    requires LoginLaw(login) && ProtectAll(login, t, us).Some?
    ensures
      var v := ProtectAll(login, t, us).value;
      Frame(t, v) && SameIdentities(login, t, v) && forall k | !OfAccounts(t, us, k) :: SameAt(t, v, k)
    decreases |us|
  {
    if us != [] {
      var n := |us| - 1;
      var u := ProtectAll(login, t, us[..n]).value;
      ProtectAllFrame(login, t, us[..n]);
      assert Protects(login, u, us[n], ProtectAll(login, t, us).value);
      FrameCompose(login, t, u, ProtectAll(login, t, us).value);
      forall k | !OfAccounts(t, us, k) ensures SameAt(t, ProtectAll(login, t, us).value, k) {
        NotOfAccounts(t, u, us, k);
      }
    }
  }

  lemma NotOfAccounts(t: Rows, v: Rows, us: seq<Pk>, k: Key)
    requires us != [] && Frame(t, v) && !OfAccounts(t, us, k)
    ensures !OfAccounts(t, us[..|us| - 1], k) && !OfAccount(v, us[|us| - 1], k)
  {
    var n := |us| - 1;
    assert us == us[..n] + [us[n]];
    if OfAccount(v, us[n], k) {
      OfAccountStays(t, v, us[n], k);
    }
  }

  ghost predicate SignedOut(login: Login, t: Rows, v: Rows, u: Pk) {
    var k := Key(User, u);
    k in t && k in v && login.version(v[k]) > login.version(t[k])
  }

  lemma SignedOutStays(login: Login, t: Rows, w: Rows, v: Rows, u: Pk)
    requires SignedOut(login, t, w, u) && Frame(w, v) && SameIdentities(login, w, v)
    ensures SignedOut(login, t, v, u)
  {
    assert Key(User, u) in v;
  }

  /** Every unprotected account among them is signed out. */
  lemma {:induction false} ProtectAllSignsOut(login: Login, t: Rows, us: seq<Pk>, u: Pk)
    requires LoginLaw(login) && ProtectAll(login, t, us).Some? && u in us && Key(User, u) in t && Unprotected(t[Key(User, u)])
    ensures SignedOut(login, t, ProtectAll(login, t, us).value, u)
    decreases |us|
  {
    var n := |us| - 1;
    assert us == us[..n] + [us[n]];
    var w := ProtectAll(login, t, us[..n]).value;
    assert Protects(login, w, us[n], ProtectAll(login, t, us).value);
    if u in us[..n] {
      ProtectAllSignsOut(login, t, us[..n], u);
      SignedOutStays(login, t, w, ProtectAll(login, t, us).value, u);
    } else {
      OwnRowStays(login, t, us[..n], u);
    }
  }

  /** Every onboarding link of an unprotected account among them is revoked, whichever community it belongs to. */
  lemma {:induction false} ProtectAllRevokes(login: Login, t: Rows, us: seq<Pk>, u: Pk, k: Key)
    requires LoginLaw(login) && ProtectAll(login, t, us).Some? && u in us && Key(User, u) in t && Unprotected(t[Key(User, u)])
    requires OnboardingOf(t, u, k)
    ensures Revoked(ProtectAll(login, t, us).value, k)
    decreases |us|
  {
    var n := |us| - 1;
    assert us == us[..n] + [us[n]];
    var w := ProtectAll(login, t, us[..n]).value;
    ProtectAllFrame(login, t, us[..n]);
    assert Protects(login, w, us[n], ProtectAll(login, t, us).value);
    if u in us[..n] {
      ProtectAllRevokes(login, t, us[..n], u, k);
    } else {
      OwnRowStays(login, t, us[..n], u);
      StillOnboarding(t, w, u, k);
    }
  }

  lemma StillOnboarding(t: Rows, w: Rows, u: Pk, k: Key)
    requires Frame(t, w) && OnboardingOf(t, u, k)
    ensures OnboardingOf(w, u, k)
  {
    var p := Key(Participant, t[k].parent.value);
    assert OnlyFields(t[k], w[k]) && OnlyFields(t[p], w[p]);
  }

  /** So protecting the new managers of one community changes live onboarding links of every community they take part in. */
  lemma OtherCommunitiesAreWritten(login: Login, w: Rows, z: Pk, us: seq<Pk>, u: Pk, k: Key)
    requires LoginLaw(login) && Managers(w, z, us) && ProtectAll(login, w, us).Some?
    requires u in NewlyManaging(w, z) && OnboardingOf(w, u, k) && !Revoked(w, k)
    ensures !SameAt(w, ProtectAll(login, w, us).value, k)
  {
    NewlyManagingIff(w, z, u);
    ProtectAllRevokes(login, w, us, u, k);
  }

  lemma OwnRowStays(login: Login, t: Rows, us: seq<Pk>, u: Pk)
    requires LoginLaw(login) && ProtectAll(login, t, us).Some? && u !in us
    ensures SameAt(t, ProtectAll(login, t, us).value, Key(User, u))
  {
    ProtectAllFrame(login, t, us);
    OwnRowOnly(t, us, u);
  }

  lemma OwnRowOnly(t: Rows, us: seq<Pk>, u: Pk)
    requires u !in us
    ensures !OfAccounts(t, us, Key(User, u))
  {
  }

  /** Nothing at all is written exactly when the restore made nobody a manager without a protected login. */
  lemma NothingWrittenIff(login: Login, t: Rows, z: Pk, us: seq<Pk>)
    requires LoginLaw(login) && Managers(t, z, us) && ProtectAll(login, t, us).Some?
    ensures ProtectAll(login, t, us).value == t <==> us == []
    ensures us == [] <==> NewlyManaging(t, z) == {}
  {
    if us != [] {
      assert us[0] in us;
      NewlyManagingIff(t, z, us[0]);
      ProtectAllSignsOut(login, t, us, us[0]);
    }
    if NewlyManaging(t, z) != {} {
      var u :| u in NewlyManaging(t, z);
      assert u in us;
    }
  }

  // ---- The loop ----

  method ListAccountIds(ids: set<Pk>) returns (us: seq<Pk>)
    ensures forall u :: u in us <==> u in ids
  {
    us := [];
    var rest := ids;
    while rest != {}
      invariant forall u :: u in us <==> u in ids && u !in rest
      decreases rest
    {
      var u :| u in rest;
      us, rest := us + [u], rest - {u};
    }
  }
}
