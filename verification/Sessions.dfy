/** Session versions, password-reset links and saves of stale account instances, as interleaved steps on one account. */
module Sessions {
  import opened Outcomes

  type Pk = nat

  /** The account row. An unusable password is absent; `profile` stands for every other column. */
  datatype Account = Account(
    pk: Pk, email: string, password: Option<string>, passwordFromLink: bool, independentLogin: bool,
    active: bool, profile: int, sessionVersion: nat)

  /** An instance in memory, perhaps stale; `passwordSet` when a password was set on it on purpose. */
  datatype Copy = Copy(account: Account, passwordSet: bool)

  /** The columns an explicit `update_fields` names somewhere in the code base; the session version is never among them. */
  datatype Field = Email | Password | PasswordFromLink | IndependentLogin | Active | Profile

  // ---- Saving ----

  function Written(row: Account, from: Account, fields: set<Field>): Account {
    row.(
      email := if Email in fields then from.email else row.email,
      password := if Password in fields then from.password else row.password,
      passwordFromLink := if PasswordFromLink in fields then from.passwordFromLink else row.passwordFromLink,
      independentLogin := if IndependentLogin in fields then from.independentLogin else row.independentLogin,
      active := if Active in fields then from.active else row.active,
      profile := if Profile in fields then from.profile else row.profile)
  }

  /** The fields a plain `save()` writes: everything but session and credential state, unless a password was set. */
  function PlainFields(passwordSet: bool): set<Field> {
    {Email, Active, Profile} + if passwordSet then {Password, PasswordFromLink} else {}
  }

  // ---- Tokens ----

  /** A session token carries the version it was issued under. */
  datatype Token = Token(version: nat, participantLink: bool)

  /** Whether a token belongs to the account's current session; `independent` is what the community module requires. */
  predicate IsSessionCurrent(t: Token, row: Account, independent: bool) {
    t.version == row.sessionVersion && (t.participantLink ==> !independent)
  }

  /** The state a reset link is bound to, in place of its keyed hash. */
  datatype Fingerprint = Fingerprint(pk: Pk, email: string, password: Option<string>, sessionVersion: nat)

  datatype ResetToken = ResetToken(pk: Pk, state: Fingerprint)

  function StateFingerprint(a: Account): Fingerprint {
    Fingerprint(a.pk, a.email, a.password, a.sessionVersion)
  }

  function IssueToken(a: Account): ResetToken {
    ResetToken(a.pk, StateFingerprint(a))
  }

  predicate CanReset(a: Account, independent: bool) {
    a.active && a.email != "" && (a.password.Some? || independent)
  }

  /** Whether a link still resolves to the account; `alive` is a valid signature within its lifetime. */
  predicate Resolves(t: ResetToken, a: Account, alive: bool, independent: bool) {
    alive && CanReset(a, independent) && a.pk == t.pk && StateFingerprint(a) == t.state
  }

  function Revoked(a: Account): Account {
    a.(sessionVersion := a.sessionVersion + 1)
  }

  /** Applying a link: the new password, then every session revoked. */
  function ResetTo(a: Account, password: string): Account {
    Revoked(a.(password := Some(password), passwordFromLink := false))
  }

  /** The account row as the code updates it. */
  class AccountRow {
    var row: Account

    constructor (initial: Account)
      ensures row == initial
    {
      row := initial;
    }

    method Save(copy: Copy)
      modifies this
      ensures row == Written(old(row), copy.account, PlainFields(copy.passwordSet))
      ensures row.email == copy.account.email && row.active == copy.account.active && row.profile == copy.account.profile
      ensures row.pk == old(row).pk && row.sessionVersion == old(row).sessionVersion
      ensures row.independentLogin == old(row).independentLogin
      ensures row.password == (if copy.passwordSet then copy.account else old(row)).password
      ensures row.passwordFromLink == (if copy.passwordSet then copy.account else old(row)).passwordFromLink
    {
      var a := copy.account;
      row := row.(email := a.email, active := a.active, profile := a.profile);
      if copy.passwordSet {
        row := row.(password := a.password, passwordFromLink := a.passwordFromLink);
      }
    }

    method RevokeSessions()
      modifies this
      ensures row == Revoked(old(row)) == old(row).(sessionVersion := old(row).sessionVersion + 1)
    {
      row := row.(sessionVersion := row.sessionVersion + 1);
    }

    /** The locked half of the reset view: check the link again, then write the password and revoke. */
    method ConfirmReset(t: ResetToken, alive: bool, independent: bool, password: string) returns (ok: bool)
      modifies this
      ensures ok == Resolves(t, old(row), alive, independent)
      ensures ok ==> row.password == Some(password) && !row.passwordFromLink && row.sessionVersion == old(row).sessionVersion + 1
      ensures ok ==> row.pk == old(row).pk && row.email == old(row).email && row.active == old(row).active
      ensures ok ==> row.profile == old(row).profile && row.independentLogin == old(row).independentLogin
      ensures row == if ok then ResetTo(old(row), password) else old(row)
    {
      ok := Resolves(t, row, alive, independent);
      if ok {
        row := row.(password := Some(password), passwordFromLink := false);
        RevokeSessions();
      }
    }
  }

  // ---- Interleavings ----

  type Client = nat

  datatype State = State(
    row: Account, copies: map<Client, Copy>, issued: set<Token>, pending: map<Client, ResetToken>, applied: seq<ResetToken>)

  datatype Step =
    | Load(client: Client)
    | Edit(client: Client, email: string, active: bool, profile: int)
    | SetPassword(client: Client, password: Option<string>)
    | Save(client: Client)
    | SaveFields(client: Client, fields: set<Field>)
    | UpgradeHash(verified: string, encoded: string)
    | Login(client: Client, participantLink: bool)
    | Revoke
    | ProtectLogin(invited: bool)
    | BeginReset(client: Client, token: ResetToken, alive: bool, independent: bool)
    | FinishReset(client: Client, alive: bool, independent: bool, newPassword: string)

  function Next(s: State, step: Step): State {
    match step
    case Load(c) => s.(copies := s.copies[c := Copy(s.row, false)])
    case Edit(c, email, active, profile) =>
      if c in s.copies
      then s.(copies := s.copies[c := s.copies[c].(account := s.copies[c].account.(email := email, active := active, profile := profile))])
      else s
    case SetPassword(c, password) =>
      if c in s.copies
      then s.(copies := s.copies[c := Copy(s.copies[c].account.(password := password), true)]) else s
    case Save(c) =>
      if c in s.copies
      then s.(row := Written(s.row, s.copies[c].account, PlainFields(s.copies[c].passwordSet))) else s
    case SaveFields(c, fields) =>
      if c in s.copies then s.(row := Written(s.row, s.copies[c].account, fields)) else s
    case UpgradeHash(verified, encoded) =>
      if s.row.password == Some(verified) then s.(row := s.row.(password := Some(encoded))) else s
    case Login(c, link) =>
      if c in s.copies then s.(issued := s.issued + {Token(s.copies[c].account.sessionVersion, link)}) else s
    case Revoke => s.(row := Revoked(s.row))
    case ProtectLogin(invited) =>
      if s.row.independentLogin then s
      else
        var a := if s.row.passwordFromLink then s.row.(password := None, passwordFromLink := false) else s.row;
        s.(row := Revoked(a).(independentLogin := !invited))
    case BeginReset(c, token, alive, independent) =>
      if Resolves(token, s.row, alive, independent) then s.(pending := s.pending[c := token]) else s
    case FinishReset(c, alive, independent, password) =>
      if c in s.pending && Resolves(s.pending[c], s.row, alive, independent)
      then s.(row := ResetTo(s.row, password), pending := s.pending - {c}, applied := s.applied + [s.pending[c]])
      else s.(pending := s.pending - {c})
  }

  function Run(s: State, steps: seq<Step>): State {
    if steps == [] then s else Next(Run(s, steps[..|steps| - 1]), steps[|steps| - 1])
  }

  function Init(row: Account): State {
    State(row, map[], {}, map[], [])
  }

  // ---- The version only grows ----

  lemma VersionGrows(s: State, step: Step)
    ensures Next(s, step).row.sessionVersion >= s.row.sessionVersion
  {
  }

  lemma {:induction false} VersionGrowsOverRuns(s: State, steps: seq<Step>)
    ensures Run(s, steps).row.sessionVersion >= s.row.sessionVersion
  {
    if steps != [] {
      VersionGrowsOverRuns(s, steps[..|steps| - 1]);
      VersionGrows(Run(s, steps[..|steps| - 1]), steps[|steps| - 1]);
    }
  }

  lemma {:induction false} RunSplit(s: State, first: seq<Step>, rest: seq<Step>)
    ensures Run(s, first + rest) == Run(Run(s, first), rest)
  {
    if rest == [] {
      assert first + rest == first;
    } else {
      var n := |rest| - 1;
      assert (first + rest)[..|first| + n] == first + rest[..n];
      RunSplit(s, first, rest[..n]);
    }
  }

  /** Copies, tokens and applied links never run ahead of the row, and an applied link is behind it for good. */
  ghost predicate Behind(s: State) {
    && (forall c | c in s.copies :: s.copies[c].account.sessionVersion <= s.row.sessionVersion)
    && (forall t | t in s.issued :: t.version <= s.row.sessionVersion)
    && (forall i | 0 <= i < |s.applied| :: s.applied[i].state.sessionVersion < s.row.sessionVersion)
    && (forall i, j | 0 <= i < j < |s.applied| :: s.applied[i] != s.applied[j])
  }

  lemma StepBehind(s: State, step: Step)
    requires Behind(s)
    ensures Behind(Next(s, step))
  {
  }

  lemma {:induction false} RunBehind(row: Account, steps: seq<Step>)
    ensures Behind(Run(Init(row), steps))
  {
    if steps != [] {
      RunBehind(row, steps[..|steps| - 1]);
      StepBehind(Run(Init(row), steps[..|steps| - 1]), steps[|steps| - 1]);
    }
  }

  /** A token once refused for its version is refused in every later state, whatever stale instances are saved. */
  lemma RefusedForever(row: Account, first: seq<Step>, rest: seq<Step>, t: Token, independent: bool)
    requires t in Run(Init(row), first).issued
    requires t.version != Run(Init(row), first).row.sessionVersion
    ensures !IsSessionCurrent(t, Run(Init(row), first + rest).row, independent)
  {
    RunBehind(row, first);
    RunSplit(Init(row), first, rest);
    VersionGrowsOverRuns(Run(Init(row), first), rest);
  }

  /** Revoking refuses every token issued so far, now and later. */
  lemma RevokeRefusesAll(row: Account, first: seq<Step>, rest: seq<Step>, t: Token, independent: bool)
    requires t in Run(Init(row), first).issued
    ensures !IsSessionCurrent(t, Run(Init(row), first + [Revoke] + rest).row, independent)
  {
    var s := Run(Init(row), first);
    RunBehind(row, first);
    assert (first + [Revoke])[..|first|] == first;
    assert Run(Init(row), first + [Revoke]) == Next(s, Revoke);
    RefusedForever(row, first + [Revoke], rest, t, independent);
  }

  /** No reset link is ever applied twice, however its opens and other changes interleave. */
  lemma ResetLinkWorksOnce(row: Account, steps: seq<Step>, i: nat, j: nat)
    requires i < j < |Run(Init(row), steps).applied|
    ensures Run(Init(row), steps).applied[i] != Run(Init(row), steps).applied[j]
  {
    RunBehind(row, steps);
  }

  /** A link resolves exactly on an account that may be reset and whose address, password and version are those it was issued for. */
  lemma LinkResolvesIff(a: Account, b: Account, alive: bool, independent: bool)
    ensures Resolves(IssueToken(a), b, alive, independent) <==>
            && alive && b.active && b.email != "" && (b.password.Some? || independent)
            && b.pk == a.pk && b.email == a.email && b.password == a.password && b.sessionVersion == a.sessionVersion
  {
  }

  /** A step that adds to the applied links set the password it was given, signed every session out, and changed nothing else. */
  lemma AppliedSetsPassword(s: State, step: Step)
    requires |Next(s, step).applied| > |s.applied|
    ensures step.FinishReset? && step.client in s.pending && Next(s, step).applied == s.applied + [s.pending[step.client]]
    ensures Next(s, step).row ==
            s.row.(password := Some(step.newPassword), passwordFromLink := false, sessionVersion := s.row.sessionVersion + 1)
  {
  }

  /** A link of today, opened and confirmed with nothing in between, goes through exactly when the account may be reset. */
  lemma ResetGoesThroughIff(s: State, c: Client, independent: bool, password: string)
    ensures
      var t := Next(Next(s, BeginReset(c, IssueToken(s.row), true, independent)), FinishReset(c, true, independent, password));
      (c !in s.pending ==>
        (t.applied == s.applied + [IssueToken(s.row)] <==>
         s.row.active && s.row.email != "" && (s.row.password.Some? || independent)))
  {
    LinkResolvesIff(s.row, s.row, true, independent);
    var mid := Next(s, BeginReset(c, IssueToken(s.row), true, independent));
    assert mid.row == s.row && mid.applied == s.applied;
    assert |s.applied + [IssueToken(s.row)]| == |s.applied| + 1;
  }

  /** Protecting a login ends with no password from a participant's link, signs out, and requires an own login unless invited. */
  lemma ProtectedLogin(s: State, invited: bool)
    requires !s.row.independentLogin
    ensures
      var row := Next(s, ProtectLogin(invited)).row;
      && !row.passwordFromLink && row.sessionVersion == s.row.sessionVersion + 1 && row.independentLogin == !invited
      && row.password == (if s.row.passwordFromLink then None else s.row.password)
      && row.pk == s.row.pk && row.email == s.row.email && row.active == s.row.active && row.profile == s.row.profile
  {
  }

  /**
   * A password hash upgraded late: after a reset that went through, upgrading the hash that was checked before it changes
   * nothing, unless it is the very one the reset stored.
   */
  lemma LateUpgradeKeepsNewPassword(s: State, reset: Step, verified: string, encoded: string)
    requires |Next(s, reset).applied| > |s.applied| && verified != reset.newPassword
    ensures Next(Next(s, reset), UpgradeHash(verified, encoded)) == Next(s, reset)
  {
    AppliedSetsPassword(s, reset);
  }

  /** Saving named columns writes those and no others; the session version is never among them. */
  lemma NamedColumnsOnly(s: State, c: Client, fields: set<Field>)
    requires c in s.copies
    ensures
      var row, from := Next(s, SaveFields(c, fields)).row, s.copies[c].account;
      && row.email == (if Email in fields then from else s.row).email
      && row.password == (if Password in fields then from else s.row).password
      && row.passwordFromLink == (if PasswordFromLink in fields then from else s.row).passwordFromLink
      && row.independentLogin == (if IndependentLogin in fields then from else s.row).independentLogin
      && row.active == (if Active in fields then from else s.row).active
      && row.profile == (if Profile in fields then from else s.row).profile
      && row.pk == s.row.pk && row.sessionVersion == s.row.sessionVersion
  {
  }

  /** A step that ends no session. */
  predicate SignsNobodyOut(step: Step) {
    !step.Revoke? && !step.ProtectLogin? && !step.FinishReset?
  }

  /**
   * A token issued to a client that has just loaded the account is current through every run that signs nobody out, except
   * that a participant's link is not where an independent login is required.
   */
  lemma {:induction false} SessionLasts(s: State, c: Client, link: bool, rest: seq<Step>, independent: bool)
    requires forall step | step in rest :: SignsNobodyOut(step)
    ensures
      var begun := Next(Next(s, Load(c)), Login(c, link));
      var t := Token(s.row.sessionVersion, link);
      && t in Run(begun, rest).issued && Run(begun, rest).row.sessionVersion == s.row.sessionVersion
      && (IsSessionCurrent(t, Run(begun, rest).row, independent) <==> !(link && independent))
  {
    if rest != [] {
      SessionLasts(s, c, link, rest[..|rest| - 1], independent);
      assert SignsNobodyOut(rest[|rest| - 1]);
    }
  }

  /** A link issued before a revocation, in any state, no longer resolves in any later one. */
  lemma RevokedLinkStaysDead(s: State, between: seq<Step>, rest: seq<Step>, alive: bool, independent: bool)
    ensures !Resolves(IssueToken(s.row), Run(Next(Run(s, between), Revoke), rest).row, alive, independent)
  {
    VersionGrowsOverRuns(s, between);
    VersionGrowsOverRuns(Next(Run(s, between), Revoke), rest);
  }

  /** A step of a client that sets no password: loading, editing, saving, signing in, revoking. */
  predicate SetsNoPassword(step: Step) {
    step.Load? || step.Edit? || step.Save? || step.Login? || step.Revoke?
  }

  ghost predicate NonePending(s: State) {
    forall c | c in s.copies :: !s.copies[c].passwordSet
  }

  /** Credentials and the login requirement. */
  ghost predicate SameCredentials(a: Account, b: Account) {
    a.password == b.password && a.passwordFromLink == b.passwordFromLink && a.independentLogin == b.independentLogin
  }

  lemma HarmlessStep(s: State, step: Step)
    requires NonePending(s) && SetsNoPassword(step)
    ensures NonePending(Next(s, step)) && SameCredentials(s.row, Next(s, step).row)
  {
  }

  /**
   * However stale the instances are that clients have loaded and edited, saving them in any order brings back neither an old
   * password nor an old login requirement.
   */
  lemma {:induction false} StaleSavesAreHarmless(s: State, steps: seq<Step>)
    requires NonePending(s) && forall step | step in steps :: SetsNoPassword(step)
    ensures NonePending(Run(s, steps)) && SameCredentials(s.row, Run(s, steps).row)
  {
    if steps != [] {
      var n := |steps| - 1;
      StaleSavesAreHarmless(s, steps[..n]);
      HarmlessStep(Run(s, steps[..n]), steps[n]);
    }
  }

  // ---- One-time codes ----

  /** The first step of the skew window whose code is the given one, from the earliest. */
  method MatchingStep(codeAt: int -> string, base: int, window: nat, code: string) returns (r: Option<int>)
    ensures r.Some? ==> base - window <= r.value <= base + window && codeAt(r.value) == code
    ensures r.Some? ==> forall k | base - window <= k < r.value :: codeAt(k) != code
    ensures r.None? ==> forall k | base - window <= k <= base + window :: codeAt(k) != code
  {
    for offset: int := 0 - window to window + 1
      invariant forall k | base - window <= k < base + offset :: codeAt(k) != code
    {
      if codeAt(base + offset) == code {
        return Some(base + offset);
      }
    }
    return None;
  }

  datatype Refusal = InvalidCode | ReplayedCode

  class TotpDevice {
    var lastUsedStep: Option<int>

    constructor ()
      ensures lastUsedStep == None
    {
      lastUsedStep := None;
    }

    /** Check a code's matched step under the row lock and record it. */
    method CheckCode(matched: Option<int>) returns (r: Result<int, Refusal>)
      modifies this
      ensures r.Ok? ==> matched == Some(r.value) && lastUsedStep == matched
      ensures r.Ok? ==> old(lastUsedStep).None? || r.value > old(lastUsedStep).value
      ensures r.Err? ==> lastUsedStep == old(lastUsedStep)
      ensures r == Err(InvalidCode) <==> matched.None?
      ensures r == Err(ReplayedCode) <==>
              matched.Some? && old(lastUsedStep).Some? && matched.value <= old(lastUsedStep).value
    {
      if matched.None? {
        return Err(InvalidCode);
      }
      if lastUsedStep.Some? && matched.value <= lastUsedStep.value {
        return Err(ReplayedCode);
      }
      lastUsedStep := matched;
      return Ok(matched.value);
    }
  }

  /** Submissions match a step before they take the lock; `accepted` lists the steps accepted so far. */
  datatype Device = Device(lastUsed: Option<int>, waiting: map<Client, int>, accepted: seq<int>)

  datatype Submission = Match(client: Client, step: int) | Check(client: Client)

  function Submit(d: Device, s: Submission): Device {
    match s
    case Match(c, step) => d.(waiting := d.waiting[c := step])
    case Check(c) =>
      if c in d.waiting && (d.lastUsed.None? || d.waiting[c] > d.lastUsed.value)
      then Device(Some(d.waiting[c]), d.waiting - {c}, d.accepted + [d.waiting[c]])
      else d.(waiting := d.waiting - {c})
  }

  function SubmitAll(d: Device, ss: seq<Submission>): Device {
    if ss == [] then d else Submit(SubmitAll(d, ss[..|ss| - 1]), ss[|ss| - 1])
  }

  /** Accepted steps strictly increase, so no step is accepted twice (section 5.2 of RFC 6238). */
  lemma {:induction false} AcceptedStepsIncrease(ss: seq<Submission>)
    ensures
      var d := SubmitAll(Device(None, map[], []), ss);
      && (forall i, j | 0 <= i < j < |d.accepted| :: d.accepted[i] < d.accepted[j])
      && d.lastUsed == if d.accepted == [] then None else Some(d.accepted[|d.accepted| - 1])
  {
    if ss != [] {
      AcceptedStepsIncrease(ss[..|ss| - 1]);
    }
  }
}
