/** The foreign keys of the schema with their actions, and what the registry's order relies on. */
module ForeignKeys {
  import opened Outcomes
  import opened Registry
  import opened Tables
  import opened References

  /** CASCADE, PROTECT or RESTRICT, and SET_NULL. */
  datatype Action = Cascade | Guard | SetNull

  datatype Column = Column(target: Model, action: Action)

  // ---- The columns ----

  /** The column that names the community. */
  function ZevColumn(m: Model): Option<Action> {
    match m
    case ZevAccessGrant => Some(Cascade)
    case Party => Some(Cascade)
    case Participant => Some(Cascade)
    case ZevPartyRole => Some(Cascade)
    case Building => Some(Cascade)
    case MeteringPoint => Some(Cascade)
    case Tariff => Some(Cascade)
    case Charge => Some(Cascade)
    case SupplementarySource => Some(Cascade)
    case AnalyticsToken => Some(Cascade)
    case ImportLog => Some(Cascade)
    case Invoice => Some(Guard)
    case Credit => Some(Guard)
    case ContractIssue => Some(SetNull)
    case DeliveredDocument => Some(Cascade)
    case AuditEvent => Some(SetNull)
    case ExportJob => Some(Guard)
    case Notification => Some(Cascade)
    case BackupJob => Some(SetNull)
    case _ => None
  }

  /** The column that names the row a row belongs to. */
  function ParentColumn(m: Model): Option<Column> {
    if LookupOf(m).Through? then Some(Column(LookupOf(m).parent, if m == CreditApplication then Guard else Cascade)) else None
  }

  /** The columns that name accounts, by position. */
  function UserColumn(m: Model, i: nat): Action {
    match m
    case ApiKey => Cascade
    case TotpDevice => Cascade
    case MfaRecoveryCode => Cascade
    case WebAuthnCredential => Cascade
    case SocialAccount => Cascade
    case ZevAccessGrant => if i == 0 then Cascade else SetNull
    case AnalyticsToken => Cascade
    case Notification => Cascade
    case EmailVerificationToken => Cascade
    case MagicLinkToken => Cascade
    case OAuthExchangeCode => Cascade
    case LogEntry => Cascade
    case _ => SetNull
  }

  /** Every other reference, of instance and participant models. */
  function ParticipantColumn(m: Model, ref: Reference): Option<Column> {
    match (m, ref)
    case (User, PreferredZev) => Some(Column(Zev, SetNull))
    case (SocialAccount, Provider) => Some(Column(OAuthProvider, Cascade))
    case (DynamicPricePoint, Source) => Some(Column(DynamicTariffSource, Cascade))
    case (Participant, PartyRef) => Some(Column(Party, Guard))
    case (ZevPartyRole, PartyRef) => Some(Column(Party, Cascade))
    case (ZevPartyRole, BuildingRef) => Some(Column(Building, SetNull))
    case (MeteringPoint, BuildingRef) => Some(Column(Building, Guard))
    case _ => None
  }

  /** Of meters, tariffs and charges. */
  function MeterColumn(m: Model, ref: Reference): Option<Column> {
    match (m, ref)
    case (MeteringPointAssignment, ParticipantRef) => Some(Column(Participant, Cascade))
    case (Tariff, DynamicSource) => Some(Column(DynamicTariffSource, Guard))
    case (ChargeParticipants, ParticipantRef) => Some(Column(Participant, Cascade))
    case (SupplementarySource, MeteringPointRef) => Some(Column(MeteringPoint, Cascade))
    case (SupplementarySource, ParticipantRef) => Some(Column(Participant, Cascade))
    case (SupplementaryReading, Source) => Some(Column(SupplementarySource, Cascade))
    case (AnalyticsToken, ParticipantRef) => Some(Column(Participant, Cascade))
    case _ => None
  }

  /** Of invoices and documents. */
  function InvoiceColumn(m: Model, ref: Reference): Option<Column> {
    match (m, ref)
    case (Invoice, ParticipantRef) => Some(Column(Participant, Cascade))
    case (Credit, ParticipantRef) => Some(Column(Participant, Cascade))
    case (Credit, SourceInvoice) => Some(Column(Invoice, Guard))
    case (CreditApplication, InvoiceRef) => Some(Column(Invoice, Cascade))
    case (InvoiceDynamicSourceEvidence, Source) => Some(Column(DynamicTariffSource, Guard))
    case (InvoiceReadingImpact, ImportLogRef) => Some(Column(ImportLog, SetNull))
    case (ContractIssue, ParticipantRef) => Some(Column(Participant, SetNull))
    case (DeliveredDocument, ParticipantRef) => Some(Column(Participant, SetNull))
    case (DeliveredDocument, InvoiceRef) => Some(Column(Invoice, SetNull))
    case (DeliveredDocument, ContractRef) => Some(Column(ContractIssue, Guard))
    case (DeliveredDocument, SupersededBy) => Some(Column(DeliveredDocument, SetNull))
    case _ => None
  }

  /** Of models that are not backed up. */
  function ExcludedColumn(m: Model, ref: Reference): Option<Column> {
    match (m, ref)
    case (Notification, ParticipantRef) => Some(Column(Participant, Cascade))
    case (ProductionForecastPoint, Source) => Some(Column(SupplementarySource, Cascade))
    case (ProductionForecastPoint, MeteringPointRef) => Some(Column(MeteringPoint, Cascade))
    case (OAuthState, Provider) => Some(Column(OAuthProvider, Cascade))
    case (BackupJob, Destination) => Some(Column(BackupDestination, SetNull))
    case (RestoreJob, SourceBackup) => Some(Column(BackupJob, SetNull))
    case (RestoreJob, SafetyBackup) => Some(Column(BackupJob, SetNull))
    case (RestoreJob, SafetyDestination) => Some(Column(BackupDestination, SetNull))
    case _ => None
  }

  function OtherColumn(m: Model, ref: Reference): Option<Column> {
    if ParticipantColumn(m, ref).Some? then ParticipantColumn(m, ref)
    else if MeterColumn(m, ref).Some? then MeterColumn(m, ref)
    else if InvoiceColumn(m, ref).Some? then InvoiceColumn(m, ref)
    else ExcludedColumn(m, ref)
  }

  // ---- The references of a row ----

  function ZevRefs(r: Row, a: Action): set<Key> {
    if r.zev.Some? && ZevColumn(r.model) == Some(a) then {Key(Zev, r.zev.value)} else {}
  }

  function ParentRefs(r: Row, a: Action): set<Key> {
    var column := ParentColumn(r.model);
    if r.parent.Some? && column.Some? && column.value.action == a then {Key(column.value.target, r.parent.value)} else {}
  }

  function UserColumns(m: Model): nat -> Action {
    (i: nat) => UserColumn(m, i)
  }

  function OtherColumns(m: Model): Reference -> Option<Column> {
    (ref: Reference) => OtherColumn(m, ref)
  }

  function UserRefs(columns: nat -> Action, users: seq<Option<Pk>>, a: Action): set<Key> {
    set i: nat | i < |users| && users[i].Some? && columns(i) == a :: Key(User, users[i].value)
  }

  predicate Refers(columns: Reference -> Option<Column>, ref: Reference, a: Action) {
    columns(ref).Some? && columns(ref).value.action == a
  }

  function Target(columns: Reference -> Option<Column>, ref: Reference, pk: Pk): Key {
    Key(if columns(ref).Some? then columns(ref).value.target else Zev, pk)
  }

  function OtherRefs(columns: Reference -> Option<Column>, refs: map<Reference, Pk>, a: Action): set<Key> {
    set c | c in refs.Keys && Refers(columns, c, a) :: Target(columns, c, refs[c])
  }

  function RefsBy(r: Row, a: Action): set<Key> {
    ZevRefs(r, a) + ParentRefs(r, a) + UserRefs(UserColumns(r.model), r.users, a) + OtherRefs(OtherColumns(r.model), r.refs, a)
  }

  function EmptiedUsers(columns: nat -> Action, users: seq<Option<Pk>>, ds: set<Key>): seq<Option<Pk>> {
    seq(|users|, (i: nat) requires i < |users| =>
      if users[i].Some? && columns(i) == SetNull && Key(User, users[i].value) in ds then None else users[i])
  }

  function EmptiedRefs(columns: Reference -> Option<Column>, refs: map<Reference, Pk>, ds: set<Key>): map<Reference, Pk> {
    map c | c in refs.Keys && !(Refers(columns, c, SetNull) && Target(columns, c, refs[c]) in ds) :: refs[c]
  }

  /** The row with its nullable references into the set emptied. */
  function Emptied(r: Row, ds: set<Key>): Row {
    r.(zev := if r.zev.Some? && ZevColumn(r.model) == Some(SetNull) && Key(Zev, r.zev.value) in ds then None else r.zev,
       users := EmptiedUsers(UserColumns(r.model), r.users, ds),
       refs := EmptiedRefs(OtherColumns(r.model), r.refs, ds))
  }

  const SCHEMA: Schema := Schema(
    (r: Row) => RefsBy(r, Cascade),
    (r: Row) => RefsBy(r, Guard),
    (r: Row) => RefsBy(r, SetNull),
    Emptied)

  // ---- Emptying is coherent ----

  lemma EmptiedUsersRefs(columns: nat -> Action, users: seq<Option<Pk>>, ds: set<Key>, a: Action)
    ensures UserRefs(columns, EmptiedUsers(columns, users, ds), a) ==
            if a == SetNull then UserRefs(columns, users, a) - ds else UserRefs(columns, users, a)
    ensures EmptiedUsers(columns, users, ds) == users <==> UserRefs(columns, users, SetNull) !! ds
  {
    var after := EmptiedUsers(columns, users, ds);
    forall k | k in UserRefs(columns, users, a) && (a != SetNull || k !in ds) ensures k in UserRefs(columns, after, a) {
      var i: nat :| i < |users| && users[i].Some? && columns(i) == a && Key(User, users[i].value) == k;
      assert after[i] == users[i];
    }
    if UserRefs(columns, users, SetNull) !! ds {
      forall i: nat | i < |users| ensures after[i] == users[i] {
        if users[i].Some? && columns(i) == SetNull {
          assert Key(User, users[i].value) in UserRefs(columns, users, SetNull);
        }
      }
    }
    if after == users {
      forall k | k in UserRefs(columns, users, SetNull) ensures k !in ds {
        var i: nat :| i < |users| && users[i].Some? && columns(i) == SetNull && Key(User, users[i].value) == k;
        assert after[i] == users[i];
      }
    }
  }

  lemma EmptiedOtherRefs(columns: Reference -> Option<Column>, refs: map<Reference, Pk>, ds: set<Key>, a: Action)
    ensures OtherRefs(columns, EmptiedRefs(columns, refs, ds), a) ==
            if a == SetNull then OtherRefs(columns, refs, a) - ds else OtherRefs(columns, refs, a)
    ensures EmptiedRefs(columns, refs, ds) == refs <==> OtherRefs(columns, refs, SetNull) !! ds
  {
    var after := EmptiedRefs(columns, refs, ds);
    forall k | k in OtherRefs(columns, refs, a) && (a != SetNull || k !in ds) ensures k in OtherRefs(columns, after, a) {
      var c :| c in refs.Keys && Refers(columns, c, a) && Target(columns, c, refs[c]) == k;
      assert c in after;
    }
    if OtherRefs(columns, refs, SetNull) !! ds {
      forall c | c in refs ensures c in after {
        if Refers(columns, c, SetNull) {
          assert Target(columns, c, refs[c]) in OtherRefs(columns, refs, SetNull);
        }
      }
    }
    if after == refs {
      forall k | k in OtherRefs(columns, refs, SetNull) ensures k !in ds {
        var c :| c in refs.Keys && Refers(columns, c, SetNull) && Target(columns, c, refs[c]) == k;
        assert c in after;
      }
    }
  }

  lemma EmptiedRefsBy(r: Row, ds: set<Key>, a: Action)
    ensures RefsBy(Emptied(r, ds), a) == if a == SetNull then RefsBy(r, a) - ds else RefsBy(r, a)
  {
    EmptiedUsersRefs(UserColumns(r.model), r.users, ds, a);
    EmptiedOtherRefs(OtherColumns(r.model), r.refs, ds, a);
    assert ParentRefs(r, SetNull) == {};
  }

  lemma EmptiedIff(r: Row, ds: set<Key>)
    ensures Emptied(r, ds) == r <==> RefsBy(r, SetNull) !! ds
  {
    EmptiedUsersRefs(UserColumns(r.model), r.users, ds, SetNull);
    EmptiedOtherRefs(OtherColumns(r.model), r.refs, ds, SetNull);
    assert ParentRefs(r, SetNull) == {};
    assert RefsBy(r, SetNull) ==
           ZevRefs(r, SetNull) + UserRefs(UserColumns(r.model), r.users, SetNull) + OtherRefs(OtherColumns(r.model), r.refs, SetNull);
  }

  lemma EmptiedTwice(r: Row, a: set<Key>, b: set<Key>)
    ensures Emptied(Emptied(r, a), b) == Emptied(r, a + b)
  {
    UsersTwice(UserColumns(r.model), r.users, a, b);
    RefsTwice(OtherColumns(r.model), r.refs, a, b);
  }

  lemma UsersTwice(columns: nat -> Action, users: seq<Option<Pk>>, a: set<Key>, b: set<Key>)
    ensures EmptiedUsers(columns, EmptiedUsers(columns, users, a), b) == EmptiedUsers(columns, users, a + b)
  {
  }

  lemma RefsTwice(columns: Reference -> Option<Column>, refs: map<Reference, Pk>, a: set<Key>, b: set<Key>)
    ensures EmptiedRefs(columns, EmptiedRefs(columns, refs, a), b) == EmptiedRefs(columns, refs, a + b)
  {
  }

  lemma EmptiedKeepsUsers(r: Row, ds: set<Key>)
    requires NoModel(ds, User)
    ensures Emptied(r, ds).users == r.users
  {
  }

  lemma SchemaIsCoherent()
    ensures Coherent(SCHEMA)
  {
    forall r, ds ensures CoherentAt(SCHEMA, r, ds) {
      EmptiedRefsBy(r, ds, Cascade);
      EmptiedRefsBy(r, ds, Guard);
      EmptiedRefsBy(r, ds, SetNull);
      EmptiedIff(r, ds);
      if NoModel(ds, User) { EmptiedKeepsUsers(r, ds); }
    }
    forall r, a, b ensures SCHEMA.nulled(SCHEMA.nulled(r, a), b) == SCHEMA.nulled(r, a + b) {
      EmptiedTwice(r, a, b);
    }
    forall r: Row, r': Row | OnlyFields(r, r') ensures SameRefs(SCHEMA, r, r') {}
  }

  // ---- References and the registry's order ----

  /** A model a per-community restore leaves alone: backed up and not restored, or the community's own. */
  ghost predicate Stays(reg: Registry, m: Model) {
    (BackedUp(reg, m) && !Restored(reg, m)) || m == Zev
  }

  /** A reference that insists on its target: the target is backed up and loaded before the row. */
  ghost predicate GuardFits(reg: Registry, m: Model, target: Model) {
    BackedUp(reg, target) && (m == ExportJob || Precedes(reg, target, m))
  }

  /** A reference from a backed-up row: to a backed-up row, and to one that stays if the row does. */
  ghost predicate RefFits(reg: Registry, m: Model, target: Model) {
    (BackedUp(reg, m) ==> BackedUp(reg, target)) && (Stays(reg, m) ==> Stays(reg, target))
  }

  /** A cascading reference from a backed-up row: to one loaded before it, if not of its own model; none from a community. */
  ghost predicate CascadeFits(reg: Registry, m: Model, target: Model) {
    m != Zev && m != ExportJob && (BackedUp(reg, m) ==> m == target || Precedes(reg, target, m))
  }

  ghost predicate FitsAt(reg: Registry, s: Schema, r: Row) {
    && (forall k | k in s.guard(r) :: GuardFits(reg, r.model, k.model))
    && (forall k | k in s.cascade(r) :: CascadeFits(reg, r.model, k.model))
    && (forall k | k in Refs(s, r) :: RefFits(reg, r.model, k.model))
    && (reg.lookup(r.model).Through? && r.parent.Some? ==>
          Key(reg.lookup(r.model).parent, r.parent.value) in s.cascade(r) + s.guard(r))
  }

  ghost predicate Fits(reg: Registry, s: Schema) {
    Coherent(s) && forall r :: FitsAt(reg, s, r)
  }

  /** What places say of one reference. */
  predicate ColumnFits(m: Model, target: Model, a: Action) {
    && (a == Guard ==> Place(target) < 20000 && (m == ExportJob || Place(target) < Place(m) < 20000))
    && (a == Cascade ==> m != Zev && m != ExportJob && (Place(m) < 20000 ==> Place(target) < Place(m)))
    && (Place(m) < 20000 ==> Place(target) < 20000)
    && (PlaceStays(m) ==> PlaceStays(target))
  }

  predicate PlaceStays(m: Model) {
    Place(m) <= 10000 || m == ZevAccessGrant || m == AuditEvent
  }

  lemma ColumnFitsRegistry(m: Model, target: Model, a: Action)
    requires ColumnFits(m, target, a)
    ensures a == Guard ==> GuardFits(REGISTRY, m, target)
    ensures a == Cascade ==> CascadeFits(REGISTRY, m, target)
    ensures RefFits(REGISTRY, m, target)
  {
    StaysIff(m);
    StaysIff(target);
    if Place(target) < Place(m) < 20000 { PlacesPrecede(target, m); }
  }

  lemma StaysIff(m: Model)
    ensures BackedUp(REGISTRY, m) <==> Place(m) < 20000
    ensures Stays(REGISTRY, m) <==> PlaceStays(m)
  {
    PlacesDecide(m);
    PlaceOfKept(m);
  }

  lemma PlaceOfKept(m: Model)
    ensures m == Zev <==> Place(m) == 10000
    ensures m == ZevAccessGrant || m == AuditEvent ==> 10000 < Place(m) < 20000
  {
  }

  lemma ZevColumnFits(m: Model)
    ensures ZevColumn(m).Some? ==> ColumnFits(m, Zev, ZevColumn(m).value)
  {
  }

  lemma ParentColumnFits(m: Model)
    ensures ParentColumn(m).Some? ==> ColumnFits(m, ParentColumn(m).value.target, ParentColumn(m).value.action)
  {
    if LookupOf(m).Through? {
      var j, b := ParentBelow(m);
      ParentsArePlaced(m);
    }
  }

  lemma ParentsArePlaced(m: Model)
    requires LookupOf(m).Through?
    ensures 10000 < Place(m) < 20000 && !PlaceStays(m)
  {
  }

  lemma UserColumnFits(m: Model, i: nat)
    ensures ColumnFits(m, User, UserColumn(m, i))
  {
  }

  lemma ParticipantColumnFits(m: Model, ref: Reference)
    ensures var c := ParticipantColumn(m, ref); c.Some? ==> ColumnFits(m, c.value.target, c.value.action)
  {
  }

  lemma MeterColumnFits(m: Model, ref: Reference)
    ensures var c := MeterColumn(m, ref); c.Some? ==> ColumnFits(m, c.value.target, c.value.action)
  {
  }

  lemma InvoiceColumnFits(m: Model, ref: Reference)
    ensures var c := InvoiceColumn(m, ref); c.Some? ==> ColumnFits(m, c.value.target, c.value.action)
  {
  }

  lemma ExcludedColumnFits(m: Model, ref: Reference)
    ensures var c := ExcludedColumn(m, ref); c.Some? ==> ColumnFits(m, c.value.target, c.value.action)
  {
  }

  lemma OtherColumnFits(m: Model, ref: Reference)
    ensures var c := OtherColumn(m, ref); c.Some? ==> ColumnFits(m, c.value.target, c.value.action)
  {
    ParticipantColumnFits(m, ref);
    MeterColumnFits(m, ref);
    InvoiceColumnFits(m, ref);
    ExcludedColumnFits(m, ref);
  }

  lemma RefColumnFits(r: Row, a: Action, k: Key)
    requires k in RefsBy(r, a)
    ensures ColumnFits(r.model, k.model, a)
  {
    ZevColumnFits(r.model);
    ParentColumnFits(r.model);
    if k in UserRefs(UserColumns(r.model), r.users, a) {
      var i: nat :| i < |r.users| && r.users[i].Some? && UserColumns(r.model)(i) == a && Key(User, r.users[i].value) == k;
      UserColumnFits(r.model, i);
    } else if k in OtherRefs(OtherColumns(r.model), r.refs, a) {
      var c :| c in r.refs.Keys && Refers(OtherColumns(r.model), c, a) && Target(OtherColumns(r.model), c, r.refs[c]) == k;
      OtherColumnFits(r.model, c);
    }
  }

  /** The shipped schema fits the shipped registry. */
  lemma SchemaFits()
    ensures Fits(REGISTRY, SCHEMA)
  {
    SchemaIsCoherent();
    forall r ensures FitsAt(REGISTRY, SCHEMA, r) {
      forall a, k | k in RefsBy(r, a)
        ensures a == Guard ==> GuardFits(REGISTRY, r.model, k.model)
        ensures a == Cascade ==> CascadeFits(REGISTRY, r.model, k.model)
        ensures RefFits(REGISTRY, r.model, k.model)
      {
        RefColumnFits(r, a, k);
        ColumnFitsRegistry(r.model, k.model, a);
      }
    }
  }
}
