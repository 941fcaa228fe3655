/** What a backup contains: every backed-up model, the section its rows belong to, and how a row names its community. */
module Registry {
  datatype Model =
    | AppSettings | FeatureFlag | VatRate | OAuthProvider | PdfTemplate | EmailTemplate | DynamicTariffSource
    | DynamicPricePoint | User | ApiKey | TotpDevice | MfaRecoveryCode | WebAuthnCredential | SocialAccount
    | Zev | ZevAccessGrant | Party | Participant | ParticipantOnboardingToken | ZevPartyRole
    | Building | MeteringPoint | PvPlane | MeteringPointAssignment | Tariff | TariffPeriod
    | Charge | ChargeParticipants | MeterReading | QuarantinedReading | SupplementarySource | SupplementaryReading
    | AnalyticsToken | ImportLog | Invoice | InvoiceItem | Payment | Credit | CreditApplication
    | InvoiceDynamicSourceEvidence | InvoiceAccessToken | EmailLog | InvoiceReadingImpact
    | ContractIssue | DeliveredDocument | AuditEvent
    | ExportJob | Notification | ProductionForecastPoint | EmailVerificationToken | MagicLinkToken | OAuthState
    | OAuthExchangeCode | BackupDestination | BackupJob | RestoreJob | LogEntry | Excluded(name: string)

  /** How a row names its community: by its own key, by a column, or through the row it belongs to. */
  datatype Lookup = Self | Own | Through(parent: Model)

  /** Sections in load order, each with its models: instance-wide, per community, and rows that outlive their community. */
  datatype Registry = Registry(
    instance: seq<seq<Model>>,
    zev: seq<seq<Model>>,
    unscoped: seq<Model>,
    lookup: Model -> Lookup,
    kept: set<nat>)

  // ---- What the archive and restore rely on ----

  predicate At(sections: seq<seq<Model>>, i: nat, a: nat, m: Model) {
    i < |sections| && a < |sections[i]| && sections[i][a] == m
  }

  /** No model is listed twice. */
  ghost predicate OneHome(sections: seq<seq<Model>>) {
    forall i: nat, a: nat, j: nat, b: nat, m | At(sections, i, a, m) && At(sections, j, b, m) :: i == j && a == b
  }

  ghost predicate Listed(sections: seq<seq<Model>>, m: Model) {
    exists i: nat, a: nat :: At(sections, i, a, m)
  }

  ghost predicate NoDuplicates(ms: seq<Model>) {
    forall i, j | 0 <= i < j < |ms| :: ms[i] != ms[j]
  }

  /** A parent stands before the models that reach their community through it, and names its community itself. */
  ghost predicate ParentFirst(reg: Registry, i: nat, a: nat, p: Model)
  {
    && reg.lookup(p) == Own && p !in reg.unscoped
    && (exists j: nat, b: nat :: At(reg.zev, j, b, p) && j !in reg.kept && (j < i || (j == i && b < a)))
  }

  ghost predicate ParentsFirst(reg: Registry) {
    forall i: nat, a: nat, m | At(reg.zev, i, a, m) && reg.lookup(m).Through? :: ParentFirst(reg, i, a, reg.lookup(m).parent)
  }

  /** Only the community's own row, alone in the first section, is its own community. */
  ghost predicate ZevFirst(reg: Registry) {
    && |reg.zev| > 0 && reg.zev[0] == [Zev] && 0 !in reg.kept
    && (forall m :: reg.lookup(m) == Self <==> m == Zev)
  }

  ghost predicate WellFormed(reg: Registry) {
    && OneHome(reg.instance) && OneHome(reg.zev) && NoDuplicates(reg.unscoped)
    && (forall m | Listed(reg.instance, m) :: !Listed(reg.zev, m))
    && (forall m | m in reg.unscoped :: Listed(reg.zev, m) && reg.lookup(m) == Own)
    && ZevFirst(reg) && ParentsFirst(reg)
    && User !in reg.unscoped && !Listed(reg.zev, User)
  }

  ghost predicate BackedUp(reg: Registry, m: Model) {
    Listed(reg.instance, m) || Listed(reg.zev, m)
  }

  /** Models whose community rows a per-community restore replaces. */
  ghost predicate Restored(reg: Registry, m: Model) {
    exists i: nat, a: nat :: At(reg.zev, i, a, m) && i !in reg.kept
  }

  /** Credentials of an account that its protection deletes when they came from a participant link, and its login codes. */
  predicate Credential(m: Model) {
    m == TotpDevice || m == MfaRecoveryCode || m == WebAuthnCredential || m == SocialAccount || m == OAuthExchangeCode
  }

  /** The first model is loaded before the second. */
  ghost predicate Precedes(reg: Registry, p: Model, m: Model) {
    || (exists i: nat, a: nat, j: nat, b: nat ::
          At(reg.instance, i, a, p) && At(reg.instance, j, b, m) && (i < j || (i == j && a < b)))
    || (Listed(reg.instance, p) && Listed(reg.zev, m))
    || (exists i: nat, a: nat, j: nat, b: nat ::
          At(reg.zev, i, a, p) && At(reg.zev, j, b, m) && (i < j || (i == j && a < b)))
  }

  // ---- The shipped registry ----

  const APP_SETTINGS: seq<Model> := [AppSettings, FeatureFlag, VatRate]
  const TEMPLATES: seq<Model> := [PdfTemplate, EmailTemplate]
  const ACCOUNTS: seq<Model> := [User, ApiKey, TotpDevice, MfaRecoveryCode, WebAuthnCredential, SocialAccount]
  const PARTICIPANTS: seq<Model> := [Party, Participant, ParticipantOnboardingToken, ZevPartyRole]
  const METERING_POINTS: seq<Model> := [Building, MeteringPoint, PvPlane, MeteringPointAssignment]
  const TARIFFS: seq<Model> := [Tariff, TariffPeriod]
  const CHARGES: seq<Model> := [Charge, ChargeParticipants]
  const READINGS: seq<Model> := [MeterReading, QuarantinedReading]
  const SUPPLEMENTARY: seq<Model> := [SupplementarySource, SupplementaryReading]
  const INVOICES: seq<Model> :=
    [Invoice, InvoiceItem, Payment, Credit, CreditApplication, InvoiceDynamicSourceEvidence, InvoiceAccessToken, EmailLog,
     InvoiceReadingImpact]

  const INSTANCE_SECTIONS: seq<seq<Model>> :=
    [APP_SETTINGS, [OAuthProvider], TEMPLATES, [DynamicTariffSource], [DynamicPricePoint], ACCOUNTS]

  const ZEV_SECTIONS: seq<seq<Model>> :=
    [[Zev], [ZevAccessGrant], PARTICIPANTS, METERING_POINTS, TARIFFS, CHARGES, READINGS, SUPPLEMENTARY, [AnalyticsToken],
     [ImportLog], INVOICES, [ContractIssue], [DeliveredDocument], [AuditEvent]]

  const UNSCOPED_SECTIONS: seq<Model> := [AuditEvent, ContractIssue, ImportLog]

  const ACCESS_GRANTS: nat := 1
  const AUDIT_EVENTS: nat := 13

  const REGISTRY: Registry :=
    Registry(INSTANCE_SECTIONS, ZEV_SECTIONS, UNSCOPED_SECTIONS, LookupOf, {ACCESS_GRANTS, AUDIT_EVENTS})

  /** The path from a community model to its community. */
  function LookupOf(m: Model): Lookup {
    match m
    case Zev => Self
    case ParticipantOnboardingToken => Through(Participant)
    case PvPlane => Through(MeteringPoint)
    case MeteringPointAssignment => Through(MeteringPoint)
    case TariffPeriod => Through(Tariff)
    case ChargeParticipants => Through(Charge)
    case MeterReading => Through(MeteringPoint)
    case QuarantinedReading => Through(MeteringPoint)
    case SupplementaryReading => Through(MeteringPoint)
    case InvoiceItem => Through(Invoice)
    case Payment => Through(Invoice)
    case CreditApplication => Through(Credit)
    case InvoiceDynamicSourceEvidence => Through(Invoice)
    case InvoiceAccessToken => Through(Invoice)
    case EmailLog => Through(Invoice)
    case InvoiceReadingImpact => Through(Invoice)
    case _ => Own
  }

  // ---- The shipped registry is well formed ----

  /** Section times 100 plus position, of each instance model; of each community model from 10000 on. */
  function Place(m: Model): nat {
    match m
    case AppSettings => 0 case FeatureFlag => 1 case VatRate => 2
    case OAuthProvider => 100
    case PdfTemplate => 200 case EmailTemplate => 201
    case DynamicTariffSource => 300
    case DynamicPricePoint => 400
    case User => 500 case ApiKey => 501 case TotpDevice => 502 case MfaRecoveryCode => 503 case WebAuthnCredential => 504
    case SocialAccount => 505
    case Zev => 10000
    case ZevAccessGrant => 10100
    case Party => 10200 case Participant => 10201 case ParticipantOnboardingToken => 10202 case ZevPartyRole => 10203
    case Building => 10300 case MeteringPoint => 10301 case PvPlane => 10302 case MeteringPointAssignment => 10303
    case Tariff => 10400 case TariffPeriod => 10401
    case Charge => 10500 case ChargeParticipants => 10501
    case MeterReading => 10600 case QuarantinedReading => 10601
    case SupplementarySource => 10700 case SupplementaryReading => 10701
    case AnalyticsToken => 10800
    case ImportLog => 10900
    case Invoice => 11000 case InvoiceItem => 11001 case Payment => 11002 case Credit => 11003 case CreditApplication => 11004
    case InvoiceDynamicSourceEvidence => 11005 case InvoiceAccessToken => 11006 case EmailLog => 11007
    case InvoiceReadingImpact => 11008
    case ContractIssue => 11100
    case DeliveredDocument => 11200
    case AuditEvent => 11300
    case _ => 20000
  }

  lemma InstancePlaces(i: nat, a: nat, m: Model)
    requires At(INSTANCE_SECTIONS, i, a, m)
    ensures Place(m) == 100 * i + a && a < 100 && i < 6
  {
    if i == 0 {
      assert m in APP_SETTINGS;
    } else if i == 2 {
      assert m in TEMPLATES;
    } else if i == 5 {
      assert m in ACCOUNTS;
    }
  }

  lemma EarlyZevPlaces(i: nat, a: nat, m: Model)
    requires At(ZEV_SECTIONS, i, a, m) && i < 4
    ensures Place(m) == 10000 + 100 * i + a && a < 100
  {
    if i == 2 {
      assert m == PARTICIPANTS[a];
    } else if i == 3 {
      assert m == METERING_POINTS[a];
    }
  }

  lemma MiddleZevPlaces(i: nat, a: nat, m: Model)
    requires At(ZEV_SECTIONS, i, a, m) && 4 <= i < 8
    ensures Place(m) == 10000 + 100 * i + a && a < 100
  {
    if i == 4 {
      assert m == TARIFFS[a];
    } else if i == 5 {
      assert m == CHARGES[a];
    } else if i == 6 {
      assert m == READINGS[a];
    } else {
      assert m == SUPPLEMENTARY[a];
    }
  }

  lemma LateZevPlaces(i: nat, a: nat, m: Model)
    requires At(ZEV_SECTIONS, i, a, m) && i >= 8
    ensures Place(m) == 10000 + 100 * i + a && a < 100 && i < 14
  {
    if i == 10 {
      assert m == INVOICES[a];
    }
  }

  lemma ZevPlaces(i: nat, a: nat, m: Model)
    requires At(ZEV_SECTIONS, i, a, m)
    ensures Place(m) == 10000 + 100 * i + a && a < 100 && i < 14
  {
    if i < 4 {
      EarlyZevPlaces(i, a, m);
    } else if i < 8 {
      MiddleZevPlaces(i, a, m);
    } else {
      LateZevPlaces(i, a, m);
    }
  }

  lemma OneHomeEach()
    ensures OneHome(INSTANCE_SECTIONS) && OneHome(ZEV_SECTIONS)
    ensures forall m | Listed(INSTANCE_SECTIONS, m) :: !Listed(ZEV_SECTIONS, m)
  {
    forall i: nat, a: nat, m | At(INSTANCE_SECTIONS, i, a, m) ensures Place(m) == 100 * i + a && a < 100 && i < 6 {
      InstancePlaces(i, a, m);
    }
    forall i: nat, a: nat, m | At(ZEV_SECTIONS, i, a, m) ensures Place(m) == 10000 + 100 * i + a && a < 100 {
      ZevPlaces(i, a, m);
    }
  }

  /** Where the six parents stand. */
  predicate Spot(p: Model, j: nat, b: nat) {
    match p
    case Participant => j == 2 && b == 1
    case MeteringPoint => j == 3 && b == 1
    case Tariff => j == 4 && b == 0
    case Charge => j == 5 && b == 0
    case Invoice => j == 10 && b == 0
    case Credit => j == 10 && b == 3
    case _ => false
  }

  lemma SpotIsListed(p: Model, j: nat, b: nat)
    requires Spot(p, j, b)
    ensures At(ZEV_SECTIONS, j, b, p) && LookupOf(p) == Own && p !in UNSCOPED_SECTIONS
    ensures Place(p) == 10000 + 100 * j + b && j != ACCESS_GRANTS && j != AUDIT_EVENTS
  {
  }

  lemma ParentBelow(m: Model) returns (j: nat, b: nat)
    requires LookupOf(m).Through?
    ensures Spot(LookupOf(m).parent, j, b) && Place(LookupOf(m).parent) < Place(m)
  {
    match LookupOf(m).parent
    case Participant => j, b := 2, 1;
    case MeteringPoint => j, b := 3, 1;
    case Tariff => j, b := 4, 0;
    case Charge => j, b := 5, 0;
    case Invoice => j, b := 10, 0;
    case Credit => j, b := 10, 3;
  }

  lemma ParentAt(i: nat, a: nat, p: Model, j: nat, b: nat)
    requires Spot(p, j, b) && a < 100 && Place(p) < 10000 + 100 * i + a
    ensures ParentFirst(REGISTRY, i, a, p)
  {
    SpotIsListed(p, j, b);
  }

  lemma Parents(i: nat, a: nat, m: Model)
    requires At(ZEV_SECTIONS, i, a, m) && LookupOf(m).Through?
    ensures ParentFirst(REGISTRY, i, a, LookupOf(m).parent)
  {
    ZevPlaces(i, a, m);
    var j, b := ParentBelow(m);
    ParentAt(i, a, LookupOf(m).parent, j, b);
  }

  lemma UnscopedAreListed()
    ensures forall m | m in UNSCOPED_SECTIONS :: Listed(ZEV_SECTIONS, m) && LookupOf(m) == Own
    ensures NoDuplicates(UNSCOPED_SECTIONS)
  {
    assert At(ZEV_SECTIONS, 9, 0, ImportLog);
    assert At(ZEV_SECTIONS, 11, 0, ContractIssue);
    assert At(ZEV_SECTIONS, 13, 0, AuditEvent);
  }

  /** Every model of the shipped registry has one section, and parents come before what reaches its community through them. */
  lemma RegistryIsWellFormed()
    ensures WellFormed(REGISTRY)
  {
    OneHomeEach();
    UnscopedAreListed();
    assert At(INSTANCE_SECTIONS, 5, 0, User);
    assert ZevFirst(REGISTRY);
    assert ParentsFirst(REGISTRY) by {
      forall i: nat, a: nat, m | At(ZEV_SECTIONS, i, a, m) && LookupOf(m).Through?
        ensures ParentFirst(REGISTRY, i, a, LookupOf(m).parent)
      {
        Parents(i, a, m);
      }
    }
  }

  // ---- Where each model stands ----

  lemma InstanceAt(m: Model) returns (i: nat, a: nat)
    requires Place(m) < 10000
    ensures At(INSTANCE_SECTIONS, i, a, m) && Place(m) == 100 * i + a && a < 100
  {
    i, a := Place(m) / 100, Place(m) % 100;
  }

  lemma ZevAt(m: Model) returns (i: nat, a: nat)
    requires 10000 <= Place(m) < 20000
    ensures At(ZEV_SECTIONS, i, a, m) && Place(m) == 10000 + 100 * i + a && a < 100
  {
    i, a := (Place(m) - 10000) / 100, Place(m) % 100;
    if i < 4 { EarlyZevAt(m, i, a); } else if i < 8 { MiddleZevAt(m, i, a); } else { LateZevAt(m, i, a); }
  }

  lemma EarlyZevAt(m: Model, i: nat, a: nat)
    requires Place(m) == 10000 + 100 * i + a && a < 100 && i < 4
    ensures At(ZEV_SECTIONS, i, a, m)
  {
  }

  lemma MiddleZevAt(m: Model, i: nat, a: nat)
    requires Place(m) == 10000 + 100 * i + a && a < 100 && 4 <= i < 8
    ensures At(ZEV_SECTIONS, i, a, m)
  {
  }

  lemma LateZevAt(m: Model, i: nat, a: nat)
    requires Place(m) == 10000 + 100 * i + a && a < 100 && 8 <= i < 14
    ensures At(ZEV_SECTIONS, i, a, m)
  {
  }

  /** Places decide the order of loading. */
  lemma PlacesPrecede(p: Model, m: Model)
    requires Place(p) < Place(m) < 20000
    ensures Precedes(REGISTRY, p, m)
  {
    if Place(m) < 10000 {
      var i, a := InstanceAt(p);
      var j, b := InstanceAt(m);
      assert At(REGISTRY.instance, i, a, p) && At(REGISTRY.instance, j, b, m);
    } else if Place(p) < 10000 {
      var i, a := InstanceAt(p);
      var j, b := ZevAt(m);
      assert Listed(REGISTRY.instance, p) && Listed(REGISTRY.zev, m);
    } else {
      var i, a := ZevAt(p);
      var j, b := ZevAt(m);
      assert At(REGISTRY.zev, i, a, p) && At(REGISTRY.zev, j, b, m);
    }
  }

  /** What places say of the shipped registry. */
  lemma PlacesDecide(m: Model)
    ensures Listed(INSTANCE_SECTIONS, m) <==> Place(m) < 10000
    ensures Listed(ZEV_SECTIONS, m) <==> 10000 <= Place(m) < 20000
    ensures Restored(REGISTRY, m) <==> 10000 <= Place(m) < 20000 && m != ZevAccessGrant && m != AuditEvent
  {
    if Listed(INSTANCE_SECTIONS, m) {
      var i: nat, a: nat :| At(INSTANCE_SECTIONS, i, a, m);
      InstancePlaces(i, a, m);
    }
    if Listed(ZEV_SECTIONS, m) {
      var i: nat, a: nat :| At(ZEV_SECTIONS, i, a, m);
      ZevPlaces(i, a, m);
    }
    RestoredPlaces(m);
    if Place(m) < 10000 { var i, a := InstanceAt(m); }
    if 10000 <= Place(m) < 20000 { var i, a := ZevAt(m); }
  }

  lemma RestoredPlaces(m: Model)
    ensures Restored(REGISTRY, m) <==> 10000 <= Place(m) < 20000 && m != ZevAccessGrant && m != AuditEvent
  {
    if Restored(REGISTRY, m) {
      var i: nat, a: nat :| At(REGISTRY.zev, i, a, m) && i !in REGISTRY.kept;
      ZevPlaces(i, a, m);
    }
    if 10000 <= Place(m) < 20000 && m != ZevAccessGrant && m != AuditEvent {
      var i, a := ZevAt(m);
      KeptPlaces(m, i, a);
      assert At(REGISTRY.zev, i, a, m);
    }
  }

  lemma KeptPlaces(m: Model, i: nat, a: nat)
    requires Place(m) == 10000 + 100 * i + a && a < 100 && i < 14
    ensures i in REGISTRY.kept ==> m == ZevAccessGrant || m == AuditEvent
  {
  }
}
