/**
 * The relational schema of the property-management store: the enumerated
 * vocabularies (the `Enums` union types and the `Constants` arrays generated
 * beside them) and the row shapes of the tables the core reads and writes.
 * Nullable columns are `Option`s; money is `real`. Timestamp columns are
 * milliseconds since the epoch; date columns (`start_date`, `end_date`,
 * `due_date`) are UTC day numbers, so `new Date(d)` of a date is `d * DayMs`.
 */
module Schema {
  import opened Wrappers

  type Id = string

  /** Milliseconds in a day. */
  const DayMs := 86400000

  /** The UTC calendar day of a millisecond timestamp, the date part of `toISOString`. */
  function DayOf(ms: int): (d: int)
    ensures d * DayMs <= ms < (d + 1) * DayMs
  {
    ms / DayMs
  }

  // ---------------------------------------------------------------------
  // Looking a value up by its name, shared by all vocabularies
  // ---------------------------------------------------------------------

  /** The first member of `all` whose name is `s`, if there is one. */
  function Lookup<E>(s: string, all: seq<E>, name: E -> string): (r: Option<E>)
    ensures r.Some? ==> r.value in all && name(r.value) == s
    ensures r.None? ==> forall e :: e in all ==> name(e) != s
  {
    if all == [] then None
    else if name(all[0]) == s then Some(all[0])
    else Lookup(s, all[1..], name)
  }

  /** The member found is the first one with that name: every earlier member has another name. */
  lemma {:induction false} LookupFirst<E>(s: string, all: seq<E>, name: E -> string, i: nat)
    requires i < |all| && name(all[i]) == s
    requires forall j :: 0 <= j < i ==> name(all[j]) != s
    ensures Lookup(s, all, name) == Some(all[i])
  {
    if i > 0 {
      assert name(all[0]) != s;
      forall j | 0 <= j < i - 1 ensures name(all[1..][j]) != s {
        assert name(all[j + 1]) != s;
      }
      LookupFirst(s, all[1..], name, i - 1);
    }
  }

  /** `names` lists the name of every member of `all`, in order, each name once. */
  ghost predicate Enumerates<E>(names: seq<string>, all: seq<E>, name: E -> string) {
    && |names| == |all|
    && (forall i :: 0 <= i < |all| ==> names[i] == name(all[i]))
    && (forall i, j :: 0 <= i < j < |names| ==> names[i] != names[j])
  }

  /** With distinct names, looking up a member's name finds that member. */
  lemma {:induction false} LookupName<E>(e: E, all: seq<E>, names: seq<string>, name: E -> string)
    requires Enumerates(names, all, name)
    requires e in all
    ensures Lookup(name(e), all, name) == Some(e)
  {
    if all[0] != e {
      assert e in all[1..];
      var k :| 1 <= k < |all| && all[k] == e;
      assert names[0] != names[k];
      assert Enumerates(names[1..], all[1..], name) by {
        forall i, j | 0 <= i < j < |names[1..]| ensures names[1..][i] != names[1..][j] {
          assert names[i + 1] != names[j + 1];
        }
      }
      LookupName(e, all[1..], names[1..], name);
    }
  }

  // ---------------------------------------------------------------------
  // Vocabularies
  // ---------------------------------------------------------------------

  datatype UnitStatus = Available | Hold | Leased | Inactive
  const AllUnitStatuses: seq<UnitStatus> := [Available, Hold, Leased, Inactive]
  const UnitStatusConstants: seq<string> := ["AVAILABLE", "HOLD", "LEASED", "INACTIVE"]
  function UnitStatusName(s: UnitStatus): string {
    match s
    case Available => "AVAILABLE"
    case Hold => "HOLD"
    case Leased => "LEASED"
    case Inactive => "INACTIVE"
  }
  function ParseUnitStatus(s: string): Option<UnitStatus> { Lookup(s, AllUnitStatuses, UnitStatusName) }

  datatype LeaseStatus = Draft | Active | Ended | Terminated
  const AllLeaseStatuses: seq<LeaseStatus> := [Draft, Active, Ended, Terminated]
  const LeaseStatusConstants: seq<string> := ["draft", "active", "ended", "terminated"]
  function LeaseStatusName(s: LeaseStatus): string {
    match s
    case Draft => "draft"
    case Active => "active"
    case Ended => "ended"
    case Terminated => "terminated"
  }
  function ParseLeaseStatus(s: string): Option<LeaseStatus> { Lookup(s, AllLeaseStatuses, LeaseStatusName) }

  datatype PaymentStatus = Pending | Paid | Failed | Refunded
  const AllPaymentStatuses: seq<PaymentStatus> := [Pending, Paid, Failed, Refunded]
  const PaymentStatusConstants: seq<string> := ["pending", "paid", "failed", "refunded"]
  function PaymentStatusName(s: PaymentStatus): string {
    match s
    case Pending => "pending"
    case Paid => "paid"
    case Failed => "failed"
    case Refunded => "refunded"
  }
  function ParsePaymentStatus(s: string): Option<PaymentStatus> { Lookup(s, AllPaymentStatuses, PaymentStatusName) }

  datatype PaymentMethod = Cash | Card | Online | Check
  const AllPaymentMethods: seq<PaymentMethod> := [Cash, Card, Online, Check]
  const PaymentMethodConstants: seq<string> := ["cash", "card", "online", "check"]
  function PaymentMethodName(m: PaymentMethod): string {
    match m
    case Cash => "cash"
    case Card => "card"
    case Online => "online"
    case Check => "check"
  }
  function ParsePaymentMethod(s: string): Option<PaymentMethod> { Lookup(s, AllPaymentMethods, PaymentMethodName) }

  datatype MaintenanceStatus = Open | Assigned | InProgress | Resolved | Cancelled
  const AllMaintenanceStatuses: seq<MaintenanceStatus> := [Open, Assigned, InProgress, Resolved, Cancelled]
  const MaintenanceStatusConstants: seq<string> := ["open", "assigned", "in_progress", "resolved", "cancelled"]
  function MaintenanceStatusName(s: MaintenanceStatus): string {
    match s
    case Open => "open"
    case Assigned => "assigned"
    case InProgress => "in_progress"
    case Resolved => "resolved"
    case Cancelled => "cancelled"
  }
  function ParseMaintenanceStatus(s: string): Option<MaintenanceStatus> {
    Lookup(s, AllMaintenanceStatuses, MaintenanceStatusName)
  }

  datatype MaintenanceCategory = Plumbing | Electrical | Hvac | General
  const AllMaintenanceCategories: seq<MaintenanceCategory> := [Plumbing, Electrical, Hvac, General]
  const MaintenanceCategoryConstants: seq<string> := ["plumbing", "electrical", "hvac", "general"]
  function MaintenanceCategoryName(c: MaintenanceCategory): string {
    match c
    case Plumbing => "plumbing"
    case Electrical => "electrical"
    case Hvac => "hvac"
    case General => "general"
  }
  function ParseMaintenanceCategory(s: string): Option<MaintenanceCategory> {
    Lookup(s, AllMaintenanceCategories, MaintenanceCategoryName)
  }

  datatype AppRole = Admin | Owner | TenantRole | Ops
  const AllAppRoles: seq<AppRole> := [Admin, Owner, TenantRole, Ops]
  const AppRoleConstants: seq<string> := ["admin", "owner", "tenant", "ops"]
  function AppRoleName(r: AppRole): string {
    match r
    case Admin => "admin"
    case Owner => "owner"
    case TenantRole => "tenant"
    case Ops => "ops"
  }

  datatype PropertyStatus = PropertyActive | PropertyInactive | PropertyMaintenance
  const AllPropertyStatuses: seq<PropertyStatus> := [PropertyActive, PropertyInactive, PropertyMaintenance]
  const PropertyStatusConstants: seq<string> := ["active", "inactive", "maintenance"]
  function PropertyStatusName(s: PropertyStatus): string {
    match s
    case PropertyActive => "active"
    case PropertyInactive => "inactive"
    case PropertyMaintenance => "maintenance"
  }

  datatype PropertyType = Residential | Commercial | Industrial
  const AllPropertyTypes: seq<PropertyType> := [Residential, Commercial, Industrial]
  const PropertyTypeConstants: seq<string> := ["residential", "commercial", "industrial"]
  function PropertyTypeName(t: PropertyType): string {
    match t
    case Residential => "residential"
    case Commercial => "commercial"
    case Industrial => "industrial"
  }

  // Every `Constants` array lists exactly its union's members, in order, each once.

  lemma UnitStatusConstantsExact()
    ensures Enumerates(UnitStatusConstants, AllUnitStatuses, UnitStatusName)
  {
  }

  lemma LeaseStatusConstantsExact()
    ensures Enumerates(LeaseStatusConstants, AllLeaseStatuses, LeaseStatusName)
  {
  }

  lemma PaymentStatusConstantsExact()
    ensures Enumerates(PaymentStatusConstants, AllPaymentStatuses, PaymentStatusName)
  {
  }

  lemma PaymentMethodConstantsExact()
    ensures Enumerates(PaymentMethodConstants, AllPaymentMethods, PaymentMethodName)
  {
  }

  lemma MaintenanceStatusConstantsExact()
    ensures Enumerates(MaintenanceStatusConstants, AllMaintenanceStatuses, MaintenanceStatusName)
  {
  }

  lemma MaintenanceCategoryConstantsExact()
    ensures Enumerates(MaintenanceCategoryConstants, AllMaintenanceCategories, MaintenanceCategoryName)
  {
  }

  lemma AppRoleConstantsExact()
    ensures Enumerates(AppRoleConstants, AllAppRoles, AppRoleName)
  {
  }

  lemma PropertyStatusConstantsExact()
    ensures Enumerates(PropertyStatusConstants, AllPropertyStatuses, PropertyStatusName)
  {
  }

  lemma PropertyTypeConstantsExact()
    ensures Enumerates(PropertyTypeConstants, AllPropertyTypes, PropertyTypeName)
  {
  }

  /** With distinct names, exactly the listed names are found. */
  lemma LookupExact<E>(s: string, all: seq<E>, names: seq<string>, name: E -> string)
    requires Enumerates(names, all, name)
    ensures Lookup(s, all, name).Some? <==> s in names
  {
    if s in names {
      var i :| 0 <= i < |names| && names[i] == s;
      LookupName(all[i], all, names, name);
    }
  }

  /** A stored unit status is read back as exactly the value it names, and only the listed strings are read. */
  lemma UnitStatusRoundTrip(x: UnitStatus, s: string)
    ensures ParseUnitStatus(UnitStatusName(x)) == Some(x)
    ensures ParseUnitStatus(s).Some? <==> s in UnitStatusConstants
    ensures ParseUnitStatus(s).Some? ==> UnitStatusName(ParseUnitStatus(s).value) == s
  {
    UnitStatusConstantsExact();
    assert x in AllUnitStatuses;
    LookupName(x, AllUnitStatuses, UnitStatusConstants, UnitStatusName);
    LookupExact(s, AllUnitStatuses, UnitStatusConstants, UnitStatusName);
  }

  /** A stored lease status is read back as exactly the value it names, and only the listed strings are read. */
  lemma LeaseStatusRoundTrip(x: LeaseStatus, s: string)
    ensures ParseLeaseStatus(LeaseStatusName(x)) == Some(x)
    ensures ParseLeaseStatus(s).Some? <==> s in LeaseStatusConstants
    ensures ParseLeaseStatus(s).Some? ==> LeaseStatusName(ParseLeaseStatus(s).value) == s
  {
    LeaseStatusConstantsExact();
    assert x in AllLeaseStatuses;
    LookupName(x, AllLeaseStatuses, LeaseStatusConstants, LeaseStatusName);
    LookupExact(s, AllLeaseStatuses, LeaseStatusConstants, LeaseStatusName);
  }

  /** A stored payment status is read back as exactly the value it names, and only the listed strings are read. */
  lemma PaymentStatusRoundTrip(x: PaymentStatus, s: string)
    ensures ParsePaymentStatus(PaymentStatusName(x)) == Some(x)
    ensures ParsePaymentStatus(s).Some? <==> s in PaymentStatusConstants
    ensures ParsePaymentStatus(s).Some? ==> PaymentStatusName(ParsePaymentStatus(s).value) == s
  {
    PaymentStatusConstantsExact();
    assert x in AllPaymentStatuses;
    LookupName(x, AllPaymentStatuses, PaymentStatusConstants, PaymentStatusName);
    LookupExact(s, AllPaymentStatuses, PaymentStatusConstants, PaymentStatusName);
  }

  /** A stored payment method is read back as exactly the value it names, and only the listed strings are read. */
  lemma PaymentMethodRoundTrip(x: PaymentMethod, s: string)
    ensures ParsePaymentMethod(PaymentMethodName(x)) == Some(x)
    ensures ParsePaymentMethod(s).Some? <==> s in PaymentMethodConstants
    ensures ParsePaymentMethod(s).Some? ==> PaymentMethodName(ParsePaymentMethod(s).value) == s
  {
    PaymentMethodConstantsExact();
    assert x in AllPaymentMethods;
    LookupName(x, AllPaymentMethods, PaymentMethodConstants, PaymentMethodName);
    LookupExact(s, AllPaymentMethods, PaymentMethodConstants, PaymentMethodName);
  }

  /** A stored maintenance status is read back as exactly the value it names, and only the listed strings are read. */
  lemma MaintenanceStatusRoundTrip(x: MaintenanceStatus, s: string)
    ensures ParseMaintenanceStatus(MaintenanceStatusName(x)) == Some(x)
    ensures ParseMaintenanceStatus(s).Some? <==> s in MaintenanceStatusConstants
    ensures ParseMaintenanceStatus(s).Some? ==> MaintenanceStatusName(ParseMaintenanceStatus(s).value) == s
  {
    MaintenanceStatusConstantsExact();
    assert x in AllMaintenanceStatuses;
    LookupName(x, AllMaintenanceStatuses, MaintenanceStatusConstants, MaintenanceStatusName);
    LookupExact(s, AllMaintenanceStatuses, MaintenanceStatusConstants, MaintenanceStatusName);
  }

  /** A stored maintenance category is read back as exactly the value it names, and only the listed strings are read. */
  lemma MaintenanceCategoryRoundTrip(x: MaintenanceCategory, s: string)
    ensures ParseMaintenanceCategory(MaintenanceCategoryName(x)) == Some(x)
    ensures ParseMaintenanceCategory(s).Some? <==> s in MaintenanceCategoryConstants
    ensures ParseMaintenanceCategory(s).Some? ==> MaintenanceCategoryName(ParseMaintenanceCategory(s).value) == s
  {
    MaintenanceCategoryConstantsExact();
    assert x in AllMaintenanceCategories;
    LookupName(x, AllMaintenanceCategories, MaintenanceCategoryConstants, MaintenanceCategoryName);
    LookupExact(s, AllMaintenanceCategories, MaintenanceCategoryConstants, MaintenanceCategoryName);
  }

  // ---------------------------------------------------------------------
  // Rows
  // ---------------------------------------------------------------------

  /** A JSON value, as RPC results and audit parameters carry them. */
  datatype Json =
    | JNull
    | JBool(b: bool)
    | JNumber(n: real)
    | JString(s: string)
    | JArray(items: seq<Json>)
    | JObject(fields: map<string, Json>)

  datatype UnitRow = UnitRow(
    unitId: Id,
    propertyId: Id,
    name: string,
    rentAmount: real,
    bedrooms: Option<int>,
    bathrooms: Option<int>,
    squareFeet: Option<int>,
    status: Option<UnitStatus>)

  datatype LeaseRow = LeaseRow(
    leaseId: Id,
    unitId: Id,
    tenantId: Id,
    startDate: int,
    endDate: int,
    monthlyRent: real,
    deposit: Option<real>,
    status: Option<LeaseStatus>,
    terms: Option<string>)

  datatype PaymentRow = PaymentRow(
    paymentId: Id,
    leaseId: Id,
    amount: real,
    dueDate: int,
    lateFee: Option<real>,
    payMethod: Option<PaymentMethod>,
    paidAt: Option<int>,
    status: Option<PaymentStatus>,
    notes: Option<string>)

  datatype HoldRow = HoldRow(
    holdId: Id,
    unitId: Id,
    userId: Id,
    expiresAt: int,
    createdAt: int)

  datatype TenantRow = TenantRow(
    tenantId: Id,
    profileId: Id,
    occupation: Option<string>,
    annualIncome: Option<real>,
    creditScore: Option<int>)

  datatype MaintenanceRequestRow = MaintenanceRequestRow(
    requestId: Id,
    unitId: Id,
    tenantId: Option<Id>,
    category: MaintenanceCategory,
    description: string,
    priority: int,
    status: Option<MaintenanceStatus>,
    estimatedCost: Option<real>,
    actualCost: Option<real>,
    assignedTo: Option<Id>,
    completedAt: Option<int>,
    createdAt: int)

  datatype AuditLogRow = AuditLogRow(
    id: int,
    actor: Option<Id>,
    txid: Option<int>,
    correlationId: Option<string>,
    scope: string,
    op: string,
    objectType: string,
    objectId: Option<string>,
    sqlStatement: Option<string>,
    params: Option<Json>,
    rowsAffected: Option<int>,
    durationMs: Option<int>,
    status: string,
    error: Option<string>,
    createdAt: int)

  /** A row of the `lease_unit_status_mismatches` view: every column nullable. */
  datatype MismatchRow = MismatchRow(
    leaseId: Option<Id>,
    unitId: Option<Id>,
    unitName: Option<string>,
    leaseStatus: Option<LeaseStatus>,
    unitStatus: Option<UnitStatus>,
    issueType: Option<string>,
    startDate: Option<int>,
    endDate: Option<int>)
}
