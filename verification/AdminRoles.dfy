/** Administrative roles, groups and capabilities (`permissions.py`). */
module AdminRoles {

  datatype Role = Ops | Support | Finance | Trust | SuperAdmin

  /** A Django group: one of the five role groups, one of the four Phase 4 groups
    * they replaced, or a business group administration does not manage. */
  datatype Group = RoleGroup(role: Role) | Legacy(successor: LegacyRole) | Business(name: string)

  datatype LegacyRole = OperationsAdmin | SupportAgent | FinanceAdmin | TrustVerificationAdmin

  datatype Permission =
    | ViewDashboard | ViewUsers | ViewUserSensitive | ManageUsers | ViewRequests | ManageRequests
    | ViewJourneys | ManageJourneys | ViewMatches | ManageMatches | ViewDeals | ManageDeals | ManageLifecycle
    | ViewOperationalIncidents | ViewSupportContext | ManageCancellations | ViewKyc | ReviewKyc
    | ViewFlightProofs | ReviewFlightProofs | ViewEvidence | ViewDisputes | ManageDisputes | ResolveDisputes
    | ReviewSafety | RecordNoShow | ViewPaymentOrders | ViewPaymentAttempts | ViewProviderEvents | IssueRefunds
    | SettleManualRefunds | ViewPayouts | SettlePayouts | ReconcileFinance | ViewScheduledJobs | ViewRatings
    | ViewBoosts | ViewProviderHealth | ViewSettings | ManageSettings | ManageAdmins | ManagePermissions
    | ViewAuditLog | ViewFinanceSummary | ViewPayoutSensitive | ViewPayoutEvidence | ReviewPayoutProfiles
    | AttestPayoutIdentity | ManagePayoutHolds | RetryPayouts

  /** `ROLE_PERMISSIONS`: the fixed least-privilege matrix. */
  predicate Grants(role: Role, p: Permission) {
    match role
    case Ops =>
      p in {ViewDashboard, ViewRequests, ManageRequests, ViewJourneys, ManageJourneys, ViewMatches, ManageMatches,
            ViewDeals, ManageDeals, ManageLifecycle, ViewOperationalIncidents, ViewSupportContext, ViewRatings,
            ViewBoosts, ViewAuditLog, RecordNoShow, ViewDisputes, ManageDisputes, ViewProviderHealth}
    case Support =>
      p in {ViewDashboard, ViewUsers, ViewRequests, ViewJourneys, ViewDeals, ViewSupportContext, ManageCancellations,
            ViewRatings, ViewAuditLog, ViewDisputes}
    case Finance =>
      p in {ViewFinanceSummary, ViewPayoutSensitive, ViewPayoutEvidence, ReviewPayoutProfiles, ManagePayoutHolds,
            RetryPayouts, ViewDashboard, ViewDeals, ViewPaymentOrders, ViewPaymentAttempts, ViewProviderEvents,
            IssueRefunds, SettleManualRefunds, ViewPayouts, SettlePayouts, ReconcileFinance, ViewScheduledJobs,
            ViewProviderHealth, ViewAuditLog, ViewDisputes, ResolveDisputes}
    case Trust =>
      p in {AttestPayoutIdentity, ManagePayoutHolds, ViewDashboard, ViewUsers, ViewUserSensitive, ViewKyc, ReviewKyc,
            ViewFlightProofs, ReviewFlightProofs, ViewEvidence, ReviewSafety, RecordNoShow, ViewDeals, ViewAuditLog,
            ViewDisputes, ManageDisputes}
    case SuperAdmin => true
  }

  datatype User = User(
    email: string, groups: set<Group>, isStaff: bool, isSuperuser: bool, isActive: bool, isBanned: bool)

  /** `user_admin_roles` */
  function Roles(u: User): set<Role> {
    set r | r in {Ops, Support, Finance, Trust, SuperAdmin} && RoleGroup(r) in u.groups
  }

  lemma RolesMeaning(u: User, r: Role)
    ensures r in Roles(u) <==> RoleGroup(r) in u.groups
  {
  }

  predicate HasAccess(u: User) {
    u.isActive && u.isStaff && !u.isBanned
  }

  /** `has_admin_permission`; permissions come from the role groups alone. */
  predicate HasPermission(u: User, p: Permission) {
    HasAccess(u) && (u.isSuperuser || exists r :: r in Roles(u) && Grants(r, p))
  }

  predicate Managed(g: Group) { !g.Business? }

  /** `assign_admin_roles` */
  function AssignRoles(u: User, roles: set<Role>, elevate: bool): User {
    var kept := set g | g in u.groups && !Managed(g);
    u.(groups := kept + (set r | r in roles :: RoleGroup(r)),
       isStaff := if roles != {} then true else if !u.isSuperuser then false else u.isStaff,
       isSuperuser := if elevate then SuperAdmin in roles else u.isSuperuser)
  }

  /** After an assignment the account has exactly the given roles, no legacy
    * group, and the business groups it had; any role makes it staff, and only an
    * elevating assignment touches the superuser flag. */
  lemma AssignedRoles(u: User, roles: set<Role>, elevate: bool)
    ensures var v := AssignRoles(u, roles, elevate);
      && Roles(v) == roles
      && (forall l :: Legacy(l) !in v.groups)
      && (forall b :: Business(b) in v.groups <==> Business(b) in u.groups)
      && (v.isStaff <==> roles != {} || (u.isStaff && u.isSuperuser))
      && (v.isSuperuser <==> if elevate then SuperAdmin in roles else u.isSuperuser)
      && v.email == u.email && v.isActive == u.isActive && v.isBanned == u.isBanned
  {
    var v := AssignRoles(u, roles, elevate);
    forall r
      ensures r in Roles(v) <==> r in roles
    {
      RolesMeaning(v, r);
    }
  }

  /** The separation of duties: below Super Admin, money moves only through Finance, identity and safety are reviewed
    * only by Trust, business objects are managed only by Ops, and nobody manages users, settings or administrators. */
  lemma SeparatedDuties(role: Role, p: Permission)
    ensures p in {IssueRefunds, SettleManualRefunds, ViewPayouts, SettlePayouts, ReconcileFinance, ViewScheduledJobs,
                  ViewPaymentOrders, ViewPaymentAttempts, ViewProviderEvents, ViewFinanceSummary, ViewPayoutSensitive,
                  ViewPayoutEvidence, ReviewPayoutProfiles, RetryPayouts, ResolveDisputes} ==>
      (Grants(role, p) <==> role in {Finance, SuperAdmin})
    ensures p in {AttestPayoutIdentity, ViewUserSensitive, ViewKyc, ReviewKyc, ViewFlightProofs, ReviewFlightProofs,
                  ViewEvidence, ReviewSafety} ==>
      (Grants(role, p) <==> role in {Trust, SuperAdmin})
    ensures p in {ManageRequests, ViewJourneys, ManageJourneys, ViewMatches, ManageMatches, ManageDeals,
                  ManageLifecycle, ViewOperationalIncidents, ViewBoosts, ViewRequests, ViewRatings,
                  ViewSupportContext} ==>
      (Grants(role, p) <==> role in {Ops, SuperAdmin} || (role == Support && p in {ViewRequests, ViewJourneys,
                                                                                   ViewRatings, ViewSupportContext}))
    ensures p in {ManageUsers, ViewSettings, ManageSettings, ManageAdmins, ManagePermissions} ==>
      (Grants(role, p) <==> role == SuperAdmin)
    ensures p == ManageCancellations ==> (Grants(role, p) <==> role in {Support, SuperAdmin})
    ensures p == ManagePayoutHolds ==> (Grants(role, p) <==> role in {Finance, Trust, SuperAdmin})
    ensures p in {ManageDisputes, RecordNoShow} ==> (Grants(role, p) <==> role in {Ops, Trust, SuperAdmin})
    ensures p == ViewProviderHealth ==> (Grants(role, p) <==> role in {Ops, Finance, SuperAdmin})
    ensures p == ViewUsers ==> (Grants(role, p) <==> role in {Support, Trust, SuperAdmin})
    ensures p in {ViewDashboard, ViewDeals, ViewDisputes, ViewAuditLog} ==> Grants(role, p)
  {
  }

  /** Only the Super Admin role may manage administrators or permissions, so an
    * account whose Super Admin membership implies the superuser flag can do so
    * only as a superuser. */
  lemma ManagersAreSuperusers(u: User, p: Permission)
    requires p == ManageAdmins || p == ManagePermissions
    requires RoleGroup(SuperAdmin) in u.groups ==> u.isSuperuser
    ensures HasPermission(u, p) <==> HasAccess(u) && u.isSuperuser
  {
  }
}
