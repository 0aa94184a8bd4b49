/** The administrative services as one state machine: invitations, roles, access
  * and the append-only audit log (`services.py`), and what every run keeps. */
module AdminServices {
  import opened Wrappers
  import opened AdminRoles
  import opened Invitations

  /** What an audit record of a role change shows of an account. */
  datatype Snapshot = Snapshot(roles: set<Role>, isStaff: bool, isSuperuser: bool)

  datatype Record =
    | InvitationCreated(actor: nat, invitation: nat, role: Role)
    | InvitationRevoked(actor: nat, invitation: nat, role: Role)
    | InvitationAccepted(user: nat, role: Role, isStaff: bool)
    | RoleChanged(actor: nat, user: nat, before: Snapshot, after: Snapshot)
    | AccessChanged(actor: nat, user: nat, wasActive: bool, rolesBefore: set<Role>, isActive: bool,
                    rolesAfter: set<Role>)

  datatype System = System(users: map<nat, User>, invitations: map<nat, Invitation>, audit: seq<Record>)

  /** `role` is the answer of `normalize_role`, `None` when it raises.  For an
    * acceptance, `invitation` is what the token resolves to, `caller` the signed-in
    * account, `existing` the account with the invitation's e-mail, `newId` the key a
    * new account would get, and `passwordOk` that a usable password was given. */
  datatype Op =
    | CreateInvitation(actor: nat, id: nat, email: string, role: Option<Role>, ttl: int, now: int)
    | RevokeInvitation(actor: nat, id: nat, now: int)
    | AcceptInvitation(invitation: Option<nat>, caller: Option<nat>, existing: Option<nat>, newId: nat,
                       passwordOk: bool, now: int)
    | ChangeRole(actor: nat, user: nat, role: Option<Role>)
    | SetAccess(actor: nat, user: nat, enabled: bool)

  datatype Error = PermissionDenied | ValidationError | ValueError | DoesNotExist

  /** The actor's account as a request loads it. */
  function Loaded(s: System, actor: nat): Option<User> {
    if actor in s.users then Some(s.users[actor]) else None
  }

  predicate May(who: Option<User>, p: Permission) {
    who.Some? && HasPermission(who.value, p)
  }

  function SnapshotOf(u: User): Snapshot { Snapshot(Roles(u), u.isStaff, u.isSuperuser) }

  // ----------------------------------------------------------------------
  // The operations, for an actor whose account the request has loaded as `who`
  // ----------------------------------------------------------------------

  function Create(s: System, who: Option<User>, actor: nat, id: nat, email: string, role: Option<Role>, ttl: int,
                  now: int)
    : Result<System, Error>
  {
    if role.None? then Err(ValueError)
    else if !May(who, ManageAdmins) then Err(PermissionDenied)
    else if role.value == SuperAdmin && !who.value.isSuperuser then Err(PermissionDenied)
    else if ttl <= 0 then Err(ValueError)
    else if email == "" || id in s.invitations then Err(ValidationError)
    else Ok(s.(invitations := s.invitations[id := Invitation(email, role.value, now + ttl, None, None, None)],
               audit := s.audit + [InvitationCreated(actor, id, role.value)]))
  }

  function Revoke(s: System, who: Option<User>, actor: nat, id: nat, now: int): Result<System, Error> {
    if !May(who, ManageAdmins) then Err(PermissionDenied)
    else if id !in s.invitations then Err(DoesNotExist)
    else if !IsActive(s.invitations[id], now) then Ok(s)
    else Ok(s.(invitations := s.invitations[id := Revoked(s.invitations[id], now)],
               audit := s.audit + [InvitationRevoked(actor, id, s.invitations[id].role)]))
  }

  /** The account an acceptance provisions. */
  function Provisioned(u: User, i: Invitation): User {
    AssignRoles(u.(email := i.email, isActive := true, isStaff := true), {i.role}, i.role == SuperAdmin)
  }

  function NewUser(email: string): User { User(email, {}, false, false, true, false) }

  /** The `email__iexact` lookup (addresses are kept normalised). */
  predicate Finds(s: System, email: string, existing: Option<nat>) {
    match existing
    case Some(id) => id in s.users && s.users[id].email == email
    case None => forall id :: id in s.users ==> s.users[id].email != email
  }

  function Accept(s: System, token: Option<nat>, caller: Option<nat>, existing: Option<nat>, newId: nat,
                  passwordOk: bool, now: int): Result<System, Error>
  {
    if token.None? || token.value !in s.invitations || !IsActive(s.invitations[token.value], now) then
      Err(ValidationError)
    else
      var i := s.invitations[token.value];
      if !Finds(s, i.email, existing) then Err(DoesNotExist)
      else if existing.None? && (!passwordOk || newId in s.users) then Err(ValidationError)
      else if existing.Some? && caller != existing then Err(PermissionDenied)
      else
        var id := if existing.Some? then existing.value else newId;
        var user := Provisioned(if existing.Some? then s.users[id] else NewUser(i.email), i);
        Ok(System(s.users[id := user],
                  s.invitations[token.value := Accepted(i, id, now)],
                  s.audit + [InvitationAccepted(id, i.role, user.isStaff)]))
  }

  /** The role change itself, including the explicit demotion of another superuser. */
  function Reassigned(u: User, role: Role, self: bool): User {
    var v := AssignRoles(u, {role}, u.isSuperuser || role == SuperAdmin);
    if !self && role != SuperAdmin && v.isSuperuser then v.(isSuperuser := false) else v
  }

  function Change(s: System, who: Option<User>, actor: nat, user: nat, role: Option<Role>): Result<System, Error> {
    if !May(who, ManagePermissions) then Err(PermissionDenied)
    else if role.None? then Err(ValueError)
    else if role.value == SuperAdmin && !who.value.isSuperuser then Err(PermissionDenied)
    else if user !in s.users then Err(DoesNotExist)
    else if user == actor && s.users[user].isSuperuser && role.value != SuperAdmin then Err(ValidationError)
    else
      var u := s.users[user];
      var v := Reassigned(u, role.value, user == actor);
      Ok(s.(users := s.users[user := v], audit := s.audit + [RoleChanged(actor, user, SnapshotOf(u), SnapshotOf(v))]))
  }

  function Access(s: System, who: Option<User>, actor: nat, user: nat, enabled: bool): Result<System, Error> {
    if !May(who, ManageAdmins) then Err(PermissionDenied)
    else if user !in s.users then Err(DoesNotExist)
    else if !s.users[user].isStaff then Err(ValidationError)
    else if user == actor && !enabled then Err(ValidationError)
    else if s.users[user].isSuperuser && !who.value.isSuperuser then Err(PermissionDenied)
    else if s.users[user].isActive == enabled then Ok(s)
    else
      var u := s.users[user];
      Ok(s.(users := s.users[user := u.(isActive := enabled)],
            audit := s.audit + [AccessChanged(actor, user, u.isActive, Roles(u), enabled, Roles(u))]))
  }

  function AttemptAs(s: System, who: Option<User>, op: Op): Result<System, Error> {
    match op
    case CreateInvitation(actor, id, email, role, ttl, now) => Create(s, who, actor, id, email, role, ttl, now)
    case RevokeInvitation(actor, id, now) => Revoke(s, who, actor, id, now)
    case AcceptInvitation(token, caller, existing, newId, passwordOk, now) =>
      Accept(s, token, caller, existing, newId, passwordOk, now)
    case ChangeRole(actor, user, role) => Change(s, who, actor, user, role)
    case SetAccess(actor, user, enabled) => Access(s, who, actor, user, enabled)
  }

  /** A refused operation is rolled back. */
  function StepAs(s: System, who: Option<User>, op: Op): System {
    var r := AttemptAs(s, who, op);
    if r.Ok? then r.value else s
  }

  /** An operation whose actor is loaded as it starts. */
  function ActorOf(s: System, op: Op): Option<User> {
    if op.AcceptInvitation? then None else Loaded(s, op.actor)
  }

  function Step(s: System, op: Op): System {
    StepAs(s, ActorOf(s, op), op)
  }

  function Run(s: System, ops: seq<Op>): System
    decreases |ops|
  {
    if ops == [] then s else Run(Step(s, ops[0]), ops[1..])
  }

  // ----------------------------------------------------------------------
  // When an operation is granted
  // ----------------------------------------------------------------------

  /** An active, unbanned, staff superuser. */
  predicate IsRoot(u: User) { u.isActive && !u.isBanned && u.isStaff && u.isSuperuser }

  /** An acceptance is granted exactly for an invitation that is unused, unrevoked and not expired, when the account
    * with its e-mail has signed in or, where there is none, a new one is given a usable password. */
  lemma AcceptIff(s: System, token: Option<nat>, caller: Option<nat>, existing: Option<nat>, newId: nat,
                  passwordOk: bool, now: int)
    ensures Accept(s, token, caller, existing, newId, passwordOk, now).Ok? <==>
      && token.Some? && token.value in s.invitations
      && var i := s.invitations[token.value];
         && i.usedAt == None && i.revokedAt == None && now < i.expiresAt
         && match existing
            case Some(id) => id in s.users && s.users[id].email == i.email && caller == Some(id)
            case None => passwordOk && newId !in s.users && forall id :: id in s.users ==> s.users[id].email != i.email
  {
  }

  /** With Super Admin members being superusers, an invitation is created exactly for a known role, a future expiry, an
    * e-mail address and a new key, by an active, unbanned, staff superuser. */
  lemma CreateIff(s: System, who: Option<User>, actor: nat, id: nat, email: string, role: Option<Role>, ttl: int,
                  now: int)
    requires who.Some? && RoleGroup(SuperAdmin) in who.value.groups ==> who.value.isSuperuser
    ensures Create(s, who, actor, id, email, role, ttl, now).Ok? <==>
      && role.Some? && ttl > 0 && email != "" && id !in s.invitations
      && who.Some? && IsRoot(who.value)
  {
    if who.Some? {
      ManagersAreSuperusers(who.value, ManageAdmins);
    }
  }

  /** Whatever the groups of the actor, only a superuser makes a Super Admin or changes the access of a superuser, by an
    * invitation, a role change or an access change that is granted. */
  lemma OnlySuperusersElevate(s: System, who: Option<User>, op: Op)
    requires !op.AcceptInvitation? && AttemptAs(s, who, op).Ok?
    requires || (op.CreateInvitation? && op.role == Some(SuperAdmin))
             || (op.ChangeRole? && op.role == Some(SuperAdmin))
             || (op.SetAccess? && s.users[op.user].isSuperuser)
    ensures who.Some? && who.value.isSuperuser && who.value.isActive && who.value.isStaff && !who.value.isBanned
  {
  }

  /** A role change is granted exactly for a known role and an existing account to an active, unbanned, staff superuser,
    * except that no superuser gives up the role. */
  lemma ChangeIff(s: System, who: Option<User>, actor: nat, user: nat, role: Option<Role>)
    requires who.Some? && RoleGroup(SuperAdmin) in who.value.groups ==> who.value.isSuperuser
    ensures Change(s, who, actor, user, role).Ok? <==>
      && role.Some? && user in s.users && who.Some? && IsRoot(who.value)
      && !(user == actor && s.users[user].isSuperuser && role != Some(SuperAdmin))
  {
    if who.Some? {
      ManagersAreSuperusers(who.value, ManagePermissions);
    }
  }

  /** Access is set exactly for an existing staff account by an active, unbanned, staff superuser, except that none
    * disables its own. */
  lemma AccessIff(s: System, who: Option<User>, actor: nat, user: nat, enabled: bool)
    requires who.Some? && RoleGroup(SuperAdmin) in who.value.groups ==> who.value.isSuperuser
    ensures Access(s, who, actor, user, enabled).Ok? <==>
      && user in s.users && s.users[user].isStaff && who.Some? && IsRoot(who.value)
      && !(user == actor && !enabled)
  {
    if who.Some? {
      ManagersAreSuperusers(who.value, ManageAdmins);
    }
  }

  // ----------------------------------------------------------------------
  // The audit log determines the accounts
  // ----------------------------------------------------------------------

  /** The administrative facts of an account. */
  datatype Profile = Profile(roles: set<Role>, isStaff: bool, isSuperuser: bool, isActive: bool)

  function ProfileOf(u: User): Profile { Profile(Roles(u), u.isStaff, u.isSuperuser, u.isActive) }

  function Profiles(users: map<nat, User>): map<nat, Profile> {
    map id | id in users :: ProfileOf(users[id])
  }

  /** What one record says happened. */
  function Replay(m: map<nat, Profile>, r: Record): map<nat, Profile> {
    match r
    case InvitationAccepted(user, role, isStaff) =>
      m[user := Profile({role}, isStaff, (user in m && m[user].isSuperuser) || role == SuperAdmin, true)]
    case RoleChanged(_, user, _, after) =>
      if user in m then m[user := Profile(after.roles, after.isStaff, after.isSuperuser, m[user].isActive)] else m
    case AccessChanged(_, user, _, _, isActive, roles) =>
      if user in m then m[user := m[user].(isActive := isActive, roles := roles)] else m
    case InvitationCreated(_, _, _) => m
    case InvitationRevoked(_, _, _) => m
  }

  function Fold(m: map<nat, Profile>, audit: seq<Record>): map<nat, Profile>
    decreases |audit|
  {
    if audit == [] then m else Replay(Fold(m, audit[..|audit| - 1]), audit[|audit| - 1])
  }

  /** The `before` values of a record agree with the accounts as they were. */
  predicate BeforeAgrees(m: map<nat, Profile>, r: Record) {
    match r
    case RoleChanged(_, user, before, _) =>
      user in m && before == Snapshot(m[user].roles, m[user].isStaff, m[user].isSuperuser)
    case AccessChanged(_, user, wasActive, rolesBefore, _, _) =>
      user in m && wasActive == m[user].isActive && rolesBefore == m[user].roles
    case _ => true
  }

  /** One account written and one record appended whose replay writes its profile. */
  lemma OneAudited(s: System, s': System, id: nat, user: User, r: Record)
    requires s'.users == s.users[id := user] && s'.audit == s.audit + [r]
    requires Replay(Profiles(s.users), r) == Profiles(s.users)[id := ProfileOf(user)]
    requires BeforeAgrees(Profiles(s.users), r)
    ensures Follows(s, s')
  {
    assert s'.audit[..|s.audit|] == s.audit && s'.audit[|s.audit|] == r;
    assert Profiles(s'.users) == Profiles(s.users)[id := ProfileOf(user)];
  }

  lemma AcceptAudited(s: System, token: Option<nat>, caller: Option<nat>, existing: Option<nat>, newId: nat,
                      passwordOk: bool, now: int)
    requires Accept(s, token, caller, existing, newId, passwordOk, now).Ok?
    ensures Follows(s, Accept(s, token, caller, existing, newId, passwordOk, now).value)
  {
    var s' := Accept(s, token, caller, existing, newId, passwordOk, now).value;
    var i := s.invitations[token.value];
    var id := if existing.Some? then existing.value else newId;
    var u := if existing.Some? then s.users[id] else NewUser(i.email);
    AssignedRoles(u.(email := i.email, isActive := true, isStaff := true), {i.role}, i.role == SuperAdmin);
    OneAudited(s, s', id, Provisioned(u, i), InvitationAccepted(id, i.role, Provisioned(u, i).isStaff));
  }

  lemma ChangeAudited(s: System, who: Option<User>, actor: nat, user: nat, role: Option<Role>)
    requires Change(s, who, actor, user, role).Ok?
    ensures Follows(s, Change(s, who, actor, user, role).value)
  {
    var u := s.users[user];
    var v := Reassigned(u, role.value, user == actor);
    ReassignedFacts(u, role.value, user == actor);
    OneAudited(s, Change(s, who, actor, user, role).value, user, v,
               RoleChanged(actor, user, SnapshotOf(u), SnapshotOf(v)));
  }

  lemma AccessAudited(s: System, who: Option<User>, actor: nat, user: nat, enabled: bool)
    requires Access(s, who, actor, user, enabled).Ok?
    ensures Follows(s, Access(s, who, actor, user, enabled).value)
  {
    var u := s.users[user];
    if u.isActive != enabled {
      OneAudited(s, Access(s, who, actor, user, enabled).value, user, u.(isActive := enabled),
                 AccessChanged(actor, user, u.isActive, Roles(u), enabled, Roles(u)));
    }
  }

  lemma InvitingAudited(s: System, s': System, r: Record)
    requires s'.users == s.users && s'.audit == s.audit + [r] && (r.InvitationCreated? || r.InvitationRevoked?)
    ensures Follows(s, s')
  {
    assert s'.audit[..|s.audit|] == s.audit && s'.audit[|s.audit|] == r;
  }

  /** An operation appends at most one record, whose replay is the operation's effect. */
  lemma StepAudited(s: System, who: Option<User>, op: Op)
    ensures Follows(s, StepAs(s, who, op))
  {
    var r := AttemptAs(s, who, op);
    if r.Ok? && r.value != s {
      match op
      case CreateInvitation(actor, id, email, role, ttl, now) =>
        InvitingAudited(s, r.value, InvitationCreated(actor, id, role.value));
      case RevokeInvitation(actor, id, now) =>
        InvitingAudited(s, r.value, InvitationRevoked(actor, id, s.invitations[id].role));
      case AcceptInvitation(token, caller, existing, newId, passwordOk, now) =>
        AcceptAudited(s, token, caller, existing, newId, passwordOk, now);
      case ChangeRole(actor, user, role) => ChangeAudited(s, who, actor, user, role);
      case SetAccess(actor, user, enabled) => AccessAudited(s, who, actor, user, enabled);
    }
  }

  /** Folding the audit log from the start reproduces every account, and each
    * recorded `before` is the fold of the records before it. */
  lemma {:induction false} AuditReproduces(start: System, ops: seq<Op>)
    requires start.audit == []
    ensures var s := Run(start, ops);
      && Profiles(s.users) == Fold(Profiles(start.users), s.audit)
      && forall k :: 0 <= k < |s.audit| ==> BeforeAgrees(Fold(Profiles(start.users), s.audit[..k]), s.audit[k])
  {
    AuditReproducesFrom(start.users, start, ops);
  }

  ghost predicate Audited(first: map<nat, User>, s: System) {
    && Profiles(s.users) == Fold(Profiles(first), s.audit)
    && forall k :: 0 <= k < |s.audit| ==> BeforeAgrees(Fold(Profiles(first), s.audit[..k]), s.audit[k])
  }

  /** What `StepAudited` says of one step. */
  ghost predicate Follows(s: System, s': System) {
    || (s'.audit == s.audit && Profiles(s'.users) == Profiles(s.users))
    || (|s'.audit| == |s.audit| + 1 && s'.audit[..|s.audit|] == s.audit
        && Profiles(s'.users) == Replay(Profiles(s.users), s'.audit[|s.audit|])
        && BeforeAgrees(Profiles(s.users), s'.audit[|s.audit|]))
  }

  lemma AuditedOn(first: map<nat, User>, s: System, s': System)
    requires Audited(first, s) && Follows(s, s')
    ensures Audited(first, s')
  {
    if s'.audit != s.audit {
      forall k | 0 <= k < |s'.audit|
        ensures BeforeAgrees(Fold(Profiles(first), s'.audit[..k]), s'.audit[k])
      {
        if k < |s.audit| {
          assert s'.audit[k] == s'.audit[..|s.audit|][k] == s.audit[k];
          assert s'.audit[..k] == s'.audit[..|s.audit|][..k] == s.audit[..k];
        } else {
          assert s'.audit[..k] == s.audit;
        }
      }
    }
  }

  lemma {:induction false} AuditReproducesFrom(first: map<nat, User>, s: System, ops: seq<Op>)
    requires Audited(first, s)
    ensures Audited(first, Run(s, ops))
    decreases |ops|
  {
    if ops != [] {
      StepAudited(s, ActorOf(s, ops[0]), ops[0]);
      AuditedOn(first, s, Step(s, ops[0]));
      AuditReproducesFrom(first, Step(s, ops[0]), ops[1..]);
    }
  }

  /** The log only ever grows at its end. */
  lemma {:induction false} AuditAppendOnly(s: System, ops: seq<Op>)
    ensures s.audit <= Run(s, ops).audit
    decreases |ops|
  {
    if ops != [] {
      StepAudited(s, ActorOf(s, ops[0]), ops[0]);
      AuditAppendOnly(Step(s, ops[0]), ops[1..]);
    }
  }

  // ----------------------------------------------------------------------
  // Who can act
  // ----------------------------------------------------------------------

  /** Super Admin membership implies the superuser flag. */
  ghost predicate MembersAreSuperusers(s: System) {
    forall id :: id in s.users && RoleGroup(SuperAdmin) in s.users[id].groups ==> s.users[id].isSuperuser
  }

  ghost predicate HasRoot(s: System) {
    exists id :: id in s.users && IsRoot(s.users[id])
  }

  /** The role the log last gave an account, if any. */
  function LastRole(audit: seq<Record>, user: nat): Option<set<Role>>
    decreases |audit|
  {
    if audit == [] then None
    else
      match audit[|audit| - 1]
      case InvitationAccepted(u, role, _) => if u == user then Some({role}) else LastRole(audit[..|audit| - 1], user)
      case RoleChanged(_, u, _, after) => if u == user then Some(after.roles) else LastRole(audit[..|audit| - 1], user)
      case _ => LastRole(audit[..|audit| - 1], user)
  }

  /** Every account the services have given a role holds exactly that one role and no legacy group. */
  ghost predicate OneRoleEach(s: System) {
    forall id :: LastRole(s.audit, id).Some? ==>
      && id in s.users && Roles(s.users[id]) == LastRole(s.audit, id).value
      && |LastRole(s.audit, id).value| == 1
      && (forall l :: Legacy(l) !in s.users[id].groups)
  }

  ghost predicate Sound(s: System) {
    MembersAreSuperusers(s) && OneRoleEach(s)
  }

  lemma LastRoleAppend(audit: seq<Record>, r: Record, user: nat)
    ensures LastRole(audit + [r], user) ==
      match r
      case InvitationAccepted(u, role, _) => if u == user then Some({role}) else LastRole(audit, user)
      case RoleChanged(_, u, _, after) => if u == user then Some(after.roles) else LastRole(audit, user)
      case _ => LastRole(audit, user)
  {
  }

  lemma ProvisionedFacts(u: User, i: Invitation)
    ensures var v := Provisioned(u, i);
      && Roles(v) == {i.role} && (forall l :: Legacy(l) !in v.groups)
      && (RoleGroup(SuperAdmin) in v.groups ==> v.isSuperuser)
      && v.isStaff && v.isActive && v.isBanned == u.isBanned && v.email == i.email
      && (forall b :: Business(b) in v.groups <==> Business(b) in u.groups)
      && (v.isSuperuser <==> u.isSuperuser || i.role == SuperAdmin)
      && (IsRoot(u) ==> IsRoot(v))
  {
  }

  lemma ReassignedFacts(u: User, role: Role, self: bool)
    ensures var v := Reassigned(u, role, self);
      && Roles(v) == {role} && (forall l :: Legacy(l) !in v.groups)
      && (RoleGroup(SuperAdmin) in v.groups ==> v.isSuperuser)
      && v.isStaff && v.isActive == u.isActive && v.isBanned == u.isBanned && v.email == u.email
      && (forall b :: Business(b) in v.groups <==> Business(b) in u.groups)
      && (v.isSuperuser <==> role == SuperAdmin)
      && (self && IsRoot(u) && role == SuperAdmin ==> IsRoot(v))
  {
  }

  /** One account given a role, as the appended record says. */
  lemma OneRoleGiven(s: System, s': System, id: nat, user: User, r: Record)
    requires Sound(s) && s'.users == s.users[id := user] && s'.audit == s.audit + [r]
    requires RoleGroup(SuperAdmin) in user.groups ==> user.isSuperuser
    requires forall l :: Legacy(l) !in user.groups
    requires |Roles(user)| == 1
    requires forall k :: LastRole(s'.audit, k) == if k == id then Some(Roles(user)) else LastRole(s.audit, k)
    ensures Sound(s')
  {
  }

  lemma AcceptKeeps(s: System, token: Option<nat>, caller: Option<nat>, existing: Option<nat>, newId: nat,
                    passwordOk: bool, now: int)
    requires Sound(s) && Accept(s, token, caller, existing, newId, passwordOk, now).Ok?
    ensures Sound(Accept(s, token, caller, existing, newId, passwordOk, now).value)
  {
    var s' := Accept(s, token, caller, existing, newId, passwordOk, now).value;
    var i := s.invitations[token.value];
    var id := if existing.Some? then existing.value else newId;
    var u := if existing.Some? then s.users[id] else NewUser(i.email);
    ProvisionedFacts(u, i);
    var r := InvitationAccepted(id, i.role, s'.users[id].isStaff);
    forall k
      ensures LastRole(s'.audit, k) == if k == id then Some(Roles(s'.users[id])) else LastRole(s.audit, k)
    {
      LastRoleAppend(s.audit, r, k);
    }
    OneRoleGiven(s, s', id, s'.users[id], r);
  }

  lemma ChangeKeeps(s: System, who: Option<User>, actor: nat, user: nat, role: Option<Role>)
    requires Sound(s) && Change(s, who, actor, user, role).Ok?
    ensures Sound(Change(s, who, actor, user, role).value)
  {
    var s' := Change(s, who, actor, user, role).value;
    var u, v := s.users[user], s'.users[user];
    ReassignedFacts(u, role.value, user == actor);
    var r := RoleChanged(actor, user, SnapshotOf(u), SnapshotOf(v));
    forall k
      ensures LastRole(s'.audit, k) == if k == user then Some(Roles(v)) else LastRole(s.audit, k)
    {
      LastRoleAppend(s.audit, r, k);
    }
    OneRoleGiven(s, s', user, v, r);
  }

  /** Records that give no role, over accounts whose groups and superuser flags stay. */
  lemma NoRoleGiven(s: System, s': System, r: Record)
    requires Sound(s) && s'.audit == s.audit + [r] && s'.users.Keys == s.users.Keys
    requires r.InvitationCreated? || r.InvitationRevoked? || r.AccessChanged?
    requires forall id :: id in s.users ==>
      s'.users[id].groups == s.users[id].groups && s'.users[id].isSuperuser == s.users[id].isSuperuser
    ensures Sound(s')
  {
    forall k
      ensures LastRole(s'.audit, k) == LastRole(s.audit, k)
    {
      LastRoleAppend(s.audit, r, k);
    }
  }

  /** Whatever account the actor was loaded with. */
  lemma StepKeeps(s: System, who: Option<User>, op: Op)
    requires Sound(s)
    ensures Sound(StepAs(s, who, op))
  {
    var r := AttemptAs(s, who, op);
    if r.Ok? && r.value != s {
      match op
      case CreateInvitation(actor, id, email, role, ttl, now) =>
        NoRoleGiven(s, r.value, InvitationCreated(actor, id, role.value));
      case RevokeInvitation(actor, id, now) =>
        NoRoleGiven(s, r.value, InvitationRevoked(actor, id, s.invitations[id].role));
      case AcceptInvitation(token, caller, existing, newId, passwordOk, now) =>
        AcceptKeeps(s, token, caller, existing, newId, passwordOk, now);
      case ChangeRole(actor, user, role) => ChangeKeeps(s, who, actor, user, role);
      case SetAccess(actor, user, enabled) =>
        var u := s.users[user];
        NoRoleGiven(s, r.value, AccessChanged(actor, user, u.isActive, Roles(u), enabled, Roles(u)));
    }
  }

  // ----------------------------------------------------------------------
  // The last root
  // ----------------------------------------------------------------------

  ghost predicate OnlyRoot(s: System, id: nat) {
    id in s.users && IsRoot(s.users[id]) && forall k :: k in s.users && IsRoot(s.users[k]) ==> k == id
  }

  /** Disabling an account, or giving it a role below Super Admin. */
  predicate TakesAccess(op: Op) {
    (op.ChangeRole? && op.role != Some(SuperAdmin)) || (op.SetAccess? && !op.enabled)
  }

  /** An operation writes at most the account it is about. */
  lemma WritesOne(s: System, who: Option<User>, op: Op, id: nat)
    requires op.ChangeRole? || op.SetAccess?
    requires id in s.users
    ensures var s' := StepAs(s, who, op);
      && s'.users.Keys == s.users.Keys
      && (id != op.user ==> s'.users[id] == s.users[id])
      && (id == op.user && IsRoot(s.users[id]) ==>
          (IsRoot(s'.users[id]) <==> !(TakesAccess(op) && AttemptAs(s, who, op).Ok?)))
  {
    if op.ChangeRole? && AttemptAs(s, who, op).Ok? {
      ReassignedFacts(s.users[op.user], op.role.value, op.user == op.actor);
    }
  }

  lemma OthersKeepRoots(s: System, who: Option<User>, op: Op, id: nat)
    requires !op.ChangeRole? && !op.SetAccess? && id in s.users && IsRoot(s.users[id])
    ensures id in StepAs(s, who, op).users && IsRoot(StepAs(s, who, op).users[id])
  {
    if op.AcceptInvitation? && AttemptAs(s, who, op).Ok? {
      ProvisionedFacts(s.users[id], s.invitations[op.invitation.value]);
    }
  }

  /** Whatever account the actor was loaded with: the last root goes exactly when a granted operation disables
    * or demotes the only one there is. */
  lemma RootLostIff(s: System, who: Option<User>, op: Op)
    requires HasRoot(s)
    ensures !HasRoot(StepAs(s, who, op)) <==>
      TakesAccess(op) && AttemptAs(s, who, op).Ok? && OnlyRoot(s, op.user)
  {
    var s' := StepAs(s, who, op);
    if !op.ChangeRole? && !op.SetAccess? {
      var root :| root in s.users && IsRoot(s.users[root]);
      OthersKeepRoots(s, who, op, root);
    } else if TakesAccess(op) && AttemptAs(s, who, op).Ok? && OnlyRoot(s, op.user) {
      forall id | id in s'.users
        ensures !IsRoot(s'.users[id])
      {
        WritesOne(s, who, op, id);
      }
    } else {
      var root :|
        && root in s.users && IsRoot(s.users[root])
        && (TakesAccess(op) && AttemptAs(s, who, op).Ok? ==> root != op.user);
      WritesOne(s, who, op, root);
    }
  }

  /** Taking the last root is granted only to another account, loaded as a root. */
  lemma TakenByARoot(s: System, who: Option<User>, op: Op)
    requires TakesAccess(op) && AttemptAs(s, who, op).Ok? && OnlyRoot(s, op.user)
    requires who.Some? && RoleGroup(SuperAdmin) in who.value.groups ==> who.value.isSuperuser
    ensures op.actor != op.user && who.Some? && IsRoot(who.value)
  {
    ManagersAreSuperusers(who.value, if op.SetAccess? then ManageAdmins else ManagePermissions);
  }

  /** An actor loaded as it is now never takes the last root. */
  lemma FreshActorKeepsRoot(s: System, op: Op)
    requires MembersAreSuperusers(s) && HasRoot(s)
    ensures HasRoot(Step(s, op))
  {
    RootLostIff(s, ActorOf(s, op), op);
    if TakesAccess(op) && AttemptAs(s, ActorOf(s, op), op).Ok? && OnlyRoot(s, op.user) {
      TakenByARoot(s, ActorOf(s, op), op);
    }
  }

  lemma {:induction false} RunSound(s: System, ops: seq<Op>)
    requires Sound(s) && HasRoot(s)
    ensures Sound(Run(s, ops)) && HasRoot(Run(s, ops))
    decreases |ops|
  {
    if ops != [] {
      StepKeeps(s, ActorOf(s, ops[0]), ops[0]);
      FreshActorKeepsRoot(s, ops[0]);
      RunSound(Step(s, ops[0]), ops[1..]);
    }
  }

  /** In every run from a system whose Super Admin members are superusers and
    * that has an active, unbanned, staff superuser: members stay superusers,
    * every account given a role has exactly that role and no legacy group, and
    * such a superuser always remains. */
  lemma IdentityInvariants(start: System, ops: seq<Op>)
    requires start.audit == [] && MembersAreSuperusers(start) && HasRoot(start)
    ensures var s := Run(start, ops); MembersAreSuperusers(s) && HasRoot(s) && OneRoleEach(s)
  {
    RunSound(start, ops);
  }

  /** Acting on administrators takes a superuser in every reachable system: a
    * granted change of role, access or invitation has an active superuser behind it. */
  lemma OnlySuperusersAct(s: System, op: Op)
    requires MembersAreSuperusers(s) && AttemptAs(s, ActorOf(s, op), op).Ok? && !op.AcceptInvitation?
    ensures op.actor in s.users && IsRoot(s.users[op.actor])
  {
    ManagersAreSuperusers(s.users[op.actor], ManageAdmins);
    ManagersAreSuperusers(s.users[op.actor], ManagePermissions);
  }
}
