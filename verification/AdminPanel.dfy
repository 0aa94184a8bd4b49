/** The administrative services as the source writes them: flags set one by one on
  * stored rows, each proved to be the state machine's operation.  `who` is the
  * actor's account as the request loaded it, which may be out of date. */
module AdminPanel {
  import opened Wrappers
  import opened AdminRoles
  import opened Invitations
  import opened AdminServices

  class Panel {
    var users: map<nat, User>
    var invitations: map<nat, Invitation>
    var audit: seq<Record>

    ghost function View(): System
      reads this
    {
      System(users, invitations, audit)
    }

    constructor (users: map<nat, User>)
      ensures View() == System(users, map[], [])
    {
      this.users, invitations, audit := users, map[], [];
    }

    /** `assign_admin_roles` */
    method AssignAdminRoles(user: nat, roles: set<Role>, elevate: bool)
      requires user in users
      modifies this`users
      ensures users == old(users)[user := AssignRoles(old(users[user]), roles, elevate)]
    {
      var u := users[user];
      u := u.(groups := set g | g in u.groups && !Managed(g));
      if roles != {} {
        u := u.(groups := u.groups + set r | r in roles :: RoleGroup(r));
        u := u.(isStaff := true);
      } else if !u.isSuperuser {
        u := u.(isStaff := false);
      }
      if elevate {
        u := u.(isSuperuser := SuperAdmin in roles);
      }
      assert u == AssignRoles(users[user], roles, elevate);
      users := users[user := u];
    }

    /** `AdminAuditLog.save`: a key that is there already is refused. Keys are positions here. */
    method SaveRecord(pk: Option<nat>, record: Record) returns (error: Option<Error>)
      modifies this`audit
      ensures error == if pk.Some? && pk.value < |old(audit)| then Some(ValidationError) else None
      ensures audit == if error.None? then old(audit) + [record] else old(audit)
    {
      if pk.Some? && pk.value < |audit| {
        return Some(ValidationError);
      }
      audit := audit + [record];
      return None;
    }

    /** `AdminAuditLog.delete` */
    method DeleteRecord(pk: nat) returns (error: Option<Error>)
      ensures error == Some(ValidationError)
      ensures audit == old(audit)
    {
      return Some(ValidationError);
    }

    /** `record_admin_action`, for a record without a key. */
    method RecordAction(record: Record)
      modifies this`audit
      ensures audit == old(audit) + [record]
    {
      var error := SaveRecord(None, record);
    }

    method CreateAdminInvitation(actor: nat, who: Option<User>, id: nat, email: string, role: Option<Role>, ttl: int,
                                 now: int) returns (error: Option<Error>)
      modifies this`invitations, this`audit
      ensures View() == StepAs(old(View()), who, CreateInvitation(actor, id, email, role, ttl, now))
      ensures error == Refusal(old(View()), who, CreateInvitation(actor, id, email, role, ttl, now))
      ensures error.Some? ==> View() == old(View())
      ensures forall k :: k in old(invitations) ==> k in invitations && invitations[k] == old(invitations)[k]
      ensures error.None? ==>
        && id !in old(invitations) && id in invitations && Some(invitations[id].role) == role
        && invitations[id].email == email && email != "" && invitations[id].expiresAt == now + ttl > now
        && invitations[id].usedAt == None && invitations[id].revokedAt == None && invitations[id].acceptedBy == None
        && audit == old(audit) + [InvitationCreated(actor, id, role.value)]
    {
      if role.None? {
        return Some(ValueError);
      }
      if who.None? || !HasPermission(who.value, ManageAdmins) {
        return Some(PermissionDenied);
      }
      if role.value == SuperAdmin && !who.value.isSuperuser {
        return Some(PermissionDenied);
      }
      if ttl <= 0 {
        return Some(ValueError);
      }
      if email == "" || id in invitations {
        return Some(ValidationError);
      }
      invitations := invitations[id := Invitation(email, role.value, now + ttl, None, None, None)];
      RecordAction(InvitationCreated(actor, id, role.value));
      return None;
    }

    method RevokeAdminInvitation(actor: nat, who: Option<User>, id: nat, now: int) returns (error: Option<Error>)
      modifies this`invitations, this`audit
      ensures View() == StepAs(old(View()), who, RevokeInvitation(actor, id, now))
      ensures error == Refusal(old(View()), who, RevokeInvitation(actor, id, now))
      ensures error.Some? ==> View() == old(View())
      ensures invitations.Keys == old(invitations).Keys
      ensures forall k :: k in invitations && k != id ==> invitations[k] == old(invitations)[k]
      ensures error.None? ==>
        && id in invitations
        && var i := old(invitations)[id];
           invitations[id] == if i.usedAt == None && i.revokedAt == None && i.expiresAt > now
                              then i.(revokedAt := Some(now)) else i
      ensures error.None? && invitations[id] != old(invitations)[id] ==>
        audit == old(audit) + [InvitationRevoked(actor, id, invitations[id].role)]
    {
      if who.None? || !HasPermission(who.value, ManageAdmins) {
        return Some(PermissionDenied);
      }
      if id !in invitations {
        return Some(DoesNotExist);
      }
      var invitation := invitations[id];
      if invitation.usedAt.None? && invitation.revokedAt.None? && invitation.expiresAt > now {
        invitation := invitation.(revokedAt := Some(now));
        invitations := invitations[id := invitation];
        RecordAction(InvitationRevoked(actor, id, invitation.role));
      }
      return None;
    }

    /** The account of an acceptance, found or new, made that of an administrator. */
    method Provision(id: nat, start: User, invitation: Invitation)
      modifies this`users
      ensures users == old(users)[id := Provisioned(start, invitation)]
    {
      var user := start.(email := invitation.email);
      user := user.(isActive := true);
      user := user.(isStaff := true);
      users := users[id := user];
      AssignAdminRoles(id, {invitation.role}, invitation.role == SuperAdmin);
    }

    method AcceptAdminInvitation(token: Option<nat>, caller: Option<nat>, existing: Option<nat>, newId: nat,
                                 passwordOk: bool, now: int)
      returns (error: Option<Error>)
      modifies this
      ensures View() == StepAs(old(View()), None, AcceptInvitation(token, caller, existing, newId, passwordOk, now))
      ensures error == Refusal(old(View()), None, AcceptInvitation(token, caller, existing, newId, passwordOk, now))
      ensures error.Some? ==> View() == old(View())
      ensures invitations.Keys == old(invitations).Keys
      ensures forall k :: k in invitations && Some(k) != token ==> invitations[k] == old(invitations)[k]
      ensures forall k :: k in old(users) && Some(k) != existing ==> k in users && users[k] == old(users)[k]
      ensures error.None? ==>
        && token.Some? && token.value in old(invitations)
        && var i, id := old(invitations)[token.value], if existing.Some? then existing.value else newId;
           && i.usedAt == None && i.revokedAt == None && i.expiresAt > now
           && (existing.Some? ==> caller == existing) && (existing.None? ==> passwordOk && newId !in old(users))
           && invitations[token.value] == i.(usedAt := Some(now), acceptedBy := Some(id))
           && id in users && users[id].email == i.email
           && audit == old(audit) + [InvitationAccepted(id, i.role, true)]
    {
      if token.None? || token.value !in invitations || !IsActive(invitations[token.value], now) {
        return Some(ValidationError);
      }
      var invitation := invitations[token.value];
      if !Finds(System(users, invitations, audit), invitation.email, existing) {
        return Some(DoesNotExist);
      }
      var user, id;
      if existing.None? {
        if !passwordOk || newId in users {
          return Some(ValidationError);
        }
        user, id := NewUser(invitation.email), newId;
      } else {
        if caller.None? || caller.value != existing.value {
          return Some(PermissionDenied);
        }
        user, id := users[existing.value], existing.value;
      }
      Provision(id, user, invitation);
      invitation := invitation.(usedAt := Some(now));
      invitation := invitation.(acceptedBy := Some(id));
      invitations := invitations[token.value := invitation];
      RecordAction(InvitationAccepted(id, invitation.role, users[id].isStaff));
      return None;
    }

    method ChangeAdminRole(actor: nat, who: Option<User>, user: nat, role: Option<Role>) returns (error: Option<Error>)
      modifies this`users, this`audit
      ensures View() == StepAs(old(View()), who, ChangeRole(actor, user, role))
      ensures error == Refusal(old(View()), who, ChangeRole(actor, user, role))
      ensures error.Some? ==> View() == old(View())
      ensures users.Keys == old(users).Keys
      ensures forall k :: k in users && k != user ==> users[k] == old(users)[k]
      ensures error.None? ==>
        && user in users && role.Some? && Roles(users[user]) == {role.value}
        && users[user].isStaff && (users[user].isSuperuser <==> role == Some(SuperAdmin))
        && users[user].isActive == old(users)[user].isActive
        && audit == old(audit) + [RoleChanged(actor, user, SnapshotOf(old(users)[user]), SnapshotOf(users[user]))]
    {
      if who.None? || !HasPermission(who.value, ManagePermissions) {
        return Some(PermissionDenied);
      }
      if role.None? {
        return Some(ValueError);
      }
      if role.value == SuperAdmin && !who.value.isSuperuser {
        return Some(PermissionDenied);
      }
      if user !in users {
        return Some(DoesNotExist);
      }
      if user == actor && users[user].isSuperuser && role.value != SuperAdmin {
        return Some(ValidationError);
      }
      var before := SnapshotOf(users[user]);
      ReassignedFacts(users[user], role.value, user == actor);
      AssignAdminRoles(user, {role.value}, users[user].isSuperuser || role.value == SuperAdmin);
      // The source demotes here a superuser who is given another role. The assignment has done so already.
      assert !(user != actor && role.value != SuperAdmin && users[user].isSuperuser);
      RecordAction(RoleChanged(actor, user, before, SnapshotOf(users[user])));
      return None;
    }

    method SetAdminAccess(actor: nat, who: Option<User>, user: nat, enabled: bool) returns (error: Option<Error>)
      modifies this`users, this`audit
      ensures View() == StepAs(old(View()), who, SetAccess(actor, user, enabled))
      ensures error == Refusal(old(View()), who, SetAccess(actor, user, enabled))
      ensures error.Some? ==> View() == old(View())
      ensures users.Keys == old(users).Keys
      ensures forall k :: k in users && k != user ==> users[k] == old(users)[k]
      ensures error.None? ==> user in users && users[user] == old(users)[user].(isActive := enabled)
      ensures error.None? ==>
        audit == if old(users)[user].isActive == enabled then old(audit)
        else old(audit) + [AccessChanged(actor, user, !enabled, Roles(users[user]), enabled, Roles(users[user]))]
    {
      if who.None? || !HasPermission(who.value, ManageAdmins) {
        return Some(PermissionDenied);
      }
      if user !in users {
        return Some(DoesNotExist);
      }
      if !users[user].isStaff {
        return Some(ValidationError);
      }
      if user == actor && !enabled {
        return Some(ValidationError);
      }
      if users[user].isSuperuser && !who.value.isSuperuser {
        return Some(PermissionDenied);
      }
      var wasActive, rolesBefore := users[user].isActive, Roles(users[user]);
      if users[user].isActive != enabled {
        users := users[user := users[user].(isActive := enabled)];
        RecordAction(AccessChanged(actor, user, wasActive, rolesBefore, users[user].isActive, Roles(users[user])));
      }
      return None;
    }
  }

  /** The error an operation is refused with. */
  function Refusal(s: System, who: Option<User>, op: AdminServices.Op): Option<Error> {
    var r := AttemptAs(s, who, op);
    if r.Ok? then None else Some(r.error)
  }
}
