/** The administrative services among concurrent requests.
  *
  * A service locks the account it changes, but not the actor's: the actor was
  * loaded when the request was authenticated, and may have been disabled or
  * demoted since.  What every interleaving keeps, and the one thing it may lose. */
module AdminRaces {
  import opened Wrappers
  import opened AdminRoles
  import opened AdminServices
  import Invitations

  /** What each request has loaded of its actor. */
  datatype World = World(system: System, loaded: map<nat, (nat, Option<User>)>)

  datatype Event =
    | Authenticate(request: nat, actor: nat)
    | Act(request: nat, op: Op)

  /** The operation a request may perform: an acceptance is bound to the token, any other one to the actor loaded. */
  predicate Enabled(w: World, e: Event) {
    e.Act? && (e.op.AcceptInvitation? || (e.request in w.loaded && w.loaded[e.request].0 == e.op.actor))
  }

  function Who(w: World, e: Event): Option<User>
    requires Enabled(w, e)
  {
    if e.op.AcceptInvitation? then None else w.loaded[e.request].1
  }

  function Next(w: World, e: Event): World {
    match e
    case Authenticate(request, actor) => w.(loaded := w.loaded[request := (actor, Loaded(w.system, actor))])
    case Act(_, op) => if Enabled(w, e) then w.(system := StepAs(w.system, Who(w, e), op)) else w
  }

  function RunAll(w: World, es: seq<Event>): World
    decreases |es|
  {
    if es == [] then w else RunAll(Next(w, es[0]), es[1..])
  }

  function Start(s: System): World { World(s, map[]) }

  // ----------------------------------------------------------------------
  // What every interleaving keeps
  // ----------------------------------------------------------------------

  /** Accounts were loaded from systems whose Super Admin members are superusers. */
  ghost predicate LoadedOk(w: World) {
    forall r :: r in w.loaded && w.loaded[r].1.Some? && RoleGroup(SuperAdmin) in w.loaded[r].1.value.groups
      ==> w.loaded[r].1.value.isSuperuser
  }

  ghost predicate Inv(first: map<nat, User>, w: World) {
    Sound(w.system) && Audited(first, w.system) && LoadedOk(w)
  }

  lemma NextKeeps(first: map<nat, User>, w: World, e: Event)
    requires Inv(first, w)
    ensures Inv(first, Next(w, e))
  {
    if Enabled(w, e) {
      StepKeeps(w.system, Who(w, e), e.op);
      StepAudited(w.system, Who(w, e), e.op);
      AuditedOn(first, w.system, Next(w, e).system);
    }
  }

  lemma {:induction false} RunKeeps(first: map<nat, User>, w: World, es: seq<Event>)
    requires Inv(first, w)
    ensures Inv(first, RunAll(w, es))
    decreases |es|
  {
    if es != [] {
      NextKeeps(first, w, es[0]);
      RunKeeps(first, Next(w, es[0]), es[1..]);
    }
  }

  /** However requests overlap, and however out of date their actors are: members of Super Admin are superusers, every
    * account given a role has exactly that role, and the audit log reproduces every account. */
  lemma RacesKeep(start: System, es: seq<Event>)
    requires start.audit == [] && MembersAreSuperusers(start)
    ensures var s := RunAll(Start(start), es).system;
      && MembersAreSuperusers(s) && OneRoleEach(s)
      && Profiles(s.users) == Fold(Profiles(start.users), s.audit)
      && forall k :: 0 <= k < |s.audit| ==> BeforeAgrees(Fold(Profiles(start.users), s.audit[..k]), s.audit[k])
  {
    RunKeeps(start.users, Start(start), es);
  }

  // ----------------------------------------------------------------------
  // The role an invitation gives
  // ----------------------------------------------------------------------

  lemma {:induction false} RunOneMore(w: World, es: seq<Event>, e: Event)
    ensures RunAll(w, es + [e]) == Next(RunAll(w, es), e)
    decreases |es|
  {
    if es == [] {
      assert [] + [e] == [e] && [e][1..] == [];
      assert RunAll(Next(w, e), []) == Next(w, e);
    } else {
      assert (es + [e])[1..] == es[1..] + [e];
      RunOneMore(Next(w, es[0]), es[1..], e);
    }
  }

  /** The world before event `i`. */
  function Before(start: System, es: seq<Event>, i: nat): World
    requires i <= |es|
  {
    RunAll(Start(start), es[..i])
  }

  /** Event `i` is a granted request to invite `email` to `role`. */
  ghost predicate Invites(start: System, es: seq<Event>, i: nat, id: nat, email: string, role: Role, expiresAt: int) {
    && i < |es| && es[i].Act? && es[i].op.CreateInvitation? && Enabled(Before(start, es, i), es[i])
    && es[i].op.id == id && es[i].op.email == email && es[i].op.role == Some(role)
    && es[i].op.now + es[i].op.ttl == expiresAt
    && AttemptAs(Before(start, es, i).system, Who(Before(start, es, i), es[i]), es[i].op).Ok?
  }

  /** Before event `n`, what invitation `id` offers is what an earlier request asked to offer. */
  ghost predicate AsAsked(start: System, es: seq<Event>, n: nat, id: nat, i: Invitations.Invitation) {
    exists k: nat :: k < n && Invites(start, es, k, id, i.email, i.role, i.expiresAt)
  }

  /** Apart from the one it creates, an operation leaves what invitations offer as it is. */
  lemma OffersStay(s: System, who: Option<User>, op: Op, id: nat)
    requires id in StepAs(s, who, op).invitations
    ensures var i := StepAs(s, who, op).invitations[id];
      if id in s.invitations then
        var was := s.invitations[id]; i.email == was.email && i.role == was.role && i.expiresAt == was.expiresAt
      else
        && op.CreateInvitation? && AttemptAs(s, who, op).Ok? && op.id == id
        && i.email == op.email && Some(i.role) == op.role && i.expiresAt == op.now + op.ttl
  {
  }

  lemma {:induction false} InvitationsAsAsked(start: System, es: seq<Event>, n: nat, id: nat)
    requires start.invitations == map[] && n <= |es| && id in Before(start, es, n).system.invitations
    ensures AsAsked(start, es, n, id, Before(start, es, n).system.invitations[id])
  {
    if n > 0 {
      var w, e := Before(start, es, n - 1), es[n - 1];
      assert es[..n] == es[..n - 1] + [e];
      RunOneMore(Start(start), es[..n - 1], e);
      if id in w.system.invitations {
        InvitationsAsAsked(start, es, n - 1, id);
      }
      if Enabled(w, e) {
        OffersStay(w.system, Who(w, e), e.op, id);
        if id !in w.system.invitations {
          assert Invites(start, es, n - 1, id, e.op.email, e.op.role.value, e.op.now + e.op.ttl);
        }
      }
    }
  }

  /** The account that an acceptance is for. */
  function AcceptedBy(op: Op): nat
    requires op.AcceptInvitation?
  {
    if op.existing.Some? then op.existing.value else op.newId
  }

  /** In every interleaving that starts without invitations: what a granted acceptance gives its account is what an
    * earlier granted request asked for it: exactly that role, for that e-mail address, before it expires; and the
    * account comes out a superuser only if it was one or that role is Super Admin. */
  lemma RoleAsInvited(start: System, es: seq<Event>, n: nat)
    requires start.invitations == map[] && n < |es|
    requires es[n].Act? && es[n].op.AcceptInvitation? && AttemptAs(Before(start, es, n).system, None, es[n].op).Ok?
    ensures var s, s', op := Before(start, es, n).system, Before(start, es, n + 1).system, es[n].op;
      && AcceptedBy(op) in s'.users
      && var u := s'.users[AcceptedBy(op)];
         exists k: nat, role, end: int ::
           && k < n && Invites(start, es, k, op.invitation.value, u.email, role, end)
           && Roles(u) == {role} && op.now < end
           && (u.isSuperuser <==>
                 role == SuperAdmin || (AcceptedBy(op) in s.users && s.users[AcceptedBy(op)].isSuperuser))
  {
    var w, op := Before(start, es, n), es[n].op;
    assert es[..n + 1] == es[..n] + [es[n]];
    RunOneMore(Start(start), es[..n], es[n]);
    var i := w.system.invitations[op.invitation.value];
    InvitationsAsAsked(start, es, n, op.invitation.value);
    var k: nat :| k < n && Invites(start, es, k, op.invitation.value, i.email, i.role, i.expiresAt);
    var u := if op.existing.Some? then w.system.users[op.existing.value] else NewUser(i.email);
    ProvisionedFacts(u, i);
    assert Provisioned(u, i).email == i.email;
  }

  // ----------------------------------------------------------------------
  // What one may lose
  // ----------------------------------------------------------------------

  /** A granted operation disables or demotes the only root there is. */
  ghost predicate TakesLastRoot(w: World, e: Event) {
    && Enabled(w, e) && TakesAccess(e.op)
    && AttemptAs(w.system, Who(w, e), e.op).Ok? && OnlyRoot(w.system, e.op.user)
  }

  ghost predicate NeverTakesLastRoot(w: World, es: seq<Event>)
    decreases |es|
  {
    es != [] ==> !TakesLastRoot(w, es[0]) && NeverTakesLastRoot(Next(w, es[0]), es[1..])
  }

  ghost predicate RootThroughout(w: World, es: seq<Event>)
    decreases |es|
  {
    HasRoot(w.system) && (es != [] ==> RootThroughout(Next(w, es[0]), es[1..]))
  }

  /** A root is there at every moment of a run exactly when no granted operation disables or demotes the only one. */
  lemma {:induction false} RootThroughoutIff(w: World, es: seq<Event>)
    requires HasRoot(w.system)
    ensures RootThroughout(w, es) <==> NeverTakesLastRoot(w, es)
    decreases |es|
  {
    if es != [] {
      if Enabled(w, es[0]) {
        RootLostIff(w.system, Who(w, es[0]), es[0].op);
      }
      if HasRoot(Next(w, es[0]).system) {
        RootThroughoutIff(Next(w, es[0]), es[1..]);
      }
    }
  }

  /** In every interleaving, that takes an actor who was a root when loaded and is none any more. */
  lemma OnlyStaleActorsTakeIt(start: System, es: seq<Event>, e: Event)
    requires start.audit == [] && MembersAreSuperusers(start) && TakesLastRoot(RunAll(Start(start), es), e)
    ensures var w := RunAll(Start(start), es);
      && e.op.actor != e.op.user
      && Who(w, e).Some? && IsRoot(Who(w, e).value)
      && !(e.op.actor in w.system.users && IsRoot(w.system.users[e.op.actor]))
  {
    RunKeeps(start.users, Start(start), es);
    var w := RunAll(Start(start), es);
    TakenByARoot(w.system, Who(w, e), e.op);
  }

  /** Two superusers who disable each other in overlapping requests leave no root behind. */
  lemma TwoDisableEachOther() returns (start: System, es: seq<Event>)
    ensures start.audit == [] && MembersAreSuperusers(start) && HasRoot(start)
    ensures !HasRoot(RunAll(Start(start), es).system)
  {
    var root := User("a", {RoleGroup(SuperAdmin)}, true, true, true, false);
    start := System(map[1 := root, 2 := root.(email := "b")], map[], []);
    assert IsRoot(start.users[1]);
    var w0 := Start(start);
    var w1 := Next(w0, Authenticate(1, 1));
    var w2 := Next(w1, Authenticate(2, 2));
    var first, second := Act(1, SetAccess(1, 2, false)), Act(2, SetAccess(2, 1, false));
    var w3 := Next(w2, first);
    var w4 := Next(w3, second);
    es := [Authenticate(1, 1), Authenticate(2, 2), first, second];
    assert es[1..] == [Authenticate(2, 2), first, second] && es[1..][1..] == [first, second];
    assert [first, second][1..] == [second] && [second][1..] == [];
    assert RunAll(w2, [first, second]) == RunAll(w3, [second]) == RunAll(w4, []) == w4;
    assert RunAll(w0, es) == RunAll(w1, es[1..]) == RunAll(w2, [first, second]);
    assert w4.system.users == map[1 := root.(isActive := false), 2 := root.(email := "b", isActive := false)];
  }
}
