/**
 * Every run of requests that assign roles: an actor is read once, when its request
 * begins, and may act on that reading at any later time, any number of times.
 */
module GrantClosure {
  import opened Common
  import opened RoleGrants

  datatype State = State(tables: Tables, actors: seq<Actor>)

  datatype Step =
    | Hydrate(tenant: Id, user: Id)                                   // a member's session: its permissions now
    | Assign(actor: nat, userId: Option<Id>, roleId: Option<Id>)
    | ClearRole(tenant: Id, user: Id)                                 // elsewhere: the membership loses its role
    | Leave(tenant: Id, user: Id)                                     // elsewhere: the membership ends

  predicate Enabled(s: State, step: Step) {
    match step
    case Hydrate(tenant, user) => (tenant, user) in s.tables.members
    case Assign(actor, _, _) => actor < |s.actors|
    case ClearRole(tenant, user) => (tenant, user) in s.tables.members
    case Leave(_, _) => true
  }

  /** An assignment that is refused changes nothing. */
  predicate Accepted(s: State, step: Step) {
    step.Assign? && step.actor < |s.actors| && Refusal(s.tables, s.actors[step.actor], step.userId, step.roleId) == None
  }

  function Apply(s: State, step: Step): State {
    match step
    case Hydrate(tenant, user) =>
      s.(actors := s.actors + [Actor(user, tenant, GetPermissionsForUser(s.tables, user, tenant))])
    case Assign(actor, userId, roleId) =>
      if Accepted(s, step) then s.(tables := Assigned(s.tables, s.actors[actor], TextOr(userId), TextOr(roleId))) else s
    case ClearRole(tenant, user) => s.(tables := s.tables.(members := s.tables.members[(tenant, user) := None]))
    case Leave(tenant, user) => s.(tables := s.tables.(members := s.tables.members - {(tenant, user)}))
  }

  predicate Legal(s: State, run: seq<Step>)
    decreases |run|
  {
    run == [] || (Enabled(s, run[0]) && Legal(Apply(s, run[0]), run[1..]))
  }

  function Exec(s: State, run: seq<Step>): State
    decreases |run|
  {
    if run == [] then s else Exec(Apply(s, run[0]), run[1..])
  }

  /** Only memberships and audit rows change. */
  predicate SameRoles(t: Tables, u: Tables) {
    u == t.(members := u.members, audit := u.audit)
  }

  function Held(t: Tables, tenant: Id, user: Id): (r: seq<Key>) {
    GetPermissionsForUser(t, user, tenant)
  }

  // ----------------------------------------------------------------- the invariant

  predicate CoveredBy(t0: Tables, tenant: Id, keys: seq<Key>, user: Id) {
    (tenant, user) in t0.members && RoleGrants.Within(keys, Held(t0, tenant, user))
  }

  /** One member at the start held all these keys at once. */
  ghost predicate Covered(t0: Tables, tenant: Id, keys: seq<Key>) {
    keys == [] || exists user :: CoveredBy(t0, tenant, keys, user)
  }

  ghost predicate Inv(t0: Tables, s: State) {
    SameRoles(t0, s.tables) &&
    (forall tenant, user :: Covered(t0, tenant, Held(s.tables, tenant, user))) &&
    (forall i :: 0 <= i < |s.actors| ==> Covered(t0, s.actors[i].tenantId, s.actors[i].permissions))
  }

  lemma StartInv(t0: Tables)
    ensures Inv(t0, State(t0, []))
  {
    hide RoleGrants.GetPermissionsForUser;
    forall tenant, user ensures Covered(t0, tenant, Held(t0, tenant, user)) {
      if (tenant, user) in t0.members { assert CoveredBy(t0, tenant, Held(t0, tenant, user), user); }
      else { NonMemberHoldsNothing(t0, tenant, user); }
    }
  }

  lemma NonMemberHoldsNothing(t: Tables, tenant: Id, user: Id)
    requires RoleOf(t, tenant, user) == None
    ensures Held(t, tenant, user) == []
  {
  }

  /** What is held depends on the role alone. */
  lemma HeldByRole(t: Tables, u: Tables, tenant: Id, user: Id, user': Id)
    requires SameRoles(t, u) && RoleOf(t, tenant, user) == RoleOf(u, tenant, user')
    ensures Held(t, tenant, user) == Held(u, tenant, user')
  {
    hide SortUnique, RolePermissionKeys;
    if RoleOf(t, tenant, user).Some? {
      assert RolePermissionKeys(t, tenant, RoleOf(t, tenant, user).value) == RolePermissionKeys(u, tenant, RoleOf(t, tenant, user).value) by {
        hide *;
        SameRoleKeys(t, u, tenant, RoleOf(t, tenant, user).value);
      }
    }
  }

  lemma SameRoleKeys(t: Tables, u: Tables, tenant: Id, role: Id)
    requires SameRoles(t, u)
    ensures RolePermissionKeys(t, tenant, role) == RolePermissionKeys(u, tenant, role)
    ensures forall key :: Carries(t, tenant, role, key) <==> Carries(u, tenant, role, key)
  {
    hide Carries;
    forall key ensures Carries(t, tenant, role, key) <==> Carries(u, tenant, role, key) {
      RoleKeysExact(t, tenant, role, key);
      RoleKeysExact(u, tenant, role, key);
    }
  }

  /** After an accepted assignment its member holds keys of the actor's reading, and the actor may assign roles. */
  lemma AssignedWithinReading(s: State, step: Step)
    requires Accepted(s, step)
    ensures var actor := s.actors[step.actor];
            ROLES_MANAGE in actor.permissions &&
            RoleOf(Apply(s, step).tables, actor.tenantId, TextOr(step.userId)) == step.roleId &&
            RoleGrants.Within(Held(Apply(s, step).tables, actor.tenantId, TextOr(step.userId)), actor.permissions)
  {
    hide RoleGrants.GetPermissionsForUser, Refusal, Carries;
    var actor := s.actors[step.actor];
    var after := Apply(s, step).tables;
    AcceptedExactly(s.tables, actor, step.userId, step.roleId);
    PermissionsExact(after, TextOr(step.userId), actor.tenantId);
    SameRoleKeys(s.tables, after, actor.tenantId, TextOr(step.roleId));
  }

  /** Any other member of any tenant holds what it held, or nothing. */
  lemma OthersKeep(s: State, step: Step, tenant: Id, user: Id)
    requires Enabled(s, step)
    requires Accepted(s, step) ==> (tenant, user) != (s.actors[step.actor].tenantId, TextOr(step.userId))
    ensures Held(Apply(s, step).tables, tenant, user) == Held(s.tables, tenant, user)
         || Held(Apply(s, step).tables, tenant, user) == []
  {
    hide RoleGrants.GetPermissionsForUser, Refusal;
    var after := Apply(s, step).tables;
    if RoleOf(after, tenant, user) == RoleOf(s.tables, tenant, user) {
      HeldByRole(after, s.tables, tenant, user, user);
    } else {
      NonMemberHoldsNothing(after, tenant, user);
    }
  }

  lemma CoveredSubset(t0: Tables, tenant: Id, keys: seq<Key>, fewer: seq<Key>)
    requires Covered(t0, tenant, keys) && RoleGrants.Within(fewer, keys)
    ensures Covered(t0, tenant, fewer)
  {
    hide RoleGrants.GetPermissionsForUser;
    if keys == [] {
      NonemptyInto(fewer, keys);
    } else {
      var user :| CoveredBy(t0, tenant, keys, user);
      assert CoveredBy(t0, tenant, fewer, user);
    }
  }

  lemma StepKeepsInv(t0: Tables, s: State, step: Step)
    requires Inv(t0, s) && Enabled(s, step)
    ensures Inv(t0, Apply(s, step))
  {
    hide RoleGrants.GetPermissionsForUser, Refusal, Covered, RoleGrants.Within, RoleOf;
    var after := Apply(s, step);
    forall tenant, user ensures Covered(t0, tenant, Held(after.tables, tenant, user)) {
      assert Covered(t0, tenant, Held(s.tables, tenant, user));
      if Accepted(s, step) && (tenant, user) == (s.actors[step.actor].tenantId, TextOr(step.userId)) {
        AssignedWithinReading(s, step);
        CoveredSubset(t0, tenant, s.actors[step.actor].permissions, Held(after.tables, tenant, user));
      } else {
        OthersKeep(s, step, tenant, user);
        NothingIsCovered(t0, tenant);
      }
    }
    forall i | 0 <= i < |after.actors| ensures Covered(t0, after.actors[i].tenantId, after.actors[i].permissions) {
      if step.Hydrate? { assert Covered(t0, step.tenant, Held(s.tables, step.tenant, step.user)); }
    }
  }

  lemma NothingIsCovered(t0: Tables, tenant: Id)
    ensures Covered(t0, tenant, [])
  {
  }

  lemma {:induction false} RunKeepsInv(t0: Tables, s: State, run: seq<Step>)
    requires Inv(t0, s) && Legal(s, run)
    ensures Inv(t0, Exec(s, run))
    decreases |run|
  {
    hide Inv, Enabled, Apply;
    if run != [] {
      StepKeepsInv(t0, s, run[0]);
      RunKeepsInv(t0, Apply(s, run[0]), run[1..]);
    }
  }

  // -------------------------------------------------------------- what runs keep

  /**
   * Over every run, stale readings included: whatever a user holds in a tenant, one single member
   * of the tenant held all of it at the start. Authority is never combined, let alone made.
   */
  lemma AuthorityNeverCombines(t0: Tables, run: seq<Step>, tenant: Id, user: Id)
    requires Legal(State(t0, []), run)
    requires Held(Exec(State(t0, []), run).tables, tenant, user) != []
    ensures exists u :: CoveredBy(t0, tenant, Held(Exec(State(t0, []), run).tables, tenant, user), u)
  {
    hide RoleGrants.GetPermissionsForUser, Legal, Exec, CoveredBy;
    StartInv(t0);
    RunKeepsInv(t0, State(t0, []), run);
    assert Covered(t0, tenant, Held(Exec(State(t0, []), run).tables, tenant, user));
  }

  /** No user ever holds a key that nobody in the tenant held at the start. */
  lemma NoNewKeys(t0: Tables, run: seq<Step>, tenant: Id, user: Id, key: Key)
    requires Legal(State(t0, []), run) && key in Held(Exec(State(t0, []), run).tables, tenant, user)
    ensures exists u :: (tenant, u) in t0.members && key in Held(t0, tenant, u)
  {
    hide RoleGrants.GetPermissionsForUser, Legal, Exec;
    AuthorityNeverCombines(t0, run, tenant, user);
    var u :| CoveredBy(t0, tenant, Held(Exec(State(t0, []), run).tables, tenant, user), u);
    assert (tenant, u) in t0.members && key in Held(t0, tenant, u);
  }

  /** At the start nobody could hand out the key. */
  ghost predicate NobodyGrants(t0: Tables, tenant: Id, key: Key) {
    forall u :: (tenant, u) in t0.members ==> !(ROLES_MANAGE in Held(t0, tenant, u) && key in Held(t0, tenant, u))
  }

  lemma GrantorsLack(t0: Tables, tenant: Id, reading: seq<Key>, key: Key)
    requires NobodyGrants(t0, tenant, key) && Covered(t0, tenant, reading) && ROLES_MANAGE in reading
    ensures key !in reading
  {
    hide RoleGrants.GetPermissionsForUser;
    var u :| CoveredBy(t0, tenant, reading, u);
    assert ROLES_MANAGE in Held(t0, tenant, u) ==> key !in Held(t0, tenant, u);
  }

  lemma StepShrinksHolders(t0: Tables, s: State, step: Step, tenant: Id, user: Id, key: Key)
    requires Inv(t0, s) && Enabled(s, step) && NobodyGrants(t0, tenant, key)
    requires key in Held(Apply(s, step).tables, tenant, user)
    ensures key in Held(s.tables, tenant, user)
  {
    hide RoleGrants.GetPermissionsForUser, Refusal, RoleOf, NobodyGrants, Covered;
    if Accepted(s, step) && (tenant, user) == (s.actors[step.actor].tenantId, TextOr(step.userId)) {
      AssignedWithinReading(s, step);
      GrantorsLack(t0, tenant, s.actors[step.actor].permissions, key);
    } else {
      OthersKeep(s, step, tenant, user);
    }
  }

  /** A key that nobody could hand out at the start is lost by its holders or kept, never gained. */
  lemma {:induction false} HoldersShrink(t0: Tables, s: State, run: seq<Step>, tenant: Id, user: Id, key: Key)
    requires Inv(t0, s) && Legal(s, run) && NobodyGrants(t0, tenant, key)
    requires key in Held(Exec(s, run).tables, tenant, user)
    ensures key in Held(s.tables, tenant, user)
    decreases |run|
  {
    hide Inv, Enabled, Apply, Held, NobodyGrants;
    if run != [] {
      StepKeepsInv(t0, s, run[0]);
      HoldersShrink(t0, Apply(s, run[0]), run[1..], tenant, user, key);
      StepShrinksHolders(t0, s, run[0], tenant, user, key);
    }
  }

  lemma UngrantableKeysOnlyShrink(t0: Tables, before: seq<Step>, after: seq<Step>, tenant: Id, user: Id, key: Key)
    requires Legal(State(t0, []), before) && Legal(Exec(State(t0, []), before), after) && NobodyGrants(t0, tenant, key)
    requires key in Held(Exec(Exec(State(t0, []), before), after).tables, tenant, user)
    ensures key in Held(Exec(State(t0, []), before).tables, tenant, user)
  {
    hide *;
    StartInv(t0);
    RunKeepsInv(t0, State(t0, []), before);
    HoldersShrink(t0, Exec(State(t0, []), before), after, tenant, user, key);
  }

  // -------------------------------------------------------- exactly what can be granted

  /** Some run ends in an accepted assignment of the role to the user, in the tenant. */
  ghost predicate CanBeGranted(t0: Tables, tenant: Id, user: Id, role: Id) {
    exists run: seq<Step>, actor: nat :: Grants(t0, run, actor, tenant, user, role)
  }

  predicate Grants(t0: Tables, run: seq<Step>, actor: nat, tenant: Id, user: Id, role: Id) {
    Legal(State(t0, []), run) &&
    Accepted(Exec(State(t0, []), run), Assign(actor, Some(user), Some(role))) &&
    Exec(State(t0, []), run).actors[actor].tenantId == tenant
  }

  /** A member that may assign roles and holds every key of the role. */
  predicate Grantor(t0: Tables, tenant: Id, role: Id, u: Id) {
    (tenant, u) in t0.members && ROLES_MANAGE in Held(t0, tenant, u) &&
    RoleGrants.Within(RolePermissionKeys(t0, tenant, role), Held(t0, tenant, u))
  }

  /** The membership rows refer to users. */
  predicate UsersExist(t: Tables) {
    forall m :: m in t.members ==> m.1 in t.users
  }

  lemma RoleKeysWithin(t: Tables, tenant: Id, role: Id, held: seq<Key>)
    ensures RoleGrants.Within(RolePermissionKeys(t, tenant, role), held) <==>
              forall key :: Carries(t, tenant, role, key) ==> key in held
  {
    hide RolePermissionKeys, Carries;
    forall key ensures key in RolePermissionKeys(t, tenant, role) <==> Carries(t, tenant, role, key) {
      RoleKeysExact(t, tenant, role, key);
    }
  }

  /**
   * Over all runs, a role can come to be assigned exactly when at the start one member both may
   * assign roles and holds every key the role carries.
   */
  lemma GrantableExactly(t0: Tables, tenant: Id, user: Id, role: Id)
    requires UsersExist(t0) && user != "" && user in t0.users && role != "" && InTenant(t0, tenant, role)
    ensures CanBeGranted(t0, tenant, user, role) <==> exists u :: Grantor(t0, tenant, role, u)
  {
    hide Grants, Grantor;
    if CanBeGranted(t0, tenant, user, role) {
      var run: seq<Step>, actor: nat :| Grants(t0, run, actor, tenant, user, role);
      var u := GrantHasGrantor(t0, run, actor, tenant, user, role);
    }
    if exists u :: Grantor(t0, tenant, role, u) {
      var u :| Grantor(t0, tenant, role, u);
      GrantorGrants(t0, tenant, user, role, u);
    }
  }

  lemma GrantHasGrantor(t0: Tables, run: seq<Step>, actor: nat, tenant: Id, user: Id, role: Id) returns (u: Id)
    requires Grants(t0, run, actor, tenant, user, role)
    ensures Grantor(t0, tenant, role, u)
  {
    hide RoleGrants.GetPermissionsForUser, Legal, Exec, Refusal, Carries, RolePermissionKeys;
    StartInv(t0);
    RunKeepsInv(t0, State(t0, []), run);
    var s := Exec(State(t0, []), run);
    var reading := s.actors[actor].permissions;
    AcceptedExactly(s.tables, s.actors[actor], Some(user), Some(role));
    assert Covered(t0, tenant, reading);
    u :| CoveredBy(t0, tenant, reading, u);
    SameRoleKeys(t0, s.tables, tenant, role);
    RoleKeysWithin(t0, tenant, role, Held(t0, tenant, u));
  }

  lemma GrantorGrants(t0: Tables, tenant: Id, user: Id, role: Id, u: Id)
    requires UsersExist(t0) && user != "" && user in t0.users && role != "" && InTenant(t0, tenant, role)
    requires Grantor(t0, tenant, role, u)
    ensures Grants(t0, [Hydrate(tenant, u)], 0, tenant, user, role)
  {
    hide RoleGrants.GetPermissionsForUser, Refusal, Carries, RolePermissionKeys;
    var s, run := State(t0, []), [Hydrate(tenant, u)];
    assert run[1..] == [];
    assert Exec(s, run) == Exec(Apply(s, run[0]), []);
    RoleKeysWithin(t0, tenant, role, Held(t0, tenant, u));
    AcceptedExactly(t0, Actor(u, tenant, Held(t0, tenant, u)), Some(user), Some(role));
    assert u in t0.users;
    assert Refusal(t0, Actor(u, tenant, Held(t0, tenant, u)), Some(user), Some(role)) == None;
    assert Legal(s, run);
    assert Exec(s, run).actors == [Actor(u, tenant, Held(t0, tenant, u))];
  }

  /** No request of an actor of one tenant touches another tenant's memberships or audit rows. */
  lemma AssignStaysInTenant(s: State, step: Step, tenant: Id, user: Id)
    requires Accepted(s, step) && tenant != s.actors[step.actor].tenantId
    ensures RoleOf(Apply(s, step).tables, tenant, user) == RoleOf(s.tables, tenant, user)
    ensures Held(Apply(s, step).tables, tenant, user) == Held(s.tables, tenant, user)
    ensures Apply(s, step).tables.audit[..|s.tables.audit|] == s.tables.audit
    ensures |Apply(s, step).tables.audit| == |s.tables.audit| + 1
    ensures Apply(s, step).tables.audit[|s.tables.audit|].tenant != tenant
  {
    hide RoleGrants.GetPermissionsForUser, Refusal;
    HeldByRole(Apply(s, step).tables, s.tables, tenant, user, user);
  }

  // ----------------------------------------------------------------- stale readings

  /** A key the actor held at its reading and no longer holds. */
  predicate Withdrawn(t: Tables, actor: Actor, key: Key) {
    key in actor.permissions && key !in Held(t, actor.tenantId, actor.userId)
  }

  /**
   * The guard tests the reading the request began with. What it hands out is held by the actor at the
   * moment of the write exactly when the role carries no key withdrawn from the actor since its reading.
   */
  lemma GrantWithinCurrentExactly(s: State, step: Step)
    requires Accepted(s, step)
    ensures var actor := s.actors[step.actor];
            RoleGrants.Within(Held(Apply(s, step).tables, actor.tenantId, TextOr(step.userId)),
                              Held(s.tables, actor.tenantId, actor.userId)) <==>
              forall key :: Withdrawn(s.tables, actor, key) ==> !Carries(s.tables, actor.tenantId, TextOr(step.roleId), key)
  {
    hide RoleGrants.GetPermissionsForUser, Refusal, Carries, Increasing;
    var actor := s.actors[step.actor];
    var after := Apply(s, step).tables;
    AcceptedExactly(s.tables, actor, step.userId, step.roleId);
    PermissionsExact(after, TextOr(step.userId), actor.tenantId);
    SameRoleKeys(s.tables, after, actor.tenantId, TextOr(step.roleId));
  }

  const ADMIN_ONLY: Tables := Tables(
    {"a"}, map["r" := Role("t", "admin")], map["p" := Permission("t", ROLES_MANAGE)], [("r", "p")],
    map[("t", "a") := Some("r")], [])

  lemma AdminCarries()
    ensures Carries(ADMIN_ONLY, "t", "r", ROLES_MANAGE)
    ensures forall key :: Carries(ADMIN_ONLY, "t", "r", key) ==> key == ROLES_MANAGE
  {
    assert CarriesAt(ADMIN_ONLY, "t", "r", ROLES_MANAGE, 0);
  }

  /** An administrator whose role was withdrawn after its request began gives the role back to itself. */
  lemma StaleReadingGrants()
    ensures var run := [Hydrate("t", "a"), ClearRole("t", "a")];
            var s := Exec(State(ADMIN_ONLY, []), run);
            Legal(State(ADMIN_ONLY, []), run) && Held(s.tables, "t", "a") == [] &&
            Accepted(s, Assign(0, Some("a"), Some("r"))) &&
            ROLES_MANAGE in Held(Apply(s, Assign(0, Some("a"), Some("r"))).tables, "t", "a")
  {
    hide RoleGrants.GetPermissionsForUser, Refusal, Carries;
    var s0, run := State(ADMIN_ONLY, []), [Hydrate("t", "a"), ClearRole("t", "a")];
    assert run[1..] == [ClearRole("t", "a")] && run[1..][1..] == [];
    var s1 := Apply(s0, run[0]);
    var s := Apply(s1, run[1]);
    assert Legal(s0, run);
    assert Exec(s0, run) == s;
    assert RoleOf(ADMIN_ONLY, "t", "a") == Some("r");
    AdminCarries();
    PermissionsExact(ADMIN_ONLY, "a", "t");
    NonMemberHoldsNothing(s.tables, "t", "a");
    SameRoleKeys(ADMIN_ONLY, s.tables, "t", "r");
    AcceptedExactly(s.tables, s.actors[0], Some("a"), Some("r"));
    var after := Apply(s, Assign(0, Some("a"), Some("r"))).tables;
    SameRoleKeys(ADMIN_ONLY, after, "t", "r");
    PermissionsExact(after, "a", "t");
  }

  // ------------------------------------------------------------------- the audit trail

  /** What the accepted assignments of a run should leave in the audit log, in their order. */
  function Trail(s: State, run: seq<Step>): seq<AuditRow>
    decreases |run|
  {
    if run == [] then []
    else
      var st := run[0];
      (if st.Assign? && Accepted(s, st) then
         var actor, role := s.actors[st.actor], TextOr(st.roleId);
         [AuditRow(actor.tenantId, actor.userId, TextOr(st.userId), role,
                   if role in s.tables.roles then s.tables.roles[role].name else "",
                   |RolePermissionKeys(s.tables, actor.tenantId, role)|)]
       else [])
      + Trail(Apply(s, st), run[1..])
  }

  /** Every accepted assignment leaves one row that names its actor, its user and its role, and nothing else does. */
  lemma {:induction false} AuditTrailExact(s: State, run: seq<Step>)
    requires Legal(s, run)
    ensures Exec(s, run).tables.audit == s.tables.audit + Trail(s, run)
    decreases |run|
  {
    hide RolePermissionKeys, RoleGrants.GetPermissionsForUser, Refusal;
    if run == [] {
      assert s.tables.audit + [] == s.tables.audit;
    } else {
      AuditTrailExact(Apply(s, run[0]), run[1..]);
      OneAuditRow(s, run[0]);
      var row := Apply(s, run[0]).tables.audit[|s.tables.audit|..];
      hide Apply, Accepted;
      assert (s.tables.audit + row) + Trail(Apply(s, run[0]), run[1..]) == s.tables.audit + (row + Trail(Apply(s, run[0]), run[1..]));
    }
  }

  lemma OneAuditRow(s: State, st: Step)
    requires Enabled(s, st)
    ensures var row := if st.Assign? && Accepted(s, st) then
                         var actor, role := s.actors[st.actor], TextOr(st.roleId);
                         [AuditRow(actor.tenantId, actor.userId, TextOr(st.userId), role,
                                   if role in s.tables.roles then s.tables.roles[role].name else "",
                                   |RolePermissionKeys(s.tables, actor.tenantId, role)|)]
                       else [];
            Apply(s, st).tables.audit == s.tables.audit + row
    ensures Apply(s, st).tables.audit[..|s.tables.audit|] == s.tables.audit
  {
    hide RolePermissionKeys, RoleGrants.GetPermissionsForUser;
  }
}
