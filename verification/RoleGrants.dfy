/**
 * Roles and permissions of a tenant: what a member holds, which keys of a role
 * outrank an actor, and the guarded assignment of a role to a member.
 */
module RoleGrants {
  import opened Common
  import opened JsonText
  import opened CanonicalPayload
  import LogValues

  type Id = string
  type Key = Text

  /** "roles.manage" */
  const ROLES_MANAGE: Key := [114, 111, 108, 101, 115, 46, 109, 97, 110, 97, 103, 101]

  datatype Role = Role(tenant: Id, name: string)
  datatype Permission = Permission(tenant: Id, key: Key)
  datatype AuditRow = AuditRow(tenant: Id, actor: Id, resource: Id, role: Id, roleName: string, granted: nat)

  /** Rows by primary key; `members` by its unique (tenant, user), with the role it may carry. */
  datatype Tables = Tables(
    users: set<Id>,
    roles: map<Id, Role>,
    permissions: map<Id, Permission>,
    rolePermissions: seq<(Id, Id)>,
    members: map<(Id, Id), Option<Id>>,
    audit: seq<AuditRow>)

  // ------------------------------------------------------------------ sorted keys

  predicate Increasing(keys: seq<Key>) {
    forall i, k :: 0 <= i < k < |keys| ==> Less(keys[i], keys[k])
  }

  /** Each key precedes the later ones, by code units. */
  predicate Ascending(keys: seq<Key>) {
    forall i, k :: 0 <= i < k < |keys| ==> CodeUnitBefore(keys[i], keys[k])
  }

  lemma IncreasingAscends(keys: seq<Key>)
    ensures Increasing(keys) <==> Ascending(keys)
  {
    hide Less, CodeUnitBefore;
    forall i, k | 0 <= i < k < |keys| ensures Less(keys[i], keys[k]) <==> CodeUnitBefore(keys[i], keys[k]) {
      LessExactly(keys[i], keys[k]);
    }
  }

  function InsertKey(key: Key, sorted: seq<Key>): seq<Key> {
    if sorted == [] || Less(key, sorted[0]) then [key] + sorted
    else if key == sorted[0] then sorted
    else [sorted[0]] + InsertKey(key, sorted[1..])
  }

  /** `[...new Set(keys)].sort()` */
  function SortUnique(keys: seq<Key>): seq<Key> {
    if keys == [] then [] else InsertKey(keys[0], SortUnique(keys[1..]))
  }

  lemma {:induction false} InsertKeySorts(key: Key, sorted: seq<Key>)
    requires Increasing(sorted)
    ensures Increasing(InsertKey(key, sorted))
    ensures forall k :: k in InsertKey(key, sorted) <==> k == key || k in sorted
  {
    hide Less;
    if sorted == [] {
    } else if Less(key, sorted[0]) {
      forall i | 0 < i < |sorted| ensures Less(key, sorted[i]) { LessTransitive(key, sorted[0], sorted[i]); }
    } else if key != sorted[0] {
      LessTotal(key, sorted[0]);
      InsertKeySorts(key, sorted[1..]);
      var rest := InsertKey(key, sorted[1..]);
      forall i | 0 <= i < |rest| ensures Less(sorted[0], rest[i]) {
        assert rest[i] in rest;
        if rest[i] != key {
          var j :| 0 <= j < |sorted[1..]| && sorted[1..][j] == rest[i];
          assert sorted[j + 1] == rest[i];
        }
      }
      assert sorted == [sorted[0]] + sorted[1..];
    }
  }

  /** Sorted, without repeats, and of the same elements. */
  lemma {:induction false} SortUniqueExact(keys: seq<Key>)
    ensures Increasing(SortUnique(keys))
    ensures forall k :: k in SortUnique(keys) <==> k in keys
  {
    hide Less, Increasing;
    if keys == [] {
      NoKeysIncrease();
    } else {
      SortUniqueExact(keys[1..]);
      InsertKeySorts(keys[0], SortUnique(keys[1..]));
      assert keys == [keys[0]] + keys[1..];
    }
  }

  lemma NoKeysIncrease()
    ensures Increasing([])
  {
  }

  /** An increasing list is determined by its elements. */
  lemma {:induction false} IncreasingIsUnique(a: seq<Key>, b: seq<Key>)
    requires Increasing(a) && Increasing(b) && forall k :: k in a <==> k in b
    ensures a == b
  {
    hide Less;
    if a == [] {
      NonemptyInto(b, a);
    } else {
      assert a[0] in b;
      var i :| 0 <= i < |b| && b[i] == a[0];
      assert b[0] in a;
      var j :| 0 <= j < |a| && a[j] == b[0];
      LessTotal(a[0], b[0]);
      assert a[0] == b[0];
      forall k ensures k in a[1..] <==> k in b[1..] {
        SameTail(a, b, k);
        SameTail(b, a, k);
      }
      IncreasingIsUnique(a[1..], b[1..]);
      assert a == [a[0]] + a[1..] && b == [b[0]] + b[1..];
    }
  }

  lemma SameTail(a: seq<Key>, b: seq<Key>, k: Key)
    requires a != [] && b != [] && a[0] == b[0] && Increasing(a) && (k in a ==> k in b)
    ensures k in a[1..] ==> k in b[1..]
  {
    hide Less;
    LessTotal(a[0], a[0]);
    assert a == [a[0]] + a[1..] && b == [b[0]] + b[1..];
  }

  // --------------------------------------------------------- what a member holds

  /** The permission keys of a role in a tenant, in row order. */
  function JoinKeys(rows: seq<(Id, Id)>, permissions: map<Id, Permission>, tenant: Id, role: Id): seq<Key> {
    if rows == [] then []
    else
      var (r, p) := rows[0];
      (if r == role && p in permissions && permissions[p].tenant == tenant then [permissions[p].key] else [])
      + JoinKeys(rows[1..], permissions, tenant, role)
  }

  function RolePermissionKeys(t: Tables, tenant: Id, role: Id): seq<Key> {
    JoinKeys(t.rolePermissions, t.permissions, tenant, role)
  }

  function RoleOf(t: Tables, tenant: Id, user: Id): Option<Id> {
    if (tenant, user) in t.members then t.members[(tenant, user)] else None
  }

  function GetPermissionsForUser(t: Tables, user: Id, tenant: Id): seq<Key> {
    match RoleOf(t, tenant, user)
    case None => []
    case Some(role) => SortUnique(RolePermissionKeys(t, tenant, role))
  }

  predicate CarriesAt(t: Tables, tenant: Id, role: Id, key: Key, i: nat) {
    i < |t.rolePermissions| && t.rolePermissions[i].0 == role && t.rolePermissions[i].1 in t.permissions &&
    t.permissions[t.rolePermissions[i].1] == Permission(tenant, key)
  }

  /** A chain of rows from the role to the key, inside the tenant. */
  predicate Carries(t: Tables, tenant: Id, role: Id, key: Key) {
    exists i :: 0 <= i < |t.rolePermissions| && CarriesAt(t, tenant, role, key, i)
  }

  lemma {:induction false} JoinKeysExact(t: Tables, k: nat, tenant: Id, role: Id, key: Key)
    requires k <= |t.rolePermissions|
    ensures key in JoinKeys(t.rolePermissions[k..], t.permissions, tenant, role)
       <==> exists i :: k <= i < |t.rolePermissions| && CarriesAt(t, tenant, role, key, i)
    decreases |t.rolePermissions| - k
  {
    if k < |t.rolePermissions| {
      JoinKeysExact(t, k + 1, tenant, role, key);
      assert t.rolePermissions[k..][0] == t.rolePermissions[k];
      assert CarriesAt(t, tenant, role, key, k) || !CarriesAt(t, tenant, role, key, k);
      assert t.rolePermissions[k..][1..] == t.rolePermissions[k + 1..];
    }
  }

  lemma RoleKeysExact(t: Tables, tenant: Id, role: Id, key: Key)
    ensures key in RolePermissionKeys(t, tenant, role) <==> Carries(t, tenant, role, key)
  {
    hide CarriesAt;
    JoinKeysExact(t, 0, tenant, role, key);
    assert t.rolePermissions[0..] == t.rolePermissions;
  }

  /** A user holds a key exactly when its membership in the tenant has a role that carries it there. */
  lemma PermissionsExact(t: Tables, user: Id, tenant: Id)
    ensures Increasing(GetPermissionsForUser(t, user, tenant)) && Ascending(GetPermissionsForUser(t, user, tenant))
    ensures forall key :: key in GetPermissionsForUser(t, user, tenant) <==>
              RoleOf(t, tenant, user).Some? && Carries(t, tenant, RoleOf(t, tenant, user).value, key)
  {
    hide Less, Carries, RolePermissionKeys, RoleOf, Ascending;
    IncreasingAscends(GetPermissionsForUser(t, user, tenant));
    match RoleOf(t, tenant, user)
    case None => NoKeysIncrease();
    case Some(role) =>
      SortUniqueExact(RolePermissionKeys(t, tenant, role));
      forall key ensures key in RolePermissionKeys(t, tenant, role) <==> Carries(t, tenant, role, key) {
        RoleKeysExact(t, tenant, role, key);
      }
  }

  // ------------------------------------------------------------- the subset guard

  function Outside(granted: seq<Key>, held: seq<Key>): seq<Key> {
    if granted == [] then []
    else (if granted[0] in held then [] else [granted[0]]) + Outside(granted[1..], held)
  }

  function FindEscalatedPermissions(granted: seq<Key>, held: seq<Key>): seq<Key> {
    SortUnique(Outside(granted, held))
  }

  predicate Within(granted: seq<Key>, held: seq<Key>) {
    forall k :: k in granted ==> k in held
  }

  lemma {:induction false} OutsideExact(granted: seq<Key>, held: seq<Key>, k: Key)
    ensures k in Outside(granted, held) <==> k in granted && k !in held
  {
    if granted != [] {
      OutsideExact(granted[1..], held, k);
      assert granted == [granted[0]] + granted[1..];
    }
  }

  /** The keys that outrank the actor, sorted and each once; none exactly when the grant stays within its authority. */
  lemma FindEscalatedExact(granted: seq<Key>, held: seq<Key>)
    ensures Increasing(FindEscalatedPermissions(granted, held)) && Ascending(FindEscalatedPermissions(granted, held))
    ensures forall k :: k in FindEscalatedPermissions(granted, held) <==> k in granted && k !in held
    ensures FindEscalatedPermissions(granted, held) == [] <==> Within(granted, held)
  {
    hide Less, Outside, Ascending;
    IncreasingAscends(FindEscalatedPermissions(granted, held));
    SortUniqueExact(Outside(granted, held));
    forall k ensures k in Outside(granted, held) <==> k in granted && k !in held { OutsideExact(granted, held, k); }
    var found := FindEscalatedPermissions(granted, held);
    if found != [] { assert found[0] in found; }
  }

  /** Neither the order nor the repeats of the two lists show in what is reported. */
  lemma EscalationIgnoresOrder(granted: seq<Key>, held: seq<Key>, granted': seq<Key>, held': seq<Key>)
    requires forall k :: k in granted <==> k in granted'
    requires forall k :: k in held <==> k in held'
    ensures FindEscalatedPermissions(granted, held) == FindEscalatedPermissions(granted', held')
  {
    hide Less, Increasing, FindEscalatedPermissions;
    FindEscalatedExact(granted, held);
    FindEscalatedExact(granted', held');
    IncreasingIsUnique(FindEscalatedPermissions(granted, held), FindEscalatedPermissions(granted', held'));
  }

  // ----------------------------------------------------------------- assigning a role

  /** An identity with the permissions read for it when its request began. */
  datatype Actor = Actor(userId: Id, tenantId: Id, permissions: seq<Key>)

  datatype AdminError =
    | Authorization(permission: Key)
    | NotFound
    | Escalation(escalated: seq<Key>)
    | ConstraintViolation   // no such user

  /** The input of a request: None stands for a value that is not a string. */
  function TextOr(input: Option<Id>): Id {
    if input.Some? then input.value else ""
  }

  predicate InTenant(t: Tables, tenant: Id, role: Id) {
    role in t.roles && t.roles[role].tenant == tenant
  }

  /** Why an assignment is refused; the first reason counts. */
  function Refusal(t: Tables, actor: Actor, userId: Option<Id>, roleId: Option<Id>): Option<AdminError> {
    if ROLES_MANAGE !in actor.permissions then Some(Authorization(ROLES_MANAGE))
    else if TextOr(userId) == "" || TextOr(roleId) == "" || !InTenant(t, actor.tenantId, TextOr(roleId)) then Some(NotFound)
    else
      var escalated := FindEscalatedPermissions(RolePermissionKeys(t, actor.tenantId, TextOr(roleId)), actor.permissions);
      if escalated != [] then Some(Escalation(escalated))
      else if TextOr(userId) !in t.users || actor.userId !in t.users then Some(ConstraintViolation)
      else None
  }

  /** The one membership of the user in the tenant with its new role, and one audit row. */
  function Assigned(t: Tables, actor: Actor, user: Id, role: Id): Tables
    requires role in t.roles
  {
    t.(members := t.members[(actor.tenantId, user) := Some(role)],
       audit := t.audit + [AuditRow(actor.tenantId, actor.userId, user, role, t.roles[role].name,
                                    |RolePermissionKeys(t, actor.tenantId, role)|)])
  }

  /** Accepted exactly when the actor may assign roles, the role is the tenant's own, and it carries nothing the actor lacks. */
  lemma AcceptedExactly(t: Tables, actor: Actor, userId: Option<Id>, roleId: Option<Id>)
    ensures Refusal(t, actor, userId, roleId) == None <==>
              ROLES_MANAGE in actor.permissions &&
              userId.Some? && userId.value != "" && userId.value in t.users && actor.userId in t.users &&
              roleId.Some? && roleId.value != "" && InTenant(t, actor.tenantId, roleId.value) &&
              forall key :: Carries(t, actor.tenantId, roleId.value, key) ==> key in actor.permissions
  {
    hide FindEscalatedPermissions, RolePermissionKeys, Carries, InTenant, Increasing;
    if roleId.Some? {
      FindEscalatedExact(RolePermissionKeys(t, actor.tenantId, roleId.value), actor.permissions);
      forall key
        ensures key in RolePermissionKeys(t, actor.tenantId, roleId.value) <==> Carries(t, actor.tenantId, roleId.value, key)
      {
        RoleKeysExact(t, actor.tenantId, roleId.value, key);
      }
    }
  }

  lemma RolesManageKey()
    ensures ROLES_MANAGE == LogValues.Units("roles.manage")
  {
  }

  /** The other refusals: the permission to assign roles first, then what is not found in the tenant, then the users. */
  lemma RefusedExactly(t: Tables, actor: Actor, userId: Option<Id>, roleId: Option<Id>)
    ensures var refusal := Refusal(t, actor, userId, roleId);
            var may := ROLES_MANAGE in actor.permissions;
            var given := userId.Some? && userId.value != "" && roleId.Some? && roleId.value != "";
            var found := given && roleId.value in t.roles && t.roles[roleId.value].tenant == actor.tenantId;
            && (refusal.Some? && refusal.value.Authorization? <==> !may)
            && (refusal.Some? && refusal.value.Authorization? ==> refusal.value.permission == ROLES_MANAGE)
            && (refusal == Some(NotFound) <==> may && !found)
            && (refusal == Some(ConstraintViolation) <==>
                  may && found && (userId.value !in t.users || actor.userId !in t.users)
                  && forall key :: Carries(t, actor.tenantId, roleId.value, key) ==> key in actor.permissions)
  {
    hide FindEscalatedPermissions, RolePermissionKeys, Carries, Increasing, Ascending;
    if roleId.Some? {
      FindEscalatedExact(RolePermissionKeys(t, actor.tenantId, roleId.value), actor.permissions);
      forall key
        ensures key in RolePermissionKeys(t, actor.tenantId, roleId.value) <==> Carries(t, actor.tenantId, roleId.value, key)
      {
        RoleKeysExact(t, actor.tenantId, roleId.value, key);
      }
    }
  }

  /** A refusal for escalation names, sorted and each once, exactly the role's keys that the actor lacks. */
  lemma EscalationReported(t: Tables, actor: Actor, userId: Option<Id>, roleId: Option<Id>)
    requires Refusal(t, actor, userId, roleId).Some? && Refusal(t, actor, userId, roleId).value.Escalation?
    ensures var escalated := Refusal(t, actor, userId, roleId).value.escalated;
            Ascending(escalated) && escalated != [] && roleId.Some? &&
            forall key :: key in escalated <==>
              Carries(t, actor.tenantId, roleId.value, key) && key !in actor.permissions
  {
    hide FindEscalatedPermissions, RolePermissionKeys, Carries, InTenant, Increasing;
    var granted := RolePermissionKeys(t, actor.tenantId, TextOr(roleId));
    FindEscalatedExact(granted, actor.permissions);
    forall key ensures key in granted <==> Carries(t, actor.tenantId, TextOr(roleId), key) {
      RoleKeysExact(t, actor.tenantId, TextOr(roleId), key);
    }
  }

  class AdminDatabase {
    var tables: Tables

    constructor (tables: Tables)
      ensures this.tables == tables
    {
      this.tables := tables;
    }

    /** Insert, or on conflict update, inside a transaction; false when a foreign key fails. */
    method UpsertMembership(tenant: Id, user: Id, role: Id) returns (ok: bool)
      modifies this
      ensures ok == (user in old(tables).users && role in old(tables).roles)
      ensures tables == if ok then old(tables).(members := old(tables).members[(tenant, user) := Some(role)]) else old(tables)
    {
      if user !in tables.users || role !in tables.roles { return false; }
      if (tenant, user) in tables.members {
        tables := tables.(members := map m | m in tables.members :: if m == (tenant, user) then Some(role) else tables.members[m]);
      } else {
        tables := tables.(members := tables.members + map[(tenant, user) := Some(role)]);
      }
      ok := true;
      assert tables.members == old(tables).members[(tenant, user) := Some(role)];
    }

    method RecordAudit(row: AuditRow) returns (ok: bool)
      modifies this
      ensures ok == (row.actor in old(tables).users)
      ensures tables == if ok then old(tables).(audit := old(tables).audit + [row]) else old(tables)
    {
      if row.actor !in tables.users { return false; }
      tables := tables.(audit := tables.audit + [row]);
      ok := true;
    }

    /** A refused assignment changes nothing; an accepted one writes the membership and its audit row together. */
    method AssignRole(actor: Actor, userInput: Option<Id>, roleInput: Option<Id>) returns (error: Option<AdminError>)
      modifies this
      ensures error == Refusal(old(tables), actor, userInput, roleInput)
      ensures tables == if error == None then Assigned(old(tables), actor, TextOr(userInput), TextOr(roleInput)) else old(tables)
    {
      hide FindEscalatedPermissions, RolePermissionKeys;
      if ROLES_MANAGE !in actor.permissions { return Some(Authorization(ROLES_MANAGE)); }
      var userId, roleId := TextOr(userInput), TextOr(roleInput);
      if userId == "" || roleId == "" { return Some(NotFound); }
      if !InTenant(tables, actor.tenantId, roleId) { return Some(NotFound); }
      var granted := RolePermissionKeys(tables, actor.tenantId, roleId);
      var escalated := FindEscalatedPermissions(granted, actor.permissions);
      if |escalated| > 0 { return Some(Escalation(escalated)); }
      var before := tables;
      var ok := UpsertMembership(actor.tenantId, userId, roleId);
      if ok {
        ok := RecordAudit(AuditRow(actor.tenantId, actor.userId, userId, roleId, tables.roles[roleId].name, |granted|));
      }
      if !ok {
        tables := before;
        return Some(ConstraintViolation);
      }
      error := None;
    }
  }
}
