/**
 * The role model (core/role/models/role.ts): building a role from its parts,
 * checking a permission against a role's permission set, the management rule
 * between two roles, and adding or removing a permission, all as pure
 * functions returning new roles. The permission set holds at most 100
 * permissions.
 */
module RoleModel {
  import opened Wrappers
  import opened RoleErrors

  /** MAX_PERMISSIONS. */
  const MaxPermissions: nat := 100

  // The action and scope names the rules look at.
  const Manage := "manage"
  const Global := "global"
  const GroupScope := "group"

  /**
   * A permission. Its optional `conditions` are never consulted by the role
   * logic and are left out.
   */
  datatype Permission = Permission(id: string, context: string, action: string, scope: string)

  /** The role metadata without its two timestamps. */
  datatype Metadata = Metadata(version: int, isActive: bool, lastModifiedBy: string)

  /**
   * Which implementation the role's own `hasPermission`, `canManage` and
   * `equals` closures were taken from: this module's createRole or the
   * factory's.
   */
  datatype Origin = ModelMade | FactoryMade

  /**
   * A role. The permission set is kept as the sequence `Array.from` lists it
   * in, so it never holds the same permission twice.
   */
  datatype Role = Role(
    id: string,
    roleType: string,
    level: int,
    permissions: seq<Permission>,
    metadata: Metadata,
    origin: Origin)

  /** A JavaScript `Set`: no element twice. */
  predicate IsSet<T(==)>(s: seq<T>) {
    forall i, j :: 0 <= i < j < |s| ==> s[i] != s[j]
  }

  /** `new Set(s).add(p)`: `p` joins the end unless it is already there. */
  function SetAdd<T(==)>(s: seq<T>, p: T): seq<T> {
    if p in s then s else s + [p]
  }

  /** The permissions of `ps` whose id is not `permissionId`, in order. */
  function WithoutId(ps: seq<Permission>, permissionId: string): (r: seq<Permission>)
    ensures |r| <= |ps|
    ensures forall q :: q in r <==> q in ps && q.id != permissionId
  {
    if ps == [] then []
    else (if ps[0].id != permissionId then [ps[0]] else []) + WithoutId(ps[1..], permissionId)
  }

  function TooManyError(): RoleError {
    CreateValidationError(InvalidPermission, "Maximum number of permissions (100) exceeded",
                          [FieldError("permissions", "Too many permissions")])
  }

  /**
   * createRole: fails with INVALID_PERMISSION when the set holds more than 100
   * permissions, and otherwise builds the role from its parts unchanged.
   */
  function CreateRole(id: string, roleType: string, level: int, permissions: seq<Permission>, metadata: Metadata)
    : (r: Result<Role, RoleError>)
    ensures r.Err? <==> |permissions| > MaxPermissions
    ensures r.Err? ==> r.error.code == InvalidPermission && IsValidationError(r.error)
    ensures r.Ok? ==> r.value.id == id && r.value.roleType == roleType && r.value.level == level
                      && r.value.permissions == permissions && r.value.metadata == metadata
                      && r.value.origin == ModelMade
  {
    GuardsMatchCodes(TooManyError());
    if |permissions| > MaxPermissions then Err(TooManyError())
    else Ok(Role(id, roleType, level, permissions, metadata, ModelMade))
  }

  /** One permission grants another: same context and action, same or global scope. */
  predicate Grants(p: Permission, wanted: Permission) {
    p.context == wanted.context && p.action == wanted.action && (p.scope == wanted.scope || p.scope == Global)
  }

  /** hasPermission: some permission of the set grants the wanted one. */
  predicate HasPermission(permissions: seq<Permission>, wanted: Permission) {
    exists i :: 0 <= i < |permissions| && Grants(permissions[i], wanted)
  }

  predicate HasGlobalManagePermission(permissions: seq<Permission>) {
    exists i :: 0 <= i < |permissions| && permissions[i].action == Manage && permissions[i].scope == Global
  }

  predicate HasManagePermissionForScope(permissions: seq<Permission>) {
    exists i :: 0 <= i < |permissions|
                && permissions[i].action == Manage
                && (permissions[i].scope == Global || permissions[i].scope == GroupScope)
  }

  /**
   * canManage: never over a role at the same or a higher level (a smaller
   * level number is higher); otherwise the global manage check, then the
   * scoped one.
   */
  predicate CanManage(level: int, permissions: seq<Permission>, other: Role) {
    if level >= other.level then false
    else if HasGlobalManagePermission(permissions) then true
    else HasManagePermissionForScope(permissions)
  }

  /** equals: the same id. */
  predicate SameId(roleId: string, otherId: string) {
    roleId == otherId
  }

  /**
   * hasPermission holds exactly when a permission with the same context and
   * action has the wanted scope or the global scope; having the wanted
   * permission itself is enough.
   */
  lemma HasPermissionIff(permissions: seq<Permission>, wanted: Permission)
    ensures HasPermission(permissions, wanted) <==>
              (exists q :: q in permissions && q.context == wanted.context && q.action == wanted.action && q.scope == wanted.scope)
              || (exists q :: q in permissions && q.context == wanted.context && q.action == wanted.action && q.scope == Global)
    ensures wanted in permissions ==> HasPermission(permissions, wanted)
  {
    if HasPermission(permissions, wanted) {
      var i :| 0 <= i < |permissions| && Grants(permissions[i], wanted);
      assert permissions[i] in permissions;
    }
    if wanted in permissions {
      var i :| 0 <= i < |permissions| && permissions[i] == wanted;
      assert Grants(permissions[i], wanted);
    }
  }

  /**
   * canManage is false over every role at the same or a higher level; below
   * it, it holds exactly when some permission manages with global or group
   * scope (the global check alone never decides anything the scoped one
   * would not).
   */
  lemma CanManageIff(level: int, permissions: seq<Permission>, other: Role)
    ensures level >= other.level ==> !CanManage(level, permissions, other)
    ensures level < other.level ==>
              (CanManage(level, permissions, other) <==>
                 exists q :: q in permissions && q.action == Manage && (q.scope == Global || q.scope == GroupScope))
  {
    if HasGlobalManagePermission(permissions) {
      var i :| 0 <= i < |permissions| && permissions[i].action == Manage && permissions[i].scope == Global;
      assert permissions[i] in permissions;
    }
    if HasManagePermissionForScope(permissions) {
      var i :| 0 <= i < |permissions| && permissions[i].action == Manage
               && (permissions[i].scope == Global || permissions[i].scope == GroupScope);
      assert permissions[i] in permissions;
    }
    if exists q :: q in permissions && q.action == Manage && (q.scope == Global || q.scope == GroupScope) {
      var q :| q in permissions && q.action == Manage && (q.scope == Global || q.scope == GroupScope);
      var i :| 0 <= i < |permissions| && permissions[i] == q;
      assert permissions[i].action == Manage;
    }
  }

  function LimitReachedError(): RoleError {
    CreateValidationError(InvalidPermission, "Cannot add more permissions. Maximum (100) reached",
                          [FieldError("permissions", "Permission limit exceeded")])
  }

  /**
   * addPermission: refused once 100 permissions are present; otherwise the
   * role rebuilt by createRole with the permission added to a copy of its set.
   */
  function AddPermission(role: Role, permission: Permission): (r: Result<Role, RoleError>)
    ensures r.Err? ==> r.error.code == InvalidPermission
  {
    if |role.permissions| >= MaxPermissions then Err(LimitReachedError())
    else CreateRole(role.id, role.roleType, role.level, SetAdd(role.permissions, permission), role.metadata)
  }

  /**
   * removePermission: the role rebuilt by createRole from the permissions
   * whose id differs from the given one.
   */
  function RemovePermission(role: Role, permissionId: string): (r: Result<Role, RoleError>)
    ensures r.Err? ==> r.error.code == InvalidPermission
  {
    CreateRole(role.id, role.roleType, role.level, WithoutId(role.permissions, permissionId), role.metadata)
  }

  /** Adding keeps a set a set and makes the new permission a member. */
  lemma SetAddIsUnion<T>(s: seq<T>, p: T)
    requires IsSet(s)
    ensures IsSet(SetAdd(s, p))
    ensures forall q :: q in SetAdd(s, p) <==> q in s || q == p
    ensures |SetAdd(s, p)| == if p in s then |s| else |s| + 1
  {
  }

  /**
   * addPermission fails exactly when 100 permissions are already present;
   * otherwise the new role has the same id, type, level and metadata, and
   * its permissions are the old ones plus the new one, which it then grants.
   */
  lemma AddPermissionSpec(role: Role, permission: Permission)
    requires IsSet(role.permissions)
    ensures AddPermission(role, permission).Err? <==> |role.permissions| >= MaxPermissions
    ensures AddPermission(role, permission).Ok? ==>
              var r := AddPermission(role, permission).value;
              && r.id == role.id && r.roleType == role.roleType && r.level == role.level && r.metadata == role.metadata
              && IsSet(r.permissions)
              && (forall q :: q in r.permissions <==> q in role.permissions || q == permission)
              && |r.permissions| <= MaxPermissions
              && HasPermission(r.permissions, permission)
  {
    SetAddIsUnion(role.permissions, permission);
    if |role.permissions| < MaxPermissions {
      HasPermissionIff(SetAdd(role.permissions, permission), permission);
    }
  }

  /** Dropping elements keeps a set a set. */
  lemma {:induction false} WithoutIdIsSet(ps: seq<Permission>, permissionId: string)
    requires IsSet(ps)
    ensures IsSet(WithoutId(ps, permissionId))
    decreases ps
  {
    if ps != [] {
      WithoutIdIsSet(ps[1..], permissionId);
      var rest := WithoutId(ps[1..], permissionId);
      assert ps[0] !in ps[1..];
      assert ps[0] !in rest;
    }
  }

  /**
   * removePermission on a role of at most 100 permissions always succeeds,
   * with the same id, type, level and metadata, and keeps exactly the
   * permissions whose id differs, in their order: none with the removed id
   * is left.
   */
  lemma RemovePermissionSpec(role: Role, permissionId: string)
    requires IsSet(role.permissions)
    ensures |role.permissions| <= MaxPermissions ==> RemovePermission(role, permissionId).Ok?
    ensures RemovePermission(role, permissionId).Ok? ==>
              var r := RemovePermission(role, permissionId).value;
              && r.id == role.id && r.roleType == role.roleType && r.level == role.level && r.metadata == role.metadata
              && r.permissions == WithoutId(role.permissions, permissionId)
              && IsSet(r.permissions)
              && (forall q :: q in r.permissions <==> q in role.permissions && q.id != permissionId)
              && (forall i :: 0 <= i < |r.permissions| ==> r.permissions[i].id != permissionId)
  {
    WithoutIdIsSet(role.permissions, permissionId);
    var kept := WithoutId(role.permissions, permissionId);
    forall i | 0 <= i < |kept|
      ensures kept[i].id != permissionId
    {
      assert kept[i] in kept;
    }
  }

  /**
   * The pair of roles of the model's canManage test: a system administrator
   * at level 0 whose only permission is viewing bookmarks, and a member at
   * level 3. The code refuses the management the test expects, because the
   * administrator holds no `manage` permission.
   */
  lemma AdministratorWithoutManagePermission()
    ensures var view := Permission("test_permission", "bookmark", "view", "personal");
            var meta := Metadata(1, true, "test_user");
            var admin := CreateRole("test_role", "system_admin", 0, [view], meta);
            var member := CreateRole("test_role", "member", 3, [view], meta);
            admin.Ok? && member.Ok? && admin.value.level < member.value.level
            && !CanManage(admin.value.level, admin.value.permissions, member.value)
  {
    var view := Permission("test_permission", "bookmark", "view", "personal");
    CanManageIff(0, [view], CreateRole("test_role", "member", 3, [view], Metadata(1, true, "test_user")).value);
    assert forall q :: q in [view] ==> q.action != Manage;
  }
}
