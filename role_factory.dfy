/**
 * The role factory (core/role/factories/role.ts): validating the parameters
 * of a new role, building it with fresh metadata, and the factory's own,
 * stricter versions of the permission and management checks that the roles
 * it builds carry.
 */
module RoleFactory {
  import opened Wrappers
  import opened RoleErrors
  import opened RoleModel

  /** The `level` argument: a number, or something else at run time. */
  datatype LevelArg = LevelNumber(n: int) | NotANumber

  /**
   * The parameters of createRole. `permissions` is always an array here, so
   * the factory's array check never reports anything.
   */
  datatype RoleParams = RoleParams(roleType: string, level: LevelArg, permissions: seq<Permission>, createdBy: string)

  /** The errors for missing fields, in the order the factory checks them. */
  function RequiredFieldErrors(params: RoleParams): seq<FieldError> {
    (if params.roleType == "" then [FieldError("type", "Role type is required")] else [])
    + (if params.level.NotANumber? then [FieldError("level", "Role level must be a number")] else [])
    + (if params.createdBy == "" then [FieldError("createdBy", "Creator ID is required")] else [])
  }

  /** The ids of a list of permissions. */
  function IdSet(ps: seq<Permission>): set<string> {
    set i | 0 <= i < |ps| :: ps[i].id
  }

  function DuplicateError(id: string): FieldError {
    FieldError("permissions", "Duplicate permission ID: " + id)
  }

  /**
   * The duplicate errors for a list of permissions: one for each permission
   * whose id already occurred earlier in the list, in list order.
   */
  function DuplicateErrors(ps: seq<Permission>): seq<FieldError>
    decreases |ps|
  {
    if ps == [] then []
    else
      var front := ps[..|ps| - 1];
      var last := ps[|ps| - 1];
      DuplicateErrors(front) + (if last.id in IdSet(front) then [DuplicateError(last.id)] else [])
  }

  /** No two permissions share an id. */
  predicate DistinctIds(ps: seq<Permission>) {
    forall i, j :: 0 <= i < j < |ps| ==> ps[i].id != ps[j].id
  }

  function ValidationErrors(params: RoleParams): seq<FieldError> {
    RequiredFieldErrors(params) + DuplicateErrors(params.permissions)
  }

  /**
   * validateRoleParams: the missing-field errors, then one duplicate error for
   * every permission whose id was seen before it.
   */
  method ValidateRoleParams(params: RoleParams) returns (errors: seq<FieldError>)
    ensures errors == ValidationErrors(params)
  {
    errors := [];
    if params.roleType == "" {
      errors := errors + [FieldError("type", "Role type is required")];
    }
    if params.level.NotANumber? {
      errors := errors + [FieldError("level", "Role level must be a number")];
    }
    if params.createdBy == "" {
      errors := errors + [FieldError("createdBy", "Creator ID is required")];
    }
    errors := PushDuplicateErrors(params.permissions, errors);
  }

  /** The duplicate check of validateRoleParams, pushing onto `errors`. */
  method PushDuplicateErrors(ps: seq<Permission>, errors0: seq<FieldError>) returns (errors: seq<FieldError>)
    ensures errors == errors0 + DuplicateErrors(ps)
  {
    errors := errors0;
    var permissionIds: set<string> := {};
    var i := 0;
    while i < |ps|
      invariant 0 <= i <= |ps|
      invariant permissionIds == IdSet(ps[..i])
      invariant errors == errors0 + DuplicateErrors(ps[..i])
    {
      var permission := ps[i];
      ValidationStep(ps, i);
      if permission.id in permissionIds {
        errors := errors + [DuplicateError(permission.id)];
      }
      permissionIds := permissionIds + {permission.id};
      i := i + 1;
    }
    assert ps[..i] == ps;
  }

  /** What one more permission adds to the seen ids and to the duplicate errors. */
  lemma ValidationStep(ps: seq<Permission>, i: nat)
    requires i < |ps|
    ensures IdSet(ps[..i + 1]) == IdSet(ps[..i]) + {ps[i].id}
    ensures DuplicateErrors(ps[..i + 1])
            == DuplicateErrors(ps[..i]) + (if ps[i].id in IdSet(ps[..i]) then [DuplicateError(ps[i].id)] else [])
  {
    assert ps[..i + 1] == ps[..i] + [ps[i]];
    IdSetSnoc(ps[..i], ps[i]);
    assert ps[..i + 1][..i] == ps[..i];
  }

  /** The ids of a list grown by one permission. */
  lemma IdSetSnoc(ps: seq<Permission>, p: Permission)
    ensures IdSet(ps + [p]) == IdSet(ps) + {p.id}
  {
    var ext := ps + [p];
    forall x | x in IdSet(ext)
      ensures x in IdSet(ps) + {p.id}
    {
      var i :| 0 <= i < |ext| && ext[i].id == x;
      if i < |ps| {
        assert ps[i].id == x;
      }
    }
    forall x | x in IdSet(ps)
      ensures x in IdSet(ext)
    {
      var i :| 0 <= i < |ps| && ps[i].id == x;
      assert ext[i].id == x;
    }
    assert ext[|ps|].id == p.id;
  }

  /**
   * One duplicate error per repeated occurrence: the list has as many errors
   * as permissions beyond the first of each id.
   */
  lemma {:induction false} DuplicateErrorsCount(ps: seq<Permission>)
    ensures |DuplicateErrors(ps)| == |ps| - |IdSet(ps)|
    decreases |ps|
  {
    if ps == [] {
      assert IdSet(ps) == {};
    } else {
      var front := ps[..|ps| - 1];
      var last := ps[|ps| - 1];
      assert ps == front + [last];
      IdSetSnoc(front, last);
      DuplicateErrorsCount(front);
      if last.id in IdSet(front) {
        assert IdSet(ps) == IdSet(front);
      } else {
        assert |IdSet(ps)| == |IdSet(front)| + 1;
      }
    }
  }

  /** There is no duplicate error exactly when the ids are pairwise distinct. */
  lemma {:induction false} NoDuplicateErrorsIff(ps: seq<Permission>)
    ensures DuplicateErrors(ps) == [] <==> DistinctIds(ps)
    decreases |ps|
  {
    if ps != [] {
      var front := ps[..|ps| - 1];
      var last := ps[|ps| - 1];
      NoDuplicateErrorsIff(front);
      if last.id in IdSet(front) {
        var k :| 0 <= k < |front| && front[k].id == last.id;
        assert ps[k].id == ps[|ps| - 1].id;
      } else if DistinctIds(front) {
        forall i, j | 0 <= i < j < |ps|
          ensures ps[i].id != ps[j].id
        {
          if j == |ps| - 1 {
            assert front[i].id in IdSet(front);
          } else {
            assert ps[i] == front[i] && ps[j] == front[j];
          }
        }
      } else {
        var i, j :| 0 <= i < j < |front| && front[i].id == front[j].id;
        assert ps[i].id == ps[j].id;
      }
    }
  }

  /**
   * The validation reports nothing exactly when the type and the creator are
   * non-empty, the level is a number and no permission id repeats.
   */
  lemma ValidationErrorsIff(params: RoleParams)
    ensures ValidationErrors(params) == [] <==>
              params.roleType != "" && params.level.LevelNumber? && params.createdBy != ""
              && DistinctIds(params.permissions)
  {
    NoDuplicateErrorsIff(params.permissions);
  }

  /** Distinct ids make distinct permissions, so `new Set` keeps them all. */
  lemma DistinctIdsIsSet(ps: seq<Permission>)
    requires DistinctIds(ps)
    ensures IsSet(ps)
  {
  }

  /**
   * createRole of the factory: INVALID_ROLE_TYPE with the validation errors
   * when there are any; otherwise a role with the fresh id, the given type,
   * level and permissions, version 1, active, last modified by its creator,
   * whose checks are the factory's.
   */
  method CreateRole(params: RoleParams, freshId: string) returns (r: Result<Role, RoleError>)
    ensures r.Err? <==> ValidationErrors(params) != []
    ensures r.Err? ==> r.error == ValidationError(InvalidRoleType, "Invalid role parameters", ValidationErrors(params))
    ensures r.Ok? ==> && params.level.LevelNumber?
                      && r.value == Role(freshId, params.roleType, params.level.n, params.permissions,
                                         Metadata(1, true, params.createdBy), FactoryMade)
                      && IsSet(r.value.permissions)
  {
    var validationErrors := ValidateRoleParams(params);
    if |validationErrors| > 0 {
      return Err(CreateValidationError(InvalidRoleType, "Invalid role parameters", validationErrors));
    }
    ValidationErrorsIff(params);
    DistinctIdsIsSet(params.permissions);
    var metadata := Metadata(1, true, params.createdBy);
    r := Ok(Role(freshId, params.roleType, params.level.n, params.permissions, metadata, FactoryMade));
  }

  /** hasPermissionImpl: the same context, action and scope; no global wildcard. */
  predicate HasPermissionImpl(permissions: seq<Permission>, wanted: Permission) {
    exists i :: 0 <= i < |permissions|
                && permissions[i].context == wanted.context
                && permissions[i].action == wanted.action
                && permissions[i].scope == wanted.scope
  }

  /** canManageImpl: a higher level and a global manage permission. */
  predicate CanManageImpl(role: Role, other: Role) {
    if role.level >= other.level then false
    else exists i :: 0 <= i < |role.permissions| && role.permissions[i].action == Manage && role.permissions[i].scope == Global
  }

  /** equalsImpl: the same id. */
  predicate EqualsImpl(role: Role, other: Role) {
    role.id == other.id
  }

  /**
   * The factory's permission check is the model's without the global
   * wildcard: whatever it grants the model grants, and the model grants
   * exactly what the factory grants for the wanted scope or for the global
   * scope.
   */
  lemma HasPermissionImplStricter(permissions: seq<Permission>, wanted: Permission)
    ensures HasPermissionImpl(permissions, wanted) ==> HasPermission(permissions, wanted)
    ensures HasPermission(permissions, wanted) <==>
              HasPermissionImpl(permissions, wanted) || HasPermissionImpl(permissions, wanted.(scope := Global))
  {
    if HasPermissionImpl(permissions, wanted) {
      var i :| 0 <= i < |permissions| && permissions[i].context == wanted.context
               && permissions[i].action == wanted.action && permissions[i].scope == wanted.scope;
      assert Grants(permissions[i], wanted);
    }
    if HasPermissionImpl(permissions, wanted.(scope := Global)) {
      var i :| 0 <= i < |permissions| && permissions[i].context == wanted.context
               && permissions[i].action == wanted.action && permissions[i].scope == Global;
      assert Grants(permissions[i], wanted);
    }
  }

  /**
   * The factory's management check is the model's without the group scope:
   * below the other role's level it holds exactly when some permission
   * manages globally, and it implies the model's check.
   */
  lemma CanManageImplStricter(role: Role, other: Role)
    ensures role.level >= other.level ==> !CanManageImpl(role, other)
    ensures role.level < other.level ==>
              (CanManageImpl(role, other) <==> exists q :: q in role.permissions && q.action == Manage && q.scope == Global)
    ensures CanManageImpl(role, other) ==> CanManage(role.level, role.permissions, other)
  {
    if exists q :: q in role.permissions && q.action == Manage && q.scope == Global {
      var q :| q in role.permissions && q.action == Manage && q.scope == Global;
      var i :| 0 <= i < |role.permissions| && role.permissions[i] == q;
      assert role.permissions[i].action == Manage;
    }
    if CanManageImpl(role, other) {
      var i :| 0 <= i < |role.permissions| && role.permissions[i].action == Manage && role.permissions[i].scope == Global;
      assert role.permissions[i] in role.permissions;
      CanManageIff(role.level, role.permissions, other);
    }
  }

  /** A group-scoped manage permission: the model lets it manage, the factory does not. */
  lemma GroupManagerDiffers(other: Role)
    requires other.level > 0
    ensures var groupManager := Role("r", "group_admin", 0, [Permission("p", "group", Manage, GroupScope)],
                                     Metadata(1, true, "u"), FactoryMade);
            CanManage(groupManager.level, groupManager.permissions, other) && !CanManageImpl(groupManager, other)
  {
    var p := Permission("p", "group", Manage, GroupScope);
    assert [p][0] == p;
  }

  // The checks a role carries, taken from whichever createRole built it.

  /** role.hasPermission(permission). */
  predicate RoleHasPermission(role: Role, wanted: Permission) {
    match role.origin
    case ModelMade => HasPermission(role.permissions, wanted)
    case FactoryMade => HasPermissionImpl(role.permissions, wanted)
  }

  /** role.canManage(other). */
  predicate RoleCanManage(role: Role, other: Role) {
    match role.origin
    case ModelMade => CanManage(role.level, role.permissions, other)
    case FactoryMade => CanManageImpl(role, other)
  }

  /** role.equals(other). */
  predicate RoleEquals(role: Role, other: Role) {
    match role.origin
    case ModelMade => SameId(role.id, other.id)
    case FactoryMade => EqualsImpl(role, other)
  }

  /**
   * Whichever createRole built them, two roles are equal exactly when their
   * ids are, so equality is symmetric; a role built by either createRole
   * grants every permission it holds.
   */
  lemma RoleChecks(role: Role, other: Role, wanted: Permission)
    ensures RoleEquals(role, other) <==> role.id == other.id
    ensures RoleEquals(role, other) <==> RoleEquals(other, role)
    ensures wanted in role.permissions ==> RoleHasPermission(role, wanted)
    ensures RoleHasPermission(role, wanted) ==> HasPermission(role.permissions, wanted)
  {
    HasPermissionImplStricter(role.permissions, wanted);
    HasPermissionIff(role.permissions, wanted);
    if wanted in role.permissions {
      var i :| 0 <= i < |role.permissions| && role.permissions[i] == wanted;
      assert role.permissions[i].scope == wanted.scope;
    }
  }
}
