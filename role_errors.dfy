/**
 * The error values of the role domain (core/role/types/errors.ts): four kinds
 * of error, each built by its own constructor and recognised by a guard that
 * looks only at the error's code.
 */
module RoleErrors {
  /** The ten role error codes. */
  datatype ErrorCode =
    | InvalidRoleType
    | InvalidPermission
    | HierarchyViolation
    | CircularReference
    | PermissionDenied
    | RoleNotFound
    | DuplicateRole
    | InvalidOperation
    | MaxDepthExceeded
    | MaxChildrenExceeded

  /** The text each code stands for. */
  function CodeText(c: ErrorCode): (t: string)
    ensures |t| > 5 && t[..5] == "ROLE."
  {
    match c
    case InvalidRoleType => "ROLE.INVALID_TYPE"
    case InvalidPermission => "ROLE.INVALID_PERMISSION"
    case HierarchyViolation => "ROLE.HIERARCHY_VIOLATION"
    case CircularReference => "ROLE.CIRCULAR_REFERENCE"
    case PermissionDenied => "ROLE.PERMISSION_DENIED"
    case RoleNotFound => "ROLE.NOT_FOUND"
    case DuplicateRole => "ROLE.DUPLICATE"
    case InvalidOperation => "ROLE.INVALID_OPERATION"
    case MaxDepthExceeded => "ROLE.MAX_DEPTH_EXCEEDED"
    case MaxChildrenExceeded => "ROLE.MAX_CHILDREN_EXCEEDED"
  }

  /** Distinct codes are distinct strings, so comparing texts compares codes. */
  lemma CodeTextInjective(c: ErrorCode, d: ErrorCode)
    ensures CodeText(c) == CodeText(d) <==> c == d
  {
  }

  /** One entry of a validation error list. */
  datatype FieldError = FieldError(field: string, message: string)

  /**
   * A role error. The timestamp, the optional details and the stack trace of
   * the base error are left out; the search criteria of a not-found error are
   * the role id it was looking for.
   */
  datatype RoleError =
    | ValidationError(code: ErrorCode, message: string, validationErrors: seq<FieldError>)
    | HierarchyError(code: ErrorCode, message: string, path: seq<string>)
    | PermissionError(code: ErrorCode, message: string, requiredPermission: string, actualPermissions: seq<string>)
    | NotFoundError(code: ErrorCode, message: string, searchCriteria: map<string, string>)

  predicate IsValidationCode(c: ErrorCode) {
    c == InvalidRoleType || c == InvalidPermission
  }

  predicate IsHierarchyCode(c: ErrorCode) {
    c == HierarchyViolation || c == CircularReference
  }

  /** createValidationError: the code is one of the two validation codes. */
  function CreateValidationError(code: ErrorCode, message: string, validationErrors: seq<FieldError>): (e: RoleError)
    requires IsValidationCode(code)
    ensures e.ValidationError? && e.code == code && e.message == message
    ensures e.validationErrors == validationErrors
  {
    ValidationError(code, message, validationErrors)
  }

  /** createHierarchyError: the code is one of the two hierarchy codes. */
  function CreateHierarchyError(code: ErrorCode, message: string, path: seq<string>): (e: RoleError)
    requires IsHierarchyCode(code)
    ensures e.HierarchyError? && e.code == code && e.message == message && e.path == path
  {
    HierarchyError(code, message, path)
  }

  /** createPermissionError: always PERMISSION_DENIED. */
  function CreatePermissionError(message: string, requiredPermission: string, actualPermissions: seq<string>): (e: RoleError)
    ensures e.PermissionError? && e.code == PermissionDenied && e.message == message
    ensures e.requiredPermission == requiredPermission && e.actualPermissions == actualPermissions
  {
    PermissionError(PermissionDenied, message, requiredPermission, actualPermissions)
  }

  /** createNotFoundError: always ROLE_NOT_FOUND. */
  function CreateNotFoundError(message: string, searchCriteria: map<string, string>): (e: RoleError)
    ensures e.NotFoundError? && e.code == RoleNotFound && e.message == message
    ensures e.searchCriteria == searchCriteria
  {
    NotFoundError(RoleNotFound, message, searchCriteria)
  }

  // The guards compare the code only.

  predicate IsValidationError(e: RoleError) {
    CodeText(e.code) == CodeText(InvalidRoleType) || CodeText(e.code) == CodeText(InvalidPermission)
  }

  predicate IsHierarchyError(e: RoleError) {
    CodeText(e.code) == CodeText(HierarchyViolation) || CodeText(e.code) == CodeText(CircularReference)
  }

  predicate IsPermissionError(e: RoleError) {
    CodeText(e.code) == CodeText(PermissionDenied)
  }

  predicate IsNotFoundError(e: RoleError) {
    CodeText(e.code) == CodeText(RoleNotFound)
  }

  /** Each guard holds exactly for its codes. */
  lemma GuardsMatchCodes(e: RoleError)
    ensures IsValidationError(e) <==> IsValidationCode(e.code)
    ensures IsHierarchyError(e) <==> IsHierarchyCode(e.code)
    ensures IsPermissionError(e) <==> e.code == PermissionDenied
    ensures IsNotFoundError(e) <==> e.code == RoleNotFound
  {
    CodeTextInjective(e.code, InvalidRoleType);
    CodeTextInjective(e.code, InvalidPermission);
    CodeTextInjective(e.code, HierarchyViolation);
    CodeTextInjective(e.code, CircularReference);
    CodeTextInjective(e.code, PermissionDenied);
    CodeTextInjective(e.code, RoleNotFound);
  }

  /** No error passes two guards. */
  lemma GuardsExclusive(e: RoleError)
    ensures !(IsValidationError(e) && IsHierarchyError(e))
    ensures !(IsValidationError(e) && IsPermissionError(e))
    ensures !(IsValidationError(e) && IsNotFoundError(e))
    ensures !(IsHierarchyError(e) && IsPermissionError(e))
    ensures !(IsHierarchyError(e) && IsNotFoundError(e))
    ensures !(IsPermissionError(e) && IsNotFoundError(e))
  {
    GuardsMatchCodes(e);
  }

  /** The number of guards an error passes. */
  function GuardCount(e: RoleError): nat {
    (if IsValidationError(e) then 1 else 0) + (if IsHierarchyError(e) then 1 else 0)
    + (if IsPermissionError(e) then 1 else 0) + (if IsNotFoundError(e) then 1 else 0)
  }

  /** Every constructor's result passes exactly the guard of its own kind. */
  lemma ConstructorsPassOwnGuard(code: ErrorCode, message: string, fields: seq<FieldError>, path: seq<string>,
                                 required: string, actual: seq<string>, criteria: map<string, string>)
    ensures IsValidationCode(code) ==>
              var e := CreateValidationError(code, message, fields); IsValidationError(e) && GuardCount(e) == 1
    ensures IsHierarchyCode(code) ==>
              var e := CreateHierarchyError(code, message, path); IsHierarchyError(e) && GuardCount(e) == 1
    ensures var e := CreatePermissionError(message, required, actual); IsPermissionError(e) && GuardCount(e) == 1
    ensures var e := CreateNotFoundError(message, criteria); IsNotFoundError(e) && GuardCount(e) == 1
  {
    if IsValidationCode(code) {
      GuardsMatchCodes(CreateValidationError(code, message, fields));
    }
    if IsHierarchyCode(code) {
      GuardsMatchCodes(CreateHierarchyError(code, message, path));
    }
    GuardsMatchCodes(CreatePermissionError(message, required, actual));
    GuardsMatchCodes(CreateNotFoundError(message, criteria));
  }
}
