/**
 * The in-memory role repository (core/role/repositories/role.ts): a `Map`
 * from role id to role, listed in insertion order, with saving, lookup by id,
 * deletion, and the finders that filter its values.
 */
module RoleRepository {
  import opened Wrappers
  import opened RoleErrors
  import opened RoleModel

  /** A `Map` keyed by role id: no id twice. */
  predicate DistinctRoleIds(entries: seq<Role>) {
    forall i, j :: 0 <= i < j < |entries| ==> entries[i].id != entries[j].id
  }

  /** Where the entry for `id` sits, if there is one. */
  function IndexOfId(entries: seq<Role>, id: string): (r: Option<nat>)
    ensures r.Some? ==> r.value < |entries| && entries[r.value].id == id
                        && forall i :: 0 <= i < r.value ==> entries[i].id != id
    ensures r.None? ==> forall i :: 0 <= i < |entries| ==> entries[i].id != id
  {
    if entries == [] then None
    else if entries[0].id == id then Some(0)
    else match IndexOfId(entries[1..], id)
      case None => None
      case Some(k) => Some(k + 1)
  }

  /** `Map.get`. */
  function MapGet(entries: seq<Role>, id: string): Option<Role> {
    match IndexOfId(entries, id)
    case None => None
    case Some(k) => Some(entries[k])
  }

  /** `Map.set`: an existing key keeps its place and takes the new value; a new key goes last. */
  function MapSet(entries: seq<Role>, role: Role): seq<Role> {
    match IndexOfId(entries, role.id)
    case None => entries + [role]
    case Some(k) => entries[k := role]
  }

  /** `Map.delete`. */
  function MapDelete(entries: seq<Role>, id: string): seq<Role> {
    match IndexOfId(entries, id)
    case None => entries
    case Some(k) => entries[..k] + entries[k + 1..]
  }

  /** The values whose type is `roleType`, in map order. */
  function WithType(entries: seq<Role>, roleType: string): (r: seq<Role>)
    ensures |r| <= |entries|
  {
    if entries == [] then []
    else (if entries[0].roleType == roleType then [entries[0]] else []) + WithType(entries[1..], roleType)
  }

  /** The filter keeps order: it distributes over concatenation. */
  lemma {:induction false} WithTypeAppend(a: seq<Role>, b: seq<Role>, roleType: string)
    ensures WithType(a + b, roleType) == WithType(a, roleType) + WithType(b, roleType)
    decreases |a|
  {
    if a == [] {
      assert a + b == b;
    } else {
      var head := if a[0].roleType == roleType then [a[0]] else [];
      assert (a + b)[0] == a[0] && (a + b)[1..] == a[1..] + b;
      assert WithType(a + b, roleType) == head + WithType(a[1..] + b, roleType);
      WithTypeAppend(a[1..], b, roleType);
      assert head + (WithType(a[1..], roleType) + WithType(b, roleType)) == (head + WithType(a[1..], roleType)) + WithType(b, roleType);
    }
  }

  /** The filter keeps each matching element exactly as often as it occurs, and drops the others. */
  lemma {:induction false} WithTypeCount(a: seq<Role>, x: Role, roleType: string)
    ensures multiset(WithType(a, roleType))[x] == if x.roleType == roleType then multiset(a)[x] else 0
    decreases |a|
  {
    if a != [] {
      WithTypeCount(a[1..], x, roleType);
      assert WithType(a, roleType) == (if a[0].roleType == roleType then [a[0]] else []) + WithType(a[1..], roleType);
      assert a == [a[0]] + a[1..];
    }
  }

  /** The values whose level is `level`, in map order. */
  function WithLevel(entries: seq<Role>, level: int): (r: seq<Role>)
    ensures |r| <= |entries|
  {
    if entries == [] then []
    else (if entries[0].level == level then [entries[0]] else []) + WithLevel(entries[1..], level)
  }

  /** The filter keeps order: it distributes over concatenation. */
  lemma {:induction false} WithLevelAppend(a: seq<Role>, b: seq<Role>, level: int)
    ensures WithLevel(a + b, level) == WithLevel(a, level) + WithLevel(b, level)
    decreases |a|
  {
    if a == [] {
      assert a + b == b;
    } else {
      var head := if a[0].level == level then [a[0]] else [];
      assert (a + b)[0] == a[0] && (a + b)[1..] == a[1..] + b;
      assert WithLevel(a + b, level) == head + WithLevel(a[1..] + b, level);
      WithLevelAppend(a[1..], b, level);
      assert head + (WithLevel(a[1..], level) + WithLevel(b, level)) == (head + WithLevel(a[1..], level)) + WithLevel(b, level);
    }
  }

  /** The filter keeps each matching element exactly as often as it occurs, and drops the others. */
  lemma {:induction false} WithLevelCount(a: seq<Role>, x: Role, level: int)
    ensures multiset(WithLevel(a, level))[x] == if x.level == level then multiset(a)[x] else 0
    decreases |a|
  {
    if a != [] {
      WithLevelCount(a[1..], x, level);
      assert WithLevel(a, level) == (if a[0].level == level then [a[0]] else []) + WithLevel(a[1..], level);
      assert a == [a[0]] + a[1..];
    }
  }

  /**
   * The criteria of findBy; an absent criterion does not filter. A present
   * list, even an empty one, must contain the role's type or level.
   */
  datatype Criteria = Criteria(types: Option<seq<string>>, levels: Option<seq<int>>, isActive: Option<bool>)

  predicate Matches(role: Role, criteria: Criteria) {
    if criteria.types.Some? && role.roleType !in criteria.types.value then false
    else if criteria.levels.Some? && role.level !in criteria.levels.value then false
    else if criteria.isActive.Some? && role.metadata.isActive != criteria.isActive.value then false
    else true
  }

  /** The values that meet the criteria, in map order. */
  function MatchingAll(entries: seq<Role>, criteria: Criteria): (r: seq<Role>)
    ensures |r| <= |entries|
  {
    if entries == [] then []
    else (if Matches(entries[0], criteria) then [entries[0]] else []) + MatchingAll(entries[1..], criteria)
  }

  /** The filter keeps order: it distributes over concatenation. */
  lemma {:induction false} MatchingAllAppend(a: seq<Role>, b: seq<Role>, criteria: Criteria)
    ensures MatchingAll(a + b, criteria) == MatchingAll(a, criteria) + MatchingAll(b, criteria)
    decreases |a|
  {
    if a == [] {
      assert a + b == b;
    } else {
      assert (a + b)[0] == a[0] && (a + b)[1..] == a[1..] + b;
      MatchingAllAppend(a[1..], b, criteria);
    }
  }

  /** The filter keeps each matching element exactly as often as it occurs, and drops the others. */
  lemma {:induction false} MatchingAllCount(a: seq<Role>, x: Role, criteria: Criteria)
    ensures multiset(MatchingAll(a, criteria))[x] == if Matches(x, criteria) then multiset(a)[x] else 0
    decreases |a|
  {
    if a != [] {
      MatchingAllCount(a[1..], x, criteria);
      assert MatchingAll(a, criteria) == (if Matches(a[0], criteria) then [a[0]] else []) + MatchingAll(a[1..], criteria);
      assert a == [a[0]] + a[1..];
    }
  }

  function NotFound(id: string): RoleError {
    CreateNotFoundError("Role not found: " + id, map["roleId" := id])
  }

  function NotFoundForDeletion(id: string): RoleError {
    CreateNotFoundError("Role not found for deletion: " + id, map["roleId" := id])
  }

  /** The store behind the repository. */
  class RoleStore {
    var entries: seq<Role>

    /** A `Map` holds each key once. */
    predicate Valid()
      reads this
    {
      DistinctRoleIds(entries)
    }

    /** The empty `Map`. */
    constructor ()
      ensures entries == [] && Valid()
    {
      entries := [];
    }

    /** save: `Map.set` under the role's id; it never fails. */
    method Save(role: Role) returns (r: Result<(), RoleError>)
      requires Valid()
      modifies this
      ensures entries == MapSet(old(entries), role) && r == Ok(())
      ensures Valid() && MapGet(entries, role.id) == Some(role)
    {
      SetThenGet(entries, role, role.id);
      entries := MapSet(entries, role);
      r := Ok(());
    }

    /** findById: the stored role, or ROLE_NOT_FOUND. */
    method FindById(id: string) returns (r: Result<Role, RoleError>)
      ensures MapGet(entries, id).Some? ==> r == Ok(MapGet(entries, id).value)
      ensures MapGet(entries, id).None? ==> r == Err(NotFound(id))
    {
      var role := MapGet(entries, id);
      if role.None? {
        return Err(NotFound(id));
      }
      return Ok(role.value);
    }

    /** findByType. */
    method FindByType(roleType: string) returns (r: Result<seq<Role>, RoleError>)
      ensures r == Ok(WithType(entries, roleType))
    {
      r := Ok(WithType(entries, roleType));
    }

    /** findByLevel. */
    method FindByLevel(level: int) returns (r: Result<seq<Role>, RoleError>)
      ensures r == Ok(WithLevel(entries, level))
    {
      r := Ok(WithLevel(entries, level));
    }

    /** delete: ROLE_NOT_FOUND when the id is absent, and otherwise `Map.delete`. */
    method Delete(id: string) returns (r: Result<(), RoleError>)
      requires Valid()
      modifies this
      ensures MapGet(old(entries), id).None? ==> r == Err(NotFoundForDeletion(id)) && entries == old(entries)
      ensures MapGet(old(entries), id).Some? ==> r == Ok(()) && entries == MapDelete(old(entries), id)
      ensures Valid() && MapGet(entries, id).None?
    {
      if MapGet(entries, id).None? {
        return Err(NotFoundForDeletion(id));
      }
      DeleteThenGet(entries, id, id);
      entries := MapDelete(entries, id);
      r := Ok(());
    }

    /** findAll: every value in map order. */
    method FindAll() returns (r: Result<seq<Role>, RoleError>)
      ensures r == Ok(entries)
    {
      r := Ok(entries);
    }

    /** findBy. */
    method FindBy(criteria: Criteria) returns (r: Result<seq<Role>, RoleError>)
      ensures r == Ok(MatchingAll(entries, criteria))
    {
      r := Ok(MatchingAll(entries, criteria));
    }
  }

  /**
   * After `set`, the saved id maps to the saved role and every other id maps
   * to what it mapped to before; ids stay distinct, and the map grows by one
   * entry exactly when the id was new.
   */
  lemma SetThenGet(entries: seq<Role>, role: Role, id: string)
    requires DistinctRoleIds(entries)
    ensures MapGet(MapSet(entries, role), role.id) == Some(role)
    ensures id != role.id ==> MapGet(MapSet(entries, role), id) == MapGet(entries, id)
    ensures DistinctRoleIds(MapSet(entries, role))
    ensures |MapSet(entries, role)| == if MapGet(entries, role.id).Some? then |entries| else |entries| + 1
  {
    var after := MapSet(entries, role);
    match IndexOfId(entries, role.id)
    case None =>
      IndexOfAppend(entries, role, role.id);
      IndexOfAppend(entries, role, id);
    case Some(k) =>
      IndexOfUpdate(entries, k, role, role.id);
      IndexOfUpdate(entries, k, role, id);
  }

  /** Looking up in a map with one entry added at the end. */
  lemma IndexOfAppend(entries: seq<Role>, role: Role, id: string)
    requires IndexOfId(entries, role.id).None?
    ensures IndexOfId(entries + [role], id)
            == if IndexOfId(entries, id).Some? then IndexOfId(entries, id)
               else if id == role.id then Some(|entries|) else None
  {
    var ext := entries + [role];
    var r := IndexOfId(ext, id);
    if IndexOfId(entries, id).Some? {
      var k := IndexOfId(entries, id).value;
      assert ext[k].id == id;
      IndexOfIsFirst(ext, id, k);
    } else if id == role.id {
      assert ext[|entries|].id == id;
      IndexOfIsFirst(ext, id, |entries|);
    } else {
      assert forall i :: 0 <= i < |ext| ==> ext[i].id != id;
    }
  }

  /** Looking up in a map whose entry at `k` is replaced by one with the same id. */
  lemma IndexOfUpdate(entries: seq<Role>, k: nat, role: Role, id: string)
    requires k < |entries| && entries[k].id == role.id
    ensures IndexOfId(entries[k := role], id) == IndexOfId(entries, id)
  {
    var upd := entries[k := role];
    assert forall i :: 0 <= i < |entries| ==> upd[i].id == entries[i].id;
    match IndexOfId(entries, id)
    case None =>
    case Some(j) => IndexOfIsFirst(upd, id, j);
  }

  /** The first position holding `id` is the one IndexOfId finds. */
  lemma {:induction false} IndexOfIsFirst(entries: seq<Role>, id: string, k: nat)
    requires k < |entries| && entries[k].id == id
    requires forall i :: 0 <= i < k ==> entries[i].id != id
    ensures IndexOfId(entries, id) == Some(k)
    decreases k
  {
    if k > 0 {
      IndexOfIsFirst(entries[1..], id, k - 1);
    }
  }

  /**
   * After `delete` of a stored id, that id is gone and every other id maps to
   * what it mapped to before; ids stay distinct and the map shrinks by one.
   */
  lemma DeleteThenGet(entries: seq<Role>, id: string, other: string)
    requires DistinctRoleIds(entries) && MapGet(entries, id).Some?
    ensures MapGet(MapDelete(entries, id), id).None?
    ensures other != id ==> MapGet(MapDelete(entries, id), other) == MapGet(entries, other)
    ensures DistinctRoleIds(MapDelete(entries, id))
    ensures |MapDelete(entries, id)| == |entries| - 1
  {
    var k := IndexOfId(entries, id).value;
    RemovedAt(entries, k);
    var after := entries[..k] + entries[k + 1..];
    assert MapDelete(entries, id) == after;
    assert forall i :: 0 <= i < |after| ==> after[i].id != id;
    if other != id {
      match IndexOfId(entries, other)
      case None =>
      case Some(j) =>
        var at := if j < k then j else j - 1;
        assert after[at] == entries[j];
        IndexOfIsFirst(after, other, at);
    }
  }

  /** The entries left when the one at `k` is cut out. */
  lemma RemovedAt(entries: seq<Role>, k: nat)
    requires k < |entries|
    ensures var after := entries[..k] + entries[k + 1..];
            && |after| == |entries| - 1
            && (forall i :: 0 <= i < k ==> after[i] == entries[i])
            && (forall i :: k <= i < |after| ==> after[i] == entries[i + 1])
  {
  }

  /** findByType keeps exactly the stored roles of that type. */
  lemma {:induction false} WithTypeSpec(entries: seq<Role>, roleType: string)
    ensures forall r :: r in WithType(entries, roleType) <==> r in entries && r.roleType == roleType
    decreases entries
  {
    if entries != [] {
      WithTypeSpec(entries[1..], roleType);
      assert entries == [entries[0]] + entries[1..];
    }
  }

  /** findByLevel keeps exactly the stored roles at that level. */
  lemma {:induction false} WithLevelSpec(entries: seq<Role>, level: int)
    ensures forall r :: r in WithLevel(entries, level) <==> r in entries && r.level == level
    decreases entries
  {
    if entries != [] {
      WithLevelSpec(entries[1..], level);
      assert entries == [entries[0]] + entries[1..];
    }
  }

  /**
   * findBy keeps a stored role exactly when it meets every criterion given:
   * its type is in the type list, its level in the level list, and its
   * active flag is the one asked for. With no criteria it returns every
   * stored role, in order.
   */
  lemma {:induction false} MatchingAllSpec(entries: seq<Role>, criteria: Criteria)
    ensures forall r :: r in MatchingAll(entries, criteria) <==>
              && r in entries
              && (criteria.types.Some? ==> r.roleType in criteria.types.value)
              && (criteria.levels.Some? ==> r.level in criteria.levels.value)
              && (criteria.isActive.Some? ==> r.metadata.isActive == criteria.isActive.value)
    ensures criteria == Criteria(None, None, None) ==> MatchingAll(entries, criteria) == entries
    decreases entries
  {
    if entries != [] {
      MatchingAllSpec(entries[1..], criteria);
      assert entries == [entries[0]] + entries[1..];
    }
  }
}
