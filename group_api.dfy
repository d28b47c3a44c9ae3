/**
 * The mock group API (features/group/api/mockApi.ts): a list of groups held
 * in one variable that every operation reads and replaces, with lookup,
 * creation, update, deletion and member changes, each answering with a
 * success carrying data or a failure carrying a message.
 *
 * The artificial delays are left out; the new member id (`m` and the clock)
 * is a parameter.
 */
module GroupApi {
  import opened Wrappers
  import opened JsString
  import opened GroupForm

  datatype GroupRole = Admin | Editor | Viewer

  datatype MemberStatus = Active | Invited | Pending

  /** A group member; its join date is left out. */
  datatype GroupMember = GroupMember(id: string, userId: string, groupId: string, role: GroupRole, status: MemberStatus)

  /** A group; its two dates are left out. */
  datatype Group = Group(
    id: string,
    name: string,
    description: string,
    icon: Option<string>,
    isPublic: bool,
    members: seq<GroupMember>,
    settings: GroupSettings)

  /** The input of createGroup. */
  datatype CreateGroupInput = CreateGroupInput(
    name: string,
    description: string,
    isPublic: Option<bool>,
    icon: Option<string>,
    settings: Option<GroupSettings>)

  /** The input of updateGroup: the id, and every other field optional. */
  datatype UpdateGroupInput = UpdateGroupInput(
    id: string,
    name: Option<string>,
    description: Option<string>,
    isPublic: Option<bool>,
    icon: Option<string>,
    settings: Option<GroupSettings>)

  /** An API response. */
  datatype Response<T> = Success(data: T) | Failure(error: string)

  const GroupNotFound := "Group not found"
  const MemberNotFound := "Member not found"

  /** The seeded group `g1` with its two members. */
  function InitialGroup(): Group {
    Group("g1", "開発チーム", "プロジェクトの開発メンバー", None, false,
          [GroupMember("m1", "u1", "g1", Admin, Active), GroupMember("m2", "u2", "g1", Editor, Active)],
          DefaultSettings)
  }

  /** `groups.find(g => g.id === id)`. */
  function FindGroup(groups: seq<Group>, id: string): (r: Option<Group>)
    ensures r.Some? ==> r.value in groups && r.value.id == id
    ensures r.None? <==> forall i :: 0 <= i < |groups| ==> groups[i].id != id
  {
    if groups == [] then None
    else if groups[0].id == id then Some(groups[0])
    else FindGroup(groups[1..], id)
  }

  /** `groups.map(g => g.id === id ? updated : g)`. */
  function ReplaceGroups(groups: seq<Group>, id: string, updated: Group): (r: seq<Group>)
    ensures |r| == |groups|
    ensures forall i :: 0 <= i < |r| ==> r[i] == if groups[i].id == id then updated else groups[i]
  {
    seq(|groups|, i requires 0 <= i < |groups| => if groups[i].id == id then updated else groups[i])
  }

  /** `groups.filter(g => g.id !== id)`. */
  function WithoutGroup(groups: seq<Group>, id: string): (r: seq<Group>)
    ensures |r| <= |groups|
  {
    if groups == [] then []
    else (if groups[0].id != id then [groups[0]] else []) + WithoutGroup(groups[1..], id)
  }

  /** The filter keeps order: it distributes over concatenation. */
  lemma {:induction false} WithoutGroupAppend(a: seq<Group>, b: seq<Group>, id: string)
    ensures WithoutGroup(a + b, id) == WithoutGroup(a, id) + WithoutGroup(b, id)
    decreases |a|
  {
    if a == [] {
      assert a + b == b;
    } else {
      assert (a + b)[0] == a[0] && (a + b)[1..] == a[1..] + b;
      WithoutGroupAppend(a[1..], b, id);
    }
  }

  /** The filter keeps each matching element exactly as often as it occurs, and drops the others. */
  lemma {:induction false} WithoutGroupCount(a: seq<Group>, x: Group, id: string)
    ensures multiset(WithoutGroup(a, id))[x] == if x.id != id then multiset(a)[x] else 0
    decreases |a|
  {
    if a != [] {
      WithoutGroupCount(a[1..], x, id);
      assert WithoutGroup(a, id) == (if a[0].id != id then [a[0]] else []) + WithoutGroup(a[1..], id);
      assert a == [a[0]] + a[1..];
    }
  }

  /** `members.filter(m => m.userId !== userId)`. */
  function WithoutUser(members: seq<GroupMember>, userId: string): (r: seq<GroupMember>)
    ensures |r| <= |members|
  {
    if members == [] then []
    else (if members[0].userId != userId then [members[0]] else []) + WithoutUser(members[1..], userId)
  }

  /** The filter keeps order: it distributes over concatenation. */
  lemma {:induction false} WithoutUserAppend(a: seq<GroupMember>, b: seq<GroupMember>, userId: string)
    ensures WithoutUser(a + b, userId) == WithoutUser(a, userId) + WithoutUser(b, userId)
    decreases |a|
  {
    if a == [] {
      assert a + b == b;
    } else {
      assert (a + b)[0] == a[0] && (a + b)[1..] == a[1..] + b;
      WithoutUserAppend(a[1..], b, userId);
    }
  }

  /** The filter keeps each matching element exactly as often as it occurs, and drops the others. */
  lemma {:induction false} WithoutUserCount(a: seq<GroupMember>, x: GroupMember, userId: string)
    ensures multiset(WithoutUser(a, userId))[x] == if x.userId != userId then multiset(a)[x] else 0
    decreases |a|
  {
    if a != [] {
      WithoutUserCount(a[1..], x, userId);
      assert WithoutUser(a, userId) == (if a[0].userId != userId then [a[0]] else []) + WithoutUser(a[1..], userId);
      assert a == [a[0]] + a[1..];
    }
  }

  /** The id createGroup gives a new group: `g` and one more than the number of groups. */
  function NextGroupId(groups: seq<Group>): string {
    "g" + DecimalString(|groups| + 1)
  }

  /** The group updateGroup builds from the current one. */
  function UpdatedGroup(current: Group, input: UpdateGroupInput): Group {
    Group(current.id,
          input.name.GetOr(current.name),
          input.description.GetOr(current.description),
          if input.icon.Some? then input.icon else current.icon,
          input.isPublic.GetOr(current.isPublic),
          current.members,
          // `{ ...current.settings, ...input.settings }` with every key of the input present.
          input.settings.GetOr(current.settings))
  }

  class MockGroupApi {
    var groups: seq<Group>

    /** The seeded list holding the initial group. */
    constructor ()
      ensures groups == [InitialGroup()]
    {
      groups := [InitialGroup()];
    }

    /** getGroups. */
    method GetGroups() returns (r: Response<seq<Group>>)
      ensures r == Success(groups)
    {
      r := Success(groups);
    }

    /** getGroup: the first group with the id, or "Group not found". */
    method GetGroup(id: string) returns (r: Response<Group>)
      ensures FindGroup(groups, id).Some? ==> r == Success(FindGroup(groups, id).value)
      ensures FindGroup(groups, id).None? ==> r == Failure(GroupNotFound)
    {
      var group := FindGroup(groups, id);
      if group.None? {
        return Failure(GroupNotFound);
      }
      return Success(group.value);
    }

    /**
     * createGroup: a new group with id `g{n + 1}`, no members, not public
     * unless asked, with the default settings unless given, appended to the
     * list.
     */
    method CreateGroup(input: CreateGroupInput) returns (r: Response<Group>)
      modifies this
      ensures var g := Group(NextGroupId(old(groups)), input.name, input.description, input.icon,
                             input.isPublic.GetOr(false), [], input.settings.GetOr(DefaultSettings));
              groups == old(groups) + [g] && r == Success(g)
    {
      var newGroup := Group(NextGroupId(groups), input.name, input.description, input.icon,
                            input.isPublic.GetOr(false), [], input.settings.GetOr(DefaultSettings));
      groups := groups + [newGroup];
      r := Success(newGroup);
    }

    /**
     * updateGroup: "Group not found" and no change for an unknown id;
     * otherwise every group with the id is replaced by the update of the
     * first one.
     */
    method UpdateGroup(input: UpdateGroupInput) returns (r: Response<Group>)
      modifies this
      ensures FindGroup(old(groups), input.id).None? ==> r == Failure(GroupNotFound) && groups == old(groups)
      ensures FindGroup(old(groups), input.id).Some? ==>
                var updated := UpdatedGroup(FindGroup(old(groups), input.id).value, input);
                groups == ReplaceGroups(old(groups), input.id, updated) && r == Success(updated)
    {
      var currentGroup := FindGroup(groups, input.id);
      if currentGroup.None? {
        return Failure(GroupNotFound);
      }
      var updatedGroup := UpdatedGroup(currentGroup.value, input);
      groups := ReplaceGroups(groups, input.id, updatedGroup);
      r := Success(updatedGroup);
    }

    /** deleteGroup: "Group not found" for an unknown id; otherwise every group with the id goes. */
    method DeleteGroup(id: string) returns (r: Response<()>)
      modifies this
      ensures FindGroup(old(groups), id).None? ==> r == Failure(GroupNotFound) && groups == old(groups)
      ensures FindGroup(old(groups), id).Some? ==> r == Success(()) && groups == WithoutGroup(old(groups), id)
    {
      if FindGroup(groups, id).None? {
        return Failure(GroupNotFound);
      }
      groups := WithoutGroup(groups, id);
      r := Success(());
    }

    /**
     * addMember: "Group not found" for an unknown group; otherwise the first
     * group with the id gains one active member at the end of its list, and
     * that group replaces every group with the id.
     */
    method AddMember(groupId: string, userId: string, role: GroupRole, memberId: string) returns (r: Response<Group>)
      modifies this
      ensures FindGroup(old(groups), groupId).None? ==> r == Failure(GroupNotFound) && groups == old(groups)
      ensures FindGroup(old(groups), groupId).Some? ==>
                var target := FindGroup(old(groups), groupId).value;
                var updated := target.(members := target.members + [GroupMember(memberId, userId, groupId, role, Active)]);
                groups == ReplaceGroups(old(groups), groupId, updated) && r == Success(updated)
    {
      var targetGroup := FindGroup(groups, groupId);
      if targetGroup.None? {
        return Failure(GroupNotFound);
      }
      var newMember := GroupMember(memberId, userId, groupId, role, Active);
      var updatedGroup := targetGroup.value.(members := targetGroup.value.members + [newMember]);
      groups := ReplaceGroups(groups, groupId, updatedGroup);
      r := Success(updatedGroup);
    }

    /**
     * removeMember: "Group not found" for an unknown group, "Member not found"
     * when the user is not among its members, and otherwise every membership
     * of the user leaves the first group with the id, which replaces every
     * group with that id.
     */
    method RemoveMember(groupId: string, userId: string) returns (r: Response<Group>)
      modifies this
      ensures FindGroup(old(groups), groupId).None? ==> r == Failure(GroupNotFound) && groups == old(groups)
      ensures FindGroup(old(groups), groupId).Some? && !IsMember(FindGroup(old(groups), groupId).value, userId) ==>
                r == Failure(MemberNotFound) && groups == old(groups)
      ensures FindGroup(old(groups), groupId).Some? && IsMember(FindGroup(old(groups), groupId).value, userId) ==>
                var target := FindGroup(old(groups), groupId).value;
                var updated := target.(members := WithoutUser(target.members, userId));
                groups == ReplaceGroups(old(groups), groupId, updated) && r == Success(updated)
    {
      var targetGroup := FindGroup(groups, groupId);
      if targetGroup.None? {
        return Failure(GroupNotFound);
      }
      if !IsMember(targetGroup.value, userId) {
        return Failure(MemberNotFound);
      }
      var updatedGroup := targetGroup.value.(members := WithoutUser(targetGroup.value.members, userId));
      groups := ReplaceGroups(groups, groupId, updatedGroup);
      r := Success(updatedGroup);
    }
  }

  /** `members.some(m => m.userId === userId)`. */
  predicate IsMember(group: Group, userId: string) {
    exists i :: 0 <= i < |group.members| && group.members[i].userId == userId
  }

  /** No two groups share an id. */
  predicate DistinctGroupIds(groups: seq<Group>) {
    forall i, j :: 0 <= i < j < |groups| ==> groups[i].id != groups[j].id
  }

  /**
   * getGroup finds a group exactly when one has the id, and then the first
   * such group.
   */
  lemma FindGroupIsFirst(groups: seq<Group>, id: string)
    ensures FindGroup(groups, id).Some? <==> exists i :: 0 <= i < |groups| && groups[i].id == id
    ensures FindGroup(groups, id).Some? ==>
              exists k :: 0 <= k < |groups| && groups[k] == FindGroup(groups, id).value
                          && forall i :: 0 <= i < k ==> groups[i].id != id
  {
    FindGroupIndex(groups, id);
  }

  lemma {:induction false} FindGroupIndex(groups: seq<Group>, id: string)
    ensures FindGroup(groups, id).Some? ==>
              exists k :: 0 <= k < |groups| && groups[k] == FindGroup(groups, id).value
                          && forall i :: 0 <= i < k ==> groups[i].id != id
    decreases groups
  {
    if groups != [] && groups[0].id != id {
      FindGroupIndex(groups[1..], id);
      if FindGroup(groups, id).Some? {
        var k :| 0 <= k < |groups[1..]| && groups[1..][k] == FindGroup(groups[1..], id).value
                 && forall i :: 0 <= i < k ==> groups[1..][i].id != id;
        assert groups[k + 1] == FindGroup(groups, id).value;
        assert forall i :: 0 <= i < k + 1 ==> groups[i].id != id by {
          forall i | 0 <= i < k + 1
            ensures groups[i].id != id
          {
            if i > 0 {
              assert groups[i] == groups[1..][i - 1];
            }
          }
        }
      }
    } else if groups != [] {
      assert groups[0] == FindGroup(groups, id).value;
    }
  }

  /**
   * deleteGroup keeps exactly the groups with another id, and deleting an id
   * no group has changes nothing.
   */
  lemma WithoutGroupSpec(groups: seq<Group>, id: string)
    ensures forall g :: g in WithoutGroup(groups, id) <==> g in groups && g.id != id
    ensures forall i :: 0 <= i < |WithoutGroup(groups, id)| ==> WithoutGroup(groups, id)[i].id != id
    ensures (forall i :: 0 <= i < |groups| ==> groups[i].id != id) ==> WithoutGroup(groups, id) == groups
  {
    WithoutGroupMembers(groups, id);
    WithoutAbsentGroup(groups, id);
  }

  lemma {:induction false} WithoutGroupMembers(groups: seq<Group>, id: string)
    ensures forall g :: g in WithoutGroup(groups, id) <==> g in groups && g.id != id
    decreases groups
  {
    if groups != [] {
      WithoutGroupMembers(groups[1..], id);
      assert groups == [groups[0]] + groups[1..];
    }
  }

  lemma {:induction false} WithoutAbsentGroup(groups: seq<Group>, id: string)
    ensures (forall i :: 0 <= i < |groups| ==> groups[i].id != id) ==> WithoutGroup(groups, id) == groups
    decreases groups
  {
    if groups != [] {
      WithoutAbsentGroup(groups[1..], id);
      assert groups == [groups[0]] + groups[1..];
    }
  }

  /** removeMember drops exactly the memberships of the user and keeps every other member. */
  lemma {:induction false} WithoutUserSpec(members: seq<GroupMember>, userId: string)
    ensures forall m :: m in WithoutUser(members, userId) <==> m in members && m.userId != userId
    decreases members
  {
    if members != [] {
      WithoutUserSpec(members[1..], userId);
      assert members == [members[0]] + members[1..];
    }
  }

  /**
   * Adding a member for a user who is not yet one and removing that user
   * gives back the member list as it was.
   */
  lemma {:induction false} AddThenRemoveMember(members: seq<GroupMember>, added: GroupMember)
    requires forall i :: 0 <= i < |members| ==> members[i].userId != added.userId
    ensures WithoutUser(members + [added], added.userId) == members
    decreases members
  {
    if members == [] {
      assert WithoutUser([added], added.userId) == [] + WithoutUser([], added.userId);
    } else {
      AddThenRemoveMember(members[1..], added);
      assert (members + [added])[1..] == members[1..] + [added];
      assert members == [members[0]] + members[1..];
    }
  }

  /**
   * When no group has the new id, getGroup finds a created group under its
   * id and finds every other id as before.
   */
  lemma {:induction false} CreateThenGet(groups: seq<Group>, created: Group, other: string)
    requires forall i :: 0 <= i < |groups| ==> groups[i].id != created.id
    ensures FindGroup(groups + [created], created.id) == Some(created)
    ensures other != created.id ==> FindGroup(groups + [created], other) == FindGroup(groups, other)
    decreases groups
  {
    if groups == [] {
      assert FindGroup([created], other) == if created.id == other then Some(created) else FindGroup([], other);
    } else {
      CreateThenGet(groups[1..], created, other);
      assert (groups + [created])[1..] == groups[1..] + [created];
    }
  }

  /**
   * With distinct ids, an update touches exactly the group with that id:
   * every other group is the same at the same place, and looking the id up
   * afterwards finds the updated group.
   */
  lemma ReplaceGroupsTouchesOne(groups: seq<Group>, id: string, updated: Group)
    requires DistinctGroupIds(groups) && updated.id == id
    ensures DistinctGroupIds(ReplaceGroups(groups, id, updated))
    ensures FindGroup(groups, id).Some? ==> FindGroup(ReplaceGroups(groups, id, updated), id) == Some(updated)
    ensures forall other :: other != id ==> FindGroup(ReplaceGroups(groups, id, updated), other) == FindGroup(groups, other)
  {
    var after := ReplaceGroups(groups, id, updated);
    assert forall i :: 0 <= i < |groups| ==> after[i].id == groups[i].id;
    FindGroupIsFirst(groups, id);
    if FindGroup(groups, id).Some? {
      FindAfterSameIds(groups, after, id);
      FindGroupIsFirst(after, id);
    }
    forall other | other != id
      ensures FindGroup(after, other) == FindGroup(groups, other)
    {
      FindAfterSameIds(groups, after, other);
    }
  }

  /** Two lists with the same ids, equal where the id is `other`, agree on finding `other`. */
  lemma {:induction false} FindAfterSameIds(a: seq<Group>, b: seq<Group>, key: string)
    requires |a| == |b| && forall i :: 0 <= i < |a| ==> a[i].id == b[i].id
    ensures FindGroup(a, key).Some? <==> FindGroup(b, key).Some?
    ensures (forall i :: 0 <= i < |a| && a[i].id == key ==> a[i] == b[i]) ==> FindGroup(a, key) == FindGroup(b, key)
    decreases |a|
  {
    if a != [] {
      FindAfterSameIds(a[1..], b[1..], key);
    }
  }

  /**
   * An update keeps the group's id and members, takes each field that is
   * given, and keeps each that is not.
   */
  lemma UpdatedGroupSpec(current: Group, input: UpdateGroupInput)
    ensures var g := UpdatedGroup(current, input);
            && g.id == current.id && g.members == current.members
            && (input.name.Some? ==> g.name == input.name.value) && (input.name.None? ==> g.name == current.name)
            && (input.description.Some? ==> g.description == input.description.value)
            && (input.description.None? ==> g.description == current.description)
            && (input.isPublic.Some? ==> g.isPublic == input.isPublic.value)
            && (input.isPublic.None? ==> g.isPublic == current.isPublic)
            && (input.icon.Some? ==> g.icon == input.icon) && (input.icon.None? ==> g.icon == current.icon)
            && (input.settings.Some? ==> g.settings == input.settings.value)
            && (input.settings.None? ==> g.settings == current.settings)
  {
  }

  /**
   * createGroup names a new group after the length of the list, so once a
   * group has been deleted the next group can get an id already in use:
   * from `g1`, `g2`, deleting `g1` and creating a group gives two groups `g2`.
   */
  lemma CreateAfterDeleteReusesId(first: Group, second: Group)
    requires first.id == "g1" && second.id == "g2"
    ensures var left := WithoutGroup([first, second], "g1");
            left == [second] && NextGroupId(left) == "g2"
            && !DistinctGroupIds(left + [second.(id := NextGroupId(left))])
  {
    var left := WithoutGroup([first, second], "g1");
    assert [first, second][1..] == [second];
    assert WithoutGroup([second], "g1") == [second];
    assert left == [second];
    assert DecimalString(2) == "2";
    var grown := left + [second.(id := NextGroupId(left))];
    assert grown[0].id == grown[1].id;
  }
}
