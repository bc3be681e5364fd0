/** Groups: owner-only update and delete, an idempotent join, and a leave the owner may not do. */
module Groups {
  import opened Common

  datatype Group = Group(id: string, name: string, description: string, createdBy: string, members: seq<string>)

  /** The fields an update request carries; its createdBy may be null. */
  datatype GroupDetails = GroupDetails(name: string, description: string, createdBy: Option<string>)

  /** The member list after joinGroup: the user is appended only when absent. */
  function Joined(members: seq<string>, userId: string): (r: seq<string>)
    ensures userId in r
    ensures userId in members ==> r == members
    ensures userId !in members ==> r == members + [userId]
    ensures forall v :: v in r <==> v in members || v == userId
  {
    if userId in members then members else members + [userId]
  }

  /** Joining twice is joining once. */
  lemma JoinIdempotent(members: seq<string>, userId: string)
    ensures Joined(Joined(members, userId), userId) == Joined(members, userId)
  {
  }

  /** Joining never introduces a duplicate member. */
  lemma JoinKeepsDistinct(members: seq<string>, userId: string)
    requires Distinct(members)
    ensures Distinct(Joined(members, userId))
  {
    var r := Joined(members, userId);
    if userId !in members {
      forall i, j | 0 <= i < j < |r| ensures r[i] != r[j] {
        if j == |members| {
          assert r[i] == members[i];
        }
      }
    }
  }

  /** Removing the first occurrence of an absent-then-appended user gives the list back. */
  lemma {:induction false} RemoveFirstAppended(members: seq<string>, userId: string)
    requires userId !in members
    ensures RemoveFirst(members + [userId], userId) == members
  {
    if members != [] {
      assert (members + [userId])[1..] == members[1..] + [userId];
      RemoveFirstAppended(members[1..], userId);
    }
  }

  /** In a list without duplicates, leaving removes the user entirely and keeps the list
      without duplicates. */
  lemma {:induction false} LeaveRemovesMember(members: seq<string>, userId: string)
    requires Distinct(members)
    ensures userId !in RemoveFirst(members, userId)
    ensures Distinct(RemoveFirst(members, userId))
  {
    if members != [] {
      assert Distinct(members[1..]) by {
        forall i, j | 0 <= i < j < |members[1..]| ensures members[1..][i] != members[1..][j] {
          assert members[1..][i] == members[i + 1] && members[1..][j] == members[j + 1];
        }
      }
      if members[0] == userId {
        forall i | 0 <= i < |members[1..]| ensures members[1..][i] != userId {
          assert members[1..][i] == members[i + 1];
        }
      } else {
        LeaveRemovesMember(members[1..], userId);
        var tail := RemoveFirst(members[1..], userId);
        assert members[0] !in members[1..] by {
          forall i | 0 <= i < |members[1..]| ensures members[1..][i] != members[0] {
            assert members[1..][i] == members[i + 1];
          }
        }
        assert Occurrences(tail, members[0]) == Occurrences(members[1..], members[0]);
        assert members[0] !in tail;
        var r := [members[0]] + tail;
        forall i, j | 0 <= i < j < |r| ensures r[i] != r[j] {
          if i == 0 {
            assert r[j] == tail[j - 1];
          } else {
            assert r[i] == tail[i - 1] && r[j] == tail[j - 1];
          }
        }
      }
    }
  }

  /** The group service over the group repository. */
  class GroupService {
    var groups: map<string, Group>

    constructor (groups: map<string, Group>)
      ensures this.groups == groups
    {
      this.groups := groups;
    }

    /** getGroupById. */
    method GetGroupById(id: string) returns (r: Result<Group>)
      ensures r.Ok? <==> id in groups
      ensures r.Ok? ==> r.value == groups[id]
      ensures r.Err? ==> r.error == Runtime("Group not found")
    {
      if id !in groups {
        return Err(Runtime("Group not found"));
      }
      return Ok(groups[id]);
    }

    /** updateGroup: allowed only when the request names the stored owner; only the name and the
        description change. */
    method UpdateGroup(id: string, details: GroupDetails) returns (r: Result<Group>)
      modifies this
      ensures id !in old(groups) ==> r == Err(Runtime("Group not found"))
      ensures id in old(groups) && details.createdBy != Some(old(groups)[id].createdBy) ==>
                r == Err(Runtime("Only group owner can update the group"))
      ensures r.Ok? <==> id in old(groups) && details.createdBy == Some(old(groups)[id].createdBy)
      ensures r.Err? ==> groups == old(groups)
      ensures r.Ok? ==> r.value == old(groups)[id].(name := details.name, description := details.description)
                        && groups == old(groups)[id := r.value]
    {
      var found := GetGroupById(id);
      if found.Err? {
        return found;
      }
      var group := found.value;
      if details.createdBy != Some(group.createdBy) {
        return Err(Runtime("Only group owner can update the group"));
      }
      group := group.(name := details.name, description := details.description);
      groups := groups[id := group];
      return Ok(group);
    }

    /** deleteGroup: only the owner may delete. */
    method DeleteGroup(id: string, userId: string) returns (e: Option<Error>)
      modifies this
      ensures id !in old(groups) ==> e == Some(Runtime("Group not found"))
      ensures id in old(groups) && old(groups)[id].createdBy != userId ==>
                e == Some(Runtime("Only group owner can delete the group"))
      ensures e.None? <==> id in old(groups) && old(groups)[id].createdBy == userId
      ensures e.Some? ==> groups == old(groups)
      ensures e.None? ==> groups == old(groups) - {id}
    {
      var found := GetGroupById(id);
      if found.Err? {
        return Some(found.error);
      }
      if found.value.createdBy != userId {
        return Some(Runtime("Only group owner can delete the group"));
      }
      groups := groups - {id};
      return None;
    }

    /** joinGroup: the user is added when not yet a member; otherwise nothing is saved. */
    method JoinGroup(groupId: string, userId: string) returns (r: Result<Group>)
      modifies this
      ensures groupId !in old(groups) ==> r == Err(Runtime("Group not found")) && groups == old(groups)
      ensures groupId in old(groups) ==>
                r == Ok(old(groups)[groupId].(members := Joined(old(groups)[groupId].members, userId)))
                && groups == old(groups)[groupId := r.value]
    {
      var found := GetGroupById(groupId);
      if found.Err? {
        return found;
      }
      var group := found.value;
      if userId !in group.members {
        group := group.(members := group.members + [userId]);
        groups := groups[groupId := group];
        return Ok(group);
      }
      return Ok(group);
    }

    /** leaveGroup: the owner may not leave; anyone else is removed (a non-member leaves the
        list as it was). */
    method LeaveGroup(groupId: string, userId: string) returns (r: Result<Group>)
      modifies this
      ensures groupId !in old(groups) ==> r == Err(Runtime("Group not found")) && groups == old(groups)
      ensures groupId in old(groups) && old(groups)[groupId].createdBy == userId ==>
                r == Err(Runtime("Group owner cannot leave the group")) && groups == old(groups)
      ensures groupId in old(groups) && old(groups)[groupId].createdBy != userId ==>
                r == Ok(old(groups)[groupId].(members := RemoveFirst(old(groups)[groupId].members, userId)))
                && groups == old(groups)[groupId := r.value]
    {
      var found := GetGroupById(groupId);
      if found.Err? {
        return found;
      }
      var group := found.value;
      if group.createdBy == userId {
        return Err(Runtime("Group owner cannot leave the group"));
      }
      group := group.(members := RemoveFirst(group.members, userId));
      groups := groups[groupId := group];
      return Ok(group);
    }
  }

  /** A non-owner who is not a member and joins, then leaves, finds the member list as before. */
  lemma JoinThenLeaveRestores(g: Group, userId: string)
    requires userId !in g.members
    ensures RemoveFirst(Joined(g.members, userId), userId) == g.members
  {
    RemoveFirstAppended(g.members, userId);
  }
}
