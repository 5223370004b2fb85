/** Properties that relate several handler calls: idempotence of adding members,
    loss of access after removal or leaving, persistence of a deleted group's
    messages, and the order in which sent messages are read back. */
module Properties {
  import opened Types
  import opened Members
  import opened Directory
  import opened Messages
  import opened GroupController

  /** Adding the same request twice leaves the same member list as adding it once. */
  lemma AddGroupMembersIdempotent(st: State, caller: Id, id: Id, ids: seq<Id>)
    requires AddGroupMembers(st, caller, id, ids).Ok?
    ensures
      var once := AddGroupMembers(st, caller, id, ids).value;
      var twice := AddGroupMembers(once.state, caller, id, ids);
      && twice.Ok?
      && twice.value.out.members == once.out.members
      && twice.value.state == once.state
  {
    var once := AddGroupMembers(st, caller, id, ids).value;
    AddAbsentIdempotent(st.groups[id].members, ids);
    assert once.state.groups[id] == once.out;
    var g' := once.out.(members := AddAbsent(once.out.members, ids));
    assert g' == once.out;
    assert once.state.groups[id := g'] == once.state.groups;
  }

  /** A removed member can no longer read the thread, send to it or fetch the group. */
  lemma RemovedMemberLosesAccess(st: State, admin: Id, id: Id, memberId: Id, text: Option<string>, image: string, upload: string -> string)
    requires RemoveGroupMember(st, admin, id, memberId).Ok?
    ensures
      var st' := RemoveGroupMember(st, admin, id, memberId).value.state;
      && GetGroupMessages(st', memberId, id) == Err(Forbidden)
      && SendGroupMessage(st', memberId, id, text, image, upload) == Err(Forbidden)
      && GetGroupById(st', memberId, id) == Err(Forbidden)
  {
  }

  /** After a member leaves, the leaver is refused the thread while every
      remaining member reads exactly what they read before. */
  lemma LeaverLosesAccess(st: State, user: Id, id: Id, other: Id)
    requires LeaveGroup(st, user, id).Ok?
    requires other != user
    ensures
      var st' := LeaveGroup(st, user, id).value.state;
      && GetGroupMessages(st', user, id) == Err(Forbidden)
      && GetGroupMessages(st', other, id) == GetGroupMessages(st, other, id)
  {
  }

  /** Deleting a group keeps every message in the log, including the group's own
      thread, while reads of the thread now answer NotFound. */
  lemma DeleteKeepsMessages(st: State, admin: Id, id: Id, reader: Id)
    requires DeleteGroup(st, admin, id).Ok?
    ensures
      var st' := DeleteGroup(st, admin, id).value.state;
      && st'.log == st.log
      && Thread(st'.log, id) == Thread(st.log, id)
      && GetGroupMessages(st', reader, id) == Err(NotFound)
  {
  }

  /** A successful send is read back as the last message of the sender's thread,
      after every message the thread held before. */
  lemma SendThenRead(st: State, caller: Id, id: Id, text: Option<string>, image: string, upload: string -> string)
    requires SendGroupMessage(st, caller, id, text, image, upload).Ok?
    ensures
      var s := SendGroupMessage(st, caller, id, text, image, upload).value;
      && GetGroupMessages(st, caller, id).Ok?
      && GetGroupMessages(s.state, caller, id) == Ok(GetGroupMessages(st, caller, id).value + [s.out])
  {
    var s := SendGroupMessage(st, caller, id, text, image, upload).value;
    ThreadAppend(st.log, s.out, id);
  }

  /** Two messages sent one after the other by members are read back in the
      order they were sent, with increasing timestamps. */
  lemma SendsReadInOrder(
    st: State, a: Id, b: Id, reader: Id, id: Id,
    ta: Option<string>, tb: Option<string>, ia: string, ib: string, upload: string -> string)
    requires Valid(st)
    requires SendGroupMessage(st, a, id, ta, ia, upload).Ok?
    requires IsMember(st.groups[id], b) && IsMember(st.groups[id], reader)
    ensures
      var s1 := SendGroupMessage(st, a, id, ta, ia, upload).value;
      var s2 := SendGroupMessage(s1.state, b, id, tb, ib, upload);
      && s2.Ok?
      && var thread := GetGroupMessages(s2.value.state, reader, id);
      && thread.Ok?
      && |thread.value| >= 2
      && thread.value[|thread.value| - 2] == s1.out
      && thread.value[|thread.value| - 1] == s2.value.out
      && s1.out.createdAt < s2.value.out.createdAt
  {
    var s1 := SendGroupMessage(st, a, id, ta, ia, upload).value;
    var s2 := SendGroupMessage(s1.state, b, id, tb, ib, upload).value;
    ThreadAppend(st.log, s1.out, id);
    ThreadAppend(s1.state.log, s2.out, id);
    AppendKeepsStamped(st.log, st.clock, s1.out);
    assert s1.state.log[|st.log|] == s1.out;
  }

  /** The listing of a user's groups agrees with the member-only fetch: a group
      is listed exactly when the user may fetch it, and with the same record. */
  lemma UserGroupsMatchGetById(st: State, user: Id, id: Id)
    ensures id in GetUserGroups(st, user) <==> GetGroupById(st, user, id).Ok?
    ensures id in GetUserGroups(st, user) ==> GetUserGroups(st, user)[id] == GetGroupById(st, user, id).value
  {
  }

  /** An update changes no one's access: every user gets the same answer from the
      member-only and admin-only guards, and reads the same thread, as before. */
  lemma UpdateKeepsAccess(
    st: State, admin: Id, id: Id, name: string, description: string, groupImage: string,
    upload: string -> string, user: Id)
    requires UpdateGroup(st, admin, id, name, description, groupImage, upload).Ok?
    ensures
      var st' := UpdateGroup(st, admin, id, name, description, groupImage, upload).value.state;
      && GetGroupById(st', user, id).Ok? == GetGroupById(st, user, id).Ok?
      && FetchAsAdmin(st', user, id).Ok? == FetchAsAdmin(st, user, id).Ok?
      && GetGroupMessages(st', user, id) == GetGroupMessages(st, user, id)
  {
  }

  /** Repeating an update gives the name and description of a single update. */
  lemma UpdateTextIdempotent(
    st: State, admin: Id, id: Id, name: string, description: string, groupImage: string,
    upload: string -> string)
    requires UpdateGroup(st, admin, id, name, description, groupImage, upload).Ok?
    ensures
      var once := UpdateGroup(st, admin, id, name, description, groupImage, upload).value;
      var twice := UpdateGroup(once.state, admin, id, name, description, groupImage, upload);
      && twice.Ok?
      && twice.value.out.name == once.out.name
      && twice.value.out.description == once.out.description
      && twice.value.out.members == once.out.members
  {
  }

  /** The creator of a group can fetch it and read its thread straight away, and
      that thread is empty: a new group id carries no earlier messages. */
  lemma CreatorCanRead(
    st: State, caller: Id, id: Id, name: string, description: string, members: seq<Id>,
    groupImage: string, upload: string -> string)
    requires Unused(st, id)
    requires CreateGroup(st, caller, id, name, description, members, groupImage, upload).Ok?
    ensures
      var st' := CreateGroup(st, caller, id, name, description, members, groupImage, upload).value.state;
      && GetGroupById(st', caller, id).Ok?
      && GetGroupMessages(st', caller, id) == Ok([])
  {
    ThreadOfUnaddressed(st.log, id);
  }
}
