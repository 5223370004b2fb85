/** End-to-end scenarios of the group service, stated for arbitrary distinct users
    and group ids, and the two places where the controller keeps duplicate ids in
    a member list. */
module Scenarios {
  import opened Types
  import opened Members
  import opened Directory
  import opened Messages
  import opened GroupController
  import opened Traces

  /** Creating "Team" as u1 with u2 requested yields the members u2 then u1, and
      u1 as admin. */
  lemma CreateTeam(u1: Id, u2: Id, id: Id, upload: string -> string)
    ensures
      var r := CreateGroup(Empty, u1, id, "Team", "", [u2], "", upload);
      && r.Ok?
      && r.value.out.admin == u1
      && r.value.out.members == [u2, u1]
      && GetUserGroups(r.value.state, u1).Keys == {id}
      && GetUserGroups(r.value.state, u2).Keys == {id}
  {
  }

  /** A group created with an empty name is refused and nothing is stored. */
  lemma CreateWithoutName(st: State, u: Id, id: Id, description: string, members: seq<Id>, image: string, upload: string -> string)
    requires Unused(st, id)
    ensures CreateGroup(st, u, id, "", description, members, image, upload) == Err(Validation)
    ensures Apply(st, Create(u, id, "", description, members, image), upload) == st
  {
  }

  /** The id of a deleted group that had messages is never handed out again, so
      no new group inherits the old thread. */
  lemma DeletedThreadNotInherited(st: State, admin: Id, id: Id, k: nat, v: Id, name: string, upload: string -> string)
    requires DeleteGroup(st, admin, id).Ok?
    requires k < |st.log| && st.log[k].receiverId == id
    ensures
      var st' := DeleteGroup(st, admin, id).value.state;
      Apply(st', Create(v, id, name, "", [], ""), upload) == st'
  {
  }

  /** The creator who also lists themself in the request appears twice. */
  lemma CreateKeepsAdminDuplicate(st: State, u: Id, id: Id, name: string, upload: string -> string)
    requires Unused(st, id) && name != ""
    ensures
      var r := CreateGroup(st, u, id, name, "", [u], "", upload);
      && r.Ok?
      && r.value.out.members == [u, u]
      && !NoDup(r.value.out.members)
  {
  }

  /** An admin sending "hi" stores one flagged group message from them, which
      every member then reads. */
  lemma AdminSendsHi(st: State, admin: Id, id: Id, reader: Id, upload: string -> string)
    requires Valid(st)
    requires id in st.groups && st.groups[id].admin == admin
    requires IsMember(st.groups[id], reader)
    ensures
      var r := SendGroupMessage(st, admin, id, Some("hi"), "", upload);
      && r.Ok?
      && r.value.out.senderId == admin && r.value.out.isGroupMessage
      && r.value.out.text == Some("hi") && r.value.out.image == None
      && r.value.state.log == st.log + [r.value.out]
      && GetGroupMessages(r.value.state, reader, id).Ok?
      && r.value.out in GetGroupMessages(r.value.state, reader, id).value
  {
  }

  /** An outsider's send is refused and stores nothing. */
  lemma OutsiderCannotSend(st: State, u: Id, id: Id, text: Option<string>, image: string, upload: string -> string)
    requires id in st.groups && !IsMember(st.groups[id], u)
    ensures SendGroupMessage(st, u, id, text, image, upload) == Err(Forbidden)
    ensures Apply(st, Send(u, id, text, image), upload).log == st.log
  {
  }

  /** The admin asking to remove themself is refused with the member list intact,
      whatever else the state holds. */
  lemma AdminCannotBeRemoved(st: State, admin: Id, id: Id, upload: string -> string)
    requires id in st.groups && st.groups[id].admin == admin
    ensures RemoveGroupMember(st, admin, id, admin) == Err(InvalidOperation)
    ensures Apply(st, RemoveMember(admin, id, admin), upload) == st
  {
  }

  /** The admin cannot leave. */
  lemma AdminCannotLeave(st: State, admin: Id, id: Id, upload: string -> string)
    requires Valid(st)
    requires id in st.groups && st.groups[id].admin == admin
    ensures LeaveGroup(st, admin, id) == Err(InvalidOperation)
    ensures Apply(st, Leave(admin, id), upload) == st
  {
  }

  /** u2 leaves; u2's read is then refused while the admin still reads every
      message of the thread, including those sent while u2 was a member. */
  lemma LeaveThenRead(st: State, u1: Id, u2: Id, id: Id, upload: string -> string)
    requires id in st.groups && st.groups[id].admin == u1
    requires IsMember(st.groups[id], u1) && IsMember(st.groups[id], u2) && u1 != u2
    ensures
      var st' := Apply(st, Leave(u2, id), upload);
      && GetGroupMessages(st', u2, id) == Err(Forbidden)
      && GetGroupMessages(st', u1, id) == Ok(Thread(st.log, id))
  {
  }
}
