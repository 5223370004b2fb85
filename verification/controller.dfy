/** The group controller's handlers as pure transitions over the group directory
    and the message log. Each handler fetches the group, checks the caller's role,
    and either answers with an error (the state stays as it was) or produces the
    new state and its response body.

    The content store that turns an uploaded image into a URL is the parameter
    `upload`; the empty string stands for an image field the request left unset. */
module GroupController {
  import opened Types
  import opened Members
  import opened Directory
  import opened Messages

  /** The persistent state the handlers read and write: the group collection
      keyed by group id, the message collection in insertion order, and the
      store's clock for message timestamps. */
  datatype State = State(groups: map<Id, Group>, log: seq<Message>, clock: nat)

  /** The invariant every handler preserves. */
  predicate Valid(st: State)
  {
    AllAdminsMembers(st.groups) && Stamped(st.log, st.clock)
  }

  /** `id` has never been handed out for a group: no group is stored under it
      and no stored message is addressed to it. The store allocates a new
      ObjectId to every new document and never reuses one. */
  predicate Unused(st: State, id: Id)
  {
    && id !in st.groups
    && forall k :: 0 <= k < |st.log| ==> st.log[k].receiverId != id
  }

  /** A successful mutating handler: the new state and the response body. */
  datatype Step<+T> = Step(state: State, out: T)

  /** The state after a mutating handler: the new one on success, the old one on
      an error response. */
  function After<T>(st: State, r: Result<Step<T>>): State
  {
    if r.Ok? then r.value.state else st
  }

  /** The guard of the admin-only handlers: the group must exist, then the caller
      must be its admin. */
  function FetchAsAdmin(st: State, caller: Id, id: Id): (r: Result<Group>)
    ensures id !in st.groups ==> r == Err(NotFound)
    ensures id in st.groups && !IsAdmin(st.groups[id], caller) ==> r == Err(Forbidden)
    ensures r.Ok? <==> id in st.groups && caller == st.groups[id].admin
    ensures r.Ok? ==> r.value == st.groups[id]
  {
    if id !in st.groups then Err(NotFound)
    else if !IsAdmin(st.groups[id], caller) then Err(Forbidden)
    else Ok(st.groups[id])
  }

  /** getGroupById, which is also the guard of the member-only handlers: the
      group must exist, then the caller must be one of its members. */
  function GetGroupById(st: State, caller: Id, id: Id): (r: Result<Group>)
    ensures id !in st.groups ==> r == Err(NotFound)
    ensures id in st.groups && !IsMember(st.groups[id], caller) ==> r == Err(Forbidden)
    ensures r.Ok? <==> id in st.groups && caller in st.groups[id].members
    ensures r.Ok? ==> r.value == st.groups[id]
  {
    if id !in st.groups then Err(NotFound)
    else if !IsMember(st.groups[id], caller) then Err(Forbidden)
    else Ok(st.groups[id])
  }

  /** getUserGroups: the groups whose member list holds the caller. */
  function GetUserGroups(st: State, caller: Id): (r: map<Id, Group>)
    ensures forall id :: id in r <==> id in st.groups && caller in st.groups[id].members
    ensures forall id :: id in r ==> r[id] == st.groups[id]
  {
    map id | id in st.groups && IsMember(st.groups[id], caller) :: st.groups[id]
  }

  /** createGroup. `id` is the identifier the store allocates for the new
      document; `members` is the requested member list. */
  function CreateGroup(
    st: State, caller: Id, id: Id,
    name: string, description: string, members: seq<Id>, groupImage: string,
    upload: string -> string): (r: Result<Step<Group>>)
    requires Unused(st, id)
    ensures r.Err? <==> name == ""
    ensures r.Err? ==> r.error == Validation
    ensures r.Ok? ==>
      var g, st' := r.value.out, r.value.state;
      && st'.groups.Keys == st.groups.Keys + {id}
      && st'.groups[id] == g
      && (forall k :: k in st.groups ==> st'.groups[k] == st.groups[k])
      && st'.log == st.log && st'.clock == st.clock
      && g.admin == caller
      && IsMember(g, caller)
      && |g.members| == |members| + 1
      && g.members[..|members|] == members
      && g.members[|members|] == caller
      && g.name == name && g.description == description
      && (groupImage == "" ==> g.image == "")
      && (groupImage != "" ==> g.image == upload(groupImage))
  {
    if name == "" then Err(Validation)
    else
      var image := if groupImage != "" then upload(groupImage) else "";
      var g := Group(name, description, caller, members + [caller], image);
      Ok(Step(st.(groups := st.groups[id := g]), g))
  }

  /** updateGroup: a non-empty name or description replaces the stored one; a
      non-empty image that differs from the stored URL is uploaded and replaces
      it. */
  function UpdateGroup(
    st: State, caller: Id, id: Id,
    name: string, description: string, groupImage: string,
    upload: string -> string): (r: Result<Step<Group>>)
    ensures id !in st.groups ==> r == Err(NotFound)
    ensures id in st.groups && !IsAdmin(st.groups[id], caller) ==> r == Err(Forbidden)
    ensures r.Ok? <==> id in st.groups && st.groups[id].admin == caller
    ensures r.Ok? ==>
      var g, g' := st.groups[id], r.value.out;
      && r.value.state == st.(groups := st.groups[id := g'])
      && g'.admin == g.admin && g'.members == g.members
      && (name != "" ==> g'.name == name) && (name == "" ==> g'.name == g.name)
      && (description != "" ==> g'.description == description)
      && (description == "" ==> g'.description == g.description)
      && (groupImage == "" || groupImage == g.image ==> g'.image == g.image)
      && (groupImage != "" && groupImage != g.image ==> g'.image == upload(groupImage))
  {
    var g :- FetchAsAdmin(st, caller, id);
    var image := if groupImage != "" && groupImage != g.image then upload(groupImage) else g.image;
    var g' := g.(name := if name != "" then name else g.name,
                 description := if description != "" then description else g.description,
                 image := image);
    Ok(Step(st.(groups := st.groups[id := g']), g'))
  }

  /** deleteGroup: removes the group document and nothing else; its messages
      stay in the log. */
  function DeleteGroup(st: State, caller: Id, id: Id): (r: Result<Step<()>>)
    ensures id !in st.groups ==> r == Err(NotFound)
    ensures id in st.groups && !IsAdmin(st.groups[id], caller) ==> r == Err(Forbidden)
    ensures r.Ok? <==> id in st.groups && st.groups[id].admin == caller
    ensures r.Ok? ==>
      var st' := r.value.state;
      && st'.groups.Keys == st.groups.Keys - {id}
      && (forall k :: k in st'.groups ==> st'.groups[k] == st.groups[k])
      && st'.log == st.log && st'.clock == st.clock
  {
    var _ :- FetchAsAdmin(st, caller, id);
    Ok(Step(st.(groups := st.groups - {id}), ()))
  }

  /** addGroupMembers: appends the requested ids the group does not yet hold,
      keeping the request's order and any repetition within it. */
  function AddGroupMembers(st: State, caller: Id, id: Id, ids: seq<Id>): (r: Result<Step<Group>>)
    ensures id !in st.groups ==> r == Err(NotFound)
    ensures id in st.groups && !IsAdmin(st.groups[id], caller) ==> r == Err(Forbidden)
    ensures r.Ok? <==> id in st.groups && st.groups[id].admin == caller
    ensures r.Ok? ==>
      var g, g' := st.groups[id], r.value.out;
      && r.value.state == st.(groups := st.groups[id := g'])
      && g' == g.(members := g'.members)
      && g'.members == AddAbsent(g.members, ids)
      && |g.members| <= |g'.members| && g'.members[..|g.members|] == g.members
      && (forall i :: |g.members| <= i < |g'.members| ==> g'.members[i] !in g.members && g'.members[i] in ids)
      && (forall u :: IsMember(g', u) <==> IsMember(g, u) || u in ids)
  {
    var g :- FetchAsAdmin(st, caller, id);
    var g' := g.(members := AddAbsent(g.members, ids));
    Ok(Step(st.(groups := st.groups[id := g']), g'))
  }

  /** removeGroupMember: the admin cannot be removed; any other id is filtered
      out of the member list, whether or not it was there. */
  function RemoveGroupMember(st: State, caller: Id, id: Id, memberId: Id): (r: Result<Step<()>>)
    ensures id !in st.groups ==> r == Err(NotFound)
    ensures id in st.groups && !IsAdmin(st.groups[id], caller) ==> r == Err(Forbidden)
    ensures id in st.groups && IsAdmin(st.groups[id], caller) && memberId == caller ==> r == Err(InvalidOperation)
    ensures r.Ok? <==> id in st.groups && st.groups[id].admin == caller && memberId != caller
    ensures r.Ok? ==>
      var g := st.groups[id];
      && id in r.value.state.groups
      && var g' := r.value.state.groups[id];
      && r.value.state == st.(groups := st.groups[id := g'])
      && g' == g.(members := g'.members)
      && g'.members == Without(g.members, memberId)
      && !IsMember(g', memberId)
      && multiset(g'.members) == multiset(g.members)[memberId := 0]
      && (AdminIsMember(g) ==> AdminIsMember(g'))
  {
    var g :- FetchAsAdmin(st, caller, id);
    if memberId == g.admin then Err(InvalidOperation)
    else
      var g' := g.(members := Without(g.members, memberId));
      Ok(Step(st.(groups := st.groups[id := g']), ()))
  }

  /** leaveGroup: a member other than the admin removes themself. */
  function LeaveGroup(st: State, caller: Id, id: Id): (r: Result<Step<()>>)
    ensures id !in st.groups ==> r == Err(NotFound)
    ensures id in st.groups && !IsMember(st.groups[id], caller) ==> r == Err(Forbidden)
    ensures id in st.groups && IsMember(st.groups[id], caller) && IsAdmin(st.groups[id], caller) ==> r == Err(InvalidOperation)
    ensures r.Ok? <==> id in st.groups && caller in st.groups[id].members && caller != st.groups[id].admin
    ensures r.Ok? ==>
      var g := st.groups[id];
      && id in r.value.state.groups
      && var g' := r.value.state.groups[id];
      && r.value.state == st.(groups := st.groups[id := g'])
      && g' == g.(members := g'.members)
      && g'.members == Without(g.members, caller)
      && !IsMember(g', caller)
      && multiset(g'.members) == multiset(g.members)[caller := 0]
      && (AdminIsMember(g) ==> AdminIsMember(g'))
  {
    var g :- GetGroupById(st, caller, id);
    if IsAdmin(g, caller) then Err(InvalidOperation)
    else
      var g' := g.(members := Without(g.members, caller));
      Ok(Step(st.(groups := st.groups[id := g']), ()))
  }

  /** sendGroupMessage: a member appends one group message, stamped with the
      store's clock, to the log. `text` is the request's text field, absent when
      the request omits it. */
  function SendGroupMessage(
    st: State, caller: Id, id: Id, text: Option<string>, image: string,
    upload: string -> string): (r: Result<Step<Message>>)
    ensures id !in st.groups ==> r == Err(NotFound)
    ensures id in st.groups && !IsMember(st.groups[id], caller) ==> r == Err(Forbidden)
    ensures r.Ok? <==> id in st.groups && caller in st.groups[id].members
    ensures r.Ok? ==>
      var m, st' := r.value.out, r.value.state;
      && st'.groups == st.groups
      && st'.log == st.log + [m]
      && m.senderId == caller && m.receiverId == id && m.isGroupMessage
      && m.text == text
      && (image == "" ==> m.image == None)
      && (image != "" ==> m.image == Some(upload(image)))
      && st'.clock > st.clock
      && (Stamped(st.log, st.clock) ==> forall k :: 0 <= k < |st.log| ==> st.log[k].createdAt < m.createdAt)
  {
    var _ :- GetGroupById(st, caller, id);
    var url := if image != "" then Some(upload(image)) else None;
    var m := GroupMessage(id, caller, text, url, st.clock);
    Ok(Step(st.(log := st.log + [m], clock := st.clock + 1), m))
  }

  /** getGroupMessages: a member reads the group's thread, oldest first. */
  function GetGroupMessages(st: State, caller: Id, id: Id): (r: Result<seq<Message>>)
    ensures id !in st.groups ==> r == Err(NotFound)
    ensures id in st.groups && !IsMember(st.groups[id], caller) ==> r == Err(Forbidden)
    ensures r.Ok? <==> id in st.groups && caller in st.groups[id].members
    ensures r.Ok? ==> forall m :: m in r.value <==> m in st.log && m.isGroupMessage && m.receiverId == id
    ensures r.Ok? && Stamped(st.log, st.clock) ==> Chronological(r.value)
  {
    var _ :- GetGroupById(st, caller, id);
    Ok(Thread(st.log, id))
  }
}
