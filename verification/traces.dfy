/** Sequences of requests applied to the controller one after another, and the
    invariants that hold along every such sequence: each group's admin is one of
    its members, and the message log only grows, in timestamp order. */
module Traces {
  import opened Types
  import opened Members
  import opened Directory
  import opened Messages
  import opened GroupController

  /** One request to a mutating handler, with the caller's identity. */
  datatype Request =
    | Create(caller: Id, id: Id, name: string, description: string, members: seq<Id>, groupImage: string)
    | Update(caller: Id, id: Id, name: string, description: string, groupImage: string)
    | Delete(caller: Id, id: Id)
    | AddMembers(caller: Id, id: Id, ids: seq<Id>)
    | RemoveMember(caller: Id, id: Id, memberId: Id)
    | Leave(caller: Id, id: Id)
    | Send(caller: Id, id: Id, text: Option<string>, image: string)

  /** The empty system. */
  const Empty: State := State(map[], [], 0)

  /** The state after one request. The store allocates a fresh id to every new
      group, so a creation naming an id already used for a group never reaches
      the handler and leaves the state as it was. */
  function Apply(st: State, req: Request, upload: string -> string): State
  {
    match req
    case Create(caller, id, name, description, members, groupImage) =>
      if !Unused(st, id) then st
      else After(st, CreateGroup(st, caller, id, name, description, members, groupImage, upload))
    case Update(caller, id, name, description, groupImage) =>
      After(st, UpdateGroup(st, caller, id, name, description, groupImage, upload))
    case Delete(caller, id) => After(st, DeleteGroup(st, caller, id))
    case AddMembers(caller, id, ids) => After(st, AddGroupMembers(st, caller, id, ids))
    case RemoveMember(caller, id, memberId) => After(st, RemoveGroupMember(st, caller, id, memberId))
    case Leave(caller, id) => After(st, LeaveGroup(st, caller, id))
    case Send(caller, id, text, image) => After(st, SendGroupMessage(st, caller, id, text, image, upload))
  }

  /** The state after a sequence of requests, first to last. */
  function Run(st: State, reqs: seq<Request>, upload: string -> string): State
    decreases |reqs|
  {
    if |reqs| == 0 then st
    else Run(Apply(st, reqs[0], upload), reqs[1..], upload)
  }

  /** Every handler keeps the admin among the members of every group and keeps
      the log in timestamp order. */
  lemma ApplyKeepsValid(st: State, req: Request, upload: string -> string)
    requires Valid(st)
    ensures Valid(Apply(st, req, upload))
  {
  }

  /** The invariant holds after every sequence of requests. */
  lemma {:induction false} RunKeepsValid(st: State, reqs: seq<Request>, upload: string -> string)
    requires Valid(st)
    ensures Valid(Run(st, reqs, upload))
    decreases |reqs|
  {
    if |reqs| > 0 {
      ApplyKeepsValid(st, reqs[0], upload);
      RunKeepsValid(Apply(st, reqs[0], upload), reqs[1..], upload);
    }
  }

  /** Starting from the empty system, every reachable state satisfies the
      invariant: in particular every group's admin is one of its members. */
  lemma ReachableValid(reqs: seq<Request>, upload: string -> string)
    ensures Valid(Run(Empty, reqs, upload))
    ensures forall id :: id in Run(Empty, reqs, upload).groups ==>
      IsMember(Run(Empty, reqs, upload).groups[id], Run(Empty, reqs, upload).groups[id].admin)
  {
    RunKeepsValid(Empty, reqs, upload);
  }

  /** No handler deletes or rewrites a message: the log before a request is a
      prefix of the log after it, and the clock does not go back. */
  lemma ApplyExtendsLog(st: State, req: Request, upload: string -> string)
    ensures |st.log| <= |Apply(st, req, upload).log|
    ensures Apply(st, req, upload).log[..|st.log|] == st.log
    ensures st.clock <= Apply(st, req, upload).clock
  {
  }

  /** Messages are never deleted: along any sequence of requests, the log only
      grows at its end. */
  lemma {:induction false} RunExtendsLog(st: State, reqs: seq<Request>, upload: string -> string)
    ensures |st.log| <= |Run(st, reqs, upload).log|
    ensures Run(st, reqs, upload).log[..|st.log|] == st.log
    decreases |reqs|
  {
    if |reqs| > 0 {
      var mid := Apply(st, reqs[0], upload);
      ApplyExtendsLog(st, reqs[0], upload);
      RunExtendsLog(mid, reqs[1..], upload);
      var fin := Run(mid, reqs[1..], upload);
      assert fin.log[..|st.log|] == fin.log[..|mid.log|][..|st.log|];
    }
  }
}
