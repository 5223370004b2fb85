# Group directory and group messaging, modelled in Dafny

This project models the group controller of a chat backend: the handlers that
create, update and delete groups, manage their member lists, and send and read
group messages. Each HTTP handler becomes a pure transition over two pieces of
persistent state:

- the group collection, a `map<Id, Group>` where a `Group` holds a name, a
  description, one admin, an ordered member list and an image URL;
- the message collection, an append-only `seq<Message>` together with the
  store's clock, which stamps each new message's `createdAt`.

A mutating handler takes the state, the caller's id and the request fields,
and returns either `Err(e)` with `e` one of `NotFound`, `Forbidden`,
`InvalidOperation` or `Validation` (the state is then unchanged), or
`Ok(Step(state', body))`. The read handlers `GetGroupById` and
`GetGroupMessages` return `Result<Group>` and `Result<seq<Message>>` without a
new state, and `GetUserGroups` returns the map of the caller's groups.

Modules, leaves first:

- `Types` (`types.dfy`): the abstract id type, the error variants, `Result`, `Option`.
- `Members` (`members.dfy`): the two list operations on a member array — filter
  one id out (`Without`) and append the requested ids not yet present
  (`AddAbsent`) — and their properties.
- `Messages` (`messages.dfy`): the message record, the timestamp-order
  invariant of the log, and a group's thread (`Thread`).
- `Directory` (`directory.dfy`): the group record and the membership guard
  predicates (`IsMember`, `IsAdmin`, `AdminIsMember`).
- `GroupController` (`controller.dfy`): the handlers.
- `Properties` (`properties.dfy`): facts relating several handler calls.
- `Traces` (`traces.dfy`): arbitrary request sequences, the global invariant
  "every group's admin is one of its members", and the log only growing.
- `Scenarios` (`scenarios.dfy`): end-to-end scenarios for arbitrary users.

Choices made in the model:

- Ids are an abstract type with equality only. User and group ids share it
  because a message's `receiverId` holds either one. The source's `.toString()`
  comparisons, and Mongoose's `includes` on a member array, are id equality.
- The image upload to the content store is the parameter `upload: string -> string`,
  mapping the request's image to its URL. JavaScript "falsy" string fields
  (missing or `""`) are the empty string; a message's text is `Option<string>`
  because the handler stores whatever the request carried, including nothing.
- The new group's id is allocated by the store, which never reuses an ObjectId;
  `CreateGroup` takes it as a parameter and requires it to be `Unused`: no group
  is stored under it and no stored message is addressed to it. A new group's
  thread is therefore empty, even after another group was deleted. In
  `Traces`, a creation naming an id that is not unused leaves the state as it was.
- `createdAt` is the state's clock, advanced by one on every append. The
  handler reads the thread sorted by `createdAt`; the model keeps the log in
  strictly increasing `createdAt` order (the `Valid` invariant) and filters it
  in order, and `GetGroupMessages` proves its result is in ascending order.
- The message schema (`backend/src/models/message.model.js:37-55`) declares
  no `isGroupMessage` field, and the controller imports that file's named
  export `Message` as a default export. The model follows the controller's
  evident intent: every message carries the `isGroupMessage` flag, group sends
  set it, and a group's thread is the flagged messages addressed to the group.
- `createGroup` and `addGroupMembers` do not deduplicate: `createGroup` stores
  the requested list followed by the admin, and `addGroupMembers` keeps
  repetitions within a request. The member list is therefore an ordered list
  that may repeat an id, not a set. `Members.AddAbsentKeepsRequestDuplicates`
  and `Scenarios.CreateKeepsAdminDuplicate` exhibit the duplicates;
  `Members.AddAbsentKeepsNoDup` and `Members.WithoutKeepsNoDup` show that the
  list stays duplicate-free when the inputs are.

## Model

| member | source | states |
|---|---|---|
| `Members.Without` | backend/src/controllers/group.controller.js:200-202 | the filtered list holds no copy of the id, holds every other id of the input and nothing else, and with the same multiplicity |
| `Members.WithoutDistributes` | backend/src/controllers/group.controller.js:200-202 | filtering a concatenation is the concatenation of the filtered parts, so the remaining members keep their relative order |
| `Members.WithoutAbsentId` | backend/src/controllers/group.controller.js:200-202 | removing an id that is not in the list leaves the list unchanged |
| `Members.WithoutKeepsNoDup` | backend/src/controllers/group.controller.js:235-237 | filtering a duplicate-free member list keeps it duplicate-free |
| `Members.Absent` | backend/src/controllers/group.controller.js:160-162 | the kept request ids are exactly those of the request not already in the group, each kept as many times as the request repeats it |
| `Members.AbsentDistributes` | backend/src/controllers/group.controller.js:160-162 | selecting the absent ids distributes over concatenation of the request, so the kept ids keep the request's order |
| `Members.AddAbsent` | backend/src/controllers/group.controller.js:159-164 | the old member list is an unchanged prefix of the result, every appended id was absent before and requested, the appended part is exactly the request's absent ids (in request order, with repetitions), and the result holds exactly the old members and the requested ids |
| `Members.AbsentKeepsNoDup` | backend/src/controllers/group.controller.js:160-162 | a duplicate-free request yields a duplicate-free list of ids to append |
| `Members.AddAbsentKeepsNoDup` | backend/src/controllers/group.controller.js:159-164 | a duplicate-free group and a duplicate-free request give a duplicate-free member list |
| `Members.AddAbsentIdempotent` | backend/src/controllers/group.controller.js:159-164 | appending the same request a second time changes nothing |
| `Members.AddAbsentKeepsRequestDuplicates` | backend/src/controllers/group.controller.js:160-162 | an absent id requested twice is appended twice, so the member list then has a duplicate |
| `Messages.GroupMessage` | backend/src/controllers/group.controller.js:249-258 | the message built for a group send belongs to that group's thread |
| `Messages.Thread` | backend/src/controllers/group.controller.js:277-281 | the thread holds exactly the log's group-flagged messages addressed to the group, and is in ascending timestamp order when the log is |
| `Messages.ThreadOfUnaddressed` | backend/src/controllers/group.controller.js:278-281 | a group id to which no stored message is addressed has an empty thread |
| `Messages.ThreadAppend` | backend/src/controllers/group.controller.js:313-315 | appending a message extends its group's thread by exactly that message at the end and leaves other threads unchanged |
| `GroupController.FetchAsAdmin` | backend/src/controllers/group.controller.js:89-96 | an absent group gives NotFound before anything else, an existing group whose admin is not the caller gives Forbidden, and success returns the stored group exactly when the caller is its admin |
| `GroupController.GetGroupById` | backend/src/controllers/group.controller.js:61-72 | an absent group gives NotFound, a non-member gets Forbidden, and a member gets the stored group; success holds exactly for members |
| `GroupController.GetUserGroups` | backend/src/controllers/group.controller.js:45-47 | the result holds exactly the groups whose member list contains the caller, with their stored records |
| `GroupController.CreateGroup` | backend/src/controllers/group.controller.js:9-29 | for an unused group id: fails with Validation exactly when the name is empty; otherwise adds exactly one group under the new id, leaving other groups and the log unchanged, whose admin is the caller and whose members are the requested list followed by the caller, so the admin is a member |
| `GroupController.UpdateGroup` | backend/src/controllers/group.controller.js:87-108 | NotFound then Forbidden guards, success exactly for the admin; a non-empty name or description replaces the stored one and an empty one keeps it; the image changes only for a non-empty new image different from the stored one; admin and members are untouched |
| `GroupController.DeleteGroup` | backend/src/controllers/group.controller.js:122-133 | NotFound then Forbidden guards, success exactly for the admin; exactly that group leaves the directory, all other groups and the whole message log are unchanged |
| `GroupController.AddGroupMembers` | backend/src/controllers/group.controller.js:148-166 | NotFound then Forbidden guards, success exactly for the admin; only the member list changes, it becomes the old list followed by the request's absent ids in request order with repetitions (`AddAbsent`), so the old list is its prefix, every appended id was absent and requested, and the result holds exactly the old members and the requested ids |
| `GroupController.RemoveGroupMember` | backend/src/controllers/group.controller.js:184-204 | NotFound, then Forbidden for a non-admin, then InvalidOperation for removing the admin; otherwise only the member list changes, to the old list with that id filtered out (`Without`): every copy of the id is gone, every other member keeps its order and multiplicity, and the admin remains a member |
| `GroupController.LeaveGroup` | backend/src/controllers/group.controller.js:218-239 | NotFound, then Forbidden for a non-member, then InvalidOperation for the admin; otherwise the member list becomes the old list with the caller filtered out (`Without`): only the caller's copies leave and every other member keeps its order and multiplicity |
| `GroupController.SendGroupMessage` | backend/src/controllers/group.controller.js:296-315 | NotFound then Forbidden for a non-member, success exactly for members; one message is appended with the caller as sender, the group as receiver, the group flag set, the request's text, the uploaded image URL when an image was sent, and a timestamp later than every stored message; groups are unchanged |
| `GroupController.GetGroupMessages` | backend/src/controllers/group.controller.js:266-281 | NotFound then Forbidden for a non-member, success exactly for members; the result holds exactly the log's group-flagged messages for that group, in ascending timestamp order |
| `Properties.AddGroupMembersIdempotent` | backend/src/controllers/group.controller.js:159-166 | adding the same request twice gives the same member list and state as adding it once |
| `Properties.RemovedMemberLosesAccess` | backend/src/controllers/group.controller.js:272-275 | after a member is removed, that user is Forbidden to read the thread, to send to it and to fetch the group |
| `Properties.LeaverLosesAccess` | backend/src/controllers/group.controller.js:234-237 | after leaving, the leaver is Forbidden to read the thread while every other user reads exactly what they read before |
| `Properties.DeleteKeepsMessages` | backend/src/controllers/group.controller.js:133 | deleting a group keeps the log and the group's thread in it, while reads of the thread now give NotFound |
| `Properties.SendThenRead` | backend/src/controllers/group.controller.js:278-281 | after a successful send, the sender's read of the thread is the previous thread followed by the new message |
| `Properties.SendsReadInOrder` | backend/src/controllers/group.controller.js:278-281 | two messages sent one after another are read back last-but-one and last, in sending order, with increasing timestamps |
| `Properties.UserGroupsMatchGetById` | backend/src/controllers/group.controller.js:40-79 | a group is in the user's listing exactly when the member-only fetch of it succeeds, with the same record |
| `Properties.UpdateKeepsAccess` | backend/src/controllers/group.controller.js:104-108 | an update leaves every user's member and admin access, and their read of the thread, as they were |
| `Properties.UpdateTextIdempotent` | backend/src/controllers/group.controller.js:104-105 | repeating an update gives the same name, description and members as a single update |
| `Properties.CreatorCanRead` | backend/src/controllers/group.controller.js:23-31 | right after creating a group its creator can fetch it and reads an empty thread |
| `Traces.ApplyKeepsValid` | backend/src/controllers/group.controller.js:7-325 | every mutating handler keeps every group's admin among its members and keeps the log in timestamp order below the clock |
| `Traces.RunKeepsValid` | backend/src/controllers/group.controller.js:7-325 | the invariant holds after any sequence of requests from a state satisfying it |
| `Traces.ReachableValid` | backend/src/controllers/group.controller.js:27 | in every state reachable from the empty system, every group's admin is one of its members |
| `Traces.ApplyExtendsLog` | backend/src/controllers/group.controller.js:313-315 | no handler removes or rewrites a message: the old log is a prefix of the new one and the clock never goes back |
| `Traces.RunExtendsLog` | backend/src/controllers/group.controller.js:313-315 | along any sequence of requests the message log only grows at its end |
| `Scenarios.CreateTeam` | backend/src/controllers/group.controller.js:27 | creating "Team" as u1 with [u2] requested gives admin u1, members [u2, u1], and the group is listed for both users |
| `Scenarios.CreateWithoutName` | backend/src/controllers/group.controller.js:12-14 | a creation with an empty name gives Validation and leaves the state unchanged |
| `Scenarios.DeletedThreadNotInherited` | backend/src/controllers/group.controller.js:133 | after deleting a group that has messages, a creation under its id is refused, so no new group inherits the old thread |
| `Scenarios.CreateKeepsAdminDuplicate` | backend/src/controllers/group.controller.js:27 | a creator who lists themself in the request appears twice in the member list |
| `Scenarios.AdminSendsHi` | backend/src/controllers/group.controller.js:313-315 | the admin's "hi" is stored once as a group message from the admin, and every member reads it |
| `Scenarios.OutsiderCannotSend` | backend/src/controllers/group.controller.js:302-305 | a non-member's send gives Forbidden and appends nothing |
| `Scenarios.AdminCannotBeRemoved` | backend/src/controllers/group.controller.js:195-198 | the admin removing themself gives InvalidOperation and the state is unchanged, whatever else it holds |
| `Scenarios.AdminCannotLeave` | backend/src/controllers/group.controller.js:229-232 | in a valid state the admin leaving gives InvalidOperation and the state is unchanged |
| `Scenarios.LeaveThenRead` | backend/src/controllers/group.controller.js:234-237 | after u2 leaves, u2's read gives Forbidden while the admin still reads the whole thread, including messages sent while u2 was a member |

## Left out

- Image upload to the content store (`group.controller.js:17-20`, `98-102`, `308-311`): a network call, modelled as the pure parameter `upload`; its failures (a 500 response with no state change) are not modelled.
- The real-time `newGroupMessage` emit on the `group:<id>` channel (`group.controller.js:318`): fire-and-forget fanout with no result the handler observes.
- The `.populate` projections of `getUserGroups`, `getGroupById` and `addGroupMembers`' response: storage-library behaviour; the model returns the stored records.
- HTTP status codes, JSON bodies and the catch-all 500 handlers: mapped to the error variants; runtime exceptions (for example a request without a `members` array, which makes the spread or filter throw) are not modelled.
- The route table (`backend/src/routes/group.route.js`): routing only, no logic.
- The message schema (`backend/src/models/message.model.js`): used only for the message record's fields.
- Concurrent requests and last-writer-wins on `members`: the model applies requests one at a time.
- Direct (user-to-user) messages: another controller writes them; the log may hold them, and they never appear in a group thread.
- The group schema's `trim` of the name: `backend/src/models/group.model.js` is not part of this model; the name check is the handler's emptiness test.
- Properties.UpdateTextIdempotent: says nothing about the image, because a second update re-uploads whenever the stored URL differs from the request's image, and the model's `upload` is arbitrary.
- GroupController.CreateGroup: requires an unused group id (no stored group and no stored message uses it), because the store allocates a fresh ObjectId to every new document and never reuses one; a colliding id is not modelled.
