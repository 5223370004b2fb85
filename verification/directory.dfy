/** Group records and the membership guard evaluated against them. */
module Directory {
  import opened Types

  /** A group document. `description` and `image` use the empty string for
      "not set", as the group schema's defaults do. `members` is an ordered list
      that may hold an id more than once. */
  datatype Group = Group(
    name: string,
    description: string,
    admin: Id,
    members: seq<Id>,
    image: string)

  /** `user` occurs in the group's member list. */
  predicate IsMember(g: Group, user: Id)
  {
    user in g.members
  }

  /** `user` is the group's admin. */
  predicate IsAdmin(g: Group, user: Id)
  {
    g.admin == user
  }

  /** The directory invariant: the admin is one of the members. */
  predicate AdminIsMember(g: Group)
  {
    IsMember(g, g.admin)
  }

  /** The invariant holds of every group of a directory. */
  predicate AllAdminsMembers(groups: map<Id, Group>)
  {
    forall id :: id in groups ==> AdminIsMember(groups[id])
  }
}
