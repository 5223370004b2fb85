/** The message store, restricted to what the group handlers use: an append-only
    log of messages and the retrieval of one group's thread in creation order.

    The store's message schema declares no `isGroupMessage` field, while the group
    handlers write that flag and filter on it. This model follows the handlers:
    every message carries the flag, and a group's thread is the flagged messages
    addressed to it. */
module Messages {
  import opened Types

  /** A stored message. `receiverId` holds a user id for a direct message and a
      group id for a group message; `isGroupMessage` tells the two apart.
      `createdAt` is the store's timestamp, modelled as a logical clock. */
  datatype Message = Message(
    senderId: Id,
    receiverId: Id,
    text: Option<string>,
    image: Option<string>,
    isGroupMessage: bool,
    createdAt: nat)

  /** Timestamps strictly increase along the log. */
  predicate Chronological(log: seq<Message>)
  {
    forall i, j :: 0 <= i < j < |log| ==> log[i].createdAt < log[j].createdAt
  }

  /** The log is chronological and every timestamp precedes the store's clock,
      so the next message stamped with the clock sorts after all others. */
  predicate Stamped(log: seq<Message>, clock: nat)
  {
    && Chronological(log)
    && forall i :: 0 <= i < |log| ==> log[i].createdAt < clock
  }

  /** A message belongs to the thread of group `groupId`. */
  predicate InThread(m: Message, groupId: Id)
  {
    m.isGroupMessage && m.receiverId == groupId
  }

  /** The message a group send stores: addressed to the group and flagged as a
      group message. */
  function GroupMessage(groupId: Id, senderId: Id, text: Option<string>, image: Option<string>, at: nat): (m: Message)
    ensures InThread(m, groupId)
  {
    Message(senderId, groupId, text, image, true, at)
  }

  /** The thread of `groupId`: the log's messages flagged as group messages and
      addressed to the group, in log order. */
  function Thread(log: seq<Message>, groupId: Id): (r: seq<Message>)
    ensures forall m :: m in r <==> m in log && InThread(m, groupId)
    ensures Chronological(log) ==> Chronological(r)
  {
    if |log| == 0 then []
    else
      var rest := Thread(log[1..], groupId);
      if InThread(log[0], groupId) then
        var r := [log[0]] + rest;
        assert Chronological(log) ==> Chronological(r) by {
          if Chronological(log) {
            forall i, j | 0 <= i < j < |r| ensures r[i].createdAt < r[j].createdAt {
              assert r[j] == rest[j - 1];
              if i == 0 {
                assert r[j] in log[1..];
                var k :| 0 <= k < |log[1..]| && log[1..][k] == r[j];
                assert log[k + 1] == r[j];
              } else {
                assert r[i] == rest[i - 1];
              }
            }
          }
        }
        r
      else rest
  }

  /** A group to which no stored message is addressed has an empty thread. */
  lemma ThreadOfUnaddressed(log: seq<Message>, groupId: Id)
    requires forall k :: 0 <= k < |log| ==> log[k].receiverId != groupId
    ensures Thread(log, groupId) == []
  {
  }

  /** Appending one message extends the thread of its group by that message and
      leaves every other thread as it was. */
  lemma {:induction false} ThreadAppend(log: seq<Message>, m: Message, groupId: Id)
    ensures Thread(log + [m], groupId) ==
      if InThread(m, groupId) then Thread(log, groupId) + [m] else Thread(log, groupId)
  {
    if |log| == 0 {
      assert log + [m] == [m];
    } else {
      assert (log + [m])[1..] == log[1..] + [m];
      ThreadAppend(log[1..], m, groupId);
    }
  }

  /** Stamping a message with the clock and advancing the clock keeps the log
      chronological. */
  lemma AppendKeepsStamped(log: seq<Message>, clock: nat, m: Message)
    requires Stamped(log, clock)
    requires m.createdAt == clock
    ensures Stamped(log + [m], clock + 1)
  {
  }
}
