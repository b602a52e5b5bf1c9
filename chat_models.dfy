/** The chat records: the `Message` log and the `DeletedChat` watermarks.

    The log is kept in the order messages were stored. Timestamps are the creation
    time (`auto_now_add`) read from a clock that never runs backwards, so storage order
    is also timestamp order, the order the model declares (`ordering = ['timestamp']`).
    A DeletedChat row is keyed by its `unique_together` key (user, other_user), so the
    watermarks are a map from ordered pairs: at most one per pair, and the row of
    (a, b) is independent of the row of (b, a). */
module ChatModels {
  import opened Wrappers
  import opened AccountsModels

  datatype Message = Message(sender: UserId, receiver: UserId, content: string, timestamp: int, read: bool)

  /** A stored message starts unread. */
  function NewMessage(sender: UserId, receiver: UserId, content: string, now: int): (m: Message)
    ensures !m.read && m.sender == sender && m.receiver == receiver
    ensures m.content == content && m.timestamp == now
  {
    Message(sender, receiver, content, now, false)
  }

  /** DeletedChat rows: (user, other_user) -> deleted_at. */
  type Watermarks = map<(UserId, UserId), int>

  /** Timestamps never decrease along the log. */
  predicate Ordered(log: seq<Message>) {
    forall i, j :: 0 <= i < j < |log| ==> log[i].timestamp <= log[j].timestamp
  }

  /** No stored message is later than `now`: the clock has not run backwards. */
  predicate ClockAfter(log: seq<Message>, now: int) {
    log == [] || log[|log| - 1].timestamp <= now
  }

  lemma {:induction false} AppendKeepsOrdered(log: seq<Message>, m: Message)
    requires Ordered(log) && ClockAfter(log, m.timestamp)
    ensures Ordered(log + [m])
  {
    var log' := log + [m];
    forall i, j | 0 <= i < j < |log'|
      ensures log'[i].timestamp <= log'[j].timestamp
    {
      if j == |log| && i < |log| - 1 {
        assert log[i].timestamp <= log[|log| - 1].timestamp;
      }
    }
  }

  /** Upserting the watermark of (owner, peer) leaves every other owner's watermark
      as it was, including the reverse pair's. */
  lemma WatermarksPerOwner(w: Watermarks, owner: UserId, peer: UserId, now: int, k: (UserId, UserId))
    requires k != (owner, peer)
    ensures k in w[(owner, peer) := now] <==> k in w
    ensures k in w ==> w[(owner, peer) := now][k] == w[k]
  {
  }

  /** The two chat tables as the database holds them. */
  datatype ChatState = ChatState(messages: seq<Message>, deletedAt: Watermarks)

  class ChatTables {
    var messages: seq<Message>
    var deletedAt: Watermarks

    constructor (s: ChatState)
      ensures Snapshot() == s
    {
      messages := s.messages;
      deletedAt := s.deletedAt;
    }

    function Snapshot(): ChatState
      reads this
    {
      ChatState(messages, deletedAt)
    }

    /** `Message.objects.create(...)`. */
    method Create(sender: UserId, receiver: UserId, content: string, now: int)
      modifies this
      ensures messages == old(messages) + [NewMessage(sender, receiver, content, now)]
      ensures deletedAt == old(deletedAt)
    {
      messages := messages + [NewMessage(sender, receiver, content, now)];
    }

    /** `DeletedChat.objects.update_or_create(user=owner, other_user=peer,
        defaults={'deleted_at': now})`. */
    method UpdateOrCreateDeletedChat(owner: UserId, peer: UserId, now: int)
      modifies this
      ensures deletedAt == old(deletedAt)[(owner, peer) := now]
      ensures messages == old(messages)
    {
      deletedAt := deletedAt[(owner, peer) := now];
    }

    /** `update(read=True)` on the messages from `from` to `to` that `Selected` picks
        (those after `after`, when a cursor is given), one row at a time. */
    method MarkRead(from: UserId, to: UserId, after: Option<int>)
      modifies this
      ensures messages == MarkedRead(old(messages), from, to, after)
      ensures deletedAt == old(deletedAt)
    {
      var i := 0;
      while i < |messages|
        invariant 0 <= i <= |messages| == |old(messages)|
        invariant forall k :: 0 <= k < i ==> messages[k] == MarkedRead(old(messages), from, to, after)[k]
        invariant forall k :: i <= k < |messages| ==> messages[k] == old(messages)[k]
        invariant deletedAt == old(deletedAt)
      {
        if Selected(messages[i], from, to, after) {
          messages := messages[i := messages[i].(read := true)];
        }
        i := i + 1;
      }
    }
  }

  /** The messages from `from` to `to`, after the cursor when one is given. */
  predicate Selected(m: Message, from: UserId, to: UserId, after: Option<int>) {
    m.sender == from && m.receiver == to && (after.None? || m.timestamp > after.value)
  }

  function MarkedRead(log: seq<Message>, from: UserId, to: UserId, after: Option<int>): (log': seq<Message>)
    ensures |log'| == |log|
  {
    seq(|log|, i requires 0 <= i < |log| =>
      if Selected(log[i], from, to, after) then log[i].(read := true) else log[i])
  }

  /** Marking read sets the flag on exactly the selected messages that were unread;
      every other message, and every other field, is unchanged, so the log stays
      ordered. */
  lemma {:induction false} MarkedReadOutcome(log: seq<Message>, from: UserId, to: UserId, after: Option<int>)
    ensures var log' := MarkedRead(log, from, to, after);
      && (forall i :: 0 <= i < |log| ==> log'[i].read == (log[i].read || Selected(log[i], from, to, after)))
      && (forall i :: 0 <= i < |log| ==> log'[i] == log[i].(read := log'[i].read))
      && (forall i :: 0 <= i < |log| ==> (log'[i] != log[i] <==> Selected(log[i], from, to, after) && !log[i].read))
      && (Ordered(log) ==> Ordered(log'))
  {
    var log' := MarkedRead(log, from, to, after);
    assert forall i :: 0 <= i < |log| ==> log'[i].timestamp == log[i].timestamp;
  }
}
