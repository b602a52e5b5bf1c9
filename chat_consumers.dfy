/** The live chat connection (`ChatConsumer`): joining the conversation's room group
    on connect, leaving it on disconnect, storing and broadcasting a received message,
    and forwarding a broadcast to the socket.

    The channel layer is a sequential registry of groups (group name -> channel names)
    together with the log of group broadcasts; delivering a broadcast to each member's
    `chat_message` and the socket itself are outside the model. */
module ChatConsumers {
  import opened Wrappers
  import opened Text
  import opened AccountsModels
  import opened ChatModels

  /** The authenticated user of a connection. */
  datatype Account = Account(id: UserId, username: string)

  // ---------------------------------------------------------------------------
  // Room names
  // ---------------------------------------------------------------------------

  /** `sorted([a, b])`. */
  function SortedPair(a: string, b: string): (p: (string, string))
    ensures (p.0 == a && p.1 == b) || (p.0 == b && p.1 == a)
    ensures !Less(p.1, p.0)
  {
    LessTrichotomy(a, b);
    if Less(b, a) then (b, a) else (a, b)
  }

  /** The room name as the consumer derives it: "chat_" and the two usernames, sorted,
      joined with '_'. */
  function RoomNameAsWritten(a: string, b: string): (name: string)
    ensures var p := SortedPair(a, b); name == "chat_" + p.0 + "_" + p.1
  {
    var p := SortedPair(a, b);
    assert [p.0, p.1][1..] == [p.1];
    assert Join([p.0, p.1], '_') == p.0 + "_" + p.1;
    "chat_" + Join([p.0, p.1], '_')
  }

  /** Both parties derive the same name. */
  lemma {:induction false} RoomNameAsWrittenSymmetric(a: string, b: string)
    ensures RoomNameAsWritten(a, b) == RoomNameAsWritten(b, a)
  {
    LessTrichotomy(a, b);
  }

  /** Usernames may contain '_', so two different conversations can share a room:
      "a_b" talking to "c" and "a" talking to "b_c" both join "chat_a_b_c", and each
      broadcast reaches the other pair's sockets. */
  lemma RoomNameAsWrittenCollides()
    ensures RoomNameAsWritten("a_b", "c") == RoomNameAsWritten("a", "b_c") == "chat_a_b_c"
    ensures {"a_b", "c"} != {"a", "b_c"}
  {
    assert Less("a_b", "c");
    assert Less("a", "b_c");
    assert "a" !in {"a_b", "c"};
  }

  /** The room name used by this model: the two user ids, smaller first, in decimal,
      after "chat" and separated by '_'. Digits contain no '_', so the name determines
      the pair. */
  function RoomName(a: UserId, b: UserId): string {
    var lo := if a <= b then a else b;
    var hi := if a <= b then b else a;
    Join(["chat", DecimalString(lo), DecimalString(hi)], '_')
  }

  lemma RoomNameSymmetric(a: UserId, b: UserId)
    ensures RoomName(a, b) == RoomName(b, a)
  {
  }

  lemma DecimalStringHasNoUnderscore(n: nat)
    ensures '_' !in DecimalString(n)
  {
    var s := DecimalString(n);
    forall k | 0 <= k < |s| ensures s[k] != '_' {
      assert IsDigit(s[k]);
    }
  }

  /** Two rooms are the same exactly when they belong to the same pair of users. */
  lemma {:induction false} RoomNameInjective(a: UserId, b: UserId, c: UserId, d: UserId)
    ensures RoomName(a, b) == RoomName(c, d) <==> (a == c && b == d) || (a == d && b == c)
  {
    if RoomName(a, b) == RoomName(c, d) {
      var lo1, hi1 := if a <= b then a else b, if a <= b then b else a;
      var lo2, hi2 := if c <= d then c else d, if c <= d then d else c;
      var xs := ["chat", DecimalString(lo1), DecimalString(hi1)];
      var ys := ["chat", DecimalString(lo2), DecimalString(hi2)];
      DecimalStringHasNoUnderscore(lo1);
      DecimalStringHasNoUnderscore(hi1);
      DecimalStringHasNoUnderscore(lo2);
      DecimalStringHasNoUnderscore(hi2);
      assert '_' !in "chat";
      SplitJoin(xs, '_');
      SplitJoin(ys, '_');
      assert xs == ys;
      DecimalRoundTrip(lo1);
      DecimalRoundTrip(hi1);
      DecimalRoundTrip(lo2);
      DecimalRoundTrip(hi2);
      assert lo1 == lo2 && hi1 == hi2;
    }
  }

  // ---------------------------------------------------------------------------
  // The channel layer
  // ---------------------------------------------------------------------------

  /** The payload of `group_send`: `{'type': 'chat_message', 'message': ..., 'sender': ...}`. */
  datatype ChatEvent = ChatEvent(message: string, sender: string)

  /** The JSON frame sent to the socket. */
  datatype Frame = Frame(message: string, sender: string)

  function Members(groups: map<string, set<string>>, group: string): set<string> {
    if group in groups then groups[group] else {}
  }

  class GroupRegistry {
    var groups: map<string, set<string>>
    var published: seq<(string, ChatEvent)>

    constructor ()
      ensures groups == map[] && published == []
    {
      groups := map[];
      published := [];
    }

    /** `group_add`. */
    method GroupAdd(group: string, channel: string)
      modifies this
      ensures groups == old(groups)[group := Members(old(groups), group) + {channel}]
      ensures published == old(published)
    {
      groups := groups[group := Members(groups, group) + {channel}];
    }

    /** `group_discard`. */
    method GroupDiscard(group: string, channel: string)
      modifies this
      ensures groups == old(groups)[group := Members(old(groups), group) - {channel}]
      ensures published == old(published)
    {
      groups := groups[group := Members(groups, group) - {channel}];
    }

    /** `group_send`. */
    method GroupSend(group: string, event: ChatEvent)
      modifies this
      ensures published == old(published) + [(group, event)]
      ensures groups == old(groups)
    {
      published := published + [(group, event)];
    }
  }

  // ---------------------------------------------------------------------------
  // The consumer
  // ---------------------------------------------------------------------------

  datatype Status = Connecting | Accepted | Closed

  class ChatConsumer {
    const channelName: string
    /** `self.user`: None for an anonymous user. */
    var user: Option<Account>
    /** `self.other_user`, set once the other user is found. */
    var otherUser: Option<Account>
    /** `self.room_group_name`, set once the connection joins its room. */
    var roomGroupName: Option<string>
    var status: Status
    /** The frames written to the socket. */
    var sent: seq<Frame>

    /** The room and the other user are set together, for an authenticated user. */
    predicate Valid()
      reads this
    {
      (otherUser.Some? <==> roomGroupName.Some?) && (otherUser.Some? ==> user.Some?)
    }

    constructor (channelName: string)
      ensures Valid() && this.channelName == channelName
      ensures user.None? && otherUser.None? && roomGroupName.None? && status == Connecting && sent == []
    {
      this.channelName := channelName;
      user := None;
      otherUser := None;
      roomGroupName := None;
      status := Connecting;
      sent := [];
    }

    /** `connect`: an anonymous user, or a username nobody has, closes the connection
        without touching the registry; otherwise the connection joins the pair's room
        and is accepted. */
    method Connect(scopeUser: Option<Account>, otherUsername: string, users: map<string, Account>, reg: GroupRegistry)
      requires Valid() && status == Connecting && roomGroupName.None?
      modifies this, reg
      ensures Valid() && user == scopeUser && sent == old(sent)
      ensures reg.published == old(reg.published)
      ensures scopeUser.None? || otherUsername !in users ==>
                status == Closed && roomGroupName.None? && reg.groups == old(reg.groups)
      ensures scopeUser.Some? && otherUsername in users ==>
                var room := RoomName(scopeUser.value.id, users[otherUsername].id);
                && status == Accepted && otherUser == Some(users[otherUsername])
                && roomGroupName == Some(room)
                && reg.groups == old(reg.groups)[room := Members(old(reg.groups), room) + {channelName}]
                && channelName in reg.groups[room]
    {
      user := scopeUser;
      if scopeUser.None? {
        status := Closed;
        return;
      }
      if otherUsername !in users {
        status := Closed;
        return;
      }
      var other := users[otherUsername];
      otherUser := Some(other);
      var room := RoomName(scopeUser.value.id, other.id);
      roomGroupName := Some(room);
      reg.GroupAdd(room, channelName);
      status := Accepted;
    }

    /** `disconnect`: leave the room if one was joined. */
    method Disconnect(reg: GroupRegistry)
      modifies reg
      ensures reg.published == old(reg.published)
      ensures roomGroupName.None? ==> reg.groups == old(reg.groups)
      ensures roomGroupName.Some? ==>
                reg.groups == old(reg.groups)[roomGroupName.value := Members(old(reg.groups), roomGroupName.value) - {channelName}]
                && channelName !in reg.groups[roomGroupName.value]
    {
      if roomGroupName.Some? {
        reg.GroupDiscard(roomGroupName.value, channelName);
      }
    }

    /** `receive` with the decoded `message` field ("" when absent): a non-empty
        message from an authenticated user with a known other user is stored once and
        broadcast to the room; anything else does nothing. */
    method Receive(message: string, tables: ChatTables, reg: GroupRegistry, now: int)
      requires Valid()
      modifies tables, reg
      ensures tables.deletedAt == old(tables.deletedAt) && reg.groups == old(reg.groups)
      ensures message != "" && user.Some? && otherUser.Some? ==>
                && tables.messages == old(tables.messages) + [NewMessage(user.value.id, otherUser.value.id, message, now)]
                && reg.published == old(reg.published) + [(roomGroupName.value, ChatEvent(message, user.value.username))]
      ensures !(message != "" && user.Some? && otherUser.Some?) ==>
                tables.messages == old(tables.messages) && reg.published == old(reg.published)
    {
      if message != "" && user.Some? && otherUser.Some? {
        tables.Create(user.value.id, otherUser.value.id, message, now);
        reg.GroupSend(roomGroupName.value, ChatEvent(message, user.value.username));
      }
    }

    /** `chat_message`: the broadcast's message and sender go to the socket as they are. */
    method ChatMessage(event: ChatEvent)
      modifies this
      ensures sent == old(sent) + [Frame(event.message, event.sender)]
      ensures user == old(user) && otherUser == old(otherUser) && roomGroupName == old(roomGroupName)
      ensures status == old(status)
    {
      sent := sent + [Frame(event.message, event.sender)];
    }
  }
}
